/**
 * What the two review modals share: the status choice and the remarks field,
 * the optimistic in-place patch of the matching row, the status-update request
 * and its effect, the button colour, and how a file URL is displayed.
 */
module Review {
  import opened Common
  import Admin

  /** The three statuses the modal's button group offers. */
  datatype Status = Pending | Approved | Disapproved

  /** The string a status is stored and sent as. */
  function StatusName(s: Status): (n: string)
    ensures n == "pending" <==> s == Pending
    ensures n == "approved" <==> s == Approved
    ensures n == "disapproved" <==> s == Disapproved
  {
    match s
    case Pending => "pending"
    case Approved => "approved"
    case Disapproved => "disapproved"
  }

  /** The modal's own state: the chosen status and the remarks text. */
  datatype ModalState = ModalState(status: Status, remarks: string)

  /**
   * The state the modal mounts with: "approved" and empty remarks, whatever
   * the row's status. The modal mounts at the first opening and stays mounted,
   * so later openings start from what the previous one left (`LaterOpeningKeepsModal`).
   */
  const InitialModal: ModalState := ModalState(Approved, "")

  /** The remarks field is rendered only while "disapproved" is chosen. */
  predicate RemarksVisible(m: ModalState)
  {
    m.status == Disapproved
  }

  /** What the reviewer can do inside the modal: press a status button, or type into the remarks field. */
  datatype ModalEvent = Choose(choice: Status) | TypeRemarks(text: string)

  /** One event; typing has an effect only while the remarks field is on screen. */
  function Step(m: ModalState, e: ModalEvent): (m': ModalState)
    ensures e.Choose? ==> m'.status == e.choice && m'.remarks == m.remarks
    ensures e.TypeRemarks? ==> m'.status == m.status
    ensures e.TypeRemarks? ==> m'.remarks == (if RemarksVisible(m) then e.text else m.remarks)
  {
    match e
    case Choose(s) => m.(status := s)
    case TypeRemarks(t) => if RemarksVisible(m) then m.(remarks := t) else m
  }

  /**
   * The modal's state after a sequence of events from `m`: the status is the
   * starting one or one that was chosen, and so are the remarks.
   */
  function Run(m: ModalState, es: seq<ModalEvent>): (m': ModalState)
    ensures m'.status == m.status || exists i :: 0 <= i < |es| && es[i] == Choose(m'.status)
    ensures m'.remarks == m.remarks || exists i :: 0 <= i < |es| && es[i] == TypeRemarks(m'.remarks)
  {
    if |es| == 0 then m
    else
      var init := es[..|es| - 1];
      assert forall i :: 0 <= i < |init| ==> init[i] == es[i];
      Step(Run(m, init), es[|es| - 1])
  }

  /**
   * The status is the last one chosen (or "approved"), and the remarks are
   * empty or the text of some typing event: nothing else writes them, and
   * choosing another status does not clear them.
   */
  lemma RunKeepsTypedRemarks(es: seq<ModalEvent>)
    ensures var m := Run(InitialModal, es);
      (m.remarks == "" || exists i :: 0 <= i < |es| && es[i] == TypeRemarks(m.remarks))
      && ((forall i :: 0 <= i < |es| ==> !es[i].Choose?) ==> m.status == Approved)
  {
  }

  /** Without ever choosing "disapproved" the remarks stay empty. */
  lemma {:induction false} RemarksNeedDisapproval(es: seq<ModalEvent>)
    requires forall i :: 0 <= i < |es| ==> es[i] != Choose(Disapproved)
    ensures Run(InitialModal, es) == ModalState(Run(InitialModal, es).status, "")
    ensures Run(InitialModal, es).status != Disapproved
  {
    if |es| > 0 {
      var init := es[..|es| - 1];
      assert forall i :: 0 <= i < |init| ==> init[i] == es[i];
      RemarksNeedDisapproval(init);
    }
  }

  /** Remarks typed while disapproving survive a switch back to "approved". */
  lemma StaleRemarksAreKept(t: string, s: Status)
    ensures Run(InitialModal, [Choose(Disapproved), TypeRemarks(t), Choose(s)]) == ModalState(s, t)
  {
    var es := [Choose(Disapproved), TypeRemarks(t), Choose(s)];
    assert es[..2][..1] == [Choose(Disapproved)] && [Choose(Disapproved)][..0] == [];
    assert Run(InitialModal, es[..2]) == ModalState(Disapproved, t);
  }

  // ---------------------------------------------------------------------
  // The modal across openings

  /**
   * The admin page with its review modal: the page's view and the modal's own
   * state, absent until the first opening mounts the modal.
   */
  datatype Session = Session(view: Admin.AdminView, modal: Option<ModalState>)

  /** What happens on the page: opening a row's review, closing the modal, or an event inside it. */
  datatype SessionEvent = Open(id: int) | Close | Inside(e: ModalEvent)

  /**
   * One page event. Opening selects the row, shows the modal and mounts it
   * with its initial state the first time; nothing unmounts it or gives it a
   * new key, so later openings keep its state. Closing only hides it. Events
   * reach the modal only while it is shown.
   */
  function SessionStep(s: Session, ev: SessionEvent): (s': Session)
    ensures s'.view.rows == s.view.rows
    ensures s.modal.Some? && !ev.Inside? ==> s'.modal == s.modal
    ensures ev.Open? ==> s'.modal.Some? && s'.view == Admin.OpenConfirmation(s.view, ev.id)
  {
    match ev
    case Open(id) => Session(Admin.OpenConfirmation(s.view, id), if s.modal.None? then Some(InitialModal) else s.modal)
    case Close => s.(view := s.view.(confirmationOpen := false))
    case Inside(e) => if s.view.confirmationOpen && s.modal.Some? then s.(modal := Some(Step(s.modal.value, e))) else s
  }

  /** The session after a sequence of page events. */
  function SessionRun(s: Session, evs: seq<SessionEvent>): (s': Session)
    ensures s'.view.rows == s.view.rows
  {
    if |evs| == 0 then s else SessionStep(SessionRun(s, evs[..|evs| - 1]), evs[|evs| - 1])
  }

  /** Events typed or pressed inside the shown modal. */
  function Insides(es: seq<ModalEvent>): (evs: seq<SessionEvent>)
    ensures |evs| == |es|
    ensures forall i :: 0 <= i < |es| ==> evs[i] == Inside(es[i])
  {
    seq(|es|, i requires 0 <= i < |es| => Inside(es[i]))
  }

  /** Running two sequences of page events one after the other is running their concatenation. */
  lemma {:induction false} SessionRunAppend(s: Session, a: seq<SessionEvent>, b: seq<SessionEvent>)
    ensures SessionRun(s, a + b) == SessionRun(SessionRun(s, a), b)
    decreases |b|
  {
    if |b| > 0 {
      assert (a + b)[..|a + b| - 1] == a + b[..|b| - 1];
      SessionRunAppend(s, a, b[..|b| - 1]);
    } else {
      assert a + b == a;
    }
  }

  /** While the mounted modal is shown, events inside it run the modal and leave the page alone. */
  lemma {:induction false} InsidesRunTheModal(s: Session, es: seq<ModalEvent>)
    requires s.view.confirmationOpen && s.modal.Some?
    ensures SessionRun(s, Insides(es)) == s.(modal := Some(Run(s.modal.value, es)))
  {
    if |es| > 0 {
      assert Insides(es)[..|es| - 1] == Insides(es[..|es| - 1]);
      InsidesRunTheModal(s, es[..|es| - 1]);
    }
  }

  /**
   * Opening a second review after closing the first does not reset the modal:
   * it keeps, and sends, the status and remarks the first opening left, for the
   * second row. The status buttons show that status; the uncontrolled remarks
   * field remounts and appears empty.
   */
  lemma LaterOpeningKeepsModal(v: Admin.AdminView, first: int, es: seq<ModalEvent>, second: int)
    ensures var s := SessionRun(Session(v, None), [Open(first)] + Insides(es) + [Close, Open(second)]);
      s.modal == Some(Run(InitialModal, es))
      && s.view.selected == Admin.FindRow(v.rows, second) && s.view.confirmationOpen
  {
    var s0 := Session(v, None);
    var s1 := FirstOpening(v, first);
    SessionRunAppend(s0, [Open(first)], Insides(es));
    InsidesRunTheModal(s1, es);
    var s2 := s1.(modal := Some(Run(InitialModal, es)));
    SessionRunAppend(s0, [Open(first)] + Insides(es), [Close, Open(second)]);
    CloseThenOpen(s2, second);
  }

  /** The first opening mounts the modal in its initial state and shows it. */
  lemma FirstOpening(v: Admin.AdminView, id: int) returns (s: Session)
    ensures s == SessionRun(Session(v, None), [Open(id)])
    ensures s.modal == Some(InitialModal) && s.view.confirmationOpen
  {
    assert [Open(id)][..0] == [];
    s := SessionRun(Session(v, None), [Open(id)]);
  }

  /** Closing and opening again keeps a mounted modal's state and selects the new row. */
  lemma CloseThenOpen(s: Session, id: int)
    requires s.modal.Some?
    ensures var s' := SessionRun(s, [Close, Open(id)]);
      s'.modal == s.modal && s'.view.selected == Admin.FindRow(s.view.rows, id) && s'.view.confirmationOpen
  {
    assert [Close, Open(id)][..1] == [Close] && [Close][..0] == [];
    var closed := SessionStep(s, Close);
    assert SessionRun(s, [Close]) == closed;
    assert SessionRun(s, [Close, Open(id)]) == SessionStep(closed, Open(id));
  }

  /**
   * Disapproving one row with remarks, closing, and pressing "Update Status"
   * on a second row sends "disapproved" and those remarks for the second row.
   */
  lemma SecondReviewSendsEarlierChoice(v: Admin.AdminView, first: int, second: int, endpoint: Endpoint, response: HttpResult)
    ensures var s := SessionRun(Session(v, None),
                                [Open(first), Inside(Choose(Disapproved)), Inside(TypeRemarks("x")), Close, Open(second)]);
      s.modal == Some(ModalState(Disapproved, "x"))
      && UpdateOutcome(endpoint, true, s.modal.value, second, response).request
         == Some(StatusRequest(endpoint, "disapproved", "x", second))
  {
    var es := [Choose(Disapproved), TypeRemarks("x")];
    LaterOpeningKeepsModal(v, first, es, second);
    assert [Open(first)] + Insides(es) + [Close, Open(second)]
        == [Open(first), Inside(Choose(Disapproved)), Inside(TypeRemarks("x")), Close, Open(second)];
    assert Run(InitialModal, es) == ModalState(Disapproved, "x") by {
      assert es[..1] == [Choose(Disapproved)];
      assert es[..1][..0] == [];
    }
  }

  /** The "Update Status" button colour. */
  function ButtonColour(s: Status): (c: Colour)
    ensures c == SuccessColour <==> s == Approved
    ensures c == WarningColour <==> s == Pending
    ensures c == ErrorColour <==> s == Disapproved
  {
    match s
    case Approved => SuccessColour
    case Pending => WarningColour
    case Disapproved => ErrorColour
  }

  /**
   * The button shows the colour the row's badge takes once the status is
   * stored, except for "disapproved", where the badge says danger and the button error.
   */
  lemma ButtonMatchesBadge(s: Status)
    ensures s != Disapproved ==> ButtonColour(s) == Admin.StatusColour(StatusName(s))
    ensures s == Disapproved ==> ButtonColour(s) == ErrorColour && Admin.StatusColour(StatusName(s)) == DangerColour
  {
  }

  // ---------------------------------------------------------------------
  // Row patch

  /** The list after the status of the first row with `id` is overwritten; unchanged when there is none. */
  function PatchStatus(rows: seq<Admin.Row>, id: int, status: string): (p: seq<Admin.Row>)
    ensures |p| == |rows|
    ensures forall i :: 0 <= i < |rows| ==> p[i] == rows[i] || p[i] == rows[i].(status := status)
  {
    var k := FirstIndexOf(Admin.Ids(rows), id);
    if k < 0 then rows else rows[k := rows[k].(status := status)]
  }

  /**
   * A patch keeps the length, every other row, and every field of the patched
   * row but its status; looking the id up afterwards finds the new status.
   */
  lemma PatchStatusChangesOnlyOneRow(rows: seq<Admin.Row>, id: int, status: string)
    ensures var p := PatchStatus(rows, id, status);
      var k := FirstIndexOf(Admin.Ids(rows), id);
      |p| == |rows|
      && (forall i :: 0 <= i < |rows| && i != k ==> p[i] == rows[i])
      && (k >= 0 ==> p[k] == rows[k].(status := status))
      && Admin.Ids(p) == Admin.Ids(rows)
      && (k >= 0 ==> Admin.FindRow(p, id) == Some(rows[k].(status := status)))
      && (k < 0 ==> p == rows)
  {
  }

  /** Patching twice with the same status is patching once. */
  lemma PatchStatusIsIdempotent(rows: seq<Admin.Row>, id: int, status: string)
    ensures PatchStatus(PatchStatus(rows, id, status), id, status) == PatchStatus(rows, id, status)
  {
  }

  /**
   * `updateRowStatus`: find the first row with `id` and overwrite its status in
   * place. The copy the source makes is shallow, so the shared row object
   * changes; when no row matches, indexing at -1 throws and nothing changes.
   */
  method UpdateRowStatus(rows: array<Admin.Row>, id: int, status: string) returns (thrown: bool)
    modifies rows
    ensures thrown <==> FirstIndexOf(Admin.Ids(old(rows[..])), id) == -1
    ensures rows[..] == PatchStatus(old(rows[..]), id, status)
  {
    var rowIndex := FirstIndexOf(Admin.Ids(rows[..]), id);
    if rowIndex < 0 {
      return true;
    }
    rows[rowIndex] := rows[rowIndex].(status := status);
    thrown := false;
  }

  // ---------------------------------------------------------------------
  // Status update request

  /** The two status-update endpoints. */
  datatype Endpoint = UpdateNewEntryStatus | UpdateEntryStatus

  /** The PUT: its endpoint and its JSON body `{status, remarks, entryId}`. */
  datatype StatusRequest = StatusRequest(endpoint: Endpoint, status: string, remarks: string, entryId: int)

  const StatusUpdatedMessage: string := "Status updated successfully!"

  /** Everything one press of "Update Status" does besides patching the row. */
  datatype UpdateEffect = UpdateEffect(request: Option<StatusRequest>, alert: Option<Alert>, closed: bool, updating: bool)

  /**
   * The outcome of `handleUpdateStatus`: with a matching row the request is
   * sent with the modal's status and remarks; a 200 shows the success alert,
   * and a rejection is only logged. Without a matching row the patch throws
   * before any request. The modal closes and the progress flag drops in every case.
   */
  function UpdateOutcome(endpoint: Endpoint, found: bool, m: ModalState, id: int, response: HttpResult): (e: UpdateEffect)
    ensures e.closed && !e.updating
    ensures e.request.Some? <==> found
    ensures found ==> e.request.value == StatusRequest(endpoint, StatusName(m.status), m.remarks, id)
    ensures e.alert.Some? <==> found && response.Responded? && response.status == 200
    ensures e.alert.Some? ==> e.alert.value == Alert(Success, StatusUpdatedMessage)
  {
    if !found then UpdateEffect(None, None, true, false)
    else
      var alert := if response.Responded? && response.status == 200 then Some(Alert(Success, StatusUpdatedMessage)) else None;
      UpdateEffect(Some(StatusRequest(endpoint, StatusName(m.status), m.remarks, id)), alert, true, false)
  }

  /**
   * `handleUpdateStatus`: patch the row first, then send the request; the patch
   * is kept whatever the server answers.
   */
  method HandleUpdateStatus(endpoint: Endpoint, rows: array<Admin.Row>, m: ModalState, id: int, response: HttpResult)
    returns (effect: UpdateEffect)
    modifies rows
    ensures rows[..] == PatchStatus(old(rows[..]), id, StatusName(m.status))
    ensures effect == UpdateOutcome(endpoint, FirstIndexOf(Admin.Ids(old(rows[..])), id) >= 0, m, id, response)
  {
    var thrown := UpdateRowStatus(rows, id, StatusName(m.status));
    if thrown {
      return UpdateOutcome(endpoint, false, m, id, response);
    }
    var params := StatusRequest(endpoint, StatusName(m.status), m.remarks, id);
    var alert := if response.Responded? && response.status == 200 then Some(Alert(Success, StatusUpdatedMessage)) else None;
    effect := UpdateEffect(Some(params), alert, true, false);
  }

  /** A failed request leaves the optimistic patch in place: the row shows the new status regardless. */
  lemma FailedUpdateIsNotRolledBack(rows: seq<Admin.Row>, m: ModalState, id: int, response: HttpResult, endpoint: Endpoint)
    requires FirstIndexOf(Admin.Ids(rows), id) >= 0
    requires !(response.Responded? && response.status == 200)
    ensures UpdateOutcome(endpoint, true, m, id, response).alert.None?
    ensures var found := Admin.FindRow(PatchStatus(rows, id, StatusName(m.status)), id);
      found.Some? && found.value.status == StatusName(m.status)
  {
  }

  // ---------------------------------------------------------------------
  // File display

  /** `t` occurs in `s` at position `j`. */
  predicate OccursAt(s: string, t: string, j: int)
  {
    0 <= j && j + |t| <= |s| && s[j..j + |t|] == t
  }

  /** The first position at which `t` occurs in `s`, or -1 (`indexOf`). */
  function IndexOfSub(s: string, t: string): (r: int)
    ensures -1 <= r <= |s|
    ensures r == -1 <==> forall j :: 0 <= j <= |s| ==> !OccursAt(s, t, j)
    ensures r >= 0 ==> OccursAt(s, t, r) && forall j :: 0 <= j < r ==> !OccursAt(s, t, j)
    decreases |s|
  {
    if |s| < |t| then -1
    else if s[..|t|] == t then
      assert s[0..0 + |t|] == s[..|t|];
      assert OccursAt(s, t, 0);
      0
    else
      assert s[0..0 + |t|] == s[..|t|];
      assert !OccursAt(s, t, 0);
      var r := IndexOfSub(s[1..], t);
      ShiftOccurs(s, t);
      if r < 0 then -1
      else
        assert OccursAt(s, t, r + 1);
        r + 1
  }

  /** An occurrence in `s` past position 0 is an occurrence in `s[1..]` one place earlier. */
  lemma ShiftOccurs(s: string, t: string)
    requires |s| > 0
    ensures forall j :: 1 <= j <= |s| ==> (OccursAt(s, t, j) <==> OccursAt(s[1..], t, j - 1))
  {
  }

  /** `s.includes(t)` */
  predicate Includes(s: string, t: string)
  {
    IndexOfSub(s, t) >= 0
  }

  /**
   * `piece` is the part of `s` from `start` up to the next occurrence of `sep`
   * or the end: a slice of `s` without `sep` that ends at `sep` or at the end.
   */
  predicate IsPieceAt(s: string, sep: string, start: int, piece: string)
  {
    0 <= start && start + |piece| <= |s| && s[start..start + |piece|] == piece
    && !Includes(piece, sep)
    && (start + |piece| == |s| || OccursAt(s, sep, start + |piece|))
  }

  /**
   * `s.split(sep)[1]`: the text between the first and the second occurrence of
   * `sep` (or the end), or `undefined` when `sep` does not occur.
   */
  function SecondPiece(s: string, sep: string): (r: Option<string>)
    requires |sep| > 0
    ensures r.None? <==> !Includes(s, sep)
    ensures r.Some? ==> IsPieceAt(s, sep, IndexOfSub(s, sep) + |sep|, r.value)
  {
    var p := IndexOfSub(s, sep);
    if p < 0 then None else Some(PieceFrom(s, sep, p + |sep|))
  }

  /** The text of `s` from `start` up to the next occurrence of `sep` or the end. */
  function PieceFrom(s: string, sep: string, start: int): (piece: string)
    requires |sep| > 0 && 0 <= start <= |s|
    ensures IsPieceAt(s, sep, start, piece)
  {
    var rest := s[start..];
    var q := IndexOfSub(rest, sep);
    if q < 0 then
      assert s[start..|s|] == rest;
      rest
    else
      OccursInPrefix(rest, sep, q);
      assert s[..start] + rest == s;
      OccursInSuffix(s[..start], rest, sep, q);
      assert s[start..start + q] == rest[..q];
      rest[..q]
  }

  /** The prefix of `s` before the first occurrence of `t` holds no occurrence of `t`. */
  lemma OccursInPrefix(s: string, t: string, q: int)
    requires |t| > 0 && 0 <= q <= |s|
    requires forall j :: 0 <= j < q ==> !OccursAt(s, t, j)
    ensures !Includes(s[..q], t)
  {
    forall j | 0 <= j <= q
      ensures !OccursAt(s[..q], t, j)
    {
      if j + |t| <= q {
        assert s[..q][j..j + |t|] == s[j..j + |t|];
        assert OccursAt(s[..q], t, j) ==> OccursAt(s, t, j);
      }
    }
  }

  /** The bucket folder every requirement file is uploaded under. */
  const S3Prefix: string := "https://filipinohomes123.s3.ap-southeast-1.amazonaws.com/fh-docs/cpd-reg/requirements/"

  /** How one file is shown: a document as the text after the bucket prefix, anything else as an image. */
  datatype FileDisplay = DocumentName(name: Option<string>) | Image(src: string)

  /** `.pdf` and `.docx` URLs are shown by name, every other URL as an image. */
  function DisplayOf(url: string): (d: FileDisplay)
    ensures d.DocumentName? <==> Includes(url, ".pdf") || Includes(url, ".docx")
    ensures d.Image? ==> d.src == url
  {
    if Includes(url, ".pdf") || Includes(url, ".docx") then DocumentName(SecondPiece(url, S3Prefix))
    else Image(url)
  }

  /** An occurrence in `b` is an occurrence in `a + b`, `|a|` places later. */
  lemma OccursInSuffix(a: string, b: string, t: string, j: int)
    requires OccursAt(b, t, j)
    ensures OccursAt(a + b, t, |a| + j)
  {
  }

  /**
   * A document uploaded under the bucket prefix is shown by its file name, as
   * long as the name does not itself contain the prefix.
   */
  lemma DocumentShownByName(name: string)
    requires Includes(name, ".pdf") || Includes(name, ".docx")
    requires !Includes(name, S3Prefix)
    ensures DisplayOf(S3Prefix + name) == DocumentName(Some(name))
  {
    var url := S3Prefix + name;
    assert url[..|S3Prefix|] == S3Prefix;
    assert IndexOfSub(url, S3Prefix) == 0;
    assert url[|S3Prefix|..] == name;
    if Includes(name, ".pdf") {
      OccursInSuffix(S3Prefix, name, ".pdf", IndexOfSub(name, ".pdf"));
    } else {
      OccursInSuffix(S3Prefix, name, ".docx", IndexOfSub(name, ".docx"));
    }
  }

  /** A document stored anywhere else shows no name at all. */
  lemma ForeignDocumentShowsNothing(url: string)
    requires Includes(url, ".pdf") || Includes(url, ".docx")
    requires !Includes(url, S3Prefix)
    ensures DisplayOf(url) == DocumentName(None)
  {
  }
}
