/**
 * The new-entry-level registration page: the submission validator and payload
 * assembly of `handleSubmitEntry`, the program table with its in-place
 * selection flags, the hard-coded cutoff and the submit-disable rule.
 */
module NewEntryRegistration {
  import opened Common
  import opened Submission
  import Email
  import Cutoff

  /** The `entryData` state record, field by field in its declaration order. */
  datatype NewEntryForm = NewEntryForm(
    firstName: string,
    middleName: string,
    lastName: string,
    email: string,
    mobileNumber: string,
    birthDate: string,
    address: string,
    gender: Choice,
    endorsementLetter: Upload,
    fireCerts: Upload,
    govId: Upload,
    rebPrcId: Upload,
    rebFullName: string,
    programId: Option<int>,
    salesTeam: Choice,
    onSuccess: bool)

  /** The record's initial state. */
  const InitialForm: NewEntryForm :=
    NewEntryForm("", "", "", "", "", "2000-01-01", "", Chosen("Male"),
                 NoFiles, NoFiles, NoFiles, NoFiles, "", None, Unset, false)

  /** `Object.keys(entryData)` with their values, in the record's key order. */
  function Entries(f: NewEntryForm): (es: seq<(string, Value)>)
    ensures |es| == 16
  {
    [ ("firstName", Str(f.firstName)),
      ("middleName", Str(f.middleName)),
      ("lastName", Str(f.lastName)),
      ("email", Str(f.email)),
      ("mobileNumber", Str(f.mobileNumber)),
      ("birthDate", Str(f.birthDate)),
      ("address", Str(f.address)),
      ("gender", ChoiceValue(f.gender)),
      ("endorsementLetter", UploadValue(f.endorsementLetter)),
      ("fireCerts", UploadValue(f.fireCerts)),
      ("govId", UploadValue(f.govId)),
      ("rebPrcId", UploadValue(f.rebPrcId)),
      ("rebFullName", Str(f.rebFullName)),
      ("programId", IdValue(f.programId)),
      ("salesTeam", ChoiceValue(f.salesTeam)),
      ("onSuccess", Bool(f.onSuccess)) ]
  }

  /**
   * The `isNotFile` test exactly as the handler writes it: a disjunction of
   * four inequalities against four different names, so it holds for every key.
   */
  predicate IsNotFile(k: string)
  {
    k != "endorsementLetter" || k != "fireCerts" || k != "govId" || k != "rebPrcId"
  }

  /** No key is excluded by `isNotFile`, the file slots included. */
  lemma IsNotFileAlwaysHolds(k: string)
    ensures IsNotFile(k)
  {
  }

  /** An entry the field check counts: an empty string, or `null` anywhere but `rebPrcId`. */
  predicate IsMissing(e: (string, Value))
  {
    e.1 == Str("") || (e.1 == Null && e.0 != "rebPrcId")
  }

  /** The final `fieldCheckerCtr`: one per empty string, plus one per `null` outside `rebPrcId`. */
  function EmptyCount(es: seq<(string, Value)>): nat
  {
    if |es| == 0 then 0
    else
      var e := es[|es| - 1];
      EmptyCount(es[..|es| - 1])
      + (if e.1 == Str("") then 1 else 0)
      + (if e.1 == Null && e.0 != "rebPrcId" then 1 else 0)
  }

  /** The fields the key pass appends: every entry whose value is not the empty string, in order. */
  function KeptFields(es: seq<(string, Value)>): seq<FormEntry>
  {
    if |es| == 0 then []
    else
      var e := es[|es| - 1];
      KeptFields(es[..|es| - 1]) + (if e.1 != Str("") then [(Plain(e.0), Field(e.1))] else [])
  }

  /** The counter stays at zero exactly when no entry is missing. */
  lemma {:induction false} EmptyCountZeroIff(es: seq<(string, Value)>)
    ensures EmptyCount(es) == 0 <==> forall i :: 0 <= i < |es| ==> !IsMissing(es[i])
  {
    if |es| > 0 {
      var init := es[..|es| - 1];
      EmptyCountZeroIff(init);
      assert forall i :: 0 <= i < |init| ==> init[i] == es[i];
    }
  }

  /** With no empty string among the values, the key pass appends every entry, in key order. */
  lemma {:induction false} KeptFieldsAll(es: seq<(string, Value)>)
    requires forall i :: 0 <= i < |es| ==> es[i].1 != Str("")
    ensures KeptFields(es) == AllFields(es)
  {
    if |es| > 0 {
      var init := es[..|es| - 1];
      assert forall i :: 0 <= i < |init| ==> init[i] == es[i];
      KeptFieldsAll(init);
    }
  }

  /**
   * The `Object.keys(entryData).forEach` pass as the handler writes it,
   * `isNotFile` included: append non-empty values, count empty and `null` ones.
   */
  method CheckFields(es: seq<(string, Value)>) returns (fieldCheckerCtr: nat, formData: seq<FormEntry>)
    ensures fieldCheckerCtr == EmptyCount(es)
    ensures formData == KeptFields(es)
  {
    fieldCheckerCtr, formData := 0, [];
    var i := 0;
    while i < |es|
      invariant 0 <= i <= |es|
      invariant fieldCheckerCtr == EmptyCount(es[..i])
      invariant formData == KeptFields(es[..i])
    {
      assert es[..i + 1][..i] == es[..i];
      var (k, field) := es[i];
      var validField := field != Str("");
      var isNotFile := IsNotFile(k);
      if validField && isNotFile {
        formData := formData + [(Plain(k), Field(field))];
      } else {
        if isNotFile {
          fieldCheckerCtr := fieldCheckerCtr + 1;
        }
      }
      if field == Null && k != "rebPrcId" {
        fieldCheckerCtr := fieldCheckerCtr + 1;
      }
      i := i + 1;
    }
    assert es[..|es|] == es;
  }

  /** One single-file slot: `slot[0].type` must be whitelisted; the file is appended under `key`. */
  function SingleFile(u: Upload, key: string): FileScan
  {
    match FirstFile(u)
    case None => Thrown
    case Some(file) => if Accepted(file) then Scanned(0, [(Plain(key), Blob(file))]) else Scanned(1, [])
  }

  /**
   * The file-type pass, in the handler's order: `rebPrcId` only when not
   * `null`, then `endorsementLetter[0]`, `govId[0]`, and every file of `fireCerts`.
   */
  function FileScanOf(f: NewEntryForm): FileScan
  {
    Then(Then(Then(RebScan(f.rebPrcId),
                   SingleFile(f.endorsementLetter, "endorsementLetterFile")),
              SingleFile(f.govId, "govIdFile")),
         CertScan(f.fireCerts))
  }

  /** The optional `rebPrcId` slot: skipped while `null`. */
  function RebScan(u: Upload): FileScan
  {
    if u.NoFiles? then Scanned(0, []) else SingleFile(u, "rebPrcIdFile")
  }

  /** The fire-certificate list: `Array.from(null)` throws; otherwise every file is checked. */
  function CertScan(u: Upload): FileScan
  {
    match u
    case NoFiles => Thrown
    case Files(fs) => Scanned(RejectedCount(fs), AcceptedParts("fireCertFiles", fs))
  }

  /** Specification of the validator: field check, then e-mail, then file types, first failure wins. */
  function Validate(f: NewEntryForm): (r: Outcome)
    ensures r.EmptyFields? <==> EmptyCount(Entries(f)) > 0
    ensures r.BadEmail? ==> !Email.EmailValid(f.email)
    ensures !r.EmptyFields? && !r.BadEmail? ==> EmptyCount(Entries(f)) == 0 && Email.EmailValid(f.email)
  {
    var es := Entries(f);
    if EmptyCount(es) > 0 then EmptyFields
    else if !Email.EmailValid(f.email) then BadEmail
    else
      match FileScanOf(f)
      case Thrown => Fault
      case Scanned(rejected, parts) => if rejected > 0 then BadFileType else Submit(KeptFields(es) + parts)
  }

  /**
   * The file-type pass as the handler writes it: each check either appends the
   * file or bumps `fileTypeCheckerCtr`; reading a missing first file throws.
   */
  method CheckFileTypes(f: NewEntryForm) returns (thrown: bool, fileTypeCheckerCtr: nat, fileData: seq<FormEntry>)
    ensures thrown <==> FileScanOf(f).Thrown?
    ensures !thrown ==> FileScanOf(f) == Scanned(fileTypeCheckerCtr, fileData)
  {
    fileTypeCheckerCtr, fileData := 0, [];
    thrown := false;
    ghost var soFar := RebScan(f.rebPrcId);
    if f.rebPrcId != NoFiles {
      var first := FirstFile(f.rebPrcId);
      if first.None? {
        return true, 0, [];
      }
      if Accepted(first.value) {
        fileData := fileData + [(Plain("rebPrcIdFile"), Blob(first.value))];
      } else {
        fileTypeCheckerCtr := fileTypeCheckerCtr + 1;
      }
    }
    assert soFar == Scanned(fileTypeCheckerCtr, fileData);
    soFar := Then(soFar, SingleFile(f.endorsementLetter, "endorsementLetterFile"));
    var endorsement := FirstFile(f.endorsementLetter);
    if endorsement.None? {
      return true, 0, [];
    }
    if Accepted(endorsement.value) {
      fileData := fileData + [(Plain("endorsementLetterFile"), Blob(endorsement.value))];
    } else {
      fileTypeCheckerCtr := fileTypeCheckerCtr + 1;
    }
    assert soFar == Scanned(fileTypeCheckerCtr, fileData);
    soFar := Then(soFar, SingleFile(f.govId, "govIdFile"));
    var gov := FirstFile(f.govId);
    if gov.None? {
      return true, 0, [];
    }
    if Accepted(gov.value) {
      fileData := fileData + [(Plain("govIdFile"), Blob(gov.value))];
    } else {
      fileTypeCheckerCtr := fileTypeCheckerCtr + 1;
    }
    assert soFar == Scanned(fileTypeCheckerCtr, fileData);
    soFar := Then(soFar, CertScan(f.fireCerts));
    if f.fireCerts.NoFiles? {
      return true, 0, [];
    }
    var rejected, certParts := ScanFiles("fireCertFiles", f.fireCerts.files);
    fileTypeCheckerCtr := fileTypeCheckerCtr + rejected;
    fileData := fileData + certParts;
  }

  /**
   * `handleSubmitEntry`: validate step by step as the source does, then (only
   * for a complete payload) hand the POST's result to the response handling.
   */
  method HandleSubmitEntry(f: NewEntryForm, response: HttpResult) returns (effect: SubmitEffect)
    ensures effect == Effect(Validate(f), response)
  {
    var fieldCheckerCtr, formData := CheckFields(Entries(f));
    if fieldCheckerCtr > 0 {
      return Effect(EmptyFields, response);
    }
    if !Email.EmailValid(f.email) {
      return Effect(BadEmail, response);
    }
    var thrown, fileTypeCheckerCtr, fileData := CheckFileTypes(f);
    if thrown {
      return Effect(Fault, response);
    }
    if fileTypeCheckerCtr > 0 {
      return Effect(BadFileType, response);
    }
    effect := Effect(Submit(formData + fileData), response);
  }

  /** The form-level reading of the field check. */
  predicate MissingField(f: NewEntryForm)
  {
    f.firstName == "" || f.middleName == "" || f.lastName == "" || f.email == ""
    || f.mobileNumber == "" || f.birthDate == "" || f.address == ""
    || f.gender == Chosen("") || f.gender == Unset
    || f.endorsementLetter == NoFiles || f.fireCerts == NoFiles || f.govId == NoFiles
    || f.rebFullName == "" || f.programId == None
    || f.salesTeam == Chosen("") || f.salesTeam == Unset
  }

  /** The sixteen entries are all present exactly when the form-level reading says so. */
  lemma CompleteEntries(f: NewEntryForm)
    ensures (forall i :: 0 <= i < 16 ==> !IsMissing(Entries(f)[i])) <==> !MissingField(f)
  {
    var es := Entries(f);
    if !MissingField(f) {
      forall i | 0 <= i < 16 ensures !IsMissing(es[i]) {
        if i < 8 {
          if i < 4 {
            if i == 0 {} else if i == 1 {} else if i == 2 {} else {}
          } else {
            if i == 4 {} else if i == 5 {} else if i == 6 {} else {}
          }
        } else {
          if i < 12 {
            if i == 8 {} else if i == 9 {} else if i == 10 {} else {}
          } else {
            if i == 12 {} else if i == 13 {} else if i == 14 {} else {}
          }
        }
      }
    } else {
      assert IsMissing(es[0]) || IsMissing(es[1]) || IsMissing(es[2]) || IsMissing(es[3])
        || IsMissing(es[4]) || IsMissing(es[5]) || IsMissing(es[6]) || IsMissing(es[7])
        || IsMissing(es[8]) || IsMissing(es[9]) || IsMissing(es[10]) || IsMissing(es[12])
        || IsMissing(es[13]) || IsMissing(es[14]);
    }
  }

  /**
   * The empty-fields alert comes first and exactly when some text field is
   * empty, a choice or a required file slot is `null`, or no program is picked.
   * `rebPrcId` is optional, and a cleared choice (`undefined`) passes.
   */
  lemma ValidateEmptyFieldsIff(f: NewEntryForm)
    ensures Validate(f) == EmptyFields <==> MissingField(f)
  {
    EmptyCountZeroIff(Entries(f));
    CompleteEntries(f);
  }

  /** The e-mail check runs only once every field is present. */
  lemma ValidateBadEmailIff(f: NewEntryForm)
    ensures Validate(f) == BadEmail <==> !MissingField(f) && !Email.EmailValid(f.email)
  {
    ValidateEmptyFieldsIff(f);
  }

  /** A single-file slot that is present but empty (the dialog was cancelled) throws before any request. */
  predicate EmptyFileList(u: Upload)
  {
    u == Files([])
  }

  /** The file pass throws exactly on an empty list in one of the single-file slots. */
  lemma ValidateFaultIff(f: NewEntryForm)
    ensures Validate(f) == Fault <==>
      !MissingField(f) && Email.EmailValid(f.email)
      && (EmptyFileList(f.rebPrcId) || EmptyFileList(f.endorsementLetter) || EmptyFileList(f.govId))
  {
    ValidateEmptyFieldsIff(f);
  }

  /** A single-file slot with a file whose type is not whitelisted. */
  predicate FirstRejected(u: Upload)
  {
    u.Files? && |u.files| > 0 && !Accepted(u.files[0])
  }

  /**
   * The file-format alert follows the e-mail check and appears exactly when
   * the present REB/PRC id, the endorsement letter, the government id or any
   * fire certificate has a type outside the whitelist.
   */
  lemma ValidateBadFileTypeIff(f: NewEntryForm)
    ensures Validate(f) == BadFileType <==>
      !MissingField(f) && Email.EmailValid(f.email)
      && !(EmptyFileList(f.rebPrcId) || EmptyFileList(f.endorsementLetter) || EmptyFileList(f.govId))
      && (FirstRejected(f.rebPrcId) || FirstRejected(f.endorsementLetter) || FirstRejected(f.govId)
          || exists i :: 0 <= i < |f.fireCerts.files| && !Accepted(f.fireCerts.files[i]))
  {
    ValidateEmptyFieldsIff(f);
    if f.fireCerts.Files? {
      RejectedCountZeroIff(f.fireCerts.files);
    }
  }

  /** The files a complete form appends after its fields. */
  function FileEntries(f: NewEntryForm): seq<FormEntry>
    requires f.endorsementLetter.Files? && |f.endorsementLetter.files| > 0
    requires f.govId.Files? && |f.govId.files| > 0
    requires f.fireCerts.Files?
    requires f.rebPrcId.Files? ==> |f.rebPrcId.files| > 0
  {
    var certs := f.fireCerts.files;
    (if f.rebPrcId.Files? then [(Plain("rebPrcIdFile"), Blob(f.rebPrcId.files[0]))] else [])
    + [(Plain("endorsementLetterFile"), Blob(f.endorsementLetter.files[0])),
       (Plain("govIdFile"), Blob(f.govId.files[0]))]
    + IndexedFiles("fireCertFiles", certs)
  }

  /** A file pass that rejects nothing appends exactly the files of `FileEntries`. */
  lemma CleanFileScan(f: NewEntryForm, parts: seq<FormEntry>)
    requires FileScanOf(f) == Scanned(0, parts)
    ensures f.endorsementLetter.Files? && |f.endorsementLetter.files| > 0
    ensures f.govId.Files? && |f.govId.files| > 0 && f.fireCerts.Files?
    ensures f.rebPrcId.Files? ==> |f.rebPrcId.files| > 0
    ensures parts == FileEntries(f)
  {
    var certs := f.fireCerts.files;
    assert RejectedCount(certs) == 0;
    RejectedCountZeroIff(certs);
    AllAcceptedParts("fireCertFiles", certs);
  }

  /**
   * A submitted payload holds all sixteen fields under their own keys in key
   * order (the file slots, `programId` and `onSuccess` included, since
   * `isNotFile` excludes nothing), then `rebPrcIdFile` when present,
   * `endorsementLetterFile`, `govIdFile` and `fireCertFiles[i]` for every certificate.
   */
  lemma ValidateSubmitPayload(f: NewEntryForm)
    requires Validate(f).Submit?
    ensures f.endorsementLetter.Files? && |f.endorsementLetter.files| > 0
    ensures f.govId.Files? && |f.govId.files| > 0 && f.fireCerts.Files?
    ensures f.rebPrcId.Files? ==> |f.rebPrcId.files| > 0
    ensures Validate(f).formData == AllFields(Entries(f)) + FileEntries(f)
  {
    var es := Entries(f);
    EmptyCountZeroIff(es);
    KeptFieldsAll(es);
    var parts := FileScanOf(f).parts;
    CleanFileScan(f, parts);
  }

  // ---------------------------------------------------------------------
  // Program table, cutoff and submit button

  /** A program as `GET new-entry-programs` lists it. */
  datatype ProgramInfo = ProgramInfo(id: int, title: string, dateFrom: string, dateTo: string,
                                     creditUnits: string, entries: int, slots: int)

  /** A table row: the fetched program plus the `selected` UI flag. */
  datatype TableProgram = TableProgram(info: ProgramInfo, selected: bool)

  /** The fetched-program `map`: every program unselected, nothing else changed. */
  function TableOf(fetched: seq<ProgramInfo>): (rows: seq<TableProgram>)
    ensures |rows| == |fetched|
    ensures forall i :: 0 <= i < |rows| ==> rows[i].info == fetched[i] && !rows[i].selected
  {
    seq(|fetched|, i requires 0 <= i < |fetched| => TableProgram(fetched[i], false))
  }

  /** A program whose slots are all taken (`entries === slots`). */
  predicate IsFull(p: TableProgram)
  {
    p.info.entries == p.info.slots
  }

  /** Every row with its flag cleared. */
  function Deselected(s: seq<TableProgram>): seq<TableProgram>
  {
    seq(|s|, i requires 0 <= i < |s| => s[i].(selected := false))
  }

  /** The rows after picking row `idx`. */
  function Selected(s: seq<TableProgram>, idx: nat): seq<TableProgram>
    requires idx < |s|
  {
    Deselected(s)[idx := s[idx].(selected := true)]
  }

  /** After a pick, exactly the picked row is selected and no program's data changes. */
  lemma SelectedIsExclusive(s: seq<TableProgram>, idx: nat)
    requires idx < |s|
    ensures |Selected(s, idx)| == |s|
    ensures forall i :: 0 <= i < |s| ==> (Selected(s, idx)[i].selected <==> i == idx)
    ensures forall i :: 0 <= i < |s| ==> Selected(s, idx)[i].info == s[i].info
  {
  }

  /** `resetSelection`: clear the flag on every row, in place. */
  method ResetSelection(programs: array<TableProgram>)
    modifies programs
    ensures programs[..] == Deselected(old(programs[..]))
  {
    var idx := 0;
    while idx < programs.Length
      invariant 0 <= idx <= programs.Length
      invariant forall i :: 0 <= i < idx ==> programs[i] == old(programs[i]).(selected := false)
      invariant forall i :: idx <= i < programs.Length ==> programs[i] == old(programs[i])
    {
      programs[idx] := programs[idx].(selected := false);
      idx := idx + 1;
    }
  }

  /**
   * `handleSelectProgram(idx)`: a program with free slots becomes the only
   * selected one and its id is returned for `programId`; a full program
   * changes nothing and returns `None`.
   */
  method HandleSelectProgram(programs: array<TableProgram>, idx: nat) returns (picked: Option<int>)
    requires idx < programs.Length
    modifies programs
    ensures old(IsFull(programs[idx])) ==> picked == None && programs[..] == old(programs[..])
    ensures !old(IsFull(programs[idx])) ==>
      picked == Some(old(programs[idx].info.id)) && programs[..] == Selected(old(programs[..]), idx)
  {
    var prog := programs[idx];
    if IsFull(prog) {
      return None;
    }
    ResetSelection(programs);
    programs[idx] := programs[idx].(selected := true);
    picked := Some(prog.info.id);
  }

  /** Record a pick in the form; a full program leaves `programId` as it was. */
  function WithPick(f: NewEntryForm, picked: Option<int>): NewEntryForm
  {
    if picked.Some? then f.(programId := picked) else f
  }

  /** The date the page hard-codes as its cutoff. */
  const CutoffDate: Cutoff.Date := Cutoff.Date(2024, 6, 20)

  /**
   * `isCutOff` as the mount effect sets it: Manila now at or after
   * 2024-06-20 12:00:00, that is, at least as many seconds elapsed as at the cutoff.
   */
  predicate IsCutOff(now: Cutoff.DateTime): (c: bool)
    requires Cutoff.Valid(now)
    ensures c <==> Cutoff.Elapsed(now) >= Cutoff.Elapsed(Cutoff.Noon(CutoffDate))
  {
    Cutoff.AtOrAfterIsElapsedOrder(now, Cutoff.Noon(CutoffDate));
    Cutoff.AtOrAfter(now, Cutoff.Noon(CutoffDate))
  }

  /**
   * The flag is set exactly from the cutoff instant on: at 2024-06-20
   * 12:00:00 and at every later instant, and at no earlier one.
   */
  lemma CutOffByElapsedTime(now: Cutoff.DateTime, later: Cutoff.DateTime)
    requires Cutoff.Valid(now) && Cutoff.Valid(later)
    ensures IsCutOff(Cutoff.Noon(CutoffDate))
    ensures !IsCutOff(Cutoff.DateTime(2024, 6, 20, 11, 59, 59))
    ensures IsCutOff(now) && Cutoff.Elapsed(later) >= Cutoff.Elapsed(now) ==> IsCutOff(later)
  {
  }

  /** The Submit button's `disabled` prop; the page never reads `isCutOff`. */
  predicate SubmitDisabled(f: NewEntryForm)
  {
    f.programId == None
  }

  /**
   * Picking a program with free slots enables Submit and a full program
   * leaves the button as it was; the button reads no cutoff flag, so this
   * holds past the cutoff too.
   */
  lemma PickEnablesSubmit(f: NewEntryForm, id: int)
    ensures !SubmitDisabled(WithPick(f, Some(id)))
    ensures SubmitDisabled(WithPick(f, None)) == SubmitDisabled(f)
  {
  }
}
