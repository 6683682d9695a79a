/**
 * The CPD registration page: the submission validator and payload assembly of
 * `handleSubmitEntry`, the pick of the program by its 1-based route position,
 * the cutoff computed by `initializeRegistration`, the closed notice and the
 * submit-disable rule, and the augmentation of the fetched team list.
 */
module CpdRegistration {
  import opened Common
  import opened Submission
  import Email
  import Cutoff

  /** The `entryData` state record, field by field in its declaration order. */
  datatype CpdForm = CpdForm(
    firstName: string,
    middleName: string,
    lastName: string,
    email: string,
    mobileNumber: string,
    designation: Choice,
    files: Upload,
    programId: Option<int>,
    salesTeam: Choice,
    onSuccess: bool)

  /** The record's initial state. */
  const InitialForm: CpdForm :=
    CpdForm("", "", "", "", "", Chosen("Real Estate Salesperson"), NoFiles, None, Unset, false)

  /** `Object.keys(entryData)` with their values, in the record's key order. */
  function Entries(f: CpdForm): (es: seq<(string, Value)>)
    ensures |es| == 10
  {
    [ ("firstName", Str(f.firstName)),
      ("middleName", Str(f.middleName)),
      ("lastName", Str(f.lastName)),
      ("email", Str(f.email)),
      ("mobileNumber", Str(f.mobileNumber)),
      ("designation", ChoiceValue(f.designation)),
      ("files", UploadValue(f.files)),
      ("programId", IdValue(f.programId)),
      ("salesTeam", ChoiceValue(f.salesTeam)),
      ("onSuccess", Bool(f.onSuccess)) ]
  }

  /** An entry the field check counts: an empty string outside `files`, or a `null` anywhere. */
  predicate IsMissing(e: (string, Value))
  {
    (e.1 == Str("") && e.0 != "files") || e.1 == Null
  }

  /** The final `fieldCheckerCtr`: one per empty string outside `files`, plus one per `null`. */
  function EmptyCount(es: seq<(string, Value)>): nat
  {
    if |es| == 0 then 0
    else
      var e := es[|es| - 1];
      EmptyCount(es[..|es| - 1])
      + (if e.1 == Str("") && e.0 != "files" then 1 else 0)
      + (if e.1 == Null then 1 else 0)
  }

  /** The fields the key pass appends: every entry outside `files` whose value is not the empty string. */
  function KeptFields(es: seq<(string, Value)>): seq<FormEntry>
  {
    if |es| == 0 then []
    else
      var e := es[|es| - 1];
      KeptFields(es[..|es| - 1])
      + (if e.1 != Str("") && e.0 != "files" then [(Plain(e.0), Field(e.1))] else [])
  }

  /** The entries whose key is not `files`, in order. */
  function NonFileEntries(es: seq<(string, Value)>): seq<(string, Value)>
  {
    if |es| == 0 then []
    else
      var e := es[|es| - 1];
      NonFileEntries(es[..|es| - 1]) + (if e.0 != "files" then [e] else [])
  }

  /** The counter stays at zero exactly when no entry is missing. */
  lemma {:induction false} EmptyCountZeroIff(es: seq<(string, Value)>)
    ensures EmptyCount(es) == 0 <==> forall i :: 0 <= i < |es| ==> !IsMissing(es[i])
  {
    if |es| > 0 {
      var init := es[..|es| - 1];
      EmptyCountZeroIff(init);
      assert forall i :: 0 <= i < |init| ==> init[i] == es[i];
    }
  }

  /** With no empty string outside `files`, the key pass appends every other entry, in key order. */
  lemma {:induction false} KeptFieldsAll(es: seq<(string, Value)>)
    requires forall i :: 0 <= i < |es| ==> es[i].0 != "files" ==> es[i].1 != Str("")
    ensures KeptFields(es) == AllFields(NonFileEntries(es))
  {
    if |es| > 0 {
      var init := es[..|es| - 1];
      assert forall i :: 0 <= i < |init| ==> init[i] == es[i];
      KeptFieldsAll(init);
    }
  }

  /**
   * The `Object.keys(entryData).forEach` pass as the handler writes it: append
   * non-empty values outside `files`, count empty ones outside `files` and every `null`.
   */
  method CheckFields(es: seq<(string, Value)>) returns (fieldCheckerCtr: nat, formData: seq<FormEntry>)
    ensures fieldCheckerCtr == EmptyCount(es)
    ensures formData == KeptFields(es)
  {
    fieldCheckerCtr, formData := 0, [];
    var i := 0;
    while i < |es|
      invariant 0 <= i <= |es|
      invariant fieldCheckerCtr == EmptyCount(es[..i])
      invariant formData == KeptFields(es[..i])
    {
      assert es[..i + 1][..i] == es[..i];
      var (k, field) := es[i];
      var validField := field != Str("");
      if validField && k != "files" {
        formData := formData + [(Plain(k), Field(field))];
      } else {
        if k != "files" {
          fieldCheckerCtr := fieldCheckerCtr + 1;
        }
      }
      if field == Null {
        fieldCheckerCtr := fieldCheckerCtr + 1;
      }
      i := i + 1;
    }
    assert es[..|es|] == es;
  }

  /** The file pass: `Array.from(null)` throws; otherwise every file is checked and kept as `files[i]`. */
  function FileScanOf(f: CpdForm): FileScan
  {
    match f.files
    case NoFiles => Thrown
    case Files(fs) => Scanned(RejectedCount(fs), AcceptedParts("files", fs))
  }

  /** Specification of the validator: field check, then e-mail, then file types, first failure wins. */
  function Validate(f: CpdForm): (r: Outcome)
    ensures r.EmptyFields? <==> EmptyCount(Entries(f)) > 0
    ensures r.BadEmail? ==> !Email.EmailValid(f.email)
    ensures !r.EmptyFields? && !r.BadEmail? ==> EmptyCount(Entries(f)) == 0 && Email.EmailValid(f.email)
  {
    var es := Entries(f);
    if EmptyCount(es) > 0 then EmptyFields
    else if !Email.EmailValid(f.email) then BadEmail
    else
      match FileScanOf(f)
      case Thrown => Fault
      case Scanned(rejected, parts) => if rejected > 0 then BadFileType else Submit(KeptFields(es) + parts)
  }

  /**
   * `handleSubmitEntry`: validate step by step as the source does, then (only
   * for a complete payload) hand the POST's result to the response handling.
   */
  method HandleSubmitEntry(f: CpdForm, response: HttpResult) returns (effect: SubmitEffect)
    ensures effect == Effect(Validate(f), response)
  {
    var fieldCheckerCtr, formData := CheckFields(Entries(f));
    if fieldCheckerCtr > 0 {
      return Effect(EmptyFields, response);
    }
    if !Email.EmailValid(f.email) {
      return Effect(BadEmail, response);
    }
    if f.files.NoFiles? {
      return Effect(Fault, response);
    }
    var fileTypeCheckerCtr, fileData := ScanFiles("files", f.files.files);
    if fileTypeCheckerCtr > 0 {
      return Effect(BadFileType, response);
    }
    effect := Effect(Submit(formData + fileData), response);
  }

  /** The form-level reading of the field check. */
  predicate MissingField(f: CpdForm)
  {
    f.firstName == "" || f.middleName == "" || f.lastName == "" || f.email == "" || f.mobileNumber == ""
    || f.designation == Chosen("") || f.designation == Unset
    || f.files == NoFiles || f.programId == None
    || f.salesTeam == Chosen("") || f.salesTeam == Unset
  }

  /** The ten entries are all present exactly when the form-level reading says so. */
  lemma CompleteEntries(f: CpdForm)
    ensures (forall i :: 0 <= i < 10 ==> !IsMissing(Entries(f)[i])) <==> !MissingField(f)
  {
    var es := Entries(f);
    if !MissingField(f) {
      forall i | 0 <= i < 10 ensures !IsMissing(es[i]) {
        if i < 5 {
          if i == 0 {} else if i == 1 {} else if i == 2 {} else if i == 3 {} else {}
        } else {
          if i == 5 {} else if i == 6 {} else if i == 7 {} else if i == 8 {} else {}
        }
      }
    } else {
      assert IsMissing(es[0]) || IsMissing(es[1]) || IsMissing(es[2]) || IsMissing(es[3])
        || IsMissing(es[4]) || IsMissing(es[5]) || IsMissing(es[6]) || IsMissing(es[7])
        || IsMissing(es[8]);
    }
  }

  /**
   * The empty-fields alert comes first and exactly when some text field is
   * empty, a choice, the file list or the program is `null`; a cleared choice
   * (`undefined`) passes.
   */
  lemma ValidateEmptyFieldsIff(f: CpdForm)
    ensures Validate(f) == EmptyFields <==> MissingField(f)
  {
    EmptyCountZeroIff(Entries(f));
    CompleteEntries(f);
  }

  /** The e-mail check runs only once every field is present. */
  lemma ValidateBadEmailIff(f: CpdForm)
    ensures Validate(f) == BadEmail <==> !MissingField(f) && !Email.EmailValid(f.email)
  {
    ValidateEmptyFieldsIff(f);
  }

  /** The `null` file list is caught by the field check, so `Array.from` never throws here. */
  lemma ValidateNeverFaults(f: CpdForm)
    ensures Validate(f) != Fault
  {
    ValidateEmptyFieldsIff(f);
  }

  /**
   * The file-format alert follows the e-mail check and appears exactly when
   * some uploaded file has a type outside the whitelist.
   */
  lemma ValidateBadFileTypeIff(f: CpdForm)
    ensures Validate(f) == BadFileType <==>
      !MissingField(f) && Email.EmailValid(f.email)
      && exists i :: 0 <= i < |f.files.files| && !Accepted(f.files.files[i])
  {
    ValidateEmptyFieldsIff(f);
    if f.files.Files? {
      RejectedCountZeroIff(f.files.files);
    }
  }

  /** With no `files` key, nothing is dropped. */
  lemma {:induction false} NoFileKeys(es: seq<(string, Value)>)
    requires forall i :: 0 <= i < |es| ==> es[i].0 != "files"
    ensures NonFileEntries(es) == es
  {
    if |es| > 0 {
      var init := es[..|es| - 1];
      NoFileKeys(init);
      assert init + [es[|es| - 1]] == es;
    }
  }

  /** With `files` only at position `j`, exactly that entry is dropped. */
  lemma {:induction false} OneFileKey(es: seq<(string, Value)>, j: nat)
    requires j < |es| && es[j].0 == "files"
    requires forall i :: 0 <= i < |es| && i != j ==> es[i].0 != "files"
    ensures NonFileEntries(es) == es[..j] + es[j + 1..]
  {
    var init := es[..|es| - 1];
    if j == |es| - 1 {
      NoFileKeys(init);
      assert es[j + 1..] == [];
    } else {
      OneFileKey(init, j);
      assert init[..j] == es[..j];
      assert init[j + 1..] + [es[|es| - 1]] == es[j + 1..];
    }
  }

  /**
   * A submitted payload holds every field but `files` under its own key in
   * key order (`programId` and `onSuccess` included), then every uploaded
   * file as `files[i]` at its own index.
   */
  lemma ValidateSubmitPayload(f: CpdForm)
    requires Validate(f).Submit?
    ensures f.files.Files?
    ensures Validate(f).formData == AllFields(Entries(f)[..6] + Entries(f)[7..]) + IndexedFiles("files", f.files.files)
  {
    var es := Entries(f);
    EmptyCountZeroIff(es);
    KeptFieldsAll(es);
    OneFileKey(es, 6);
    RejectedCountZeroIff(f.files.files);
    AllAcceptedParts("files", f.files.files);
  }

  /** A concrete run: a complete form with an address lacking `@` stops at the e-mail check. */
  lemma BadEmailStopsSubmission(file: File)
    requires Accepted(file)
    ensures Validate(CpdForm("Ana", "B", "Cruz", "bad-email", "0917", Chosen("Real Estate Broker"),
                             Files([file]), Some(3), Chosen("Team A"), false)) == BadEmail
  {
    var f := CpdForm("Ana", "B", "Cruz", "bad-email", "0917", Chosen("Real Estate Broker"),
                     Files([file]), Some(3), Chosen("Team A"), false);
    assert !MissingField(f);
    Email.BadEmailIsRefused();
    ValidateBadEmailIff(f);
  }

  // ---------------------------------------------------------------------
  // Program, cutoff and submit control

  /** A program as `GET cpd-programs` lists it; `dateFrom` is its `date_from` calendar date. */
  datatype CpdProgram = CpdProgram(id: int, title: string, dateFrom: Cutoff.Date,
                                   entries: int, slots: int, status: string)

  /** `programs[parseInt(prog_id) - 1]`: the program at 1-based route position `progId`, if any. */
  function RouteProgram(programs: seq<CpdProgram>, progId: int): (r: Option<CpdProgram>)
    ensures r.Some? <==> 1 <= progId <= |programs|
    ensures r.Some? ==> r.value == programs[progId - 1]
  {
    if 1 <= progId <= |programs| then Some(programs[progId - 1]) else None
  }

  /**
   * `initializeRegistration(date_from, closed)`: registration is cut off once
   * the Manila wall clock reaches 12:00:00 on `date_from`, that is, once as
   * many seconds have elapsed as at that instant, or when the server reports
   * the program closed.
   */
  predicate IsCutOff(now: Cutoff.DateTime, dateFrom: Cutoff.Date, closed: bool): (c: bool)
    requires Cutoff.Valid(now) && Cutoff.ValidDate(dateFrom)
    ensures c <==> closed || Cutoff.Elapsed(now) >= Cutoff.Elapsed(Cutoff.Noon(dateFrom))
  {
    Cutoff.AtOrAfterIsElapsedOrder(now, Cutoff.Noon(dateFrom));
    Cutoff.AtOrAfter(now, Cutoff.Noon(dateFrom)) || closed
  }

  /**
   * The `program` state: `null` before the fetch, `undefined` after a fetch
   * whose route position holds no program, or the routed program.
   */
  datatype ProgramSlot = NotFetched | Absent | Routed(prog: CpdProgram)

  /** The page state the program fetch fills in. */
  datatype CpdPage = CpdPage(programs: seq<CpdProgram>, program: ProgramSlot, form: CpdForm, isCutOff: bool)

  /** Before the fetch: no programs, a `null` program, the initial form, not cut off. */
  const InitialPage: CpdPage := CpdPage([], NotFetched, InitialForm, false)

  /**
   * `fetchCPDPrograms`: store the list and the routed program (`undefined`
   * when there is none); for a routed program also set `programId` and the
   * cutoff flag. Reading `id` of `undefined` throws, so past that point
   * nothing more is set. The clock and the program's date are taken valid.
   */
  function LoadPrograms(page: CpdPage, programs: seq<CpdProgram>, progId: int, now: Cutoff.DateTime): (p: CpdPage)
    requires Cutoff.Valid(now)
    requires 1 <= progId <= |programs| ==> Cutoff.ValidDate(programs[progId - 1].dateFrom)
    ensures p.programs == programs
    ensures p.program.Absent? <==> !(1 <= progId <= |programs|)
    ensures p.program.Routed? ==> p.program.prog == programs[progId - 1]
    ensures p.program.Absent? ==> p.form == page.form && p.isCutOff == page.isCutOff
    ensures p.program.Routed? ==> p.form == page.form.(programId := Some(p.program.prog.id))
    ensures p.program.Routed? ==>
      (p.isCutOff <==> p.program.prog.status == "closed"
                       || Cutoff.Elapsed(now) >= Cutoff.Elapsed(Cutoff.Noon(p.program.prog.dateFrom)))
  {
    match RouteProgram(programs, progId)
    case None => page.(programs := programs, program := Absent)
    case Some(prog) =>
      CpdPage(programs, Routed(prog), page.form.(programId := Some(prog.id)),
              IsCutOff(now, prog.dateFrom, prog.status == "closed"))
  }

  /** What the page shows in place of the submit area. */
  datatype SubmitControl = ClosedNotice | SubmitButton(disabled: bool) | RenderFault

  /**
   * The render from the program details down to the submit area. An
   * `undefined` program passes the `program !== null` guard and throws on
   * `program.title`, before the submit area. Otherwise the closed notice
   * shows when cut off, else the submit button, disabled with no programs
   * or a full program; with programs but a `null` program, reading
   * `program.entries` throws.
   */
  function Control(page: CpdPage): (c: SubmitControl)
    ensures page.program.Absent? ==> c == RenderFault
    ensures c == ClosedNotice <==> !page.program.Absent? && page.isCutOff
    ensures c == SubmitButton(false) <==>
      page.program.Routed? && !page.isCutOff && |page.programs| > 0
      && page.program.prog.entries != page.program.prog.slots
  {
    match page.program
    case Absent => RenderFault
    case NotFetched =>
      if page.isCutOff then ClosedNotice
      else if |page.programs| == 0 then SubmitButton(true)
      else RenderFault
    case Routed(prog) =>
      if page.isCutOff then ClosedNotice
      else SubmitButton(|page.programs| == 0 || prog.entries == prog.slots || page.isCutOff)
  }

  /**
   * After a fetch that routes to a program, the closed notice shows exactly at
   * or after noon of its start date or when it is closed, and otherwise Submit
   * is enabled exactly when the program has free slots; the form then carries
   * the program's id.
   */
  lemma LoadedControl(page: CpdPage, programs: seq<CpdProgram>, progId: int, now: Cutoff.DateTime)
    requires Cutoff.Valid(now)
    requires 1 <= progId <= |programs| ==> Cutoff.ValidDate(programs[progId - 1].dateFrom)
    requires 1 <= progId <= |programs|
    ensures var p := LoadPrograms(page, programs, progId, now);
      var prog := programs[progId - 1];
      var noonReached := Cutoff.Elapsed(now) >= Cutoff.Elapsed(Cutoff.Noon(prog.dateFrom));
      (Control(p) == ClosedNotice <==> noonReached || prog.status == "closed")
      && (Control(p) == SubmitButton(false) <==> !noonReached && prog.status != "closed" && prog.entries != prog.slots)
      && p.form.programId == Some(prog.id)
  {
  }

  /**
   * Before the fetch Submit is disabled; after a fetch whose route position
   * holds no program, even an empty list, the render fails.
   */
  lemma UnroutedControl(page: CpdPage, programs: seq<CpdProgram>, progId: int, now: Cutoff.DateTime)
    requires Cutoff.Valid(now)
    requires 1 <= progId <= |programs| ==> Cutoff.ValidDate(programs[progId - 1].dateFrom)
    requires !(1 <= progId <= |programs|)
    ensures Control(InitialPage) == SubmitButton(true)
    ensures Control(LoadPrograms(page, programs, progId, now)) == RenderFault
  {
  }

  /** Once cut off, a later instant is cut off too. */
  lemma CutOffIsMonotone(now: Cutoff.DateTime, later: Cutoff.DateTime, dateFrom: Cutoff.Date, closed: bool)
    requires Cutoff.Valid(now) && Cutoff.Valid(later) && Cutoff.ValidDate(dateFrom)
    requires IsCutOff(now, dateFrom, closed) && Cutoff.Elapsed(later) >= Cutoff.Elapsed(now)
    ensures IsCutOff(later, dateFrom, closed)
  {
  }

  // ---------------------------------------------------------------------
  // Sales teams

  /** A team as the public teams endpoint lists it. */
  datatype Team = Team(id: int, teamname: string)

  /** An autocomplete option: the team plus its `label`. */
  datatype TeamOption = TeamOption(id: int, teamname: string, optionLabel: string)

  const NonFilipinoHomes: string := "Non-Filipino Homes"

  /**
   * `fetchTeams`: push a "Non-Filipino Homes" team with id `length + 1` onto the
   * fetched list, then label every team with its name.
   */
  method FetchTeams(fetched: seq<Team>) returns (teams: seq<TeamOption>)
    ensures |teams| == |fetched| + 1
    ensures forall i :: 0 <= i < |fetched| ==>
      teams[i] == TeamOption(fetched[i].id, fetched[i].teamname, fetched[i].teamname)
    ensures teams[|fetched|] == TeamOption(|fetched| + 1, NonFilipinoHomes, NonFilipinoHomes)
    ensures forall i :: 0 <= i < |teams| ==> teams[i].optionLabel == teams[i].teamname
  {
    var data := fetched;
    data := data + [Team(|data| + 1, NonFilipinoHomes)];
    teams := seq(|data|, i requires 0 <= i < |data| => TeamOption(data[i].id, data[i].teamname, data[i].teamname));
  }
}
