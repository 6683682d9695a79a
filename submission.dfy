/**
 * What the two registration forms share: the JavaScript values their fields
 * hold, the multipart entries a submission carries, the MIME whitelist and the
 * per-file scan, the validation outcomes and the mapping from the HTTP result
 * of `POST store-entry` / `POST store-new-entry` to the alert shown.
 */
module Submission {
  import opened Common

  /** An uploaded file; only its MIME `type` matters to validation. */
  datatype File = File(name: string, mimeType: string)

  /** A JavaScript value as a form field holds it. */
  datatype Value = Str(s: string) | Null | Undefined | Bool(b: bool) | Int(i: int) | FileList(files: seq<File>)

  /**
   * An autocomplete field: the chosen option's label, `undefined` once the
   * choice is cleared (the handler stores `v?.label`), or `null` before any choice.
   */
  datatype Choice = Chosen(text: string) | Cleared | Unset

  function ChoiceValue(c: Choice): Value
  {
    match c
    case Chosen(l) => Str(l)
    case Cleared => Undefined
    case Unset => Null
  }

  /** A file input: `null` until the file dialog first returns, then the `FileList` it returned, possibly empty. */
  datatype Upload = NoFiles | Files(files: seq<File>)

  function UploadValue(u: Upload): Value
  {
    match u
    case NoFiles => Null
    case Files(fs) => FileList(fs)
  }

  /** The `programId` field: `null` or an integer id. */
  function IdValue(id: Option<int>): Value
  {
    match id
    case None => Null
    case Some(n) => Int(n)
  }

  /**
   * `u[0]` when it is a file. `null[0]` throws, and on an empty list `u[0]` is
   * `undefined`, so reading its `type` throws: both are `None`.
   */
  function FirstFile(u: Upload): (r: Option<File>)
    ensures r.Some? <==> u.Files? && |u.files| > 0
    ensures r.Some? ==> r.value == u.files[0]
  {
    match u
    case NoFiles => None
    case Files(fs) => if |fs| == 0 then None else Some(fs[0])
  }

  /** A multipart key: a field name, or `name[index]` for the index-th file of a list. */
  datatype FormKey = Plain(name: string) | Indexed(name: string, index: nat)

  /** A multipart value: a field value or a file. */
  datatype FormPart = Field(value: Value) | Blob(file: File)

  type FormEntry = (FormKey, FormPart)

  /**
   * Result of validating a form: one of the three client-side errors, a
   * `TypeError` thrown while reading a file list (caught without an HTTP
   * response, so no alert), or the multipart payload to POST.
   */
  datatype Outcome = EmptyFields | BadEmail | BadFileType | Fault | Submit(formData: seq<FormEntry>)

  /** Every entry as a multipart field under its own key. */
  function AllFields(es: seq<(string, Value)>): (r: seq<FormEntry>)
    ensures |r| == |es|
    ensures forall i :: 0 <= i < |es| ==> r[i] == (Plain(es[i].0), Field(es[i].1))
  {
    seq(|es|, i requires 0 <= i < |es| => (Plain(es[i].0), Field(es[i].1)))
  }

  /** The MIME whitelist both forms use. */
  const AcceptedFileTypes: seq<string> := [
    "image/jpg",
    "image/jpeg",
    "image/png",
    "application/pdf",
    "application/vnd.openxmlformats-officedocument.wordprocessingml.document"
  ]

  /** `acceptedFileTypes.includes(file.type)` */
  predicate Accepted(f: File)
  {
    f.mimeType in AcceptedFileTypes
  }

  /** Number of files in `fs` whose type is not whitelisted. */
  function RejectedCount(fs: seq<File>): nat
  {
    if |fs| == 0 then 0
    else RejectedCount(fs[..|fs| - 1]) + (if Accepted(fs[|fs| - 1]) then 0 else 1)
  }

  /** The accepted files of `fs`, in order, each under `name[i]` with `i` its position in `fs`. */
  function AcceptedParts(name: string, fs: seq<File>): seq<FormEntry>
  {
    if |fs| == 0 then []
    else
      AcceptedParts(name, fs[..|fs| - 1])
      + (if Accepted(fs[|fs| - 1]) then [(Indexed(name, |fs| - 1), Blob(fs[|fs| - 1]))] else [])
  }

  /** No file is rejected exactly when every file has a whitelisted type. */
  lemma {:induction false} RejectedCountZeroIff(fs: seq<File>)
    ensures RejectedCount(fs) == 0 <==> forall i :: 0 <= i < |fs| ==> Accepted(fs[i])
  {
    if |fs| > 0 {
      var init := fs[..|fs| - 1];
      RejectedCountZeroIff(init);
      assert forall i :: 0 <= i < |init| ==> init[i] == fs[i];
    }
  }

  /** Every file of `fs` under `name[i]`, `i` its position. */
  function IndexedFiles(name: string, fs: seq<File>): (r: seq<FormEntry>)
    ensures |r| == |fs|
    ensures forall i :: 0 <= i < |fs| ==> r[i] == (Indexed(name, i), Blob(fs[i]))
  {
    seq(|fs|, i requires 0 <= i < |fs| => (Indexed(name, i), Blob(fs[i])))
  }

  /** When every file is accepted, each one is appended under its own index, in order. */
  lemma {:induction false} AllAcceptedParts(name: string, fs: seq<File>)
    requires forall i :: 0 <= i < |fs| ==> Accepted(fs[i])
    ensures AcceptedParts(name, fs) == IndexedFiles(name, fs)
  {
    if |fs| > 0 {
      var init := fs[..|fs| - 1];
      assert forall i :: 0 <= i < |init| ==> init[i] == fs[i];
      AllAcceptedParts(name, init);
    }
  }

  /**
   * The `Array.from(files).map((file, index) => ...)` pass: count the rejected
   * files and append each accepted one as `name[index]`.
   */
  method ScanFiles(name: string, fs: seq<File>) returns (rejected: nat, parts: seq<FormEntry>)
    ensures rejected == RejectedCount(fs)
    ensures parts == AcceptedParts(name, fs)
  {
    rejected, parts := 0, [];
    var i := 0;
    while i < |fs|
      invariant 0 <= i <= |fs|
      invariant rejected == RejectedCount(fs[..i])
      invariant parts == AcceptedParts(name, fs[..i])
    {
      assert fs[..i + 1][..i] == fs[..i];
      if Accepted(fs[i]) {
        parts := parts + [(Indexed(name, i), Blob(fs[i]))];
      } else {
        rejected := rejected + 1;
      }
      i := i + 1;
    }
    assert fs[..|fs|] == fs;
  }

  /** Result of the file-type pass: a `TypeError` was thrown, or a rejection count and the appended files. */
  datatype FileScan = Thrown | Scanned(rejected: nat, parts: seq<FormEntry>)

  /** Run `b` after `a`: a throw in `a` stops the pass; otherwise counts add up and parts concatenate. */
  function Then(a: FileScan, b: FileScan): FileScan
  {
    match a
    case Thrown => Thrown
    case Scanned(r1, p1) =>
      match b
      case Thrown => Thrown
      case Scanned(r2, p2) => Scanned(r1 + r2, p1 + p2)
  }

  const EmptyFieldsMessage: string := "Please fill up empty fields."
  const BadEmailMessage: string := "Email provided is not valid."
  const BadFileTypeMessage: string := "Files should be in .png, .jpg, jpeg, and .docx format only."
  const SubmittedMessage: string := "CPD Registration successfully submitted."
  const FailureMessage: string := "Something went wrong."

  /** The alert a validation outcome shows before any request; a fault and a submission show none yet. */
  function ValidationAlert(o: Outcome): (a: Option<Alert>)
    ensures a.Some? <==> o.EmptyFields? || o.BadEmail? || o.BadFileType?
    ensures a.Some? ==> a.value.severity == Error
  {
    match o
    case EmptyFields => Some(Alert(Error, EmptyFieldsMessage))
    case BadEmail => Some(Alert(Error, BadEmailMessage))
    case BadFileType => Some(Alert(Error, BadFileTypeMessage))
    case Fault => None
    case Submit(_) => None
  }

  /** What the response to the POST does: an alert, and whether `onSuccess` is set. */
  datatype ResponseEffect = ResponseEffect(alert: Option<Alert>, confirmed: bool)

  /**
   * The `try`/`catch` around the POST: a resolved 200 confirms with a success
   * alert, a resolved other 2xx does nothing, a rejected 403 warns with the
   * server's message, any other rejected status shows the generic failure, and
   * no response object at all shows nothing.
   */
  function HandleResponse(r: HttpResult): (e: ResponseEffect)
    ensures e.confirmed <==> r.Responded? && r.status == 200
    ensures e.confirmed ==> e.alert == Some(Alert(Success, SubmittedMessage))
    ensures e.alert.None? <==> r.NoResponse? || (Resolves(r) && r.status != 200)
    ensures r.Responded? && r.status == 403 ==> e.alert == Some(Alert(Warning, r.message))
    ensures r.Responded? && !Resolves(r) && r.status != 403 ==> e.alert == Some(Alert(Error, FailureMessage))
  {
    match r
    case NoResponse => ResponseEffect(None, false)
    case Responded(status, message) =>
      if 200 <= status < 300 then
        if status == 200 then ResponseEffect(Some(Alert(Success, SubmittedMessage)), true)
        else ResponseEffect(None, false)
      else if status == 403 then ResponseEffect(Some(Alert(Warning, message)), false)
      else ResponseEffect(Some(Alert(Error, FailureMessage)), false)
  }

  /**
   * Everything one press of Submit does: the payload POSTed (if any), the alert
   * shown, whether `onSuccess` is set, and the final value of the progress flag.
   */
  datatype SubmitEffect = SubmitEffect(request: Option<seq<FormEntry>>, alert: Option<Alert>, confirmed: bool, submitting: bool)

  /** Combine the validation outcome with the HTTP result, which is consulted only when a request is sent. */
  function Effect(o: Outcome, r: HttpResult): (e: SubmitEffect)
    ensures e.request.Some? <==> o.Submit?
    ensures o.Submit? ==> e.request.value == o.formData
    ensures !e.submitting
    ensures e.confirmed <==> o.Submit? && r.Responded? && r.status == 200
    ensures !o.Submit? ==> e.alert == ValidationAlert(o)
    ensures o.Submit? ==> e.alert == HandleResponse(r).alert
  {
    match o
    case Submit(fd) =>
      var re := HandleResponse(r);
      SubmitEffect(Some(fd), re.alert, re.confirmed, false)
    case _ => SubmitEffect(None, ValidationAlert(o), false, false)
  }

  /**
   * A success alert is shown exactly when the form is confirmed, and every
   * failed validation leaves the payload unsent whatever the server would answer.
   */
  lemma SuccessAlertIffConfirmed(o: Outcome, r: HttpResult)
    ensures var e := Effect(o, r);
      (e.alert.Some? && e.alert.value.severity == Success) <==> e.confirmed
    ensures !o.Submit? ==> forall r' :: Effect(o, r') == Effect(o, r)
  {
  }
}
