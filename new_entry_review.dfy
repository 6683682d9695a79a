/**
 * The new-entry review modal: the file list it builds from an entry's uploaded
 * files, and its status update against `update-new-entry-status`.
 */
module NewEntryReview {
  import opened Common
  import Admin
  import Review

  /** The `type` under which the fire certificates are uploaded. */
  const FireCertKind: string := "fireCertFiles"

  /** `createFileLabelByType`: the caption of a single-file slot; `undefined` for any other type. */
  function FileLabel(kind: string): (l: Option<string>)
    ensures l.Some? <==> kind == "rebPrcId" || kind == "endorsementLetter" || kind == "govId"
    ensures kind == "rebPrcId" ==> l == Some("REB-PRC ID")
    ensures kind == "endorsementLetter" ==> l == Some("Endorsement Letter")
    ensures kind == "govId" ==> l == Some("Government ID")
  {
    if kind == "rebPrcId" then Some("REB-PRC ID")
    else if kind == "endorsementLetter" then Some("Endorsement Letter")
    else if kind == "govId" then Some("Government ID")
    else None
  }

  const FireCertLabel: string := "FIRE Certificate"

  /** One tile of the modal's file strip: its caption and its file reference. */
  datatype FileItem = FileItem(caption: Option<string>, file: Admin.FileRef)

  /** `files.filter((file) => file.type !== "fireCertFiles")` */
  function OtherFiles(files: seq<Admin.UploadedFile>): seq<Admin.UploadedFile>
  {
    if |files| == 0 then []
    else
      var last := files[|files| - 1];
      OtherFiles(files[..|files| - 1]) + (if last.kind != FireCertKind then [last] else [])
  }

  /** The filter keeps exactly the entries of another type, each as often as it occurs. */
  lemma OtherFilesKeepsTheRest(files: seq<Admin.UploadedFile>)
    ensures forall x: Admin.UploadedFile :: x in OtherFiles(files) <==> x in files && x.kind != FireCertKind
    ensures forall x: Admin.UploadedFile :: x.kind != FireCertKind ==> multiset(OtherFiles(files))[x] == multiset(files)[x]
    ensures |OtherFiles(files)| <= |files|
  {
    OtherFilesCounts(files);
  }

  /** Each entry of another type occurs as often in the filtered list, a fire entry not at all. */
  lemma {:induction false} OtherFilesCounts(files: seq<Admin.UploadedFile>)
    ensures forall x: Admin.UploadedFile :: multiset(OtherFiles(files))[x] == if x.kind != FireCertKind then multiset(files)[x] else 0
    ensures |OtherFiles(files)| <= |files|
  {
    if |files| > 0 {
      var init := files[..|files| - 1];
      var last := files[|files| - 1];
      OtherFilesCounts(init);
      assert files == init + [last];
      var tail := if last.kind != FireCertKind then [last] else [];
      assert multiset(files) == multiset(init) + multiset{last};
      assert multiset(OtherFiles(files)) == multiset(OtherFiles(init)) + multiset(tail);
    }
  }

  /** `files.find((file) => file.type === "fireCertFiles")`, as a position: the first fire entry, or -1. */
  function FireIndex(files: seq<Admin.UploadedFile>): (k: int)
    ensures -1 <= k < |files|
    ensures k == -1 <==> forall i :: 0 <= i < |files| ==> files[i].kind != FireCertKind
    ensures k >= 0 ==> files[k].kind == FireCertKind && forall i :: 0 <= i < k ==> files[i].kind != FireCertKind
  {
    FirstIndexOf(Kinds(files), FireCertKind)
  }

  /** The `type` of every entry, in order. */
  function Kinds(files: seq<Admin.UploadedFile>): (ks: seq<string>)
    ensures |ks| == |files|
    ensures forall i :: 0 <= i < |files| ==> ks[i] == files[i].kind
  {
    seq(|files|, i requires 0 <= i < |files| => files[i].kind)
  }

  /**
   * `formattedFiles`: the captioned other files, then one "FIRE Certificate"
   * tile per URL of the first fire entry. Without a fire entry, or when its
   * file is a single URL rather than a list, building the list throws and the
   * modal does not render.
   */
  function FormatFiles(files: seq<Admin.UploadedFile>): (r: Option<seq<FileItem>>)
    ensures r.Some? <==> FireIndex(files) >= 0 && files[FireIndex(files)].file.Many?
    ensures r.Some? ==>
      var others := OtherFiles(files);
      var certs := files[FireIndex(files)].file.urls;
      |r.value| == |others| + |certs|
      && (forall i :: 0 <= i < |others| ==> r.value[i] == FileItem(FileLabel(others[i].kind), others[i].file))
      && (forall i :: 0 <= i < |certs| ==> r.value[|others| + i] == FileItem(Some(FireCertLabel), Admin.One(certs[i])))
  {
    var k := FireIndex(files);
    if k < 0 then None
    else
      match files[k].file
      case One(_) => None
      case Many(certs) =>
        var others := OtherFiles(files);
        Some(seq(|others|, i requires 0 <= i < |others| => FileItem(FileLabel(others[i].kind), others[i].file))
             + seq(|certs|, i requires 0 <= i < |certs| => FileItem(Some(FireCertLabel), Admin.One(certs[i]))))
  }

  /**
   * A tile is captioned "FIRE Certificate" exactly when it comes from the fire
   * list: no other file carries that caption, and the number of such tiles is
   * the number of certificate URLs.
   */
  lemma FireCaptionsComeFromCertificates(files: seq<Admin.UploadedFile>)
    requires FormatFiles(files).Some?
    ensures var items := FormatFiles(files).value;
      var n := |OtherFiles(files)|;
      (forall i :: 0 <= i < |items| ==> (items[i].caption == Some(FireCertLabel) <==> i >= n))
      && |items| - n == |files[FireIndex(files)].file.urls|
  {
  }

  /** How one tile shows: documents by name, images inline; a list-valued file is not displayed here. */
  function TileDisplay(item: FileItem): (d: Option<Review.FileDisplay>)
    ensures d.Some? <==> item.file.One?
    ensures d.Some? ==> d.value == Review.DisplayOf(item.file.url)
  {
    match item.file
    case One(url) => Some(Review.DisplayOf(url))
    case Many(_) => None
  }

  /** `handleUpdateStatus` of this modal: patch the row, then PUT `update-new-entry-status`. */
  method HandleUpdateStatus(rows: array<Admin.Row>, m: Review.ModalState, id: int, response: HttpResult)
    returns (effect: Review.UpdateEffect)
    modifies rows
    ensures rows[..] == Review.PatchStatus(old(rows[..]), id, Review.StatusName(m.status))
    ensures effect == Review.UpdateOutcome(Review.UpdateNewEntryStatus,
                                           FirstIndexOf(Admin.Ids(old(rows[..])), id) >= 0, m, id, response)
  {
    effect := Review.HandleUpdateStatus(Review.UpdateNewEntryStatus, rows, m, id, response);
  }
}
