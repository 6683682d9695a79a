/**
 * The CPD review modal: how it shows the entry's uploaded file URLs and its
 * status update against `update-entry-status`.
 */
module CpdReview {
  import opened Common
  import Admin
  import Review

  /** `files.map(...)`: one display per parsed URL, in order. */
  function FileDisplays(files: seq<string>): (ds: seq<Review.FileDisplay>)
    ensures |ds| == |files|
    ensures forall i :: 0 <= i < |files| ==> ds[i] == Review.DisplayOf(files[i])
  {
    seq(|files|, i requires 0 <= i < |files| => Review.DisplayOf(files[i]))
  }

  /** Documents stored under the bucket prefix are each listed by their own file name. */
  lemma DocumentsListedByName(names: seq<string>)
    requires forall i :: 0 <= i < |names| ==>
      (Review.Includes(names[i], ".pdf") || Review.Includes(names[i], ".docx")) && !Review.Includes(names[i], Review.S3Prefix)
    ensures var urls := seq(|names|, i requires 0 <= i < |names| => Review.S3Prefix + names[i]);
      forall i :: 0 <= i < |names| ==> FileDisplays(urls)[i] == Review.DocumentName(Some(names[i]))
  {
    var urls := seq(|names|, i requires 0 <= i < |names| => Review.S3Prefix + names[i]);
    forall i | 0 <= i < |names|
      ensures FileDisplays(urls)[i] == Review.DocumentName(Some(names[i]))
    {
      Review.DocumentShownByName(names[i]);
    }
  }

  /** `handleUpdateStatus` of this modal: patch the row, then PUT `update-entry-status`. */
  method HandleUpdateStatus(rows: array<Admin.Row>, m: Review.ModalState, id: int, response: HttpResult)
    returns (effect: Review.UpdateEffect)
    modifies rows
    ensures rows[..] == Review.PatchStatus(old(rows[..]), id, Review.StatusName(m.status))
    ensures effect == Review.UpdateOutcome(Review.UpdateEntryStatus,
                                           FirstIndexOf(Admin.Ids(old(rows[..])), id) >= 0, m, id, response)
  {
    effect := Review.HandleUpdateStatus(Review.UpdateEntryStatus, rows, m, id, response);
  }
}
