/**
 * The admin page: the projection of fetched entries onto data-grid rows, the
 * status badge colour, the lookup of the row a review is opened for, and the
 * choice of which list to fetch.
 */
module Admin {
  import opened Common

  /** One uploaded file reference: a single URL, or a list of URLs. */
  datatype FileRef = One(url: string) | Many(urls: seq<string>)

  /** An element of a new entry's `uploaded_files`: its `type` (the form slot) and its file reference. */
  datatype UploadedFile = UploadedFile(kind: string, file: FileRef)

  /**
   * A row's `fileURLs`: the server's `uploaded_file` text passed through, or the
   * JSON text of a new entry's `uploaded_files`, kept here as the list it encodes.
   */
  datatype FileUrls = Raw(text: string) | Stringified(files: seq<UploadedFile>)

  /** A CPD entry as `GET cpd-entries` lists it, under the server's own key names. */
  datatype CpdEntry = CpdEntry(id: int, first_name: string, middle_name: string, last_name: string,
                               email: string, designation: string, sales_team: string,
                               mobile_number: string, uploaded_file: string, status: string,
                               createdAt: string)

  /** A new entry as `GET new-entries` lists it, under the server's own key names. */
  datatype NewEntry = NewEntry(id: int, first_name: string, middle_name: string, last_name: string,
                               email: string, sales_team: string, mobile_number: string,
                               uploaded_files: seq<UploadedFile>, status: string, createdAt: string)

  /** A data-grid row; new-entry rows have no `designation`. */
  datatype Row = Row(id: int, firstName: string, middleName: string, lastName: string, email: string,
                     createdAt: string, status: string, designation: Option<string>,
                     salesTeam: string, mobile: string, fileURLs: FileUrls)

  /** The row one CPD entry becomes. */
  function CpdRow(e: CpdEntry): Row
  {
    Row(e.id, e.first_name, e.middle_name, e.last_name, e.email, e.createdAt, e.status,
        Some(e.designation), e.sales_team, e.mobile_number, Raw(e.uploaded_file))
  }

  /** The row one new entry becomes. */
  function NewEntryRow(e: NewEntry): Row
  {
    Row(e.id, e.first_name, e.middle_name, e.last_name, e.email, e.createdAt, e.status,
        None, e.sales_team, e.mobile_number, Stringified(e.uploaded_files))
  }

  /**
   * `fetchCPDEntries`' mapping: one row per entry in the same order, with the
   * same id and status, the snake_case fields under their camelCase names and
   * `uploaded_file` passed through unchanged.
   */
  function CpdRows(es: seq<CpdEntry>): (rows: seq<Row>)
    ensures |rows| == |es|
    ensures forall i :: 0 <= i < |es| ==>
      rows[i].id == es[i].id && rows[i].status == es[i].status
      && rows[i].firstName == es[i].first_name && rows[i].middleName == es[i].middle_name
      && rows[i].lastName == es[i].last_name && rows[i].email == es[i].email
      && rows[i].createdAt == es[i].createdAt && rows[i].designation == Some(es[i].designation)
      && rows[i].salesTeam == es[i].sales_team && rows[i].mobile == es[i].mobile_number
      && rows[i].fileURLs == Raw(es[i].uploaded_file)
  {
    seq(|es|, i requires 0 <= i < |es| => CpdRow(es[i]))
  }

  /**
   * `fetchNewEntries`' mapping: one row per entry in the same order, with the
   * same id and status, no designation, and the uploaded-file list as `fileURLs`.
   */
  function NewEntryRows(es: seq<NewEntry>): (rows: seq<Row>)
    ensures |rows| == |es|
    ensures forall i :: 0 <= i < |es| ==>
      rows[i].id == es[i].id && rows[i].status == es[i].status
      && rows[i].firstName == es[i].first_name && rows[i].middleName == es[i].middle_name
      && rows[i].lastName == es[i].last_name && rows[i].email == es[i].email
      && rows[i].createdAt == es[i].createdAt && rows[i].designation.None?
      && rows[i].salesTeam == es[i].sales_team && rows[i].mobile == es[i].mobile_number
      && rows[i].fileURLs == Stringified(es[i].uploaded_files)
  {
    seq(|es|, i requires 0 <= i < |es| => NewEntryRow(es[i]))
  }

  /** The status badge's colour switch. */
  function StatusColour(status: string): (c: Colour)
    ensures c == SuccessColour <==> status == "approved"
    ensures c == DangerColour <==> status == "disapproved"
    ensures c == WarningColour <==> status != "approved" && status != "disapproved"
  {
    if status == "approved" then SuccessColour
    else if status == "disapproved" then DangerColour
    else WarningColour
  }

  /** The ids of a list, in order. */
  function Ids(rows: seq<Row>): (ids: seq<int>)
    ensures |ids| == |rows|
    ensures forall i :: 0 <= i < |rows| ==> ids[i] == rows[i].id
  {
    seq(|rows|, i requires 0 <= i < |rows| => rows[i].id)
  }

  /** `rows.find((row) => row.id === id)`: the first row with that id, if any. */
  function FindRow(rows: seq<Row>, id: int): (r: Option<Row>)
    ensures r.None? <==> forall i :: 0 <= i < |rows| ==> rows[i].id != id
    ensures r.Some? ==> r.value.id == id && r.value in rows
    ensures r.Some? ==> exists k :: 0 <= k < |rows| && rows[k] == r.value && forall i :: 0 <= i < k ==> rows[i].id != id
  {
    var k := FirstIndexOf(Ids(rows), id);
    if k < 0 then None else Some(rows[k])
  }

  /** The page state a review opening touches. */
  datatype AdminView = AdminView(rows: seq<Row>, selected: Option<Row>, confirmationOpen: bool)

  /** `handleOpenConfirmation(id)`: select the first row with that id and open the modal. */
  function OpenConfirmation(v: AdminView, id: int): (v': AdminView)
    ensures v'.rows == v.rows && v'.confirmationOpen
    ensures v'.selected == FindRow(v.rows, id)
  {
    v.(selected := FindRow(v.rows, id), confirmationOpen := true)
  }

  /**
   * Opening a review on a projected CPD list selects the row of the first entry
   * with the clicked id: the lookup commutes with the projection.
   */
  lemma FindRowOfCpdRows(es: seq<CpdEntry>, id: int)
    ensures var k := FirstIndexOf(Ids(CpdRows(es)), id);
      (k == -1 <==> forall i :: 0 <= i < |es| ==> es[i].id != id)
      && (k >= 0 ==> FindRow(CpdRows(es), id) == Some(CpdRow(es[k])) && es[k].id == id
                     && forall i :: 0 <= i < k ==> es[i].id != id)
  {
  }

  /** The same for a projected new-entry list. */
  lemma FindRowOfNewEntryRows(es: seq<NewEntry>, id: int)
    ensures var k := FirstIndexOf(Ids(NewEntryRows(es)), id);
      (k == -1 <==> forall i :: 0 <= i < |es| ==> es[i].id != id)
      && (k >= 0 ==> FindRow(NewEntryRows(es), id) == Some(NewEntryRow(es[k])) && es[k].id == id
                     && forall i :: 0 <= i < k ==> es[i].id != id)
  {
  }

  /** Which list `initData` fetches. */
  datatype AdminFetch = FetchNewEntries | FetchCpdEntries | FetchNothing

  const NewEntryType: string := "new-entry"
  const CpdType: string := "cpd"

  /** `initData`'s switch on the route's `admin_type`. */
  function InitData(adminType: string): (f: AdminFetch)
    ensures f == FetchNewEntries <==> adminType == NewEntryType
    ensures f == FetchCpdEntries <==> adminType == CpdType
    ensures f == FetchNothing <==> adminType != NewEntryType && adminType != CpdType
  {
    if adminType == NewEntryType then FetchNewEntries
    else if adminType == CpdType then FetchCpdEntries
    else FetchNothing
  }
}
