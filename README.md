# CPD provider portal — a Dafny model of its client-side logic

The portal is a React front end over a remote HTTP API. Applicants register
for Continuing Professional Development (CPD) programs, and new applicants
(new entries) register for their own programs. Administrators review both
kinds of registration. This project models, and proves properties of, the
straight-line logic inside the components:

- **Submission validators** of both registration pages. A typed form record
  is read as `Object.keys` would read it: `(key, value)` pairs in declaration
  order. The validator returns one outcome: `EmptyFields`, `BadEmail`,
  `BadFileType`, `Fault` (a `TypeError` thrown while reading a file list) or
  `Submit(formData)`. `formData` is the ordered list of multipart entries.
  The handlers' counting loops are methods proved equal to recursive
  specification functions. The HTTP result is mapped to an alert by a pure
  function.
- **The e-mail pattern** `^[^\s@]+@[^\s@]+\.[^\s@]+$`. It is defined once as
  the set of strings it accepts and once as a scan from the first `@`. A proof
  shows the two agree.
- **The registration cutoff.** Wall-clock fields at the fixed offset +08:00
  are compared lexicographically. Elapsed seconds are defined separately from
  a day count of the proleptic Gregorian calendar, with real month lengths
  and leap years. A proof shows that on dates that exist the two comparisons
  agree.
- **The CPD page's program state:** the pick by 1-based route position, the
  closed notice and the submit-disable rule.
- **The new-entry program table.** Its selection flags are changed in place
  on an `array`.
- **The admin page:** entry-to-row projections, the badge colour, the
  first-match lookup and the fetch dispatch.
- **The review modals:**
  - the modal state (status choice and remarks field);
  - the optimistic in-place patch of the matching row (on an `array`);
  - the status-update request and its effect;
  - the new-entry file list;
  - how a file URL is displayed.

Behaviours of the code that the model reproduces as written:

- **`isNotFile` is always true.** In the new-entry handler it is a
  disjunction of four inequalities. So every value that is not `""`,
  including the file slots, `programId` and `onSuccess`, is appended under
  its own key. The empty-string count also covers the file keys.
- **A cleared autocomplete passes the field check.** The handler stores
  `v?.label`, which is `undefined`. That is neither `""` nor `null`.
- **Only a status of exactly 200 is a success.** The request client keeps the
  library default: any 2xx resolves, anything else throws. So a resolved
  status other than 200 shows no alert and does not set `onSuccess`. The
  generic "Something went wrong." covers the non-2xx statuses other than 403.
- **A `TypeError` before the request shows no alert.** In the new-entry form
  this happens for an empty file list in a single-file slot. It is caught
  without `e.response`. In the CPD form the `null` file list never reaches
  `Array.from`, because the field check counts it first.
- **The new-entry cutoff flag is never read.** The submit button depends
  only on `programId`.
- **A bad route position on the CPD page breaks rendering.** After the fetch,
  a position that holds no program stores `undefined` as the program, even
  when the list is empty. That passes the `program !== null` guard, and the
  render then reads `program.title` of `undefined`. As routed, every position
  is a bad one: `/cpd/registration` declares no `:prog_id` parameter, so the
  position is `parseInt(undefined) - 1`, which is `NaN`.
- **The row patch is never undone.** The modal always closes. When no row
  matches, the patch itself throws, and no request is sent.
- **Remarks typed while "disapproved" is chosen are kept after switching to
  another status**, and they are sent with it.
- **The review modal is not reset between openings.** It mounts at the first
  opening and stays mounted. Its status and remarks state starts at
  "approved" and empty only then. A later review of another row starts from
  whatever the previous one left. The status buttons show that status; the
  remarks field is uncontrolled and appears empty, yet the old remarks are sent.

## Model

| member | source | states |
|---|---|---|
| `Email.EmailValid` | src/pages/new-entry/Registration.jsx:104 | the scan from the first `@` accepts exactly the strings of the pattern `L@A.B` with `L`, `A`, `B` non-empty runs of non-space, non-`@` characters |
| `Email.ScanAgreesWithPattern` | src/pages/cpd/Registration.jsx:94 | both directions of the agreement between the scan and the pattern's language |
| `Email.BadEmailIsRefused` | src/pages/new-entry/Registration.jsx:147-151 | an address without `@` is refused |
| `Email.TypicalEmailIsAccepted` | src/pages/cpd/Registration.jsx:132-136 | a typical `name@domain.tld` address is accepted |
| `Cutoff.AtOrAfterIsElapsedOrder` | src/pages/cpd/Registration.jsx:185-206 | on instants that exist, the lexicographic comparison of the fields holds exactly when at least as many seconds have elapsed, counted with real month lengths and Gregorian leap years |
| `Submission.FirstFile` | src/pages/new-entry/Registration.jsx:153-174 | `slot[0]` is a file exactly when the slot holds a non-empty list, and it is the first file |
| `Submission.RejectedCountZeroIff` | src/pages/cpd/Registration.jsx:146-153 | the rejection counter stays 0 exactly when every file has a whitelisted MIME type |
| `Submission.AllAcceptedParts` | src/pages/cpd/Registration.jsx:138-144 | with every file accepted, each file is appended as `name[i]` at its own index `i`, in order |
| `Submission.ScanFiles` | src/pages/new-entry/Registration.jsx:176-182 | the per-file loop computes the rejection count and the appended files of the specification functions |
| `Submission.ValidationAlert` | src/pages/new-entry/Registration.jsx:139-191 | the three validation errors show an error alert; a fault and a submission show none |
| `Submission.HandleResponse` | src/pages/new-entry/Registration.jsx:200-217 | 200 confirms with the success alert; 403 warns with the server message; other non-2xx statuses show the generic failure; no response or another 2xx shows nothing |
| `Submission.Effect` | src/pages/new-entry/Registration.jsx:193-220 | a request is sent exactly for `Submit` and carries its payload; the response matters only then; the progress flag ends false |
| `Submission.SuccessAlertIffConfirmed` | src/pages/cpd/Registration.jsx:162-182 | a success alert appears exactly when `onSuccess` is set; a failed validation ignores the server entirely |
| `NewEntryRegistration.Entries` | src/pages/new-entry/Registration.jsx:61-78 | the record reads as its 16 keys in declaration order |
| `NewEntryRegistration.IsNotFileAlwaysHolds` | src/pages/new-entry/Registration.jsx:118-122 | the `isNotFile` test holds for every key |
| `NewEntryRegistration.EmptyCountZeroIff` | src/pages/new-entry/Registration.jsx:115-135 | the field counter stays 0 exactly when no value is `""` and no value other than `rebPrcId` is `null` |
| `NewEntryRegistration.KeptFieldsAll` | src/pages/new-entry/Registration.jsx:124-126 | with no `""` value, every entry is appended under its own key in key order |
| `NewEntryRegistration.CheckFields` | src/pages/new-entry/Registration.jsx:115-135 | the key loop, `isNotFile` included, computes the count and the appended fields of the specification functions |
| `NewEntryRegistration.CompleteEntries` | src/pages/new-entry/Registration.jsx:61-77 | no entry is missing exactly when the form-level reading says no field is missing |
| `NewEntryRegistration.CheckFileTypes` | src/pages/new-entry/Registration.jsx:153-182 | the file pass throws, counts and appends exactly as the specification of the pass says, in the handler's order |
| `NewEntryRegistration.HandleSubmitEntry` | src/pages/new-entry/Registration.jsx:101-221 | the step-by-step handler has the effect of the specification `Validate` combined with the response |
| `NewEntryRegistration.Validate` | src/pages/new-entry/Registration.jsx:115-191 | the checks run in order: "empty fields" exactly when the field counter is non-zero; "bad e-mail" only for an address failing the pattern; any later outcome only after both checks passed |
| `NewEntryRegistration.ValidateEmptyFieldsIff` | src/pages/new-entry/Registration.jsx:139-145 | the empty-fields outcome occurs exactly when a text field is empty, a choice, a required file slot or `programId` is `null` |
| `NewEntryRegistration.ValidateBadEmailIff` | src/pages/new-entry/Registration.jsx:147-151 | the e-mail error occurs exactly when every field is present and the address fails the pattern |
| `NewEntryRegistration.ValidateFaultIff` | src/pages/new-entry/Registration.jsx:154-170 | the pass throws exactly when, past the e-mail check, a present single-file slot holds an empty list |
| `NewEntryRegistration.ValidateBadFileTypeIff` | src/pages/new-entry/Registration.jsx:184-191 | the file-format error occurs exactly when the REB/PRC id (if present), the endorsement letter, the government id or some fire certificate has a non-whitelisted type |
| `NewEntryRegistration.CleanFileScan` | src/pages/new-entry/Registration.jsx:153-182 | a pass with no rejection appends `rebPrcIdFile` (if present), `endorsementLetterFile`, `govIdFile` and `fireCertFiles[i]` for every certificate |
| `NewEntryRegistration.ValidateSubmitPayload` | src/pages/new-entry/Registration.jsx:115-182 | a submitted payload is all 16 fields in key order followed by the files in that order |
| `NewEntryRegistration.TableOf` | src/pages/new-entry/Registration.jsx:278-281 | the fetched programs become table rows of the same programs, in order, all unselected |
| `NewEntryRegistration.SelectedIsExclusive` | src/pages/new-entry/Registration.jsx:237-243 | after a pick exactly the picked row is selected and no program's data changes |
| `NewEntryRegistration.ResetSelection` | src/pages/new-entry/Registration.jsx:223-231 | the loop clears every row's flag in place and changes nothing else |
| `NewEntryRegistration.HandleSelectProgram` | src/pages/new-entry/Registration.jsx:233-245 | a program with free slots becomes the only selected one and its id is returned; a full program changes nothing |
| `NewEntryRegistration.IsCutOff` | src/pages/new-entry/Registration.jsx:247-272 | the flag is set exactly when at least as many seconds have elapsed as at 2024-06-20 12:00:00 |
| `NewEntryRegistration.CutOffByElapsedTime` | src/pages/new-entry/Registration.jsx:247-272 | the flag is set at 2024-06-20 12:00:00, not one second before, and at every instant with at least as many elapsed seconds as one where it is set |
| `NewEntryRegistration.PickEnablesSubmit` | src/pages/new-entry/Registration.jsx:647 | picking a program with free slots enables Submit and a full program leaves the button as it was; the button reads only `programId`, not the cutoff flag |
| `CpdRegistration.Entries` | src/pages/cpd/Registration.jsx:57-68 | the record reads as its 10 keys in declaration order |
| `CpdRegistration.EmptyCountZeroIff` | src/pages/cpd/Registration.jsx:107-122 | the field counter stays 0 exactly when no non-`files` value is `""` and no value is `null` |
| `CpdRegistration.KeptFieldsAll` | src/pages/cpd/Registration.jsx:111-112 | with no `""` value outside `files`, every other entry is appended under its own key in key order |
| `CpdRegistration.CheckFields` | src/pages/cpd/Registration.jsx:107-122 | the key loop computes the count and the appended fields of the specification functions |
| `CpdRegistration.HandleSubmitEntry` | src/pages/cpd/Registration.jsx:91-183 | the step-by-step handler has the effect of the specification `Validate` combined with the response |
| `CpdRegistration.Validate` | src/pages/cpd/Registration.jsx:107-153 | the checks run in order: "empty fields" exactly when the field counter is non-zero; "bad e-mail" only for an address failing the pattern; any later outcome only after both checks passed |
| `CpdRegistration.CompleteEntries` | src/pages/cpd/Registration.jsx:58-67 | no entry is missing exactly when the form-level reading says no field is missing |
| `CpdRegistration.ValidateEmptyFieldsIff` | src/pages/cpd/Registration.jsx:124-130 | the empty-fields outcome occurs exactly when a text field is empty, or a choice, the file list or `programId` is `null` |
| `CpdRegistration.ValidateBadEmailIff` | src/pages/cpd/Registration.jsx:132-136 | the e-mail error occurs exactly when every field is present and the address fails the pattern |
| `CpdRegistration.ValidateNeverFaults` | src/pages/cpd/Registration.jsx:119-138 | `Array.from(files)` is never reached with `null` |
| `CpdRegistration.ValidateBadFileTypeIff` | src/pages/cpd/Registration.jsx:138-153 | the file-format error occurs exactly when, past the e-mail check, some uploaded file has a non-whitelisted type |
| `CpdRegistration.ValidateSubmitPayload` | src/pages/cpd/Registration.jsx:107-144 | a submitted payload is the nine non-`files` fields in key order followed by every file as `files[i]` |
| `CpdRegistration.BadEmailStopsSubmission` | src/pages/cpd/Registration.jsx:126-136 | a complete form whose address is `bad-email` stops at the e-mail check |
| `CpdRegistration.RouteProgram` | src/pages/cpd/Registration.jsx:228-237 | the program is the one at 1-based route position `progId`, and exists exactly for `1 <= progId <= length` |
| `CpdRegistration.IsCutOff` | src/pages/cpd/Registration.jsx:185-208 | cut off exactly when the program is closed or at least as many seconds have elapsed as at 12:00:00 of its start date |
| `CpdRegistration.LoadPrograms` | src/pages/cpd/Registration.jsx:227-245 | the program becomes `undefined` exactly when the route position holds none; a routed program sets `programId` to its id and the cutoff flag to "closed, or noon of `date_from` reached"; without one, neither is set |
| `CpdRegistration.Control` | src/pages/cpd/Registration.jsx:454-477 | an `undefined` program fails the render (at `program.title`, line 287); otherwise the closed notice shows exactly when cut off, and Submit is enabled exactly for a routed program with free slots, a non-empty list and no cutoff |
| `CpdRegistration.LoadedControl` | src/pages/cpd/Registration.jsx:454-477 | after a routed fetch, the closed notice shows exactly when cut off; otherwise Submit is enabled exactly when the program has free slots |
| `CpdRegistration.UnroutedControl` | src/pages/cpd/Registration.jsx:237-287 | before the fetch Submit is disabled; after a fetch whose route position holds no program the render fails, whatever the length of the list |
| `CpdRegistration.CutOffIsMonotone` | src/pages/cpd/Registration.jsx:206 | once registration is cut off, every instant with at least as many elapsed seconds is cut off too |
| `CpdRegistration.FetchTeams` | src/pages/cpd/Registration.jsx:211-225 | the fetched teams are kept in order and labelled with their names, followed by "Non-Filipino Homes" with id `length + 1` |
| `Admin.CpdRows` | src/pages/Admin.jsx:166-194 | one row per CPD entry in order, with the same id and status, camelCase fields and `uploaded_file` passed through |
| `Admin.NewEntryRows` | src/pages/Admin.jsx:212-238 | one row per new entry in order, with the same id and status, no designation, and the uploaded files as `fileURLs` |
| `Admin.StatusColour` | src/pages/Admin.jsx:82-91 | "approved" gives success, "disapproved" gives danger, anything else gives warning, each exactly |
| `Common.FirstIndexOf` | src/components/new-entry/ConfirmationModal.jsx:81 | the first position holding the element, or -1 exactly when none does |
| `Admin.FindRow` | src/pages/Admin.jsx:55 | the row found has the id, is in the list and no earlier row has the id; nothing is found exactly when no row has the id |
| `Admin.OpenConfirmation` | src/pages/Admin.jsx:54-60 | opening a review selects the first matching row and opens the modal, leaving the rows alone |
| `Admin.FindRowOfCpdRows` | src/pages/Admin.jsx:166-194 | looking up a projected CPD row gives the projection of the first entry with that id |
| `Admin.FindRowOfNewEntryRows` | src/pages/Admin.jsx:212-238 | looking up a projected new-entry row gives the projection of the first entry with that id |
| `Admin.InitData` | src/pages/Admin.jsx:249-258 | "new-entry" fetches new entries, "cpd" fetches CPD entries, anything else fetches nothing |
| `Review.StatusName` | src/components/cpd/ConfirmationModal.jsx:166-193 | each status button stores its own distinct string |
| `Review.Step` | src/components/cpd/ConfirmationModal.jsx:166-206 | a status button sets the status and keeps the remarks; typing keeps the status, sets the remarks to the typed text while the remarks field is shown and leaves them unchanged otherwise |
| `Review.Run` | src/components/cpd/ConfirmationModal.jsx:166-206 | after any events the status is the starting one or a chosen one, and the remarks are the starting ones or typed text |
| `Review.RunKeepsTypedRemarks` | src/components/cpd/ConfirmationModal.jsx:32-33 | from the state the modal mounts with at the first opening, the remarks are empty or typed text, and the status stays "approved" until a button is pressed |
| `Review.RemarksNeedDisapproval` | src/components/cpd/ConfirmationModal.jsx:194-206 | from the state the modal mounts with at the first opening, without choosing "disapproved" the remarks field never appears and the remarks stay empty |
| `Review.StaleRemarksAreKept` | src/components/new-entry/ConfirmationModal.jsx:240-252 | whatever remarks are typed while disapproving survive a switch to any status, "approved" included |
| `Review.SessionStep` | src/pages/Admin.jsx:52-60 | opening selects the row, shows the modal and leaves it mounted; once mounted, only events inside it change its state; the rows are untouched |
| `Review.LaterOpeningKeepsModal` | src/pages/Admin.jsx:333-358 | the modal is mounted once and never reset: a second opening, after closing the first, keeps, and sends, the status and remarks the first opening left; the status buttons show that status, while the remarks field appears empty |
| `Review.SecondReviewSendsEarlierChoice` | src/components/cpd/ConfirmationModal.jsx:56-64 | after disapproving one row with remarks "x" and closing, updating a second row sends "disapproved" and "x" for it |
| `Review.ButtonColour` | src/components/cpd/ConfirmationModal.jsx:212-218 | approved gives success, pending gives warning, disapproved gives error, each exactly |
| `Review.ButtonMatchesBadge` | src/components/new-entry/ConfirmationModal.jsx:258-264 | the button colour equals the stored status's badge colour except for "disapproved" (error vs danger) |
| `Review.PatchStatus` | src/components/cpd/ConfirmationModal.jsx:47-54 | the patched list has the same length, and every row is the old one or the old one with the new status |
| `Review.PatchStatusChangesOnlyOneRow` | src/components/cpd/ConfirmationModal.jsx:47-54 | the patch keeps the length, the ids and every other row, changes only the status of the first match, and a lookup afterwards sees it |
| `Review.PatchStatusIsIdempotent` | src/components/new-entry/ConfirmationModal.jsx:80-87 | patching twice with the same status equals patching once |
| `Review.UpdateRowStatus` | src/components/new-entry/ConfirmationModal.jsx:81-84 | overwrites the status of the first matching row in place; throws and changes nothing when no row matches |
| `Review.UpdateOutcome` | src/components/cpd/ConfirmationModal.jsx:56-86 | with a matching row the request `{status, remarks, entryId}` is sent; the success alert appears exactly on 200; the modal always closes |
| `Review.HandleUpdateStatus` | src/components/cpd/ConfirmationModal.jsx:57-64 | the row is patched before the request and stays patched whatever the response; the effect is `UpdateOutcome` |
| `Review.FailedUpdateIsNotRolledBack` | src/components/cpd/ConfirmationModal.jsx:80-85 | after a failed request there is no alert, yet the row shows the new status |
| `Review.SecondPiece` | src/components/cpd/ConfirmationModal.jsx:147-149 | `split(sep)[1]` is undefined exactly when `sep` does not occur; otherwise it is the slice of the URL starting right after the first `sep`, holds no `sep`, and ends at the end or at the next `sep` |
| `Review.DisplayOf` | src/components/cpd/ConfirmationModal.jsx:144-158 | a URL containing `.pdf` or `.docx` is shown as a name, any other as an image of that URL |
| `Review.DocumentShownByName` | src/components/new-entry/ConfirmationModal.jsx:189-197 | a document uploaded under the bucket prefix is shown by its file name |
| `Review.ForeignDocumentShowsNothing` | src/components/new-entry/ConfirmationModal.jsx:193-195 | a document outside the bucket prefix shows no name |
| `NewEntryReview.FileLabel` | src/components/new-entry/ConfirmationModal.jsx:40-49 | the three single-file slots get their captions; any other type gets none |
| `NewEntryReview.OtherFilesKeepsTheRest` | src/components/new-entry/ConfirmationModal.jsx:37 | the filter keeps exactly the non-fire entries, each as often as it occurs |
| `NewEntryReview.FireIndex` | src/components/new-entry/ConfirmationModal.jsx:36 | the first fire-certificate entry, or -1 exactly when there is none |
| `NewEntryReview.FormatFiles` | src/components/new-entry/ConfirmationModal.jsx:35-67 | the captioned other files, then one "FIRE Certificate" tile per URL of the first fire entry; the length is the sum; none without a fire list |
| `NewEntryReview.FireCaptionsComeFromCertificates` | src/components/new-entry/ConfirmationModal.jsx:58-67 | a tile is captioned "FIRE Certificate" exactly when it comes from the certificate list |
| `NewEntryReview.TileDisplay` | src/components/new-entry/ConfirmationModal.jsx:188-205 | a single-URL tile is displayed as that URL's document name or image |
| `NewEntryReview.HandleUpdateStatus` | src/components/new-entry/ConfirmationModal.jsx:89-119 | patches the row, then sends `{status, remarks, entryId}` to `update-new-entry-status`, and always closes |
| `CpdReview.FileDisplays` | src/components/cpd/ConfirmationModal.jsx:141-162 | one display per parsed URL, in order |
| `CpdReview.DocumentsListedByName` | src/components/cpd/ConfirmationModal.jsx:141-151 | documents stored under the bucket prefix are each listed by their own file name |
| `CpdReview.HandleUpdateStatus` | src/components/cpd/ConfirmationModal.jsx:66-68 | patches the row, then sends `{status, remarks, entryId}` to `update-entry-status`, and always closes |

## Left out

- HTTP calls (`get`, `post`, `put`, `fetch`), the bearer-token interceptor and the client configuration: network I/O. Each response is an input value (`HttpResult`): no response, or a status with the body's `message`.
- `Intl.DateTimeFormat` and `Date` parsing: library calls. The Manila wall-clock fields are integer inputs. The formatter's `hour12: false` can print midnight as hour 24. The model takes the hour in 0 to 23, so such a reading, and which day it is read as, is not modelled.
- `JSON.parse` and `JSON.stringify`: library calls. A new-entry row's `fileURLs` is kept as the list it encodes. A CPD row's `uploaded_file` stays text. The CPD modal takes the already parsed URL list as its input.
- `FormData`: its entries are the ordered `(key, value)` list. How the browser stringifies a value (`null`, a `FileList`, a number) for transport is not modelled.
- `parseInt` on program ids: ids are already integers. `parseInt` on the route parameter is not modelled as such: the route `/cpd/registration` in src/App.jsx:48 declares no `:prog_id`, so the parameter is `undefined` and the position `parseInt(undefined) - 1` is `NaN`. `programs[NaN]` is `undefined`, exactly as for an out-of-range `progId`, so the model covers it as that case: `LoadPrograms` gives `Absent` and `Control` gives `RenderFault`. As routed, the CPD registration page therefore always ends in `RenderFault` once the programs load.
- Browser `FileList` and MIME detection: a file is its name and its `type` string.
- React state, effects, rendering, the theme, toasts and routing: not modelled. Each handler is one sequential step from the state it reads to the state it writes. Async interleaving and the loading flags as concurrency are not modelled. Only the final value of each progress flag is.
- The sign-in flow and `localStorage` on the admin page: persistent I/O with no local logic.
- The display-only confirmation component and the application shell: rendering only.
- Submission.HandleResponse: the server's 403 `message` is taken as a string; a body without `message` (an `undefined` alert text) is not modelled.
- CpdRegistration.FetchTeams: the page has the call to fetch the teams commented out. The model states what the fetch would do, not that the page ever runs it.
- Review.LaterOpeningKeepsModal: the remarks field is uncontrolled and remounts empty at each opening, so what it displays is not modelled; the model states the remarks state that is kept and sent.
- NewEntryReview.TileDisplay: a non-certificate entry whose file is a URL list is not given a display. In the page, `includes` on an array checks for an element, not a substring.
- CpdRegistration.IsCutOff: the clock fields and `date_from` are taken to be an instant and a date that exist; how a browser parses a string that names no real date (`2024-02-30`) differs between engines and is not modelled. The same holds for CpdRegistration.LoadPrograms and NewEntryRegistration.IsCutOff.
- Review.SessionStep: an opening always finds its row, since the id comes from a row of the grid; an id with no row would mount the modal with `undefined` data, whose destructuring throws; that is not modelled.
- Review.SessionStep: the rows as the session sees them are not patched by a status update; the patch is modelled by `Review.UpdateRowStatus` on its own.
- Review.UpdateRowStatus: the array stands for the row objects shared by the old and the copied list. Because the copy is shallow, the objects are one and the same. Distinct object identities are not modelled.
- NewEntryRegistration.HandleSelectProgram: the `entries !== slots` test compares values of one type. JavaScript's strict comparison of a number with a string is not modelled.
