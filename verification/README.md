# Creator dashboard: paged earnings table and clip reducers

A Dafny model of the logic inside a small React dashboard for creators. It has two parts.

- **The earnings table** (`TipTable.jsx`). A simulated server answers a request for page
  `page` of `pageSize` rows. It returns `callsData.slice((page-1)*pageSize, page*pageSize)`
  and `total = callsData.length`. The table keeps its `current` page and a fixed page size of 5.
  Its effect re-fetches whenever `current` changes.
- **The clip dashboard** in two versions. Each event handler becomes a pure transition on an
  immutable `State`.
  - `crud_operation_on_videoClips/MyClipsDashBord.jsx` handles upload with a duplicate-name
    guard, drop, delete, edit, save and approve.
  - `unlock_video_feature/MyClipsDashBord.jsx` adds a price per clip, a list of dropped videos
    with a parallel list of typed amounts, an unlock action, and the approved/unlocked card
    classification.

The files:

- `js.dfy` (module `Js`) holds the JavaScript semantics the handlers rely on: `null`/`undefined`
  as `Option`, `slice` and `splice` with negative-index clamping, `filter` by position, and
  element assignment past the end of an array, which leaves holes.
- `tip_table.dfy` (module `TipTable`) models the earnings table.
- `clips_crud.dfy` (module `ClipsCrud`) and `clips_unlock.dfy` (module `ClipsUnlock`) model the
  two dashboards.

Each dashboard module ends with an `Action` datatype, a `Step` function and a `Run` function
over event sequences. An inductive lemma over `Run` shows that clip file names stay pairwise
distinct whatever the user does.

Modelling choices:

- The server delay (`setTimeout`) and the `FileReader` callbacks complete immediately. Each
  callback runs against the state that the handler saw.
- `alert` becomes a `Report` value returned next to the new state: `DuplicateAlert`, or
  `PayAlert(amount)` in the unlock variant.
- Edit, approve and unlock read `clips[index]` before they set any state. In JavaScript an
  index with no clip throws a `TypeError` there and the state is left unchanged. The model
  returns `Outcome(s, TypeError)` for that case. It does not forbid the index.
- Delete uses `filter((clip, i) => i !== index)`, so any index is accepted. An index with no
  clip changes nothing.
- `amounts` is a `seq<Option<string>>`, where `None` is an array hole or `undefined`.
  - `handleAmountChange` at an index past the end grows the array and pads it with holes.
  - At a negative index it creates a non-index property, so the elements stay unchanged.
  - `amounts[0]` on an empty array is `undefined`, so the new clip's `amount` is `None`.
- The fetch is modelled for every integer `page` and `pageSize`, with JavaScript `slice`
  clamping. The properties of a page request are stated for `page >= 1` and `pageSize >= 1`,
  which is what the table sends.

Behaviours of the code worth knowing, which the model keeps as written:

- The fetch does not check `page >= 1` (`TipTable.jsx:11-13`). The model accepts any page and
  resolves negative `slice` arguments as JavaScript does.
- The unlock variant's drop handler (`unlock_video_feature/MyClipsDashBord.jsx:41-54`) stages
  the file and lists it, but leaves the description alone. The CRUD variant's drop handler
  (`crud_operation_on_videoClips/MyClipsDashBord.jsx:43-46`) writes "File ready to upload: "
  and the file name into the description.
- Deleting a clip (`crud_operation_on_videoClips/MyClipsDashBord.jsx:61-64`) does not adjust
  `editingIndex`. After a delete before the clip being edited, a save (lines 75-83) writes the
  form into the clip that moved into that position. `DeleteShiftsEditTarget` shows this on
  three clips.

## Model

| member | source | states |
|---|---|---|
| Js.Slice | TipTable.jsx:13 | `slice` keeps `max(end' - start', 0)` elements: element j is the record at the resolved start plus j |
| Js.FilterIndex | crud_operation_on_videoClips/MyClipsDashBord.jsx:62 | filtering by position drops one element exactly when the index is a position of the array |
| Js.FilterIndexIsRemoveAt | crud_operation_on_videoClips/MyClipsDashBord.jsx:62 | filtering out an in-range position is removing that element and keeping the rest in order; any other index keeps the array |
| Js.Splice1 | unlock_video_feature/MyClipsDashBord.jsx:67-74 | `splice(i, 1)` removes the element at the resolved index, or nothing when that index is the length |
| Js.Assign | unlock_video_feature/MyClipsDashBord.jsx:77-81 | `xs[i] = v` makes position i read back v and every other position read back what it read before; a negative i changes no element |
| TipTable.FetchDataFromServer | TipTable.jsx:8-19 | the response's total is the collection length whatever page is asked for, and the rows never outnumber the records |
| TipTable.FetchReturnsPage | TipTable.jsx:11-16 | for page, size >= 1 the rows are exactly the records in [min((page-1)*size, n), min(page*size, n)): at most size of them, exactly size when page*size <= n, none when (page-1)*size >= n |
| TipTable.RecordOnItsPage | TipTable.jsx:11-13 | record t is row t % size of page t / size + 1 |
| TipTable.FirstPagesArePrefix | TipTable.jsx:11-13 | pages 1..k concatenated are the first min(k*size, n) records, so pages are adjacent and disjoint |
| TipTable.TwelveRecordsInPagesOfFive | TipTable.jsx:11-16 | 12 records in pages of 5: page 1 has 5 rows, page 3 holds records 10 and 11, page 4 is empty with total 12 |
| TipTable.LoadData | TipTable.jsx:93-102 | after the effect the table is not loading and shows the server's answer for (current, 5) with the full total |
| TipTable.Mount | TipTable.jsx:86-102 | on mount the table shows page 1, the first min(5, n) records |
| TipTable.HandleTableChange | TipTable.jsx:105-107 | a table change sets `current` to the requested page and touches nothing else |
| TipTable.ChangePage | TipTable.jsx:93-107 | a change to a new page re-fetches and shows that page; a change to the same page changes nothing |
| TipTable.BrowseShowsLastRequest | TipTable.jsx:89-107 | after mount and any page requests the table shows the last requested page (page 1 if none) |
| ClipsCrud.HandleUpload | crud_operation_on_videoClips/MyClipsDashBord.jsx:14-36 | no staged file: nothing changes; a taken name: alert and nothing changes; otherwise exactly one unapproved clip with the form's title and description is appended, earlier clips kept, form and staged file cleared |
| ClipsCrud.HandleDrop | crud_operation_on_videoClips/MyClipsDashBord.jsx:39-47 | a drop stages the first file and sets the description to "File ready to upload: " + name; an empty drop changes nothing |
| ClipsCrud.SelectFile | crud_operation_on_videoClips/MyClipsDashBord.jsx:127 | the file input stages its first file, or clears the staged file on an empty selection |
| ClipsCrud.SetTitle | crud_operation_on_videoClips/MyClipsDashBord.jsx:103 | typing sets the title only |
| ClipsCrud.SetDescription | crud_operation_on_videoClips/MyClipsDashBord.jsx:119 | typing sets the description only |
| ClipsCrud.HandleDeleteClip | crud_operation_on_videoClips/MyClipsDashBord.jsx:61-64 | an in-range index removes exactly that clip, the rest in order; any other index changes nothing; other fields untouched |
| ClipsCrud.HandleEditClip | crud_operation_on_videoClips/MyClipsDashBord.jsx:67-72 | loads the clip's title and description and records its index; no clip there: TypeError, nothing changes |
| ClipsCrud.HandleSaveEdit | crud_operation_on_videoClips/MyClipsDashBord.jsx:75-83 | only the clip at the editing index gets the form's title and description; length, other clips and other fields kept; editor closed and form cleared |
| ClipsCrud.CancelEdit | crud_operation_on_videoClips/MyClipsDashBord.jsx:181 | cancel closes the editor and changes nothing else |
| ClipsCrud.HandleApproveClip | crud_operation_on_videoClips/MyClipsDashBord.jsx:86-90 | only the clip at index becomes approved, length and other fields kept; no clip there: TypeError, nothing changes |
| ClipsCrud.ApproveIdempotent | crud_operation_on_videoClips/MyClipsDashBord.jsx:86-90 | approving twice equals approving once |
| ClipsCrud.EditThenSaveKeepsClips | crud_operation_on_videoClips/MyClipsDashBord.jsx:67-83 | opening the editor and saving untouched gives back the same clips |
| ClipsCrud.DeleteShiftsEditTarget | crud_operation_on_videoClips/MyClipsDashBord.jsx:61-83 | deleting clip 0 while editing clip 1 makes the save write into the former clip 2 |
| ClipsCrud.SecondUploadOfSameFileRejected | crud_operation_on_videoClips/MyClipsDashBord.jsx:14-47 | after a file is uploaded, dropping and uploading it again alerts and keeps the clips |
| ClipsCrud.StepKeepsNamesUnique | crud_operation_on_videoClips/MyClipsDashBord.jsx:17-27 | every handler keeps clip file names pairwise distinct |
| ClipsCrud.RunKeepsNamesUnique | crud_operation_on_videoClips/MyClipsDashBord.jsx:14-90 | from the initial state, any event sequence leaves clip file names pairwise distinct |
| ClipsUnlock.HandleUpload | unlock_video_feature/MyClipsDashBord.jsx:17-38 | as in the CRUD variant, and the new clip is locked with amount = amounts[0]; success also empties dropped videos and amounts, and rejection keeps them |
| ClipsUnlock.HandleDrop | unlock_video_feature/MyClipsDashBord.jsx:41-54 | a drop stages the first file and appends it to the dropped videos, and changes nothing else |
| ClipsUnlock.SelectFile | unlock_video_feature/MyClipsDashBord.jsx:186 | the file input stages its first file, or clears the staged file on an empty selection |
| ClipsUnlock.SetTitle | unlock_video_feature/MyClipsDashBord.jsx:140 | typing sets the title only |
| ClipsUnlock.SetDescription | unlock_video_feature/MyClipsDashBord.jsx:175-176 | typing sets the description only |
| ClipsUnlock.HandleDeleteDroppedVideo | unlock_video_feature/MyClipsDashBord.jsx:67-74 | removes index i from dropped videos and from amounts wherever i is in range, the rest in order; nothing else changes |
| ClipsUnlock.DeleteDroppedVideoKeepsPairs | unlock_video_feature/MyClipsDashBord.jsx:67-74 | deleting an in-range dropped video leaves every remaining video beside the amount (or hole) it had, even when fewer amounts than videos were typed; lists of equal length stay equal |
| ClipsUnlock.HandleAmountChange | unlock_video_feature/MyClipsDashBord.jsx:77-81 | the amount at index reads back the new value; every other entry reads as before; nothing else changes |
| ClipsUnlock.HandleDeleteClip | unlock_video_feature/MyClipsDashBord.jsx:84-87 | an in-range index removes exactly that clip, the rest in order; any other index changes nothing |
| ClipsUnlock.HandleEditClip | unlock_video_feature/MyClipsDashBord.jsx:90-95 | loads the clip's title and description and records its index; no clip there: TypeError, nothing changes |
| ClipsUnlock.HandleSaveEdit | unlock_video_feature/MyClipsDashBord.jsx:98-106 | only the editing clip's title and description change, keeping price, approval and unlock state; editor closed, form cleared |
| ClipsUnlock.CancelEdit | unlock_video_feature/MyClipsDashBord.jsx:249 | cancel closes the editor and changes nothing else |
| ClipsUnlock.HandleApproveClip | unlock_video_feature/MyClipsDashBord.jsx:109-113 | only the clip at index becomes approved; no clip there: TypeError, nothing changes |
| ClipsUnlock.HandleUnlock | unlock_video_feature/MyClipsDashBord.jsx:116-122 | alerts the clip's price and makes only that clip unlocked; no clip there: TypeError, nothing changes |
| ClipsUnlock.ApproveIdempotent | unlock_video_feature/MyClipsDashBord.jsx:109-113 | approving twice equals approving once |
| ClipsUnlock.UnlockIdempotent | unlock_video_feature/MyClipsDashBord.jsx:116-122 | unlocking twice yields the state and alert of unlocking once |
| ClipsUnlock.CardOf | unlock_video_feature/MyClipsDashBord.jsx:196-225 | not approved: pending; approved and unlocked: playable; approved and locked: pay prompt showing the clip's amount |
| ClipsUnlock.UploadApproveUnlockLifecycle | unlock_video_feature/MyClipsDashBord.jsx:17-122 | a new clip is pending; approved it asks for amounts[0]; unlocked it plays |
| ClipsUnlock.FirstAmountPricesUpload | unlock_video_feature/MyClipsDashBord.jsx:28-36 | the amount typed at index 0 becomes the uploaded clip's price |
| ClipsUnlock.StepKeepsNamesUnique | unlock_video_feature/MyClipsDashBord.jsx:19-28 | every handler keeps clip file names pairwise distinct |
| ClipsUnlock.RunKeepsNamesUnique | unlock_video_feature/MyClipsDashBord.jsx:17-122 | from the initial state, any event sequence leaves clip file names pairwise distinct |

## Left out

- `Upload-Video/MyClips.jsx` is an earlier widget. It appends unconditionally around `FileReader`, `URL.createObjectURL` and `console.log`, and has no rule worth stating.
- `TipsDashboard.jsx` only composes components.
- Data-URL previews, `FileReader` and the `setTimeout` delay are browser services. They are treated as immediate and total, and previews are not stored.
- Stale closures and out-of-order resolution are not modelled. These cover two fetches that resolve out of order, and an `onloadend` that fires after other updates. They concern timing, not logic.
- Approve and unlock mutate the shared clip object. That is only observable through such stale closures, so it is modelled as a functional update.
- Drag state (`isDragging`, drag over and drag leave) only affects styling and placeholders.
- The payment integration is a stub. Unlock only shows the alert, as the source does.
- antd column rendering, styling and the `earnings` sorter are not modelled. The sorter relies on JavaScript numeric subtraction.
- The backing collection is a value passed to every fetch, so no fetch can change it.
- Earnings are modelled as `int`, not as a floating-point number.
- Non-integer and non-numeric index arguments, which JavaScript would coerce, are not modelled.
