# Hostel dashboard: room, allocation and clearance logic in Dafny

This project models the decision logic inside the React pages and dialogs of a hostel
administration dashboard, and proves properties about it:

- the room list: the mock-room generator, the applied filters, the search box, the
  row selection and what the page handlers do to its state;
- the filter panel: one key changes, and the active-filter count decides which
  buttons are offered;
- the "Add Room" form: its rules and the room it builds;
- the "Allocate Room" dialog: a selection of pending students bounded by the room's
  free beds;
- the bulk-actions menu: its confirmation state machine;
- the student clearance modal: four sections that must all be approved;
- the clearance list, which turns a request's checklist into the modal's four
  sections;
- the student list search.

State that a component keeps with `useState` and changes in its handlers is a Dafny
`class` (`RoomManagementPage`, `AllocateDialog`, `BulkActionsMenu`, `ClearanceModal`).
Each handler is a method whose `ensures` states the new state. Expressions built from
`filter`, `map`, `find` and `switch` are functions, and lemmas relate them.

Some inputs come from outside the code. A `Math.random()` value is a fraction
`num/den` below 1 (`RoomManagement.Random`), passed in as a parameter. `Date.now()`
becomes an `id` parameter. An awaited callback becomes a `succeeds` flag. The
callback's argument is returned, so the caller can see what would have been sent.

Modules:

| file | module |
|---|---|
| Wrappers.dfy | `Option` and `Result` |
| Seqs.dfy | order-preserving `filter`, `find`, subsequences |
| Text.dfy | `toLowerCase`, `includes`, `trim`, `split`/`join`, `toString`, `padStart` |
| RoomFilters.dfy | src/components/room-management/room-filters.tsx |
| RoomManagement.dfy | src/pages/room-management/index.tsx |
| AddRoomDialog.dfy | src/components/room-management/add-room-dialog.tsx |
| AllocateRoomDialog.dfy | src/components/room-management/allocate-room-dialog.tsx |
| BulkActions.dfy | src/components/room-management/bulk-actions.tsx |
| StudentClearanceModal.dfy | src/pages/clearance-management/student-clearance-modal.tsx |
| ClearanceManagement.dfy | src/pages/clearance-management/index.tsx |
| StudentManagement.dfy | src/pages/student-management/index.tsx |

## Model

| member | source | states |
|---|---|---|
| RoomFilters.HandleFilterChange | src/components/room-management/room-filters.tsx:36-38 | the chosen key gets the new value; every other key keeps its value |
| RoomFilters.CountActive | src/components/room-management/room-filters.tsx:40 | counting truthy values over a key list: at most the list's length, and zero exactly when no listed key is active |
| RoomFilters.ActiveFiltersCount | src/components/room-management/room-filters.tsx:13-40 | the active-filter count lies in 0..5 and is zero exactly when no key holds a non-empty value |
| RoomFilters.CountAfterChange | src/components/room-management/room-filters.tsx:36-40 | changing one key moves the count by that key alone: minus one if it was active, plus one if the new value is non-empty |
| RoomFilters.ClearingKeyLowersCount | src/components/room-management/room-filters.tsx:36-40 | setting a key to "" makes it inactive and lowers the count by one exactly when it was active |
| RoomFilters.SettingKeyRaisesCount | src/components/room-management/room-filters.tsx:36-40 | setting a key to a non-empty value makes it active and raises the count by one exactly when it was inactive |
| RoomFilters.ApplyEnabledIff | src/components/room-management/room-filters.tsx:63-67 | "Apply Filters" can be pressed exactly when nothing is loading and some key holds a non-empty value |
| RoomFilters.ClearedFilters | src/components/room-management/room-filters.tsx:47-66 | after "Clear all" (`{}`) the count is 0, Apply is disabled, and "Clear all" and the badge disappear |
| RoomManagement.Scale | src/pages/room-management/index.tsx:60-65 | `Math.floor(Math.random() * n)` is an index below `n` |
| RoomManagement.NumberSuffix | src/pages/room-management/index.tsx:69 | the padded suffix has two decimal digits whose value is `(i % 20) + 1`, so it lies in "01".."20" |
| RoomManagement.RoomId | src/pages/room-management/index.tsx:68 | the id is the decimal form of `i + 1`, without a leading zero |
| RoomManagement.RoomNumber | src/pages/room-management/index.tsx:69 | the room number is block, then floor, then two digits denoting `(i % 20) + 1` |
| RoomManagement.GeneratedStatus | src/pages/room-management/index.tsx:83-88 | the status is Full exactly when occupied ≥ capacity; otherwise it is Maintenance exactly when the draw exceeds 0.9, else Available |
| RoomManagement.GeneratedFeatures | src/pages/room-management/index.tsx:76-82 | the features are the first `k + 1` of the five feature names, in order |
| RoomManagement.GeneratedOccupied | src/pages/room-management/index.tsx:63 | the occupied count drawn for a room never exceeds its capacity |
| RoomManagement.GenerateRoom | src/pages/room-management/index.tsx:59-97 | a generated room has capacity 1/2/3/4 for Single/Double/Triple/Quad and occupied in 0..capacity. It is Full exactly when no bed is free. Block and floor come from their lists, the id denotes i+1, and the number is built from block, floor and position. The price lies in 500000..900000, and the features are a non-empty prefix of the five names. No history and no occupants |
| RoomManagement.GeneratedNumber | src/pages/room-management/index.tsx:69 | a generated number has four characters: block letter, floor digit, then two digits whose value lies in 1..20 |
| RoomManagement.GenerateMockRooms | src/pages/room-management/index.tsx:54-98 | `count` rooms, each meeting the generator's invariant, the k-th with id k+1 |
| RoomManagement.GeneratedIdsDistinct | src/pages/room-management/index.tsx:59-68 | no two generated rooms share an id |
| RoomManagement.MatchesFiltersIff | src/pages/room-management/index.tsx:166-182 | the early-return predicate admits a room exactly when it meets every active key's criterion. The occupancy values are "empty" (0 occupied), "partial" (neither 0 nor capacity) and "full" (at capacity); any other value admits all. Unset or empty keys impose nothing |
| RoomManagement.ApplyFilters | src/pages/room-management/index.tsx:166-182 | the result is an order-preserving sub-list of the original generated rooms holding exactly those that pass, each as many times as in the original list; with no active key it is all of them |
| RoomManagement.SearchRooms | src/pages/room-management/index.tsx:205-210 | the rows on screen are an order-preserving sub-list of the rooms holding exactly those whose lower-cased number, type or status contains the term, each as many times as in the list; an empty term shows all |
| RoomManagement.HeaderCheckedWithStaleSelection | src/pages/room-management/index.tsx:268-271 | the header box as written reads checked for selection ["1"] while only room "2" is on screen |
| RoomManagement.HeaderAgreesWhenSelectionCurrent | src/pages/room-management/index.tsx:268-271 | when the selection holds distinct ids that are all on screen, the length test agrees with "every room on screen is selected" |
| RoomManagement.RoomManagementPage.HeaderChecked | src/pages/room-management/index.tsx:268-271 | the header box as intended, every room on screen selected; whenever the selection holds distinct ids that are all on screen it agrees with the length test as written |
| RoomManagement.RoomManagementPage.constructor | src/pages/room-management/index.tsx:100-138 | the page starts with the 50 generated rooms, an empty search, no selection, no filters, not loading |
| RoomManagement.RoomManagementPage.HandleSearch | src/pages/room-management/index.tsx:140-142 | the stored term is the lower-cased input |
| RoomManagement.RoomManagementPage.HandleLoadData | src/pages/room-management/index.tsx:144-158 | the list becomes 40 to 59 freshly generated rooms and loading ends |
| RoomManagement.RoomManagementPage.SetFilters | src/pages/room-management/index.tsx:253-255 | the filter record becomes the panel's new record |
| RoomManagement.RoomManagementPage.ClearFilters | src/pages/room-management/index.tsx:256 | the filter record becomes `{}` with no active key |
| RoomManagement.RoomManagementPage.HandleApplyFilters | src/pages/room-management/index.tsx:160-190 | the list becomes the filtered original rooms, whatever it held before, so every listed room is a generated one; loading ends |
| RoomManagement.RoomManagementPage.HandleBulkAction | src/pages/room-management/index.tsx:192-203 | after a bulk action the selection is empty, the bulk menu is hidden and loading ends |
| RoomManagement.RoomManagementPage.OnRoomAdded | src/pages/room-management/index.tsx:221-223 | the new room is appended and the existing rooms are unchanged and in place |
| RoomManagement.RoomManagementPage.CheckRoom | src/pages/room-management/index.tsx:305-309 | checking a row appends its id; a selection without repeats stays without repeats when the id is new |
| RoomManagement.RoomManagementPage.UncheckRoom | src/pages/room-management/index.tsx:310-313 | unchecking removes every occurrence of the id, keeps every other id, and keeps their order |
| RoomManagement.RoomManagementPage.HeaderCheckedChange | src/pages/room-management/index.tsx:272-278 | checking selects the ids of the rooms on screen, after which every shown room is selected; unchecking clears the selection and hides the bulk menu |
| AddRoomDialog.ParseType | src/components/room-management/add-room-dialog.tsx:40 | the type enum accepts exactly the four type names, each as its own type |
| AddRoomDialog.ParseTypeName | src/components/room-management/add-room-dialog.tsx:40 | every room type's name is accepted as that type |
| AddRoomDialog.Errors | src/components/room-management/add-room-dialog.tsx:36-44 | the error object has an entry exactly for each broken rule, carrying that rule's message |
| AddRoomDialog.AcceptedIff | src/components/room-management/add-room-dialog.tsx:36-44 | the form is accepted exactly when the room number has ≥ 2 characters, block and floor are non-empty, the type is one of the four, capacity ≥ 1 and price ≥ 0 |
| AddRoomDialog.DefaultsRejected | src/components/room-management/add-room-dialog.tsx:57-65 | the untouched form fails exactly the room-number, block and floor rules |
| AddRoomDialog.SplitFeatures | src/components/room-management/add-room-dialog.tsx:78 | there is one feature per comma plus one, and no feature holds a comma |
| AddRoomDialog.SplitFeaturesTrimmed | src/components/room-management/add-room-dialog.tsx:78 | no feature starts or ends with whitespace, and an empty input gives one empty feature |
| AddRoomDialog.Submit | src/components/room-management/add-room-dialog.tsx:68-87 | an invalid form yields its errors and no room. A valid one yields a room copying number, block, floor, type, capacity and price. The room has 0 occupied, is Available, has the split features, no history and no occupants, and three Working amenities |
| AddRoomDialog.AddedRoomHasFreeBeds | src/components/room-management/add-room-dialog.tsx:68-79 | an added room is empty, has at least one bed, and has at least one feature entry |
| AddRoomDialog.CapacityIndependentOfType | src/components/room-management/add-room-dialog.tsx:40-41 | nothing ties capacity to type: a Single room with 4 beds is accepted |
| AllocateRoomDialog.AvailableSpace | src/components/room-management/allocate-room-dialog.tsx:88 | no room gives 0; for a room with 0 ≤ occupied ≤ capacity the free space lies in 0..capacity and is 0 exactly when the room is full; an over-full room gives a negative space |
| AllocateRoomDialog.FilteredStudents | src/components/room-management/allocate-room-dialog.tsx:90-97 | the offered students are an order-preserving sub-list holding exactly the Pending students whose lower-cased name or registration number contains the lower-cased term, each as many times as in the list |
| AllocateRoomDialog.EmptyTermOffersAllPending | src/components/room-management/allocate-room-dialog.tsx:90-97 | with an empty term exactly the Pending students are offered |
| AllocateRoomDialog.SelectAllOverfillsOverfullRoom | src/components/room-management/allocate-room-dialog.tsx:177-182 | as written, for a room with capacity 2 and 3 occupants select-all picks 3 of the 4 students |
| AllocateRoomDialog.SelectAll | src/components/room-management/allocate-room-dialog.tsx:177-186 | select-all picks the first min(space, offered) students in order, never more than the free space, none when there is none |
| AllocateRoomDialog.SelectAllAgrees | src/components/room-management/allocate-room-dialog.tsx:177-182 | for a non-negative space the written `slice` and the corrected select-all coincide |
| AllocateRoomDialog.HeaderCheckedWhenSelectionCurrent | src/components/room-management/allocate-room-dialog.tsx:173-176 | when the selection holds distinct offered ids and the offered ids are distinct, the length test holds exactly when the list on offer is non-empty and every student on it is selected |
| AllocateRoomDialog.AllocateDialog.constructor | src/components/room-management/allocate-room-dialog.tsx:77-86 | the dialog starts with an empty term, an empty selection, not loading |
| AllocateRoomDialog.AllocateDialog.SetSearchTerm | src/components/room-management/allocate-room-dialog.tsx:159-163 | the term becomes the input; nothing else changes |
| AllocateRoomDialog.AllocateDialog.SelectStudent | src/components/room-management/allocate-room-dialog.tsx:99-115 | ticking is refused, leaving the selection as it was, exactly when the selection already fills the free space. Otherwise the id is appended. Unticking removes the id. A tick that goes through leaves the selection within the free space, and a selection that fitted the room on display still fits it |
| AllocateRoomDialog.AllocateDialog.HeaderCheckedChange | src/components/room-management/allocate-room-dialog.tsx:177-186 | the header box selects the corrected select-all or clears the selection; either way the selection then fits the room on display |
| AllocateRoomDialog.AllocateDialog.HeaderChecked | src/components/room-management/allocate-room-dialog.tsx:173-176 | the header box as written (a length test); with a current selection it is checked exactly when every student on offer is selected |
| AllocateRoomDialog.AllocateDialog.Allocate | src/components/room-management/allocate-room-dialog.tsx:117-141 | with an empty selection `onAllocate` is not called and nothing changes. Otherwise it receives the selection. On success the selection is cleared and the dialog closes. On failure the selection is kept. Loading is over in both cases. A press the enabled button allows always reaches `onAllocate`; `onAllocate` is skipped only on a press the button forbids. When the selection was made for the room on display, a room with no free bed (occupied ≥ capacity) never reaches `onAllocate`; a selection kept from another room is passed on as it is (see Findings) |
| AllocateRoomDialog.AllocateDialog.AllocateEnabled | src/components/room-management/allocate-room-dialog.tsx:241 | the Allocate button is disabled with an empty selection or while loading; when it is enabled and the selection was made for the room on display, the selection is non-empty and fits the free beds |
| AllocateRoomDialog.AllocateDialog.SetRoom | src/components/room-management/allocate-room-dialog.tsx:70-85 | the parent passes another `room` prop: the room changes, nothing else does, so the selection made for the previous room is kept |
| AllocateRoomDialog.AllocateDialog.Close | src/components/room-management/allocate-room-dialog.tsx:231-238 | Cancel, like the dialog's own close at line 146, only reports `open = false`; the selection and the search term are kept |
| AllocateRoomDialog.AllocateDialog.AllocateWithinSpace | src/components/room-management/allocate-room-dialog.tsx:117-141 | corrected `handleAllocate`: `onAllocate` never receives more students than the room on display has free beds; a non-empty selection that does not fit is refused and nothing changes; on a selection made for this room it never refuses and behaves as `Allocate` |
| AllocateRoomDialog.StaleSelectionReachesFullRoom | src/components/room-management/allocate-room-dialog.tsx:117-131 | as written: two students ticked for a room with two free beds, Cancel, the dialog shown for a full room, Allocate: `onAllocate` receives both ids for the full room |
| BulkActions.DescriptionStatesCount | src/components/room-management/bulk-actions.tsx:38-52 | both confirmation texts contain the number of selected rooms, and different numbers give different texts |
| BulkActions.EmbedReadBack | src/components/room-management/bulk-actions.tsx:43 | the number in a template text can be read back from the digits after its prefix |
| BulkActions.BulkActionsMenu.constructor | src/components/room-management/bulk-actions.tsx:28-35 | the menu starts closed, with no pending action, not loading |
| BulkActions.BulkActionsMenu.HandleAction | src/components/room-management/bulk-actions.tsx:37-60 | "maintenance" and "clear" set the pending action for the selection's size and open the dialog without calling `onAction`. "export" calls `onAction("export")` without touching the dialog or the pending action, and loading stays on if it rejects. Anything else opens the dialog on the old action |
| BulkActions.BulkActionsMenu.HandleConfirm | src/components/room-management/bulk-actions.tsx:62-68 | with no pending action nothing happens. Otherwise its type goes to `onAction`, which is never "export". Only on success does loading end and the dialog close |
| BulkActions.BulkActionsMenu.SetDialogOpen | src/components/room-management/bulk-actions.tsx:101-104 | the dialog's open flag follows `onOpenChange` |
| StudentClearanceModal.WithStatus | src/pages/clearance-management/student-clearance-modal.tsx:91-96 | the chosen section gets the new status and every other section keeps its own |
| StudentClearanceModal.WithStatusIdempotent | src/pages/clearance-management/student-clearance-modal.tsx:91-96 | applying the same update twice is applying it once, and re-setting a section's own status changes nothing |
| StudentClearanceModal.IsFullyCleared | src/pages/clearance-management/student-clearance-modal.tsx:99-101 | every value of the section record is approved exactly when each of the four fields (hostel admin, room inspection, key property, finance) is |
| StudentClearanceModal.ApprovedCount | src/pages/clearance-management/student-clearance-modal.tsx:82-88 | the approved count lies in 0..4, is 4 exactly when fully cleared and 0 exactly when no section is approved |
| StudentClearanceModal.ProgressPercent | src/pages/clearance-management/student-clearance-modal.tsx:82-88 | the progress is a multiple of 25 in 0..100, 100 exactly when fully cleared and 0 exactly when nothing is approved |
| StudentClearanceModal.ApprovedCountAfterUpdate | src/pages/clearance-management/student-clearance-modal.tsx:82-96 | an update moves the approved count by the updated section alone |
| StudentClearanceModal.UpdateAndFullClearance | src/pages/clearance-management/student-clearance-modal.tsx:91-101 | setting any section to pending, rejected or more-info leaves the student not fully cleared; approving the last unapproved section clears them fully |
| StudentClearanceModal.OverallLabel | src/pages/clearance-management/student-clearance-modal.tsx:281 | the label is "Fully Cleared" exactly when fully cleared, and "Pending Clearance" otherwise |
| StudentClearanceModal.ProceedEnabledIff | src/pages/clearance-management/student-clearance-modal.tsx:292 | Proceed is enabled exactly when all four sections are approved, which is exactly when progress is 100 |
| StudentClearanceModal.ClearanceModal.constructor | src/pages/clearance-management/student-clearance-modal.tsx:74-76 | the section record starts as the student's record |
| StudentClearanceModal.ClearanceModal.UpdateStatus | src/pages/clearance-management/student-clearance-modal.tsx:91-96 | only the chosen section changes, to the new status; a non-approved status disables Proceed |
| ClearanceManagement.MapClearanceStatus | src/pages/clearance-management/index.tsx:47-60 | cleared ↦ approved, failed ↦ rejected, pending ↦ pending, never more-info |
| ClearanceManagement.MapClearanceStatusInjective | src/pages/clearance-management/index.tsx:47-60 | different item statuses map to different section statuses |
| ClearanceManagement.SectionMatchesIsSubstring | src/pages/clearance-management/index.tsx:219-238 | the hostel-admin, room-inspection and finance predicates are exactly "contains Room", "contains Property" and "contains Fees"; the exact-name disjunct adds nothing |
| ClearanceManagement.SectionStatusesOf | src/pages/clearance-management/index.tsx:219-254 | each section takes the mapped status of the first checklist item whose name it matches, or pending when none matches; never more-info |
| ClearanceManagement.MapToStudentData | src/pages/clearance-management/index.tsx:217-256 | id, name, registration number and room are copied; the section record is the one built from the checklist |
| ClearanceManagement.StudentDetails | src/pages/clearance-management/index.tsx:244-248 | a missing or empty department becomes "Not specified" and a non-empty one is kept; a missing or empty photo becomes the fixed URL and a non-empty one is kept. The hostel is the room number's first character followed by " Block", or just " Block" for an empty room number |
| ClearanceManagement.FilteredClearances | src/pages/clearance-management/index.tsx:209-214 | the listed requests are an order-preserving sub-list holding exactly those whose lower-cased student name, registration number or room number contains the term, each as many times as in the list; an empty term lists all |
| ClearanceManagement.SearchIgnoresCase | src/pages/clearance-management/index.tsx:205-214 | a request is listed exactly when the typed text, lower-cased, occurs in its lower-cased name, registration number or room number; so typed text found as it is in one of them, in any case, always lists the request |
| ClearanceManagement.AllItemsClearedGivesFullClearance | src/pages/clearance-management/index.tsx:217-256 | for a request whose items are all cleared, the modal opens fully cleared exactly when every section finds a matching item |
| ClearanceManagement.JaneSmithFullyCleared | src/pages/clearance-management/index.tsx:107-150 | the second mock request opens the modal fully cleared |
| StudentManagement.FilteredStudents | src/pages/student-management/index.tsx:66-72 | the listed students are an order-preserving sub-list, no longer than the list, holding exactly those whose lower-cased name, registration number, room number or course contains the term, each as many times as in the list. Records are unchanged, and an empty term lists all |
| StudentManagement.SearchByTypedValue | src/pages/student-management/index.tsx:62-72 | a student is listed exactly when the typed value, ignoring case, occurs in one of the four fields; so a value found as typed in one of them always lists the student |
| StudentManagement.NarrowingSearch | src/pages/student-management/index.tsx:66-72 | a term containing another lists only students the shorter term lists |
| Text.ContainsIffOccurs | src/pages/room-management/index.tsx:207-209 | the recursive `includes` holds exactly when the term occurs at some index |
| Text.TrimSpec | src/components/room-management/add-room-dialog.tsx:78 | `trim` removes only whitespace at the ends, keeps a contiguous part, and leaves no whitespace at either end |
| Text.TrimIdempotent | src/components/room-management/add-room-dialog.tsx:78 | trimming twice is trimming once |
| Text.JoinSplit | src/components/room-management/add-room-dialog.tsx:78 | joining the pieces of a split with the separator gives the input back |
| Text.PaddedValue | src/pages/room-management/index.tsx:69 | zero-padding a number's decimal form keeps it all digits and keeps its value |
| Text.NatToStringRoundTrip | src/pages/room-management/index.tsx:68 | reading back the decimal form of n gives n |

## Left out

- Rendering, Tailwind classes, icons, tooltips, badges, toasts and `console.log` are not modelled.
- The `setTimeout` delays are not modelled. The delayed handlers of the room page cannot fail, so they are methods that simply finish.
- `Math.random()` and `Date.now()` are parameters. A draw is an exact fraction, not a floating-point number.
- Floating-point arithmetic is left out: `mockStatistics` with `occupancyRate`, the `toLocaleString` price format, and non-integer or `NaN` values from the number inputs. Capacity and price are integers.
- StudentClearanceModal.ProgressPercent: modelled as approved × 25. This equals `(approved / 4) * 100` only because quarters are exact in floating point. `Math.round` of it is the same number.
- `toLowerCase` is modelled for ASCII letters only; other characters are left as they are.
- String lengths are counted in characters (Unicode scalar values), not in UTF-16 code units as JavaScript and zod count them. A room number of one character outside the Basic Multilingual Plane passes zod's `.min(2)` but breaks `AddRoomDialog.Breaks`'s length rule; slices and `padStart` differ the same way for such characters.
- zod and react-hook-form internals are not modelled. `Errors` gives one message per broken rule.
- `form.reset()`, the `isOpen`/`onOpenChange` plumbing of the other dialogs, and the details dialog are not modelled. So are the clearance page's `selectedClearance`, `isModalOpen` and `handleModalClose`.
- The modal's `handleProceed` is not modelled: it only shows a toast and calls `onClose`.
- StudentClearanceModal.ClearanceModal.UpdateStatus takes one of the four sections. The component's record is keyed by any string, but every call site passes one of the four names.
- The unused `AddRoomDialog` stub at src/pages/room-management/index.tsx:365-392 is not modelled. The imported dialog shadows it.
- Routing and the `PrivateRoute` auth gate (src/routes/index.tsx) are not modelled.
- The display-only pages and components are not modelled: dashboard, reports, fee, complaint, attendance, settings, room history, room details, room statistics and the academic period selector.
- Only one of the three mock clearance requests (Jane Smith's) is a constant. The mock student lists of the student page and the room page's period selector values are left out. The searches are proved for any list.
- AllocateRoomDialog.AllocateDialog.HeaderCheckedChange uses the corrected select-all (see Findings). For an over-full room (negative free space) it selects nobody, where the written `slice(0, availableSpace)` selects all offered students but the last −space of them; for every other room the two agree (`AllocateRoomDialog.SelectAllAgrees`). The header box's checked state is kept as written (a length test).
- The allocate dialog does not look at `room.status`: a Maintenance room with free beds accepts a selection and passes it to `onAllocate`. Only a room with no free bed is refused, and only for a selection made while that room is shown, which `AllocateRoomDialog.AllocateDialog.Allocate` states. No code of the dashboard raises a room's `occupied` or recomputes its status after an allocation; the dialog only hands the ids to its caller, which is not part of this model.
- RoomManagement.RoomManagementPage.HeaderChecked reads the header box as intended, every shown room selected. The length test as written is `RoomManagement.HeaderCheckedAsWritten` (see Findings).
- BulkActions.BulkActionsMenu takes the selection as fixed while the menu is mounted. The page unmounts it whenever the selection empties, but a selection that changes size while a confirmation is pending is not modelled.

## Findings

| source | as written | input that shows it | evidently intended | confidence | as-written member | corrected member |
|---|---|---|---|---|---|---|
| src/pages/room-management/index.tsx:268-271 | the header box reads checked when the selection is as long as the room list on screen | select room "1", then search so only room "2" is shown: the box reads checked though room "2" is not selected | checked only when every room on screen is selected | not executed; medium: a stale selection needs a search after selecting | RoomManagement.HeaderCheckedWithStaleSelection | RoomManagement.RoomManagementPage.HeaderChecked |
| src/components/room-management/allocate-room-dialog.tsx:177-182 | select-all takes `filteredStudents.slice(0, availableSpace)`; a negative end counts back from the end of the list | a room with capacity 2 and 3 occupants (space −1) and the four pending students: three are selected, while ticking one by one is refused | select nobody when no bed is free | not executed; low: no room this dashboard builds is over-full | AllocateRoomDialog.SelectAllOverfillsOverfullRoom | AllocateRoomDialog.SelectAll |
| src/components/room-management/allocate-room-dialog.tsx:117-131 | `handleAllocate` passes whatever selection is kept; the selection survives Cancel (line 234) and a change of the `room` prop (lines 70-85), and the free space is only checked when a box is ticked | room A (capacity 2, 0 occupied): tick students "1" and "2", Cancel, the parent shows room B (capacity 2, 2 occupied), press Allocate: `onAllocate(["1", "2"])` for a full room | refuse a selection that does not fit the room on display | not executed; low: the dialog is mounted nowhere in this dashboard, and a parent that remounts it per room never meets the case | AllocateRoomDialog.StaleSelectionReachesFullRoom | AllocateRoomDialog.AllocateDialog.AllocateWithinSpace |
