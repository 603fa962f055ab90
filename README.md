# Team settings roster: a Dafny model

This project models the team-settings screen of a small React admin front end. The screen is a paged, searchable and sortable roster of team members with:

- row selection and bulk or single-row delete;
- an edit/add form for one member (name, username, role, email, active flag, teams);
- team chips per row;
- a pager with numbered page buttons, Previous and Next.

The screen's state is a set of independent cells: the page rows, the selected row indices, the select-all flag, page, total, search term, sort column and direction, the draft member, edit mode, and the flags of the form, the confirmation dialog and the success popup. Event handlers update those cells. The model has two parts:

- `TeamSettings.Controller` is a class with one field per cell and one method per handler. Each method's `modifies` clause names exactly the cells the handler sets. Every server call the handler awaits (list fetch, fetch by id, delete, create, update) is a parameter carrying its outcome.
- The list transforms and decisions inside the handlers are pure functions with their own lemmas: sort toggle, select-all, id mapping for a delete, replace-by-id, append, the save body, error text, and draft edits (`TeamLogic`, `Lists`).
- So are the derived display values: page count, chip styles and the overflow badge (`TeamView`), and the stateless pager (`Pagination`).

Behaviours of the code that the model keeps:

- A refetch replaces only the page rows and the total. It leaves the selection and the select-all flag as they were.
- Ticking one row never changes the select-all flag.
- After a successful bulk delete the total becomes the total before the delete minus the number of selected rows. This value overwrites whatever the refetch reported, and the page goes back to 1.
- A handler that refetches sends the query it saw when it started: the page, search term and sort before its own updates.
- A selected index with no row on the page makes the id lookup throw before the delete request is sent. The model returns no request, and only the loading flag and the dialog change.
- The reply of an update is a whole member, so the spread merge makes the matching row equal to the reply.
- The select-all flag is never cleared by a delete. After selecting all and deleting, the header box stays ticked with an empty selection.

## Model

| member | source | states |
|---|---|---|
| Members.Ids | src/components/TeamSettings.tsx:131 | the ids of a page, one per row, in row order |
| Lists.Remove | src/components/TeamSettings.tsx:104 | the removed element no longer occurs, every other element's membership is kept, the list never grows, and removing an absent element changes nothing |
| Lists.Toggle | src/components/TeamSettings.tsx:103-105 | the element is present afterwards exactly when it was absent before, every other element's membership is kept; an absent element is appended at the end, and a present one is removed with the rest kept in order (as `Remove`) |
| Lists.Indices | src/components/TeamSettings.tsx:98 | the list 0, 1, .., n-1 in order: index k holds k, so the n entries are distinct and are exactly 0 .. n-1 |
| Lists.RemoveKeepsNoDups | src/components/TeamSettings.tsx:104 | removal keeps a duplicate-free selection duplicate-free |
| Lists.RemoveLength | src/components/TeamSettings.tsx:104 | removing an element present in a duplicate-free list shortens it by exactly one |
| Lists.RemoveAppend | src/components/TeamSettings.tsx:104 | removal distributes over concatenation |
| Lists.ToggleKeepsNoDups | src/components/TeamSettings.tsx:103-105 | toggling keeps the selection duplicate-free and changes its length by one, down when the element was present and up when it was absent |
| Lists.ToggleTwice | src/components/TeamSettings.tsx:103-105 | toggling the same element twice gives back the same set, and the identical list when the element was absent |
| UriEncoding.EncodedCharIsNotDelimiter | src/components/TeamSettings.tsx:193 | no character an encoded component may contain is '&', '#', '=' or '?' |
| UriEncoding.Utf8 | src/components/TeamSettings.tsx:193 | one to four byte values below 256, and a single byte exactly for code points below 0x80 |
| UriEncoding.Escape | src/components/TeamSettings.tsx:193 | three characters per byte, all of them '%' or unreserved |
| UriEncoding.EncodeChar | src/components/TeamSettings.tsx:193 | an unreserved character is kept as it is, and every output character is '%' or unreserved |
| UriEncoding.EncodeUriComponent | src/components/TeamSettings.tsx:193 | the output holds only '%' and unreserved characters, and a string of unreserved characters is returned unchanged |
| Pagination.Pages | src/Common/Pagination.tsx:10 | exactly the pages 1 .. totalPages in increasing order, and none when totalPages is 0 or below |
| Pagination.Buttons | src/Common/Pagination.tsx:25-31 | one button per page, each requesting its own page, highlighted exactly when it is the current page |
| Pagination.Previous | src/Common/Pagination.tsx:16-17 | Previous requests currentPage - 1 and is disabled exactly on page 1 |
| Pagination.Next | src/Common/Pagination.tsx:37-38 | Next requests currentPage + 1 and is disabled exactly when currentPage equals totalPages |
| Pagination.Click | src/Common/Pagination.tsx:14-17 | a disabled button requests nothing, and an enabled one requests its target |
| Pagination.PreviousStaysPositive | src/Common/Pagination.tsx:16-17 | from any page at or above 1, an enabled Previous never requests a page below 1 |
| Pagination.HighlightCountOfIncreasing | src/Common/Pagination.tsx:28 | among buttons with increasing pages, at most one is highlighted: one when some button shows the current page, none otherwise |
| Pagination.ExactlyOneHighlighted | src/Common/Pagination.tsx:28 | exactly one page button is highlighted when 1 <= currentPage <= totalPages, and none otherwise |
| Pagination.NextOverrunsEmptyList | src/Common/Pagination.tsx:38 | with zero pages, Next on page 1 is enabled and requests page 2, which is not a page |
| Pagination.NextCorrected | src/Common/Pagination.tsx:37-38 | Next disabled exactly when currentPage >= totalPages |
| Pagination.NextCorrectedStaysInRange | src/Common/Pagination.tsx:37-38 | from a page at or above 1, an enabled corrected Next requests an existing page, and it agrees with Next whenever the current page is in range |
| TeamView.TotalPages | src/components/TeamSettings.tsx:255 | the ceiling of total / 10: 10 pages hold the total and one page fewer does not |
| TeamView.TotalPagesOfEmpty | src/components/TeamSettings.tsx:255 | a non-negative total gives a non-negative page count, which is 0 exactly for an empty roster |
| TeamView.TeamStyle | src/components/TeamSettings.tsx:157-167 | the style is one of the four palette entries, and the first four chips take them in order |
| TeamView.TeamStyleCycles | src/components/TeamSettings.tsx:165 | the chip style repeats with period four |
| TeamView.TeamChips | src/components/TeamSettings.tsx:430-436 | the first min(4, n) teams in order, chip k styled by TeamStyle(k), so the styles are pairwise different |
| TeamView.OverflowBadge | src/components/TeamSettings.tsx:438-441 | the badge appears exactly when a row has more than four teams, with a positive count |
| TeamView.ChipsAndBadgeCoverTeams | src/components/TeamSettings.tsx:430-441 | chips plus the badge count equal the number of teams |
| TeamLogic.SortAfterClick | src/components/TeamSettings.tsx:84-91 | the clicked column becomes current; the same column flips the direction, a new column starts ascending |
| TeamLogic.SortSameColumnTwice | src/components/TeamSettings.tsx:84-91 | clicking the current column twice restores the sort state |
| TeamLogic.SelectAllAfterClick | src/components/TeamSettings.tsx:94-101 | with everything selected the selection empties; otherwise it becomes the list of row indices 0, 1, .., n-1 in row order, without duplicates |
| TeamLogic.SelectAllThenDeselectOne | src/components/TeamSettings.tsx:98-105 | after select-all, unticking one row leaves n - 1 rows selected, not including that row |
| TeamLogic.DeleteRequest | src/components/TeamSettings.tsx:131 | a request is made exactly when every selected index has a row, and it holds those rows' ids in selection order |
| TeamLogic.DeleteWholePage | src/components/TeamSettings.tsx:131 | after select-all, the delete request holds the ids of the whole page in row order |
| TeamLogic.TotalAfterDelete | src/components/TeamSettings.tsx:141-142 | the total never grows, and stays the same exactly when nothing was selected |
| TeamLogic.ReplaceById | src/components/TeamSettings.tsx:205-209 | same length; rows with the draft's id become the reply and all others are kept |
| TeamLogic.ReplaceByIdKeepsIds | src/components/TeamSettings.tsx:205-209 | an update of an id not on the page leaves the page unchanged, and a reply with the same id keeps the page's ids |
| TeamLogic.RowsAfterSave | src/components/TeamSettings.tsx:201-215 | edit mode keeps the length and replaces only matching rows; add mode appends the reply after the unchanged rows |
| TeamLogic.AvatarUrl | src/components/TeamSettings.tsx:193 | the default avatar starts with the fixed prefix, and its encoded part holds no '&' or '#' that would end the parameter |
| TeamLogic.Payload | src/components/TeamSettings.tsx:190-198 | the body never has an empty avatar; a given avatar is kept, an empty one becomes the default; every other field is copied from the draft |
| TeamLogic.SaveRequestFor | src/components/TeamSettings.tsx:201-215 | edit mode updates the draft's id and add mode creates, both with the draft's body |
| TeamLogic.ErrorText | src/components/TeamSettings.tsx:228-236 | a server message is shown when present, an exception's message as it is, and the generic text exactly for a response without a message or a non-error throw |
| TeamLogic.ApplyEdit | src/components/TeamSettings.tsx:499-559 | no draft stays no draft; otherwise exactly the edited field changes, and a team edit toggles that team |
| TeamLogic.TeamToggleChangesOnlyTeam | src/components/TeamSettings.tsx:74-82 | a team toggle flips membership of that team only and leaves every other draft field unchanged |
| TeamLogic.TeamToggleTwice | src/components/TeamSettings.tsx:74-82 | toggling a team twice gives back the same teams, and the very same draft when the team was not chosen |
| TeamSettings.Controller.Query | src/components/TeamSettings.tsx:66 | the list query sends the current page, 10 per page, the debounced search term and the sort state |
| TeamSettings.Controller.TotalPages | src/components/TeamSettings.tsx:255 | the page count handed to the pager holds the total, and one page fewer does not |
| TeamSettings.Controller.constructor | src/components/TeamSettings.tsx:21-46 | the initial cells: no rows or selection, page 1, total 0, empty search, sorted by name ascending, no draft, all overlays closed |
| TeamSettings.Controller.FetchData | src/components/TeamSettings.tsx:64-72 | sends the current query; a reply replaces the rows and total, a failure changes nothing, and the selection is never touched |
| TeamSettings.Controller.SetSearchTerm | src/components/TeamSettings.tsx:275 | typing sets the typed term only |
| TeamSettings.Controller.ClearSearch | src/components/TeamSettings.tsx:249-251 | the typed term becomes empty |
| TeamSettings.Controller.DebounceElapsed | src/components/TeamSettings.tsx:38 | the typed term becomes the query's search term; nothing else in the query changes |
| TeamSettings.Controller.HandleSort | src/components/TeamSettings.tsx:84-91 | the sort state becomes SortAfterClick of the old one |
| TeamSettings.Controller.HandleSelectMember | src/components/TeamSettings.tsx:93-107 | the header box applies select-all and negates the flag; a row box toggles the index and keeps the flag; the selection stays duplicate-free |
| TeamSettings.Controller.HandleEditClick | src/components/TeamSettings.tsx:109-119 | a fetched member becomes the draft in edit mode with the form open; a failed fetch changes nothing |
| TeamSettings.Controller.OpenAddMember | src/components/TeamSettings.tsx:293-306 | a blank draft with id 0, add mode, form open |
| TeamSettings.Controller.HandleTeamChange | src/components/TeamSettings.tsx:74-82 | the draft becomes the team-toggled draft, and no draft stays no draft |
| TeamSettings.Controller.HandleRoleChange | src/components/TeamSettings.tsx:170-173 | the draft's role becomes the chosen role, and no draft stays no draft |
| TeamSettings.Controller.HandleDraftInput | src/components/TeamSettings.tsx:499-559 | each form input changes its one draft field |
| TeamSettings.Controller.HandleDeleteSelected | src/components/TeamSettings.tsx:122-126 | from a non-empty selection (the button is disabled otherwise), the confirmation opens and the loading flag ends lowered |
| TeamSettings.Controller.DeleteRow | src/components/TeamSettings.tsx:451-454 | the selection becomes that one row and the confirmation opens |
| TeamSettings.Controller.CancelDelete | src/components/TeamSettings.tsx:611 | the confirmation closes and the selection stays |
| TeamSettings.Controller.ConfirmDelete | src/components/TeamSettings.tsx:128-154 | sends DeleteRequest of the selection; on success it clears the selection, sets the total to the old total minus the selection size, goes to page 1, shows the popup and applies the refetch; otherwise selection, rows, total and page are unchanged; a refetch happens exactly on success and sends the query from before the delete; loading and confirmation always end false; the selection stays duplicate-free |
| TeamSettings.Controller.ApplySaved | src/components/TeamSettings.tsx:205-227 | after a save the rows follow the refetch, or RowsAfterSave when it fails; the form closes, the draft and edit mode reset, the message names update or add, and the refetch sends the query from before the save |
| TeamSettings.Controller.HandleUserConfirm | src/components/TeamSettings.tsx:182-240 | the error text is cleared first; with no draft nothing else changes and nothing is sent; otherwise SaveRequestFor of the draft is sent and the loading flag ends false; success continues as ApplySaved and refetches with the query from before the save; failure shows ErrorText, refetches nothing and keeps draft, form and rows |
| TeamSettings.Controller.HandleCancel | src/components/TeamSettings.tsx:242-247 | clears the error, closes the form, drops the draft and leaves edit mode |
| TeamSettings.Controller.ChangePage | src/components/TeamSettings.tsx:476 | the requested page becomes current |
| TeamSettings.Controller.CloseSuccessPopup | src/components/TeamSettings.tsx:595 | the success popup closes |

## Left out

- The HTTP wrappers in `src/services/api.ts` and the URLs in `src/services/endpoints.ts`. Each call is a parameter carrying its outcome; how requests are built and sent is not modelled.
- The debounce hook, whose source is not part of this model, and its 800 ms window. The window closing is modelled as the `DebounceElapsed` event.
- The two-second `setTimeout` that hides the success popup. Its firing is the `CloseSuccessPopup` event, the same transition as the Close button.
- The effect that refetches whenever page, search or sort change. A refetch happens only where a handler awaits it; an effect-driven refetch is a `FetchData` call.
- Races between overlapping fetches and handler interleavings: each handler runs to completion.
- The intermediate states inside a handler. For example, the loading flag is raised during a delete or save, but the model observes only the state after the handler finishes.
- The `axios.isAxiosError` classification. A failed save is a three-way `SaveError`: a response with an optional server text, an `Error` with its message, or any other thrown value.
- UriEncoding.EncodeUriComponent: lone surrogate code units, on which `encodeURIComponent` throws, cannot occur because a Dafny `char` is a Unicode scalar value.
- The state cells `showDeleteSuccess`, `showEditModal` and `editingUser`, which no handler reads or sets beyond their initial value.
- The fixed team and role option lists of the edit form. They only choose which buttons and options are rendered; the draft handlers accept any team or role text.
- Console logging, all layout and styling, `src/Common/SortIcon.tsx`, `src/Common/ValidationMessage.tsx` and `src/App.tsx`: presentation only.
- The bound `itemsPerPage` cell is the constant `TeamView.ItemsPerPage`, since it is never set.
- Numbers are unbounded integers. The page arithmetic and the delete total stay far below the range where JavaScript doubles lose precision.

## Findings

| source | as written | input that shows it | evidently intended | confidence | as-written member | corrected member |
|---|---|---|---|---|---|---|
| src/Common/Pagination.tsx:38 | Next is disabled only when `currentPage === totalPages` | an empty roster: `totalPages` 0 and `currentPage` 1; Next stays enabled and requests page 2, which does not exist | Next disabled on the last page and on any page beyond it (`currentPage >= totalPages`) | high; not executed | Pagination.NextOverrunsEmptyList | Pagination.NextCorrectedStaysInRange |
