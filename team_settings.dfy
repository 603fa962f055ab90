/** The team-settings screen's state and its event handlers. Each field is
    one state cell of the component; each method is one handler, run to
    completion, with the outcome of every server call it awaits passed in as
    a parameter. A handler's `modifies` clause names exactly the cells whose
    setters it calls. */
module TeamSettings {
  import opened Wrappers
  import opened Members
  import opened Lists
  import opened TeamLogic
  import TeamView

  /** The query every list fetch sends. */
  datatype ListQuery = ListQuery(page: int, limit: int, search: string, sortColumn: Column, sortOrder: Order)

  /** The outcome of a list fetch: one page of members and the server's total, or a failure. */
  datatype Fetch = Fetched(items: seq<Member>, total: int) | FetchFailed

  /** The outcome of a create or update call. */
  datatype SaveResult = Saved(member: Member) | SaveFailed(error: SaveError)

  /** What the row checkboxes report: the header box or the box of one row. */
  datatype SelectTarget = All | Row(index: int)

  const DeletedMessage: string := "Users successfully deleted!"
  const UpdatedMessage: string := "User updated successfully!"
  const AddedMessage: string := "User added successfully!"

  class Controller {
    var teamMembers: seq<Member>
    var selectedMembers: seq<int>
    var showDeleteConfirm: bool
    var showSuccessPopup: bool
    var successMessage: string
    var allSelected: bool
    var isLoading: bool
    var currentPage: int
    var totalMembers: int
    var searchTerm: string
    var debouncedSearchTerm: string
    var sortColumn: Column
    var sortOrder: Order
    var showUserModal: bool
    var isEditMode: bool
    var currentUser: Option<Member>
    var errorMessage: Option<string>

    /** Every handler keeps the selection free of repeated indices. */
    predicate SelectionValid()
      reads this
    {
      NoDups(selectedMembers)
    }

    /** The query the next fetch sends: the debounced search term, not the typed one. */
    function Query(): (q: ListQuery)
      reads this
      ensures q.page == currentPage && q.limit == TeamView.ItemsPerPage
      ensures q.search == debouncedSearchTerm
      ensures q.sortColumn == sortColumn && q.sortOrder == sortOrder
    {
      ListQuery(currentPage, TeamView.ItemsPerPage, debouncedSearchTerm, sortColumn, sortOrder)
    }

    /** The page count handed to the pager. */
    function TotalPages(): (pages: int)
      reads this
      ensures TeamView.ItemsPerPage * pages >= totalMembers
      ensures TeamView.ItemsPerPage * (pages - 1) < totalMembers
    {
      TeamView.TotalPages(totalMembers)
    }

    /** A freshly mounted screen: no rows, page 1, sorted by name ascending,
        nothing selected, no draft and every overlay closed. */
    constructor ()
      ensures teamMembers == [] && selectedMembers == [] && !allSelected && SelectionValid()
      ensures currentPage == 1 && totalMembers == 0
      ensures searchTerm == "" && debouncedSearchTerm == ""
      ensures sortColumn == Name && sortOrder == Asc
      ensures !showDeleteConfirm && !showSuccessPopup && successMessage == "" && !isLoading
      ensures !showUserModal && !isEditMode && currentUser.None? && errorMessage.None?
    {
      teamMembers, selectedMembers := [], [];
      showDeleteConfirm, showSuccessPopup, successMessage := false, false, "";
      allSelected, isLoading := false, false;
      currentPage, totalMembers := 1, 0;
      searchTerm, debouncedSearchTerm := "", "";
      sortColumn, sortOrder := Name, Asc;
      showUserModal, isEditMode, currentUser, errorMessage := false, false, None, None;
    }

    /** `fetchData`: sends the current query; a reply replaces the rows and the
        total, a failure is only logged. The selection and the select-all flag
        are left as they were, even when the rows change. */
    method FetchData(outcome: Fetch) returns (query: ListQuery)
      modifies this`teamMembers, this`totalMembers
      ensures query == old(Query())
      ensures outcome.Fetched? ==> teamMembers == outcome.items && totalMembers == outcome.total
      ensures outcome.FetchFailed? ==> teamMembers == old(teamMembers) && totalMembers == old(totalMembers)
      ensures selectedMembers == old(selectedMembers) && allSelected == old(allSelected)
    {
      query := Query();
      if outcome.Fetched? {
        teamMembers := outcome.items;
        totalMembers := outcome.total;
      }
    }

    /** The search box: typing changes the typed term only. */
    method SetSearchTerm(term: string)
      modifies this`searchTerm
      ensures searchTerm == term
    {
      searchTerm := term;
    }

    /** `clearSearch`. */
    method ClearSearch()
      modifies this`searchTerm
      ensures searchTerm == ""
    {
      searchTerm := "";
    }

    /** The debounce window closing without a further keystroke: the typed
        term becomes the term the query sends. */
    method DebounceElapsed()
      modifies this`debouncedSearchTerm
      ensures debouncedSearchTerm == searchTerm
      ensures Query() == old(Query()).(search := searchTerm)
    {
      debouncedSearchTerm := searchTerm;
    }

    /** `handleSort(column)`. */
    method HandleSort(column: Column)
      modifies this`sortColumn, this`sortOrder
      ensures SortState(sortColumn, sortOrder) == SortAfterClick(old(SortState(sortColumn, sortOrder)), column)
      ensures sortColumn == column
      ensures column == old(sortColumn) ==> sortOrder != old(sortOrder)
      ensures column != old(sortColumn) ==> sortOrder == Asc
    {
      if column == sortColumn {
        sortOrder := if sortOrder == Asc then Desc else Asc;
      } else {
        sortColumn := column;
        sortOrder := Asc;
      }
    }

    /** `handleSelectMember`: the header box selects the whole page or nothing
        and flips the select-all flag; a row box toggles that index and leaves
        the select-all flag alone. */
    method HandleSelectMember(target: SelectTarget)
      modifies this`selectedMembers, this`allSelected
      ensures target.All? ==> selectedMembers == SelectAllAfterClick(old(allSelected), |teamMembers|)
      ensures target.All? ==> allSelected == !old(allSelected)
      ensures target.Row? ==> selectedMembers == Toggle(old(selectedMembers), target.index)
      ensures target.Row? ==> allSelected == old(allSelected)
      ensures old(SelectionValid()) ==> SelectionValid()
    {
      match target
      case All =>
        selectedMembers := SelectAllAfterClick(allSelected, |teamMembers|);
        allSelected := !allSelected;
      case Row(index) =>
        if NoDups(selectedMembers) {
          ToggleKeepsNoDups(selectedMembers, index);
        }
        selectedMembers := Toggle(selectedMembers, index);
    }

    /** `handleEditClick`: a fetched member becomes the draft and opens the
        form in edit mode; a failed fetch is only logged. */
    method HandleEditClick(fetched: Option<Member>)
      modifies this`currentUser, this`isEditMode, this`showUserModal
      ensures fetched.Some? ==> currentUser == fetched && isEditMode && showUserModal
      ensures fetched.None? ==> unchanged(this`currentUser, this`isEditMode, this`showUserModal)
    {
      if fetched.Some? {
        currentUser := fetched;
        isEditMode := true;
        showUserModal := true;
      }
    }

    /** "Add Member": a blank draft in add mode, form open. */
    method OpenAddMember()
      modifies this`currentUser, this`isEditMode, this`showUserModal
      ensures currentUser == Some(BlankMember) && !isEditMode && showUserModal
    {
      isEditMode := false;
      currentUser := Some(BlankMember);
      showUserModal := true;
    }

    /** `handleTeamChange(team)`. */
    method HandleTeamChange(team: string)
      modifies this`currentUser
      ensures currentUser == ApplyEdit(old(currentUser), ToggleTeam(team))
    {
      currentUser := ApplyEdit(currentUser, ToggleTeam(team));
    }

    /** `handleRoleChange`. */
    method HandleRoleChange(role: string)
      modifies this`currentUser
      ensures currentUser == ApplyEdit(old(currentUser), EditRole(role))
    {
      currentUser := ApplyEdit(currentUser, EditRole(role));
    }

    /** The name, username, email and active inputs of the form. */
    method HandleDraftInput(edit: DraftEdit)
      modifies this`currentUser
      ensures currentUser == ApplyEdit(old(currentUser), edit)
    {
      currentUser := ApplyEdit(currentUser, edit);
    }

    /** `handleDeleteSelected`: opens the confirmation; the loading flag it
        raises is lowered again in the same handler. Its button is disabled
        while nothing is selected. */
    method HandleDeleteSelected()
      requires selectedMembers != []
      modifies this`isLoading, this`showDeleteConfirm
      ensures showDeleteConfirm && !isLoading
    {
      isLoading := true;
      showDeleteConfirm := true;
      isLoading := false;
    }

    /** The trash button of one row: selects only that row and opens the
        confirmation. */
    method DeleteRow(index: int)
      modifies this`selectedMembers, this`showDeleteConfirm
      ensures selectedMembers == [index] && showDeleteConfirm && SelectionValid()
    {
      selectedMembers := [index];
      showDeleteConfirm := true;
    }

    /** Cancel in the delete confirmation; the selection stays. */
    method CancelDelete()
      modifies this`showDeleteConfirm
      ensures !showDeleteConfirm
    {
      showDeleteConfirm := false;
    }

    /** `confirmDelete`: sends the ids of the selected rows. After a successful
        delete the selection is cleared, the success popup shows, the refetch
        (with the query of before the delete) is applied, and then the total is
        overwritten with the old total minus the selection size and the page
        goes back to 1. When an index has no row nothing is sent; then, as after
        a failed delete, only the loading flag and the confirmation change.
        Either way both end lowered. */
    method ConfirmDelete(deleted: bool, refetch: Fetch) returns (sent: Option<seq<int>>, refetched: Option<ListQuery>)
      modifies this`isLoading, this`selectedMembers, this`successMessage, this`showSuccessPopup,
        this`teamMembers, this`totalMembers, this`currentPage, this`showDeleteConfirm
      ensures sent == DeleteRequest(old(selectedMembers), old(teamMembers))
      ensures refetched.Some? <==> sent.Some? && deleted
      ensures refetched.Some? ==> refetched.value == old(Query())
      ensures sent.Some? && deleted ==> selectedMembers == [] && currentPage == 1
      ensures sent.Some? && deleted ==> totalMembers == TotalAfterDelete(old(totalMembers), old(selectedMembers))
      ensures sent.Some? && deleted ==> successMessage == DeletedMessage && showSuccessPopup
      ensures sent.Some? && deleted ==> teamMembers == if refetch.Fetched? then refetch.items else old(teamMembers)
      ensures !(sent.Some? && deleted) ==> unchanged(this`selectedMembers, this`successMessage,
        this`showSuccessPopup, this`teamMembers, this`totalMembers, this`currentPage)
      ensures !isLoading && !showDeleteConfirm
      ensures old(SelectionValid()) ==> SelectionValid()
    {
      isLoading := true;
      sent := DeleteRequest(selectedMembers, teamMembers);
      refetched := None;
      if sent.Some? && deleted {
        var selection, total := selectedMembers, totalMembers;
        selectedMembers := [];
        successMessage := DeletedMessage;
        showSuccessPopup := true;
        var query := FetchData(refetch);
        refetched := Some(query);
        totalMembers := TotalAfterDelete(total, selection);
        currentPage := 1;
      }
      isLoading := false;
      showDeleteConfirm := false;
    }

    /** The success branch of `handleUserConfirm`: the page rows take the
        reply, the success popup shows, the form closes, the draft and edit
        mode are reset, and then the refetch is applied. */
    method ApplySaved(draftId: int, reply: Member, refetch: Fetch) returns (query: ListQuery)
      modifies this`teamMembers, this`totalMembers, this`showUserModal, this`successMessage,
        this`showSuccessPopup, this`currentUser, this`isEditMode
      ensures teamMembers == (if refetch.Fetched? then refetch.items
        else RowsAfterSave(old(teamMembers), draftId, old(isEditMode), reply))
      ensures totalMembers == if refetch.Fetched? then refetch.total else old(totalMembers)
      ensures !showUserModal && currentUser.None? && !isEditMode
      ensures showSuccessPopup && successMessage == if old(isEditMode) then UpdatedMessage else AddedMessage
      ensures query == old(Query())
    {
      teamMembers := RowsAfterSave(teamMembers, draftId, isEditMode, reply);
      showUserModal := false;
      successMessage := if isEditMode then UpdatedMessage else AddedMessage;
      showSuccessPopup := true;
      currentUser := None;
      isEditMode := false;
      query := FetchData(refetch);
    }

    /** `handleUserConfirm`: with no draft it only clears the error text.
        Otherwise it sends the draft (update in edit mode, create in add mode).
        On success it continues as `ApplySaved`; on failure the error text is
        shown and the draft and form stay as they are. */
    method HandleUserConfirm(result: SaveResult, refetch: Fetch) returns (request: Option<SaveRequest>, refetched: Option<ListQuery>)
      modifies this`errorMessage, this`isLoading, this`teamMembers, this`totalMembers, this`showUserModal,
        this`successMessage, this`showSuccessPopup, this`currentUser, this`isEditMode
      ensures errorMessage == if old(currentUser).Some? && result.SaveFailed? then Some(ErrorText(result.error)) else None
      ensures old(currentUser).None? ==> request.None?
      ensures refetched.Some? <==> old(currentUser).Some? && result.Saved?
      ensures refetched.Some? ==> refetched.value == old(Query())
      ensures old(currentUser).None? ==> unchanged(this`isLoading, this`teamMembers, this`totalMembers,
        this`showUserModal, this`successMessage, this`showSuccessPopup, this`currentUser, this`isEditMode)
      ensures old(currentUser).Some? ==> request == Some(SaveRequestFor(old(currentUser).value, old(isEditMode)))
      ensures old(currentUser).Some? ==> !isLoading
      ensures old(currentUser).Some? && result.Saved? ==> (teamMembers ==
        if refetch.Fetched? then refetch.items
        else RowsAfterSave(old(teamMembers), old(currentUser).value.id, old(isEditMode), result.member))
      ensures old(currentUser).Some? && result.Saved? ==>
        totalMembers == if refetch.Fetched? then refetch.total else old(totalMembers)
      ensures old(currentUser).Some? && result.Saved? ==> !showUserModal && currentUser.None? && !isEditMode
      ensures old(currentUser).Some? && result.Saved? ==> (showSuccessPopup &&
        successMessage == if old(isEditMode) then UpdatedMessage else AddedMessage)
      ensures old(currentUser).Some? && result.SaveFailed? ==> unchanged(this`teamMembers, this`totalMembers,
        this`showUserModal, this`successMessage, this`showSuccessPopup, this`currentUser, this`isEditMode)
    {
      errorMessage := None;
      if currentUser.None? {
        return None, None;
      }
      isLoading := true;
      request := Some(SaveRequestFor(currentUser.value, isEditMode));
      if result.Saved? {
        var query := ApplySaved(currentUser.value.id, result.member, refetch);
        refetched := Some(query);
      } else {
        refetched := None;
        errorMessage := Some(ErrorText(result.error));
      }
      isLoading := false;
    }

    /** `handleCancel`: clears the error, closes the form, drops the draft and leaves edit mode. */
    method HandleCancel()
      modifies this`errorMessage, this`showUserModal, this`currentUser, this`isEditMode
      ensures errorMessage.None? && !showUserModal && currentUser.None? && !isEditMode
    {
      errorMessage := None;
      showUserModal := false;
      currentUser := None;
      isEditMode := false;
    }

    /** The pager's `onPageChange`: the requested page becomes current. */
    method ChangePage(page: int)
      modifies this`currentPage
      ensures currentPage == page
    {
      currentPage := page;
    }

    /** The success popup's Close button, or its two-second timer firing. */
    method CloseSuccessPopup()
      modifies this`showSuccessPopup
      ensures !showSuccessPopup
    {
      showSuccessPopup := false;
    }
  }
}
