/** The list transforms and decisions inside the team-settings handlers,
    as pure functions: the sort toggle, select-all, the ids a bulk delete
    sends, the row update after a save, the body sent on save, the draft
    edits and the text shown for a failed save. */
module TeamLogic {
  import opened Wrappers
  import opened Members
  import opened Lists
  import opened UriEncoding

  datatype Order = Asc | Desc

  /** The column the list is sorted by and its direction. */
  datatype SortState = SortState(column: Column, order: Order)

  /** `handleSort(column)`: the clicked column becomes the sort column; the
      same column again flips the direction, a new column starts ascending. */
  function SortAfterClick(current: SortState, clicked: Column): (next: SortState)
    ensures next.column == clicked
    ensures clicked == current.column ==> next.order != current.order
    ensures clicked != current.column ==> next.order == Asc
  {
    if clicked == current.column then
      SortState(clicked, if current.order == Asc then Desc else Asc)
    else
      SortState(clicked, Asc)
  }

  /** Clicking the same column twice restores the sort state. */
  lemma SortSameColumnTwice(current: SortState)
    ensures SortAfterClick(SortAfterClick(current, current.column), current.column) == current
  {
  }

  /** `handleSelectMember('all')`: clears the selection when everything is
      selected, otherwise selects every row index of the current page. */
  function SelectAllAfterClick(allSelected: bool, rowCount: nat): (selection: seq<int>)
    ensures allSelected ==> selection == []
    ensures !allSelected ==> |selection| == rowCount && NoDups(selection)
    ensures !allSelected ==> forall k :: 0 <= k < rowCount ==> selection[k] == k
    ensures !allSelected ==> forall i :: i in selection <==> 0 <= i < rowCount
  {
    if allSelected then [] else Indices(rowCount)
  }

  /** Selecting all rows and then unticking one of them leaves all but one selected. */
  lemma SelectAllThenDeselectOne(rowCount: nat, index: int)
    requires 0 <= index < rowCount
    ensures |Toggle(SelectAllAfterClick(false, rowCount), index)| == rowCount - 1
    ensures index !in Toggle(SelectAllAfterClick(false, rowCount), index)
  {
    ToggleKeepsNoDups(SelectAllAfterClick(false, rowCount), index);
  }

  /** `selectedMembers.map(index => teamMembers[index].id)`: the ids of the
      selected rows in selection order, or nothing when a selected index has
      no row on the page (reading `.id` of a missing row throws before any
      request is made). */
  function DeleteRequest(selection: seq<int>, rows: seq<Member>): (ids: Option<seq<int>>)
    ensures ids.Some? <==> forall k :: 0 <= k < |selection| ==> 0 <= selection[k] < |rows|
    ensures ids.Some? ==> (|ids.value| == |selection| &&
      forall k :: 0 <= k < |selection| ==> 0 <= selection[k] < |rows| && ids.value[k] == rows[selection[k]].id)
  {
    if selection == [] then Some([])
    else if !(0 <= selection[0] < |rows|) then None
    else match DeleteRequest(selection[1..], rows)
      case None => None
      case Some(rest) => Some([rows[selection[0]].id] + rest)
  }

  /** After select-all, the delete request carries the ids of the whole page in row order. */
  lemma DeleteWholePage(rows: seq<Member>)
    ensures DeleteRequest(SelectAllAfterClick(false, |rows|), rows) == Some(Ids(rows))
  {
    var selection := SelectAllAfterClick(false, |rows|);
    assert forall k :: 0 <= k < |rows| ==> selection[k] == k by {
      forall k | 0 <= k < |rows| ensures selection[k] == k {
        assert selection == Indices(|rows|);
      }
    }
    var ids := DeleteRequest(selection, rows);
    assert ids.value == Ids(rows);
  }

  /** The total kept after a successful bulk delete: the total before the
      delete minus the number of selected rows, whatever the refetch returned. */
  function TotalAfterDelete(totalBefore: int, selection: seq<int>): (total: int)
    ensures total <= totalBefore
    ensures total == totalBefore <==> selection == []
  {
    totalBefore - |selection|
  }

  /** `rows.map(m => m.id === id ? {...m, ...updated} : m)`; the server's reply
      is a whole member, so a matching row becomes that reply. */
  function ReplaceById(rows: seq<Member>, id: int, updated: Member): (r: seq<Member>)
    ensures |r| == |rows|
    ensures forall k :: 0 <= k < |rows| && rows[k].id != id ==> r[k] == rows[k]
    ensures forall k :: 0 <= k < |rows| && rows[k].id == id ==> r[k] == updated
  {
    seq(|rows|, k requires 0 <= k < |rows| => if rows[k].id == id then updated else rows[k])
  }

  /** Updating a member absent from the page leaves the page as it is, and a
      reply carrying the same id keeps the page's ids as they were. */
  lemma ReplaceByIdKeepsIds(rows: seq<Member>, id: int, updated: Member)
    ensures id !in Ids(rows) ==> ReplaceById(rows, id, updated) == rows
    ensures updated.id == id ==> Ids(ReplaceById(rows, id, updated)) == Ids(rows)
  {
    var r := ReplaceById(rows, id, updated);
    if id !in Ids(rows) {
      forall k | 0 <= k < |rows| ensures r[k] == rows[k] {
        assert Ids(rows)[k] == rows[k].id;
      }
    }
  }

  /** The page after a successful save: in edit mode the rows carrying the
      draft's id become the reply and the length is kept; in add mode the
      reply is appended at the end. */
  function RowsAfterSave(rows: seq<Member>, draftId: int, editMode: bool, reply: Member): (r: seq<Member>)
    ensures editMode ==> |r| == |rows| && forall k :: 0 <= k < |rows| ==>
      r[k] == if rows[k].id == draftId then reply else rows[k]
    ensures !editMode ==> |r| == |rows| + 1 && r[..|rows|] == rows && r[|rows|] == reply
  {
    if editMode then ReplaceById(rows, draftId, reply) else rows + [reply]
  }

  /** The fixed part of the default avatar URL. */
  const AvatarPrefix: string := "https://i.pravatar.cc/150?u="

  /** The default avatar: the prefix followed by the encoded username, which
      cannot end the `u` query parameter early. */
  function AvatarUrl(username: string): (url: string)
    ensures |url| >= |AvatarPrefix|
    ensures url[..|AvatarPrefix|] == AvatarPrefix
    ensures forall c :: c in url[|AvatarPrefix|..] ==> c != '&' && c != '#' && EncodedChar(c)
  {
    var encoded := EncodeUriComponent(username);
    var url := AvatarPrefix + encoded;
    assert url[|AvatarPrefix|..] == encoded;
    assert forall c :: c in encoded ==> c != '&' && c != '#' by {
      forall c | c in encoded ensures c != '&' && c != '#' {
        EncodedCharIsNotDelimiter(c);
      }
    }
    url
  }

  /** `userToSave`: the draft without its id; an empty avatar is replaced by
      the default avatar of the username, so the body never has an empty avatar. */
  function Payload(draft: Member): (body: MemberInput)
    ensures body.avatar != ""
    ensures draft.avatar != "" ==> body.avatar == draft.avatar
    ensures draft.avatar == "" ==> body.avatar == AvatarUrl(draft.username)
    ensures body.(avatar := draft.avatar) ==
      MemberInput(draft.name, draft.username, draft.avatar, draft.isActive, draft.role, draft.email, draft.teams)
  {
    MemberInput(
      draft.name,
      draft.username,
      if draft.avatar != "" then draft.avatar else AvatarUrl(draft.username),
      draft.isActive,
      draft.role,
      draft.email,
      draft.teams)
  }

  /** The request a confirmed form sends. */
  datatype SaveRequest = UpdateRequest(id: int, body: MemberInput) | AddRequest(body: MemberInput)

  /** Edit mode updates the member carrying the draft's id; add mode creates one. */
  function SaveRequestFor(draft: Member, editMode: bool): (request: SaveRequest)
    ensures request.body == Payload(draft)
    ensures request.UpdateRequest? <==> editMode
    ensures request.UpdateRequest? ==> request.id == draft.id
  {
    if editMode then UpdateRequest(draft.id, Payload(draft)) else AddRequest(Payload(draft))
  }

  /** How a failed save was thrown: an HTTP error with a response whose body
      may carry an `error` text (empty when absent), any other `Error` with its
      message, or a thrown value that is not an `Error`. */
  datatype SaveError = ResponseError(serverMessage: string) | ThrownError(message: string) | NonError

  const UnexpectedError: string := "An unexpected error occurred."

  /** The text shown under the form after a failed save. */
  function ErrorText(error: SaveError): (text: string)
    ensures error.ResponseError? ==> text != ""
    ensures error.ResponseError? && error.serverMessage != "" ==> text == error.serverMessage
    ensures error.ThrownError? ==> text == error.message
    ensures text == UnexpectedError <==
      (error.NonError? || (error.ResponseError? && error.serverMessage == ""))
  {
    match error
    case ResponseError(m) => if m != "" then m else UnexpectedError
    case ThrownError(m) => m
    case NonError => UnexpectedError
  }

  /** One change the edit form makes to the draft member. */
  datatype DraftEdit =
    | EditName(name: string)
    | EditUsername(username: string)
    | EditRole(role: string)
    | EditEmail(email: string)
    | EditActive(active: bool)
    | ToggleTeam(team: string)

  /** `setCurrentUser(prev => prev ? {...prev, field: value} : null)`: no draft
      stays no draft; otherwise the one field the edit names changes. */
  function ApplyEdit(draft: Option<Member>, edit: DraftEdit): (r: Option<Member>)
    ensures r.Some? <==> draft.Some?
    ensures r.Some? ==> r.value.id == draft.value.id && r.value.avatar == draft.value.avatar
    ensures r.Some? && edit.EditName? ==> r.value == draft.value.(name := edit.name)
    ensures r.Some? && edit.EditUsername? ==> r.value == draft.value.(username := edit.username)
    ensures r.Some? && edit.EditRole? ==> r.value == draft.value.(role := edit.role)
    ensures r.Some? && edit.EditEmail? ==> r.value == draft.value.(email := edit.email)
    ensures r.Some? && edit.EditActive? ==> r.value == draft.value.(isActive := edit.active)
    ensures r.Some? && edit.ToggleTeam? ==> r.value.teams == Toggle(draft.value.teams, edit.team)
  {
    match draft
    case None => None
    case Some(d) =>
      Some(match edit
        case EditName(v) => d.(name := v)
        case EditUsername(v) => d.(username := v)
        case EditRole(v) => d.(role := v)
        case EditEmail(v) => d.(email := v)
        case EditActive(v) => d.(isActive := v)
        case ToggleTeam(t) => d.(teams := Toggle(d.teams, t)))
  }

  /** `handleTeamChange(team)` flips the membership of exactly that team, keeps
      every other team's membership and every other field of the draft. */
  lemma TeamToggleChangesOnlyTeam(draft: Member, team: string)
    ensures ApplyEdit(Some(draft), ToggleTeam(team)).value.(teams := draft.teams) == draft
    ensures team in ApplyEdit(Some(draft), ToggleTeam(team)).value.teams <==> team !in draft.teams
    ensures forall t :: t != team ==>
      (t in ApplyEdit(Some(draft), ToggleTeam(team)).value.teams <==> t in draft.teams)
  {
  }

  /** Toggling a team twice gives back the same teams; when the team was not
      chosen it gives back the very same draft. */
  lemma TeamToggleTwice(draft: Member, team: string)
    ensures var twice := ApplyEdit(ApplyEdit(Some(draft), ToggleTeam(team)), ToggleTeam(team)).value;
      forall t :: t in twice.teams <==> t in draft.teams
    ensures team !in draft.teams ==>
      ApplyEdit(ApplyEdit(Some(draft), ToggleTeam(team)), ToggleTeam(team)) == Some(draft)
  {
    ToggleTwice(draft.teams, team);
  }
}
