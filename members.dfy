/** The roster record of the team-settings screen, the sortable columns and
    the fixed option lists offered by the edit form. */
module Members {

  /** One roster entry as the server returns it. */
  datatype Member = Member(
    id: int,
    name: string,
    username: string,
    avatar: string,
    isActive: bool,
    role: string,
    email: string,
    teams: seq<string>)

  /** The body sent to the create and update endpoints: a member without its id. */
  datatype MemberInput = MemberInput(
    name: string,
    username: string,
    avatar: string,
    isActive: bool,
    role: string,
    email: string,
    teams: seq<string>)

  /** A key of the member record, usable as the sort column. */
  datatype Column = Id | Name | Username | Avatar | IsActive | Role | Email | Teams

  /** The draft the "Add Member" button opens. */
  const BlankMember: Member := Member(0, "", "", "", false, "", "", [])

  /** The ids of a page of rows, in row order. */
  function Ids(rows: seq<Member>): (ids: seq<int>)
    ensures |ids| == |rows|
    ensures forall k :: 0 <= k < |rows| ==> ids[k] == rows[k].id
  {
    seq(|rows|, k requires 0 <= k < |rows| => rows[k].id)
  }
}
