/** The values the roster table derives for display: the number of pages
    handed to the pager and the team chips of a row. */
module TeamView {
  import opened Wrappers

  /** Rows per page; the cell is initialised to 10 and never set again. */
  const ItemsPerPage: int := 10

  /** `Math.ceil(totalMembers / itemsPerPage)`: the least page count whose
      pages can hold every member (also for a negative total, where
      `Math.ceil` rounds toward zero). */
  function TotalPages(totalMembers: int): (pages: int)
    ensures ItemsPerPage * pages >= totalMembers
    ensures ItemsPerPage * (pages - 1) < totalMembers
  {
    (totalMembers + ItemsPerPage - 1) / ItemsPerPage
  }

  /** A non-negative total gives a non-negative page count, and an empty
      roster gives no pages. */
  lemma TotalPagesOfEmpty(totalMembers: int)
    requires totalMembers >= 0
    ensures TotalPages(totalMembers) >= 0
    ensures TotalPages(totalMembers) == 0 <==> totalMembers == 0
  {
  }

  /** The colour classes chips cycle through. */
  const Palette: seq<string> := [
    "bg-purple-100 text-purple-700",
    "bg-indigo-100 text-indigo-700",
    "bg-green-100 text-green-700",
    "bg-blue-100 text-blue-700"]

  /** `getTeamStyle(teamIndex)`: the palette entry at `teamIndex mod 4`, so the
      style repeats every four chips. */
  function TeamStyle(teamIndex: nat): (style: string)
    ensures style in Palette
    ensures teamIndex < |Palette| ==> style == Palette[teamIndex]
  {
    Palette[teamIndex % |Palette|]
  }

  /** Chip styles repeat with period four. */
  lemma TeamStyleCycles(teamIndex: nat)
    ensures TeamStyle(teamIndex + |Palette|) == TeamStyle(teamIndex)
  {
  }

  /** How many chips a row shows. */
  const MaxChips: nat := 4

  /** One rendered chip. */
  datatype Chip = Chip(team: string, style: string)

  /** `teams.slice(0, 4).map((team, i) => chip)`: the first four teams at most,
      in order, each styled by its position. */
  function TeamChips(teams: seq<string>): (chips: seq<Chip>)
    ensures |chips| == if |teams| < MaxChips then |teams| else MaxChips
    ensures forall k :: 0 <= k < |chips| ==> chips[k].team == teams[k] && chips[k].style == TeamStyle(k)
    ensures forall i, j :: 0 <= i < j < |chips| ==> chips[i].style != chips[j].style
  {
    var n := if |teams| < MaxChips then |teams| else MaxChips;
    seq(n, k requires 0 <= k < n => Chip(teams[k], TeamStyle(k)))
  }

  /** The "+k" badge: present exactly when a row has more than four teams,
      counting the teams without a chip. */
  function OverflowBadge(teams: seq<string>): (badge: Option<int>)
    ensures badge.Some? <==> |teams| > MaxChips
    ensures badge.Some? ==> badge.value > 0
  {
    if |teams| > MaxChips then Some(|teams| - MaxChips) else None
  }

  /** Chips and badge together account for every team of the row. */
  lemma ChipsAndBadgeCoverTeams(teams: seq<string>)
    ensures |TeamChips(teams)| + OverflowBadge(teams).GetOr(0) == |teams|
  {
  }
}
