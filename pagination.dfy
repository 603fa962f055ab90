/** The pager under the roster table: numbered page buttons, Previous and
    Next. It holds no state; every value is computed from `currentPage`
    and `totalPages`, and every click asks the parent for one page. */
module Pagination {
  import opened Wrappers

  /** One numbered page button. */
  datatype PageButton = PageButton(page: int, highlighted: bool, target: int)

  /** The Previous or Next button: the page it requests and whether it is disabled. */
  datatype NavButton = NavButton(target: int, disabled: bool)

  /** `Array.from({ length: totalPages }, (_, i) => i + 1)`; a length of zero
      or below yields no pages. */
  function Pages(totalPages: int): (pages: seq<int>)
    ensures |pages| == if totalPages > 0 then totalPages else 0
    ensures forall p :: p in pages <==> 1 <= p <= totalPages
    ensures forall i, j :: 0 <= i < j < |pages| ==> pages[i] < pages[j]
  {
    var n := if totalPages > 0 then totalPages else 0;
    var pages := seq(n, i => i + 1);
    assert forall k | 0 <= k < n :: pages[k] == k + 1;
    assert forall p | 1 <= p <= totalPages :: p in pages by {
      forall p | 1 <= p <= totalPages ensures p in pages { assert pages[p - 1] == p; }
    }
    pages
  }

  /** The numbered buttons: one per page, labelled with the page it requests,
      highlighted when it is the current page. */
  function Buttons(currentPage: int, totalPages: int): (buttons: seq<PageButton>)
    ensures |buttons| == |Pages(totalPages)|
    ensures forall k :: 0 <= k < |buttons| ==>
      buttons[k].page == Pages(totalPages)[k] && buttons[k].target == buttons[k].page
    ensures forall k :: 0 <= k < |buttons| ==> (buttons[k].highlighted <==> buttons[k].page == currentPage)
  {
    var pages := Pages(totalPages);
    seq(|pages|, k requires 0 <= k < |pages| => PageButton(pages[k], currentPage == pages[k], pages[k]))
  }

  /** Previous requests the page before the current one and is disabled on page 1. */
  function Previous(currentPage: int): (b: NavButton)
    ensures b.target == currentPage - 1
    ensures b.disabled <==> currentPage == 1
  {
    NavButton(currentPage - 1, currentPage == 1)
  }

  /** Next requests the page after the current one and is disabled exactly on
      page `totalPages`, as written; see `NextCorrected`. */
  function Next(currentPage: int, totalPages: int): (b: NavButton)
    ensures b.target == currentPage + 1
    ensures b.disabled <==> currentPage == totalPages
  {
    NavButton(currentPage + 1, currentPage == totalPages)
  }

  /** What a click on a navigation button asks for: nothing when it is disabled. */
  function Click(b: NavButton): (request: Option<int>)
    ensures request.Some? <==> !b.disabled
    ensures request.Some? ==> request.value == b.target
  {
    if b.disabled then None else Some(b.target)
  }

  /** An enabled Previous never requests a page below 1 from any page at or above 1. */
  lemma PreviousStaysPositive(currentPage: int)
    requires currentPage >= 1
    ensures Click(Previous(currentPage)).Some? ==> Click(Previous(currentPage)).value >= 1
  {
  }

  function HighlightCount(buttons: seq<PageButton>): nat {
    if buttons == [] then 0
    else (if buttons[0].highlighted then 1 else 0) + HighlightCount(buttons[1..])
  }

  lemma {:induction false} HighlightCountOfIncreasing(buttons: seq<PageButton>, currentPage: int)
    requires forall k :: 0 <= k < |buttons| ==> (buttons[k].highlighted <==> buttons[k].page == currentPage)
    requires forall i, j :: 0 <= i < j < |buttons| ==> buttons[i].page < buttons[j].page
    ensures HighlightCount(buttons) ==
      if exists k :: 0 <= k < |buttons| && buttons[k].page == currentPage then 1 else 0
  {
    if buttons != [] {
      var rest := buttons[1..];
      assert forall k :: 0 <= k < |rest| ==> rest[k] == buttons[k + 1];
      HighlightCountOfIncreasing(rest, currentPage);
      if buttons[0].page == currentPage {
        assert !exists k :: 0 <= k < |rest| && rest[k].page == currentPage;
      } else {
        if exists k :: 0 <= k < |buttons| && buttons[k].page == currentPage {
          var k :| 0 <= k < |buttons| && buttons[k].page == currentPage;
          assert rest[k - 1].page == currentPage;
        }
      }
    }
  }

  /** Exactly one page button is highlighted when the current page is one of
      the pages, and none otherwise. */
  lemma ExactlyOneHighlighted(currentPage: int, totalPages: int)
    ensures HighlightCount(Buttons(currentPage, totalPages)) ==
      if 1 <= currentPage <= totalPages then 1 else 0
  {
    var buttons := Buttons(currentPage, totalPages);
    HighlightCountOfIncreasing(buttons, currentPage);
    if 1 <= currentPage <= totalPages {
      assert buttons[currentPage - 1].page == currentPage;
    }
  }

  /** As written, Next stays enabled on page 1 of an empty list (0 pages) and
      requests page 2, a page that does not exist. */
  lemma NextOverrunsEmptyList()
    ensures !Next(1, 0).disabled
    ensures Click(Next(1, 0)) == Some(2) && 2 !in Pages(0)
  {
  }

  /** Next disabled on the last page and on every page beyond it. */
  function NextCorrected(currentPage: int, totalPages: int): (b: NavButton)
    ensures b.target == currentPage + 1
    ensures b.disabled <==> currentPage >= totalPages
  {
    NavButton(currentPage + 1, currentPage >= totalPages)
  }

  /** From a page at or above 1, an enabled corrected Next requests an existing
      page, and it agrees with Next whenever the current page is in range. */
  lemma NextCorrectedStaysInRange(currentPage: int, totalPages: int)
    requires currentPage >= 1
    ensures Click(NextCorrected(currentPage, totalPages)).Some? ==>
      Click(NextCorrected(currentPage, totalPages)).value in Pages(totalPages)
    ensures currentPage <= totalPages ==> NextCorrected(currentPage, totalPages) == Next(currentPage, totalPages)
  {
  }
}
