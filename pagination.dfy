/**
 * The pager under a card row (utils.py `display_random_items`): the cards are cut into
 * pages of `cards_per_page`, the session remembers the current page, and two buttons step
 * to the previous and the next page. Prev is disabled on page 0, Next on page n_pages - 1.
 */
module Pagination {
  import opened Optional

  /** `(len(items) - 1) // cards_per_page + 1`; Python's floor division agrees with Dafny's for a positive divisor. */
  function NPages(len: nat, cardsPerPage: int): (n: int)
    requires cardsPerPage > 0
    ensures n >= 0
    ensures len == 0 <==> n == 0
    ensures (n - 1) * cardsPerPage < len <= n * cardsPerPage
  {
    CeilingDiv(len, cardsPerPage);
    (len - 1) / cardsPerPage + 1
  }

  /** `(len - 1) // c + 1` is the ceiling of len / c, 0 for len = 0. */
  lemma CeilingDiv(len: nat, cardsPerPage: int)
    requires cardsPerPage > 0
    ensures var n := (len - 1) / cardsPerPage + 1;
      && n >= 0
      && (len == 0 <==> n == 0)
      && (n - 1) * cardsPerPage < len <= n * cardsPerPage
  {
    var n := (len - 1) / cardsPerPage + 1;
    var q, r := (len - 1) / cardsPerPage, (len - 1) % cardsPerPage;
    assert len - 1 == q * cardsPerPage + r && 0 <= r < cardsPerPage;
    assert n == q + 1;
    if len == 0 {
      assert q * cardsPerPage < 0;
      assert q < 0;
    } else {
      assert q >= 0;
    }
    assert (n - 1) * cardsPerPage == q * cardsPerPage;
    assert n * cardsPerPage == q * cardsPerPage + cardsPerPage;
  }

  /** A Python slice bound: a negative one counts from the end, and both are clamped to 0..len. */
  function ClampIndex(i: int, len: nat): (r: nat)
    ensures r <= len
    ensures 0 <= i <= len ==> r == i
    ensures i > len ==> r == len
  {
    if i < 0 then (if i + len < 0 then 0 else i + len)
    else if i > len then len
    else i
  }

  /** `s[lo:hi]`. */
  function PySlice<T>(s: seq<T>, lo: int, hi: int): (r: seq<T>)
    ensures ClampIndex(lo, |s|) + |r| <= |s|
    ensures |r| == if ClampIndex(lo, |s|) < ClampIndex(hi, |s|) then ClampIndex(hi, |s|) - ClampIndex(lo, |s|) else 0
    ensures forall k :: 0 <= k < |r| ==> r[k] == s[ClampIndex(lo, |s|) + k]
  {
    var a := ClampIndex(lo, |s|);
    var b := ClampIndex(hi, |s|);
    if a < b then s[a..b] else []
  }

  /** The cards of one page: `items[page * cards_per_page : page * cards_per_page + cards_per_page]`. */
  function PageWindow<T>(items: seq<T>, page: int, cardsPerPage: int): (r: seq<T>)
    ensures var start := page * cardsPerPage;
      && ClampIndex(start, |items|) + |r| <= |items|
      && (forall k :: 0 <= k < |r| ==> r[k] == items[ClampIndex(start, |items|) + k])
      && (start >= 0 && cardsPerPage >= 0 ==> |r| <= cardsPerPage)
  {
    var start := page * cardsPerPage;
    PySlice(items, start, start + cardsPerPage)
  }

  lemma MulLe(a: int, b: int, c: int)
    requires a <= b && c > 0
    ensures a * c <= b * c
  {
    assert b * c - a * c == (b - a) * c;
  }

  /**
   * A page shows at most cards_per_page consecutive items starting at item
   * page * cards_per_page: every page before the last is full, the last holds the rest, and
   * a page past the last is empty.
   */
  lemma WindowShape<T>(items: seq<T>, page: int, cardsPerPage: int)
    requires page >= 0 && cardsPerPage > 0
    ensures var w := PageWindow(items, page, cardsPerPage);
      var n := NPages(|items|, cardsPerPage);
      && |w| <= cardsPerPage
      && (forall k :: 0 <= k < |w| ==> w[k] == items[page * cardsPerPage + k])
      && (page < n - 1 ==> |w| == cardsPerPage)
      && (page == n - 1 ==> |w| == |items| - (n - 1) * cardsPerPage)
      && (page >= n ==> w == [])
  {
    var n := NPages(|items|, cardsPerPage);
    var len := |items|;
        var start := page * cardsPerPage;
    MulLe(0, page, cardsPerPage);
    assert 0 <= start;
    var w := PageWindow(items, page, cardsPerPage);
    var lo, hi := ClampIndex(start, len), ClampIndex(start + cardsPerPage, len);
    assert |w| == if lo < hi then hi - lo else 0;
    if page < n - 1 {
      MulLe(page + 1, n - 1, cardsPerPage);
      assert (page + 1) * cardsPerPage == start + cardsPerPage;
      assert start + cardsPerPage < len;
    }
    if page == n - 1 {
      assert start == (n - 1) * cardsPerPage;
    }
    if page >= n {
      MulLe(n, page, cardsPerPage);
      assert start >= len;
    }
  }

  /** The slice from a non-negative start holds the item at every offset below the width that exists. */
  lemma SliceAt<T>(items: seq<T>, start: int, width: int, r: int)
    requires 0 <= start && 0 <= r < width && start + r < |items|
    ensures r < |PySlice(items, start, start + width)|
    ensures PySlice(items, start, start + width)[r] == items[start + r]
  {
    assert ClampIndex(start, |items|) == start;
  }

  /** Item i is shown on page i / cards_per_page, at position i % cards_per_page. */
  lemma ItemPage<T>(items: seq<T>, i: int, cardsPerPage: int)
    requires 0 <= i < |items| && cardsPerPage > 0
    ensures var w := PageWindow(items, i / cardsPerPage, cardsPerPage);
      i % cardsPerPage < |w| && w[i % cardsPerPage] == items[i]
  {
    var p, r := i / cardsPerPage, i % cardsPerPage;
    var start := p * cardsPerPage;
    assert i == start + r && 0 <= r < cardsPerPage;
    assert 0 <= start by {
      if p < 0 {
        MulLe(p, -1, cardsPerPage);
      }
    }
    SliceAt(items, start, cardsPerPage, r);
    var w := PageWindow(items, p, cardsPerPage);
    assert w == PySlice(items, start, start + cardsPerPage);
  }

  datatype Button = Prev | Next

  /** The page after a click on b when the button is enabled; a disabled button does nothing. */
  function Step(page: int, b: Button, nPages: int): (r: int)
    ensures 0 <= page < nPages ==> 0 <= r < nPages
    ensures page >= 0 ==> r >= 0
    ensures (b == Prev && page == 0) || (b == Next && page == nPages - 1) ==> r == page
    ensures b == Prev && page != 0 ==> r == page - 1
    ensures b == Next && page != nPages - 1 ==> r == page + 1
  {
    match b
    case Prev => if page == 0 then page else page - 1
    case Next => if page == nPages - 1 then page else page + 1
  }

  /** The page after a series of clicks. */
  function Run(page: int, clicks: seq<Button>, nPages: int): int
    decreases |clicks|
  {
    if clicks == [] then page else Run(Step(page, clicks[0], nPages), clicks[1..], nPages)
  }

  /** Starting on a page in range, no series of clicks leaves the range. */
  lemma {:induction false} RunStaysInRange(page: int, clicks: seq<Button>, nPages: int)
    requires 0 <= page < nPages
    ensures 0 <= Run(page, clicks, nPages) < nPages
    decreases |clicks|
  {
    if clicks != [] {
      RunStaysInRange(Step(page, clicks[0], nPages), clicks[1..], nPages);
    }
  }

  /** The page never goes below 0, however many pages there are. */
  lemma {:induction false} RunNeverNegative(page: int, clicks: seq<Button>, nPages: int)
    requires page >= 0
    ensures Run(page, clicks, nPages) >= 0
    decreases |clicks|
  {
    if clicks != [] {
      RunNeverNegative(Step(page, clicks[0], nPages), clicks[1..], nPages);
    }
  }

  /**
   * With no cards there are 0 pages, so Next (disabled only on page n_pages - 1 = -1) stays
   * enabled, and two clicks lead to page 2, which is empty like page 0.
   */
  lemma EmptyRowNextStaysEnabled(cardsPerPage: int)
    requires cardsPerPage > 0
    ensures NPages(0, cardsPerPage) == 0
    ensures Run(0, [Next, Next], NPages(0, cardsPerPage)) == 2
    ensures PageWindow<int>([], 2, cardsPerPage) == []
  {
    assert [Next, Next][1..] == [Next];
  }

  /** The session state of the pager: the `page` key, absent until the first run. */
  class PageSession {
    var page: Option<int>

    ghost predicate Valid()
      reads this
    {
      page.Some? ==> page.value >= 0
    }

    constructor ()
      ensures Valid() && page == None
    {
      page := None;
    }

    /**
     * One run of `display_random_items`: the page defaults to 0, the page's cards are
     * shown, the buttons are disabled on the first and on the last page, and a click on an
     * enabled button moves the page by one.
     */
    method DisplayRandomItems<T>(items: seq<T>, cardsPerPage: int, clicked: Option<Button>)
      returns (shown: seq<T>, prevDisabled: bool, nextDisabled: bool)
      requires Valid() && cardsPerPage > 0
      modifies this
      ensures Valid()
      ensures var p := old(page).GetOr(0);
        && shown == PageWindow(items, p, cardsPerPage)
        && prevDisabled == (p == 0)
        && nextDisabled == (p == NPages(|items|, cardsPerPage) - 1)
        && page == Some(if clicked.Some? then Step(p, clicked.value, NPages(|items|, cardsPerPage)) else p)
    {
      var nPages := (|items| - 1) / cardsPerPage + 1;
      if page.None? {
        page := Some(0);
      }
      var p := page.value;
      var start := p * cardsPerPage;
      var end := start + cardsPerPage;
      var selectedCards := PySlice(items, start, end);
      shown := [];
      for k := 0 to |selectedCards|
        invariant shown == selectedCards[..k]
      {
        shown := shown + [selectedCards[k]];
      }
      assert selectedCards[..|selectedCards|] == selectedCards;
      prevDisabled := p == 0;
      nextDisabled := p == nPages - 1;
      if clicked == Some(Prev) && !prevDisabled {
        page := Some(p - 1);
      } else if clicked == Some(Next) && !nextDisabled {
        page := Some(p + 1);
      }
    }
  }

  /** Seven cards, three per page: pages of 3, 3 and 1 card. */
  lemma SevenCardsThreePages()
    ensures NPages(7, 3) == 3
    ensures PageWindow([1, 2, 3, 4, 5, 6, 7], 2, 3) == [7]
    ensures PageWindow([1, 2, 3, 4, 5, 6, 7], 1, 3) == [4, 5, 6]
  {
    assert [1, 2, 3, 4, 5, 6, 7][6..7] == [7];
    assert [1, 2, 3, 4, 5, 6, 7][3..6] == [4, 5, 6];
  }
}
