/** Page arithmetic and pagination controls, identical in both versions of the
    script: 20 clubs per page, the shown page is `items.slice(start, start + 20)`
    with `start = (currentPage - 1) * 20`, and `renderPagination` draws Prev,
    one button per page and Next. */
module Paging {

  const PageSize: nat := 20

  function Min(a: int, b: int): int {
    if a <= b then a else b
  }

  /** `Math.ceil(n / PageSize)`. */
  function CeilPages(n: nat): (t: nat)
    ensures t * PageSize >= n
    ensures n > 0 ==> (t - 1) * PageSize < n
    ensures t == 0 <==> n == 0
  {
    (n + PageSize - 1) / PageSize
  }

  /** Growing a list never lowers its page count. */
  lemma CeilPagesMonotone(m: nat, n: nat)
    requires m <= n
    ensures CeilPages(m) <= CeilPages(n)
  {
  }

  /** How `Array.prototype.slice` resolves one bound against length `n`:
      a negative bound counts from the end, and both are clamped to `[0, n]`. */
  function SliceBound(k: int, n: nat): (b: nat)
    ensures b <= n
    ensures 0 <= k ==> b == Min(k, n)
  {
    if k < 0 then (if n + k < 0 then 0 else n + k) else Min(k, n)
  }

  /** `s.slice(start, end)`: never fails, empty when the bounds cross. */
  function JsSlice<T>(s: seq<T>, start: int, end: int): (r: seq<T>)
    ensures |r| <= |s|
  {
    var lo, hi := SliceBound(start, |s|), SliceBound(end, |s|);
    if lo < hi then s[lo..hi] else []
  }

  /** The items shown on page `page`. */
  function PageSlice<T>(items: seq<T>, page: int): seq<T> {
    var start := (page - 1) * PageSize;
    JsSlice(items, start, start + PageSize)
  }

  /** For a page number of at least 1 the shown page is the contiguous block
      starting at `(page - 1) * 20`, cut at the end of the list: at most 20
      items, and empty exactly when the page starts at or past the end. */
  lemma PageSliceSpec<T>(items: seq<T>, page: int)
    requires page >= 1
    ensures var start := (page - 1) * PageSize;
      && (start < |items| ==> PageSlice(items, page) == items[start..Min(start + PageSize, |items|)])
      && |PageSlice(items, page)| <= PageSize
      && (PageSlice(items, page) == [] <==> start >= |items|)
  {
  }

  /** 45 items make three pages: 20, 20 and the last 5. */
  lemma FortyFiveItems<T>(items: seq<T>)
    requires |items| == 45
    ensures CeilPages(|items|) == 3
    ensures PageSlice(items, 1) == items[..20]
    ensures PageSlice(items, 3) == items[40..45] && |PageSlice(items, 3)| == 5
    ensures PageSlice(items, 4) == []
  {
  }

  /** The first `k` pages, concatenated. */
  ghost function Pages<T>(items: seq<T>, k: nat): seq<T> {
    if k == 0 then [] else Pages(items, k - 1) + PageSlice(items, k)
  }

  lemma {:induction false} PagesPrefix<T>(items: seq<T>, k: nat)
    ensures Pages(items, k) == items[..Min(k * PageSize, |items|)]
  {
    if k > 0 {
      PagesPrefix(items, k - 1);
      var a, b := Min((k - 1) * PageSize, |items|), Min(k * PageSize, |items|);
      if (k - 1) * PageSize < |items| {
        assert items[..b] == items[..a] + items[a..b];
      } else {
        assert PageSlice(items, k) == [];
      }
    }
  }

  /** Pages 1 to `CeilPages(n)` together show every item exactly once, in order. */
  lemma PagesCoverItems<T>(items: seq<T>)
    ensures Pages(items, CeilPages(|items|)) == items
  {
    PagesPrefix(items, CeilPages(|items|));
  }

  /** A pagination button; the button of the current page is disabled. */
  datatype Control = PrevButton | PageButton(number: int, disabled: bool) | NextButton

  /** The buttons for pages 1 to `count`. */
  function PageButtons(count: nat, currentPage: int): (r: seq<Control>)
    ensures |r| == count
  {
    seq(count, i => PageButton(i + 1, i + 1 == currentPage))
  }

  /** What `renderPagination(totalPages)` draws for `currentPage`. */
  function Controls(totalPages: int, currentPage: int): seq<Control> {
    if totalPages <= 1 then []
    else
      (if currentPage > 1 then [PrevButton] else [])
      + PageButtons(totalPages, currentPage)
      + (if currentPage < totalPages then [NextButton] else [])
  }

  /** `renderPagination`: nothing for a single page, otherwise an optional Prev
      button, the loop drawing one button per page, and an optional Next button. */
  method RenderPagination(totalPages: int, currentPage: int) returns (controls: seq<Control>)
    ensures controls == Controls(totalPages, currentPage)
  {
    controls := [];
    if totalPages <= 1 {
      return;
    }
    var prev: seq<Control> := if currentPage > 1 then [PrevButton] else [];
    controls := prev;
    for i := 1 to totalPages + 1
      invariant controls == prev + PageButtons(i - 1, currentPage)
    {
      assert PageButtons(i, currentPage) == PageButtons(i - 1, currentPage) + [PageButton(i, i == currentPage)];
      controls := controls + [PageButton(i, i == currentPage)];
    }
    if currentPage < totalPages {
      controls := controls + [NextButton];
    }
  }

  /** The page a control leads to: Prev decrements, Next increments, a page
      button sets its number. */
  function Target(c: Control, currentPage: int): int {
    match c
    case PrevButton => currentPage - 1
    case PageButton(i, _) => i
    case NextButton => currentPage + 1
  }

  /** No controls at all for a single page (or none). */
  lemma NoControlsForOnePage(totalPages: int, currentPage: int)
    ensures Controls(totalPages, currentPage) == [] <==> totalPages <= 1
  {
    if totalPages > 1 {
      assert PageButtons(totalPages, currentPage)[0] in Controls(totalPages, currentPage);
    }
  }

  /** Prev is drawn exactly when there are several pages and this is not the first. */
  lemma PrevShownIff(totalPages: int, currentPage: int)
    ensures PrevButton in Controls(totalPages, currentPage) <==> totalPages > 1 && currentPage > 1
  {
    if totalPages > 1 && currentPage <= 1 {
      assert PrevButton !in PageButtons(totalPages, currentPage);
    }
  }

  /** Next is drawn exactly when there are several pages and this is not the last. */
  lemma NextShownIff(totalPages: int, currentPage: int)
    ensures NextButton in Controls(totalPages, currentPage) <==> totalPages > 1 && currentPage < totalPages
  {
    if totalPages > 1 && currentPage >= totalPages {
      assert NextButton !in PageButtons(totalPages, currentPage);
    }
  }

  /** The page buttons run from 1 to `totalPages`, and only the current one is disabled. */
  lemma PageButtonShownIff(totalPages: int, currentPage: int, i: int, disabled: bool)
    ensures PageButton(i, disabled) in Controls(totalPages, currentPage)
      <==> totalPages > 1 && 1 <= i <= totalPages && disabled == (i == currentPage)
  {
    if totalPages > 1 && 1 <= i <= totalPages && disabled == (i == currentPage) {
      assert PageButtons(totalPages, currentPage)[i - 1] == PageButton(i, disabled);
    }
  }

  /** Every drawn control leads to a page between 1 and `totalPages`. */
  lemma TargetInRange(totalPages: int, currentPage: int, c: Control)
    requires 1 <= currentPage <= totalPages
    requires c in Controls(totalPages, currentPage)
    ensures 1 <= Target(c, currentPage) <= totalPages
  {
    match c
    case PrevButton => PrevShownIff(totalPages, currentPage);
    case NextButton => NextShownIff(totalPages, currentPage);
    case PageButton(i, d) => PageButtonShownIff(totalPages, currentPage, i, d);
  }
}
