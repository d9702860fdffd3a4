/**
 * The pager of the deleted-employees table: the page count, the slice shown
 * on a page, the list of page links with ellipses, and the clamp applied to
 * a requested page.
 */
module Pagination {

  /** The default page size of the deleted-employees table. */
  const ItemsPerPage := 5

  /** `Math.ceil(n / perPage) || 1`: the page count, never below one. */
  function TotalPages(n: nat, perPage: nat): (t: nat)
    requires perPage > 0
    ensures t >= 1
    ensures n > 0 ==> (t - 1) * perPage < n <= t * perPage
    ensures n == 0 ==> t == 1
  {
    if n == 0 then 1 else (n + perPage - 1) / perPage
  }

  /** Twelve items at five per page make three pages; none make one. */
  lemma TotalPagesExamples()
    ensures TotalPages(12, ItemsPerPage) == 3
    ensures TotalPages(10, ItemsPerPage) == 2
    ensures TotalPages(0, ItemsPerPage) == 1
  {
  }

  // -----------------------------------------------------------------------
  // The slice shown on a page

  /** The index Array.prototype.slice uses for a start or end argument. */
  function SliceIndex(k: int, len: nat): (r: nat)
    ensures r <= len
    ensures 0 <= k <= len ==> r == k
  {
    if k < 0 then (if len + k < 0 then 0 else len + k) else if k > len then len else k
  }

  /** `s.slice(start, end)`, negative indices counting from the end. */
  function JsSlice<T>(s: seq<T>, start: int, end: int): (r: seq<T>)
    ensures |r| <= |s|
  {
    var b := SliceIndex(start, |s|);
    var e := SliceIndex(end, |s|);
    if b < e then s[b..e] else []
  }

  /** The items on a page: `items.slice((page - 1) * perPage, (page - 1) * perPage + perPage)`. */
  function PageItems<T>(items: seq<T>, page: int, perPage: nat): seq<T> {
    var start := (page - 1) * perPage;
    JsSlice(items, start, start + perPage)
  }

  function Min(a: int, b: int): int { if a <= b then a else b }

  /**
   * A page from 1 on shows at most perPage items, the ones from
   * (page - 1) * perPage on, in order; a page past the end shows none.
   */
  lemma PageItemsWindow<T>(items: seq<T>, page: int, perPage: nat)
    requires page >= 1
    ensures var start := (page - 1) * perPage;
      start <= |items| ==> PageItems(items, page, perPage) == items[start..Min(start + perPage, |items|)]
    ensures |PageItems(items, page, perPage)| <= perPage
    ensures (page - 1) * perPage >= |items| ==> PageItems(items, page, perPage) == []
  {
    var start := (page - 1) * perPage;
    assert start >= 0 by {
      assert page - 1 >= 0;
    }
  }

  /** The items of pages 1..k, one page after the other. */
  function PagesUpTo<T>(items: seq<T>, k: nat, perPage: nat): seq<T> {
    if k == 0 then [] else PagesUpTo(items, k - 1, perPage) + PageItems(items, k, perPage)
  }

  lemma MulStep(k: nat, perPage: nat)
    requires k > 0
    ensures (k - 1) * perPage >= 0
    ensures k * perPage == (k - 1) * perPage + perPage
  {
  }

  /** Pages 1..k together hold exactly the first k * perPage items. */
  lemma {:induction false} PagesUpToPrefix<T>(items: seq<T>, k: nat, perPage: nat)
    ensures PagesUpTo(items, k, perPage) == items[..Min(k * perPage, |items|)]
  {
    if k > 0 {
      var start := (k - 1) * perPage;
      MulStep(k, perPage);
      PagesUpToPrefix(items, k - 1, perPage);
      PageItemsWindow(items, k, perPage);
      var a := Min(start, |items|);
      var b := Min(start + perPage, |items|);
      assert b == Min(k * perPage, |items|);
      assert PageItems(items, k, perPage) == items[a..b] by {
        if start > |items| {
          assert a == b == |items|;
        }
      }
      assert items[..a] + items[a..b] == items[..b];
      assert PagesUpTo(items, k, perPage) == items[..a] + PageItems(items, k, perPage);
    }
  }

  /** Paging through every page shows every item once, in order. */
  lemma AllPagesShowEverything<T>(items: seq<T>, perPage: nat)
    requires perPage > 0
    ensures PagesUpTo(items, TotalPages(|items|, perPage), perPage) == items
  {
    PagesUpToPrefix(items, TotalPages(|items|, perPage), perPage);
    assert items[..|items|] == items;
  }

  // -----------------------------------------------------------------------
  // The page links

  datatype PageLink = Page(number: int) | Ellipsis

  /** delta = 1: the first page, the last page, and the pages next to the current one. */
  predicate Listed(i: int, current: int, total: int) {
    i == 1 || i == total || (current - 1 <= i && i <= current + 1)
  }

  /** The pages from 1 to k that are listed, in increasing order. */
  function ListedUpTo(current: int, total: int, k: int): (r: seq<int>)
    ensures forall j :: 0 <= j < |r| ==> 1 <= r[j] <= k
    ensures forall j1, j2 :: 0 <= j1 < j2 < |r| ==> r[j1] < r[j2]
    ensures forall i :: i in r <==> 1 <= i <= k && Listed(i, current, total)
    decreases k
  {
    if k < 1 then [] else ListedUpTo(current, total, k - 1) + (if Listed(k, current, total) then [k] else [])
  }

  /** The page numbers of the pager. */
  function ListedPages(current: int, total: int): seq<int> {
    ListedUpTo(current, total, total)
  }

  /** Whether an ellipsis goes between a listed page and the next. */
  predicate Gap(prev: int, next: int) {
    next - prev != 1
  }

  /** The pages with an ellipsis inserted wherever two neighbours are not consecutive. */
  function WithDots(ps: seq<int>): (r: seq<PageLink>)
    decreases |ps|
  {
    if ps == [] then []
    else
      var init := ps[..|ps| - 1];
      var last := ps[|ps| - 1];
      WithDots(init) + (if init != [] && Gap(init[|init| - 1], last) then [Ellipsis] else []) + [Page(last)]
  }

  /** The page numbers of a list of links, ellipses dropped. */
  function PagesOf(links: seq<PageLink>): seq<int>
    decreases |links|
  {
    if links == [] then []
    else PagesOf(links[..|links| - 1]) + (if links[|links| - 1].Page? then [links[|links| - 1].number] else [])
  }

  lemma {:induction false} PagesOfAppend(a: seq<PageLink>, b: seq<PageLink>)
    ensures PagesOf(a + b) == PagesOf(a) + PagesOf(b)
    decreases |b|
  {
    if b == [] {
      assert a + b == a;
    } else {
      var b' := b[..|b| - 1];
      assert (a + b)[..|a + b| - 1] == a + b';
      PagesOfAppend(a, b');
    }
  }

  /** One step of the loop that inserts ellipses. */
  lemma WithDotsSnoc(ps: seq<int>, x: int)
    ensures WithDots(ps + [x]) == WithDots(ps) + (if ps != [] && Gap(ps[|ps| - 1], x) then [Ellipsis] else []) + [Page(x)]
  {
    assert (ps + [x])[..|ps|] == ps;
  }

  /** One step of the loop that collects the listed pages. */
  lemma ListedUpToStep(current: int, total: int, k: int)
    requires k >= 1
    ensures ListedUpTo(current, total, k) == ListedUpTo(current, total, k - 1) + (if Listed(k, current, total) then [k] else [])
  {
  }

  /** The links that end a non-empty link list. */
  function LastLinks(ps: seq<int>): seq<PageLink>
    requires ps != []
  {
    var init := ps[..|ps| - 1];
    (if init != [] && Gap(init[|init| - 1], ps[|ps| - 1]) then [Ellipsis] else []) + [Page(ps[|ps| - 1])]
  }

  /** The links after the earlier ones hold the last page and nothing else. */
  lemma PagesOfLastLinks(ps: seq<int>)
    requires ps != []
    ensures PagesOf(LastLinks(ps)) == [ps[|ps| - 1]]
  {
    var init := ps[..|ps| - 1];
    var last := ps[|ps| - 1];
    var mid: seq<PageLink> := if init != [] && Gap(init[|init| - 1], last) then [Ellipsis] else [];
    assert LastLinks(ps) == mid + [Page(last)];
    PagesOfAppend(mid, [Page(last)]);
    assert PagesOf([Page(last)]) == [last] by {
      assert [Page(last)][..0] == [];
    }
    assert PagesOf(mid) == [] by {
      if mid != [] {
        assert mid[..0] == [];
      }
    }
  }

  /** Dropping the ellipses from the links gives back the pages. */
  lemma {:induction false} WithDotsPages(ps: seq<int>)
    ensures PagesOf(WithDots(ps)) == ps
    decreases |ps|
  {
    if ps != [] {
      var init := ps[..|ps| - 1];
      WithDotsPages(init);
      WithDotsStep(ps);
      PagesOfAppend(WithDots(init), LastLinks(ps));
      PagesOfLastLinks(ps);
      assert init + [ps[|ps| - 1]] == ps;
    }
  }

  /** A non-empty link list starts with the first page and ends with the last. */
  lemma {:induction false} WithDotsEnds(ps: seq<int>)
    requires ps != []
    ensures |WithDots(ps)| > 0
    ensures WithDots(ps)[0] == Page(ps[0])
    ensures WithDots(ps)[|WithDots(ps)| - 1] == Page(ps[|ps| - 1])
    decreases |ps|
  {
    var init := ps[..|ps| - 1];
    if init != [] {
      WithDotsEnds(init);
    }
  }

  /** Lists that build the link list one page at a time keep their earlier links. */
  lemma WithDotsStep(ps: seq<int>)
    requires ps != []
    ensures WithDots(ps) == WithDots(ps[..|ps| - 1]) + LastLinks(ps)
  {
  }

  /**
   * Every ellipsis sits between two pages that are not consecutive, and two
   * pages side by side are consecutive.
   */
  predicate WellDotted(r: seq<PageLink>) {
    && (forall k :: 0 <= k < |r| && r[k].Ellipsis? ==>
          0 < k < |r| - 1 && r[k - 1].Page? && r[k + 1].Page? && Gap(r[k - 1].number, r[k + 1].number))
    && (forall k :: 0 < k < |r| && r[k - 1].Page? && r[k].Page? ==> !Gap(r[k - 1].number, r[k].number))
  }

  /** Appending the next page to a well-dotted list ending in page p keeps it well dotted. */
  lemma AppendPageKeepsDots(w: seq<PageLink>, p: int, x: int)
    requires WellDotted(w) && w != [] && w[|w| - 1] == Page(p)
    ensures WellDotted(w + (if Gap(p, x) then [Ellipsis] else []) + [Page(x)])
  {
    var r := w + (if Gap(p, x) then [Ellipsis] else []) + [Page(x)];
    if Gap(p, x) {
      assert |r| == |w| + 2 && r[|w|] == Ellipsis && r[|w| + 1] == Page(x);
      forall k | 0 <= k < |r| && r[k].Ellipsis?
        ensures 0 < k < |r| - 1 && r[k - 1].Page? && r[k + 1].Page? && Gap(r[k - 1].number, r[k + 1].number)
      {
        if k < |w| {
          assert r[k] == w[k] && r[k - 1] == w[k - 1] && r[k + 1] == w[k + 1];
        }
      }
      forall k | 0 < k < |r| && r[k - 1].Page? && r[k].Page?
        ensures !Gap(r[k - 1].number, r[k].number)
      {
        assert k < |w|;
        assert r[k] == w[k] && r[k - 1] == w[k - 1];
      }
    } else {
      assert |r| == |w| + 1 && r[|w|] == Page(x);
      forall k | 0 <= k < |r| && r[k].Ellipsis?
        ensures 0 < k < |r| - 1 && r[k - 1].Page? && r[k + 1].Page? && Gap(r[k - 1].number, r[k + 1].number)
      {
        assert k < |w| - 1;
        assert r[k] == w[k] && r[k - 1] == w[k - 1] && r[k + 1] == w[k + 1];
      }
      forall k | 0 < k < |r| && r[k - 1].Page? && r[k].Page?
        ensures !Gap(r[k - 1].number, r[k].number)
      {
        if k < |w| {
          assert r[k] == w[k] && r[k - 1] == w[k - 1];
        }
      }
    }
  }

  /**
   * The link list is well dotted: in particular it never starts or ends with
   * an ellipsis and never has two in a row.
   */
  lemma {:induction false} WithDotsGaps(ps: seq<int>)
    ensures WellDotted(WithDots(ps))
    decreases |ps|
  {
    if ps != [] {
      var init := ps[..|ps| - 1];
      WithDotsStep(ps);
      if init == [] {
        assert WithDots(ps) == [Page(ps[0])];
      } else {
        WithDotsGaps(init);
        WithDotsEnds(init);
        AppendPageKeepsDots(WithDots(init), init[|init| - 1], ps[|ps| - 1]);
      }
    }
  }

  /** The first loop of paginationRange: every page from 1 to total that is listed. */
  method CollectListedPages(current: int, total: int) returns (range: seq<int>)
    ensures range == ListedPages(current, total)
  {
    range := [];
    var i := 1;
    while i <= total
      invariant 1 <= i && (total >= 1 ==> i <= total + 1)
      invariant total < 1 ==> i == 1
      invariant range == ListedUpTo(current, total, i - 1)
    {
      if i == 1 || i == total || (i >= current - 1 && i <= current + 1) {
        range := range + [i];
      }
      ListedUpToStep(current, total, i);
      i := i + 1;
    }
  }

  /** The second loop: push an ellipsis before every page that does not follow the previous one. */
  method InsertEllipses(range: seq<int>) returns (links: seq<PageLink>)
    ensures links == WithDots(range)
  {
    links := [];
    var hasLast := false;
    var last := 0;
    var k := 0;
    while k < |range|
      invariant 0 <= k <= |range|
      invariant links == WithDots(range[..k])
      invariant hasLast <==> k > 0
      invariant k > 0 ==> last == range[k - 1]
    {
      var p := range[k];
      WithDotsSnoc(range[..k], p);
      assert range[..k + 1] == range[..k] + [p];
      if hasLast && p - last != 1 {
        links := links + [Ellipsis];
      }
      links := links + [Page(p)];
      hasLast, last := true, p;
      k := k + 1;
    }
    assert range[..k] == range;
  }

  /** paginationRange: the listed pages with ellipses at the gaps. */
  method PaginationRange(current: int, total: int) returns (links: seq<PageLink>)
    ensures links == WithDots(ListedPages(current, total))
    ensures PagesOf(links) == ListedPages(current, total)
    ensures WellDotted(links)
  {
    var range := CollectListedPages(current, total);
    links := InsertEllipses(range);
    WithDotsPages(range);
    WithDotsGaps(range);
  }

  /**
   * The listed pages are 1, the last page and the existing neighbours of the
   * current page, and nothing else; they rise strictly and stay within
   * [1, total].
   */
  lemma ListedPagesContents(current: int, total: int)
    requires total >= 1
    ensures 1 in ListedPages(current, total) && total in ListedPages(current, total)
    ensures forall i :: 1 <= i <= total && current - 1 <= i <= current + 1 ==> i in ListedPages(current, total)
    ensures forall i :: i in ListedPages(current, total) ==>
      1 <= i <= total && (i == 1 || i == total || current - 1 <= i <= current + 1)
    ensures forall j :: 0 <= j < |ListedPages(current, total)| ==> 1 <= ListedPages(current, total)[j] <= total
    ensures forall j1, j2 :: 0 <= j1 < j2 < |ListedPages(current, total)| ==>
      ListedPages(current, total)[j1] < ListedPages(current, total)[j2]
  {
  }

  /** Page 1 of 4 lists pages 1, 2 and 4. */
  lemma ListedPagesExample()
    ensures ListedPages(1, 4) == [1, 2, 4]
  {
    ListedUpToStep(1, 4, 1);
    ListedUpToStep(1, 4, 2);
    ListedUpToStep(1, 4, 3);
    ListedUpToStep(1, 4, 4);
  }

  /** Page 1 of 4 shows 1 2 … 4. */
  lemma PaginationExample()
    ensures WithDots(ListedPages(1, 4)) == [Page(1), Page(2), Ellipsis, Page(4)]
  {
    ListedPagesExample();
    WithDotsSnoc([], 1);
    WithDotsSnoc([1], 2);
    WithDotsSnoc([1, 2], 4);
  }

  // -----------------------------------------------------------------------
  // handlePageChange

  /** `Math.max(1, Math.min(page, totalPages))`. */
  function ClampPage(page: int, total: int): (r: int)
    ensures total >= 1 ==> 1 <= r <= total
    ensures 1 <= page <= total ==> r == page
    ensures page < 1 ==> r == 1
    ensures total >= 1 && page > total ==> r == total
  {
    if page <= total then (if page < 1 then 1 else page) else (if total < 1 then 1 else total)
  }

  /** Clamping a clamped page changes nothing. */
  lemma ClampIdempotent(page: int, total: int)
    requires total >= 1
    ensures ClampPage(ClampPage(page, total), total) == ClampPage(page, total)
  {
  }

  /** The page the pager moves to for a request, given the items and page size. */
  function HandlePageChange(page: int, itemCount: nat, perPage: nat): (r: int)
    requires perPage > 0
    ensures 1 <= r <= TotalPages(itemCount, perPage)
    ensures 1 <= page <= TotalPages(itemCount, perPage) ==> r == page
  {
    ClampPage(page, TotalPages(itemCount, perPage))
  }

  /** The previous button on the first page and the next button on the last page go nowhere. */
  lemma PrevNextStayInRange(itemCount: nat, perPage: nat)
    requires perPage > 0
    ensures HandlePageChange(1 - 1, itemCount, perPage) == 1
    ensures HandlePageChange(TotalPages(itemCount, perPage) + 1, itemCount, perPage) == TotalPages(itemCount, perPage)
  {
  }
}
