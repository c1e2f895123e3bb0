/** Page bookkeeping: how many pages a list of n items fills, which page holds
    a given rank index, and the slice render shows for a page. */
module Paging {
  import opened Words

  /** ITEMS_PER_PAGE. */
  const PageSize: nat := 10

  /** `Math.ceil(n / d)` for a natural n and a positive d. */
  function CeilDiv(n: nat, d: nat): nat
    requires d > 0
  {
    (n + d - 1) / d
  }

  /** pageCount: `Math.max(1, Math.ceil(n / ITEMS_PER_PAGE))`, the fewest
      pages (at least one) that hold n items. */
  function PageCount(n: nat): (r: int)
    ensures 1 <= r
    ensures n <= r * PageSize
    ensures r == 1 || (r - 1) * PageSize < n
  {
    Max(1, CeilDiv(n, PageSize))
  }

  /** No smaller page count holds n items. */
  lemma PageCountLeast(n: nat, p: int)
    requires 1 <= p && n <= p * PageSize
    ensures PageCount(n) <= p
  {
  }

  /** The pages the cursor may point at when the list has n items. */
  predicate InRange(page: int, n: nat) {
    1 <= page <= PageCount(n)
  }

  /** `Math.floor(index / ITEMS_PER_PAGE) + 1`: the page holding the zero-based
      rank index `i`. */
  function PageOf(i: nat): (p: int)
    ensures 1 <= p
    ensures (p - 1) * PageSize <= i < p * PageSize
  {
    i / PageSize + 1
  }

  /** Every index of a list of n items lies on a page the cursor may show. */
  lemma PageOfInRange(i: nat, n: nat)
    requires i < n
    ensures InRange(PageOf(i), n)
  {
  }

  /** `Array.prototype.slice(start, end)` for non-negative arguments: both ends
      are cut back to the length, and a range that is empty after that gives
      an empty result. */
  function Slice<T>(s: seq<T>, start: nat, end: nat): (r: seq<T>)
    ensures |r| == if start < end && start < |s| then Min(end, |s|) - start else 0
    ensures forall k :: 0 <= k < |r| ==> start + k < |s| && r[k] == s[start + k]
  {
    var lo := Min(start, |s|);
    var hi := Min(end, |s|);
    if lo < hi then s[lo..hi] else []
  }

  /** The items render shows on page `page`:
      `items.slice((page - 1) * ITEMS_PER_PAGE, (page - 1) * ITEMS_PER_PAGE + ITEMS_PER_PAGE)`. */
  function PageItems<T>(s: seq<T>, page: int): (r: seq<T>)
    requires 1 <= page
    ensures |r| <= PageSize
    ensures InRange(page, |s|) ==> (r == [] <==> s == [])
    ensures forall k :: 0 <= k < |r| ==> (page - 1) * PageSize + k < |s| && r[k] == s[(page - 1) * PageSize + k]
  {
    var start := (page - 1) * PageSize;
    Slice(s, start, start + PageSize)
  }

  /** Every item is shown on the page PageOf names for its index, at offset
      `i % ITEMS_PER_PAGE`. */
  lemma ItemOnItsPage<T>(s: seq<T>, i: nat)
    requires i < |s|
    ensures var page := PageItems(s, PageOf(i));
      i % PageSize < |page| && page[i % PageSize] == s[i]
  {
    var p := PageOf(i);
    var start := (p - 1) * PageSize;
    assert start + i % PageSize == i;
  }

  /** Each item on page `page` has a rank index that PageOf maps back to
      `page`: pages do not overlap. */
  lemma PageItemsBelongToPage<T>(s: seq<T>, page: int, k: nat)
    requires 1 <= page
    requires k < |PageItems(s, page)|
    ensures PageOf((page - 1) * PageSize + k) == page
  {
  }
}
