/** Pagination of an ordered query result, as Panache's `page(Page.of(index, size))`,
    `list()` and `hasNextPage()` behave on it: zero-based page numbers, pages of
    `size` rows, and "has more" when the following page would not be empty. */
module Paging {
  import opened Ordering

  function Min(a: int, b: int): int { if a <= b then a else b }

  /** Page.of(index, size) refuses a negative index and a size below one
      (IllegalArgumentException). */
  predicate ValidPage(index: int, size: int)
  {
    index >= 0 && size > 0
  }

  /** The rows of page `index`: positions index*size up to (index+1)*size, cut at the end. */
  function PageOf<T>(xs: seq<T>, index: nat, size: nat): (page: seq<T>)
    ensures |page| <= size
    ensures index * size >= |xs| ==> page == []
    ensures index * size + size <= |xs| ==> |page| == size
    ensures |page| == if index * size >= |xs| then 0 else Min(size, |xs| - index * size)
    ensures forall i :: 0 <= i < |page| ==> index * size + i < |xs| && page[i] == xs[index * size + i]
  {
    var lo := Min(index * size, |xs|);
    var hi := Min(index * size + size, |xs|);
    xs[lo..hi]
  }

  /** hasNextPage(): the current page is not the last one. */
  function HasNextPage<T>(xs: seq<T>, index: nat, size: nat): (more: bool)
    requires size > 0
    ensures more <==> PageOf(xs, index + 1, size) != []
  {
    |xs| > (index + 1) * size
  }

  /** Pages 0 .. count-1, one after the other. */
  function Pages<T>(xs: seq<T>, size: nat, count: nat): seq<T>
  {
    if count == 0 then [] else Pages(xs, size, count - 1) + PageOf(xs, count - 1, size)
  }

  /** Reading the first `count` pages yields exactly the first count*size rows:
      no row is skipped and none is repeated. */
  lemma {:induction false} PagesArePrefix<T>(xs: seq<T>, size: nat, count: nat)
    ensures Pages(xs, size, count) == xs[..Min(count * size, |xs|)]
  {
    if count > 0 {
      PagesArePrefix(xs, size, count - 1);
      var lo := Min((count - 1) * size, |xs|);
      var hi := Min(count * size, |xs|);
      assert (count - 1) * size + size == count * size;
      assert PageOf(xs, count - 1, size) == xs[lo..hi];
      assert lo <= hi;
      assert xs[..lo] + xs[lo..hi] == xs[..hi];
    }
  }

  /** Reading pages 0, 1, ... until hasNextPage() is false reproduces the whole
      unpaginated listing. */
  lemma PagingReproducesListing<T>(xs: seq<T>, size: nat, last: nat)
    requires size > 0
    requires !HasNextPage(xs, last, size)
    ensures Pages(xs, size, last + 1) == xs
  {
    PagesArePrefix(xs, size, last + 1);
    assert xs[..|xs|] == xs;
  }

  /** Each page is a query of its own, and the database may order tied rows
      differently each time: with two tied rows, both orders are valid, and
      page 1 of one holds the same row as page 0 of the other. */
  lemma TiedPagesOverlap()
    ensures var tied := (x: int) => 0.0;
      SortedBy([1, 2], tied, true) && SortedBy([2, 1], tied, true)
    ensures PageOf([1, 2], 1, 1) == PageOf([2, 1], 0, 1) == [2]
  {
  }
}
