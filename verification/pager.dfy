/** Pagination of a result list as the user listing does it: 1-based page
    numbers, a page size between 1 and 100, the page as a Python slice of the
    sorted results (clamped at the end, never an error), the number of pages
    by ceiling division, and the next/previous flags derived from those. */
module Pager {

  /** The metadata and items of one page (`PaginatedUserResponse`). */
  datatype Page<T> = Page(
    items: seq<T>,
    totalCount: nat,
    page: int,
    pagesize: int,
    totalPages: nat,
    hasNext: bool,
    hasPrevious: bool)

  /** The query-parameter constraints `page >= 1` and `1 <= pagesize <= 100`;
      a request outside them is rejected with 422 before the handler runs. */
  predicate ValidPageRequest(page: int, pagesize: int)
  {
    page >= 1 && 1 <= pagesize <= 100
  }

  function Min(a: int, b: int): int
  {
    if a <= b then a else b
  }

  /** `(n + size - 1) // size`: the least number of pages of `size` items that
      hold `n` items. */
  function CeilDiv(n: nat, size: nat): (q: nat)
    requires size >= 1
    ensures q * size >= n
    ensures q == 0 || (q - 1) * size < n
  {
    var m := n + size - 1;
    assert m == (m / size) * size + m % size;
    m / size
  }

  lemma MulMonotone(a: nat, b: nat, d: nat)
    requires a <= b
    ensures a * d <= b * d
  {
    assert b * d == a * d + (b - a) * d;
  }

  /** A page number is below the page count exactly when a full run of
      pages up to and including it leaves items over. */
  lemma BelowPageCount(page: nat, n: nat, size: nat)
    requires size >= 1
    ensures page < CeilDiv(n, size) <==> page * size < n
  {
    var q := CeilDiv(n, size);
    if page < q {
      MulMonotone(page, q - 1, size);
    } else {
      MulMonotone(q, page, size);
    }
  }

  /** `s[lo:hi]` for `0 <= lo <= hi`: bounds past the end are clamped. */
  function Slice<T>(s: seq<T>, lo: nat, hi: nat): seq<T>
    requires lo <= hi
  {
    s[Min(lo, |s|)..Min(hi, |s|)]
  }

  function Offset(page: int, pagesize: int): nat
    requires ValidPageRequest(page, pagesize)
  {
    MulMonotone(0, page - 1, pagesize);
    (page - 1) * pagesize
  }

  /** Page `page` of `all`, with its metadata. */
  function Paginate<T>(all: seq<T>, page: int, pagesize: int): (p: Page<T>)
    requires ValidPageRequest(page, pagesize)
    ensures p.totalCount == |all| && p.page == page && p.pagesize == pagesize
    ensures p.totalPages * pagesize >= |all|
    ensures p.totalPages == 0 || (p.totalPages - 1) * pagesize < |all|
    ensures |p.items| <= pagesize
    ensures p.items == [] <==> Offset(page, pagesize) >= |all|
    ensures Offset(page, pagesize) < |all| ==>
              |p.items| == Min(pagesize, |all| - Offset(page, pagesize))
    ensures forall i :: 0 <= i < |p.items| ==> p.items[i] == all[Offset(page, pagesize) + i]
    ensures p.hasNext <==> page * pagesize < |all|
    ensures p.hasPrevious <==> page > 1
  {
    var totalPages := CeilDiv(|all|, pagesize);
    var offset := Offset(page, pagesize);
    BelowPageCount(page, |all|, pagesize);
    Page(Slice(all, offset, offset + pagesize), |all|, page, pagesize,
         totalPages, page < totalPages, page > 1)
  }

  /** Every page but the last one is full: `hasNext` promises a complete page. */
  lemma NextMeansFullPage<T>(all: seq<T>, page: int, pagesize: int)
    requires ValidPageRequest(page, pagesize)
    requires Paginate(all, page, pagesize).hasNext
    ensures |Paginate(all, page, pagesize).items| == pagesize
  {
    assert Offset(page, pagesize) + pagesize == page * pagesize;
  }

  /** Asking for a page past the last gives no items and no next page. */
  lemma PastTheEnd<T>(all: seq<T>, page: int, pagesize: int)
    requires ValidPageRequest(page, pagesize)
    requires page > Paginate(all, page, pagesize).totalPages
    ensures Paginate(all, page, pagesize).items == []
    ensures !Paginate(all, page, pagesize).hasNext
  {
    var q := Paginate(all, page, pagesize).totalPages;
    MulMonotone(q, page - 1, pagesize);
  }

  /** Pages 1 to k, one after the other. */
  function Pages<T>(all: seq<T>, pagesize: int, k: nat): seq<T>
    requires 1 <= pagesize <= 100
  {
    if k == 0 then [] else Pages(all, pagesize, k - 1) + Paginate(all, k, pagesize).items
  }

  lemma {:induction false} PagesArePrefix<T>(all: seq<T>, pagesize: int, k: nat)
    requires 1 <= pagesize <= 100
    ensures Pages(all, pagesize, k) == all[..Min(k * pagesize, |all|)]
  {
    if k > 0 {
      PagesArePrefix(all, pagesize, k - 1);
      var lo := Min((k - 1) * pagesize, |all|);
      var hi := Min(k * pagesize, |all|);
      var p := Paginate(all, k, pagesize).items;
      assert Offset(k, pagesize) == (k - 1) * pagesize;
      assert p == all[lo..hi];
      assert all[..lo] + all[lo..hi] == all[..hi];
    }
  }

  /** Reading pages 1 to `totalPages` in turn yields every result exactly
      once, in order. */
  lemma PagesCoverAll<T>(all: seq<T>, pagesize: int)
    requires 1 <= pagesize <= 100
    ensures Pages(all, pagesize, Paginate(all, 1, pagesize).totalPages) == all
  {
    PagesArePrefix(all, pagesize, Paginate(all, 1, pagesize).totalPages);
  }
}
