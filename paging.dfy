/**
 * The `Paginator(listing, size).get_page(number)` step of every listing view:
 * a page is a slice of the ordered listing of at most `size` items.
 */
module Paging {
  import opened Wrappers

  /**
   * One page of a listing: its items, the offset of its first item in the
   * listing, its 1-based number, how many pages the listing has, and how
   * many items.
   */
  datatype Page<T> = Page(items: seq<T>, start: nat, number: nat, numPages: nat, count: nat)

  function Min(a: int, b: int): int { if a <= b then a else b }

  /**
   * How many pages a listing of `count` items fills; an empty listing still
   * has its one, empty, page.
   */
  function NumPages(count: nat, size: nat): (n: nat)
    requires size > 0
    ensures n >= 1
    ensures n == 1 <==> count <= size
    decreases count
  {
    if count <= size then 1 else NumPages(count - size, size) + 1
  }

  /** The number of pages is the item count divided by the page size, rounded up. */
  lemma {:induction false} NumPagesIsCeiling(count: nat, size: nat)
    requires size > 0
    ensures count > 0 ==> (NumPages(count, size) - 1) * size < count <= NumPages(count, size) * size
    decreases count
  {
    if count > size {
      var m := NumPages(count - size, size);
      NumPagesIsCeiling(count - size, size);
      assert (m + 1 - 1) * size == m * size;
      assert (m + 1) * size == m * size + size;
    }
  }

  /** Where page `n` (counting from 1) begins. */
  function PageStart(n: nat, size: nat): nat {
    if n <= 1 then 0 else PageStart(n - 1, size) + size
  }

  /** Page `n` begins at item `(n - 1) * size`. */
  lemma {:induction false} PageStartIsProduct(n: nat, size: nat)
    requires n >= 1
    ensures PageStart(n, size) == (n - 1) * size
  {
    if n > 1 {
      PageStartIsProduct(n - 1, size);
      assert (n - 1) * size == (n - 2) * size + size;
    }
  }

  /** Every page but the first of an empty listing begins at one of its items. */
  lemma {:induction false} PageStartInRange(n: nat, size: nat, count: nat)
    requires size > 0 && 1 <= n <= NumPages(count, size)
    ensures PageStart(n, size) <= count
    ensures count > 0 ==> PageStart(n, size) < count
    decreases n
  {
    if n > 1 {
      PageStartInRange(n - 1, size, count - size);
    }
  }

  /**
   * The page `get_page(number)` opens when there are `numPages` pages:
   * `None` stands for a missing or non-integer page parameter and opens the
   * first page; a number below 1 or past the last page opens the last page.
   */
  function PageNumber(number: Option<int>, numPages: nat): (n: nat)
    requires numPages >= 1
    ensures 1 <= n <= numPages
    ensures number.None? ==> n == 1
    ensures number.Some? && 1 <= number.value <= numPages ==> n == number.value
    ensures number.Some? && !(1 <= number.value <= numPages) ==> n == numPages
  {
    match number
    case None => 1
    case Some(k) => if 1 <= k <= numPages then k else numPages
  }

  /**
   * `get_page(number)` on the pages of `s`: the slice of at most `size`
   * items that is page PageNumber(number) of the listing.
   */
  function Paginate<T>(s: seq<T>, size: nat, number: Option<int>): (p: Page<T>)
    requires size > 0
    ensures p.count == |s| && p.numPages == NumPages(|s|, size)
    ensures 1 <= p.number <= p.numPages && p.number == PageNumber(number, p.numPages)
    ensures |p.items| <= size
    ensures |s| > 0 ==> |p.items| > 0
    ensures p.start + |p.items| <= |s| && p.items == s[p.start .. p.start + |p.items|]
    ensures forall x :: x in p.items ==> x in s
  {
    var numPages := NumPages(|s|, size);
    var n := PageNumber(number, numPages);
    var lo := PageStart(n, size);
    PageStartInRange(n, size, |s|);
    var hi := Min(lo + size, |s|);
    Page(s[lo..hi], lo, n, numPages, |s|)
  }

  /** Page `n` of Paginate begins at item `(n - 1) * size` of the listing. */
  lemma PaginateStart<T>(s: seq<T>, size: nat, number: Option<int>)
    requires size > 0
    ensures Paginate(s, size, number).start == (Paginate(s, size, number).number - 1) * size
  {
    PageStartIsProduct(Paginate(s, size, number).number, size);
  }

  lemma SliceShift<T>(s: seq<T>, d: nat, a: nat, b: nat)
    requires d <= |s| && a <= b <= |s| - d
    ensures s[d..][a..b] == s[d + a .. d + b]
  {
  }

  /** Concatenation of a sequence of pages. */
  function Flatten<T>(pages: seq<seq<T>>): seq<T> {
    if pages == [] then [] else pages[0] + Flatten(pages[1..])
  }

  /**
   * All the pages of `s`, cut off `size` items at a time: the reference the
   * numbered pages are checked against.
   */
  function Pages<T>(s: seq<T>, size: nat): (r: seq<seq<T>>)
    requires size > 0
    ensures |r| == NumPages(|s|, size)
    decreases |s|
  {
    if |s| <= size then [s] else [s[..size]] + Pages(s[size..], size)
  }

  /**
   * Together the pages hold exactly the listing, in order; every page but
   * the last is full, and none is empty unless the listing is.
   */
  lemma {:induction false} PagesCoverListing<T>(s: seq<T>, size: nat)
    requires size > 0
    ensures Flatten(Pages(s, size)) == s
    ensures forall k :: 0 <= k < |Pages(s, size)| ==> |Pages(s, size)[k]| <= size
    ensures forall k :: 0 <= k < |Pages(s, size)| - 1 ==> |Pages(s, size)[k]| == size
    ensures forall k :: 0 <= k < |Pages(s, size)| ==> (|Pages(s, size)[k]| > 0 || s == [])
    decreases |s|
  {
    var r := Pages(s, size);
    if |s| <= size {
      assert Flatten(r) == s + Flatten(r[1..]);
    } else {
      var rest := Pages(s[size..], size);
      PagesCoverListing(s[size..], size);
      assert r[1..] == rest;
      assert Flatten(r) == s[..size] + Flatten(rest);
      assert s[..size] + s[size..] == s;
      forall k | 0 < k < |r| ensures r[k] == rest[k - 1] { }
    }
  }

  /**
   * `items`, numbered `pageNumber`, is what `get_page(number)` should give:
   * page PageNumber(number) of the reference cut of `s`.
   */
  predicate IsReferencePage<T(==)>(items: seq<T>, pageNumber: int, s: seq<T>, size: nat, number: Option<int>)
    requires size > 0
  {
    && pageNumber == PageNumber(number, NumPages(|s|, size))
    && items == Pages(s, size)[pageNumber - 1]
  }

  /** Page `number` of Paginate is page `number` of the reference. */
  lemma {:induction false} PaginateIsPage<T>(s: seq<T>, size: nat, number: Option<int>)
    requires size > 0
    ensures IsReferencePage(Paginate(s, size, number).items, Paginate(s, size, number).number, s, size, number)
  {
    var p := Paginate(s, size, number);
    PageAt(s, size, p.number);
  }

  /** Reference page `n` (counting from 1) holds the items from PageStart(n, size) on. */
  lemma {:induction false} PageAt<T>(s: seq<T>, size: nat, n: nat)
    requires size > 0 && 1 <= n <= NumPages(|s|, size)
    ensures PageStart(n, size) <= |s|
    ensures Pages(s, size)[n - 1] == s[PageStart(n, size) .. Min(PageStart(n, size) + size, |s|)]
    decreases n
  {
    if n > 1 {
      assert |s| > size;
      var t := s[size..];
      var lo := PageStart(n - 1, size);
      var hi := Min(lo + size, |t|);
      assert lo <= |t| && Pages(t, size)[n - 2] == t[lo..hi] by {
        assert NumPages(|t|, size) == NumPages(|s|, size) - 1;
        PageAt(t, size, n - 1);
      }
      assert Pages(s, size)[n - 1] == Pages(t, size)[n - 2];
      assert t[lo..hi] == s[size + lo .. size + hi] by {
        SliceShift(s, size, lo, hi);
      }
      assert PageStart(n, size) == lo + size;
      assert size + hi == Min(lo + size + size, |s|);
    }
  }

  /** An item of a concatenation lies in one of the concatenated pages. */
  lemma {:induction false} InFlatten<T>(pages: seq<seq<T>>, x: T)
    requires x in Flatten(pages)
    ensures exists k :: 0 <= k < |pages| && x in pages[k]
  {
    if x !in pages[0] {
      InFlatten(pages[1..], x);
      var k :| 0 <= k < |pages[1..]| && x in pages[1..][k];
      assert pages[k + 1] == pages[1..][k];
    }
  }

  /** Every item of a listing is on one of its numbered pages. */
  lemma PaginateReachesEvery<T>(s: seq<T>, size: nat, x: T)
    requires size > 0 && x in s
    ensures exists n :: 1 <= n <= NumPages(|s|, size) && x in Paginate(s, size, Some(n)).items
  {
    PagesCoverListing(s, size);
    InFlatten(Pages(s, size), x);
    var k :| 0 <= k < |Pages(s, size)| && x in Pages(s, size)[k];
    PaginateIsPage(s, size, Some(k + 1));
    assert PageNumber(Some(k + 1), NumPages(|s|, size)) == k + 1;
  }
}
