/** Client-side pagination shared by the account matrix and the loan list:
    the page count, the `slice` that gives one page, the page-change guard and
    the "Showing a to b of n" bounds. */
module Pagination {

  function Min(a: int, b: int): int { if a <= b then a else b }

  function Max(a: int, b: int): int { if a <= b then b else a }

  /** `Math.ceil(n / perPage)`: the fewest pages of `perPage` rows that hold `n` rows. */
  function TotalPages(n: nat, perPage: nat): (pages: nat)
    requires perPage > 0
    ensures n <= pages * perPage
    ensures (pages - 1) * perPage < n
  {
    var q := (n + perPage - 1) / perPage;
    assert q * perPage <= n + perPage - 1 < (q + 1) * perPage;
    q
  }

  /** There are no pages exactly when there are no rows. */
  lemma NoPagesIffEmpty(n: nat, perPage: nat)
    requires perPage > 0
    ensures TotalPages(n, perPage) == 0 <==> n == 0
  {
    var p := TotalPages(n, perPage);
    if p > 0 { assert (p - 1) * perPage >= 0; }
  }

  /** A position given to `slice`: negative ones count back from the end;
      positions are clamped to `0..n`. */
  function Clamp(i: int, n: nat): (k: nat)
    ensures k <= n
  {
    if i < 0 then (if n + i < 0 then 0 else n + i) else Min(i, n)
  }

  /** Moving a position forward by some amount moves its clamped value
      forward by no more than that amount. */
  lemma ClampWindow(i: int, j: int, n: nat)
    ensures i <= j ==> Clamp(j, n) <= Clamp(i, n) + (j - i)
  {
  }

  /** `r` is the run of `s` that starts at index `b`. */
  ghost predicate RunAt<T>(r: seq<T>, s: seq<T>, b: int)
  {
    0 <= b <= |s| - |r| && r == s[b..b + |r|]
  }

  /** `s.slice(start, end)`: always one contiguous run of `s`, never longer
      than `end - start`; exactly `s[start..end]` when both ends are in range,
      the run from `start` to `end` cut off at the end of `s` when `start` is
      not negative, and empty when `end` does not come after `start`. */
  function Slice<T>(s: seq<T>, start: int, end: int): (r: seq<T>)
    ensures exists b :: RunAt(r, s, b)
    ensures start <= end ==> |r| <= end - start
    ensures 0 <= start <= end ==> r == s[Min(start, |s|)..Min(end, |s|)]
    ensures 0 <= end <= start ==> r == []
  {
    var b, e := Clamp(start, |s|), Clamp(end, |s|);
    ClampWindow(start, end, |s|);
    if b < e then
      assert RunAt(s[b..e], s, b);
      s[b..e]
    else
      assert RunAt([], s, 0);
      []
  }

  /** The two ends of page `page`: `perPage` apart, and the first one not
      negative from page 1 on. */
  lemma PageEnds(page: int, perPage: nat)
    ensures page * perPage == (page - 1) * perPage + perPage
    ensures page >= 1 ==> (page - 1) * perPage >= 0
  {
  }

  /** `filtered.slice((page - 1) * perPage, page * perPage)`: the rows shown on `page`,
      never more than `perPage`; for a page from 1 on, the rows from index
      `(page - 1) * perPage` up to `page * perPage` or the end. */
  function PageSlice<T>(s: seq<T>, page: int, perPage: nat): (r: seq<T>)
    ensures |r| <= perPage
    ensures page >= 1 ==> (page - 1) * perPage <= page * perPage && r == s[Min((page - 1) * perPage, |s|)..Min(page * perPage, |s|)]
  {
    PageEnds(page, perPage);
    Slice(s, (page - 1) * perPage, page * perPage)
  }

  /** The rows of a page kept in range: at most `perPage`, exactly those from
      index `(page - 1) * perPage` up to `page * perPage` or the end. */
  function InRangePage<T>(s: seq<T>, page: int, perPage: nat): (r: seq<T>)
    requires perPage > 0 && PageInRange(page, TotalPages(|s|, perPage))
    ensures |r| <= perPage
    ensures (page - 1) * perPage <= |s| && r == s[(page - 1) * perPage..Min(page * perPage, |s|)]
  {
    assert (page - 1) * perPage <= |s| by {
      var p := TotalPages(|s|, perPage);
      if page > 1 { assert (page - 1) * perPage <= (p - 1) * perPage; }
    }
    PageSlice(s, page, perPage)
  }

  /** A page past the last one, which a table keeps when its list shrinks
      under it, shows no row, and its "Showing a to b of n" line has `a > b`. */
  lemma PastLastPageShowsNothing<T>(s: seq<T>, page: int, perPage: nat)
    requires perPage > 0 && page > TotalPages(|s|, perPage)
    ensures PageSlice(s, page, perPage) == []
    ensures FirstShown(page, perPage) > LastShown(page, perPage, |s|)
  {
    var p := TotalPages(|s|, perPage);
    assert (page - 1) * perPage >= p * perPage;
  }

  /** Pages 1 to `k`, one after the other. */
  function PagesThrough<T>(s: seq<T>, perPage: nat, k: nat): seq<T>
  {
    if k == 0 then [] else PagesThrough(s, perPage, k - 1) + PageSlice(s, k, perPage)
  }

  /** Pages 1 to `k` together are the first `k * perPage` rows, in order. */
  lemma {:induction false} PagesThroughPrefix<T>(s: seq<T>, perPage: nat, k: nat)
    ensures PagesThrough(s, perPage, k) == s[..Min(k * perPage, |s|)]
  {
    if k > 0 {
      PagesThroughPrefix(s, perPage, k - 1);
      PageEnds(k, perPage);
      var lo, hi := (k - 1) * perPage, k * perPage;
      var a, b := Min(lo, |s|), Min(hi, |s|);
      assert PageSlice(s, k, perPage) == s[a..b];
      PrefixJoin(s, a, b);
    }
  }

  /** A prefix followed by the run after it is the longer prefix. */
  lemma PrefixJoin<T>(s: seq<T>, a: int, b: int)
    requires 0 <= a <= b <= |s|
    ensures s[..a] + s[a..b] == s[..b]
  {
  }

  /** The pages from 1 to `TotalPages` cover the whole list, in order, each row once. */
  lemma PagesCover<T>(s: seq<T>, perPage: nat)
    requires perPage > 0
    ensures PagesThrough(s, perPage, TotalPages(|s|, perPage)) == s
  {
    PagesThroughPrefix(s, perPage, TotalPages(|s|, perPage));
  }

  /** `handlePageChange(page)` moves only to a page from 1 to `totalPages`. */
  predicate AcceptsPage(target: int, totalPages: nat): (ok: bool)
    ensures ok ==> PageInRange(target, totalPages)
    ensures totalPages == 0 ==> !ok
  {
    1 <= target <= totalPages
  }

  /** The state both tables keep: a current page from 1 on, past the last page
      only when there is no page at all. */
  predicate PageInRange(current: int, totalPages: nat)
  {
    1 <= current <= Max(1, totalPages)
  }

  /** The "Showing a to b of n" line: `a = (page - 1) * perPage + 1`. */
  function FirstShown(page: int, perPage: nat): int
  {
    (page - 1) * perPage + 1
  }

  /** The "Showing a to b of n" line: `b = Math.min(page * perPage, n)`, never above `n`. */
  function LastShown(page: int, perPage: nat, n: nat): (b: int)
    ensures b <= n
  {
    Min(page * perPage, n)
  }

  /** On an accepted page, "Showing a to b of n" names exactly the rows the page shows. */
  lemma ShowingMatchesPage<T>(s: seq<T>, page: int, perPage: nat)
    requires perPage > 0 && AcceptsPage(page, TotalPages(|s|, perPage))
    ensures 1 <= FirstShown(page, perPage) <= LastShown(page, perPage, |s|) <= |s|
    ensures LastShown(page, perPage, |s|) - FirstShown(page, perPage) + 1 == |PageSlice(s, page, perPage)|
  {
    var p := TotalPages(|s|, perPage);
    assert (page - 1) * perPage <= (p - 1) * perPage;
    assert page * perPage == (page - 1) * perPage + perPage;
  }
}
