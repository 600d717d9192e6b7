/** Page arithmetic shared by the program and student directories: ten rows
    per page, `Array.prototype.slice`, and the Prev/Next updaters. */
module Paging {

  const RowsPerPage: nat := 10

  function Min(a: int, b: int): int { if a <= b then a else b }
  function Max(a: int, b: int): int { if a >= b then a else b }

  /** `Math.ceil(n / d)` for a non-negative `n`. */
  function CeilDiv(n: nat, d: nat): (r: nat)
    requires d > 0
    ensures r * d >= n
    ensures n == 0 ==> r == 0
    ensures n > 0 ==> (r - 1) * d < n
  {
    (n + d - 1) / d
  }

  /** `s.slice(start, end)`: a negative bound counts from the end, and both
      bounds are clamped to the sequence. */
  function JsSlice<T>(s: seq<T>, start: int, end: int): (r: seq<T>)
    ensures |r| <= |s|
    ensures 0 <= start && 0 <= end ==>
      r == s[Min(start, |s|)..Max(Min(start, |s|), Min(end, |s|))]
  {
    var from := if start < 0 then Max(|s| + start, 0) else Min(start, |s|);
    var to := if end < 0 then Max(|s| + end, 0) else Min(end, |s|);
    if from < to then s[from..to] else []
  }

  /** Rows `[(page - 1) * 10, page * 10)` of `s`, as both directories slice them. */
  function PageSlice<T>(s: seq<T>, page: int): (r: seq<T>)
  {
    JsSlice(s, (page - 1) * RowsPerPage, page * RowsPerPage)
  }

  /** A page from 1 on holds at most ten rows: the ones from its first index up
      to its last, clipped to the list. */
  lemma PageSliceBounds<T>(s: seq<T>, page: int)
    requires page >= 1
    ensures |PageSlice(s, page)| <= RowsPerPage
    ensures PageSlice(s, page) == s[Min((page - 1) * RowsPerPage, |s|)..Min(page * RowsPerPage, |s|)]
    ensures (page - 1) * RowsPerPage < |s| <==> PageSlice(s, page) != []
  {
  }

  /** Pages 1 to k, one after the other. */
  function PagesUpTo<T>(s: seq<T>, k: nat): seq<T> {
    if k == 0 then [] else PagesUpTo(s, k - 1) + PageSlice(s, k)
  }

  /** Reading pages 1 to k in order gives the first `10 * k` rows, so the pages
      up to `ceil(n / 10)` show every row exactly once and in order. */
  lemma {:induction false} PagesUpToIsPrefix<T>(s: seq<T>, k: nat)
    ensures PagesUpTo(s, k) == s[..Min(k * RowsPerPage, |s|)]
  {
    if k > 0 {
      PagesUpToIsPrefix(s, k - 1);
      PageSliceBounds(s, k);
      assert s[..Min((k - 1) * RowsPerPage, |s|)] + s[Min((k - 1) * RowsPerPage, |s|)..Min(k * RowsPerPage, |s|)]
          == s[..Min(k * RowsPerPage, |s|)];
    }
  }

  lemma PagesCoverAll<T>(s: seq<T>)
    ensures PagesUpTo(s, CeilDiv(|s|, RowsPerPage)) == s
  {
    PagesUpToIsPrefix(s, CeilDiv(|s|, RowsPerPage));
  }

  /** The Prev button: `Math.max(prev - 1, 1)`. */
  function PrevPage(page: int): (r: int)
    ensures r >= 1
    ensures page >= 1 ==> r <= page
    ensures r < page <==> page > 1
  {
    Max(page - 1, 1)
  }

  /** The Next button: `prev < last ? prev + 1 : prev`. */
  function NextPage(page: int, last: int): (r: int)
    ensures r >= page
    ensures page <= last ==> r <= last
    ensures r > page <==> page < last
  {
    if page < last then page + 1 else page
  }
}
