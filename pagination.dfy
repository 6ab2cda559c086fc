/**
 * The arithmetic of the post listing: `skip = (page - 1) * limit`,
 * `take = limit`, and `totalPages = Math.ceil(total / limit)` computed on
 * integers.  `Window` is what a query with that skip and take returns from an
 * ordered sequence.
 */
module Pagination {

  /** The number of rows skipped before the requested page. */
  function Skip(page: nat, limit: nat): nat
    requires page >= 1
  {
    (page - 1) * limit
  }

  /** `Math.ceil(total / limit)` for integers. */
  function TotalPages(total: nat, limit: nat): nat
    requires limit >= 1
  {
    (total + limit - 1) / limit
  }

  /** The rows a query with `skip: Skip(page, limit)` and `take: limit` returns from `s`. */
  function Window<T>(s: seq<T>, page: nat, limit: nat): (w: seq<T>)
    requires page >= 1
    ensures |w| <= limit
    ensures Skip(page, limit) >= |s| ==> w == []
    ensures Skip(page, limit) < |s| ==> |w| == Min(limit, |s| - Skip(page, limit))
    ensures forall k :: 0 <= k < |w| ==> Skip(page, limit) + k < |s| && w[k] == s[Skip(page, limit) + k]
  {
    var from := Min(Skip(page, limit), |s|);
    var to := Min(from + limit, |s|);
    s[from..to]
  }

  function Min(a: nat, b: nat): nat {
    if a <= b then a else b
  }

  /** `TotalPages` is the ceiling: the least page count whose pages can hold `total` rows. */
  lemma TotalPagesIsCeiling(total: nat, limit: nat)
    requires limit >= 1
    ensures TotalPages(total, limit) * limit >= total
    ensures TotalPages(total, limit) > 0 ==> (TotalPages(total, limit) - 1) * limit < total
    ensures TotalPages(total, limit) == 0 <==> total == 0
  {
    var n := TotalPages(total, limit);
    var r := (total + limit - 1) % limit;
    assert total + limit - 1 == n * limit + r;
    assert 0 <= r < limit;
    assert (n - 1) * limit == n * limit - limit;
  }

  /** Row `j` of `s` is on page `j / limit + 1`, which is a page the listing reports. */
  lemma RowOnItsPage<T>(s: seq<T>, j: nat, limit: nat)
    requires limit >= 1 && j < |s|
    ensures 1 <= j / limit + 1 <= TotalPages(|s|, limit)
    ensures j % limit < |Window(s, j / limit + 1, limit)|
    ensures Window(s, j / limit + 1, limit)[j % limit] == s[j]
  {
    var p := j / limit + 1;
    assert j == (j / limit) * limit + j % limit;
    assert Skip(p, limit) == (j / limit) * limit;
    assert Skip(p, limit) <= j;
    TotalPagesIsCeiling(|s|, limit);
  }

  lemma MulMonotone(a: nat, b: nat, c: nat)
    requires a <= b
    ensures a * c <= b * c
  {
  }

  /** A page after the last one is empty. */
  lemma PastLastPageEmpty<T>(s: seq<T>, page: nat, limit: nat)
    requires limit >= 1 && page > TotalPages(|s|, limit)
    ensures Window(s, page, limit) == []
  {
    TotalPagesIsCeiling(|s|, limit);
    MulMonotone(TotalPages(|s|, limit), page - 1, limit);
  }

  /** Every page before the last is full. */
  lemma EarlierPagesFull<T>(s: seq<T>, page: nat, limit: nat)
    requires limit >= 1 && 1 <= page < TotalPages(|s|, limit)
    ensures |Window(s, page, limit)| == limit
  {
    TotalPagesIsCeiling(|s|, limit);
    MulMonotone(page, TotalPages(|s|, limit) - 1, limit);
    assert Skip(page, limit) + limit == page * limit;
  }
}
