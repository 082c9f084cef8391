/**
 * The price series shown by the dashboard: rows of (date, prix) in file order.
 * Dates are instants in whole seconds since the epoch (UTC), prices are exact reals.
 */
module Series {

  datatype PricePoint = PricePoint(date: int, price: real)

  type Series = seq<PricePoint>

  /** The price column, in row order. */
  function Prices(s: Series): (p: seq<real>)
    ensures |p| == |s|
  {
    seq(|s|, i requires 0 <= i < |s| => s[i].price)
  }

  /** Rows ascending by date, which the data files are expected to be. */
  ghost predicate Sorted(s: Series)
  {
    forall i, j :: 0 <= i < j < |s| ==> s[i].date <= s[j].date
  }

  /** `idx` lists positions of a sequence of length `n`, strictly increasing. */
  ghost predicate IncreasingPositions(idx: seq<nat>, n: nat)
  {
    && (forall k :: 0 <= k < |idx| ==> idx[k] < n)
    && (forall k, l :: 0 <= k < l < |idx| ==> idx[k] < idx[l])
  }

  /** `a` is obtained from `b` by dropping rows and keeping the others in order. */
  ghost predicate OrderPreservingSubsequence(a: Series, b: Series)
  {
    exists idx: seq<nat> ::
      && |idx| == |a|
      && IncreasingPositions(idx, |b|)
      && (forall k :: 0 <= k < |a| ==> a[k] == b[idx[k]])
  }
}
