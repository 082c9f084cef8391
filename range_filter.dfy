/**
 * The date/hour range filter of the dashboard's update callback: the chosen
 * start and end dates and the two hours of the slider give one window of
 * instants, and the rows whose date lies in it are kept, in row order.
 */
module RangeFilter {
  import opened Series

  const SecondsPerHour: int := 3600
  const SecondsPerDay: int := 86400

  /** Midnight of the calendar day of `t` (what `Timestamp(end.date())` yields). */
  function TruncDay(t: int): (r: int)
    ensures r % SecondsPerDay == 0
    ensures r <= t < r + SecondsPerDay
  {
    t - t % SecondsPerDay
  }

  /** The closed interval [lo, hi] of instants a selection resolves to. */
  datatype Window = Window(lo: int, hi: int)

  /** Inclusive at both ends. */
  predicate InWindow(t: int, w: Window)
  {
    w.lo <= t <= w.hi
  }

  /**
   * The window of a selection with both dates present: the start instant as
   * given plus `hourLo` hours, up to midnight of the end's day plus `hourHi` hours.
   */
  function EffectiveWindow(start: int, end: int, hourLo: int, hourHi: int): (w: Window)
    ensures w.lo - hourLo * SecondsPerHour == start
    ensures (w.hi - hourHi * SecondsPerHour) % SecondsPerDay == 0
    ensures end - SecondsPerDay < w.hi - hourHi * SecondsPerHour <= end
  {
    Window(start + hourLo * SecondsPerHour, TruncDay(end) + hourHi * SecondsPerHour)
  }

  /**
   * The positions the boolean mask of `df.loc[...]` selects: every row whose
   * date is in the window, in increasing order, and no other.
   */
  function KeptIndices(s: Series, w: Window): (idx: seq<nat>)
    ensures |idx| <= |s|
    ensures IncreasingPositions(idx, |s|)
    ensures forall i :: 0 <= i < |s| ==> (i in idx <==> InWindow(s[i].date, w))
    decreases |s|
  {
    if s == [] then []
    else
      var prefix := KeptIndices(s[..|s| - 1], w);
      if InWindow(s[|s| - 1].date, w) then prefix + [|s| - 1] else prefix
  }

  /** The rows at the selected positions, in order. */
  function Filter(s: Series, w: Window): (r: Series)
    ensures |r| <= |s|
    ensures forall k :: 0 <= k < |r| ==> r[k] in s && InWindow(r[k].date, w)
  {
    var idx := KeptIndices(s, w);
    seq(|idx|, k requires 0 <= k < |idx| => s[idx[k]])
  }

  /** A row is kept exactly when it occurs in the series and its date is in the window. */
  lemma FilterMembership(s: Series, w: Window, p: PricePoint)
    ensures p in Filter(s, w) <==> p in s && InWindow(p.date, w)
  {
    var idx := KeptIndices(s, w);
    var r := Filter(s, w);
    if p in r {
      var k :| 0 <= k < |r| && r[k] == p;
      assert s[idx[k]] == p;
      assert idx[k] in idx;
    }
    if p in s && InWindow(p.date, w) {
      var i :| 0 <= i < |s| && s[i] == p;
      assert i in idx;
      var k :| 0 <= k < |idx| && idx[k] == i;
      assert r[k] == p;
    }
  }

  /** Filtering keeps rows in their original relative order. */
  lemma FilterPreservesOrder(s: Series, w: Window)
    ensures OrderPreservingSubsequence(Filter(s, w), s)
    ensures |Filter(s, w)| == |KeptIndices(s, w)|
    ensures forall k :: 0 <= k < |Filter(s, w)| ==> Filter(s, w)[k] == s[KeptIndices(s, w)[k]]
  {
  }

  /** A series sorted by date stays sorted once filtered. */
  lemma FilterKeepsSorted(s: Series, w: Window)
    requires Sorted(s)
    ensures Sorted(Filter(s, w))
  {
  }

  /** Rows lying exactly on either bound of a non-empty window are kept. */
  lemma FilterKeepsBounds(s: Series, start: int, end: int, hourLo: int, hourHi: int, i: int)
    requires 0 <= i < |s|
    requires start + hourLo * SecondsPerHour <= TruncDay(end) + hourHi * SecondsPerHour
    requires s[i].date == start + hourLo * SecondsPerHour
          || s[i].date == TruncDay(end) + hourHi * SecondsPerHour
    ensures s[i] in Filter(s, EffectiveWindow(start, end, hourLo, hourHi))
  {
    FilterMembership(s, EffectiveWindow(start, end, hourLo, hourHi), s[i]);
  }

  /** A window whose bounds invert keeps nothing. */
  lemma InvertedWindowIsEmpty(s: Series, w: Window)
    requires w.lo > w.hi
    ensures Filter(s, w) == []
  {
    if Filter(s, w) != [] {
      FilterMembership(s, w, Filter(s, w)[0]);
    }
  }

  /**
   * Start and end on the same calendar day `d` (at midnight) with hours 9 to 17:
   * exactly the rows from 09:00 to 17:00 of that day are kept.
   */
  lemma SingleDayWindow(s: Series, d: int, p: PricePoint)
    requires d % SecondsPerDay == 0
    ensures EffectiveWindow(d, d, 9, 17) == Window(d + 9 * SecondsPerHour, d + 17 * SecondsPerHour)
    ensures p in Filter(s, EffectiveWindow(d, d, 9, 17))
        <==> p in s && d + 9 * SecondsPerHour <= p.date <= d + 17 * SecondsPerHour
  {
    assert TruncDay(d) == d;
    FilterMembership(s, EffectiveWindow(d, d, 9, 17), p);
  }

  /**
   * The hour range bounds only the first and the last day, not every day: a
   * row at least one day after the start and before the end's day is kept at
   * any hour, even one outside [hourLo, hourHi], and even when the hours are
   * inverted (hourLo > hourHi).
   */
  lemma HoursNotAppliedPerDay(s: Series, start: int, end: int, hourLo: int, hourHi: int, i: int)
    requires 0 <= hourLo <= 23 && 0 <= hourHi
    requires 0 <= i < |s|
    requires start + SecondsPerDay <= s[i].date < TruncDay(end)
    ensures s[i] in Filter(s, EffectiveWindow(start, end, hourLo, hourHi))
  {
    FilterMembership(s, EffectiveWindow(start, end, hourLo, hourHi), s[i]);
  }

  /**
   * The start instant is not truncated to its day: when it carries a time of
   * day, the hour offset is added on top of it, so a row at the start instant
   * itself is dropped whenever `hourLo` is positive.
   */
  lemma StartInstantDroppedForPositiveHourLo(s: Series, start: int, end: int, hourLo: int, hourHi: int, i: int)
    requires 0 <= i < |s| && s[i].date == start
    requires hourLo > 0
    ensures s[i] !in Filter(s, EffectiveWindow(start, end, hourLo, hourHi))
  {
  }
}
