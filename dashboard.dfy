/**
 * The update callback run on every change of the date picker or the hour
 * slider: choose the rows to show, build the figure and the statistics of
 * those rows, the statistics of the daily snapshot, and the latest price.
 */
module Dashboard {
  import opened Wrappers
  import opened Series
  import opened RangeFilter
  import opened Statistics
  import opened Chart

  /** The inputs of the callback: the picker's two (possibly unset) dates and the slider's hours. */
  datatype Selection = Selection(startDate: Option<int>, endDate: Option<int>, hourLo: int, hourHi: int)

  /**
   * Why the callback aborts: `iloc` indexing of an empty price column, either the
   * rows selected or the snapshot.
   */
  datatype UpdateError = EmptyRange | EmptySnapshot

  /** The four outputs: figure, panel of the selection, panel of the snapshot, latest price. */
  datatype Update = Update(figure: Figure, stats: Stats, stats24h: Stats, actualPrice: real)

  /**
   * The rows the figure and the first panel are about: the filtered rows when
   * both dates are set, otherwise every row.
   */
  function Considered(df: Series, sel: Selection): (r: Series)
    ensures |r| <= |df|
    ensures !(sel.startDate.Some? && sel.endDate.Some?) ==> r == df
  {
    if sel.startDate.Some? && sel.endDate.Some? then
      Filter(df, EffectiveWindow(sel.startDate.value, sel.endDate.value, sel.hourLo, sel.hourHi))
    else
      df
  }

  /** One run of the callback over the full series `df` and the snapshot `df18h`. */
  function UpdateData(df: Series, df18h: Series, sel: Selection): (r: Result<Update, UpdateError>)
    ensures r == Failure(EmptyRange) <==> Considered(df, sel) == []
    ensures r == Failure(EmptySnapshot) <==> Considered(df, sel) != [] && df18h == []
    ensures r.Success? ==>
              && r.value.figure == Project(Considered(df, sel))
              && r.value.stats == Summarize(Prices(Considered(df, sel)))
              && r.value.stats24h == Summarize(Prices(df18h))
              && df != [] && r.value.actualPrice == df[|df| - 1].price
  {
    var rows := Considered(df, sel);
    var figure := Project(rows);
    if rows == [] then Failure(EmptyRange)
    else if df18h == [] then Failure(EmptySnapshot)
    else Success(Update(figure, Summarize(Prices(rows)), Summarize(Prices(df18h)), df[|df| - 1].price))
  }

  /**
   * Without both dates the whole series is shown, whatever the slider holds:
   * any two such selections give the same outputs.
   */
  lemma FallbackIgnoresHours(df: Series, df18h: Series, sel1: Selection, sel2: Selection)
    requires sel1.startDate.None? || sel1.endDate.None?
    requires sel2.startDate.None? || sel2.endDate.None?
    ensures Considered(df, sel1) == df
    ensures UpdateData(df, df18h, sel1) == UpdateData(df, df18h, sel2)
  {
  }

  /** With both dates set, the rows shown are exactly those of the series inside the effective window. */
  lemma SelectedRows(df: Series, sel: Selection, p: PricePoint)
    requires sel.startDate.Some? && sel.endDate.Some?
    ensures p in Considered(df, sel)
        <==> p in df && InWindow(p.date, EffectiveWindow(sel.startDate.value, sel.endDate.value, sel.hourLo, sel.hourHi))
  {
    FilterMembership(df, EffectiveWindow(sel.startDate.value, sel.endDate.value, sel.hourLo, sel.hourHi), p);
  }

  /** The rows shown always keep the order they have in the full series. */
  lemma ConsideredPreservesOrder(df: Series, sel: Selection)
    ensures OrderPreservingSubsequence(Considered(df, sel), df)
  {
    if sel.startDate.Some? && sel.endDate.Some? {
      FilterPreservesOrder(df, EffectiveWindow(sel.startDate.value, sel.endDate.value, sel.hourLo, sel.hourHi));
    } else {
      var idx := seq(|df|, i requires 0 <= i < |df| => i as nat);
      assert |idx| == |df| && IncreasingPositions(idx, |df|);
    }
  }

  /**
   * The snapshot panel depends on the snapshot only: changing the dates or
   * the hours never changes it, nor the latest price.
   */
  lemma SnapshotAndLatestPriceIndependent(df: Series, df18h: Series, sel1: Selection, sel2: Selection)
    ensures var r1, r2 := UpdateData(df, df18h, sel1), UpdateData(df, df18h, sel2);
            r1.Success? && r2.Success? ==>
              r1.value.stats24h == r2.value.stats24h && r1.value.actualPrice == r2.value.actualPrice
  {
  }

  /**
   * The latest price is read from the full series even when the selection
   * ends earlier: with a row on day 0 and one on day 2 and the picker set to
   * day 0 alone, the chart ends at the first price while the latest price is
   * the second.
   */
  lemma LatestPriceNotLastShown()
    ensures var df := [PricePoint(0, 1.0), PricePoint(2 * SecondsPerDay, 2.0)];
            var r := UpdateData(df, df, Selection(Some(0), Some(0), 0, 23));
            && r.Success?
            && r.value.figure.y == [1.0]
            && r.value.actualPrice == 2.0
  {
  }

  /** The selection's panel reports bounds that hold for every row shown. */
  lemma PanelBoundsShownRows(df: Series, df18h: Series, sel: Selection, i: int)
    requires df18h != []
    requires 0 <= i < |Considered(df, sel)|
    ensures UpdateData(df, df18h, sel).Success?
    ensures var r := UpdateData(df, df18h, sel).value;
            r.stats.min <= Considered(df, sel)[i].price <= r.stats.max
  {
    assert Prices(Considered(df, sel))[i] == Considered(df, sel)[i].price;
  }
}
