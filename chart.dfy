/**
 * The figure handed to the line chart: one trace whose x are the dates and
 * whose y are the prices of the rows shown, and a fixed layout.
 */
module Chart {
  import opened Series

  const Title: string := "Graph du Sandbox (mis à jour toutes les 5 minutes)"
  const XAxisTitle: string := "Date (UTC)"
  const YAxisTitle: string := "Prix en $"
  const TraceType: string := "line"

  datatype Figure = Figure(x: seq<int>, y: seq<real>, traceType: string,
                           title: string, xAxisTitle: string, yAxisTitle: string)

  /** The figure for a series: its date and price columns, and the constant labels. */
  function Project(s: Series): (f: Figure)
    ensures |f.x| == |s| && |f.y| == |s|
    ensures f.traceType == TraceType && f.title == Title
    ensures f.xAxisTitle == XAxisTitle && f.yAxisTitle == YAxisTitle
  {
    Figure(seq(|s|, i requires 0 <= i < |s| => s[i].date), Prices(s),
           TraceType, Title, XAxisTitle, YAxisTitle)
  }

  /** The rows a figure plots: its x and y read pairwise. */
  function Plotted(f: Figure): (s: Series)
    requires |f.x| == |f.y|
  {
    seq(|f.x|, i requires 0 <= i < |f.x| => PricePoint(f.x[i], f.y[i]))
  }

  /** The chart plots exactly the rows of the series, in order: nothing lost, added or moved. */
  lemma ProjectRoundTrip(s: Series)
    ensures Plotted(Project(s)) == s
  {
  }

  /** Two series give the same figure only when they are the same series. */
  lemma ProjectInjective(s: Series, t: Series)
    requires Project(s) == Project(t)
    ensures s == t
  {
    ProjectRoundTrip(s);
    ProjectRoundTrip(t);
  }
}
