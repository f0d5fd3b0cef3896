/** The trend chart under the table (`filter_graph_data`,
    `filter_graph_data_weekly`, and the series choice of `generate_figure`):
    one segment's rows inside the graph window, split into the pilot rows the
    user selected and the other pilot rows. */
module Trend {
  import opened Common
  import opened Calendar
  import opened Records
  import Registry
  import opened Window
  import opened Selection

  /** What a trend filter returns: the matching baseline rows and the
      unselected and selected pilot rows; or the "empty" triple the source
      returns when there is nothing to plot (whose third element is the
      `DataFrame` class itself rather than an empty frame). */
  datatype Series<R> =
    | NoData
    | Series(baseline: seq<BaselineRow>, unselected: seq<R>, selected: seq<R>)

  /** The segment the chart is for: street, period, day type, direction. */
  datatype Segment = Segment(street: string, direction: string, dayType: string, period: string)

  predicate OnSegment(row: Measurement, g: Segment) {
    row.street == g.street && row.period == g.period && row.dayType == g.dayType && row.direction == g.direction
  }

  predicate BaselineOnSegment(b: BaselineRow, g: Segment) {
    b.street == g.street && b.period == g.period && b.dayType == g.dayType && b.direction == g.direction
  }

  /** A daily row the chart considers: on the segment and inside the window. */
  predicate Plotted(row: Measurement, g: Segment, w: Window) {
    OnSegment(row, g) && InWindow(row.date, w)
  }

  /** The masks of the trend filters, as functions on rows. */
  function PlottedMask(g: Segment, w: Window): Measurement -> bool {
    x => Plotted(x, g, w)
  }

  function PilotMask(): Measurement -> bool {
    (x: Measurement) => x.category == PilotCategory
  }

  function SelectedMask(sel: Records.Selection): Measurement -> bool {
    x => SelectedData(x, sel)
  }

  function BaselineMask(g: Segment): BaselineRow -> bool {
    b => BaselineOnSegment(b, g)
  }

  /** `filter_graph_data`. Errors of the window resolver propagate; no
      plotted row or no baseline row gives NoData; otherwise the plotted
      pilot-category rows are split by the selection. */
  function FilterGraphData(data: seq<Measurement>, baseline: seq<BaselineRow>, g: Segment, sel: Records.Selection,
                           range: DataRange, weeks: seq<PeriodEntry>, months: seq<PeriodEntry>): (r: Result<Series<Measurement>, Error>)
    requires InputsValid(sel, range, weeks, months)
    ensures r.Err? <==> GraphBounds(sel, range, weeks, months).Err?
    ensures r.Err? ==> r.error == GraphBounds(sel, range, weeks, months).error
    ensures r.Ok? ==> var w := GraphBounds(sel, range, weeks, months).value;
      r.value.NoData? <==>
        (forall x :: x in data ==> !Plotted(x, g, w)) || (forall b :: b in baseline ==> !BaselineOnSegment(b, g))
    ensures r.Ok? && r.value.Series? ==> var w := GraphBounds(sel, range, weeks, months).value;
      && (forall b :: b in r.value.baseline <==> b in baseline && BaselineOnSegment(b, g))
      && r.value.baseline == Filter(baseline, BaselineMask(g))
      && IsSplit(r.value.unselected, r.value.selected, Filter(data, PlottedMask(g, w)), PilotMask(), SelectedMask(sel))
    ensures r.Ok? ==> WellFormed(r.value)
  {
    var bounds := GraphBounds(sel, range, weeks, months);
    if bounds.Err? then Err(bounds.error)
    else
      var w := bounds.value;
      var daily := Filter(data, PlottedMask(g, w));
      var base := Filter(baseline, BaselineMask(g));
      if |daily| == 0 || |base| == 0 then
        Ok(NoData)
      else
        assert daily[0] in daily && base[0] in base;
        var (unselected, selected) := Split(daily, PilotMask(), SelectedMask(sel));
        Ok(Series(base, unselected, selected))
  }

  // ---------------------------------------------------------------------
  // Alternate routes

  predicate WeeklyOnSegment(row: WeeklyMeasurement, g: Segment) {
    row.street == g.street && row.period == g.period && row.dayType == g.dayType && row.direction == g.direction
  }

  /** A weekly row the chart considers: on the segment, in one of the tab's
      directions, and with its whole week inside the window (the week's end
      must come strictly before the window's end). */
  predicate WeeklyPlotted(row: WeeklyMeasurement, g: Segment, o: Registry.Orientation, w: Window) {
    WeeklyOnSegment(row, g) && row.direction in Registry.Directions(o)
    && OnOrBefore(w.start, row.startWeek) && Before(row.endWeek, w.end)
  }

  predicate WeeklyBaselineOnSegment(b: BaselineRow, g: Segment, o: Registry.Orientation) {
    BaselineOnSegment(b, g) && b.direction in Registry.Directions(o)
  }

  function WeeklyPlottedMask(g: Segment, o: Registry.Orientation, w: Window): WeeklyMeasurement -> bool {
    x => WeeklyPlotted(x, g, o, w)
  }

  function WeeklyPilotMask(): WeeklyMeasurement -> bool {
    (x: WeeklyMeasurement) => x.category == PilotCategory
  }

  function WeeklySelectedMask(sel: Records.Selection): WeeklyMeasurement -> bool
    requires SelectsWeekly(sel)
  {
    x => SelectedDataAlternate(x, sel)
  }

  function WeeklyBaselineMask(g: Segment, o: Registry.Orientation): BaselineRow -> bool {
    b => WeeklyBaselineOnSegment(b, g, o)
  }

  /** `filter_graph_data_weekly`. As the daily filter, with the tab's
      directions and the week bounds; 'Last Day' and 'Select Date' yield two
      empty pilot series since the data is weekly. */
  function FilterGraphDataWeekly(data: seq<WeeklyMeasurement>, baseline: seq<BaselineRow>, g: Segment, o: Registry.Orientation,
                                 sel: Records.Selection, range: DataRange, weeks: seq<PeriodEntry>, months: seq<PeriodEntry>)
    : (r: Result<Series<WeeklyMeasurement>, Error>)
    requires InputsValid(sel, range, weeks, months)
    ensures r.Err? <==> GraphBounds(sel, range, weeks, months).Err?
    ensures r.Err? ==> r.error == GraphBounds(sel, range, weeks, months).error
    ensures r.Ok? ==> var w := GraphBounds(sel, range, weeks, months).value;
      r.value.NoData? <==>
        (forall x :: x in data ==> !WeeklyPlotted(x, g, o, w)) || (forall b :: b in baseline ==> !WeeklyBaselineOnSegment(b, g, o))
    ensures r.Ok? && r.value.Series? ==>
      && (forall b :: b in r.value.baseline <==> b in baseline && WeeklyBaselineOnSegment(b, g, o))
      && r.value.baseline == Filter(baseline, WeeklyBaselineMask(g, o))
    ensures r.Ok? && r.value.Series? && !SelectsWeekly(sel) ==> r.value.unselected == [] && r.value.selected == []
    ensures r.Ok? && r.value.Series? && SelectsWeekly(sel) ==> var w := GraphBounds(sel, range, weeks, months).value;
      IsSplit(r.value.unselected, r.value.selected, Filter(data, WeeklyPlottedMask(g, o, w)), WeeklyPilotMask(), WeeklySelectedMask(sel))
    ensures r.Ok? ==> WellFormed(r.value)
  {
    var bounds := GraphBounds(sel, range, weeks, months);
    if bounds.Err? then Err(bounds.error)
    else
      var w := bounds.value;
      var weekly := Filter(data, WeeklyPlottedMask(g, o, w));
      var base := Filter(baseline, WeeklyBaselineMask(g, o));
      if |weekly| == 0 || |base| == 0 then
        Ok(NoData)
      else
        assert weekly[0] in weekly && base[0] in base;
        if !SelectsWeekly(sel) then Ok(Series(base, [], []))
        else
          var (unselected, selected) := Split(weekly, WeeklyPilotMask(), WeeklySelectedMask(sel));
          Ok(Series(base, unselected, selected))
  }

  // ---------------------------------------------------------------------
  // The figure's series

  /** A bar trace: its legend name and the rows it draws. */
  datatype Trace<R> = Trace(name: string, bars: seq<R>)

  /** The chart's content: the baseline level drawn as a line and the bar
      traces, in drawing order. */
  datatype Chart<R> = Chart(baselineLevel: real, traces: seq<Trace<R>>)

  /** A series as its producers return it: a real result always carries a
      baseline row (the chart reads the first one's travel time). */
  predicate WellFormed<R>(s: Series<R>) {
    s.Series? ==> |s.baseline| > 0
  }

  /** The series choice of `generate_figure`: no chart when both pilot
      series are empty (the sentinel counts as empty); otherwise a
      "Lane Closure" trace when there are unselected rows, then always the
      "Selected" trace, over the first baseline row's level. */
  function GenerateFigure<R>(s: Series<R>): (r: Option<Chart<R>>)
    requires WellFormed(s)
    ensures r.None? <==> s.NoData? || (|s.unselected| == 0 && |s.selected| == 0)
    ensures r.Some? ==>
      && r.value.baselineLevel == s.baseline[0].tt
      && |r.value.traces| > 0
      && r.value.traces[|r.value.traces| - 1] == Trace("Selected", s.selected)
      && (|r.value.traces| == 2 <==> |s.unselected| > 0)
      && (|s.unselected| > 0 ==> r.value.traces[0] == Trace("Lane Closure", s.unselected))
      && |r.value.traces| <= 2
  {
    if s.NoData? then None
    else if |s.unselected| == 0 && |s.selected| == 0 then None
    else
      var closure := if |s.unselected| > 0 then [Trace("Lane Closure", s.unselected)] else [];
      Some(Chart(s.baseline[0].tt, closure + [Trace("Selected", s.selected)]))
  }

  /** On the daily tab, a chart is drawn exactly when the segment has a
      pilot row inside the window and a baseline row. */
  lemma DailyFigureDrawn(data: seq<Measurement>, baseline: seq<BaselineRow>, g: Segment, sel: Records.Selection,
                         range: DataRange, weeks: seq<PeriodEntry>, months: seq<PeriodEntry>)
    requires InputsValid(sel, range, weeks, months)
    requires FilterGraphData(data, baseline, g, sel, range, weeks, months).Ok?
    ensures var s := FilterGraphData(data, baseline, g, sel, range, weeks, months).value;
            var w := GraphBounds(sel, range, weeks, months).value;
            GenerateFigure(s).Some? <==>
              (exists x :: x in data && Plotted(x, g, w) && x.category == PilotCategory)
              && (exists b :: b in baseline && BaselineOnSegment(b, g))
  {
    var s := FilterGraphData(data, baseline, g, sel, range, weeks, months).value;
    var w := GraphBounds(sel, range, weeks, months).value;
    SeriesDrawn(data, baseline, g, sel, w, s);
  }

  /** The same, for any series the daily filter's contract describes. */
  lemma SeriesDrawn(data: seq<Measurement>, baseline: seq<BaselineRow>, g: Segment, sel: Records.Selection,
                    w: Window, s: Series<Measurement>)
    requires WellFormed(s)
    requires s.NoData? <==> (forall x :: x in data ==> !Plotted(x, g, w)) || (forall b :: b in baseline ==> !BaselineOnSegment(b, g))
    requires s.Series? ==> IsSplit(s.unselected, s.selected, Filter(data, PlottedMask(g, w)), PilotMask(), SelectedMask(sel))
    ensures GenerateFigure(s).Some? <==>
              (exists x :: x in data && Plotted(x, g, w) && x.category == PilotCategory)
              && (exists b :: b in baseline && BaselineOnSegment(b, g))
  {
    if s.Series? {
      if |s.unselected| > 0 {
        assert s.unselected[0] in s.unselected;
      } else if |s.selected| > 0 {
        assert s.selected[0] in s.selected;
      }
    }
  }

  /** On an alternate-route tab, 'Last Day' and 'Select Date' never draw a
      chart. */
  lemma WeeklyDailyTypesHaveNoFigure(data: seq<WeeklyMeasurement>, baseline: seq<BaselineRow>, g: Segment, o: Registry.Orientation,
                                     sel: Records.Selection, range: DataRange, weeks: seq<PeriodEntry>, months: seq<PeriodEntry>)
    requires InputsValid(sel, range, weeks, months)
    requires sel.LastDay? || sel.SelectDate?
    ensures FilterGraphDataWeekly(data, baseline, g, o, sel, range, weeks, months).Ok?
    ensures var s := FilterGraphDataWeekly(data, baseline, g, o, sel, range, weeks, months).value;
            WellFormed(s) && GenerateFigure(s).None?
  {
  }
}
