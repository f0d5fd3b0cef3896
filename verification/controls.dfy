/** The callbacks that turn the dashboard's controls into a table and a
    chart selection: the day type a picked date implies, the date-range
    dropdown's value, which controls are visible, the row highlight, and the
    range type and id the table and the charts are built for. */
module Controls {
  import opened Common
  import opened Calendar
  import opened Records
  import Registry
  import opened Selection
  import opened Table
  import Window
  import Trend

  /** A control's CSS `display`: 'inline' or 'none'. */
  datatype Display = Inline | Hidden

  // ---------------------------------------------------------------------
  // Day type

  /** `update_day_type`: with 'Select Date', the picked date's day type
      (Saturday and Sunday, weekday 5 and 6, are the weekend); with any
      other type the current day type is kept. An out-of-range code is an
      IndexError. */
  function UpdateDayType(picked: Date, code: int, dayType: string): (r: Result<string, Error>)
    requires Valid(picked)
    ensures r.Err? <==> Registry.RangeTypeAt(code).None?
    ensures r.Err? ==> r.error == RangeTypeOutOfRange
    ensures r.Ok? && Registry.RangeTypeAt(code) == Some(Registry.SelectDate) ==>
              (r.value == "Weekend" <==> Weekday(picked) > 4) && (r.value == "Weekday" <==> Weekday(picked) <= 4)
    ensures r.Ok? && Registry.RangeTypeAt(code) != Some(Registry.SelectDate) ==> r.value == dayType
  {
    match Registry.RangeTypeAt(code)
    case None => Err(RangeTypeOutOfRange)
    case Some(t) =>
      if t == Registry.SelectDate then Ok(if Weekday(picked) > 4 then "Weekend" else "Weekday")
      else Ok(dayType)
  }

  /** Seven-day arithmetic: `k` days past a day numbered 0 is day `k`. */
  lemma WeekdayStep(o: int, k: int)
    requires (o + 6) % 7 == 0 && 0 <= k < 7
    ensures (o + k + 6) % 7 == k
  {
    var q := (o + 6) / 7;
    assert o + 6 == 7 * q;
    assert o + k + 6 == 7 * q + k;
  }

  /** The weekday `k` days after a Monday is `k`, within the week. */
  lemma WeekdayAfterMonday(m: Date, k: int)
    requires Valid(m) && Weekday(m) == 0 && 0 <= k < 7
    ensures Weekday(AddDays(m, k)) == k
  {
    WeekdayStep(Ordinal(m), k);
  }

  /** Picking the days of a week one by one gives five weekdays and then two
      weekend days. */
  lemma PickedWeekDayTypes(m: Date, k: int, dayType: string)
    requires Valid(m) && Weekday(m) == 0 && 0 <= k < 7
    ensures UpdateDayType(AddDays(m, k), 1, dayType) == Ok(if k < 5 then "Weekday" else "Weekend")
  {
    WeekdayAfterMonday(m, k);
  }

  // ---------------------------------------------------------------------
  // Date-range dropdown

  /** `len(RANGES[t])`: the daily types have no list (an empty frame). */
  function RangeSize(t: Registry.RangeType, weeks: seq<PeriodEntry>, months: seq<PeriodEntry>): nat {
    match t
    case LastDay => 0
    case SelectDate => 0
    case SelectWeek => |weeks|
    case SelectMonth => |months|
  }

  /** `update_date_range_value`: the dropdown keeps its value when the new
      type has a non-empty list and the value does not exceed the list's
      length, and falls back to 1 otherwise. */
  function UpdateDateRangeValue(code: int, id: int, weeks: seq<PeriodEntry>, months: seq<PeriodEntry>): (r: Result<int, Error>)
    ensures r.Err? <==> Registry.RangeTypeAt(code).None?
    ensures r.Err? ==> r.error == RangeTypeOutOfRange
    ensures r.Ok? ==> var n := RangeSize(Registry.RangeTypeAt(code).value, weeks, months);
      && (n > 0 && id <= n ==> r.value == id)
      && (n == 0 || id > n ==> r.value == 1)
      && (n > 0 ==> r.value <= n)
  {
    match Registry.RangeTypeAt(code)
    case None => Err(RangeTypeOutOfRange)
    case Some(t) =>
      var n := RangeSize(t, weeks, months);
      if n > 0 && id <= n then Ok(id) else Ok(1)
  }

  /** Applying the rule to its own result changes nothing. */
  lemma DateRangeValueSettles(code: int, id: int, weeks: seq<PeriodEntry>, months: seq<PeriodEntry>)
    requires UpdateDateRangeValue(code, id, weeks, months).Ok?
    ensures var v := UpdateDateRangeValue(code, id, weeks, months).value;
            UpdateDateRangeValue(code, v, weeks, months) == Ok(v)
  {
  }

  /** With a daily type the dropdown always holds 1. */
  lemma DailyTypesResetDropdown(code: int, id: int, weeks: seq<PeriodEntry>, months: seq<PeriodEntry>)
    requires 0 <= code < 2
    ensures UpdateDateRangeValue(code, id, weeks, months) == Ok(1)
  {
  }

  // ---------------------------------------------------------------------
  // Visibility

  /** `hide_reveal_date_range`: the week/month dropdown shows for codes above 1. */
  function HideRevealDateRange(code: int): (d: Display)
    ensures d == Inline <==> code > 1
  {
    if code > 1 then Inline else Hidden
  }

  /** `hide_reveal_day_types`: the day-type control hides for code 1 only. */
  function HideRevealDayTypes(code: int): (d: Display)
    ensures d == Inline <==> code != 1
  {
    if code != 1 then Inline else Hidden
  }

  /** `hide_reveal_date_picker`: the date picker shows for code 1 only. */
  function HideRevealDatePicker(code: int): (d: Display)
    ensures d == Inline <==> code == 1
  {
    if code == 1 then Inline else Hidden
  }

  /** For each of the four types, the controls shown are the ones its id
      comes from: the picker for 'Select Date' (whose date also fixes the day
      type), the dropdown for weeks and months, neither for 'Last Day'. */
  lemma ControlsMatchRangeType(code: int)
    requires 0 <= code < |Registry.RangeTypes|
    ensures HideRevealDatePicker(code) == Inline <==> Registry.RangeTypeAt(code) == Some(Registry.SelectDate)
    ensures HideRevealDateRange(code) == Inline <==>
              Registry.RangeTypeAt(code) == Some(Registry.SelectWeek) || Registry.RangeTypeAt(code) == Some(Registry.SelectMonth)
    ensures HideRevealDayTypes(code) == Inline <==> HideRevealDatePicker(code) == Hidden
    ensures !(HideRevealDatePicker(code) == Inline && HideRevealDateRange(code) == Inline)
  {
  }

  /** `hide_reveal_filters`: the filters show when the button reads
      'Show Filters' at the click. */
  function HideRevealFilters(toggle: string): (d: Display)
    ensures d == Inline <==> toggle == "Show Filters"
  {
    if toggle == "Show Filters" then Inline else Hidden
  }

  /** `change_button_text`. */
  function ChangeButtonText(toggle: string): (t: string)
    ensures toggle == "Hide Filters" ==> t == "Show Filters"
    ensures toggle != "Hide Filters" ==> t == "Hide Filters"
  {
    if toggle == "Hide Filters" then "Show Filters" else "Hide Filters"
  }

  /** From either of its two texts, a click flips the button and the filters
      together: they show exactly when the button then offers to hide them,
      and a second click restores the text. */
  lemma FilterToggle(toggle: string)
    requires toggle == "Show Filters" || toggle == "Hide Filters"
    ensures HideRevealFilters(toggle) == Inline <==> ChangeButtonText(toggle) == "Hide Filters"
    ensures ChangeButtonText(ChangeButtonText(toggle)) == toggle
  {
  }

  /** `display_streets`: the street layout shows on the DVP tab only. */
  function DisplayStreets(tabName: string): (d: Display)
    ensures d == Inline <==> tabName == Registry.Name(Registry.NS)
  {
    if tabName == "ns" then Inline else Hidden
  }

  /** `update_clicked_row`: a row is highlighted when the store holds its
      id; an empty store (falsy) highlights nothing. */
  function UpdateClickedRow(streetName: string, street: Picked): (c: string)
    ensures c == "selected" <==> street.Clicked? && street.name != "" && street.name == streetName
    ensures c == "notselected" <==> !(street.Clicked? && street.name != "" && street.name == streetName)
  {
    var truthy := if street.Initial? then |street.names| > 0 else street.name != "";
    if truthy then GenerateRowClass(Picks(street, streetName)) else GenerateRowClass(false)
  }

  // ---------------------------------------------------------------------
  // The table callback

  /** The range type and id `update_table` hands to `generate_table`: the
      picked date for 'Select Date' on the DVP tab, week 1 for the daily
      types on the other tabs, the dropdown's value otherwise. */
  function TableControls(o: Registry.Orientation, code: int, dropdown: int, picked: Date): (r: (int, RangeId))
    ensures o == Registry.NS ==> r.0 == code && (r.1.DateId? <==> code == 1)
    ensures o == Registry.NS && code == 1 ==> r.1 == DateId(picked)
    ensures o == Registry.NS && code != 1 ==> r.1 == NumberId(dropdown)
    ensures Registry.IsAlternate(o) && code < 2 ==> r == (2, NumberId(1))
    ensures Registry.IsAlternate(o) && code >= 2 ==> r == (code, NumberId(dropdown))
  {
    if o == Registry.NS then (code, if code == 1 then DateId(picked) else NumberId(dropdown))
    else if code < 2 then (2, NumberId(1))
    else (code, NumberId(dropdown))
  }

  /** `update_table`: the table for the tab's registry entry and its
      selected-street store. The DVP tab passes no main street (index 0). */
  function UpdateTable(db: Snapshot, period: string, dayType: string, code: int, dropdown: int, mainStreetId: int,
                       picked: Date, o: Registry.Orientation, selected: Picked): (r: Result<Table, Error>)
    ensures r.Ok? ==> r.value.directions == Registry.Directions(o)
    ensures r.Ok? ==> forall k :: 0 <= k < |r.value.rows| ==>
              (r.value.rows[k].rowClass == "selected" <==> Picks(selected, StreetText(r.value.rows[k].id)))
  {
    var (c, i) := TableControls(o, code, dropdown, picked);
    GenerateTable(db, selected, dayType, period, Registry.TabOf(o), c, i, if o == Registry.NS then 0 else mainStreetId)
  }

  /** With 'Select Date' on the DVP tab the table is headed by the picked
      date. */
  lemma PickedDateHeadsTable(db: Snapshot, period: string, dayType: string, dropdown: int, mainStreetId: int,
                             picked: Date, o: Registry.Orientation, selected: Picked, t: Table)
    requires o == Registry.NS
    requires UpdateTable(db, period, dayType, 1, dropdown, mainStreetId, picked, o, selected) == Ok(t)
    ensures t.header == DayHeader(picked)
  {
    var tab := Registry.TabOf(o);
    assert TableControls(o, 1, dropdown, picked) == (1, DateId(picked));
    assert TableRange(tab, 1, DateId(picked)) == (1, DateId(picked));
    SelectionRoundTrip(SelectDate(picked));
    DayHeaderIsDataDate(db, selected, dayType, period, tab, 1, DateId(picked), 0, SelectDate(picked), t);
    var m :| m in db.data && KeepsDaily(m, period, dayType, tab, SelectDate(picked)) && m.date == t.header.date;
    assert SelectedData(m, SelectDate(picked));
  }

  /** So every non-empty labelled row of an `update_table` result is
      highlighted exactly when `update_clicked_row` would highlight it. */
  lemma UpdateTableHighlight(db: Snapshot, period: string, dayType: string, code: int, dropdown: int,
                             mainStreetId: int, picked: Date, o: Registry.Orientation, selected: Picked, t: Table, i: int)
    requires UpdateTable(db, period, dayType, code, dropdown, mainStreetId, picked, o, selected) == Ok(t)
    requires 0 <= i < |t.rows| && t.rows[i].id.Some? && t.rows[i].id.value != ""
    ensures t.rows[i].rowClass == "selected" <==> UpdateClickedRow(t.rows[i].id.value, selected) == "selected"
  {
  }

  // ---------------------------------------------------------------------
  // The chart callback's selection

  /** The selection `update_graph` hands to the chart, as written: for the
      alternate-route tabs a daily type becomes 'Select Week', but the id
      reset is assigned to a name the call never reads, so the dropdown's
      value is used. */
  function GraphSelectionAsWritten(o: Registry.Orientation, code: int, dropdown: int, picked: Date): (r: Result<Records.Selection, Error>)
    ensures Registry.IsAlternate(o) && code < 2 ==> r == Ok(SelectWeek(dropdown))
    ensures !(Registry.IsAlternate(o) && code < 2) ==> r == SelectionFor(code, if code == 1 then DateId(picked) else NumberId(dropdown))
  {
    var c := if code < 2 && Registry.IsAlternate(o) then 2 else code;
    SelectionFor(c, if c == 1 then DateId(picked) else NumberId(dropdown))
  }

  /** The chart's selection with the reset applied: week 1 for a daily type
      on the alternate-route tabs. */
  function GraphSelection(o: Registry.Orientation, code: int, dropdown: int, picked: Date): (r: Result<Records.Selection, Error>)
    ensures Registry.IsAlternate(o) && code < 2 ==> r == Ok(SelectWeek(1))
    ensures !(Registry.IsAlternate(o) && code < 2) ==> r == GraphSelectionAsWritten(o, code, dropdown, picked)
  {
    var (c, i) := if code < 2 && Registry.IsAlternate(o) then (2, NumberId(1))
                  else (code, if code == 1 then DateId(picked) else NumberId(dropdown));
    SelectionFor(c, i)
  }

  /** The chart, corrected, shows the selection the table beside it uses. */
  lemma GraphMatchesTable(o: Registry.Orientation, code: int, dropdown: int, picked: Date)
    ensures var (c, i) := TableControls(o, code, dropdown, picked);
            var (c', i') := TableRange(Registry.TabOf(o), c, i);
            GraphSelection(o, code, dropdown, picked) == SelectionFor(c', i')
  {
    var tab := Registry.TabOf(o);
    var (c, i) := TableControls(o, code, dropdown, picked);
    if Registry.IsAlternate(o) && code < 2 {
      assert TableRange(tab, c, i) == (2, NumberId(1));
    } else {
      assert TableRange(tab, c, i) == (code, if code == 1 then DateId(picked) else NumberId(dropdown));
    }
  }

  /** As written, an alternate-route tab on 'Last Day' with the dropdown at
      5 charts week 5 while its table shows week 1. */
  lemma GraphShowsDropdownWeek(picked: Date)
    ensures GraphSelectionAsWritten(Registry.Alternate, 0, 5, picked) == Ok(SelectWeek(5))
    ensures GraphSelection(Registry.Alternate, 0, 5, picked) == Ok(SelectWeek(1))
    ensures var (c, i) := TableControls(Registry.Alternate, 0, 5, picked);
            SelectionFor(c, i) == Ok(SelectWeek(1))
  {
  }

  /** When the dropdown's value was set by `update_date_range_value` for the
      same daily type, it is 1 and the two versions agree. */
  lemma DropdownResetMasksGraphSelection(o: Registry.Orientation, code: int, previous: int, picked: Date,
                                         weeks: seq<PeriodEntry>, months: seq<PeriodEntry>)
    requires 0 <= code < 2
    ensures var dropdown := UpdateDateRangeValue(code, previous, weeks, months).value;
            GraphSelectionAsWritten(o, code, dropdown, picked) == GraphSelection(o, code, dropdown, picked)
  {
    DailyTypesResetDropdown(code, previous, weeks, months);
  }

  // ---------------------------------------------------------------------
  // The chart callback's street

  /** The street `update_graph` charts, as written: `street[0]` of the
      tab's store. The initial one-element list gives its street, but a
      clicked row's id is a string, so it gives the id's first character.
      An empty store raises IndexError (None). */
  function GraphStreetAsWritten(p: Picked): (r: Option<string>)
    ensures p.Initial? ==> (r.Some? <==> |p.names| > 0)
    ensures p.Clicked? ==> (r.Some? <==> p.name != "") && (r.Some? ==> |r.value| == 1 && r.value == p.name[..1])
  {
    match p
    case Initial(names) => if |names| > 0 then Some(names[0]) else None
    case Clicked(name) => if |name| > 0 then Some([name[0]]) else None
  }

  /** The street the chart should show: the initial list's street, or the
      clicked row's whole id. */
  function GraphStreet(p: Picked): (r: Option<string>)
    ensures p.Initial? ==> r == GraphStreetAsWritten(p)
    ensures forall text :: Picks(p, text) ==> r == Some(text)
  {
    match p
    case Initial(names) => if |names| > 0 then Some(names[0]) else None
    case Clicked(name) => Some(name)
  }

  /** Corrected, the chart shows the street whose table row is
      highlighted. */
  lemma ChartFollowsHighlight(db: Snapshot, period: string, dayType: string, code: int, dropdown: int,
                              mainStreetId: int, picked: Date, o: Registry.Orientation, selected: Picked, t: Table, i: int)
    requires UpdateTable(db, period, dayType, code, dropdown, mainStreetId, picked, o, selected) == Ok(t)
    requires 0 <= i < |t.rows| && t.rows[i].id.Some? && t.rows[i].rowClass == "selected"
    ensures GraphStreet(selected) == t.rows[i].id
  {
    assert Picks(selected, StreetText(t.rows[i].id));
  }

  /** As written, the chart never shows the highlighted street when its name
      is longer than one character. */
  lemma ChartMissesHighlight(db: Snapshot, period: string, dayType: string, code: int, dropdown: int,
                             mainStreetId: int, picked: Date, o: Registry.Orientation, selected: Picked, t: Table, i: int)
    requires UpdateTable(db, period, dayType, code, dropdown, mainStreetId, picked, o, selected) == Ok(t)
    requires 0 <= i < |t.rows| && t.rows[i].id.Some? && t.rows[i].rowClass == "selected"
    ensures |t.rows[i].id.value| > 1 ==> GraphStreetAsWritten(selected) != t.rows[i].id
  {
    assert Picks(selected, StreetText(t.rows[i].id));
  }

  /** Clicking the alternate-route tab's first row charts the street "B". */
  lemma ClickedBayviewChartsB()
    ensures var name := Registry.Streets(Registry.Alternate)[0];
            && name == "Bayview Between DVP and Eglinton"
            && GraphStreetAsWritten(Clicked(name)) == Some("B")
            && GraphStreet(Clicked(name)) == Some(name)
  {
  }

  /** As written, after any click the chart has no data whenever no
      baseline street is a single character: no baseline row lies on the
      one-character segment. */
  lemma ClickedChartHasNoData(data: seq<Measurement>, weekly: seq<WeeklyMeasurement>, baseline: seq<BaselineRow>,
                              name: string, direction: string, dayType: string, period: string, o: Registry.Orientation,
                              sel: Records.Selection, range: DataRange, weeks: seq<PeriodEntry>, months: seq<PeriodEntry>)
    requires Window.InputsValid(sel, range, weeks, months)
    requires name != ""
    requires forall b :: b in baseline ==> |b.street| != 1
    ensures var g := Trend.Segment(GraphStreetAsWritten(Clicked(name)).value, direction, dayType, period);
            && (Trend.FilterGraphData(data, baseline, g, sel, range, weeks, months).Ok? ==>
                  Trend.FilterGraphData(data, baseline, g, sel, range, weeks, months).value.NoData?)
            && (Trend.FilterGraphDataWeekly(weekly, baseline, g, o, sel, range, weeks, months).Ok? ==>
                  Trend.FilterGraphDataWeekly(weekly, baseline, g, o, sel, range, weeks, months).value.NoData?)
  {
  }
}
