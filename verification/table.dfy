/** The before/after table (`filter_table_data`, the row assembly of
    `generate_table`, and the cell rules `after_cell_class`, `intstr` and
    `generate_row_class`). */
module Table {
  import opened Common
  import opened Calendar
  import opened Records
  import Registry
  import opened Selection
  import opened Pivot

  // ---------------------------------------------------------------------
  // Cells

  /** A table value: a travel time, or pandas' NaN. */
  datatype Cell = NaN | Num(value: real)

  /** `THRESHOLD`: the change in minutes a cell must exceed to be coloured. */
  const Threshold: real := 1.0

  /** `after_cell_class`: "worse" when the current value exceeds the
      baseline by more than the threshold, "better" when it is below it by
      more than the threshold, "same" otherwise, including exactly at the
      threshold and whenever either value is NaN (NaN compares false). */
  function AfterCellClass(before: Cell, after: Cell): (c: string)
    ensures c == "worse" <==> before.Num? && after.Num? && after.value - before.value > Threshold
    ensures c == "better" <==> before.Num? && after.Num? && after.value - before.value < -Threshold
    ensures c == "same" <==> before.NaN? || after.NaN? || -Threshold <= after.value - before.value <= Threshold
  {
    if before.NaN? || after.NaN? then "same"
    else if after.value - before.value > Threshold then "worse"
    else if after.value - before.value < -Threshold then "better"
    else "same"
  }

  /** Swapping the two values swaps "worse" and "better". */
  lemma AfterCellClassSwap(before: Cell, after: Cell)
    ensures AfterCellClass(before, after) == "worse" <==> AfterCellClass(after, before) == "better"
    ensures AfterCellClass(before, after) == "same" <==> AfterCellClass(after, before) == "same"
  {
  }

  /** What a cell shows: `str` of a positive value, or the value itself
      (zero, a negative value, or NaN) unchanged. */
  datatype Shown = Text(number: real) | AsIs(cell: Cell)

  /** `intstr`: positive values become text; anything else, NaN included
      (NaN > 0 is false), is passed through. */
  function IntStr(c: Cell): (s: Shown)
    ensures s.Text? <==> c.Num? && c.value > 0.0
    ensures s.Text? ==> s.number == c.value
    ensures s.AsIs? ==> s.cell == c
  {
    if c.Num? && c.value > 0.0 then Text(c.value) else AsIs(c)
  }

  /** `generate_row_class`. */
  function GenerateRowClass(clicked: bool): (c: string)
    ensures c == "selected" <==> clicked
    ensures c == "notselected" <==> !clicked
  {
    if clicked then "selected" else "notselected"
  }

  // ---------------------------------------------------------------------
  // filter_table_data

  /** A daily row the table keeps: the period, day type and the tab's
      directions, not excluded, and selected. */
  predicate KeepsDaily(m: Measurement, period: string, dayType: string, tab: Registry.Tab, sel: Records.Selection) {
    && m.period == period && m.dayType == dayType && m.direction in tab.directions
    && m.category != ExcludedCategory && SelectedData(m, sel)
  }

  /** A weekly row the table keeps: as the daily filter, on the chosen main
      street. */
  predicate KeepsWeekly(m: WeeklyMeasurement, period: string, dayType: string, tab: Registry.Tab,
                        mainStreet: string, sel: Records.Selection)
    requires SelectsWeekly(sel)
  {
    && m.period == period && m.dayType == dayType && m.direction in tab.directions
    && m.category != ExcludedCategory && m.mainStreet == mainStreet && SelectedDataAlternate(m, sel)
  }

  /** A baseline row the table keeps; the alternate baseline is also
      restricted to the main street (the DVP baseline has none). */
  predicate KeepsBaseline(b: BaselineRow, period: string, dayType: string, tab: Registry.Tab, mainStreet: Option<string>) {
    && b.period == period && b.dayType == dayType && b.direction in tab.directions
    && (mainStreet.Some? ==> b.mainStreet == mainStreet)
  }

  /** The row key of a daily row: its date when the daily data is pivoted
      by street and date ('Last Day' and 'Select Date' on the DVP tab). */
  function DateKey(m: Measurement, byDate: bool): Option<Date> {
    if byDate then Some(m.date) else None
  }

  function DailyObs(ms: seq<Measurement>, byDate: bool): (r: seq<Obs>)
    ensures |r| == |ms|
    ensures forall i :: 0 <= i < |ms| ==> r[i] == Obs(ms[i].street, DateKey(ms[i], byDate), ms[i].direction, ms[i].tt)
  {
    seq(|ms|, i requires 0 <= i < |ms| => Obs(ms[i].street, DateKey(ms[i], byDate), ms[i].direction, ms[i].tt))
  }

  function WeeklyObs(ms: seq<WeeklyMeasurement>): (r: seq<Obs>)
    ensures |r| == |ms|
    ensures forall i :: 0 <= i < |ms| ==> r[i] == Obs(ms[i].street, None, ms[i].direction, ms[i].tt)
  {
    seq(|ms|, i requires 0 <= i < |ms| => Obs(ms[i].street, None, ms[i].direction, ms[i].tt))
  }

  function BaselineObs(bs: seq<BaselineRow>): (r: seq<Obs>)
    ensures |r| == |bs|
    ensures forall i :: 0 <= i < |bs| ==> r[i] == Obs(bs[i].street, None, bs[i].direction, bs[i].tt)
  {
    seq(|bs|, i requires 0 <= i < |bs| => Obs(bs[i].street, None, bs[i].direction, bs[i].tt))
  }

  /** Whether the current pivot is indexed by street and date. */
  predicate ByDate(tab: Registry.Tab, sel: Records.Selection) {
    tab.orientation == Registry.NS && (sel.LastDay? || sel.SelectDate?)
  }

  /** The main street an alternate-route tab filters on:
      `DROPDOWN_MAIN_STREETS[orientation][i]`. */
  function MainStreetAt(tab: Registry.Tab, i: int): (r: Option<string>)
    ensures r.Some? ==> tab.mainStreets.Some? && r.value in tab.mainStreets.value
    ensures tab.mainStreets.Some? ==>
              (r.Some? <==> -|tab.mainStreets.value| <= i < |tab.mainStreets.value|)
  {
    match tab.mainStreets
    case None => None
    case Some(names) => Registry.PyIndex(names, i)
  }

  function DailyMask(period: string, dayType: string, tab: Registry.Tab, sel: Records.Selection): Measurement -> bool {
    m => KeepsDaily(m, period, dayType, tab, sel)
  }

  function WeeklyMask(period: string, dayType: string, tab: Registry.Tab, mainStreet: string, sel: Records.Selection)
    : WeeklyMeasurement -> bool
    requires SelectsWeekly(sel)
  {
    m => KeepsWeekly(m, period, dayType, tab, mainStreet, sel)
  }

  function BaselineMask(period: string, dayType: string, tab: Registry.Tab, mainStreet: Option<string>): BaselineRow -> bool {
    b => KeepsBaseline(b, period, dayType, tab, mainStreet)
  }

  /** The (street, key) groups the kept rows fall into. */
  function DailyKeys(data: seq<Measurement>, period: string, dayType: string, tab: Registry.Tab, sel: Records.Selection, byDate: bool)
    : set<(string, Option<Date>)>
  {
    set m | m in data && KeepsDaily(m, period, dayType, tab, sel) :: (m.street, DateKey(m, byDate))
  }

  function WeeklyKeys(data: seq<WeeklyMeasurement>, period: string, dayType: string, tab: Registry.Tab,
                      mainStreet: string, sel: Records.Selection): set<(string, Option<Date>)>
    requires SelectsWeekly(sel)
  {
    set m | m in data && KeepsWeekly(m, period, dayType, tab, mainStreet, sel) :: (m.street, None)
  }

  function BaselineKeys(rows: seq<BaselineRow>, period: string, dayType: string, tab: Registry.Tab,
                        mainStreet: Option<string>): set<(string, Option<Date>)>
  {
    set b | b in rows && KeepsBaseline(b, period, dayType, tab, mainStreet) :: (b.street, None)
  }

  /** Whether the tab can filter its current data for a selection: any
      selection on the DVP tab; a week or a month and an existing main
      street on the alternate-route tabs. */
  predicate SelectionFits(tab: Registry.Tab, sel: Records.Selection, mainStreetId: int) {
    tab.orientation != Registry.NS ==> SelectsWeekly(sel) && MainStreetAt(tab, mainStreetId).Some?
  }

  /** The (street, key) groups of the current rows the table keeps. */
  function CurrentKeys(db: Snapshot, period: string, dayType: string, tab: Registry.Tab,
                       sel: Records.Selection, mainStreetId: int): set<(string, Option<Date>)>
    requires SelectionFits(tab, sel, mainStreetId)
  {
    if tab.orientation == Registry.NS then DailyKeys(db.data, period, dayType, tab, sel, ByDate(tab, sel))
    else WeeklyKeys(db.alternateData, period, dayType, tab, MainStreetAt(tab, mainStreetId).value, sel)
  }

  /** The observations the current pivot is built from: the kept daily rows
      (keyed by date when pivoted by date) on the DVP tab, the kept weekly
      rows of the main street on the alternate-route tabs. */
  function CurrentObs(db: Snapshot, period: string, dayType: string, tab: Registry.Tab,
                      sel: Records.Selection, mainStreetId: int): seq<Obs>
    requires SelectionFits(tab, sel, mainStreetId)
  {
    if tab.orientation == Registry.NS then DailyObs(Filter(db.data, DailyMask(period, dayType, tab, sel)), ByDate(tab, sel))
    else WeeklyObs(Filter(db.alternateData, WeeklyMask(period, dayType, tab, MainStreetAt(tab, mainStreetId).value, sel)))
  }

  /** The observations the baseline pivot is built from. */
  function BaseObs(db: Snapshot, period: string, dayType: string, tab: Registry.Tab, mainStreetId: int): seq<Obs> {
    BaselineObs(Filter(if tab.orientation == Registry.NS then db.baseline else db.alternateBaseline,
                       BaselineMask(period, dayType, tab, MainStreetAt(tab, mainStreetId))))
  }

  /** `filter_table_data`: the current and the baseline pivots. The DVP tab
      reads the daily data; the alternate-route tabs read the weekly data of
      one main street and fail when the selection is not a week or a month
      (its filter is never bound) or the main-street index is out of range.
      Each pivot has a row for exactly the groups of the rows kept. */
  function FilterTableData(db: Snapshot, period: string, dayType: string, tab: Registry.Tab,
                           sel: Records.Selection, mainStreetId: int): (r: Result<(Pivot, Pivot), Error>)
    requires Registry.ValidTab(tab)
    ensures tab.orientation == Registry.NS ==> r.Ok?
    ensures tab.orientation != Registry.NS && !SelectsWeekly(sel) ==> r == Err(NoSelectionForRangeType)
    ensures tab.orientation != Registry.NS && SelectsWeekly(sel) ==>
              (r.Err? <==> MainStreetAt(tab, mainStreetId).None?) && (r.Err? ==> r.error == MainStreetOutOfRange)
    ensures r.Ok? ==> SelectionFits(tab, sel, mainStreetId)
    ensures r.Ok? ==> RowKeys(r.value.0.rows) == CurrentKeys(db, period, dayType, tab, sel, mainStreetId)
    ensures r.Ok? ==>
              RowKeys(r.value.1.rows)
              == BaselineKeys(if tab.orientation == Registry.NS then db.baseline else db.alternateBaseline, period, dayType, tab,
                              MainStreetAt(tab, mainStreetId))
    ensures r.Ok? ==> Arranged(r.value.0.rows, tab.streets) && Arranged(r.value.1.rows, tab.streets)
    ensures r.Ok? ==> forall i :: 0 <= i < |r.value.1.rows| ==> r.value.1.rows[i].key == None
    ensures r.Ok? && !SelectsWeekly(sel) ==> tab.orientation == Registry.NS
    ensures r.Ok? && ByDate(tab, sel) ==> forall i :: 0 <= i < |r.value.0.rows| ==> r.value.0.rows[i].key.Some?
    ensures r.Ok? ==> var obs := CurrentObs(db, period, dayType, tab, sel, mainStreetId);
              && r.value.0.columns == DirectionsOf(obs)
              && forall i :: 0 <= i < |r.value.0.rows| ==> IsGroupRow(obs, r.value.0.rows[i])
    ensures r.Ok? ==> var obs := BaseObs(db, period, dayType, tab, mainStreetId);
              && r.value.1.columns == DirectionsOf(obs)
              && forall i :: 0 <= i < |r.value.1.rows| ==> IsGroupRow(obs, r.value.1.rows[i])
  {
    var streets := tab.streets;
    if tab.orientation == Registry.NS then
      var current := Filter(db.data, DailyMask(period, dayType, tab, sel));
      var base := Filter(db.baseline, BaselineMask(period, dayType, tab, None));
      DailyKeysOfFilter(db.data, period, dayType, tab, sel, ByDate(tab, sel));
      BaselineKeysOfFilter(db.baseline, period, dayType, tab, None);
      PivotKeys(DailyObs(current, ByDate(tab, sel)), streets);
      DailyRowsDated(current, ByDate(tab, sel), streets);
      PivotKeys(BaselineObs(base), streets);
      BaselineRowsUndated(base, streets);
      Ok((PivotOrder(DailyObs(current, ByDate(tab, sel)), streets), PivotOrder(BaselineObs(base), streets)))
    else if !SelectsWeekly(sel) then Err(NoSelectionForRangeType)
    else
      var main := MainStreetAt(tab, mainStreetId);
      if main.None? then Err(MainStreetOutOfRange)
      else
        var current := Filter(db.alternateData, WeeklyMask(period, dayType, tab, main.value, sel));
        var base := Filter(db.alternateBaseline, BaselineMask(period, dayType, tab, main));
        WeeklyKeysOfFilter(db.alternateData, period, dayType, tab, main.value, sel);
        BaselineKeysOfFilter(db.alternateBaseline, period, dayType, tab, main);
        PivotKeys(WeeklyObs(current), streets);
        PivotKeys(BaselineObs(base), streets);
        BaselineRowsUndated(base, streets);
        Ok((PivotOrder(WeeklyObs(current), streets), PivotOrder(BaselineObs(base), streets)))
  }

  lemma DailyKeysOfFilter(data: seq<Measurement>, period: string, dayType: string, tab: Registry.Tab, sel: Records.Selection, byDate: bool)
    ensures ObsKeys(DailyObs(Filter(data, DailyMask(period, dayType, tab, sel)), byDate)) == DailyKeys(data, period, dayType, tab, sel, byDate)
  {
    var kept := Filter(data, DailyMask(period, dayType, tab, sel));
    var obs := DailyObs(kept, byDate);
    forall g | g in ObsKeys(obs) ensures g in DailyKeys(data, period, dayType, tab, sel, byDate) {
      var x :| x in obs && g == (x.street, x.key);
      var k :| 0 <= k < |obs| && obs[k] == x;
      assert kept[k] in kept;
    }
    forall g | g in DailyKeys(data, period, dayType, tab, sel, byDate) ensures g in ObsKeys(obs) {
      var m :| m in data && KeepsDaily(m, period, dayType, tab, sel) && g == (m.street, DateKey(m, byDate));
      assert m in kept;
      var k :| 0 <= k < |kept| && kept[k] == m;
      assert obs[k] in obs;
    }
  }

  lemma WeeklyKeysOfFilter(data: seq<WeeklyMeasurement>, period: string, dayType: string, tab: Registry.Tab,
                           mainStreet: string, sel: Records.Selection)
    requires SelectsWeekly(sel)
    ensures ObsKeys(WeeklyObs(Filter(data, WeeklyMask(period, dayType, tab, mainStreet, sel))))
            == WeeklyKeys(data, period, dayType, tab, mainStreet, sel)
  {
    var kept := Filter(data, WeeklyMask(period, dayType, tab, mainStreet, sel));
    var obs := WeeklyObs(kept);
    forall g | g in ObsKeys(obs) ensures g in WeeklyKeys(data, period, dayType, tab, mainStreet, sel) {
      var x :| x in obs && g == (x.street, x.key);
      var k :| 0 <= k < |obs| && obs[k] == x;
      assert kept[k] in kept;
    }
    forall g | g in WeeklyKeys(data, period, dayType, tab, mainStreet, sel) ensures g in ObsKeys(obs) {
      var m :| m in data && KeepsWeekly(m, period, dayType, tab, mainStreet, sel) && g == (m.street, None);
      assert m in kept;
      var k :| 0 <= k < |kept| && kept[k] == m;
      assert obs[k] in obs;
    }
  }

  lemma BaselineKeysOfFilter(rows: seq<BaselineRow>, period: string, dayType: string, tab: Registry.Tab,
                             mainStreet: Option<string>)
    ensures ObsKeys(BaselineObs(Filter(rows, BaselineMask(period, dayType, tab, mainStreet))))
            == BaselineKeys(rows, period, dayType, tab, mainStreet)
  {
    var kept := Filter(rows, BaselineMask(period, dayType, tab, mainStreet));
    var obs := BaselineObs(kept);
    forall g | g in ObsKeys(obs) ensures g in BaselineKeys(rows, period, dayType, tab, mainStreet) {
      var x :| x in obs && g == (x.street, x.key);
      var k :| 0 <= k < |obs| && obs[k] == x;
      assert kept[k] in kept;
    }
    forall g | g in BaselineKeys(rows, period, dayType, tab, mainStreet) ensures g in ObsKeys(obs) {
      var b :| b in rows && KeepsBaseline(b, period, dayType, tab, mainStreet) && g == (b.street, None);
      assert b in kept;
      var k :| 0 <= k < |kept| && kept[k] == b;
      assert obs[k] in obs;
    }
  }

  /** The baseline is pivoted by street alone. */
  lemma BaselineRowsUndated(base: seq<BaselineRow>, streets: seq<string>)
    requires NoDuplicates(streets)
    ensures forall i :: 0 <= i < |PivotOrder(BaselineObs(base), streets).rows| ==> PivotOrder(BaselineObs(base), streets).rows[i].key == None
  {
    UndatedRows(BaselineObs(base), streets);
  }

  /** Pivoted by street and date, every row carries its date. */
  lemma DailyRowsDated(current: seq<Measurement>, byDate: bool, streets: seq<string>)
    requires NoDuplicates(streets)
    ensures byDate ==> forall i :: 0 <= i < |PivotOrder(DailyObs(current, byDate), streets).rows| ==>
                         PivotOrder(DailyObs(current, byDate), streets).rows[i].key.Some?
  {
    if byDate {
      DatedRows(DailyObs(current, byDate), streets);
    }
  }

  // ---------------------------------------------------------------------
  // generate_table

  /** A rendered cell: what it shows and its CSS class. */
  datatype TableCell = TableCell(shown: Shown, cls: string)

  /** A rendered street row: its id (the street label, NaN for a street the
      tab does not list), the after/baseline cells of both directions, and its
      class. */
  datatype TableRow = TableRow(id: Option<string>, cells: seq<TableCell>, rowClass: string)

  /** The "After" column heading: the data's date, or the week or month. */
  datatype Header = DayHeader(date: Date) | WeekHeader(week: int) | MonthHeader(month: int)

  datatype Table = Table(directions: seq<string>, header: Header, rows: seq<TableRow>)

  /** The selected-street store of a tab: the one-element list the page
      starts with, or the id of the row clicked last. */
  datatype Picked = Initial(names: seq<string>) | Clicked(name: string)

  /** `selected_street == text`: a list never equals a string. */
  predicate Picks(p: Picked, text: string) {
    p.Clicked? && p.name == text
  }

  /** `str` of a street label; the NaN label prints as "nan". */
  function StreetText(streetLabel: Option<string>): string {
    if streetLabel.Some? then streetLabel.value else "nan"
  }

  /** A pivot cell read by column name: a missing column is pandas'
      KeyError; a present column without a value for the row is NaN. */
  function CellIn(p: Pivot, row: PivotRow, d: string): (r: Result<Cell, Error>)
    ensures r.Err? <==> d !in p.columns
    ensures r.Err? ==> r.error == MissingDirection(d)
    ensures r.Ok? ==> (r.value.Num? <==> d in row.cells) && (r.value.Num? ==> r.value.value == row.cells[d])
  {
    if d !in p.columns then Err(MissingDirection(d))
    else if d in row.cells then Ok(Num(row.cells[d]))
    else Ok(NaN)
  }

  /** The position of the first current row of a street label; NaN equals
      nothing, so an unlisted street never finds one. */
  function FirstRowFor(rows: seq<PivotRow>, streetLabel: Option<string>): (r: Option<nat>)
    ensures r.Some? ==> && streetLabel.Some? && r.value < |rows| && rows[r.value].streetLabel == streetLabel
                        && forall j :: 0 <= j < r.value ==> rows[j].streetLabel != streetLabel
    ensures r.None? ==> streetLabel.None? || forall j :: 0 <= j < |rows| ==> rows[j].streetLabel != streetLabel
  {
    if streetLabel.None? || |rows| == 0 then None
    else if rows[0].streetLabel == streetLabel then Some(0)
    else
      var rest := FirstRowFor(rows[1..], streetLabel);
      if rest.None? then None else Some(rest.value + 1)
  }

  /** The current value of a direction for a street: the first current row's
      value, or NaN when the street has no current row. */
  function AfterCell(current: Pivot, streetLabel: Option<string>, d: string): (r: Result<Cell, Error>)
    ensures FirstRowFor(current.rows, streetLabel).None? ==> r == Ok(NaN)
    ensures FirstRowFor(current.rows, streetLabel).Some? ==>
              r == CellIn(current, current.rows[FirstRowFor(current.rows, streetLabel).value], d)
  {
    match FirstRowFor(current.rows, streetLabel)
    case None => Ok(NaN)
    case Some(k) => CellIn(current, current.rows[k], d)
  }

  /** The value a pivot holds for one (street, key) group in a direction:
      the mean of the group's travel times, or NaN when the group has none
      in that direction. */
  function GroupCell(obs: seq<Obs>, street: string, key: Option<Date>, d: string): (c: Cell)
    ensures c.Num? <==> exists x :: x in obs && x.street == street && x.key == key && x.direction == d
    ensures c.Num? ==> SeqMin(TtsOf(obs, street, key, d)) <= c.value <= SeqMax(TtsOf(obs, street, key, d))
  {
    var tts := TtsOf(obs, street, key, d);
    if |tts| > 0 then Num(Mean(tts)) else NaN
  }

  /** Reading a group row's column gives the group's mean. */
  lemma GroupCellRead(p: Pivot, obs: seq<Obs>, row: PivotRow, d: string)
    requires IsGroupRow(obs, row) && CellIn(p, row, d).Ok?
    ensures CellIn(p, row, d).value == GroupCell(obs, row.street, row.key, d)
  {
  }

  /** `generate_direction_cells`: the after cell coloured against the
      baseline, then the baseline cell. */
  function DirectionCells(before: Cell, after: Cell): seq<TableCell> {
    [TableCell(IntStr(after), AfterCellClass(before, after)), TableCell(IntStr(before), "baseline")]
  }

  /** `generate_row` for one baseline row: for each of the two directions in
      turn, the baseline value and then the current value are read (the first
      missing column aborts). */
  function GenerateRow(current: Pivot, baseline: Pivot, b: PivotRow, selected: Picked, tab: Registry.Tab)
    : (r: Result<TableRow, Error>)
    requires Registry.ValidTab(tab)
    ensures r.Ok? <==> forall j :: 0 <= j < 2 ==>
              CellIn(baseline, b, tab.directions[j]).Ok? && AfterCell(current, b.streetLabel, tab.directions[j]).Ok?
    ensures r.Ok? ==> r.value.id == b.streetLabel && |r.value.cells| == 4
    ensures r.Ok? ==> forall j :: 0 <= j < 2 ==>
              var before := CellIn(baseline, b, tab.directions[j]).value;
              var after := AfterCell(current, b.streetLabel, tab.directions[j]).value;
              && r.value.cells[2 * j] == TableCell(IntStr(after), AfterCellClass(before, after))
              && r.value.cells[2 * j + 1] == TableCell(IntStr(before), "baseline")
    ensures r.Ok? ==> (r.value.rowClass == "selected" <==> Picks(selected, StreetText(b.streetLabel)))
  {
    var ds := tab.directions;
    var before0 := CellIn(baseline, b, ds[0]);
    if before0.Err? then Err(before0.error) else
    var after0 := AfterCell(current, b.streetLabel, ds[0]);
    if after0.Err? then Err(after0.error) else
    var before1 := CellIn(baseline, b, ds[1]);
    if before1.Err? then Err(before1.error) else
    var after1 := AfterCell(current, b.streetLabel, ds[1]);
    if after1.Err? then Err(after1.error) else
    Ok(TableRow(b.streetLabel,
                DirectionCells(before0.value, after0.value) + DirectionCells(before1.value, after1.value),
                GenerateRowClass(Picks(selected, StreetText(b.streetLabel)))))
  }

  /** One row per baseline row, in the baseline's order; the first failing
      row aborts. */
  function GenerateRows(current: Pivot, baseline: Pivot, bs: seq<PivotRow>, selected: Picked, tab: Registry.Tab)
    : (r: Result<seq<TableRow>, Error>)
    requires Registry.ValidTab(tab)
    ensures r.Ok? <==> forall i :: 0 <= i < |bs| ==> GenerateRow(current, baseline, bs[i], selected, tab).Ok?
    ensures r.Ok? ==> |r.value| == |bs|
                      && forall i :: 0 <= i < |bs| ==> r.value[i] == GenerateRow(current, baseline, bs[i], selected, tab).value
  {
    if |bs| == 0 then Ok([])
    else
      var head := GenerateRow(current, baseline, bs[0], selected, tab);
      if head.Err? then Err(head.error)
      else
        var tail := GenerateRows(current, baseline, bs[1..], selected, tab);
        if tail.Err? then Err(tail.error)
        else
          assert forall i :: 1 <= i < |bs| ==> bs[i] == bs[1..][i - 1];
          Ok([head.value] + tail.value)
  }

  /** The range type and id the table is built for: the alternate-route tabs
      have no daily data and fall back to week 1. */
  function TableRange(tab: Registry.Tab, code: int, id: RangeId): (r: (int, RangeId))
    ensures Registry.IsAlternate(tab.orientation) ==> r.0 >= 2
    ensures Registry.IsAlternate(tab.orientation) && code >= 2 ==> r == (code, id)
    ensures tab.orientation == Registry.NS ==> r == (code, id)
  {
    if Registry.IsAlternate(tab.orientation) && code < 2 then (2, NumberId(1)) else (code, id)
  }

  /** The "After" heading: the week or month chosen, or the date of the
      first current row (none is an IndexError). */
  function TableHeader(sel: Records.Selection, current: Pivot): (r: Result<Header, Error>)
    requires !SelectsWeekly(sel) ==> forall i :: 0 <= i < |current.rows| ==> current.rows[i].key.Some?
    ensures sel.SelectWeek? ==> r == Ok(WeekHeader(sel.week))
    ensures sel.SelectMonth? ==> r == Ok(MonthHeader(sel.month))
    ensures !SelectsWeekly(sel) ==> (r.Err? <==> |current.rows| == 0) && (r.Err? ==> r.error == NoCurrentRows)
    ensures !SelectsWeekly(sel) && r.Ok? ==> r.value == DayHeader(current.rows[0].key.value)
  {
    match sel
    case SelectWeek(n) => Ok(WeekHeader(n))
    case SelectMonth(n) => Ok(MonthHeader(n))
    case _ => if |current.rows| == 0 then Err(NoCurrentRows) else Ok(DayHeader(current.rows[0].key.value))
  }

  /** What a table is built from: the decoded selection and the current and
      baseline pivots. */
  function TableInputs(db: Snapshot, dayType: string, period: string, tab: Registry.Tab,
                       code: int, id: RangeId, mainStreetId: int): (r: Result<(Records.Selection, Pivot, Pivot), Error>)
    requires Registry.ValidTab(tab)
    ensures SelectionFor(TableRange(tab, code, id).0, TableRange(tab, code, id).1).Err? ==>
              r == Err(SelectionFor(TableRange(tab, code, id).0, TableRange(tab, code, id).1).error)
    ensures r.Ok? ==> SelectionFor(TableRange(tab, code, id).0, TableRange(tab, code, id).1) == Ok(r.value.0)
  {
    var (code', id') := TableRange(tab, code, id);
    var sel := SelectionFor(code', id');
    if sel.Err? then Err(sel.error) else
    var pivots := FilterTableData(db, period, dayType, tab, sel.value, mainStreetId);
    if pivots.Err? then Err(pivots.error) else
    Ok((sel.value, pivots.value.0, pivots.value.1))
  }

  /** The pivots a table is built from are `filter_table_data`'s for the
      decoded selection. */
  lemma InputsArePivots(db: Snapshot, dayType: string, period: string, tab: Registry.Tab,
                        code: int, id: RangeId, mainStreetId: int)
    requires Registry.ValidTab(tab)
    requires TableInputs(db, dayType, period, tab, code, id, mainStreetId).Ok?
    ensures var (sel, current, baseline) := TableInputs(db, dayType, period, tab, code, id, mainStreetId).value;
            FilterTableData(db, period, dayType, tab, sel, mainStreetId) == Ok((current, baseline))
  {
  }

  /** `generate_table`: decode the selection, filter and pivot, head the
      "After" columns, and build a row for every baseline street. */
  function GenerateTable(db: Snapshot, selected: Picked, dayType: string, period: string, tab: Registry.Tab,
                         code: int, id: RangeId, mainStreetId: int): (r: Result<Table, Error>)
    requires Registry.ValidTab(tab)
    ensures TableInputs(db, dayType, period, tab, code, id, mainStreetId).Err? ==>
              r == Err(TableInputs(db, dayType, period, tab, code, id, mainStreetId).error)
    ensures r.Ok? ==> TableInputs(db, dayType, period, tab, code, id, mainStreetId).Ok?
    ensures r.Ok? ==> var (sel, current, baseline) := TableInputs(db, dayType, period, tab, code, id, mainStreetId).value;
              && (sel.SelectWeek? ==> r.value.header == WeekHeader(sel.week))
              && (sel.SelectMonth? ==> r.value.header == MonthHeader(sel.month))
              && (!SelectsWeekly(sel) ==> |current.rows| > 0 && r.value.header == DayHeader(current.rows[0].key.value))
    ensures r.Ok? ==> var (sel, current, baseline) := TableInputs(db, dayType, period, tab, code, id, mainStreetId).value;
              && |r.value.rows| == |baseline.rows|
              && forall i :: 0 <= i < |r.value.rows| ==> GenerateRow(current, baseline, baseline.rows[i], selected, tab) == Ok(r.value.rows[i])
    ensures r.Ok? ==> r.value.directions == tab.directions
    ensures r.Ok? ==> forall i :: 0 <= i < |r.value.rows| ==> |r.value.rows[i].cells| == 4
    ensures r.Ok? ==> forall i :: 0 <= i < |r.value.rows| ==>
              (r.value.rows[i].rowClass == "selected" <==> Picks(selected, StreetText(r.value.rows[i].id)))
  {
    var inputs := TableInputs(db, dayType, period, tab, code, id, mainStreetId);
    if inputs.Err? then Err(inputs.error) else
    var (sel, current, baseline) := inputs.value;
    var header := TableHeader(sel, current);
    if header.Err? then Err(header.error) else
    var rows := GenerateRows(current, baseline, baseline.rows, selected, tab);
    if rows.Err? then Err(rows.error) else
    Ok(Table(tab.directions, header.value, rows.value))
  }

  /** The decoded selection and the two pivots behind a table, with the
      table's rows built one per baseline row. */
  lemma TableParts(db: Snapshot, selected: Picked, dayType: string, period: string, tab: Registry.Tab,
                   code: int, id: RangeId, mainStreetId: int, t: Table)
    returns (sel: Records.Selection, current: Pivot, baseline: Pivot)
    requires Registry.ValidTab(tab)
    requires GenerateTable(db, selected, dayType, period, tab, code, id, mainStreetId) == Ok(t)
    ensures SelectionFor(TableRange(tab, code, id).0, TableRange(tab, code, id).1) == Ok(sel)
    ensures FilterTableData(db, period, dayType, tab, sel, mainStreetId) == Ok((current, baseline))
    ensures (sel.SelectWeek? ==> t.header == WeekHeader(sel.week)) && (sel.SelectMonth? ==> t.header == MonthHeader(sel.month))
    ensures !SelectsWeekly(sel) ==> |current.rows| > 0 && t.header == DayHeader(current.rows[0].key.value)
    ensures |t.rows| == |baseline.rows|
    ensures forall i :: 0 <= i < |t.rows| ==> GenerateRow(current, baseline, baseline.rows[i], selected, tab) == Ok(t.rows[i])
  {
    var inputs := TableInputs(db, dayType, period, tab, code, id, mainStreetId).value;
    InputsArePivots(db, dayType, period, tab, code, id, mainStreetId);
    sel, current, baseline := inputs.0, inputs.1, inputs.2;
  }

  /** A table row per baseline row, carrying its street label as id. */
  lemma IdsFollowBaseline(current: Pivot, baseline: Pivot, bs: seq<PivotRow>, selected: Picked,
                          tab: Registry.Tab, rows: seq<TableRow>)
    requires Registry.ValidTab(tab)
    requires |rows| == |bs| && forall i :: 0 <= i < |rows| ==> GenerateRow(current, baseline, bs[i], selected, tab) == Ok(rows[i])
    ensures forall i :: 0 <= i < |rows| ==> rows[i].id == bs[i].streetLabel
  {
  }

  /** In an arranged pivot indexed by street alone, the labels run in the
      order of `streets`, unlabelled rows last. */
  lemma LabelsInStreetOrder(bs: seq<PivotRow>, streets: seq<string>)
    requires Arranged(bs, streets)
    requires forall i :: 0 <= i < |bs| ==> bs[i].key == None
    ensures forall i, j :: 0 <= i < j < |bs| && bs[j].streetLabel.Some? ==>
              bs[i].streetLabel.Some? && IndexOf(streets, bs[i].streetLabel.value) < IndexOf(streets, bs[j].streetLabel.value)
  {
    forall i, j | 0 <= i < j < |bs| && bs[j].streetLabel.Some?
      ensures bs[i].streetLabel.Some? && IndexOf(streets, bs[i].streetLabel.value) < IndexOf(streets, bs[j].streetLabel.value)
    {
      assert RowBefore(streets, bs[i], bs[j]);
      assert bs[i].streetLabel == Some(bs[i].street) && bs[j].streetLabel == Some(bs[j].street);
    }
  }

  /** The labelled rows of an arranged pivot are the listed streets among its
      groups. */
  lemma LabelsAreListedStreets(bs: seq<PivotRow>, streets: seq<string>, keys: set<(string, Option<Date>)>)
    requires Arranged(bs, streets) && RowKeys(bs) == keys
    requires forall i :: 0 <= i < |bs| ==> bs[i].key == None
    ensures forall i :: 0 <= i < |bs| && bs[i].streetLabel.Some? ==>
              bs[i].streetLabel.value in streets && (bs[i].streetLabel.value, None) in keys
    ensures forall s :: s in streets && (s, None) in keys ==> exists i :: 0 <= i < |bs| && bs[i].streetLabel == Some(s)
    ensures forall i :: 0 <= i < |bs| && bs[i].streetLabel.None? ==> exists g :: g in keys && g.0 !in streets
  {
    forall i | 0 <= i < |bs| ensures (bs[i].street, None) in keys {
      assert (bs[i].street, bs[i].key) in RowKeys(bs);
    }
    forall s | s in streets && (s, None) in keys ensures exists i :: 0 <= i < |bs| && bs[i].streetLabel == Some(s) {
      var i :| 0 <= i < |bs| && (s, None) == (bs[i].street, bs[i].key);
    }
  }

  /** The table has a row for each street with a baseline, the tab's own
      streets under their name and in the tab's order, before the others. */
  lemma TableRowsFollowStreets(db: Snapshot, selected: Picked, dayType: string, period: string, tab: Registry.Tab,
                               code: int, id: RangeId, mainStreetId: int, t: Table)
    requires Registry.ValidTab(tab)
    requires GenerateTable(db, selected, dayType, period, tab, code, id, mainStreetId) == Ok(t)
    ensures IdsInStreetOrder(t.rows, tab.streets)
  {
    var sel, current, baseline := TableParts(db, selected, dayType, period, tab, code, id, mainStreetId, t);
    IdsFollowBaseline(current, baseline, baseline.rows, selected, tab, t.rows);
    IdsFollowLabels(t.rows, baseline.rows, tab.streets);
  }

  /** Labelled rows are listed streets, in the order of `streets`, and come
      before every NaN-labelled row. */
  predicate IdsInStreetOrder(rows: seq<TableRow>, streets: seq<string>) {
    forall i, j :: 0 <= i < j < |rows| && rows[j].id.Some? ==>
      && rows[i].id.Some? && rows[i].id.value in streets && rows[j].id.value in streets
      && IndexOf(streets, rows[i].id.value) < IndexOf(streets, rows[j].id.value)
  }

  lemma IdsFollowLabels(rows: seq<TableRow>, bs: seq<PivotRow>, streets: seq<string>)
    requires |rows| == |bs| && forall i :: 0 <= i < |rows| ==> rows[i].id == bs[i].streetLabel
    requires Arranged(bs, streets) && forall i :: 0 <= i < |bs| ==> bs[i].key == None
    ensures IdsInStreetOrder(rows, streets)
  {
    LabelsInStreetOrder(bs, streets);
    forall i | 0 <= i < |bs| && bs[i].streetLabel.Some? ensures bs[i].streetLabel.value in streets {
      assert bs[i].streetLabel == Label(bs[i].street, bs[i].street in streets);
    }
  }

  /** The labelled rows are exactly the tab's streets that have baseline
      rows; a row with the NaN label stands for a baseline street the tab
      does not list. */
  lemma TableRowIds(db: Snapshot, selected: Picked, dayType: string, period: string, tab: Registry.Tab,
                    code: int, id: RangeId, mainStreetId: int, t: Table)
    requires Registry.ValidTab(tab)
    requires GenerateTable(db, selected, dayType, period, tab, code, id, mainStreetId) == Ok(t)
    ensures IdsNameBaselineStreets(t.rows, tab.streets,
                                   BaselineKeys(if tab.orientation == Registry.NS then db.baseline else db.alternateBaseline,
                                                period, dayType, tab, MainStreetAt(tab, mainStreetId)))
  {
    var sel, current, baseline := TableParts(db, selected, dayType, period, tab, code, id, mainStreetId, t);
    IdsFollowBaseline(current, baseline, baseline.rows, selected, tab, t.rows);
    IdsAreListedStreets(t.rows, baseline.rows, tab.streets, RowKeys(baseline.rows));
  }

  /** The labelled rows are exactly the listed streets among the baseline
      groups; an unlabelled row stands for a baseline street not listed. */
  predicate IdsNameBaselineStreets(rows: seq<TableRow>, streets: seq<string>, keys: set<(string, Option<Date>)>) {
    && (forall i :: 0 <= i < |rows| && rows[i].id.Some? ==> rows[i].id.value in streets && (rows[i].id.value, None) in keys)
    && (forall s :: s in streets && (s, None) in keys ==> exists i :: 0 <= i < |rows| && rows[i].id == Some(s))
    && (forall i :: 0 <= i < |rows| && rows[i].id.None? ==> exists g :: g in keys && g.0 !in streets)
  }

  lemma IdsAreListedStreets(rows: seq<TableRow>, bs: seq<PivotRow>, streets: seq<string>, keys: set<(string, Option<Date>)>)
    requires |rows| == |bs| && forall i :: 0 <= i < |rows| ==> rows[i].id == bs[i].streetLabel
    requires Arranged(bs, streets) && RowKeys(bs) == keys
    requires forall i :: 0 <= i < |bs| ==> bs[i].key == None
    ensures IdsNameBaselineStreets(rows, streets, keys)
  {
    LabelsAreListedStreets(bs, streets, keys);
  }

  /** A row whose street has no current row shows NaN after values, coloured
      "same". */
  lemma UnmatchedRowIsNaN(current: Pivot, baseline: Pivot, b: PivotRow, selected: Picked, tab: Registry.Tab, row: TableRow)
    requires Registry.ValidTab(tab)
    requires GenerateRow(current, baseline, b, selected, tab) == Ok(row)
    requires FirstRowFor(current.rows, b.streetLabel).None?
    ensures row.cells[0] == TableCell(AsIs(NaN), "same") && row.cells[2] == TableCell(AsIs(NaN), "same")
  {
  }

  /** No current row carries the label of a street without current data,
      nor the NaN label. */
  lemma NoRowForAbsentStreet(rows: seq<PivotRow>, streets: seq<string>, keys: set<(string, Option<Date>)>, streetLabel: Option<string>)
    requires Arranged(rows, streets) && RowKeys(rows) == keys
    requires streetLabel.Some? ==> forall g :: g in keys ==> g.0 != streetLabel.value
    ensures FirstRowFor(rows, streetLabel).None?
  {
    if streetLabel.Some? {
      forall j | 0 <= j < |rows| ensures rows[j].streetLabel != streetLabel {
        assert rows[j].streetLabel == Label(rows[j].street, rows[j].street in streets);
        assert (rows[j].street, rows[j].key) in keys;
      }
    }
  }

  /** A street with no current data in the selection (and any street the tab
      does not list) gets NaN after values coloured "same". */
  lemma MissingDataIsNaN(db: Snapshot, selected: Picked, dayType: string, period: string, tab: Registry.Tab,
                         code: int, id: RangeId, mainStreetId: int, sel: Records.Selection, t: Table, i: int)
    requires Registry.ValidTab(tab)
    requires GenerateTable(db, selected, dayType, period, tab, code, id, mainStreetId) == Ok(t)
    requires SelectionFor(TableRange(tab, code, id).0, TableRange(tab, code, id).1) == Ok(sel)
    requires SelectionFits(tab, sel, mainStreetId)
    requires 0 <= i < |t.rows|
    requires t.rows[i].id.Some? ==> forall g :: g in CurrentKeys(db, period, dayType, tab, sel, mainStreetId) ==> g.0 != t.rows[i].id.value
    ensures t.rows[i].cells[0] == TableCell(AsIs(NaN), "same") && t.rows[i].cells[2] == TableCell(AsIs(NaN), "same")
  {
    var sel', current, baseline := TableParts(db, selected, dayType, period, tab, code, id, mainStreetId, t);
    assert sel' == sel;
    var rows := t.rows;
    IdsFollowBaseline(current, baseline, baseline.rows, selected, tab, rows);
    NoRowForAbsentStreet(current.rows, tab.streets, CurrentKeys(db, period, dayType, tab, sel, mainStreetId), rows[i].id);
    UnmatchedRowIsNaN(current, baseline, baseline.rows[i], selected, tab, rows[i]);
  }

  /** `key` is the earliest key `keys` hold for `street`. */
  predicate EarliestKey(keys: set<(string, Option<Date>)>, street: string, key: Option<Date>) {
    && (street, key) in keys
    && forall g :: g in keys && g.0 == street ==> g.1 == key || KeyBefore(key, g.1)
  }

  /** The after and baseline cells a row of street `s` shows for direction
      `d`: the baseline cell is the mean of the street's baseline group; the
      after cell is the mean of the street's earliest current group,
      coloured against the baseline, or a NaN coloured "same" when the
      street has no current group. */
  ghost predicate ShowsMeans(after: TableCell, before: TableCell, s: string, d: string,
                             curObs: seq<Obs>, curKeys: set<(string, Option<Date>)>, baseObs: seq<Obs>) {
    var b := GroupCell(baseObs, s, None, d);
    && before == TableCell(IntStr(b), "baseline")
    && if exists g :: g in curKeys && g.0 == s then
         exists key :: EarliestKey(curKeys, s, key) && after == TableCell(IntStr(GroupCell(curObs, s, key, d)),
                                                                        AfterCellClass(b, GroupCell(curObs, s, key, d)))
       else after == TableCell(AsIs(NaN), "same")
  }

  /** Every street row shows, for each of the two directions, the means
      `ShowsMeans` describes. */
  ghost predicate StreetRowsShowMeans(rows: seq<TableRow>, directions: seq<string>, curObs: seq<Obs>,
                                      curKeys: set<(string, Option<Date>)>, baseObs: seq<Obs>) {
    && |directions| == 2
    && forall i, j :: 0 <= i < |rows| && rows[i].id.Some? && 0 <= j < 2 ==>
         && |rows[i].cells| == 4
         && ShowsMeans(rows[i].cells[2 * j], rows[i].cells[2 * j + 1], rows[i].id.value, directions[j],
                       curObs, curKeys, baseObs)
  }

  /** Each street row of the table shows, per direction, the mean of the
      street's baseline and the mean of its earliest current group (the
      first current row of the street), coloured against each other. */
  lemma TableShowsMeans(db: Snapshot, selected: Picked, dayType: string, period: string, tab: Registry.Tab,
                        code: int, id: RangeId, mainStreetId: int, sel: Records.Selection, t: Table)
    requires Registry.ValidTab(tab)
    requires GenerateTable(db, selected, dayType, period, tab, code, id, mainStreetId) == Ok(t)
    requires SelectionFor(TableRange(tab, code, id).0, TableRange(tab, code, id).1) == Ok(sel)
    ensures SelectionFits(tab, sel, mainStreetId)
    ensures StreetRowsShowMeans(t.rows, tab.directions, CurrentObs(db, period, dayType, tab, sel, mainStreetId),
                                CurrentKeys(db, period, dayType, tab, sel, mainStreetId),
                                BaseObs(db, period, dayType, tab, mainStreetId))
  {
    var sel', current, baseline := TableParts(db, selected, dayType, period, tab, code, id, mainStreetId, t);
    assert sel' == sel;
    PivotsShowMeans(db, period, dayType, tab, sel, mainStreetId, current, baseline, selected, t.rows);
  }

  lemma PivotsShowMeans(db: Snapshot, period: string, dayType: string, tab: Registry.Tab, sel: Records.Selection,
                        mainStreetId: int, current: Pivot, baseline: Pivot, selected: Picked, rows: seq<TableRow>)
    requires Registry.ValidTab(tab)
    requires FilterTableData(db, period, dayType, tab, sel, mainStreetId) == Ok((current, baseline))
    requires |rows| == |baseline.rows|
    requires forall i :: 0 <= i < |rows| ==> GenerateRow(current, baseline, baseline.rows[i], selected, tab) == Ok(rows[i])
    ensures SelectionFits(tab, sel, mainStreetId)
    ensures StreetRowsShowMeans(rows, tab.directions, CurrentObs(db, period, dayType, tab, sel, mainStreetId),
                                CurrentKeys(db, period, dayType, tab, sel, mainStreetId),
                                BaseObs(db, period, dayType, tab, mainStreetId))
  {
    RowsShowMeans(current, baseline, selected, tab, rows, CurrentObs(db, period, dayType, tab, sel, mainStreetId),
                  CurrentKeys(db, period, dayType, tab, sel, mainStreetId), BaseObs(db, period, dayType, tab, mainStreetId));
  }

  lemma RowsShowMeans(current: Pivot, baseline: Pivot, selected: Picked, tab: Registry.Tab, rows: seq<TableRow>,
                      curObs: seq<Obs>, curKeys: set<(string, Option<Date>)>, baseObs: seq<Obs>)
    requires Registry.ValidTab(tab)
    requires |rows| == |baseline.rows|
    requires forall i :: 0 <= i < |rows| ==> GenerateRow(current, baseline, baseline.rows[i], selected, tab) == Ok(rows[i])
    requires Arranged(current.rows, tab.streets) && RowKeys(current.rows) == curKeys
    requires forall i :: 0 <= i < |current.rows| ==> IsGroupRow(curObs, current.rows[i])
    requires Arranged(baseline.rows, tab.streets)
    requires forall i :: 0 <= i < |baseline.rows| ==> baseline.rows[i].key == None
    requires forall i :: 0 <= i < |baseline.rows| ==> IsGroupRow(baseObs, baseline.rows[i])
    ensures StreetRowsShowMeans(rows, tab.directions, curObs, curKeys, baseObs)
  {
    forall i, j | 0 <= i < |rows| && rows[i].id.Some? && 0 <= j < 2
      ensures && |rows[i].cells| == 4
              && ShowsMeans(rows[i].cells[2 * j], rows[i].cells[2 * j + 1], rows[i].id.value, tab.directions[j],
                            curObs, curKeys, baseObs)
    {
      RowShowsMeans(current, baseline, baseline.rows[i], selected, tab, rows[i], curObs, curKeys, baseObs, j);
    }
  }

  lemma RowShowsMeans(current: Pivot, baseline: Pivot, b: PivotRow, selected: Picked, tab: Registry.Tab, row: TableRow,
                      curObs: seq<Obs>, curKeys: set<(string, Option<Date>)>, baseObs: seq<Obs>, j: int)
    requires Registry.ValidTab(tab)
    requires GenerateRow(current, baseline, b, selected, tab) == Ok(row)
    requires Arranged(current.rows, tab.streets) && RowKeys(current.rows) == curKeys
    requires forall i :: 0 <= i < |current.rows| ==> IsGroupRow(curObs, current.rows[i])
    requires b.streetLabel == Label(b.street, b.street in tab.streets) && b.key == None && IsGroupRow(baseObs, b)
    requires row.id.Some? && 0 <= j < 2
    ensures |row.cells| == 4
    ensures ShowsMeans(row.cells[2 * j], row.cells[2 * j + 1], row.id.value, tab.directions[j], curObs, curKeys, baseObs)
  {
    var s, d := row.id.value, tab.directions[j];
    assert b.street == s;
    GroupCellRead(baseline, baseObs, b, d);
    var before := GroupCell(baseObs, s, None, d);
    match FirstRowFor(current.rows, Some(s))
    case None =>
    case Some(k) =>
      FirstRowIsEarliest(current.rows, tab.streets, curKeys, s, k);
      GroupCellRead(current, curObs, current.rows[k], d);
      assert (s, current.rows[k].key) in curKeys;
  }

  /** The first row of a street in an arranged pivot holds its earliest key. */
  lemma FirstRowIsEarliest(rows: seq<PivotRow>, streets: seq<string>, keys: set<(string, Option<Date>)>, s: string, k: nat)
    requires Arranged(rows, streets) && RowKeys(rows) == keys
    requires FirstRowFor(rows, Some(s)) == Some(k)
    ensures k < |rows| && rows[k].street == s && EarliestKey(keys, s, rows[k].key)
  {
    assert rows[k].streetLabel == Label(rows[k].street, rows[k].street in streets);
    assert (rows[k].street, rows[k].key) in RowKeys(rows);
    forall g | g in keys && g.0 == s ensures g.1 == rows[k].key || KeyBefore(rows[k].key, g.1) {
      var m :| 0 <= m < |rows| && g == (rows[m].street, rows[m].key);
      assert rows[m].streetLabel == Label(rows[m].street, rows[m].street in streets);
      if k < m {
        assert RowBefore(streets, rows[k], rows[m]);
      }
    }
  }

  /** Unless the selection is the NaN label's text, at most one row is
      highlighted. */
  lemma OneSelectedRow(db: Snapshot, selected: Picked, dayType: string, period: string, tab: Registry.Tab,
                       code: int, id: RangeId, mainStreetId: int, t: Table)
    requires Registry.ValidTab(tab)
    requires GenerateTable(db, selected, dayType, period, tab, code, id, mainStreetId) == Ok(t)
    requires !Picks(selected, "nan")
    ensures forall i, j :: 0 <= i < |t.rows| && 0 <= j < |t.rows| && t.rows[i].rowClass == "selected" && t.rows[j].rowClass == "selected" ==> i == j
  {
    TableRowsFollowStreets(db, selected, dayType, period, tab, code, id, mainStreetId, t);
    AtMostOneSelected(t.rows, tab.streets, selected);
  }

  lemma AtMostOneSelected(rows: seq<TableRow>, streets: seq<string>, selected: Picked)
    requires forall i :: 0 <= i < |rows| ==> (rows[i].rowClass == "selected" <==> Picks(selected, StreetText(rows[i].id)))
    requires IdsInStreetOrder(rows, streets)
    requires !Picks(selected, "nan")
    ensures forall i, j :: 0 <= i < |rows| && 0 <= j < |rows| && rows[i].rowClass == "selected" && rows[j].rowClass == "selected" ==> i == j
  {
    forall i, j | 0 <= i < |rows| && 0 <= j < |rows| && rows[i].rowClass == "selected" && rows[j].rowClass == "selected"
      ensures i == j
    {
      assert rows[i].id == Some(selected.name) && rows[j].id == Some(selected.name);
    }
  }

  /** The "After" heading of a daily table is the date of a row the table
      kept, on the DVP tab. */
  lemma DayHeaderIsDataDate(db: Snapshot, selected: Picked, dayType: string, period: string, tab: Registry.Tab,
                            code: int, id: RangeId, mainStreetId: int, sel: Records.Selection, t: Table)
    requires Registry.ValidTab(tab)
    requires GenerateTable(db, selected, dayType, period, tab, code, id, mainStreetId) == Ok(t)
    requires SelectionFor(TableRange(tab, code, id).0, TableRange(tab, code, id).1) == Ok(sel)
    ensures var h := t.header;
      h.DayHeader? <==> !SelectsWeekly(sel)
    ensures var h := t.header;
      h.DayHeader? ==> tab.orientation == Registry.NS
                       && exists m :: m in db.data && KeepsDaily(m, period, dayType, tab, sel) && m.date == h.date
  {
    var sel', current, baseline := TableParts(db, selected, dayType, period, tab, code, id, mainStreetId, t);
    assert sel' == sel;
    var h := t.header;
    if h.DayHeader? {
      assert !SelectsWeekly(sel);
      var r := current.rows[0];
      assert (r.street, r.key) in RowKeys(current.rows);
      var m :| m in db.data && KeepsDaily(m, period, dayType, tab, sel) && (r.street, r.key) == (m.street, DateKey(m, true));
    }
  }

  /** The alternate-route tabs turn 'Last Day' and 'Select Date' into week 1. */
  lemma AlternateTabsFallBackToWeekOne(db: Snapshot, selected: Picked, dayType: string, period: string, tab: Registry.Tab,
                                       code: int, id: RangeId, mainStreetId: int)
    requires Registry.ValidTab(tab)
    requires Registry.IsAlternate(tab.orientation) && code < 2
    ensures GenerateTable(db, selected, dayType, period, tab, code, id, mainStreetId)
            == GenerateTable(db, selected, dayType, period, tab, 2, NumberId(1), mainStreetId)
    ensures GenerateTable(db, selected, dayType, period, tab, code, id, mainStreetId).Ok? ==>
            GenerateTable(db, selected, dayType, period, tab, code, id, mainStreetId).value.header == WeekHeader(1)
  {
    InputsFallBackToWeekOne(db, dayType, period, tab, code, id, mainStreetId);
  }

  /** The decoded selection and filtered pivots of a daily type on an
      alternate-route tab are those of week 1. */
  lemma InputsFallBackToWeekOne(db: Snapshot, dayType: string, period: string, tab: Registry.Tab,
                                code: int, id: RangeId, mainStreetId: int)
    requires Registry.ValidTab(tab)
    requires Registry.IsAlternate(tab.orientation) && code < 2
    ensures TableInputs(db, dayType, period, tab, code, id, mainStreetId)
            == TableInputs(db, dayType, period, tab, 2, NumberId(1), mainStreetId)
    ensures TableInputs(db, dayType, period, tab, code, id, mainStreetId).Ok? ==>
            TableInputs(db, dayType, period, tab, code, id, mainStreetId).value.0 == SelectWeek(1)
  {
    assert TableRange(tab, code, id) == TableRange(tab, 2, NumberId(1)) == (2, NumberId(1));
    SelectionRoundTrip(SelectWeek(1));
  }
}
