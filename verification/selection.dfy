/** The selection predicate (`selected_data`, `selected_data_alternate`):
    which rows are the point the user is inspecting, per date-range type. */
module Selection {
  import opened Common
  import opened Calendar
  import opened Records
  import opened Window
  import Registry

  /** `selected_data`, row by row: 'Last Day' keeps the rows the query
      flagged most recent, the other types compare the date, the week number
      or the month number with the id (a NULL number never matches). */
  predicate SelectedData(row: Measurement, sel: Selection) {
    match sel
    case LastDay => row.mostRecent == 1
    case SelectDate(d) => row.date == d
    case SelectWeek(n) => row.weekNumber == Some(n)
    case SelectMonth(n) => row.monthNumber == Some(n)
  }

  /** The id a control passes along with a range-type code: the picked
      date for 'Select Date', a dropdown number otherwise. */
  datatype RangeId = DateId(date: Date) | NumberId(number: int)

  /** `DATERANGE_TYPES[code]` together with its id, as a typed selection. */
  function SelectionFor(code: int, id: RangeId): (r: Result<Records.Selection, Error>)
    ensures Registry.RangeTypeAt(code).None? <==> r == Err(RangeTypeOutOfRange)
    ensures Registry.RangeTypeAt(code) == Some(Registry.LastDay) ==> r == Ok(LastDay)
    ensures r.Ok? ==> Registry.RangeTypeAt(code) == Some(KindOf(r.value))
    ensures r.Ok? && !r.value.LastDay? ==> id == IdOf(r.value)
    ensures r.Err? && Registry.RangeTypeAt(code).Some? ==>
              if Registry.RangeTypeAt(code).value.SelectDate? then r.error == NotADate && id.NumberId?
              else r.error == NotANumber && id.DateId?
  {
    match Registry.RangeTypeAt(code)
    case None => Err(RangeTypeOutOfRange)
    case Some(t) =>
      if t.LastDay? then Ok(LastDay)
      else if t.SelectDate? then (if id.DateId? then Ok(SelectDate(id.date)) else Err(NotADate))
      else if id.DateId? then Err(NotANumber)
      else if t.SelectWeek? then Ok(SelectWeek(id.number))
      else Ok(SelectMonth(id.number))
  }

  /** The range type of a selection. */
  function KindOf(sel: Records.Selection): Registry.RangeType {
    match sel
    case LastDay => Registry.LastDay
    case SelectDate(_) => Registry.SelectDate
    case SelectWeek(_) => Registry.SelectWeek
    case SelectMonth(_) => Registry.SelectMonth
  }

  /** The code the controls use for a selection's type (its position in
      `DATERANGE_TYPES`) and the id they send with it. */
  function CodeOf(sel: Records.Selection): int {
    match sel
    case LastDay => 0
    case SelectDate(_) => 1
    case SelectWeek(_) => 2
    case SelectMonth(_) => 3
  }

  function IdOf(sel: Records.Selection): RangeId {
    match sel
    case LastDay => NumberId(1)
    case SelectDate(d) => DateId(d)
    case SelectWeek(n) => NumberId(n)
    case SelectMonth(n) => NumberId(n)
  }

  /** Decoding what the controls send for a selection gives it back. */
  lemma SelectionRoundTrip(sel: Records.Selection)
    ensures SelectionFor(CodeOf(sel), IdOf(sel)) == Ok(sel)
  {
  }

  /** A negative code names the type counted from the end of the list. */
  lemma NegativeCodesAlias(code: int, id: RangeId)
    requires -4 <= code < 0
    ensures SelectionFor(code, id) == SelectionFor(code + 4, id)
  {
  }

  /** `selected_data_alternate` only binds its filter for weeks and months;
      for the other types it raises before returning. */
  predicate SelectsWeekly(sel: Selection) {
    sel.SelectWeek? || sel.SelectMonth?
  }

  predicate SelectedDataAlternate(row: WeeklyMeasurement, sel: Selection)
    requires SelectsWeekly(sel)
  {
    if sel.SelectWeek? then row.weekNumber == Some(sel.week) else row.monthNumber == Some(sel.month)
  }

  /** The selection and its negation split any frame: every row is in exactly
      one of `df[mask]` and `df[~mask]`. */
  lemma SelectionSplits(rows: seq<Measurement>, sel: Selection)
    ensures multiset(Filter(rows, r => SelectedData(r, sel))) + multiset(Filter(rows, r => !SelectedData(r, sel)))
            == multiset(rows)
  {
    FilterSplit(rows, r => true, r => SelectedData(r, sel), r => !SelectedData(r, sel));
    FilterAll(rows);
  }

  // ---------------------------------------------------------------------
  // 'Last Day' and the query's most-recent flag

  /** Rows of one (direction, day type, period) partition of the query's
      window function. */
  predicate SamePartition(a: Measurement, b: Measurement) {
    a.direction == b.direction && a.dayType == b.dayType && a.period == b.period
  }

  /** The flag the query computes: 1 exactly on the rows whose date is the
      latest of their partition. */
  predicate MostRecentFlagsConsistent(rows: seq<Measurement>) {
    forall i :: 0 <= i < |rows| ==>
      (rows[i].mostRecent == 1 <==>
         forall j :: 0 <= j < |rows| && SamePartition(rows[j], rows[i]) ==> OnOrBefore(rows[j].date, rows[i].date))
  }

  /** Under the query's flags, 'Last Day' selects in every non-empty
      partition at least one row, and all the rows it selects in a partition
      share that partition's latest date. */
  lemma LastDaySelectsLatest(rows: seq<Measurement>, k: nat)
    requires MostRecentFlagsConsistent(rows)
    requires k < |rows|
    ensures exists i :: 0 <= i < |rows| && SamePartition(rows[i], rows[k]) && SelectedData(rows[i], LastDay)
    ensures forall i, j ::
              (0 <= i < |rows| && 0 <= j < |rows| && SamePartition(rows[i], rows[k]) && SamePartition(rows[j], rows[k])
               && SelectedData(rows[i], LastDay) && SelectedData(rows[j], LastDay)) ==> rows[i].date == rows[j].date
  {
    var idx := LatestInPartition(rows, rows[k], 0);
    assert SamePartition(rows[idx], rows[k]);
    assert rows[idx].mostRecent == 1;
  }

  /** An index of a latest row among `rows[from..]` in `p`'s partition,
      if `rows[from..]` has a row of that partition; it is latest in all of
      `rows` when `from` is 0. */
  function LatestInPartition(rows: seq<Measurement>, p: Measurement, from: nat): (i: nat)
    requires from < |rows|
    requires exists j :: from <= j < |rows| && SamePartition(rows[j], p)
    ensures from <= i < |rows| && SamePartition(rows[i], p)
    ensures forall j :: from <= j < |rows| && SamePartition(rows[j], p) ==> OnOrBefore(rows[j].date, rows[i].date)
    decreases |rows| - from
  {
    if from + 1 == |rows| then from
    else if !(exists j :: from + 1 <= j < |rows| && SamePartition(rows[j], p)) then from
    else
      var rest := LatestInPartition(rows, p, from + 1);
      if !SamePartition(rows[from], p) || Before(rows[from].date, rows[rest].date) then rest else from
  }

  // ---------------------------------------------------------------------
  // The selected rows lie inside the graph's window

  /** A date-selected row inside the data range lies inside the window. */
  lemma SelectedDateRowVisible(row: Measurement, d: Date, range: DataRange, weeks: seq<PeriodEntry>, months: seq<PeriodEntry>)
    requires InputsValid(SelectDate(d), range, weeks, months)
    requires OnOrBefore(range.first, row.date) && OnOrBefore(row.date, range.last)
    requires SelectedData(row, SelectDate(d))
    ensures GraphBounds(SelectDate(d), range, weeks, months).Ok?
    ensures InWindow(row.date, GraphBounds(SelectDate(d), range, weeks, months).value)
  {
    PickedDateVisible(d, range, weeks, months);
  }

  /** A week-selected row inside the data range whose date falls in the
      chosen week (the query's join: `week <= dt < week + 7 days`) lies inside
      the window. */
  lemma SelectedWeekRowVisible(row: Measurement, n: int, range: DataRange, weeks: seq<PeriodEntry>, months: seq<PeriodEntry>)
    requires InputsValid(SelectWeek(n), range, weeks, months)
    requires Valid(row.date)
    requires OnOrBefore(range.first, row.date) && OnOrBefore(row.date, range.last)
    requires SelectedData(row, SelectWeek(n))
    requires LookupPeriod(weeks, n).Some?
    requires var ws := LookupPeriod(weeks, n).value;
             Valid(ws) && Ordinal(ws) <= Ordinal(row.date) < Ordinal(ws) + 7
    ensures GraphBounds(SelectWeek(n), range, weeks, months).Ok?
    ensures InWindow(row.date, GraphBounds(SelectWeek(n), range, weeks, months).value)
  {
    LookupValid(weeks, n);
    var ws := LookupPeriod(weeks, n).value;
    var m := MondayOf(ws);
    WeekWindowShape(SelectWeek(n), range, weeks, months, m);
    var w := GraphBounds(SelectWeek(n), range, weeks, months).value;
    WeekRowInWindow(row.date, m, range, w);
  }

  /** The ordinal bookkeeping of the week case: a date inside the data and
      less than two weeks after the Monday `m` lies in the window around `m`. */
  lemma WeekRowInWindow(d: Date, m: Date, range: DataRange, w: Window)
    requires Valid(d) && Valid(m) && Valid(range.first) && Valid(range.last) && Valid(w.start) && Valid(w.end)
    requires Ordinal(m) <= Ordinal(d) < Ordinal(m) + 14
    requires OnOrBefore(range.first, d) && OnOrBefore(d, range.last)
    requires Ordinal(w.start) == IntMax(Ordinal(m) - 7, Ordinal(range.first))
    requires Ordinal(w.end) == IntMin(Ordinal(m) + 14, Ordinal(range.last) + 1)
    ensures InWindow(d, w)
  {
    OnOrBeforeOrdinal(range.first, d);
    OnOrBeforeOrdinal(d, range.last);
    OnOrBeforeOrdinal(w.start, d);
    OrdinalMonotone(d, w.end);
  }

  /** A month-selected row inside the data range whose date falls in the
      chosen month (the query's join: `month <= dt < month + 1 month`, the
      month starting on its first day) lies inside the window. */
  lemma SelectedMonthRowVisible(row: Measurement, n: int, range: DataRange, weeks: seq<PeriodEntry>, months: seq<PeriodEntry>)
    requires InputsValid(SelectMonth(n), range, weeks, months)
    requires Valid(row.date)
    requires OnOrBefore(range.first, row.date) && OnOrBefore(row.date, range.last)
    requires SelectedData(row, SelectMonth(n))
    requires LookupPeriod(months, n).Some?
    requires var ms := LookupPeriod(months, n).value;
             Valid(ms) && ms.day == 1 && OnOrBefore(ms, row.date) && Before(row.date, FirstOfNextMonth(ms))
    ensures GraphBounds(SelectMonth(n), range, weeks, months).Ok?
    ensures InWindow(row.date, GraphBounds(SelectMonth(n), range, weeks, months).value)
  {
    LookupValid(months, n);
    var ms := LookupPeriod(months, n).value;
    MonthWindowShape(n, range, weeks, months);
    var w := GraphBounds(SelectMonth(n), range, weeks, months).value;
    MonthRowInWindow(row.date, ms, range, w);
  }

  /** The ordinal bookkeeping of the month case: a date of month `ms` inside
      the data lies in any window shaped as 'Select Month' shapes it. */
  lemma MonthRowInWindow(d: Date, ms: Date, range: DataRange, w: Window)
    requires Valid(d) && Valid(ms) && ms.day == 1 && Valid(range.first) && Valid(range.last)
    requires Valid(w.start) && Valid(w.end)
    requires OnOrBefore(range.first, d) && OnOrBefore(d, range.last)
    requires OnOrBefore(ms, d) && Before(d, FirstOfNextMonth(ms))
    requires Ordinal(w.end) == IntMin(Ordinal(FirstOfNextMonth(ms)), Ordinal(range.last) + 1)
    requires ms == FirstOfMonth(range.last) ==>
               Ordinal(w.start) == IntMax(Ordinal(AddMonths(range.last, -1)), Ordinal(range.first))
    requires ms != FirstOfMonth(range.last) ==>
               Ordinal(w.start) == IntMax(Ordinal(FirstOfMonth(ms)), Ordinal(range.first))
    ensures InWindow(d, w)
  {
    OnOrBeforeOrdinal(range.first, d);
    OnOrBeforeOrdinal(d, range.last);
    OnOrBeforeOrdinal(ms, d);
    OrdinalMonotone(d, FirstOfNextMonth(ms));
    if ms == FirstOfMonth(range.last) {
      var prev := AddMonths(range.last, -1);
      EarlierMonthIsBefore(prev, ms);
      OrdinalMonotone(prev, ms);
    } else {
      assert FirstOfMonth(ms) == ms;
    }
    OnOrBeforeOrdinal(w.start, d);
    OrdinalMonotone(d, w.end);
  }

  /** A date of an earlier month is an earlier date. */
  lemma EarlierMonthIsBefore(a: Date, b: Date)
    requires Valid(a) && Valid(b) && MonthIndex(a) < MonthIndex(b)
    ensures Before(a, b)
  {
  }
}
