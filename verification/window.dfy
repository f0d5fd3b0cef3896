/** The graph's date window (`graph_bounds_for_date_range` and its
    `_alternate` twin, which differ only in the data range they clamp to):
    for each date-range type, the half-open interval `[start, end)` of dates
    whose bars the trend chart shows. */
module Window {
  import opened Common
  import opened Calendar
  import opened Records

  datatype Window = Window(start: Date, end: Date)

  /** `start <= d < end`, compared as Python compares dates. */
  predicate InWindow(d: Date, w: Window) {
    OnOrBefore(w.start, d) && Before(d, w.end)
  }

  /** Everything the resolver does date arithmetic on is a real date. */
  predicate InputsValid(sel: Selection, range: DataRange, weeks: seq<PeriodEntry>, months: seq<PeriodEntry>) {
    && Valid(range.first) && Valid(range.last)
    && (sel.SelectDate? ==> Valid(sel.date))
    && AllStartsValid(weeks) && AllStartsValid(months)
  }

  /** The window resolver; `range` is `DATERANGE` for the DVP data and
      `DATERANGE_ALTERNATE` for the alternate routes. A week or month ordinal
      missing from its reference table is the IndexError of `.iloc[0]`. */
  function GraphBounds(sel: Selection, range: DataRange, weeks: seq<PeriodEntry>, months: seq<PeriodEntry>): (r: Result<Window, Error>)
    requires InputsValid(sel, range, weeks, months)
    ensures r.Err? <==> (sel.SelectWeek? && LookupPeriod(weeks, sel.week).None?)
                        || (sel.SelectMonth? && LookupPeriod(months, sel.month).None?)
    ensures r.Err? && sel.SelectWeek? ==> r.error == WeekNotFound(sel.week)
    ensures r.Err? && sel.SelectMonth? ==> r.error == MonthNotFound(sel.month)
    ensures r.Ok? ==> Valid(r.value.start) && Valid(r.value.end)
  {
    match sel
    case LastDay =>
      Ok(Window(AddDays(range.last, -14), AddDays(range.last, 1)))
    case SelectDate(d) =>
      Ok(WeekWindow(d, range))
    case SelectWeek(n) =>
      var picked := LookupPeriod(weeks, n);
      if picked.None? then Err(WeekNotFound(n))
      else
        LookupValid(weeks, n);
        Ok(WeekWindow(picked.value, range))
    case SelectMonth(n) =>
      var picked := LookupPeriod(months, n);
      if picked.None? then Err(MonthNotFound(n))
      else
        LookupValid(months, n);
        Ok(MonthWindow(picked.value, range))
  }

  /** 'Select Date' / 'Select Week': from the Monday a week before the
      picked date's week to two weeks after that week's Monday, clamped to
      the data. */
  function WeekWindow(picked: Date, range: DataRange): (w: Window)
    requires Valid(picked) && Valid(range.first) && Valid(range.last)
    ensures Valid(w.start) && Valid(w.end)
  {
    var monday := MondayOf(picked);
    Window(MaxDate(AddDays(monday, -7), range.first),
           MinDate(AddDays(monday, 14), AddDays(range.last, 1)))
  }

  /** 'Select Month': the picked calendar month clamped to the data, except
      that the data's last month shows the month of data before its end. */
  function MonthWindow(picked: Date, range: DataRange): (w: Window)
    requires Valid(picked) && Valid(range.first) && Valid(range.last)
    ensures Valid(w.start) && Valid(w.end)
  {
    var monthStart := AddDays(picked, -(picked.day - 1));
    var start :=
      if picked == FirstOfMonth(range.last) then MaxDate(AddMonths(range.last, -1), range.first)
      else MaxDate(monthStart, range.first);
    Window(start, MinDate(AddMonths(monthStart, 1), AddDays(range.last, 1)))
  }

  /** The first day of the month after `d`'s month. */
  function FirstOfNextMonth(d: Date): (r: Date)
    requires Valid(d)
    ensures Valid(r) && r.day == 1
  {
    if d.month == 12 then Date(d.year + 1, 1, 1) else Date(d.year, d.month + 1, 1)
  }

  // ---------------------------------------------------------------------
  // Properties

  lemma MaxDateOrdinal(a: Date, b: Date)
    requires Valid(a) && Valid(b)
    ensures Ordinal(MaxDate(a, b)) == IntMax(Ordinal(a), Ordinal(b))
  {
    OrdinalMonotone(a, b);
  }

  lemma MinDateOrdinal(a: Date, b: Date)
    requires Valid(a) && Valid(b)
    ensures Ordinal(MinDate(a, b)) == IntMin(Ordinal(a), Ordinal(b))
  {
    OrdinalMonotone(b, a);
  }

  /** 'Last Day': exactly the fifteen days ending with the data's last day,
      whatever the id, and the start is not clamped to the data's first day. */
  lemma LastDayWindow(range: DataRange, weeks: seq<PeriodEntry>, months: seq<PeriodEntry>)
    requires InputsValid(LastDay, range, weeks, months)
    ensures GraphBounds(LastDay, range, weeks, months).Ok?
    ensures var w := GraphBounds(LastDay, range, weeks, months).value;
            && Ordinal(w.start) == Ordinal(range.last) - 14
            && Ordinal(w.end) == Ordinal(range.last) + 1
            && (Ordinal(range.last) - Ordinal(range.first) < 14 ==> Before(w.start, range.first))
  {
    var w := GraphBounds(LastDay, range, weeks, months).value;
    OrdinalMonotone(w.start, range.first);
  }

  /** The anchor date of a 'Select Date' / 'Select Week' window. */
  function WeekAnchor(sel: Selection, weeks: seq<PeriodEntry>): Option<Date>
    requires sel.SelectDate? || sel.SelectWeek?
  {
    if sel.SelectDate? then Some(sel.date) else LookupPeriod(weeks, sel.week)
  }

  /** 'Select Date' / 'Select Week': for the Monday `m` of the anchor's week
      (a Monday at most six days before it), the window is
      `[max(m - 7 days, first), min(m + 14 days, last + 1 day))`. */
  lemma WeekWindowShape(sel: Selection, range: DataRange, weeks: seq<PeriodEntry>, months: seq<PeriodEntry>, m: Date)
    requires InputsValid(sel, range, weeks, months)
    requires sel.SelectDate? || sel.SelectWeek?
    requires WeekAnchor(sel, weeks).Some?
    requires Valid(m) && Weekday(m) == 0
    requires var a := WeekAnchor(sel, weeks).value; Valid(a) && Ordinal(a) - 6 <= Ordinal(m) <= Ordinal(a)
    ensures GraphBounds(sel, range, weeks, months).Ok?
    ensures var w := GraphBounds(sel, range, weeks, months).value;
            && Ordinal(w.start) == IntMax(Ordinal(m) - 7, Ordinal(range.first))
            && Ordinal(w.end) == IntMin(Ordinal(m) + 14, Ordinal(range.last) + 1)
  {
    var a := WeekAnchor(sel, weeks).value;
    if sel.SelectDate? {
      assert GraphBounds(sel, range, weeks, months) == Ok(WeekWindow(a, range));
    } else {
      assert GraphBounds(sel, range, weeks, months) == Ok(WeekWindow(a, range));
    }
    WeekWindowOrdinals(a, range, m);
  }

  lemma WeekWindowOrdinals(a: Date, range: DataRange, m: Date)
    requires Valid(a) && Valid(range.first) && Valid(range.last)
    requires Valid(m) && Weekday(m) == 0 && Ordinal(a) - 6 <= Ordinal(m) <= Ordinal(a)
    ensures var w := WeekWindow(a, range);
            && Ordinal(w.start) == IntMax(Ordinal(m) - 7, Ordinal(range.first))
            && Ordinal(w.end) == IntMin(Ordinal(m) + 14, Ordinal(range.last) + 1)
  {
    MondayOfUnique(a, m);
    MaxDateOrdinal(AddDays(m, -7), range.first);
    MinDateOrdinal(AddDays(m, 14), AddDays(range.last, 1));
  }

  /** Moving a first-of-month forward one month gives the next month's first. */
  lemma NextMonthOfFirst(d: Date)
    requires Valid(d) && d.day == 1
    ensures AddMonths(d, 1) == FirstOfNextMonth(d)
  {
    var r := AddMonths(d, 1);
    var t := MonthIndex(d) + 1;
    assert t == r.year * 12 + (r.month - 1) && 0 <= r.month - 1 < 12;
    var n := FirstOfNextMonth(d);
    assert t == n.year * 12 + (n.month - 1) && 0 <= n.month - 1 < 12;
    assert r.year == t / 12 && n.year == t / 12;
  }

  /** 'Select Month': the window ends at the first of the next month or the
      day after the data ends, whichever is earlier; it starts at the chosen
      month's first day (clamped to the data), except when the chosen month
      is the data's last month, where it starts one calendar month before the
      last data day (clamped to the data). */
  lemma MonthWindowShape(n: int, range: DataRange, weeks: seq<PeriodEntry>, months: seq<PeriodEntry>)
    requires InputsValid(SelectMonth(n), range, weeks, months)
    requires LookupPeriod(months, n).Some?
    ensures GraphBounds(SelectMonth(n), range, weeks, months).Ok?
    ensures var w := GraphBounds(SelectMonth(n), range, weeks, months).value;
            var p := LookupPeriod(months, n).value;
            && Valid(p)
            && Ordinal(w.end) == IntMin(Ordinal(FirstOfNextMonth(p)), Ordinal(range.last) + 1)
            && (p == FirstOfMonth(range.last) ==>
                  Ordinal(w.start) == IntMax(Ordinal(AddMonths(range.last, -1)), Ordinal(range.first)))
            && (p != FirstOfMonth(range.last) ==>
                  Ordinal(w.start) == IntMax(Ordinal(FirstOfMonth(p)), Ordinal(range.first)))
  {
    LookupValid(months, n);
    var p := LookupPeriod(months, n).value;
    assert GraphBounds(SelectMonth(n), range, weeks, months) == Ok(MonthWindow(p, range));
    MonthWindowOrdinals(p, range);
  }

  lemma MonthWindowOrdinals(p: Date, range: DataRange)
    requires Valid(p) && Valid(range.first) && Valid(range.last)
    ensures var w := MonthWindow(p, range);
            && Ordinal(w.end) == IntMin(Ordinal(FirstOfNextMonth(p)), Ordinal(range.last) + 1)
            && (p == FirstOfMonth(range.last) ==>
                  Ordinal(w.start) == IntMax(Ordinal(AddMonths(range.last, -1)), Ordinal(range.first)))
            && (p != FirstOfMonth(range.last) ==>
                  Ordinal(w.start) == IntMax(Ordinal(FirstOfMonth(p)), Ordinal(range.first)))
  {
    MonthWindowEndOrdinal(p, range);
    MonthWindowStartOrdinal(p, range);
  }

  lemma MonthWindowEndOrdinal(p: Date, range: DataRange)
    requires Valid(p) && Valid(range.first) && Valid(range.last)
    ensures Ordinal(MonthWindow(p, range).end) == IntMin(Ordinal(FirstOfNextMonth(p)), Ordinal(range.last) + 1)
  {
    var f := FirstOfMonth(p);
    FirstOfMonthByDays(p);
    assert MonthWindow(p, range).end == MinDate(AddMonths(f, 1), AddDays(range.last, 1));
    assert FirstOfNextMonth(f) == FirstOfNextMonth(p);
    MonthWindowEnd(f, AddDays(range.last, 1));
  }

  lemma MonthWindowStartOrdinal(p: Date, range: DataRange)
    requires Valid(p) && Valid(range.first) && Valid(range.last)
    ensures p == FirstOfMonth(range.last) ==>
              Ordinal(MonthWindow(p, range).start) == IntMax(Ordinal(AddMonths(range.last, -1)), Ordinal(range.first))
    ensures p != FirstOfMonth(range.last) ==>
              Ordinal(MonthWindow(p, range).start) == IntMax(Ordinal(FirstOfMonth(p)), Ordinal(range.first))
  {
    var w := MonthWindow(p, range);
    if p == FirstOfMonth(range.last) {
      assert w.start == MaxDate(AddMonths(range.last, -1), range.first);
      MaxDateOrdinal(AddMonths(range.last, -1), range.first);
    } else {
      FirstOfMonthByDays(p);
      assert w.start == MaxDate(FirstOfMonth(p), range.first);
      MaxDateOrdinal(FirstOfMonth(p), range.first);
    }
  }

  lemma MonthWindowEnd(f: Date, limit: Date)
    requires Valid(f) && f.day == 1 && Valid(limit)
    ensures Ordinal(MinDate(AddMonths(f, 1), limit)) == IntMin(Ordinal(FirstOfNextMonth(f)), Ordinal(limit))
  {
    NextMonthOfFirst(f);
    MinDateOrdinal(AddMonths(f, 1), limit);
  }

  /** Every window ends no later than the day after the data's last day, and
      every window but 'Last Day' starts no earlier than the data's first day. */
  lemma WindowWithinData(sel: Selection, range: DataRange, weeks: seq<PeriodEntry>, months: seq<PeriodEntry>)
    requires InputsValid(sel, range, weeks, months)
    requires GraphBounds(sel, range, weeks, months).Ok?
    ensures var w := GraphBounds(sel, range, weeks, months).value;
            && Ordinal(w.end) <= Ordinal(range.last) + 1
            && (!sel.LastDay? ==> Ordinal(range.first) <= Ordinal(w.start))
  {
    var w := GraphBounds(sel, range, weeks, months).value;
    match sel
    case LastDay =>
    case SelectDate(d) =>
      WeekWindowShape(sel, range, weeks, months, MondayOf(d));
    case SelectWeek(k) =>
      LookupValid(weeks, k);
      WeekWindowShape(sel, range, weeks, months, MondayOf(LookupPeriod(weeks, k).value));
    case SelectMonth(k) =>
      MonthWindowShape(k, range, weeks, months);
  }

  /** A date picked inside the data range is shown: the window is non-empty
      and contains it. */
  lemma PickedDateVisible(d: Date, range: DataRange, weeks: seq<PeriodEntry>, months: seq<PeriodEntry>)
    requires InputsValid(SelectDate(d), range, weeks, months)
    requires OnOrBefore(range.first, d) && OnOrBefore(d, range.last)
    ensures GraphBounds(SelectDate(d), range, weeks, months).Ok?
    ensures var w := GraphBounds(SelectDate(d), range, weeks, months).value;
            InWindow(d, w) && Before(w.start, w.end)
  {
    var w := GraphBounds(SelectDate(d), range, weeks, months).value;
    WeekWindowShape(SelectDate(d), range, weeks, months, MondayOf(d));
    OnOrBeforeOrdinal(range.first, d);
    OnOrBeforeOrdinal(d, range.last);
    OnOrBeforeOrdinal(w.start, d);
    OrdinalMonotone(d, w.end);
    OrdinalMonotone(w.start, w.end);
  }
}
