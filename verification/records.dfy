/** The immutable snapshot the dashboard loads at start-up: daily DVP
    measurements, weekly alternate-route measurements, the two baselines and
    the week/month reference tables, plus the selection a user makes with the
    date-range controls and the errors the engine can raise. */
module Records {
  import opened Common
  import opened Calendar

  /** One row of `DATA`: a segment's travel time on one day and time period.
      `mostRecent`, `weekNumber` and `monthNumber` are computed by the
      database query (the week/month numbers are NULL when no week or month
      row joins). */
  datatype Measurement = Measurement(
    street: string,
    direction: string,
    date: Date,
    dayType: string,
    category: string,
    period: string,
    tt: real,
    mostRecent: int,
    weekNumber: Option<int>,
    monthNumber: Option<int>)

  /** One row of `ALTERNATE_DATA`: an alternate route's weekly travel time
      over `[startWeek, endWeek)`. */
  datatype WeeklyMeasurement = WeeklyMeasurement(
    street: string,
    mainStreet: string,
    direction: string,
    category: string,
    period: string,
    tt: real,
    dayType: string,
    weekNumber: Option<int>,
    monthNumber: Option<int>,
    startWeek: Date,
    endWeek: Date)

  /** One row of `BASELINE` (no main street) or `ALTERNATE_BASELINE`. */
  datatype BaselineRow = BaselineRow(
    street: string,
    mainStreet: Option<string>,
    direction: string,
    dayType: string,
    period: string,
    tt: real)

  /** A row of the `WEEKS` (or `MONTHS`) reference table: an ordinal and the
      date the week (month) starts on. */
  datatype PeriodEntry = PeriodEntry(number: int, start: Date)

  /** `DATERANGE` / `DATERANGE_ALTERNATE`: the first and last data dates. */
  datatype DataRange = DataRange(first: Date, last: Date)

  /** What the date-range controls select; the id of each type is typed. */
  datatype Selection =
    | LastDay
    | SelectDate(date: Date)
    | SelectWeek(week: int)
    | SelectMonth(month: int)

  datatype Error =
    | RangeTypeOutOfRange        // DATERANGE_TYPES[i] raises IndexError
    | NotADate                   // a 'Select Date' id that is a dropdown number
    | NotANumber                 // a week or month id that is a date
    | WeekNotFound(week: int)    // WEEKS[...].iloc[0] raises IndexError
    | MonthNotFound(month: int)  // MONTHS[...].iloc[0] raises IndexError
    | NoSelectionForRangeType    // selected_data_alternate leaves its filter unbound
    | MainStreetOutOfRange       // DROPDOWN_MAIN_STREETS[o][i] raises IndexError
    | NoCurrentRows              // the table header reads row 0 of an empty frame
    | MissingDirection(direction: string) // a pivot has no column for a direction

  /** The frames the engine reads: `DATA`, `ALTERNATE_DATA`, `BASELINE`
      and `ALTERNATE_BASELINE`. */
  datatype Snapshot = Snapshot(
    data: seq<Measurement>,
    alternateData: seq<WeeklyMeasurement>,
    baseline: seq<BaselineRow>,
    alternateBaseline: seq<BaselineRow>)

  const PilotCategory: string := "DVP Lane Restrictions"
  const ExcludedCategory: string := "Excluded"

  /** `TABLE[TABLE['number'] == n]['start'].iloc[0]`: the first entry with
      that ordinal, or None when there is none (the IndexError). */
  function LookupPeriod(table: seq<PeriodEntry>, n: int): (r: Option<Date>)
    ensures r.None? <==> forall i :: 0 <= i < |table| ==> table[i].number != n
    ensures r.Some? ==> exists i :: 0 <= i < |table| && table[i].number == n && table[i].start == r.value
                                    && forall j :: 0 <= j < i ==> table[j].number != n
  {
    if |table| == 0 then None
    else if table[0].number == n then
      assert table[0].number == n && table[0].start == table[0].start;
      Some(table[0].start)
    else
      var r := LookupPeriod(table[1..], n);
      if r.Some? then
        var i :| 0 <= i < |table[1..]| && table[1..][i].number == n && table[1..][i].start == r.value
                 && forall j :: 0 <= j < i ==> table[1..][j].number != n;
        assert table[i + 1].number == n && table[i + 1].start == r.value;
        r
      else r
  }

  predicate AllStartsValid(table: seq<PeriodEntry>) {
    forall i :: 0 <= i < |table| ==> Valid(table[i].start)
  }

  lemma LookupValid(table: seq<PeriodEntry>, n: int)
    requires AllStartsValid(table) && LookupPeriod(table, n).Some?
    ensures Valid(LookupPeriod(table, n).value)
  {
  }

  /** The earliest of a non-empty list of dates (pandas `.min()`). */
  function Earliest(ds: seq<Date>): (r: Date)
    requires |ds| > 0
    ensures r in ds
    ensures forall i :: 0 <= i < |ds| ==> OnOrBefore(r, ds[i])
  {
    if |ds| == 1 then ds[0]
    else
      var rest := Earliest(ds[1..]);
      assert forall i :: 1 <= i < |ds| ==> ds[i] == ds[1..][i - 1];
      if Before(rest, ds[0]) then rest else ds[0]
  }

  /** The latest of a non-empty list of dates (pandas `.max()`). */
  function Latest(ds: seq<Date>): (r: Date)
    requires |ds| > 0
    ensures r in ds
    ensures forall i :: 0 <= i < |ds| ==> OnOrBefore(ds[i], r)
  {
    if |ds| == 1 then ds[0]
    else
      var rest := Latest(ds[1..]);
      assert forall i :: 1 <= i < |ds| ==> ds[i] == ds[1..][i - 1];
      if Before(ds[0], rest) then rest else ds[0]
  }

  /** `DATERANGE = [DATA['date'].min(), DATA['date'].max()]`. */
  function DateRangeOf(data: seq<Measurement>): (r: DataRange)
    requires |data| > 0
    ensures forall i :: 0 <= i < |data| ==> OnOrBefore(r.first, data[i].date) && OnOrBefore(data[i].date, r.last)
    ensures exists i :: 0 <= i < |data| && data[i].date == r.first
    ensures exists i :: 0 <= i < |data| && data[i].date == r.last
  {
    var ds := seq(|data|, i requires 0 <= i < |data| => data[i].date);
    assert forall i :: 0 <= i < |data| ==> ds[i] == data[i].date;
    DataRange(Earliest(ds), Latest(ds))
  }

  /** `DATERANGE_ALTERNATE = [start_week.min(), end_week.max()]`. */
  function AlternateDateRangeOf(data: seq<WeeklyMeasurement>): (r: DataRange)
    requires |data| > 0
    ensures forall i :: 0 <= i < |data| ==> OnOrBefore(r.first, data[i].startWeek) && OnOrBefore(data[i].endWeek, r.last)
    ensures exists i :: 0 <= i < |data| && data[i].startWeek == r.first
    ensures exists i :: 0 <= i < |data| && data[i].endWeek == r.last
  {
    var starts := seq(|data|, i requires 0 <= i < |data| => data[i].startWeek);
    var ends := seq(|data|, i requires 0 <= i < |data| => data[i].endWeek);
    assert forall i :: 0 <= i < |data| ==> starts[i] == data[i].startWeek && ends[i] == data[i].endWeek;
    DataRange(Earliest(starts), Latest(ends))
  }
}
