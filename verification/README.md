# DVP lane-closure dashboard: date windows and data selection

This project models the data core of the Don Valley Parkway lane-closure
dashboard (`app.py`) in Dafny. The dashboard compares current travel times
with a baseline in two places:

- the **table** has one row per street segment, with "after" and baseline
  travel times for the tab's two directions;
- the **trend charts** show one segment's bars inside a date window.

The user controls the tab (the DVP itself, or the north-south or east-west
alternate routes), the time period and day type, and a date-range type with
its id:

- 'Last Day';
- 'Select Date', with a picked date;
- 'Select Week', with a week number;
- 'Select Month', with a month number.

The model covers:

- the tab registry: street order, directions, main streets, and the
  positional range-type codes (`Registry`);
- proleptic-Gregorian date arithmetic as Python's `date` and
  `relativedelta` do it (`Calendar`);
- the loaded frames as immutable sequences of records, their min/max date
  range, and the week/month lookup tables (`Records`);
- the graph window for each range type (`Window`);
- the selection predicates (`Selection`);
- the trend filters and the series a figure draws (`Trend`);
- `pivot_order`, mean travel time per group in canonical street order
  (`Pivot`);
- `filter_table_data`, the cell/row/table assembly of `generate_table`
  (`Table`);
- the control callbacks that feed them, including the street the chart
  callback charts (`Controls`).

Python behaviour the model spells out rather than assumes:

- negative list indices alias from the end;
- pandas NaN compares false and never equals a label;
- `str(nan)` is `"nan"`;
- a list never equals a string;
- `.iloc[0]` on an empty frame and a missing pivot column are errors.

Errors are values of `Records.Error`, never preconditions.

When a trend filter has nothing to plot, the source returns a triple whose
third element is the `DataFrame` class itself, not an empty frame (app.py
lines 416, 426, 462 and 474). Its `.empty` attribute is then a property
object, which is truthy. So `generate_figure` still returns None, which is
what an empty frame would give. The model makes this sentinel explicit as
`Trend.Series.NoData`; it has no observable effect.

The model follows the code wherever the code and its prose description
differ. For example, the 'Select Month' window starts one month before the
end of the data only when the picked month is the data's last calendar
month. That is the test at app.py:354. The window does not depend on how
many days of that month have data.

## Model

| member | source | states |
|---|---|---|
| Registry.TabOf | app.py:131-170 | a tab's configuration lists each street once, has two directions, and has a main-street list exactly on the alternate-route tabs |
| Registry.OrientationFromDir | app.py:502-506 | the first tab, in registry order, whose directions contain the direction; None exactly when no tab has it |
| Registry.AlternateNeverResolved | app.py:170 | no direction ever resolves to the north-south alternate tab, because the DVP tab shares its directions and comes first |
| Registry.PyIndex | app.py:209 | Python list indexing: defined for -len <= i < len, with negative indices counted from the end |
| Records.LookupPeriod | app.py:348 | the start of the first reference row with the ordinal, or None (the IndexError) exactly when no row has it |
| Records.DateRangeOf | app.py:171 | DATERANGE bounds every row's date and is attained by some row at each end |
| Records.AlternateDateRangeOf | app.py:173 | DATERANGE_ALTERNATE bounds every start and end week and is attained at both ends |
| Calendar.AddDays | app.py:341-342 | moving by n days moves the day ordinal by exactly n |
| Calendar.MondayOf | app.py:349 | the start of the week is a Monday at most six days before the date |
| Calendar.AddMonths | app.py:356 | `relativedelta(months=k)` moves exactly k months and clamps the day to the target month's length |
| Calendar.AddMonthsIsRelativeMonths | app.py:356 | moving by month index agrees with dateutil's add-and-carry stepping for up to eleven months |
| Calendar.AddMonthsRoundTrip | app.py:356-359 | for days up to 28, moving k months and back returns the same date |
| Calendar.FirstOfMonthByDays | app.py:358-359 | going back `day - 1` days reaches the first of the month |
| Window.GraphBounds | app.py:339-395 | the window is defined except when a week or month number is missing from its table, which gives WeekNotFound or MonthNotFound; the alternate routes use the same resolver over DATERANGE_ALTERNATE |
| Window.LastDayWindow | app.py:340-343 | 'Last Day' shows the fifteen days ending with the data's last day, whatever the id, and the start is not clamped to the data |
| Window.WeekWindowShape | app.py:344-351 | 'Select Date' and 'Select Week' show from the Monday a week before the anchor's week to two weeks after that Monday, clamped to the data |
| Window.WeekWindowOrdinals | app.py:349-351 | in day numbers, the week window starts at the later of the Monday a week before the anchor's Monday and the data's first day, and ends at the earlier of two weeks after that Monday and the day after the data |
| Window.MonthWindowShape | app.py:352-361 | 'Select Month' ends at the next month's first day or the day after the data, whichever is earlier; it starts at the month's first day, or one month before the data's end when the picked month is the data's last |
| Window.MonthWindowEndOrdinal | app.py:359-360 | in day numbers, the month window ends at the earlier of the next month's first day and the day after the data |
| Window.MonthWindowStartOrdinal | app.py:353-358 | in day numbers, the month window starts at the later of the data's first day and either one month before the data's end (picked month is the data's last) or the month's first day |
| Window.WindowWithinData | app.py:339-366 | every window ends by the day after the data; every window except 'Last Day' starts within the data |
| Window.PickedDateVisible | app.py:344-351 | a date picked inside the data lies in its own non-empty window |
| Selection.SelectionFor | app.py:271-282 | the range-type code decodes by Python indexing; an out-of-range code is an error; 'Last Day' always decodes, whatever the id, since its filter never reads it; the id is the picked date for 'Select Date' and a number otherwise |
| Selection.SelectionRoundTrip | app.py:271-282 | decoding the code and id the controls send for a selection gives that selection back |
| Selection.NegativeCodesAlias | app.py:209 | a negative code selects the type counted from the end of the list |
| Selection.SelectionSplits | app.py:431-437 | the selection and its negation split any frame: each row is in exactly one part |
| Selection.LastDaySelectsLatest | app.py:50-51 | with the query's most-recent flag, 'Last Day' selects rows in every partition, and all of them share that partition's latest date |
| Selection.SelectedWeekRowVisible | app.py:54 | a row selected by week that lies in that week and inside the data lies inside the graph window |
| Selection.SelectedMonthRowVisible | app.py:55 | a row selected by month that lies in that month and inside the data lies inside the graph window |
| Selection.WeekRowInWindow | app.py:349-351 | a date of the data less than two weeks after the window's Monday lies in the week window |
| Selection.MonthRowInWindow | app.py:352-360 | a date of the data inside the picked month lies in the month window, in both start cases |
| Selection.SelectedDateRowVisible | app.py:273-274 | a row selected by date inside the data lies inside the graph window |
| Trend.FilterGraphData | app.py:397-438 | resolver errors propagate; NoData exactly when no row of the segment lies in the window or the segment has no baseline; otherwise the pilot rows in the window split into unselected and selected, and the baseline is the segment's baseline rows in their original order |
| Trend.FilterGraphDataWeekly | app.py:443-496 | as the daily filter, with the tab's directions and whole weeks inside the window; the baseline is the segment's baseline rows in the tab's directions, in their original order; 'Last Day' and 'Select Date' give two empty pilot series |
| Trend.GenerateFigure | app.py:705-773 | no chart when both pilot series are empty or the sentinel arrives; otherwise an optional "Lane Closure" trace, then the "Selected" trace, over the first baseline row's level |
| Trend.DailyFigureDrawn | app.py:397-438 | on the DVP tab a chart is drawn exactly when the segment has a pilot row in the window and a baseline row |
| Trend.SeriesDrawn | app.py:708-710 | for any series meeting the daily filter's contract, a chart is drawn exactly when a pilot row of the segment is in the window and the segment has a baseline row |
| Trend.WeeklyDailyTypesHaveNoFigure | app.py:480-483 | on an alternate-route tab, 'Last Day' and 'Select Date' never draw a chart |
| Pivot.Mean | app.py:262-268 | a pivot cell is its group's mean: counted once per value it adds up to the group's total, and it lies between the group's smallest and largest value |
| Pivot.MeanOfEqualValues | app.py:262-268 | the mean of a group whose values all agree is that value |
| Pivot.CellsOf | app.py:262-268 | a row has a cell for exactly the directions its group has data in, each within the group's range |
| Pivot.PivotOrder | app.py:258-269 | every (street, key) group appears once; the tab's streets come first in canonical order, then the unlisted streets under the NaN label; the columns are the directions present |
| Pivot.PivotKeys | app.py:258-269 | the pivot has a row for exactly the (street, key) groups of its input |
| Pivot.StreetRows | app.py:262-268 | one street's rows: a row per distinct key of the street, keys strictly ascending, each row the group's means |
| Pivot.UndatedRows | app.py:267 | a pivot indexed by street alone has no date on any row |
| Pivot.DatedRows | app.py:262-264 | a pivot indexed by street and date has a date on every row |
| Table.AfterCellClass | app.py:560-568 | "worse" exactly when the after value exceeds the baseline by more than 1, "better" exactly when it falls short by more than 1, "same" otherwise and whenever a value is NaN |
| Table.AfterCellClassSwap | app.py:560-568 | swapping the two values swaps "worse" and "better" and keeps "same" |
| Table.IntStr | app.py:548-552 | positive values become text; zero, negative values and NaN pass through unchanged |
| Table.GenerateRowClass | app.py:541-546 | "selected" exactly when the row is clicked, otherwise "notselected" |
| Table.FilterTableData | app.py:295-335 | the current and baseline pivots have rows for exactly the groups the period, day-type, direction, category, main-street and selection filters keep, each row holding its group's mean per direction and the columns being the directions of the kept rows; rows are in street order; the DVP tab's daily types are keyed by date; a daily type or a bad main-street index on an alternate tab is an error |
| Table.GenerateRow | app.py:570-594 | a row is built exactly when both directions are columns of the baseline pivot and, for a street with a current row, of the current pivot; it carries the baseline's street label as id and, per direction, the after cell coloured against the baseline value and then the baseline cell; it is "selected" exactly when the store holds that label's text |
| Table.GenerateTable | app.py:596-650 | decoding and filtering errors propagate; the header is the week, the month, or the first current row's date; there is one row per baseline row, each built by the row rule from the filtered pivots; the directions are the tab's |
| Table.GroupCell | app.py:258-266 | a group's value in a direction is a number exactly when the group has a row in that direction, and lies between the group's smallest and largest travel time |
| Table.TableShowsMeans | app.py:630-646 | each labelled row shows, per direction, its street's baseline mean as the baseline cell and the mean of the street's earliest current group as the after cell, coloured against the baseline; NaN coloured "same" when the street has no current group |
| Table.TableRowsFollowStreets | app.py:596-650 | labelled rows come in the tab's street order, before any NaN-labelled row |
| Table.TableRowIds | app.py:634-646 | the labelled rows are exactly the tab's streets that have baseline data; a NaN-labelled row stands for a baseline street the tab does not list |
| Table.MissingDataIsNaN | app.py:636-641 | a street with no current data shows NaN after values, coloured "same" |
| Table.OneSelectedRow | app.py:644 | unless the store holds the text "nan", at most one row is highlighted |
| Table.DayHeaderIsDataDate | app.py:626-627 | the header is a date exactly for the daily types, and that date is the date of a kept DVP row |
| Table.AlternateTabsFallBackToWeekOne | app.py:613-615 | on an alternate-route tab, 'Last Day' and 'Select Date' give the week-1 table, headed "Week 1" |
| Table.InputsFallBackToWeekOne | app.py:613-615 | on an alternate-route tab a daily type decodes to week 1 and filters exactly as week 1 does |
| Controls.UpdateDayType | app.py:1093-1101 | with 'Select Date', "Weekend" exactly for Saturday and Sunday; other types keep the day type; a bad code is an error |
| Controls.PickedWeekDayTypes | app.py:1093-1101 | picking the days of a week Monday to Sunday gives five weekdays, then two weekend days |
| Controls.UpdateDateRangeValue | app.py:1203-1209 | the dropdown keeps its value when the type's list is non-empty and long enough, and is 1 otherwise |
| Controls.DateRangeValueSettles | app.py:1203-1209 | applying the rule to its own result changes nothing |
| Controls.DailyTypesResetDropdown | app.py:118 | the daily types have empty lists, so the dropdown becomes 1 |
| Controls.HideRevealDateRange | app.py:1171-1175 | the week/month dropdown shows exactly for codes above 1 |
| Controls.HideRevealDayTypes | app.py:1179-1183 | the day-type control hides exactly for code 1 |
| Controls.HideRevealDatePicker | app.py:1187-1193 | the date picker shows exactly for code 1 |
| Controls.ControlsMatchRangeType | app.py:1169-1193 | for each type, the picker shows exactly for 'Select Date', the dropdown exactly for weeks and months, never both, and the day types exactly when the picker hides |
| Controls.HideRevealFilters | app.py:1037-1041 | the filters show exactly when the button read "Show Filters" |
| Controls.ChangeButtonText | app.py:1047-1051 | "Hide Filters" becomes "Show Filters", anything else becomes "Hide Filters" |
| Controls.FilterToggle | app.py:1033-1051 | the filters show exactly when the button then offers to hide them, and two clicks restore the text |
| Controls.DisplayStreets | app.py:1025-1031 | the DVP street layout shows exactly on the DVP tab |
| Controls.UpdateClickedRow | app.py:1219-1226 | "selected" exactly when the store holds a non-empty string equal to the row id; the initial list store highlights nothing |
| Controls.UpdateTableHighlight | app.py:1219-1226 | the table's highlight for a labelled row agrees with the row callback's highlight from the same store |
| Controls.TableControls | app.py:1113-1166 | on the DVP tab the code is kept, with the picked date as id for 'Select Date' and the dropdown's week or month number otherwise; on the alternate tabs a daily type is reset to week 1 ('Select Week', id 1), and 'Select Week'/'Select Month' pass the dropdown's number on |
| Controls.UpdateTable | app.py:1113-1166 | the table's columns are the tab's directions, and a row is highlighted exactly when the tab's store holds its label's text |
| Controls.PickedDateHeadsTable | app.py:1125-1131 | with 'Select Date' on the DVP tab, the table is headed by the picked date |
| Controls.GraphSelectionAsWritten | app.py:1293-1312 | on an alternate tab a daily type charts the dropdown's week, not week 1 |
| Controls.GraphSelection | app.py:1293-1312 | with the id reset applied, a daily type on an alternate tab charts week 1; every other input charts exactly the as-written selection (the dropdown's number, or the picked date for 'Select Date') |
| Controls.GraphMatchesTable | app.py:1293-1312 | the corrected chart selection equals the selection of the table beside it |
| Controls.GraphShowsDropdownWeek | app.py:1296-1298 | on the alternate tab, 'Last Day' with the dropdown at 5 charts week 5 as written, and week 1 corrected, as the table shows |
| Controls.DropdownResetMasksGraphSelection | app.py:1203-1209 | when the dropdown was last set for the same daily type, it holds 1 and both versions agree |
| Controls.GraphStreetAsWritten | app.py:1303-1306 | the chart gets `street[0]`: the initial list's street, but only the first character of a clicked row's id |
| Controls.GraphStreet | app.py:1303-1306 | corrected, the chart gets the initial list's street as written, and the whole id the store picks after a click |
| Controls.ChartFollowsHighlight | app.py:1303-1306 | corrected, the chart shows the street whose table row is highlighted |
| Controls.ChartMissesHighlight | app.py:1246-1250 | as written, the chart never shows a highlighted street whose name is longer than one character |
| Controls.ClickedBayviewChartsB | app.py:1246-1250 | clicking the alternate tab's first row, "Bayview Between DVP and Eglinton", charts the street "B" as written and the clicked street corrected |
| Controls.ClickedChartHasNoData | app.py:1303-1306 | as written, after a click both chart filters return NoData whenever no baseline street name is one character long |

## Left out

- Database access and the SQL queries themselves. The loaded frames are
  inputs (`Records.Snapshot`). The query's most-recent flag and its
  week/month joins appear only as hypotheses of lemmas.
- Dash layout, callback wiring, HTML elements, plotly figure dictionaries,
  axis ranges (MAX_TIME), colours, and logging. The models stop at the
  values these are built from.
- JSON state helpers (`deserialise_state` and `serialise_state`).
  `render_content`, `update_timeperiod`, `get_timeperiods_for_date`,
  `generate_radio_options`, `assign_default_timperiod` and
  `generate_date_ranges` are not modelled either. They produce labels and
  options, not the selection or the table. `row_click` appears only
  through the value it stores, a clicked row's id (`Table.Picked`).
- The commented-out `update_date_range_type` (app.py:999-1009). It sits
  inside a string literal, so it never runs.
- Rounding (`round(1)` of the pivot and of the query's travel times).
  Travel times are exact reals.
- Floating point in general: travel times are `real`.
- Python `date` overflow outside years 1-9999. Date parsing with
  `strptime`: the picked date is given as a valid date.
- pandas `sort_values` stability among rows of one street, and the order of
  unlisted streets among themselves. The model fixes a key order.
  Unlisted streets keep first-occurrence order.
- Controls.UpdateTable: the selected street is passed as the tab's own
  store; the `state_data` indexing by tab position is not modelled.
- `update_street_name` (app.py:1256-1272) reads `street[0]` of the same
  store, as the chart does; it only builds the heading, so it is not
  modelled.
- A number id with 'Select Date', or a date id with 'Select Week' or
  'Select Month'. pandas would select nothing; the model reports
  NotADate/NotANumber. The callbacks never send such a pair.
- `richmond_heroku_sync_dag.py` is not part of this model.

## Findings

| source | as written | input that shows it | evidently intended | confidence | as-written member | corrected member |
|---|---|---|---|---|---|---|
| app.py:1296-1298 | `update_graph` turns a daily type into 'Select Week' on the alternate tabs, but stores the week-1 reset in `date_range_id`, a name it never reads; the chart gets the dropdown's `date_range` | alternate tab, range type 0 ('Last Day'), dropdown at 5: the chart selects week 5 while the table beside it selects week 1 | reset the id as `generate_table` does (app.py:613-615), so that the chart and the table show the same week | not executed; no UI path is known to reach this input: the alternate layout offers only codes 2 and 3 (app.py:859-865), so code 0 arrives only from a stale DVP-tab state at a tab switch, and `update_date_range_value` (app.py:1203-1209) has then already reset the dropdown to 1 | Controls.GraphSelectionAsWritten | Controls.GraphSelection |
| app.py:1303-1306 | `update_graph` charts `street[0]` of the tab's store; the store starts as a one-element list but `row_click` (app.py:1246-1250) stores the clicked row's id as a plain string, so after any click the chart gets its first character | click the alternate tab's row "Bayview Between DVP and Eglinton": the chart is asked for street "B", has no baseline row, and shows no data | chart the clicked street itself, the one the table highlights | not executed; every street name is longer than one character, so every click shows it | Controls.GraphStreetAsWritten, Controls.ChartMissesHighlight, Controls.ClickedBayviewChartsB | Controls.GraphStreet, Controls.ChartFollowsHighlight |
