# Tracking app core: time slots, stored rows, date filter and checkbox summaries

This project models the data logic of a small Streamlit tracking app
(`streamlit_app.py`). People log events in a form: a name, a date, a
half-hour time slot, three checkboxes ("Started Same Day", "Scheduled Tx",
"Same Day SRP") and a note. Each submission becomes one spreadsheet row.
A read-only tab lists the rows in a date range, newest first. An analytics
tab summarises the checkboxes for the same kind of date range, per person
and overall.

The model has four modules, one per concern of the app's core:

- `Slots` (`slots.dfy`): the time-slot list the form offers. A time of day
  is a number of minutes since midnight. The label of a time is
  `strftime("%I:%M %p")` with leading zeros stripped. These two steps are
  written out as `Strftime` and `LStripZeros`. `GenerateHalfHourSlots` is
  the app's `while` loop, proved against the specification function
  `HalfHourSlots`. The lemmas give the slot count, the first and last slot,
  the 30-minute spacing, the `H:MM AM|PM` shape, that labels are distinct,
  and the defaults (8, 17).
- `Entries` (`entries.dfy`): an entry, the 7-column row the form appends
  (the checkboxes stored as `int` 0/1), and how the row is read back, where
  `astype(bool)` is Python truthiness. The sheet is an in-memory sequence
  of rows.
- `Query` (`query.dfy`): the inclusive date-range mask, the date pickers'
  defaults (earliest and latest date), and `sort_values("date",
  ascending=False)` modelled as an insertion sort.
- `Analytics` (`analytics.dfy`), with `TextOrder` (`textorder.dfy`):
  - per-person `value_counts` renamed to "Yes"/"No", with people visited in
    order of first appearance (`unique()`);
  - the overall `groupby("name").size()` of ticked entries, whose keys are
    sorted like Python strings;
  - the `("No Data", 1)` placeholder;
  - the whole analytics tab as one function of the entries and the range.

Dates are day numbers (days from a fixed epoch). A later date has a larger
number.

Some details of the app that a reader might expect otherwise:

- A label has no leading zero (`8:00 AM`, not `08:00 AM`).
- The per-person tables are labelled "Yes"/"No", not true/false.
- A stored row has no `id` column.
- There is no update or delete (tab 3 is a placeholder).

## Model

| member | source | states |
|---|---|---|
| `Slots.GenerateHalfHourSlots` | streamlit_app.py:19-25 | The loop builds exactly `HalfHourSlots(start, end)`: the i-th label is the one for `start:00` plus i half hours, with `2*(end-start)+1` labels when `start <= end` and none otherwise. |
| `Slots.Strftime` | streamlit_app.py:23 | `strftime("%I:%M %p")` prints eight characters: two digits spelling the 12-hour hour, ':', two digits spelling the minute, a space, then `AM` before noon and `PM` from noon on. |
| `Slots.LStripZeros` | streamlit_app.py:23 | `lstrip("0")` never makes a text longer (its suffix property is `LStripZerosSuffix`). |
| `Slots.FormatSlot` | streamlit_app.py:23 | A label is 7 characters when the 12-hour hour has one digit and 8 otherwise: only the hour's leading zero is stripped. |
| `Slots.LStripZerosSuffix` | streamlit_app.py:23 | `lstrip("0")` returns a suffix of its input that does not start with '0', and every character it drops is '0'. |
| `Slots.Hour12` | streamlit_app.py:23 | The `%I` hour is in 1..12. Hour 0 prints as 12, and the 24-hour hour is recovered from it and the AM/PM half. |
| `Slots.DigitChar` | streamlit_app.py:23 | Each digit `strftime` prints is a decimal digit character whose value is the digit. |
| `Slots.StripTwoDigits` | streamlit_app.py:23 | `lstrip("0")` on a two-digit hour removes the first digit exactly when it is 0 and keeps the rest of the text. |
| `Slots.FormatSlotIsClockText` | streamlit_app.py:23 | The label of a time is its 12-hour hour without a leading zero, ':', the two minute digits, then `AM` before noon and `PM` from noon on. |
| `Slots.FormatSlotReadsBack` | streamlit_app.py:23 | The label of a time has the `H:MM AM/PM` shape, with H in 1..12 and no leading zero, and reads back as that same time. |
| `Slots.FormatSlotInjective` | streamlit_app.py:23 | Two different times of day never get the same label. |
| `Slots.SlotShape` | streamlit_app.py:23 | A time on the half hour renders with minutes `00` or `30`. |
| `Slots.MidnightAndNoon` | streamlit_app.py:23 | Hour 0 renders as `12:.. AM` and hour 12 as `12:.. PM`. |
| `Slots.HalfHourSlots` | streamlit_app.py:19-25 | The reference list the loop is proved against: `SlotCount(start, end)` labels, the i-th for `start:00` plus i half hours. |
| `Slots.ContinueIffNotPastEnd` | streamlit_app.py:22 | The loop condition `t.hour < end or (t.hour == end and t.minute == 0)` holds exactly when `t <= end:00`. |
| `Slots.SlotTimes` | streamlit_app.py:19-25 | Read back, slot i is `start:00 + 30*i`, and it lies between `start:00` and `end:00`. |
| `Slots.SlotsSpan` | streamlit_app.py:19-25 | For `start <= end`: `2*(end-start)+1` slots, the first `start:00` and the last `end:00`. |
| `Slots.SlotsSpacing` | streamlit_app.py:22-24 | Read back, each slot is 30 minutes after the one before it. |
| `Slots.EndHalfPastExcluded` | streamlit_app.py:22 | The label for `end:30` is never in the list. |
| `Slots.SlotsIncreasing` | streamlit_app.py:19-25 | Slots are in strictly increasing time order and pairwise distinct. |
| `Slots.SlotsWellShaped` | streamlit_app.py:23-24 | Every slot has the `H:MM AM/PM` shape with minutes `00` or `30`. |
| `Slots.NoSlotsWhenStartAfterEnd` | streamlit_app.py:22 | With `start > end` the list is empty. |
| `Slots.EightAmLabel` | streamlit_app.py:23 | `8:00` renders as `8:00 AM`. |
| `Slots.FivePmLabel` | streamlit_app.py:23 | `17:00` renders as `5:00 PM`. |
| `Slots.DefaultSlots` | streamlit_app.py:19-27 | The default list has 19 slots, from `8:00 AM` to `5:00 PM`. |
| `Entries.FlagCell` | streamlit_app.py:48 | `int(checkbox)` is the integer 0 or 1, and it is 1 exactly when the box is ticked. |
| `Entries.EncodeRow` | streamlit_app.py:48 | The appended row has 7 columns, its checkbox columns hold 0 or 1, and decoding it gives back the original entry. |
| `Entries.Truthy` | streamlit_app.py:90-92 | `astype(bool)` is false exactly for the integer 0 and the empty text. |
| `Entries.DecodeRow` | streamlit_app.py:90-92 | A row reads back as an entry exactly when it has 7 columns of the right kinds. Each checkbox is the truthiness of its cell (`astype(bool)`). |
| `Entries.ReadEntries` | streamlit_app.py:83-92 | Reading the sheet gives one entry per row, in sheet order, each the decoding of its row. It fails exactly when some row is not an entry. |
| `Entries.AddEntry` | streamlit_app.py:48-49 | Appending keeps the earlier rows and adds exactly the entry's encoded row (7 columns, checkboxes as 0/1), which decodes to the entry. |
| `Entries.AddThenRead` | streamlit_app.py:48-92 | After an entry is added, reading the sheet gives the earlier entries followed by the new one. |
| `Query.FilterByDate` | streamlit_app.py:108 | Keeps an entry iff `start_date <= date <= end_date`, each as often as it occurs and unchanged. Nothing is kept when `start_date > end_date`. |
| `Query.FilterAppend` | streamlit_app.py:71 | The mask preserves order: filtering a concatenation is concatenating the filtered parts. |
| `Query.FilterKeepsAllInRange` | streamlit_app.py:71 | When every entry is in range, the filter returns the whole sequence unchanged. |
| `Query.MinDate` | streamlit_app.py:104 | The default start date is a date of some entry, and no entry is earlier. |
| `Query.MaxDate` | streamlit_app.py:106 | The default end date is a date of some entry, and no entry is later. |
| `Query.DefaultRangeKeepsAll` | streamlit_app.py:104-108 | With both date pickers at their defaults, every entry is shown. |
| `Query.InsertByDateDesc` | streamlit_app.py:72 | Inserting into a newest-first list keeps it newest-first and adds exactly that entry. |
| `Query.SortByDateDesc` | streamlit_app.py:72 | The sorted list is a permutation of its input and is non-increasing by date. |
| `Query.ViewEntries` | streamlit_app.py:71-72 | The read-only view is a permutation of the entries in range, sorted non-increasing by date. |
| `Analytics.Count` | streamlit_app.py:125 | A count never exceeds the length, and it is positive exactly when the value occurs. |
| `Analytics.CountTrueFalse` | streamlit_app.py:125 | The true count and the false count of a column add up to its length. |
| `Analytics.OfPerson` | streamlit_app.py:124 | `df[df.name == name]` keeps each of that person's entries exactly as often as it occurs, and no other entry. Its length is the number of occurrences of the name. |
| `Analytics.PersonFlagCount` | streamlit_app.py:124-125 | A checkbox column of one person's entries holds a value exactly as often as that person has entries with that value. |
| `Analytics.Unique` | streamlit_app.py:119 | `unique()` lists every name exactly once, in order of first appearance. |
| `Analytics.Label` | streamlit_app.py:125 | The rename `{True: "Yes", False: "No"}` gives "Yes" exactly for True and "No" otherwise. |
| `Analytics.ValueCounts` | streamlit_app.py:125 | Rows exist only for values that occur, every count is positive, "Yes"/"No" count the true/false values, the larger count comes first, and the counts sum to the number of values. |
| `Analytics.PersonFieldCounts` | streamlit_app.py:124-125 | In one person's table for one checkbox, "Yes" counts that person's ticked entries and "No" the unticked ones. A row is present exactly when its count is positive, and the counts sum to that person's number of entries. |
| `Analytics.PersonSection` | streamlit_app.py:123-126 | One person's part has one table per checkbox, in display order. Each table counts that person's ticked ("Yes") and unticked ("No") entries. |
| `Analytics.PerPersonCounts` | streamlit_app.py:119-126 | There is one section per person in order of first appearance, and each person has at least one entry. Each section has one table per checkbox: "Yes" counts that person's ticked entries, "No" the unticked ones, summing to that person's entry count. |
| `Analytics.LookupMissing` | streamlit_app.py:150-155 | A name without a row in the grouped table has count 0. |
| `Analytics.Bump` | streamlit_app.py:150-155 | Counting one more ticked entry for a name raises that name's count by one. The table keeps ascending, distinct names and positive counts. |
| `Analytics.Tally` | streamlit_app.py:150-155 | The grouped table has ascending names and positive counts. Each name's count is its number of ticked entries, and the total is all ticked entries. |
| `Analytics.LookupAt` | streamlit_app.py:150-155 | In a table with distinct names, a row's count is the count looked up by its name. |
| `Analytics.LookupPositive` | streamlit_app.py:150-155 | With positive counts, a name has a row exactly when its count is positive. |
| `Analytics.GroupYes` | streamlit_app.py:150-155 | There is one row per name with at least one ticked entry, names ascending and distinct. Each count is that name's number of ticked entries, and the counts sum to all ticked entries. |
| `Analytics.OverallYes` | streamlit_app.py:150-158 | With no ticked entry the table is exactly `[("No Data", 1)]`; otherwise it is the grouped table, summing to the ticked entries. |
| `Analytics.Analyze` | streamlit_app.py:108-158 | The analytics tab produces nothing exactly when no entry is in range (the tab stops there). Otherwise it produces the per-person section of the entries in range and, for each checkbox, the overall table of those entries. |
| `Analytics.TwoPersonExample` | streamlit_app.py:108-125 | Example: Venus (day 1, started) and Jupiter (day 2). Filtering day 1 keeps only Venus, whose "started" table is the single row ("Yes", 1). |
| `TextOrder.StrLessTotal` | streamlit_app.py:152 | Python string order (code points) ranks any two different names one way or the other, so group keys can be sorted. |
| `TextOrder.StrLessTransitive` | streamlit_app.py:152 | Python string order is transitive. |

## Left out

- The Streamlit page, tabs, forms, widgets, info/warning/success/error messages and `st.stop()` (streamlit_app.py:10, 30-44, 50-52, 61-62, 86-87, 110-114, 141-142, 173-174). These are presentation and control flow. `Analyze` returns no report where the tab stops.
- The Google Sheets client: credentials, `authorize`, `open`, `append_row` and `get_all_records` (streamlit_app.py:11-14, 49, 58, 83). The sheet is an in-memory sequence of rows, and `AddEntry` appends one. Write failures and the `except` branch (51-52) are network and library behaviour and are not modelled.
- `get_all_records` turns digit-only text cells into numbers. The model's sheet returns each cell with the kind it was written with.
- Rendering dates as text (`str(date)`) and parsing them back (`pd.to_datetime`). A date cell holds the day number.
- Plotly chart construction and styling (streamlit_app.py:128-139, 160-171).
- The current-time default through `ZoneInfo("America/Denver")` (streamlit_app.py:28). It is a clock and time-zone call.
- Edit/Delete. Tab 3 only shows a notice (streamlit_app.py:74-77), so there is no update or delete logic to model. The same holds for an `id` column and for validation beyond what the select boxes allow.
- Slot generation outside hours 0..23. `GenerateHalfHourSlots` requires `start, end <= 23`, and both are `nat`. The only call site (streamlit_app.py:27) uses the defaults 8 and 17. The source's other cases are not modelled:
  - `start >= 24` or negative `start`: `strptime` raises `ValueError` at streamlit_app.py:21.
  - `end >= 24`: `t.hour` wraps at midnight and the loop never stops.
  - Negative `end`: the source returns an empty list at once.
- Sort tie order. Pandas' default `sort_values` sort is not stable, so entries with the same date may appear in any order. `SortByDateDesc` keeps ties in input order and promises only a permutation sorted by date.
- ValueCounts: when the "Yes" and "No" counts tie, the body puts first the value that occurs first, following pandas' first-appearance order. The contract states only that counts do not increase.
- The contents of the sheet's header row and the column names. Columns are identified by position: name, date, time, the three checkboxes, note.
