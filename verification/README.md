# Sunrise and sunset table for one year — a Dafny model

The program computes, for one fixed place (Islamabad) and one fixed year
(2025), the local sunrise and sunset of every day and plots them. Its own
logic is small:

- `calculate_sunrise_sunset` walks every date from 2025-01-01 to 2025-12-31,
  asks an astronomy library for that day's sunrise and sunset, skips the date
  when the library raises `SunTimeException`, and otherwise appends one entry
  to each of six parallel lists: the date, sunrise and sunset as fractional
  hours (`hour + minute / 60`), sunrise and sunset as `"%I:%M %p"` labels, and
  the daylight duration `(sunset - sunrise).seconds / 3600`.
- `format_hour` turns an hour value into a 12-hour clock label, with hour 24
  shown as 11:59 PM; the y-axis ticks are `range(0, 24, 2)` and their labels.

This project models both pieces as pure Dafny over whole seconds, integer
hours and minutes, and exact reals:

| file | module | what it models |
|---|---|---|
| `results.dfy` | `Results` | `Option` and `Result` for absent values and raised errors |
| `calendar.dfy` | `Calendar` | Gregorian dates, `date <= date`, `date + timedelta(days=1)`, the walk over an inclusive date range |
| `clock.dfy` | `Clock` | the `hour`/`minute` fields of a wall-clock reading, `hour + minute / 60`, `timedelta.seconds / 3600` |
| `labels.dfy` | `Labels` | `strftime("%I:%M %p")` and a parser that is its exact inverse |
| `ticks.dfy` | `Ticks` | `int()` truncation, `format_hour`, `range`, `y_ticks` and `y_tick_labels` |
| `daylight.dfy` | `Daylight` | the per-date step, the date loop and `calculate_sunrise_sunset` |

The astronomy library and the time-zone database are parameters of the
generator: `sun: Date -> SunResult` answers `SunTimeException` or the sunrise
and sunset instants in UTC seconds, and `toLocal: int -> int` maps a UTC
instant to the local wall-clock reading in seconds. Every property below holds
for every such pair of functions.

A daylight duration is naturally the difference of the two absolute instants;
the code instead keeps only the `seconds` part of the difference, which
reduces it modulo one day. The model follows the code
(`Clock.DurationHours`) and proves exactly when the two agree
(`Clock.DurationExactIff`). Likewise the hour-24 branch of `format_hour`,
unreachable from the ticks the program builds, is modelled as written.

## Model

| member | source | states |
|---|---|---|
| Calendar.Next | app.py:62 | `current_date += delta` yields a valid date strictly after the current one whose day number is one more |
| Calendar.NextIsImmediate | app.py:62 | no valid date lies strictly between a date and the date one day later, so advancing by one day skips nothing |
| Calendar.Before | app.py:35 | `date < date` is irreflexive and never moves to an earlier year |
| Calendar.AtOrBefore | app.py:35 | `current_date <= end_date` holds exactly when the end date is not strictly before the current date |
| Calendar.BeforeIsStrictTotalOrder | app.py:35 | `<` on dates is irreflexive, asymmetric, transitive and total, so `<=` is a total order on dates |
| Calendar.OrdinalOrder | app.py:35 | the field-by-field date comparison used in `current_date <= end_date` agrees with the order of day numbers, in both directions |
| Calendar.OrdinalInjective | app.py:35 | distinct valid dates have distinct day numbers |
| Calendar.DatesFrom | app.py:34-35 | the loop from a start date to an end date visits end − start + 1 dates, the i-th being i days after the start, and none when the start is later than the end |
| Calendar.DatesFromWithinRange | app.py:34-35 | every date the loop visits is valid and lies between the start and the end date inclusive |
| Calendar.DatesFromCoversRange | app.py:34-35 | every valid date between the start and the end date inclusive is visited |
| Calendar.DatesFromMembers | app.py:34-35 | a date is visited if and only if it is valid and within the inclusive range |
| Calendar.DatesFromAscending | app.py:62 | the visited dates are strictly ascending, so each date is visited at most once |
| Calendar.YearDatesLength | app.py:21-23 | walking from January 1 to December 31 one day at a time visits as many dates as the year has days |
| Calendar.YearDatesMembers | app.py:21-22 | the dates visited for a year are exactly the valid dates of that year |
| Calendar.YearDatesAscending | app.py:21-23 | the dates of the year are visited in strictly ascending order |
| Calendar.YearEndLength | app.py:21-22 | the twelve months of a year add up to 365 days, or 366 in a leap year |
| Calendar.YearDates | app.py:21-23 | the dates from January 1 through December 31 of a year, one per day: as many as the year has days, first January 1 and last December 31 |
| Clock.SecondOfDay | app.py:45-46 | the time since local midnight is in [0, 86400) and differs from the reading by whole days |
| Clock.Hour | app.py:55 | the `hour` field is in 0..23 and names the hour that contains the reading |
| Clock.Minute | app.py:55 | the `minute` field is in 0..59 and names the minute, within that hour, that contains the reading |
| Clock.FractionalHour | app.py:55-56 | `hour + minute / 60` is in [0, 24), is a whole number of minutes, and lies less than a minute below the exact time of day: the seconds are dropped |
| Clock.DurationHours | app.py:49-51 | `timedelta.seconds / 3600` is in [0, 24) hours, a whole number of seconds, and congruent to the true difference modulo one day |
| Clock.DurationExactIff | app.py:49-51 | the reported duration equals the true difference exactly when sunset is at or after sunrise and less than a day later |
| Clock.DurationIgnoresWholeDays | app.py:49-51 | moving the sunset reading by whole days does not change the reported duration |
| Clock.DurationExamples | app.py:49-51 | 06:00 to 18:00 gives 12 hours; a sunset ten minutes past the next midnight is measured correctly; a sunset 12 hours before sunrise is reported as 12 hours |
| Labels.Pad2 | app.py:57 | `%I` and `%M` render a number below 100 as exactly two decimal digits whose value is the number |
| Labels.Hour12 | app.py:57 | the 12-hour clock hour is in 1..12 and equal to the 24-hour hour modulo 12 |
| Labels.Meridiem | app.py:57 | `%p` is "AM" exactly for hours before noon and "PM" exactly from noon on |
| Labels.ClockLabel | app.py:57-58 | a `"%I:%M %p"` label has eight characters with the colon and the space in their fixed places |
| Labels.ClockLabelPieces | app.py:57-58 | a label is the two-digit 12-hour hour, a colon, the two-digit minute, a space and AM or PM, in that order |
| Labels.ParseClockLabelInverts | app.py:57-58 | reading a label back gives the hour and minute it was made from, so no information is lost |
| Labels.ClockLabelOfParse | app.py:57-58 | every string that reads as a label is the rendering of the hour and minute read from it |
| Labels.ClockLabelInjective | app.py:57-58 | different times of day always get different labels |
| Labels.ClockLabelHourCases | app.py:57-58 | hour 0 reads "12 … AM", hours 1-11 read themselves with AM, hour 12 reads "12 … PM", hours 13-23 read hour − 12 with PM |
| Ticks.Trunc | app.py:90-91 | `int()` of a number truncates toward zero: the result is within one of the input, never beyond it away from zero |
| Ticks.FormatHour | app.py:89-96 | every label `format_hour` produces is a well-formed `"%I:%M %p"` label |
| Ticks.FormatHourDefinedIff | app.py:89-96 | `format_hour` produces a label exactly for inputs strictly between −1/60 and 25, and raises `ValueError` from the `datetime` constructor otherwise |
| Ticks.FormatHourNegativeSliver | app.py:89-96 | every input strictly between −1/60 and 0 truncates to hour 0 and minute 0 and is shown as "12:00 AM" |
| Ticks.FormatHourOfFields | app.py:90-96 | whenever the truncated hour and truncated minute form a time of day, the label is the rendering of exactly that hour and minute |
| Ticks.FormatHourFields | app.py:90-95 | within the day the label is made from the truncated hour and the truncated minute of the fractional part |
| Ticks.FormatHourWithinDay | app.py:90-96 | within the day the label's hour and minute add up to the input times 60, rounded down: the fraction of a minute is dropped |
| Ticks.FormatHourDayEnd | app.py:92-94 | every input from 24 up to 25 is shown as "11:59 PM" |
| Ticks.FormatHourExamples | app.py:89-96 | 0 → "12:00 AM", 13 → "01:00 PM", 23.5 → "11:30 PM", 24 → "11:59 PM", 25 raises, −0.01 → "12:00 AM" |
| Ticks.Range | app.py:99 | `range(start, stop, step)` for a positive step lists start + i·step for consecutive i, each below stop, and stops at the first value that is not |
| Ticks.YTicks | app.py:99 | the ticks are the twelve values 0, 2, …, 22 |
| Ticks.YTicksMembers | app.py:99 | a value is a tick exactly when it is an even hour of the day |
| Ticks.MapAll | app.py:100 | a comprehension over a call that may raise succeeds exactly when every call does, and then holds one result per value, in order |
| Ticks.FormatAll | app.py:100 | the list comprehension succeeds exactly when every value formats, and then yields one label per value, in order |
| Ticks.TicksFormat | app.py:99-100 | tick i formats as hour 2i on the hour |
| Ticks.YTickLabels | app.py:100 | `y_tick_labels` is computed without error, holds twelve labels, and label i is hour 2i on the hour |
| Ticks.YTickLabelsShape | app.py:99-100 | every tick gets a label, tick i being hour 2i on the hour |
| Ticks.YTickLabelsValue | app.py:99-100 | the tick labels are "12:00 AM", "02:00 AM", …, "10:00 AM", "12:00 PM", …, "10:00 PM" |
| Daylight.TimeLabel | app.py:57-58 | the label of a local reading reads back as that reading's hour and minute |
| Daylight.TimeLabelMatchesHour | app.py:55-58 | a label and the fractional hour appended beside it name the same minute of the day |
| Daylight.MakeRecord | app.py:49-59 | an entry keeps its date and has sunrise, sunset and daylight values in [0, 24) |
| Daylight.RecordFor | app.py:41-59 | the entry for an answered date holds that date and labels that read back as the hour and minute of the local sunrise and sunset |
| Daylight.MakeRecordFacts | app.py:49-59 | every entry has sunrise, sunset and daylight values in [0, 24), labels that read back as the local hour and minute, and the true duration whenever sunset is within a day after sunrise |
| Daylight.Contribution | app.py:36-60 | a date adds one entry when the calculator answers and none when it raises |
| Daylight.Records | app.py:36-62 | every entry produced belongs to a walked date that the calculator answered and holds that date's values; there are at most as many entries as dates |
| Daylight.Failures | app.py:60-61 | the dates reported and skipped are exactly the walked dates for which the calculator raises |
| Daylight.RecordsCover | app.py:36-62 | every walked date that the calculator answers has an entry |
| Daylight.RecordsAscending | app.py:54 | walking ascending dates yields entries in strictly ascending date order |
| Daylight.RecordsCount | app.py:36-62 | every walked date either yields one entry or is skipped as a failure, never both |
| Daylight.Tabulate | app.py:54-59 | the six lists have equal length and index i of each is the i-th entry |
| Daylight.Table.Append | app.py:54-59 | appending an entry keeps the six lists of equal length, keeps every earlier row, and makes the new last row that entry |
| Daylight.TableStep | app.py:36-62 | one iteration grows the table by the date's entry, or leaves it unchanged on a failure |
| Daylight.ProcessDate | app.py:36-61 | the `try` block leaves the six lists unchanged on `SunTimeException` and otherwise appends the date's entry to all six |
| Daylight.WalkStep | app.py:62 | after an iteration the dates already processed gain the current date and the rest start one day later |
| Daylight.WalkDone | app.py:35 | when the loop condition fails, every date of the range has been processed |
| Daylight.WalkDates | app.py:34-62 | the loop's six lists are the table of the entries of every date from the start through the end date, in order |
| Daylight.YearTableMembers | app.py:21-62 | a date appears in a year's output exactly when it is a valid date of that year and the calculator answers for it |
| Daylight.YearTableAscending | app.py:21-62 | a year's output dates are strictly ascending |
| Daylight.YearTableCount | app.py:21-62 | a year's output length plus the number of failed dates is the number of days in the year |
| Daylight.YearTables | app.py:21-71 | the facts above together, plus: index i of all six lists describes the date at index i |
| Daylight.CalculateSunriseSunset | app.py:9-71 | six lists of equal length; a date is present exactly when it is in 2025 and the calculator answers for it; dates strictly ascending; 365 = entries + failures; index i of every list holds the values computed for date i |

## Left out

- The astronomical sunrise/sunset computation of the `suntime` library and the fixed coordinates passed to it: both are folded into the `sun` parameter, which may answer any instants or a failure.
- The `pytz` time-zone rules: conversion is the `toLocal` parameter. The duration subtracts local wall-clock readings, which is what Python does when both times carry the same `tzinfo` (a zone with a single offset through the year). When sunrise and sunset carry different `tzinfo` objects (a daylight-saving change between them), Python subtracts the UTC instants instead; that case is not modelled.
- Sub-second parts of the instants: times are whole seconds.
- Floating point: `hour + minute / 60`, `seconds / 3600` and `(hour - hour_24) * 60` are exact reals, so float rounding is not modelled.
- `datetime.combine(current_date, datetime.min.time())`: the calculator takes the date itself, which determines that midnight.
- The `print` of each failure: `Daylight.Failures` says which dates would be reported, not the text printed.
- Calendar.Next: years are unbounded above, so the `OverflowError` of advancing past 9999-12-31 is not modelled; the walk ends in 2025.
- Ticks.Range: only a positive step is modelled; the program only uses step 2.
- The Plotly figure (traces, hover template, inverted axis, layout) and the Streamlit page: user-interface configuration without logic beyond the lists it is handed.
- Sample outcomes for particular days of 2025 (longest and shortest daylight): they depend on the astronomy library, which is a parameter here.
