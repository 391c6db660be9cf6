# uccalgen: Full Term start dates

This project models the Full Term start-date resolver of `uccalgen.py`, a
script that turns University of Cambridge term-relative event descriptions
into calendar dates. The resolver has three parts:

- the `Terms` enum, naming Michaelmas, Lent and Easter with the values 0, 1, 2;
- `FULL_TERM_DATES`, a table from the Michaelmas year (2022 to 2029) to the
  day of the month on which each term's Full Term starts, taken from the
  Statutes and Ordinances;
- `TERM_MONTHS = [10, 1, 4]` and `full_term_start(year, term)`, which builds
  the midnight `datetime(year, TERM_MONTHS[term], FULL_TERM_DATES[year][term])`.

Files:

- `wrappers.dfy` (module `Wrappers`): `Result`, a value or one of the
  exceptions the resolver can raise (`IndexError`, `KeyError`, `ValueError`).
- `calendar.dfy` (module `Calendar`): the proleptic Gregorian calendar that
  Python's `datetime` applies: the accepted year range 1..9999, leap years,
  month lengths, the `toordinal()` day number and the `weekday()` numbering
  (Monday 0, Tuesday 1, Sunday 6), plus the `datetime` constructor with its
  range checks.
- `uccalgen.dfy` (module `UccCalGen`): the enum, the two tables,
  Python's list and dictionary subscripts, `full_term_start`, and the
  properties of the table and of the resolver.

`full_term_start` passes `year` straight into the date, so it reads a row's
Lent and Easter entries in the row's own calendar year. The table, however,
is keyed by the Michaelmas year: those entries are the statutory Tuesdays of
January and April of the *following* year (`LentEasterTuesdayNextYear`). As
written, the resolver therefore returns a Sunday or a Monday for Lent and
Easter (`ResolvedLentEasterMissTuesday`); for instance
`full_term_start(2023, 1)` is 16 January 2023, a Monday (`LoadTimeCalls`).
The comment at uccalgen.py:19 keys the rows by the Michaelmas year, so the
Lent and Easter entries are Tuesdays of the following year;
`full_term_start` does not add one to the year, and the model follows the
code.

Python list subscripts accept negative indices, so `full_term_start` also
accepts the terms -3, -2, -1, which resolve like 0, 1, 2
(`NegativeTermAliases`). The arguments of the `datetime` call are evaluated
left to right: a term outside -3..2 raises `IndexError` before a missing year
raises `KeyError`; `ValueError` from the constructor never happens for a
tabulated year (`TableDatesValid`).

## Model

| member | source | states |
|---|---|---|
| `UccCalGen.Term.Value` | uccalgen.py:7-10 | each enum member's value is one of 0, 1, 2 |
| `UccCalGen.TermOf` | uccalgen.py:7-10 | `Terms(v)` succeeds exactly for v in 0..2, returns the member whose value is v, and otherwise raises `ValueError` |
| `UccCalGen.TermValueRoundTrip` | uccalgen.py:7-10 | looking up a member by its own value gives that member back |
| `UccCalGen.ListGet` | uccalgen.py:38 | a list subscript succeeds exactly for indices -len..len-1, negative ones counting from the end, and otherwise raises `IndexError` |
| `UccCalGen.DictGet` | uccalgen.py:38 | a dictionary subscript succeeds exactly for present keys and otherwise raises `KeyError` |
| `UccCalGen.FullTermStart` | uccalgen.py:37-38 | succeeds exactly when the term is in -3..2 and the year is a table key; a bad term gives `IndexError`, otherwise a missing year gives `KeyError`; on success the year is the argument unchanged, the month is October, January or April by term, the day is the table entry, and the time is midnight |
| `UccCalGen.TableShape` | uccalgen.py:20-34 | the table's keys are exactly 2022..2029, and every row has as many entries as there are term months, namely three |
| `UccCalGen.TableDatesValid` | uccalgen.py:20-34 | every entry, read in its term's month and its row's year, is a valid calendar date, so the `datetime` constructor never raises for a tabulated year |
| `UccCalGen.TermsIndexTables` | uccalgen.py:7-34 | the enum values index both tables consistently: Michaelmas reads October, Lent January, Easter April, and every row has an entry for each term |
| `UccCalGen.UnknownYearFails` | uccalgen.py:20-38 | a year outside 2022..2029 is always a failure, a `KeyError` for any valid term, never a date borrowed from another year |
| `UccCalGen.NegativeTermAliases` | uccalgen.py:37-38 | term t-3 resolves exactly like term t, for every year |
| `UccCalGen.StartDate` | uccalgen.py:37-38 | for a tabulated year and a valid term, the resolved start is the date (year, term month, table entry) |
| `UccCalGen.TableWeekdays` | uccalgen.py:14-29 | in every row, the Michaelmas entry is a Tuesday in October of the row's year; the Lent and Easter entries are Tuesdays in January and April of the next year and a Sunday or Monday in the row's own year |
| `UccCalGen.MichaelmasStartsOnTuesday` | uccalgen.py:16-38 | for every tabulated year, the resolved Michaelmas start is a Tuesday |
| `UccCalGen.LentEasterTuesdayNextYear` | uccalgen.py:17-29 | the Lent and Easter entries of row y are Tuesdays of January and April of year y+1 |
| `UccCalGen.ResolvedLentEasterMissTuesday` | uccalgen.py:17-38 | as written, the resolved Lent and Easter starts of every tabulated year fall on a Sunday or a Monday, not on a Tuesday |
| `UccCalGen.LoadTimeCalls` | uccalgen.py:41-43 | the three load-time calls give 2022-10-04 (Tuesday), 2023-01-16 (Monday) and 2023-04-23 (Sunday), all at midnight |
| `Calendar.NewDateTime` | uccalgen.py:38 | the `datetime` constructor succeeds exactly when the date is valid and the time fields are in range, keeps every field, and otherwise raises `ValueError` |
| `Calendar.DaysInMonth` | uccalgen.py:38 | months have 28 to 31 days; February has 29 exactly in leap years; April, June, September and November have 30 and the rest 31 |
| `Calendar.DaysInYear` | uccalgen.py:38 | a year has 366 days exactly when it is a leap year, and 365 otherwise |
| `Calendar.YearLength` | uccalgen.py:38 | the day numbers of consecutive New Year's days differ by the length of the year, and the months of a year add up to that length |
| `Calendar.DaysBeforeYearCounts` | uccalgen.py:38 | the closed formula for the days before a year equals the days of all earlier years counted one by one |
| `Calendar.DaysBeforeMonthCounts` | uccalgen.py:38 | the cumulative month table equals the days of the earlier months of the year counted one by one |
| `Calendar.OrdinalCountsDays` | uccalgen.py:38 | a date's day number counts every day from 1 January of year 1 up to and including that date |
| `Calendar.OrdinalOrder` | uccalgen.py:38 | the day number orders valid dates as the calendar does, and two valid dates share a day number only when they are equal |
| `Calendar.NextDay` | uccalgen.py:14-18 | the day after a valid date is a valid later date whose day number is one greater |
| `Calendar.Weekday` | uccalgen.py:14-18 | the weekday is a number from 0 to 6 |
| `Calendar.NextDayWeekday` | uccalgen.py:14-18 | consecutive days have consecutive weekdays, Sunday wrapping round to Monday |
| `Calendar.FirstDay` | uccalgen.py:14-18 | 1 January of year 1 has day number 1 and is a Monday, fixing the weekday numbering to the calendar |

## Left out

- The three `print` calls run when the module is loaded (uccalgen.py:41-43) are console output; only their arguments and results are modelled, by `LoadTimeCalls`.
- Python's `datetime` library is not part of this model. `Calendar` restates the calendar rules its constructor and `weekday()` apply; time zones, the `fold` argument and string formatting are not modelled.
- Arguments that are not integers (a `Terms` member passed as `term`, a float or string year) raise `TypeError` or behave in other dynamic ways in Python; the model takes integer arguments only.
- `parse_week_numbers`, `load_file`, `get_dates`, `Weekdays`, `get_date` and `DAY_DURATION`, which `test_uccalgen.py` calls, are not defined in `uccalgen.py`; their source is not part of this model.
- The table holds Full Term start days only. The end-of-Full-Term weekdays claimed in the comments at uccalgen.py:16-18 have no data in the source and are not modelled, and the six-column header at uccalgen.py:19 (`Mst Men Lst Len Est Een`) describes more columns than the three each row holds; the model follows the rows. The "Jan" in the Michaelmas comment at uccalgen.py:16 is read as October, as `TERM_MONTHS` at uccalgen.py:34 gives it.
