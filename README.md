# stockManager ingestion loop, modelled in Dafny

`main.py` downloads hourly stock prices from Alpha Vantage into MongoDB. Its
`__main__` block walks forward from 2000-01-01. On each pass it labels the
current date's month `%Y-%m` and calls `fetch_and_store_data(symbol, month)`
once per symbol, in list order. It then adds 31 days and stops once the date
passes today. `fetch_and_store_data` builds a fixed query-parameter map and
sends the request. It then branches on the status code and on the
`"Time Series (60min)"` key of the body.

The model has four modules:

- `Calendar` (calendar.dfy): dates of the proleptic Gregorian calendar as
  Python's `datetime` holds them (years 1 to 9999), Python's tuple order on
  dates, `date.toordinal`, and `AddDays`. `AddDays` is the calendar-walking
  definition of `date + timedelta(days=n)`; it is proved to give the date
  whose ordinal is `n` larger, which is how Python defines the sum. Also the
  exact effect of adding 31 days.
- `MonthLabels` (month_label.dfy): `strftime('%Y-%m')`, its parser, and
  Python's string order on labels.
- `Schedule` (schedule.dfy): the `while` loop as the method `PlanFetches`,
  with the inner `for` loop as `MonthPass`. `PlanFetches` is proved equal to
  the specification function `Visits`, and the lemmas about the schedule are
  stated on `Visits`. The loop's stride is a parameter: `ThirtyOneDays` is
  the code as written, `OneMonth` the calendar-month stride it evidently
  intends (see Findings).
- `Fetch` (fetch.dfy): the request parameters, the response branch, and a
  run of calls that ends at the first call that raises.

Some behaviour of `main.py` that the model keeps as written:

- The loop steps 31 days (main.py:61), not one calendar month.
- A 200 body without the series key, such as the provider's `"Information"`
  quota notice, reads as an empty series (main.py:43) and is not reported.
- Records go through `insert_one` (main.py:47), and that line is never
  reached (see Findings).
- There is no rate limiting, coverage check or retry anywhere in `main.py`.

## Model

| member | source | states |
|---|---|---|
| `Calendar.DaysInMonth` | main.py:61 | every month has 28 to 31 days; 29 exactly for February of a leap year |
| `Calendar.FirstOfNextMonth` | main.py:61 | the first of the next month is a valid date, one month index later and after `d` |
| `Calendar.DateLessEq` | main.py:57 | `current_date <= end_date` holds exactly when the current date is not after the end date: the order is total |
| `Calendar.DateOrderTotal` | main.py:57 | any two dates compare as less, equal or greater, never both less and greater, and no date is less than itself |
| `Calendar.DateLessTransitive` | main.py:57-61 | the order on dates is transitive |
| `Calendar.OrdinalLandmarks` | main.py:53 | `toordinal` counts 0001-01-01 as day 1, and the loop's first date 2000-01-01 as day 730120 |
| `Calendar.AddDays` | main.py:61 | adding days by walking through the months gives a valid date that is never before the start |
| `Calendar.AddDaysOrdinal` | main.py:61 | `d + n days`, computed month by month, is the date whose ordinal is the ordinal of `d` plus `n`, as Python defines the sum |
| `Calendar.AddTimedelta` | main.py:61 | `current_date + timedelta(days=n)` is the in-range date `n` days later, and fails (OverflowError) exactly when that date is past year 9999 |
| `Calendar.OrdinalMonotone` | main.py:57 | Python's comparison of dates agrees with the order of their ordinals |
| `Calendar.OrdinalInjective` | main.py:61 | two valid dates have equal ordinals exactly when they are equal |
| `Calendar.AddDaysAdvances` | main.py:57-61 | adding days never moves a date back, and moves it forward exactly when `n > 0` |
| `Calendar.AddDaysCompose` | main.py:61 | adding `m` then `n` days is adding `m + n` days |
| `Calendar.AddThirtyOneDays` | main.py:61 | the exact date 31 days later: day `day + 31 - len(month)` of the next month if it fits, otherwise of the month after |
| `Calendar.ThirtyOneDaysMonthStep` | main.py:61 | 31 days later is one or two calendar months on, and two exactly when the next month is too short for the drifted day |
| `Calendar.MayThirtyFirstSkipsJune` | main.py:61 | May 31 plus 31 days is July 1 |
| `Calendar.JanuaryThirtyFirstSkipsFebruary` | main.py:61 | January 31 plus 31 days is March 2 in a leap year, March 3 otherwise |
| `MonthLabels.MonthLabel` | main.py:58 | `strftime('%Y-%m')` is seven characters: four digits spelling the year, a dash, and two digits spelling the month |
| `MonthLabels.ParseLabel` | main.py:58 | a string parses exactly when it has the `%Y-%m` shape, and then yields a year 0-9999 and a month 1-12 |
| `MonthLabels.LabelRoundTrip` | main.py:58 | every label has the `%Y-%m` shape and parses back to the date's year and month |
| `MonthLabels.LabelInjective` | main.py:58 | two dates get the same label exactly when they are in the same month |
| `MonthLabels.LabelOrder` | main.py:58 | one label is less than another as a string exactly when its month is earlier |
| `MonthLabels.FirstLabel` | main.py:53-58 | the first month label is `"2000-01"` |
| `Schedule.Advance` | main.py:61 | one advance moves to a later date in a later month, and fails only from December 9999 |
| `Schedule.Visits` | main.py:53-61 | the loop visits its start date first if it is not after the end, and only dates not after the end |
| `Schedule.MonthCalls` | main.py:58-60 | one pass calls once per symbol, in list order, each with the month's label |
| `Schedule.MonthPass` | main.py:58-60 | the `for symbol in symbols` loop makes exactly the calls of `MonthCalls` |
| `Schedule.PlanFetches` | main.py:53-61 | the loop's calls are the schedule of `Visits` from 2000-01-01, and it reports an overflow exactly when `Visits` does |
| `Schedule.VisitsSteps` | main.py:61 | each visited date after the first is one advance of the date before |
| `Schedule.VisitsStop` | main.py:57-61 | after the last visited date the next advance overflowed or lands after the end date |
| `Schedule.VisitsIncreasing` | main.py:57-61 | visited months strictly increase, and so do their labels as strings: no month is visited twice |
| `Schedule.VisitsDistinctMonths` | main.py:57-61 | no two visited dates share a month |
| `Schedule.ThirtyOneDaysStepsOneOrTwoMonths` | main.py:61 | consecutive passes are one or two months apart |
| `Schedule.ThirtyOneDaysVisitsExactly` | main.py:53-61 | pass `i` is at 31·i days after the start, all passes are not after the end date, and the next one would be |
| `Schedule.OneMonthVisitsExactly` | main.py:57-61 | with a calendar-month stride, pass `i` is the first of the `i`-th month, and the passes are exactly the months up to the end date's month |
| `Schedule.CallsForAppend` | main.py:57-60 | one more pass appends that month's calls to the calls so far |
| `Schedule.CallsForIndex` | main.py:57-60 | call `i·n + j` is symbol `j` with the label of pass `i`, and there are `passes·n` calls |
| `Schedule.CallsForMember` | main.py:57-60 | a call is made exactly when it pairs a listed symbol with a visited month's label |
| `Schedule.CallsForNoDuplicates` | main.py:57-61 | distinct symbols over distinct months give no repeated call |
| `Schedule.ScheduleStart` | main.py:53-58 | the first call is the first symbol with `"2000-01"`; an end date before 2000-01-01 makes no call |
| `Schedule.ScheduleLabels` | main.py:54-58 | every call carries a listed symbol and a `%Y-%m` label of a month from 2000-01 to the end date's month |
| `Schedule.ScheduleMonthMajor` | main.py:57-60 | the schedule is month-major and symbol-minor: call `i·n + j` is symbol `j` in pass `i` |
| `Schedule.ScheduleNoDuplicates` | main.py:57-61 | with distinct symbols, no (symbol, month) pair is requested twice |
| `Schedule.ThirtyOneDaysSkipsJune2004` | main.py:53-61 | as written, `"2004-06"` is never requested, while `"2004-05"` and `"2004-07"` are once the end date reaches 2004-07-01 |
| `Schedule.OneMonthCoversEveryMonth` | main.py:53-61 | with a calendar-month stride every month from 2000-01 to the end date is requested for every symbol |
| `Fetch.RequestParams` | main.py:30-37 | the request has exactly the six parameters `function`, `symbol`, `interval`, `month`, `outputsize`, `apikey` |
| `Fetch.RequestParamsFixed` | main.py:30-37 | `function` is `TIME_SERIES_INTRADAY`, `interval` is `60min`, `outputsize` is `full`; the rest are the arguments |
| `Fetch.RequestParamsInjective` | main.py:30-37 | two calls send the same parameters exactly when their symbol and month agree |
| `Fetch.ErrorMessage` | main.py:49 | the printed line starts with `Error fetching data for `, then has the symbol, and ends with the month |
| `Fetch.SeriesOf` | main.py:43 | the value under `"Time Series (60min)"`, or an empty object when the key is missing |
| `Fetch.FetchAndStore` | main.py:40-49 | an error line is logged exactly for a non-200 status; nothing is stored and the call returns exactly for a 200 object body with an empty or missing series |
| `Fetch.ErrorStatusOnlyLogs` | main.py:40-49 | a non-200 status logs `Error fetching data for <symbol> for the month <month>`, whatever the body |
| `Fetch.MissingSeriesStoresNothing` | main.py:43-44 | a 200 body without `"Time Series (60min)"` is an empty series: nothing stored, nothing logged |
| `Fetch.InformationDiagnosticStoresNothing` | main.py:43-44 | an `"Information"` body is silently treated as empty |
| `Fetch.NonEmptySeriesRaises` | main.py:44-47 | a series with any entry raises before `insert_one`, so no record is ever stored |
| `Fetch.IntendedFetchAndStore` | main.py:40-49 | the intended branch logs exactly for a non-200 status and stores only from a 200 object body |
| `Fetch.IntendedAgreesElsewhere` | main.py:40-49 | the intended branch logs the same line, fails with the same exception, or stores nothing, for every response except a 200 body with a non-empty series |
| `Fetch.IntendedStoresEveryEntry` | main.py:44-47 | intended: one document per entry, with the entry's fields, the symbol and its timestamp; none without the series key |
| `Fetch.Attempted` | main.py:57-60 | the run makes the scheduled calls up to and including the first that raises, or all of them |
| `Fetch.AttemptedAllWhenNothingRaises` | main.py:57-60 | when no response raises, every scheduled call is made |
| `Fetch.RunEndsAtFirstData` | main.py:44-47 | the run ends no later than the first call that gets data |

## Left out

- The HTTP request (main.py:39) is not modelled. A response is an input: a status code and the decoded body, or None when the body is not JSON (main.py:41).
- The MongoDB client and `insert_one` (main.py:6-8, 47) are not modelled. As written, `insert_one` is never reached.
- The `print` of main.py:49 is modelled as the message it prints.
- `datetime.now()` (main.py:54) is the parameter `endDate`. `current_date` is always midnight, so comparing it with a `datetime` that has a time of day gives the same answer as comparing the dates.
- The API key and base URL (main.py:11-12) are not modelled; the key is a parameter of `RequestParams`. The symbol list (main.py:15-26) is an arbitrary input sequence.
- MonthLabels.MonthLabel: a year below 1000 is written with four digits here. The zero-padding of such years by `strftime` depends on the platform, and the schedule never reaches them.
- Fetch.FetchAndStore: JSON values other than objects are a single value `Other`. The order of the entries is not modelled. So the first entry's exception is one outcome `EntryNotStorable`; in Python it is a TypeError at line 45 if the entry is not an object and an AttributeError at line 46 otherwise.
- Fetch.IntendedStoresEveryEntry: the timestamp is kept as the provider's text; the conversion of line 46 to a `datetime` is not modelled.
- Fetch.Attempted: the `k`-th request gets the `k`-th response of an input sequence; timing and the network are not modelled.
- Rate limiting, a coverage check, retries and upserts do not occur in main.py and are not modelled.

## Findings

| source | as written | input that shows it | evidently intended | confidence | as-written member | corrected member |
|---|---|---|---|---|---|---|
| main.py:61 | `current_date += timedelta(days=31)`: the day of the month drifts, and a month is skipped whenever the drifted day does not fit in the next month | any end date from 2004-07-01: 2004-05-31 is visited, then 2004-07-01, so `"2004-06"` is never requested | one pass per calendar month from 2000-01 to the current month | medium, not executed | `Schedule.ThirtyOneDaysSkipsJune2004` | `Schedule.OneMonthCoversEveryMonth` |
| main.py:46 | `date.to_pydatetime()` on the timestamp key, which is a `str` | any 200 response whose `"Time Series (60min)"` has an entry: AttributeError before `insert_one`, and the run ends | convert the timestamp and insert one document per entry, tagged with the symbol | high, not executed | `Fetch.NonEmptySeriesRaises` | `Fetch.IntendedStoresEveryEntry` |
