# Daily receipt in a period — a Dafny model

The pizza-shop API answers `GET /metrics/daily-receipt-in-period` with the
revenue of the managed restaurant, day by day, over a window whose whole-day
span is at most seven (its orders can fall on up to nine calendar days). The
handler:

1. resolves the window from the optional `from`/`to` query strings: a missing
   `from` is seven days before now, a missing `to` is seven days after `from`
   when `from` is given and now otherwise;
2. rejects a window whose whole-day span exceeds seven with status 400 and the
   body `{ code: "INVALID_PERIOD", message: "The interval of date cant be above 7 days" }`;
3. sums `totalInCents` of the restaurant's orders created between the start of
   the first day and the end of the last, grouped by the `DD/MM` label of their
   creation instant, keeping groups whose sum is at least 1;
4. sorts the rows in place with a comparator on the labels: by day within a month,
   otherwise by `new Date(2023, month - 1)`.

The model has these modules:

- `Calendar`: instants as integer milliseconds in UTC. It holds day numbers, start and end of day, and the conversion between day numbers and Gregorian dates. Both round trips are proved: day number to date and back, and valid date to day number and back. It also holds ECMAScript's `MakeDay` for `new Date(year, monthIndex)`.
- `Labels`: `TO_CHAR(…, 'DD/MM')` as `Format`, and the comparator's `split("/").map(Number)` as `Parse`. The two are proved inverse.
- `Period`: window resolution (JavaScript truthiness of the query strings), dayjs' truncating `diff(…, "days")` and the rejection test.
- `Receipts`: the SQL query as a fold over the order ledger (`Selected`, `GroupByDay`, `HavingPositive`). It is proved against the reference sum `DayTotal`.
- `Ordering`: the comparator, proved to be the (month, day) order. It also holds an in-place insertion sort on an `array`, proved sorted and a permutation, and the proof that a sorted arrangement of distinct labels is unique.
- `Route`: the handler as a method whose result is either the 400 response or a 200 response carrying rows with the meaning above.
- `Scenarios`: worked requests derived from the general lemmas.

Points where the code behaves differently from what a reader might expect:

- The code does not order the bounds. A reversed window is accepted, and its query filters nothing in unless both bounds fall on the same day.
- The code does not handle a parse failure separately. `parse` is any total function.
- Both `from` and `to` are read by truthiness, so an empty string acts as an absent bound.
- The two `dayjs()` calls on lines 14 and 15 are two clock readings.
- An accepted window can cover nine calendar days. Line 17 accepts any window shorter than eight days, and lines 35-36 widen it to the start of its first day and the end of its last (`Period.AcceptedWindowDays`, `Period.NineDaysReached`).
- Labels carry no year, so a window across New Year is answered with January before December (`Scenarios.NewYearOrder`).

## Model

| member | source | states |
|---|---|---|
| Period.DiffInDays | server/src/http/routes/get-daily-receipt-in-period.ts:17 | the whole-day difference truncated toward zero, for both signs: its multiple of a day is within one day of the true difference, never past it |
| Period.RejectedIff | server/src/http/routes/get-daily-receipt-in-period.ts:17 | `Rejected` (the test `Span(w) > 7` of line 17) holds if and only if the window's end lies eight days or more after its start |
| Period.SevenDaysAccepted | server/src/http/routes/get-daily-receipt-in-period.ts:17 | a span of seven days, or seven days and a fraction, has span exactly 7 and is accepted |
| Period.ReversedAccepted | server/src/http/routes/get-daily-receipt-in-period.ts:17 | a window whose end precedes its start has span at most 0 and is accepted |
| Period.DefaultWindow | server/src/http/routes/get-daily-receipt-in-period.ts:14-17 | with neither bound the window is [first reading − 7 days, second reading]; with the second reading less than a day after the first (and not before it) its span is 7 and it is accepted |
| Period.FromOnlyWindow | server/src/http/routes/get-daily-receipt-in-period.ts:14-17 | with `from` only, the end is start + 7 days, the span is 7 and the request is never rejected |
| Period.ToOnlyWindow | server/src/http/routes/get-daily-receipt-in-period.ts:14-15 | with `to` only, the start is seven days before the clock and the end is `to` |
| Route.BothBoundsWindow | server/src/http/routes/get-daily-receipt-in-period.ts:14-15 | with both bounds given as non-empty text, the window is exactly dayjs' readings of the two strings, and no clock reading enters it |
| Route.EmptyBoundAbsent | server/src/http/routes/get-daily-receipt-in-period.ts:14-15 | an empty `from`, or an empty `to`, gives the same window as leaving that bound out, since both are tested by truthiness |
| Period.AcceptedWindowDays | server/src/http/routes/get-daily-receipt-in-period.ts:17-36 | an accepted window's first and last days are at most 8 day numbers apart, and its filter interval is shorter than nine days |
| Period.NineDaysReached | server/src/http/routes/get-daily-receipt-in-period.ts:17-36 | an accepted window whose last day is 8 days after its first exists, so the bound above is tight |
| Calendar.StartOfDay | server/src/http/routes/get-daily-receipt-in-period.ts:35 | `startOf("day")` is the midnight at or before the instant, less than a day before it, on the same day |
| Calendar.EndOfDay | server/src/http/routes/get-daily-receipt-in-period.ts:36 | `endOf("day")` is the last millisecond of the instant's day: on the same day, and one more millisecond is the next day |
| Calendar.StartOfDayIff | server/src/http/routes/get-daily-receipt-in-period.ts:35 | an instant is at or after the start of a day exactly when it falls on that day or a later one |
| Calendar.EndOfDayIff | server/src/http/routes/get-daily-receipt-in-period.ts:36 | an instant is at or before the end of a day exactly when it falls on that day or an earlier one |
| Calendar.CivilFromDays | server/src/http/routes/get-daily-receipt-in-period.ts:28 | the calendar date of a day number is a valid Gregorian date: a month 1..12 and a day from 1 to that month's length under the leap rule |
| Calendar.DaysFromCivilOfCivilFromDays | server/src/http/routes/get-daily-receipt-in-period.ts:28 | converting a day number to its date and back gives the same day number |
| Calendar.CivilFromDaysOfDaysFromCivil | server/src/http/routes/get-daily-receipt-in-period.ts:28 | converting a valid date to its day number and back gives the same date, so valid dates and day numbers correspond one to one |
| Calendar.JsDateTimeMonthStart | server/src/http/routes/get-daily-receipt-in-period.ts:49-50 | for a month index 0..11, `new Date(year, monthIndex)` is midnight at the start of the first day of that month |
| Labels.ParseFormat | server/src/http/routes/get-daily-receipt-in-period.ts:43-44 | parsing a zero-padded `DD/MM` label recovers the day and month that produced it |
| Labels.FormatParse | server/src/http/routes/get-daily-receipt-in-period.ts:43-44 | formatting what a `DD/MM` string parses to writes the same string |
| Labels.SameLabelIffSameKey | server/src/http/routes/get-daily-receipt-in-period.ts:43-44 | two labels are equal if and only if they parse to the same day and month |
| Labels.LabelOf | server/src/http/routes/get-daily-receipt-in-period.ts:28 | `TO_CHAR(createdAt, 'DD/MM')` is a well-formed label whose day and month are the UTC calendar day and month of the instant |
| Labels.Format | server/src/http/routes/get-daily-receipt-in-period.ts:28 | the 'DD/MM' text is five characters with the slash in the middle |
| Labels.Parse | server/src/http/routes/get-daily-receipt-in-period.ts:43-44 | text that parses has the `DD/MM` shape, and the day and month read from it are two-digit numbers 0..99 |
| Receipts.Selected | server/src/http/routes/get-daily-receipt-in-period.ts:32-37 | every selected order is in the ledger, belongs to the restaurant and lies in the inclusive interval |
| Route.KeptByDay | server/src/http/routes/get-daily-receipt-in-period.ts:33-37 | over a resolved window, the WHERE clause keeps an order exactly when it is the restaurant's and falls on the window's first day, its last day or a day between |
| Receipts.SelectedComplete | server/src/http/routes/get-daily-receipt-in-period.ts:32-37 | every ledger order of the restaurant inside the interval is selected |
| Receipts.SelectedAllKept | server/src/http/routes/get-daily-receipt-in-period.ts:32-37 | when every order passes the WHERE clause, the selection is the ledger itself |
| Receipts.SelectedAppend | server/src/http/routes/get-daily-receipt-in-period.ts:32-37 | selection distributes over concatenation of ledgers |
| Receipts.SelectedLabelTotal | server/src/http/routes/get-daily-receipt-in-period.ts:29-39 | summing the selected orders of a label gives the reference total over the ledger |
| Receipts.HavingPositive | server/src/http/routes/get-daily-receipt-in-period.ts:40 | the kept rows are exactly the input rows whose sum is at least 1 |
| Receipts.HavingPositiveDistinct | server/src/http/routes/get-daily-receipt-in-period.ts:40 | HAVING keeps labels distinct |
| Receipts.AddToDayRows | server/src/http/routes/get-daily-receipt-in-period.ts:28-39 | adding an order's amount to its day keeps labels distinct, adds to that day's row only, and opens it when it was absent |
| Receipts.AddToDayDates | server/src/http/routes/get-daily-receipt-in-period.ts:39 | after adding to a day, the labels present are the previous ones plus that day |
| Receipts.GroupByDayRows | server/src/http/routes/get-daily-receipt-in-period.ts:28-39 | GROUP BY gives one row per label that occurs, holding the sum of that label's orders, and no other row |
| Receipts.AggregateRows | server/src/http/routes/get-daily-receipt-in-period.ts:26-40 | the query's rows have distinct labels and sums of at least 1; each sum is the total over exactly the restaurant's orders in the interval with that label; every such label whose total is at least 1 has a row |
| Receipts.OtherRestaurantIgnored | server/src/http/routes/get-daily-receipt-in-period.ts:34 | inserting an order of another restaurant anywhere in the ledger leaves the query's result unchanged |
| Ordering.MonthTimeIncreasing | server/src/http/routes/get-daily-receipt-in-period.ts:49-52 | `new Date(2023, m - 1).getTime()` strictly increases with the month over 1..12 |
| Ordering.CompareCases | server/src/http/routes/get-daily-receipt-in-period.ts:42-53 | in the same month the comparator is dayA − dayB; across months it is non-zero with the sign of monthA − monthB |
| Ordering.CompareIsOrder | server/src/http/routes/get-daily-receipt-in-period.ts:42-53 | the comparator is at most 0 exactly when the first label is no later in (month, day) order; it is 0 only for equal labels; it is antisymmetric |
| Ordering.OutOfOrder | server/src/http/routes/get-daily-receipt-in-period.ts:42-53 | one comparator call on neighbouring rows reports whether the earlier row belongs after the later one |
| Ordering.Exchange | server/src/http/routes/get-daily-receipt-in-period.ts:42 | swapping two rows of the array changes exactly those two cells and keeps the rows as a multiset |
| Ordering.InsertAt | server/src/http/routes/get-daily-receipt-in-period.ts:42 | one insertion step extends the sorted prefix by one row, keeps the rows as a multiset and leaves every row after the inserted one unchanged |
| Ordering.SortByDate | server/src/http/routes/get-daily-receipt-in-period.ts:42-53 | sorting in place leaves the array ascending by (month, day) and a permutation of its previous contents |
| Ordering.PermutationKeepsDistinct | server/src/http/routes/get-daily-receipt-in-period.ts:42 | rearranging rows with distinct labels keeps them distinct |
| Ordering.SortedUnique | server/src/http/routes/get-daily-receipt-in-period.ts:42-53 | two sorted arrangements of the same rows with distinct labels are equal, so the response does not depend on the sort algorithm or the query's row order |
| Route.GetDailyReceiptInPeriod | server/src/http/routes/get-daily-receipt-in-period.ts:10-55 | a rejected window answers 400 with the fixed code and message; any other window answers 200 with the query's rows, sorted, labels distinct, each sum the day's total, every positive day present |
| Route.SortedQueryRows | server/src/http/routes/get-daily-receipt-in-period.ts:26-55 | any ascending rearrangement of the query's rows meets everything a 200 response promises |
| Route.ReceiptsDetermined | server/src/http/routes/get-daily-receipt-in-period.ts:26-55 | two 200 responses for the same window and ledger carry the same rows in the same order |
| Scenarios.EarlyJanuary2024 | server/src/http/routes/get-daily-receipt-in-period.ts:28 | instants of 1-3 January 2024 carry the labels "01/01", "02/01", "03/01" |
| Scenarios.SortExample | server/src/http/routes/get-daily-receipt-in-period.ts:42-53 | rows "28/02", "01/03", "15/01" are answered as "15/01", "28/02", "01/03" |
| Scenarios.NewYearOrder | server/src/http/routes/get-daily-receipt-in-period.ts:42-53 | rows "30/12" and "01/01" are answered January first, since labels carry no year |
| Scenarios.BoundaryInclusive | server/src/http/routes/get-daily-receipt-in-period.ts:35-36 | an order at the last millisecond of the last day is kept; one a millisecond later or before the first day's start is not |
| Scenarios.SameDayExample | server/src/http/routes/get-daily-receipt-in-period.ts:26-40 | orders of 100, 250 and 0 cents on one day give a single row of 350; a day totalling 0 gives no row |
| Scenarios.EndToEndExample | server/src/http/routes/get-daily-receipt-in-period.ts:14-55 | for the query from=2024-01-01, to=2024-01-03 read by dayjs as midnight of 1 and 3 January 2024, and whatever the clock reads, the request is accepted and the answer is ("01/01", 500) then ("03/01", 300); another restaurant's order and the zero day do not appear |

## Left out

- Elysia routing, the `t.Object` query schema and `set.status`: the handler's outcome is a `Response` value carrying the status (200 when the handler leaves it unset).
- `getManagedRestaurantId` and `authenticate` (line 11): the restaurant id is a parameter. Their failures are not modelled.
- The database connection, drizzle's query building and Postgres: the statement's meaning is a fold over a sequence of orders, and the order the database returns rows in is the fold's order. Every stated property holds for any arrangement.
- dayjs parsing of arbitrary text, invalid dates (NaN) and time zones: `parse` is a total function from text to an instant, and every instant and label is read in UTC, `new Date(2023, month - 1)` included, which JavaScript reads in the server's local zone. Daylight-saving shifts are not modelled.
- Instants finer than a millisecond: `createdAt` is a whole number of milliseconds. A database timestamp that carries microseconds can fall after 23:59:59.999 of the last day. Such an order fails the `lte` test of line 36, yet its label names that day; the model has no such instant.
- The clock: the two `dayjs()` readings are the parameters `startNow` and `endNow`.
- `sum(…).mapWith(Number)`: sums are unbounded integers. The loss of precision above 2^53 is not modelled.
- The JavaScript engine's sort algorithm: an insertion sort with the same comparator stands for it. Labels are distinct, so every correct sort gives the same array (`Ordering.SortedUnique`).
- The comparator on text that is not a `DD/MM` label (`NaN` from `Number`): `Ordering.Compare` requires well-formed labels, which is all the query produces.
- `Calendar.JsDateTime`: only the month indexes 0..11 the comparator uses are related to the calendar (`Calendar.JsDateTimeMonthStart`, `Ordering.MonthTimeIncreasing`). Its behaviour for other month indexes is defined but not proved. It does not model the Date constructor's reading of a year 0..99 as 1900 + year; the comparator only passes 2023.
- Concurrency between requests: there is none within a request.
