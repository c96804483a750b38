# Daily temperature aggregation

This project models the data processor of a small weather pipeline. The
processor reads a CSV file of timestamped temperature readings and computes
one mean temperature per calendar day, sorted by date. The model covers
`lesOgAggreger` in `databehandler/main.go` and its result record
`DagTemp`, and it proves that the program's three passes compute exactly
the daily averages of the valid data rows. The three passes are:

- accumulation into a per-date map;
- finalisation into a slice;
- an in-place sort.

The model:

- starts from the records the CSV reader returns, or from the reader's
  failure;
- drops the header;
- fails with "ingen data rader i CSV" when there are no data rows at all;
- silently skips rows that have fewer than two fields, an unparsable
  RFC 3339 timestamp in the first field, or an unparsable number in the
  second;
- keys each reading by the leading `YYYY-MM-DD` of its timestamp, in the
  timestamp's own offset;
- keeps a sum and a count (`akk`) per key;
- turns each accumulator into `DagTemp{Dato, Gjennomsnitt = sum/antall}`;
- sorts the entries by Go's byte-wise string order.

Modules:

- `Wrappers`: `Option` and `Result`.
- `Lexicographic`: Go's `<` on strings, and the facts about it that a
  sort needs. It also defines the sorted sequence of a finite set of keys.
- `Rfc3339`: the strict recogniser for RFC 3339 `date-time` values
  (section 5.6 of RFC 3339) that Go's `time.Parse(time.RFC3339, …)` uses.
  It also defines the `t.Format("2006-01-02")` date key, and a formatter
  used to state the parse/format round trip.
- `Aggregation`: the pure specification. It says which rows yield a
  reading, and gives the temperatures of each date (`TemperaturesOn`), the
  set of dates (`Dates`), the unique correct output (`DailyAverages`) and
  the result for any outcome of reading the file (`Aggregated`).
- `Databehandler`: the program as it runs.
  - `Accumulate` is the row loop, which updates a `map<string, Akk>`
    entry by entry.
  - `Finalize` is the append loop. It visits the map keys in a
    nondeterministic order and writes into an array sized `len(perDag)`.
  - `SortByDato` is the in-place sort.
  - `LesOgAggreger` composes them and is proved equal to `Aggregated`.

The temperature parser `strconv.ParseFloat` is a function parameter
`parseFloat: string -> Option<real>`. Opening and reading the file is a
`Result<seq<Row>, string>` input. Sums and means use exact `real`
arithmetic.

The "no data rows" check runs before the row loop and looks only at the
raw record count (`databehandler/main.go:69-71`).

## Model

| member | source | states |
|---|---|---|
| Databehandler.LesOgAggreger | databehandler/main.go:55-118 | A read failure is passed on unchanged. With at most one record the result is the "ingen data rader i CSV" error. The result fails exactly in those two cases. Otherwise it succeeds with entries in strictly ascending date order, one per date that has a valid data row. Each entry holds the mean of that date's temperatures. The length equals the number of such dates. The result equals the reference `Aggregated`. |
| Databehandler.Accumulate | databehandler/main.go:78-103 | After the row loop, the map's keys are exactly the dates of the valid data rows. Each accumulator holds the sum and the count of that date's temperatures. Every count is at least 1. |
| Databehandler.AddReading | databehandler/main.go:96-102 | Adding a reading gives the map one key more when the date is new and leaves every other date's accumulator unchanged. A known date's accumulator gains the temperature and one count. A new date's accumulator holds just that temperature with count 1. `TalliesStep` gives the exactness of the resulting tallies. |
| Databehandler.MeanOf | databehandler/main.go:109 | The mean of an accumulator with a positive count, taken that many times, gives back the sum. The count is positive by `Accumulate`'s guarantee that every count is at least 1, which is exactly `Finalize`'s precondition, so the division never divides by zero. |
| Databehandler.AddRow | databehandler/main.go:81-102 | A row failing the field-count, timestamp or number check leaves the map unchanged. A valid row adds its temperature to its date's accumulator, which is created empty first when the date is new. |
| Databehandler.TalliesStep | databehandler/main.go:96-102 | Adding one reading to its date's accumulator keeps the map's sums and counts exact for the extended list of readings. |
| Databehandler.Finalize | databehandler/main.go:105-111 | Visiting the map in any order yields `len(perDag)` entries. Their dates are exactly the map's keys, each once. Each entry holds its accumulator's `sum / antall`. |
| Databehandler.VisitStep | databehandler/main.go:106-110 | Appending the entry of one not-yet-visited key keeps the visited entries distinct and correct. It also removes exactly that key from the remaining ones. |
| Databehandler.SortByDato | databehandler/main.go:113-115 | The array ends up in non-decreasing date order and is a permutation of its old contents. Distinct dates stay distinct. |
| Databehandler.InsertNext | databehandler/main.go:113-115 | Sinking one entry into a sorted prefix extends the sorted prefix, leaves the later entries alone and permutes the array. |
| Databehandler.SortedDistinctIsStrict | databehandler/main.go:113-115 | Non-decreasing order with no repeated date is strictly ascending order. |
| Databehandler.SortedFinalizedIsDailyAverages | databehandler/main.go:105-115 | Finalised entries for exact accumulators, once sorted, are the daily averages of the tallied readings. |
| Aggregation.DailyAverages | databehandler/main.go:105-115 | The reference output is strictly ascending by date. It holds exactly the dates with readings, each with the mean of its temperatures, and has one entry per such date. |
| Aggregation.DailyAveragesUnique | databehandler/main.go:105-115 | Any sequence meeting the daily-averages description equals the reference output, so the unspecified map order cannot affect the result. |
| Aggregation.Dates | databehandler/main.go:96-100 | A date is a key exactly when at least one reading has that date. |
| Aggregation.ParseRow | databehandler/main.go:81-94 | A row yields a reading only if it has at least two fields, its first field parses as a timestamp and its second as a number. The reading's date is then the first ten characters of the timestamp and its temperature is the parsed number. `RowContributes` adds the converse. |
| Aggregation.RowContributes | databehandler/main.go:81-94 | A row yields a reading exactly when it has at least two fields, its first field parses as a timestamp and its second as a number. The reading's key is then the first ten characters of the timestamp. |
| Aggregation.ExtraColumnsIgnored | databehandler/main.go:81-94 | Appending further fields to a row of at least two fields does not change its reading. |
| Aggregation.SameLeadingFields | databehandler/main.go:81-94 | Two row lists that agree on every row's first two fields (or whose rows are both too short) yield the same readings. |
| Aggregation.MalformedRowIgnored | databehandler/main.go:80-94 | Inserting a row that fails the checks anywhere among the data rows changes no reading. |
| Aggregation.ReadingsFromRows | databehandler/main.go:80-94 | Every reading comes from some data row. Every valid data row contributes its reading. |
| Aggregation.NoReadings | databehandler/main.go:80-94 | There are no readings exactly when every data row fails the checks. |
| Aggregation.HeaderIgnored | databehandler/main.go:80 | Replacing the first record by any other row does not change the result. |
| Aggregation.NoDataRowsBoundary | databehandler/main.go:69-71 | The result is an error exactly when there are at most one record, and that error is "no data rows". This depends only on the record count. |
| Aggregation.AllRowsInvalid | databehandler/main.go:69-111 | With at least one data row and every data row failing the checks, the result is a success with no entries, not an error. |
| Rfc3339.ParseTimestamp | databehandler/main.go:85 | Every accepted timestamp is a real calendar date and time: year 0-9999, a month, a day within that month (leap years included), hour, minute, second in range, and an offset within ±23:59. |
| Rfc3339.ParseZone | databehandler/main.go:85 | An accepted zone designator is an offset within ±23:59. |
| Rfc3339.FormatDate | databehandler/main.go:89 | The date key is ten characters long, in the `YYYY-MM-DD` shape: digits, with `-` at positions 4 and 7. `DateKeyIsPrefix` shows that it is the timestamp's own leading date. |
| Rfc3339.DateKeyIsPrefix | databehandler/main.go:89 | For an accepted timestamp, the date key is its leading `YYYY-MM-DD`, with no zone conversion. |
| Rfc3339.ParseOfFormat | databehandler/main.go:85-89 | Parsing the RFC 3339 text of any valid timestamp gives that timestamp back. |
| Rfc3339.ParseZoneOfFormat | databehandler/main.go:85 | Parsing the written form of any offset within ±23:59 gives that offset back. |
| Rfc3339.DecimalOfPad | databehandler/main.go:89 | A number below 10^width, written with `width` zero-padded digits, reads back as itself. |
| Rfc3339.PadOfDecimal | databehandler/main.go:89 | A digit string, re-padded to its own width after reading it, is unchanged. |
| Lexicographic.LessIrreflexive | databehandler/main.go:114 | No string is less than itself. |
| Lexicographic.LessTransitive | databehandler/main.go:114 | The string order is transitive. |
| Lexicographic.LessTotal | databehandler/main.go:114 | Any two distinct strings are ordered one way or the other. |
| Lexicographic.LessAsymmetric | databehandler/main.go:114 | Two strings are never each less than the other. |
| Lexicographic.SortedKeys | databehandler/main.go:113-115 | The sorted keys of a finite set are strictly ascending and hold exactly the set's members. |
| Lexicographic.SortedUnique | databehandler/main.go:113-115 | Two strictly ascending sequences with the same members are equal. |

## Left out

- File discovery in `main` is I/O and process control and is not modelled. This covers the `os.Stat` fallback from `data.csv` to `dummy.csv`, `log.Fatalf` and the final `Printf` (`databehandler/main.go:31-51`).
- `os.Open`, `csv.NewReader` and `ReadAll` (`databehandler/main.go:56-68`) are foreign library calls. Their outcome is an input: either the list of records or the reader's error message.
- The CSV reader's own rules are not modelled. These are quoting, and the default rule that every record has as many fields as the first, whose violation makes `ReadAll` fail. The model therefore accepts record lists the real reader would never deliver. This only widens what is proved.
- `strconv.ParseFloat` is the parameter `parseFloat`. Its syntax, and its acceptance of `NaN` and `Inf`, are not modelled.
- Float64 rounding in `a.sum += temp` and `a.sum / float64(a.antall)` is not modelled. Sums and means are exact reals.
- Rfc3339.ParseTimestamp: only Go's strict RFC 3339 path is modelled. Go falls back to its general layout parser when that path fails. The fallback also accepts a one-digit hour, a comma before the fraction, and offsets with hour 24 or minute 60 or more. These inputs are rejected here, so such rows count as malformed in the model.
- Rfc3339.ParseTimestamp: the value of a fractional second is recognised but not kept, since the date key does not depend on it.
- The order in which Go visits the map in `Finalize` is a nondeterministic choice of a not-yet-visited key. No particular order is modelled, and the result is proved not to depend on it.
- The `*akk` pointers in `perDag` are not modelled as shared references. Updating an accumulator replaces that date's map value, which is the only effect the pointer updates have.
- `sort.Slice` is modelled by an insertion sort with the same comparison and the same contract (sorted, a permutation). Go's actual algorithm is not modelled, and its instability does not matter because no date appears twice.
- Error values are modelled as the `Error` datatype. Its `Message` gives the text of the "no data rows" error. Go's wrapping of the reader's errors is not modelled.
- `skrivJSON` (`databehandler/main.go:121-127`) is JSON encoding and file output and is not modelled.
- `datainnsamler/hent_data.py` is an HTTP client writing a CSV file, and `web/app.js` is a browser chart. Neither is part of this model.
