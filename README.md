# covid19 backend: the CSV aggregation engine, in Dafny

The backend of covid19 reads a daily-report table with the columns
`Date, Country/Region, Province/State, Lat, Long, Confirmed, Recovered, Deaths`.
From it, it builds one record per country that holds daily new counts.
This project models that engine (`parse`, `parseDates`, `parseCountries`,
`updateCountry`, `newCountry` and `atoi0` in `backend/main.go`) and proves
what it guarantees.

- **Text** (`text.dfy`): `strings.TrimSpace` over the `unicode.IsSpace` code points, `strconv.Atoi` (an optional sign, decimal digits, 64-bit range), and `atoi0`, which reads a blank count as 0.
- **Dates** (`dates.dfy`): `time.Parse` with the layout `2006-01-02`. It accepts exactly four digits, a dash, two digits, a dash and two digits, forming a valid calendar day (leap years included). Its partner `FormatDate` writes a date back in the same layout.
- **Rows** (`rows.dfy`): rows of eight text fields, and the CSV reader's field-count check (`FieldsPerRecord = 8`). The reader rejects the first record that does not have eight fields.
- **Cycle** (`cycle.dfy`): `parseDates`. It collects row dates up to the first repeated date string, then parses them. `ParseDates` is the imperative loop with its seen-set, proved equal to the functional `DateCycle`.
- **Aggregate** (`aggregate.dfy`): `newCountry`, `updateCountry`, and the row loop of `parseCountries` written as a fold (`Accumulate`). Row `k` is handled with the cursor at `k mod len(dates)`. Its counts are added into that slot of its country's series. The whole parse fails at the first row whose counts, coordinates or date are wrong.
- **Differences** (`differences.dfy`): the delta pass `O[0] = S[0]`, `O[i] = S[i] - S[i-1]`, and its inverse, prefix sums.
- **Countries** (`countries.dfy`): `parseCountries` as methods. These are the row loop with its rolling `dateIdx`, and the backward in-place delta loop per country. Each is proved equal to its specification function.
- **Dataset** (`dataset.dfy`): `parse` after `ReadAll`. It drops the header, reads the date cycle, then builds the countries. The first error is returned as is.
- **Vectors** (`vectors.dfy`): field-level and series-level facts taken from the two table tests in `backend/main_test.go`.

Dates are not required to increase. The code checks only that each row's date equals the cycle date at its position. A table whose cycle runs backwards is accepted. The model follows the code here.

## Model

| member | source | states |
|---|---|---|
| Text.TrimSpaceMeaning | backend/main.go:98 | trimming keeps an infix that neither starts nor ends with white space, and everything cut off is white space |
| Text.TrimSpaceEmptyIff | backend/main.go:170-172 | a field is empty after trimming exactly when it holds only white space |
| Text.AtoiFormatInt | backend/main.go:174 | Atoi reads back every 64-bit integer written in decimal |
| Text.Atoi0Blank | backend/main.go:169-173 | an empty or all-white-space count field reads as 0 |
| Text.Atoi0Padded | backend/main.go:169-175 | a decimal count padded with white space on either side reads as its value |
| Text.Atoi0RejectsJunk | backend/main.go:169-175 | a count field holding a character that is neither white space, a digit nor a sign is an error |
| Dates.ParseDate | backend/main.go:84-87 | an accepted date text is a valid calendar day in the fixed `YYYY-MM-DD` shape |
| Dates.ParseFormatDate | backend/main.go:84 | every valid day written in the layout parses back to itself |
| Dates.FormatParseDate | backend/main.go:84 | every accepted text is exactly the layout of the day it parses to |
| Dates.ParseDateInjective | backend/main.go:80-84 | two accepted texts give equal days only if the texts are equal, so comparing date strings and comparing dates agree |
| Rows.FirstBadRecord | backend/main.go:55-63 | the index of the first record without eight fields, or the record count if every record has eight |
| Cycle.LongestDistinctPrefixMeaning | backend/main.go:76-91 | the collected date strings are a prefix of the date column, pairwise distinct, and stop only at the column's end or at a string already collected |
| Cycle.StopsAtFirstRepeat | backend/main.go:80-82 | when row m repeats an earlier date and the rows before it are distinct, exactly rows 0..m-1 are collected |
| Cycle.ParseAllMeaning | backend/main.go:84-87 | parsing the collected strings succeeds exactly when each of them parses, then yields their dates in order; otherwise it fails with the first string that does not parse |
| Cycle.DateCycle | backend/main.go:76-91 | a table with at least one row yields at least one date |
| Cycle.ParseDates | backend/main.go:76-91 | the seen-set loop returns exactly the date cycle: the distinct prefix, parsed, or the first parse error |
| Cycle.DateCycleDistinct | backend/main.go:76-91 | the dates of the cycle are pairwise distinct |
| Cycle.DateCycleMeaning | backend/main.go:76-91 | date i of the cycle is parsed from row i, the cycle is no longer than the table, and a cycle shorter than the table ends because the next row repeats one of its dates |
| Differences.DeltasRoundTrip | backend/main.go:111-119 | prefix sums of the first differences give back the cumulative series |
| Differences.PrefixSumsRoundTrip | backend/main.go:111-119 | first differences of the prefix sums give back the daily series |
| Differences.DifferencedAboveDone | backend/main.go:114-118 | once the backward loop has passed index 1, the whole series holds its first differences |
| Aggregate.NewCountry | backend/main.go:149-167 | a new record exists exactly when both coordinates parse; it is named by the trimmed country field, carries those coordinates, and has three all-zero series of length len(dates) |
| Aggregate.UpdateCountry | backend/main.go:123-147 | success exactly when the three counts parse and the row's date is the expected one; a wrong date reports both dates; on success the counts are added into slot dateIdx, with every other slot, the name and the coordinates unchanged |
| Aggregate.StepMeaning | backend/main.go:97-108 | one row succeeds exactly when its country exists or its coordinates parse, and it is then updated; the row's country is added to the keys, every other country is unchanged, and an error carries the row |
| Aggregate.Accumulate | backend/main.go:93-110 | every series in the map built by the row loop has one slot per date |
| Aggregate.AccumulateErrorSticks | backend/main.go:100-107 | once a prefix of the rows fails, the whole loop fails with the same error and no map |
| Aggregate.AccumulateKeys | backend/main.go:98-104 | the map holds exactly the trimmed country names of the rows, each record named by its key |
| Aggregate.AccumulateAccepts | backend/main.go:97-110 | the row loop succeeds exactly when every row k is acceptable against the date at k mod len(dates) |
| Aggregate.AccumulateFirstError | backend/main.go:97-110 | a failing loop fails at a row k that is not acceptable, all rows before k are acceptable, and the error carries row k |
| Aggregate.AccumulateSlots | backend/main.go:106-109 | slot i of a country's series is the sum of that field over the country's rows at positions k with k mod len(dates) = i |
| Aggregate.AccumulateCoords | backend/main.go:99-104 | a country's coordinates are those parsed from the first row that names it |
| Countries.StoreDeltas | backend/main.go:114-118 | the backward in-place loop turns each of a country's three series into its first differences |
| Countries.StoreAllDeltas | backend/main.go:113-119 | the pass over all countries differences every record and keeps the keys |
| Countries.ModNext | backend/main.go:109 | advancing the cursor modulo len(dates) keeps it equal to the row count modulo len(dates) |
| Countries.AddRow | backend/main.go:98-108 | one iteration of the row loop computes the fold's step: find or create the country, then update it |
| Countries.CollectRows | backend/main.go:94-110 | the row loop with its rolling dateIdx returns exactly the fold over the rows |
| Countries.ParseCountries | backend/main.go:93-121 | parseCountries returns the folded map with every series differenced, or the row loop's error |
| Countries.CountriesOfAccepts | backend/main.go:93-121 | parseCountries succeeds exactly when every row is acceptable |
| Countries.CountriesOfFirstError | backend/main.go:93-121 | a failure is reported for the first unacceptable row, and the error carries that row |
| Countries.CountriesOfShape | backend/main.go:93-121 | the result has one record per trimmed country name, each named by its key, each series of length len(dates) |
| Countries.CountriesOfDeltas | backend/main.go:93-121 | each stored series is the first differences of the per-slot sums of that country's rows |
| Countries.CountriesOfTotals | backend/main.go:93-121 | prefix sums of each stored series give back the per-slot sums of that country's rows |
| Countries.CountriesOfCoords | backend/main.go:93-121 | every country carries the coordinates of the first row naming it |
| Dataset.Parse | backend/main.go:54-74 | parse returns the reader's field-count error, the date error, the row error, or the dates with the countries, in that order of precedence |
| Dataset.ParseAccepts | backend/main.go:54-74 | parse succeeds exactly when every record has eight fields, the date cycle parses, and every data row is acceptable against it |
| Dataset.ParseInvariants | backend/main.go:54-74 | accepted data has distinct dates read from the first rows, at least one date when there is a data row, one record per country name, each under its own name, and every series of length len(dates) |
| Vectors.PaddedName | backend/main_test.go:26 | the padded country field `    Abc` trims to `Abc` |
| Vectors.PaddedCount | backend/main_test.go:27 | the padded count field `        10` reads as 10 |
| Vectors.BlankCount | backend/main_test.go:26 | an all-blank field reads as 0 |
| Vectors.TestDate | backend/main_test.go:35 | `2020-01-02` parses to 2 January 2020 |
| Vectors.ProvinceCycle | backend/main_test.go:53-56 | the province table's date column collects the two dates before the repeat |
| Vectors.SingleCountryDeltas | backend/main_test.go:26-28 | cumulative (3,10,12), (0,2,4), (1,6,5) become (3,7,2), (0,2,2), (1,5,-1) |
| Vectors.ProvinceDeltas | backend/main_test.go:53-56 | province sums (3+2,5+6), (0,4), (1+1,2+3) become (5,6), (0,4), (2,3) |

## Left out

- `main` (reading standard input, JSON encoding, pretty printing, `log.Fatal`): I/O and foreign libraries.
- CSV tokenising (quoting, separators, line endings, `ReuseRecord`): the model starts from the records `ReadAll` returns. Only the `FieldsPerRecord = 8` check is modelled. Its error names the index of the offending record rather than its line number.
- Dataset.Parse: requires at least one record, because `rows[1:]` panics on an input with no header.
- Countries.ParseCountries: requires a nonempty date list once there are rows, because the source would index `dates[0]` and take `% 0` otherwise. `parse` always supplies one.
- `strconv.ParseFloat` and `float64` coordinates: coordinate parsing is a parameter, any function from text to an optional real, and coordinates are only copied.
- The `Population` field: it is never written and is always 0.
- Go `int` overflow in the `+=` of the row loop and the `-=` of the delta pass: counts are unbounded integers. Atoi's own 64-bit range check is modelled.
- Error messages (`errs.Errorf`, `ErrInvalidInput` text, `time.Parse` messages): an error keeps only its kind, the offending row and, for a wrong date, the two dates.
- `time.Parse` beyond the one layout (time zones, locations, monotonic readings): a date is a year, month and day.
- Go map iteration order in the delta pass: countries are differenced independently, so the order does not matter. The map comprehension states the result for all orders at once.
- Pointers and in-place mutation through `*Country`: records are values stored back into the map, so aliasing is not modelled. The delta loop works on local sequences that are reassigned.
- The two table tests in `backend/main_test.go` are not replayed end to end: only their field values, their date cycle and their series arithmetic are stated. `TestParseFile` needs data files that are not part of this model.
- `frontend/rollup.config.js`: build tooling with no logic to model.
