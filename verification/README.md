# Flight fare collection — a Dafny model

Two Python scripts collect flight fares from the Amadeus API and append them
to CSV files under `data/`. This project models their bookkeeping:

- `month_cheapest.py` scans one route month by month. For each month it
  asks the flight_dates service for the month's cheapest date. When a date
  comes back, it runs one offer search for that date, with retries and
  exponential backoff on rate-limit and server errors. The cheapest offer
  becomes one row in the route's monthly file.
- `flight_search.py` runs one offer search for a fixed route and date. It
  keeps the cheapest offer per leading carrier on an allow-list and appends
  one row per carrier, in ascending code order, to that carrier's own file.

The external world is passed in as input:

- each call's response;
- the answer of each retry attempt;
- the clock;
- Python's `float` on price texts, as a partial `parse` function;
- the configuration read from the environment.

Sleeps are returned as lists of delays. The `data` directory is a `DataDir`
object. It holds a map from path to lines, and a line is the header or one
row. `append_row` is its method.

Modules, one file each:

| file | module | models |
|---|---|---|
| wrappers.dfy | `Wrappers` | `Option` |
| text.dfy | `Text` | Python's `isspace`, `strip`, `upper`, `lower`, `split`, `join` on ASCII letters |
| airline_codes.dfy | `AirlineCodes` | `parse_codes` |
| calendar.dfy | `Calendar` | `first_day_of_month`, `last_day_of_month`, `add_months`, `date.isoformat`/`fromisoformat` |
| retry.dfy | `Retry` | `call_offers` |
| offers.dfy | `Offers` | offers, CSV rows, `min(offers, key=grandTotal)` |
| date_scan.dfy | `DateScan` | `cheapest_day_in_month` |
| record_store.dfy | `RecordStore` | both `csv_path`s and `append_row` |
| string_order.dfy | `StringOrder` | Python string ordering and `sorted` over dictionary keys |
| flight_search.dfy | `FlightSearch` | `main` of flight_search.py |
| monthly_scan.dfy | `MonthlyScan` | `run_oneshot_year` |

The loops of the scripts are methods:

- `CallOffers`, `CheapestDayInMonth`, `GroupCheapest`, `EmitRows` and `ScanMonths`.
- `ScanMonth` is one pass of the month loop; `RunOneshotYear` is the set-up followed by `ScanMonths`.
- `DataDir.AppendRow` modifies the directory.

Each method is proved against a specification function:

- `RetryRun`, `PickOf`, `BestByCarrier`, `Emissions`/`AppendAll`, `MonthStep` and `Steps`.

The lemmas then prove the scripts' promises about those functions.

## Model

| member | source | states |
|---|---|---|
| Text.Strip | month_cheapest.py:52 | the result has no Python whitespace at either end |
| Text.StripSlice | month_cheapest.py:52 | the result is the slice of the input between a leading and a trailing run of whitespace, so nothing but whitespace is removed |
| Text.Split | month_cheapest.py:52 | `str.split(sep)` gives at least one piece and no piece holds the separator |
| Text.SplitAround | month_cheapest.py:52 | a separator splits the text into the pieces on its left followed by the pieces on its right |
| Text.JoinSplit | month_cheapest.py:52 | joining the pieces of a split with the separator gives the text back |
| Text.SplitJoin | month_cheapest.py:144 | splitting a join of separator-free parts gives the parts back |
| Text.UpperKeeps | month_cheapest.py:52 | `upper()` keeps the length, leaves no lower-case letter, keeps trimmed text trimmed and introduces no separator |
| Text.LowerInjective | flight_search.py:24 | texts without lower-case letters that lower-case alike are equal |
| AirlineCodes.ParseCodes | month_cheapest.py:49-52 | an absent or empty setting gives no codes; every code is non-empty, has no surrounding whitespace, no lower-case letter and no comma |
| AirlineCodes.CodeOf | month_cheapest.py:52 | a piece contributes nothing exactly when it is blank once stripped, otherwise one entry, a code when the piece holds no comma |
| AirlineCodes.KeepCodesAreCodes | month_cheapest.py:52 | every entry kept from comma-free pieces is non-empty, trimmed, free of lower-case letters and of commas |
| AirlineCodes.KeepCodesAppend | month_cheapest.py:52 | the comprehension over two runs of pieces is the concatenation of the two results |
| AirlineCodes.ParseCodesConcat | month_cheapest.py:49-52 | the codes keep their input order: the codes of `a,b` are those of `a` followed by those of `b` |
| AirlineCodes.ParseCodesJoin | month_cheapest.py:52 | a list of codes joined with commas, as the offer request carries it, parses back to the same list |
| AirlineCodes.ParseCodesIdempotent | month_cheapest.py:49-52 | parsing the comma-join of parsed codes gives the same codes |
| Calendar.AddMonths | month_cheapest.py:70-73 | a date exists exactly when the target year is 1..9999; it is a valid date on day 1, and its `year*12 + month-1` is the input's plus `n` |
| Calendar.FirstDayOfMonth | month_cheapest.py:66-67 | the result is day 1 of the same month, and for a valid date a valid date not after it |
| Calendar.LastDayOfMonth | month_cheapest.py:68-69 | the result lies in the same month and, for a year in 1..9999, is a valid date with no valid day after it in that month |
| Calendar.DaysInMonth | month_cheapest.py:69 | `calendar.monthrange(y, m)[1]` is 28 to 31, at least 30 outside February, and 29 in February exactly in leap years |
| Calendar.LeapYearCycle | month_cheapest.py:69 | the leap-year rule repeats every 400 years, needs divisibility by 4, and keeps only every fourth century year; 2000 and 2024 are leap, 1900 and 2025 are not |
| Calendar.ParseIsoDate | month_cheapest.py:114 | an accepted text is ten characters with dashes at positions 4 and 7 and names a valid date |
| Calendar.MonthIndexInjective | month_cheapest.py:70-73 | equal month indices mean equal year and month |
| Calendar.AddMonthsCompose | month_cheapest.py:121-122 | adding `a` then `b` months is adding `a+b`, so the scanned months are consecutive |
| Calendar.MonthBounds | month_cheapest.py:66-69 | first and last day are valid and bracket the date; the last day is 28..31 and 29 in February exactly in leap years; the dates between them are exactly that month's |
| Calendar.IsoFormat | month_cheapest.py:81 | the ISO text is ten characters with dashes at positions 4 and 7 |
| Calendar.DecimalRoundTrip | month_cheapest.py:81 | a zero-padded field reads back as its number |
| Calendar.DecimalOfValue | month_cheapest.py:114 | an all-digit field is the zero-padded text of its value |
| Calendar.IsoRoundTrip | month_cheapest.py:81 | `fromisoformat(d.isoformat()) == d` |
| Calendar.IsoParsed | month_cheapest.py:114 | a text `fromisoformat` accepts names a valid date whose ISO text is that text |
| Retry.Backoffs | month_cheapest.py:55-63 | a run of `n` attempts sleeps `n-1` times, the `k`-th delay being 1.0 doubled `k` times |
| Retry.CallOffers | month_cheapest.py:53-64 | the loop's result and attempt count are those of the retry rule, and its sleeps are the backoff schedule |
| Retry.RetryFrom | month_cheapest.py:56-64 | from attempt `i` below the bound, the loop makes at least one more attempt and at most `retries` in all; it ends without a result exactly when `i` has reached the bound |
| Retry.RetryRun | month_cheapest.py:53-64 | at most `retries` attempts, at least one when `retries` is positive; the loop ends without a result exactly when `retries <= 0` |
| Retry.RetryDecided | month_cheapest.py:56-64 | every attempt before the last failed with a retryable status; a success returns its data or `[]`; an error is raised when not retryable or on the last permitted attempt |
| Retry.ThreeTransientFailuresRaise | month_cheapest.py:62-64 | with three attempts, three rate-limit or server errors raise the third |
| Retry.TransientThenSuccess | month_cheapest.py:58-63 | one retryable failure then a success returns the second response's data after two attempts |
| Offers.CheapestIndex | month_cheapest.py:151 | `min` by `grandTotal` picks an offer no dearer than any other and strictly cheaper than every earlier one |
| Offers.RowOfOffer | month_cheapest.py:152-168 | `stops` is the segment count minus one; `flight_no` is the first carrier code followed by the number; times come from the first and last segments; price and currency are the offer's |
| Offers.MakeRow | month_cheapest.py:155-168 | the row dictionary (built alike at flight_search.py:78-91) has a stop count of one less than the segment count, never negative; an absent `duration` becomes `""`; the flight number is the carrier code and the number run together |
| DateScan.PriceText | month_cheapest.py:92-93 | the first truthy of `total`, `grandTotal`, `base`, present only when truthy |
| DateScan.Cheapest | month_cheapest.py:90-102 | a choice, when made, is one of the items' candidates and has a non-empty date |
| DateScan.PickOf | month_cheapest.py:82-106 | a date is returned only for a response that was not a `ResponseError`, and it is non-empty, as `if best_date` demands |
| DateScan.IsoHasNoComma | month_cheapest.py:81 | an ISO date holds no comma |
| DateScan.DateRangeReadsBack | month_cheapest.py:81 | the range text splits at its comma into the two ISO dates, each parsing back to its date |
| DateScan.CheapestDayInMonth | month_cheapest.py:75-106 | the query carries the month's range; the pick is the choice of the selection rule over `r.data or []`, or none on a `ResponseError` |
| DateScan.CheapestNone | month_cheapest.py:95-103 | no date is picked exactly when no item has a truthy price text, a truthy date and a parsable price |
| DateScan.CheapestIsEarliestMinimum | month_cheapest.py:101-103 | the pick is a valid item's date and price, its price is at most every valid item's, and every valid item before it is strictly dearer |
| RecordStore.AirlinePathSameFile | flight_search.py:23-24 | two airline codes share a file exactly when they lower-case alike |
| RecordStore.MonthlyPath | month_cheapest.py:34-36 | the monthly file lies in `data/`, is named `month_…_monthly.csv` and is as long as the two codes plus the fixed parts |
| RecordStore.AirlinePath | flight_search.py:23-24 | the airline file lies in `data/`, is named `prices_….csv` and is as long as the three codes plus the fixed parts |
| RecordStore.MonthlyPathSameFile | month_cheapest.py:34-36 | for origins without `-`, two routes share the monthly file exactly when both codes lower-case alike |
| RecordStore.MonthlyPathDashClash | month_cheapest.py:36 | with a `-` inside a code two different routes (`A-B` to `C`, `A` to `B-C`) share one monthly file |
| RecordStore.AppendAll | month_cheapest.py:37-47 | appends never remove a file, and every path written to exists afterwards |
| RecordStore.DataDir.AppendRow | month_cheapest.py:37-47 | the header is written only when the file did not exist, then one row is added at the end; no other file changes, and every file stays a header followed by rows |
| RecordStore.AppendedKeepsLogs | flight_search.py:31-36 | a new file gets exactly the header and the row, an existing one keeps its lines as a prefix |
| RecordStore.DataRowsAppend | flight_search.py:36 | rows appended after a file's lines are read back after its earlier rows |
| RecordStore.AppendAllAt | month_cheapest.py:42-47 | after a run of appends, a file exists exactly when it existed or received a row, and holds its old lines, or the header when new, followed by exactly its rows in order |
| RecordStore.ReadAfterAppends | flight_search.py:26-36 | reading a file back gives its earlier rows followed by the rows appended to it, in order |
| RecordStore.AppendAllKeepsLogs | flight_search.py:31-36 | appends keep every file a single header followed by rows |
| RecordStore.AppendAllConcat | month_cheapest.py:169 | two runs of appends are one run of both, in order |
| RecordStore.RowsToConcat | month_cheapest.py:169 | the rows sent to a file by two runs are the first run's followed by the second's |
| StringOrder.BelowIrreflexive | flight_search.py:73 | no string sorts before itself |
| StringOrder.BelowTransitive | flight_search.py:73 | string order is transitive |
| StringOrder.BelowTotal | flight_search.py:73 | of two distinct strings one sorts before the other |
| StringOrder.SortedKeys | flight_search.py:73 | `sorted` of the keys is strictly ascending and holds exactly the keys, once each |
| FlightSearch.SearchRequestAllowList | flight_search.py:42-52 | the search's `includedAirlineCodes` reads back as the allow-list |
| FlightSearch.LccCodesAreCodes | flight_search.py:42 | every allow-list entry is a code as `parse_codes` emits one |
| FlightSearch.LccCodesUpper | flight_search.py:42 | no allow-list code has a lower-case letter |
| FlightSearch.GroupCheapest | flight_search.py:61-70 | the loop completes exactly when every offer has a first itinerary and segment, and then builds the grouping rule's dictionary |
| FlightSearch.BestByCarrier | flight_search.py:61-70 | the dictionary holds at most one offer per offer seen, since each offer adds or replaces at most one carrier's entry |
| FlightSearch.BestKeys | flight_search.py:61-70 | the keys of `best` are exactly the allowed leading carriers of the offers, each mapped to a well-formed offer led by it |
| FlightSearch.BestIsEarliestCheapest | flight_search.py:68-70 | the offer kept for a carrier is one of its offers, no dearer than any offer it leads, and strictly cheaper than every earlier one |
| FlightSearch.OnlyAllowedMatter | flight_search.py:66-67 | grouping only the offers on the allow-list gives the same dictionary |
| FlightSearch.EmitRows | flight_search.py:73-92 | the files after the loop are the files before plus one append per key, in the given order, each to its key's file; files that were a header followed by rows stay so |
| FlightSearch.Emissions | flight_search.py:73-92 | one append per key, in key order: append `i` goes to key `i`'s file and carries that airline, the run's timestamp and the kept offer's price |
| FlightSearch.Planned | flight_search.py:54-95 | rows are written only when the run emits, which needs a successful, non-empty search |
| FlightSearch.RunFlightSearch | flight_search.py:54-95 | the outcome and the file system are those of `Planned`: nothing on an error or an empty list, a crash on a malformed offer, otherwise one row per kept carrier in ascending order; files that were headers followed by rows stay so |
| FlightSearch.EmittedRows | flight_search.py:72-92 | row `i` goes to the `i`-th smallest kept carrier's file and carries that carrier, the run's single timestamp, the route and date, and the kept offer's price, flight number and stop count |
| FlightSearch.EmissionPathsDistinct | flight_search.py:92 | the emitted rows go to pairwise distinct files |
| FlightSearch.OneRowPerCarrierFile | flight_search.py:73-92 | each carrier's file receives exactly one row in a run |
| FlightSearch.NothingWritten | flight_search.py:54-59 | a failed search ends as `SearchFailed` and an empty result list as `NoResults`, and either leaves every file system unchanged |
| MonthlyScan.Prepare | month_cheapest.py:109-118 | the set-up fails exactly when `START_DATE` is set and rejected; otherwise the route and currency have no lower-case letters, every allow-list code is non-empty, trimmed, upper-case and comma-free, and the scan starts on day 1 of the start date's month (today's when unset) |
| MonthlyScan.DefaultScan | month_cheapest.py:109-117 | with no variable set, the scan runs from ICN to NRT in KRW over every airline, from day 1 of today's month, pausing 0.2 s |
| MonthlyScan.OfferRequestAllowList | month_cheapest.py:135-144 | the allow-list is sent exactly when not empty and reads back as the parsed codes |
| MonthlyScan.WritesOf | month_cheapest.py:169 | a month appends one row exactly when it saved one |
| MonthlyScan.MonthStep | month_cheapest.py:122-173 | a month that saves a row has sent an offer search, requested a pause, and the row carries the scan's route |
| MonthlyScan.Steps | month_cheapest.py:121-173 | the logs of the first `n` months, one per month |
| MonthlyScan.ScanMonth | month_cheapest.py:121-173 | one month's requests, attempts, sleeps and outcome are those of `MonthStep`, and its only change to the files is that month's append, which keeps them headers followed by rows |
| MonthlyScan.PauseLimits | month_cheapest.py:130 | `time.sleep` accepts pauses from 0 up to 2^63 - 1 ns and raises outside that range; the default 0.2 s is accepted, `1e10` s is not |
| MonthlyScan.RunOneshotYear | month_cheapest.py:108-174 | the set-up is `Prepare`'s; a rejected start date scans nothing; otherwise the logs are the month steps in order, stopping early only at an uncaught error, so a `PER_CALL_SLEEP` that `time.sleep` rejects (negative, or more than 2^63 - 1 ns) ends the scan after its first month; the files gain exactly the saved months' rows, in month order |
| MonthlyScan.ScanMonths | month_cheapest.py:121-173 | at most `months` passes, each the month step of its index; the loop stops early only after an uncaught error (a crash in the month, or `time.sleep` raising at lines 130, 149 and 173 on a negative pause or one of more than 2^63 - 1 ns) and never runs past one; the files gain exactly the saved months' appends, in order, and stay headers followed by rows |
| MonthlyScan.MonthRange | month_cheapest.py:121-127 | month `i` queries exactly the first to the last day of the month `i` months after the start month, each end reading back as that date; the month is missing, and the scan crashes, only outside years 1..9999 |
| MonthlyScan.MonthCalls | month_cheapest.py:126-173 | one flight_dates query per month, and one offer search for the picked date exactly when a date is picked, of at most three attempts; every month without an error of its own requests one pause of the configured length after the backoff delays (the pause that raises when `PauseRaises` holds) |
| MonthlyScan.SavedRowIsCheapest | month_cheapest.py:151-169 | a saved row's price is at most every returned offer's and strictly below every earlier one's; date, airline, flight number, stops, route and time come from the pick, that offer and the clock |
| MonthlyScan.SavedWritesRows | month_cheapest.py:118-169 | every saved row goes to the route's monthly file, and none to any other |
| MonthlyScan.MonthlyFile | month_cheapest.py:118-169 | after a run, the monthly file holds its earlier rows followed by the saved months' rows in month order, and no other file is created or changed |

## Left out

- The Amadeus client and its two services are not modelled. The response to each call and to each attempt is an input. A feed must answer all three attempts of `call_offers`.
- `load_dotenv`/`os.getenv` and the `int`/`float` conversions of `MONTHS_AHEAD` and `PER_CALL_SLEEP` are outside the model. `Settings` holds the values after conversion, and a failing conversion (a `ValueError`) is not modelled.
- `time.sleep` does not pause: the delays are returned in the logs. `datetime.now` and `date.today` are inputs. A `PER_CALL_SLEEP` that `time.sleep` rejects ends the scan after the first month, and that is modelled: a negative pause (`ValueError`), or one that, rounded up to whole nanoseconds, exceeds 2^63 - 1 (`OverflowError`).
- `MonthlyScan.PauseRaises`: it compares exact reals. The double rounding of `pause * 1e9` right at the 2^63 ns bound is not modelled.
- `MonthlyScan.Settings`: `PER_CALL_SLEEP` is a real, so `nan` and `inf` cannot be given. The `ValueError` and `OverflowError` that `time.sleep` raises for them are not modelled.
- The file system is not modelled beyond a map from path to lines: no `mkdir`, `open` or encoding, no CSV quoting, and no number formatting of `stops` or `price`. Rows keep their values.
- Python floats are exact reals here. Offer prices arrive already converted. For date items, `float` is the partial `parse` input, so NaN and rounding are not modelled. A `grandTotal` that `float` rejects in the offer list would raise; that case is not modelled.
- `Text`: `upper` and `lower` change ASCII letters only. Python also maps other scripts' letters.
- `Calendar.IsoParsed`: `date.fromisoformat` is modelled for the `YYYY-MM-DD` form only. Python 3.11 and later also accept other ISO 8601 forms.
- `print` logging and the messages of `ResponseError` are not modelled.
- Both scripts raise on an offer without a first itinerary or segment (`KeyError`/`IndexError`). That case is modelled as a `Crashed` outcome that ends the run, with no recovery.
