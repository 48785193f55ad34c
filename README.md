# Real-estate listings core, modelled in Dafny

This project models the core of a small real-estate listings service. The
service loads a CSV file of listings into a SQLite table `listings`. It
answers filtered queries over that table and computes price statistics,
including 1.5 x IQR price outliers. Two HTTP handlers expose the query and
the statistics.

The model has five modules:

- `Listings` (`listings.dfy`) holds the data model.
  - A stored row has numeric cells that are finite, NULL or infinite, and text cells that may be NULL.
  - The normalised row has every numeric column truncated to an integer.
  - It defines the exception classes the callers tell apart.
  - It defines the database file and connection objects, as classes.
- `Filtering` (`filtering.dfy`) models `filter_properties` (src/processing.py).
  - An imperative builder appends one clause and its bound parameters per truthy filter.
  - The store side parses the query text back and evaluates it with the
    parameters bound by position. It follows SQL semantics: NULL compares false,
    and infinities compare as IEEE values.
  - A reference predicate says what the filters mean for one stored row.
  - After the read, the rows are normalised, and every failure is masked as an empty result.
- `Statistics` (`statistics.dfy`) models `calculate_statistics`.
  - The count and the truncated mean and median are taken over the raw stored prices.
  - The normalised rows give the quartiles, using pandas' default linear
    interpolation, computed in exact reals. From the quartiles come the fences
    and the outliers: low ones first, then high ones.
- `Ingest` (`ingest.dfy`) models `ingest_csv_real_estate_data_to_db`.
  - It runs four guarded steps: existence check, parse, connect, write.
  - The first failing step decides the error.
  - A successful write replaces the `listings` table wholesale, through a connection object.
  - A connection opened internally is closed after the write. A connection the caller passed is never closed.
- `Api` (`api.dfy`) models the `GET /properties` and `GET /properties/statistics` handlers.
  - `GET /properties` assembles its filters from the query parameters.
  - Both handlers map exceptions to HTTP errors.

External effects become parameters:

- How the database is reached is an `Access` value: a supplied connection, a path that opened, or a path whose open raised.
- The store is a map from table names to rows.
- The CSV parser's result, whether the CSV path names a file, whether `sqlite3.connect` succeeds, and how `to_sql` ends are all inputs of the ingest.

In four places the code behaves differently from what a caller might expect; the model follows the code:

- `filter_properties` masks every failure as an empty result instead of surfacing it.
- `calculate_statistics` computes the mean and median before normalising, on the raw prices.
- The price-per-square-foot ratio raises no error on a zero denominator.
- A price range with its minimum above its maximum is not rejected; it returns no rows (`Filtering.InvertedRangeReturnsNothing`).

One place deliberately does not follow the code. When the database path
cannot be opened, `Statistics.StatisticsOf`, `Statistics.CalculateStatistics`
and `Api.GetStatistics` give the intended behaviour: the `sqlite3.Error`
propagates and the handler answers 500 "Database error: ...". The code as
written raises an `UnboundLocalError` from its `finally` block instead. That
behaviour is modelled separately by `Statistics.OpenFailureAsWritten` and
`Api.OpenFailureReportedAsUnexpected` (see "## Findings").

## Model

| member | source | states |
|---|---|---|
| Listings.Trunc | src/processing.py:31-34 | `astype(int)` truncates toward zero: the result never moves away from zero, and it lies within 1 of the value |
| Listings.FillNumber | src/processing.py:28-34 | NaN and the infinities become 0; a finite value is truncated toward zero, so the result lies within 1 of it on the side of zero, and a whole number comes out unchanged |
| Listings.FillText | src/processing.py:28-29 | a NULL text cell, and only a NULL one, becomes the 0 of `fillna`; a string is kept |
| Listings.Normalize | src/processing.py:28-34 | column by column: the id is kept; each non-finite number becomes 0 and each finite one its truncation; each text cell is kept, with a NULL one becoming 0 |
| Listings.NormalizeKeepsCleanRows | src/processing.py:83-89 | a row whose numbers are finite integers and whose text cells are present is returned with every value as stored |
| Listings.Connection.Open | src/ingest.py:43 | a new connection is open on the given database file |
| Listings.Connection.Close | src/ingest.py:54-56 | closing leaves the connection closed |
| Filtering.BuildQuery | src/processing.py:62-76 | the query built step by step is the base text followed by the clauses of the truthy filters, and the parameters are those filters' values, one per placeholder |
| Filtering.QueryTextIgnoresValues | src/processing.py:62-76 | the text starts with `SELECT * FROM listings WHERE 1=1` and depends only on which filters are truthy, so no filter value (in particular no city) reaches it |
| Filtering.PlaceholdersMatchParams | src/processing.py:65-76 | the number of `?` characters in the query text equals the number of bound parameters |
| Filtering.ClauseOrder | src/processing.py:65-76 | clauses appear in the order price, bedrooms, bathrooms, city, and a clause is present exactly when its filter is truthy |
| Filtering.ParamOrder | src/processing.py:65-76 | a price range binds min then max ahead of every other parameter; a city is the last parameter |
| Filtering.FalsyFiltersAddNothing | src/processing.py:68-76 | `bedrooms=0`, `bathrooms=0` and `city=""` contribute neither a clause nor a parameter, just like absent filters; with no filters the query has no clause and no parameter |
| Filtering.ZeroBedroomsAddNothing | src/processing.py:68-70 | `bedrooms=0` adds neither a clause nor a parameter |
| Filtering.ZeroBathroomsAddNothing | src/processing.py:71-73 | `bathrooms=0` adds neither a clause nor a parameter |
| Filtering.EmptyCityAddsNothing | src/processing.py:74-76 | `city=""` adds neither a clause nor a parameter |
| Filtering.Where | src/processing.py:78 | the rows the WHERE clause keeps: every stored row on which all clauses hold, as often as it is stored, and no other |
| Filtering.Execute | src/processing.py:78 | reading succeeds exactly when the text parses, the table exists and the parameter count matches; every failure, a missing table included, is not a `sqlite3.Error`; the rows read are stored rows |
| Filtering.Matching | src/processing.py:78 | the rows the query selects: the stored rows that satisfy every supplied filter, each as often as it is stored, and only those |
| Filtering.BuiltQueryMeansFilters | src/processing.py:65-78 | evaluating the built clauses with the built parameters, bound by position, on a stored row is exactly the filters' meaning for that row |
| Filtering.ExecuteBuiltQuery | src/processing.py:78 | running the built query returns exactly the matching stored rows, or the missing-table error of the data-frame reader |
| Filtering.BlankDate | src/processing.py:90 | only the date changes; it always comes out as text, the 0 that replaced a NULL becoming the empty string and any text being kept |
| Filtering.DeliveredFromIsUnique | src/processing.py:83-90 | the description of a returned row (every column normalised, a NULL or empty date as "", any other date as stored) fits exactly the row the normalisation computes |
| Filtering.Delivered | src/processing.py:83-90 | one returned row per row read, in order, each with every column normalised and with its date "" exactly when the stored date is NULL or empty, and the stored text otherwise |
| Filtering.ExpectedRows | src/processing.py:59-100 | a failed open or a missing table gives an empty result; otherwise no more rows than are stored |
| Filtering.FilterProperties | src/processing.py:59-100 | the rows are the normalised matching rows; a failed open or a failed read gives an empty result instead of raising |
| Filtering.ReturnedRowsSatisfyFilters | src/processing.py:65-90 | every returned row has min <= price <= max, bedrooms >= b, bathrooms >= b and the exact city, for whole-number price bounds and stored counts that are not `Inf` |
| Filtering.InfiniteCountPassesFilter | src/processing.py:68-87 | a stored row with `Inf` bedrooms passes `bedrooms >= 3` and is returned with 0 bedrooms |
| Filtering.ReturnedRowsAreStoredRows | src/processing.py:78-94 | every returned row comes from a stored row that satisfies the filters, every such stored row is returned, and an empty table gives an empty result |
| Filtering.NoFiltersReturnsEveryRow | src/processing.py:62-94 | with no filters every stored row is returned, normalised and in order |
| Filtering.InvertedRangeReturnsNothing | src/processing.py:65-67 | a price range with min above max returns no rows |
| Filtering.DatesAreAlwaysText | src/processing.py:90 | the date column of every returned row is text, never the 0 that replaced a NULL |
| Statistics.Sort | src/processing.py:23 | the median's ordering of the prices is sorted and is a permutation of them |
| Statistics.MeanBounds | src/processing.py:22 | the mean lies between any lower and upper bound of the values |
| Statistics.MedianBounds | src/processing.py:23 | the median lies between any lower and upper bound of the values |
| Statistics.Quantile | src/processing.py:36 | the linear-interpolation quantile lies between the two sorted values around position (n-1)q, and equals the value there when the position is whole |
| Statistics.QuantileMonotone | src/processing.py:36 | a higher quantile is never below a lower one |
| Statistics.FractionalQuartiles | src/processing.py:36 | at fractional positions the quartiles interpolate linearly: 0, 10, 20, 30 give Q1 = 7.5 and Q3 = 22.5 |
| Statistics.QuantileWithin | src/processing.py:36 | every quantile lies within any bounds of the values |
| Statistics.Quartiles | src/processing.py:36 | Q1 <= Q3, and both lie between the lowest and the highest price |
| Statistics.LowerFence | src/processing.py:37-40 | Q1 - 1.5 IQR lies below Q1, and meets it exactly when Q1 = Q3 |
| Statistics.UpperFence | src/processing.py:37-41 | Q3 + 1.5 IQR lies above Q3, and meets it exactly when Q1 = Q3 |
| Statistics.Below | src/processing.py:40 | the low outliers are the rows priced below the lower fence, each as often as it occurs, and no other |
| Statistics.Above | src/processing.py:41 | the high outliers are the rows priced above the upper fence, each as often as it occurs, and no other |
| Statistics.Outliers | src/processing.py:40-42 | the concatenation holds every row priced outside the fences as often as it occurs in the table, and no other row; every low outlier comes before every high one |
| Statistics.LowBeforeHigh | src/processing.py:42 | concatenating rows below a fence with rows above a higher fence puts every low row ahead of every other row |
| Statistics.QuartilesOrdered | src/processing.py:36-41 | Q1 <= Q3, so the IQR is non-negative and the lower fence lies below Q1 and the upper fence above Q3 |
| Statistics.OutliersAreRowsOutsideFences | src/processing.py:40-42 | a row is an outlier exactly when it is a row of the table priced outside the fences; no row is both a low and a high outlier |
| Statistics.NoOutliersWhenPricesEqual | src/processing.py:36-42 | when every price is equal there are no outliers |
| Statistics.OnlyTheMillionIsAnOutlier | src/processing.py:36-42 | prices 10000, 20000, 30000, 40000, 1000000 give Q1 = 20000, Q3 = 40000, fences -10000 and 70000, and only the 1000000 row is an outlier |
| Statistics.FinitePricesKept | src/processing.py:22-23 | the prices the mean and median use are exactly the finite stored prices; NULL prices are skipped |
| Statistics.AveragePrice | src/processing.py:22 | `int(mean)` fails exactly when no finite price is stored or an infinite one is; the failure is not a `sqlite3.Error`, and it is the NaN conversion exactly when both infinities or neither are present; success means every stored price is finite or NULL |
| Statistics.MedianPrice | src/processing.py:23 | the truncated median lies between the truncated lowest and highest finite price |
| Statistics.AverageAndMedianWithinPrices | src/processing.py:22-23 | for any bounds lo and hi of the finite prices, a mean that converts and the median both lie between the truncations of lo and hi; non-negative prices give a non-negative mean and median |
| Statistics.ExampleAverages | src/processing.py:22-23 | the stored prices 10000, 20000, 30000, 40000, 1000000 give mean 220000 and median 30000 |
| Statistics.StatisticsOf | src/processing.py:12-57 | `{}` exactly for an empty table; otherwise the row count, the truncated mean and median of the raw prices, and exactly the outlier list of the normalised rows (so each outlying stored row is counted as often as it is stored, low ones first) with its length; a NaN or infinite mean and a missing table are errors, and a failed open is the intended `sqlite3.Error` (see Findings) |
| Statistics.CalculateStatistics | src/processing.py:12-57 | the dictionary that is built and then extended with the outliers is the one StatisticsOf describes; on a failed open it gives the intended `sqlite3.Error`, not the code's `UnboundLocalError` (see Findings) |
| Statistics.ExampleStatistics | src/processing.py:17-45 | the five-price table yields mean 220000, median 30000, 5 properties and the single 1000000 row as the outlier |
| Statistics.OpenFailureAsWritten | src/processing.py:55-57 | when the open raised, the error that leaves the function is not a `sqlite3.Error` |
| Ingest.Result | src/ingest.py:27-53 | the first failing step decides the error: a missing CSV file, then an unreadable CSV, then a failed connect, then a failed write (a closed caller connection included); success otherwise |
| Ingest.Store | src/ingest.py:48-53 | early failures leave the store unchanged; success makes `listings` exactly the CSV rows; other tables are untouched; a failed write leaves `listings` as the write left it, with no claim that the old rows survive |
| Ingest.WriteListings | src/ingest.py:48-53 | `to_sql(..., if_exists='replace')` replaces the whole table, reports a failed or closed-connection write as a database error, and changes nothing on a closed connection |
| Ingest.IngestCsv | src/ingest.py:18-56 | the outcome and new tables are Result and Store; a caller's connection stays as it was; an internal connection exists exactly when the write step is reached, and it is fresh and closed afterwards on both write paths |
| Ingest.IngestThenQueryReturnsCsvRows | src/ingest.py:50 | after a successful ingest an unfiltered query returns exactly the CSV rows, so a property id absent from the CSV is gone |
| Ingest.IngestIdempotent | src/ingest.py:50 | ingesting the same CSV twice leaves the same tables as ingesting it once |
| Api.FiltersOf | src/fast_api.py:18-23 | a price range exactly when both bounds are given, as (min, max); bedrooms, bathrooms and city forwarded unchanged |
| Api.OneSidedBoundIgnored | src/fast_api.py:19 | a lone price bound is dropped: the rows are those of the same request without it |
| Api.AdmissibleFiltersApplied | src/fast_api.py:12-23 | for admissible parameters, a city is always applied, a count is applied exactly when positive, and a price range exactly when both bounds are given |
| Api.PropertiesFailure | src/fast_api.py:27-32 | a `sqlite3.Error` is a 500 "Database error: ...", a `ValidationError` a 400 "Validation error: ...", anything else a 500 "Unexpected error: ..." |
| Api.GetProperties | src/fast_api.py:10-32 | for admissible parameters the answer is always the rows `filter_properties` returns, never an error, since that function never raises |
| Api.StatisticsResponse | src/fast_api.py:36-42 | the statistics come back unchanged on success; every failure is a 500, with the "Database error: " prefix exactly for a `sqlite3.Error` |
| Api.GetStatistics | src/fast_api.py:34-42 | the answer is the mapped statistics result; a database path that cannot be opened is the intended 500 "Database error: ...", not what the code as written answers (see Findings) |
| Api.OpenFailureReportedAsUnexpected | src/fast_api.py:39-42 | with the code as written, a failed open reaches the client as an "Unexpected error: ..." answer, not the intended database error |

## Left out

- `create_graphs`, together with the `/graphs` and `/static/{filename}` handlers: plotting, HTML templating and file serving.
- `average_price_per_sqft`: float division and two-decimal rounding. A zero denominator yields an infinity or NaN in floating point, not an error, so the model has no error path for it.
- Floating point as a whole: prices, quartiles and fences are exact reals. 64-bit integer overflow in `astype(int)` is not modelled.
- The text of error messages. Each one is a plain value, except the three HTTP prefixes. The `UnboundLocalError` text depends on the Python version.
- FastAPI's parameter parsing and its 422 rejection of inadmissible parameters. `Api.GetProperties` requires the domain those checks enforce. Infinite price bounds are not modelled.
- The CSV parser, `os.path.isfile`, `sqlite3.connect` and how `to_sql` fails. These are inputs of the ingest.
- A failed write is assumed to touch only the `listings` table.
- Column types: a text value stored in a numeric column, and a numeric value stored in the city column, are not modelled.
- Reading through a closed caller connection, in both processing functions.
- Closing the connection in `filter_properties` and in `calculate_statistics`: their `Access` is a value, not a connection object.
- Logging, the environment-variable paths, and the hard-coded database path of the handlers.
- The periodic refresh, and any concurrent reads during an ingest.
- Filtering.ReturnedRowsSatisfyFilters: assumes whole-number price bounds and no `Inf` bedroom or bathroom counts. Without them a returned row can break a predicate: a stored count of `Inf` passes `>=` and is then normalised to 0 (`Filtering.InfiniteCountPassesFilter`), and a fractional bound can be crossed by truncation.

## Findings

| source | as written | input that shows it | evidently intended | confidence | as-written member | corrected member |
|---|---|---|---|---|---|---|
| src/processing.py:55-57 | when `sqlite3.connect` raises, `conn` is never assigned. The `finally` block then calls `conn.close()`, and the `UnboundLocalError` replaces the `sqlite3.Error` | `GET /properties/statistics` when the directory of the database path does not exist, so that `connect` raises `OperationalError` | the `sqlite3.Error` propagates, and the handler answers 500 "Database error: ..." | not executed | Statistics.OpenFailureAsWritten, Api.OpenFailureReportedAsUnexpected | Statistics.StatisticsOf, Statistics.CalculateStatistics, Api.GetStatistics |
