# Retail transaction cleaning and aggregation, modelled in Dafny

The repository is a two-stage batch job over retail invoice lines. The
cleaning stage (`src/data_pipeline.py`) checks that the eight required
columns are present, flags cancellations, replaces missing customer ids
with the sentinel `"ANONYMOUS"`, derives `TotalPrice` and the date parts,
and drops exact duplicate rows. The aggregation stage
(`src/data_prep_eda.py`) reloads the cleaned table, recomputes
`TotalPrice`, `Year` and `Month`, and reduces the table to four views:
monthly revenue, the top 10 products, the top 10 countries and customer
lifetime value (CLV).

A table is a `seq<Row>`. Every step is a pure function that returns a new
table.

- `wrappers.dfy`: `Option` (a null cell) and `Result` (a step that raises).
- `table.dfy`: the raw line `RawRow` and the working `Row`. A derived
  column is `None` before its step and wherever its input is null. A date
  is a full timestamp: the calendar parts plus the time of day. So two
  lines that differ only in time of day are not duplicates.
- `seqs.dfy`: subsequences (increasing index embeddings), `Filter`, and
  duplicate removal that keeps first occurrences.
- `cleaning.dfy`: the cleaning steps and `RunPipeline`.
- `grouping.dfy`: generic group-by-sum over `(key, total)` pairs,
  insertion sort under a connected order, and head-of-descending.
- `aggregation.dfy`: recomputation, the four views and `PrepareAggregates`.

Money is held in integer minor units (pence). So `TotalPrice` and every
sum are exact, and conservation holds with equality.

## Model

| member | source | states |
|---|---|---|
| `Cleaning.MissingColumns` | src/data_pipeline.py:23-28 | The reported list holds exactly the expected columns that are absent. Each appears once, in declared order. |
| `Cleaning.MissingIffAbsent` | src/data_pipeline.py:28-30 | The missing list is non-empty exactly when at least one expected column is absent. |
| `Cleaning.ValidateSchema` | src/data_pipeline.py:19-36 | Fails exactly when some expected column is absent, and the error lists all of them. On success every line is kept in order. An unparseable date stays null and raises nothing. CustomerID becomes its string form, with null as "nan". |
| `Cleaning.FlagCancellations` | src/data_pipeline.py:41-46 | Row count and order are kept. IsCancellation is true exactly when the invoice number's first character is "C". No other column changes. |
| `Cleaning.LowerCaseIsNotCancellation` | src/data_pipeline.py:45 | The check is case-sensitive: an invoice starting with "c" is not flagged. |
| `Cleaning.HandleMissingCustomer` | src/data_pipeline.py:51-61 | Row count and order are kept. No CustomerID is "nan" or "" afterwards. Exactly those ids became "ANONYMOUS". Every other id and every other column is unchanged. |
| `Cleaning.HandleMissingCustomerIdempotent` | src/data_pipeline.py:59-60 | Filling twice gives the same table as filling once. |
| `Cleaning.DeriveFeatures` | src/data_pipeline.py:71-74 | TotalPrice is Quantity × UnitPrice. Year, Month and Day are present exactly when the date parsed, and equal its parts. No other column changes. |
| `Cleaning.FeatureEngineering` | src/data_pipeline.py:66-75 | Row count and order are kept. Every row gets TotalPrice = Quantity × UnitPrice. Year, Month and Day are present exactly when the date parsed, and equal its year, month and day. No other column changes. |
| `Cleaning.TotalPriceSign` | src/data_pipeline.py:68-71 | With a positive unit price, TotalPrice is negative exactly when Quantity is negative. |
| `Seqs.Dedup` | src/data_pipeline.py:84 | The result holds exactly the values of the input, with no value twice, and is no longer than the input. |
| `Seqs.DedupKeepsFirstOccurrences` | src/data_pipeline.py:84 | The kept rows are exactly the first occurrences, taken from increasing positions of the input. |
| `Cleaning.RemoveExactDuplicates` | src/data_pipeline.py:80-85 | The result is a subsequence of the input that keeps first occurrences. It has no two equal rows and loses no input row. Its length is the number of distinct rows. |
| `Cleaning.DuplicateRowsScenario` | src/data_pipeline.py:84 | Two rows equal in every column leave exactly one. |
| `Cleaning.CountCancellations` | src/data_pipeline.py:97 | The count is the number of positions whose row is flagged as a cancellation. So it is at most the row count, and zero exactly when no row is flagged. |
| `Cleaning.CountAnonymous` | src/data_pipeline.py:98 | The count is the number of positions whose CustomerID is "ANONYMOUS". So it is at most the row count, and zero exactly when no row has that id. |
| `Cleaning.DataQualityReport` | src/data_pipeline.py:90-98 | Rows before and after are the two tables' lengths, and rows removed is their difference. Cancellations and anonymous customers are the numbers of flagged and "ANONYMOUS" positions in the table after. |
| `Cleaning.CleanRows` | src/data_pipeline.py:113-117 | The chain fails exactly when validation fails. Otherwise it equals applying the per-line steps to each raw line in order, so no row is dropped or reordered. |
| `Cleaning.CleanLinesAreClean` | src/data_pipeline.py:45-74 | Every line leaving the per-line steps is flagged iff it starts with "C". Its id is not missing, its TotalPrice is Quantity × UnitPrice, and it has a Year exactly when it has a date. |
| `Cleaning.RunPipeline` | src/data_pipeline.py:112-126 | Fails exactly on missing columns and names all of them. The cleaned table is the cleaned lines taken at their first-occurrence positions, in order, so it is duplicate-free and holds every distinct line. Rows before is the raw count. Rows removed is the number of duplicate lines dropped. The report's cancellation and anonymous figures count the flagged and "ANONYMOUS" rows of the cleaned table. |
| `Cleaning.CancelledReturnScenario` | src/data_pipeline.py:45-71 | The line C100 (quantity -3, price 500, empty customer) comes out flagged, "ANONYMOUS", and priced at -1500. |
| `Aggregation.RecomputeFeatures` | src/data_prep_eda.py:16-19 | Every row's TotalPrice is overwritten with Quantity × UnitPrice. Year and Month are present exactly when the row has a date, and equal its year and month. Nothing else changes. |
| `Aggregation.RecomputedTotals` | src/data_prep_eda.py:16-19 | After recomputation the table's revenue is the sum of Quantity × UnitPrice. The dated revenue is that sum over dated rows, and is the whole sum when every row has a date. |
| `Aggregation.RecomputedPeriods` | src/data_prep_eda.py:16-22 | After recomputation the periods present are exactly the (year, month) pairs of the rows that have a date. |
| `Grouping.GroupSum` | src/data_prep_eda.py:22-37 | One row per distinct key. Each key's sum equals the sum of its pairs' amounts, and the grand total is conserved. |
| `Grouping.Sort` | src/data_prep_eda.py:26 | The result is a permutation of its input: same length, same multiset of rows. |
| `Grouping.SortSums` | src/data_prep_eda.py:26 | Sorting keeps the set of keys, every key's sum and the grand total. |
| `Grouping.SortSorted` | src/data_prep_eda.py:26 | Under a connected order the result is sorted. |
| `Grouping.HeadOfDescending` | src/data_prep_eda.py:26-27 | The head of a descending table stays distinct and non-increasing. Each row is a key with its full sum. Any key left out sums to no more than every key kept. |
| `Aggregation.MonthlyRevenue` | src/data_prep_eda.py:22 | One row per distinct (Year, Month) present. Keys strictly ascend. Each value is the revenue of that period, and the values sum to the revenue of the dated rows. |
| `Aggregation.TopRevenue` | src/data_prep_eda.py:23-36 | Has min(10, number of distinct values) rows with distinct keys. Each row is a (value, group sum) pair, and the sums are non-increasing. Any value left out sums to no more than every value returned. |
| `Aggregation.CustomerLifetimeValue` | src/data_prep_eda.py:37 | One row per distinct CustomerID, including "ANONYMOUS" as one key, and not truncated. Each row's CLV is that customer's revenue. Keys strictly ascend, and the values sum to the table's revenue. |
| `Aggregation.CustomerLifetimeValueScenario` | src/data_prep_eda.py:37 | Two lines of customer "A" worth 10 and 5 give exactly one CLV row, ("A", 15). |
| `Aggregation.PrepareAggregates` | src/data_prep_eda.py:3-39 | CLV sums to the total Quantity × UnitPrice of all rows. Monthly revenue sums to that total over dated rows, and to the whole total when every row is dated. Its keys are the (year, month) pairs of the dates. Both top views have at most 10 rows. CLV's keys are the table's customer ids. |

## Left out

- Loading and persisting: `load_raw_data`, `save_clean_data` and `save_aggregates` read and write files (`read_csv`, `to_csv`, `os.makedirs`, path concatenation). They are file I/O.
- Printing: `data_quality_report` and the save confirmation only print. The five figures are modelled as the value `QualityReport`.
- Date parsing: raw dates arrive already parsed as `Option<Date>`, with `None` where coercion failed. On reload, `pd.to_datetime` at src/data_prep_eda.py:16 raises on non-empty text that does not parse. The model's aggregation input is the cleaned table itself, whose dates are parsed or null, so that error path is not modelled.
- Rows without a date: the aggregation code does not force every row to have a date. An empty date cell becomes NaT without raising, and grouping drops the null (Year, Month) key. So monthly revenue conserves the revenue of the dated rows. It equals the whole total only when every row is dated.
- Floating point: prices and totals are integers in minor units, not floats.
- Null numeric and id cells: InvoiceNo, StockCode, Quantity and UnitPrice are never null here. In the source an empty cell there is NaN. A NaN Quantity or UnitPrice gives a NaN TotalPrice (src/data_pipeline.py:71, src/data_prep_eda.py:17), which the group sums skip. A NaN InvoiceNo becomes the text "nan" at src/data_pipeline.py:45 and is not flagged. These fields are assumed filled, because the source's typing of such cells is a pandas float effect outside this model.
- pandas dtype effects: `astype(str)` turning `17850.0` into "17850.0", or an invoice number read as a number, are not modelled. CustomerID is text, and a null becomes "nan".
- Columns beyond the eight required ones are not carried; the file passes them through unchanged.
- Ties: `sort_values` uses an unstable sort. The model sorts by insertion, and no contract says how equal sums are ordered. Null Description or Country keys, which grouping would drop, are not modelled; those columns are non-null text.
- In-place mutation: the source's steps mutate one frame that `df_raw` also names. Each step here returns a new table. The report's "before" table is the pre-dedup table, which is what `df_raw` holds at that point; it has the raw row count.
