# market_data reconcilers of fetch_data.py, in Dafny

`scripts/fetch_data.py` has two reconcilers. Each takes records fetched from
a data source and files them into `market_data`, a shared Supabase table
keyed by `(data_type, date)`:

- `update_or_insert_bls(data_type, series_data)` walks a BLS series. It
  drops blank values and turns the year and period code into a
  `YYYY-MM-01` date. It looks up the row for that key. It inserts the point
  when the row is absent, and rewrites the row when the stored `average`
  differs from the new value. It counts inserts and updates.
- `update_metal_price(metal, metal_data)` keeps the part of the reading's
  timestamp before the first `T`. It then overwrites the row for
  `(metal, date)` unconditionally, or inserts one.

The model has eight modules:

- `Payload` holds the records as the source hands them over: a BLS point
  and a metals reading.
- `Normalize` holds the pure string logic: the Python `strip` blank
  filter, the period-to-month mapping, the BLS date, and the timestamp
  truncation.
- `Store` holds the table as a value (`Table`: rows plus the id the
  database hands out next) and its lookup, insert and update-by-id as
  functions. It also holds `MarketData`, a class with `rows` and `nextId`
  fields and the methods `Find`, `Insert` and `UpdateById`. A ghost log in
  the class records every store call in order.
- `Reconcile` holds the specification functions. `BlsStep` is one round
  of the BLS loop, `BlsRun` the loop, `BlsOutcome` the whole call and
  `MetalOutcome` the metals call.
- `FetchData` holds the two reconcilers as imperative methods on a
  `MarketData`. The BLS one has a `for`-style loop and its counters. Both
  are proved to leave exactly the table, call log and counters the
  specification functions give, and to keep ids unique.
- `BlsProperties` and `MetalProperties` prove what the reconcilers
  promise. For the BLS reconciler this covers:
  - blank points are inert;
  - insert when absent;
  - update only a revised row, addressed by its id;
  - the counter bounds;
  - no duplicate keys created;
  - key isolation;
  - idempotent re-runs.

  For the metals reconciler it covers:
  - exactly one row for the day afterwards;
  - overwrite even when the values are equal;
  - key isolation.

- `BlsRerun` proves that re-running a BLS series on the table its first
  run left gives back the same table and inserts nothing, for every series,
  including ones whose points share a date. It works one row at a time:
  `RowRun` is the series applied to a single row, a run changes a row only
  as `RowRun` says, and `RowRun` is idempotent.

`float(...)` is the parameter `parse: string -> Option<real>`, where `None`
means Python raised `ValueError`. The code does not catch that exception.
The model follows the code: the run stops right after that point's lookup,
and the writes of the earlier points stay. `UpdateOrInsertBls` returns
`failed = true` in that case.

In `update_or_insert_bls`, only a missing, empty or whitespace-only value
is skipped (line 77). Any other value that `float` rejects, such as a `"."`
placeholder, raises at line 89 and ends the call. The model follows this.

## Model

| member | source | states |
|---|---|---|
| Normalize.BlankIffNoContent | scripts/fetch_data.py:77-78 | the filter as written (missing or null value, empty string, or a string that strips to nothing) skips exactly the values that are missing or hold only Python whitespace (the empty string included) |
| Normalize.StripEmptyIffAllWhitespace | scripts/fetch_data.py:77 | `strip()` yields `''` exactly when every character is whitespace |
| Normalize.MonthOfPeriod | scripts/fetch_data.py:81 | for a code starting with `M`, the month is the rest of the code verbatim (`"M" + month` gives the code back); any other code gives `"01"` |
| Normalize.BlsDateParts | scripts/fetch_data.py:82 | the date is the year, `-`, the month and `-01`, and each part can be read back from it at its position |
| Normalize.BlsDateSameYear | scripts/fetch_data.py:81-82 | two periods of one year give the same date exactly when their months agree |
| Normalize.TrimStart | scripts/fetch_data.py:77 | the left half of `strip()`: the result is a suffix of the string, what it drops is whitespace only, and it does not start with whitespace |
| Normalize.TrimEnd | scripts/fetch_data.py:77 | the right half of `strip()`: the result is a prefix of the string, what it drops is whitespace only, and it does not end with whitespace |
| Normalize.Strip | scripts/fetch_data.py:77 | specification function for `str.strip()` with no argument: `TrimEnd` of `TrimStart`, whose contracts say that exactly the leading and the trailing whitespace go; StripEmptyIffAllWhitespace states when it leaves nothing |
| Normalize.SkipWhitespace | scripts/fetch_data.py:77 | the index of the first non-whitespace character at or after `i`: every character before it is whitespace and the one at it is not |
| Normalize.StripsToNothing | scripts/fetch_data.py:77 | the skip test as written (missing or null value, `''`, or a value that strips to `''`); BlankIffNoContent states which values it skips |
| Normalize.Month | scripts/fetch_data.py:81 | specification function for the month: the code without its first character when it starts with `M`, else `"01"`; MonthOfPeriod states it as a round trip |
| Normalize.BlsDate | scripts/fetch_data.py:82 | specification function for `f"{year}-{month}-01"`; BlsDateParts and BlsDateSameYear state how its parts are read back |
| Normalize.FirstT | scripts/fetch_data.py:130 | the index of the first `T` at or after a position, or the length when there is none |
| Normalize.DatePart | scripts/fetch_data.py:130 | the date is a prefix of the timestamp with no `T`, and is the whole timestamp or stops at a `T` |
| Normalize.DatePartUnique | scripts/fetch_data.py:130 | those three properties determine the date: any string with them is the date |
| Normalize.DatePartOfIsoTimestamp | scripts/fetch_data.py:128-130 | an ISO timestamp `day + "T" + time` yields `day` |
| Store.FirstMatch | scripts/fetch_data.py:85-93 | the index of the first row with the key, or the row count when none has it |
| Store.FindRowNone | scripts/fetch_data.py:85-91 | a lookup finds nothing exactly when no row has the key |
| Store.FindAfterAppend | scripts/fetch_data.py:85-111 | after an append, an earlier match is still found first; when there was none, the new row is found if it has the key |
| Store.FindRow | scripts/fetch_data.py:85-87 | specification function for the select followed by `existing.data[0]`: the row at FirstMatch, or None; FindRowNone states when it is None |
| Store.WithInsert | scripts/fetch_data.py:104-111 | specification function for the insert: the new row under the next id at the end; InsertKeepsValid and InsertAbsentKeepsNoDuplicates state what it keeps |
| Store.WithUpdate | scripts/fetch_data.py:94-99 | specification function for `update(...).eq('id', id)`: every row with that id revised, the rest and the id counter kept; UpdateAt and UpdateKeepsKeys state it |
| Store.FirstMatchExtends | scripts/fetch_data.py:85-87 | a key that is found stays found at the same place when rows are revised in place or appended |
| Store.FirstMatchWithin | scripts/fetch_data.py:85-87 | a first match among the earlier rows of a longer table is the first match of those rows alone |
| Store.UpdateAt | scripts/fetch_data.py:94-99 | with unique ids, updating by a row's id revises that row's average, high, low and raw data and leaves every other row, the ids, the keys and the id counter alone |
| Store.UpdateKeepsOtherLookups | scripts/fetch_data.py:85-99 | updating one row by its id leaves the lookup of every key that row does not have as it was |
| Store.InsertKeepsValid | scripts/fetch_data.py:104-111 | an insert keeps ids unique and below the next id |
| Store.InsertAbsentKeepsNoDuplicates | scripts/fetch_data.py:102-111 | inserting a key that is absent creates no duplicate key |
| Store.UpdateKeepsKeys | scripts/fetch_data.py:94-99 | an update by id keeps every row's id and key, so no duplicate key appears |
| Store.FoundKeyIsUnique | scripts/fetch_data.py:85-87 | in a table without duplicate keys, a key that is found is held by exactly one row |
| Store.MarketData.constructor | scripts/fetch_data.py:6-10 | the store starts on a given table with unique ids and an empty call log |
| Store.MarketData.Find | scripts/fetch_data.py:85-87 | returns the first row with the key, or None when no row has it; logs one lookup |
| Store.MarketData.Insert | scripts/fetch_data.py:104-111 | appends one row under the next id and advances the counter; keeps ids unique; logs one insert |
| Store.MarketData.UpdateById | scripts/fetch_data.py:94-99 | revises the rows with the id and nothing else; keeps ids unique; logs one update |
| Reconcile.BlsStep | scripts/fetch_data.py:76-113 | specification function for one round of the loop: skip a blank value, look up, parse, then insert, update by id or leave alone; the BlsProperties step lemmas state each case |
| Reconcile.BlsRun | scripts/fetch_data.py:75-113 | specification function for the loop: points in order, stopping after the lookup of a point whose value `float` rejects; RunCounts, RunShape and the run lemmas state its properties |
| Reconcile.BlsOutcome | scripts/fetch_data.py:65-118 | specification function for the whole call: `None` or `[]` returns at once, otherwise BlsRun; UpdateOrInsertBls is proved to do exactly this |
| Reconcile.MetalOutcome | scripts/fetch_data.py:120-156 | specification function for the metals call: `None` returns at once, otherwise the day's row is overwritten or inserted; UpdateMetalPrice is proved to do exactly this |
| Reconcile.BlsRunStops | scripts/fetch_data.py:89 | when `float` raises on the `i`th point, the run ends with the table that point found and the lookup it made |
| Reconcile.BlsRunAdvance | scripts/fetch_data.py:75-113 | a run continues from the table the `i`th point left, with the counters moved by that point's action |
| FetchData.ReconcilePoint | scripts/fetch_data.py:76-113 | one round of the loop: store state, store calls and action are those of `BlsStep` |
| FetchData.UpdateOrInsertBls | scripts/fetch_data.py:65-118 | the table, calls and counters end as `BlsOutcome` says, and ids stay unique |
| FetchData.UpdateMetalPrice | scripts/fetch_data.py:120-156 | the table and calls end as `MetalOutcome` says, and ids stay unique |
| BlsProperties.BlankPointIsInert | scripts/fetch_data.py:77-78 | a point the filter skips (value missing, empty, or stripping to nothing) makes no store call and changes nothing |
| BlsProperties.BlankPointDropsOut | scripts/fetch_data.py:75-78 | a blank point anywhere in the series can be removed without changing the table, calls, counters or failure |
| BlsProperties.InsertWhenAbsent | scripts/fetch_data.py:91-112 | with no row for the key, exactly one row is appended under the next id, holding the value as average, high and low and the point as raw data; a lookup then finds it |
| BlsProperties.UpdateWhenRevised | scripts/fetch_data.py:91-100 | with a row whose average differs, only that row (by its id) changes: average, high and low become the value and raw data becomes the point; the id counter and row count stay the same |
| BlsProperties.UnchangedWhenEqual | scripts/fetch_data.py:91-93 | with a row whose average equals the value, the table is unchanged and only the lookup is made |
| BlsProperties.StepShape | scripts/fetch_data.py:84-112 | one point keeps the existing rows in place, appends at most one row, moves the id counter only when it appends, and leaves the table as it was when it is skipped, unchanged or fails to parse |
| BlsProperties.StepKeepsValid | scripts/fetch_data.py:94-111 | one point keeps ids unique and below the next id, and creates no duplicate key |
| BlsProperties.StepLeavesOtherRows | scripts/fetch_data.py:85-99 | one point leaves every row with another key, or every row when the point is blank, as it was |
| BlsProperties.StepKeepsOtherLookups | scripts/fetch_data.py:85-111 | one point leaves the lookup of every other key as it was |
| BlsProperties.StepSettlesItsDate | scripts/fetch_data.py:91-112 | after a parsable, non-blank point, the row for its date holds its value |
| BlsProperties.NoDataIsNoOp | scripts/fetch_data.py:68-70 | `None` or an empty list leaves the table unchanged, makes no call and counts nothing |
| BlsProperties.RunCounts | scripts/fetch_data.py:72-112 | `inserted_count` is the number of rows added and of ids used; `inserted_count + updated_count` is at most the number of points |
| BlsProperties.RunShape | scripts/fetch_data.py:75-113 | the run keeps the existing rows in place with their ids and keys, keeps ids unique, and creates no duplicate key |
| BlsProperties.KeepsNoDuplicateKeys | scripts/fetch_data.py:85-112 | starting from a table with no duplicate key, the reconciler creates none |
| BlsProperties.LeavesOtherRows | scripts/fetch_data.py:85-99 | a row of another series, or on a date no non-blank point maps to, is never modified |
| BlsProperties.KeepsOtherLookups | scripts/fetch_data.py:85-99 | the lookup of any key the series does not touch answers the same after the run |
| BlsProperties.CallsStayInSeries | scripts/fetch_data.py:85-105 | every lookup and insert of the run is for the reconciled `data_type` |
| BlsProperties.FailureIgnoresTable | scripts/fetch_data.py:89 | whether the call aborts on an unparsable value depends on the points only, not on the table |
| BlsProperties.SettledRunIsInert | scripts/fetch_data.py:91-101 | when every point finds its value already stored, the run changes nothing and counts nothing |
| BlsProperties.RunSettles | scripts/fetch_data.py:75-113 | after a run over points with distinct dates, every point finds its value stored |
| BlsProperties.RerunChangesNothing | scripts/fetch_data.py:91-101 | running the same series again on the table a run produced changes no row, counts no insert and no update, and fails exactly when the first run did |
| BlsRerun.RowRunIdempotent | scripts/fetch_data.py:91-101 | applying a series to a single row a second time leaves the row as the first time left it |
| BlsRerun.SameAverageSameWrites | scripts/fetch_data.py:91-101 | whether a point rewrites a row depends only on the stored average, so two versions of a row with the same average end equal or are both left alone |
| BlsRerun.InsertedRowSettles | scripts/fetch_data.py:102-111 | a row a point has just inserted ends, when the series is repeated from that point on, as the first pass left it |
| BlsRerun.OtherDatesPass | scripts/fetch_data.py:77-93 | blank points and points filed under other dates leave a row alone |
| BlsRerun.StepOnFirstMatch | scripts/fetch_data.py:85-111 | one point changes the row found for a date exactly as RowStep says, and that row stays the one found |
| BlsRerun.StepLeavesUnfound | scripts/fetch_data.py:85-111 | one point leaves alone a row that no lookup of the series finds (another data type, or a later row with a repeated key) |
| BlsRerun.RunOnFirstMatch | scripts/fetch_data.py:75-113 | a run leaves every row its lookups find as RowRun leaves that row |
| BlsRerun.RunLeavesUnfound | scripts/fetch_data.py:75-113 | a run leaves every row that none of its lookups finds as it was |
| BlsRerun.RunFindsAll | scripts/fetch_data.py:84-111 | after a run, every point it handled finds a row for its date |
| BlsRerun.FoundAllInsertsNothing | scripts/fetch_data.py:91-112 | a run in which every point finds a row for its date inserts nothing |
| BlsRerun.DoneFoundAfterStep | scripts/fetch_data.py:84-111 | the points handled so far and the current one all find their rows after the current one |
| BlsRerun.FirstMatchStableAfterStep | scripts/fetch_data.py:91-111 | after one more point, the row found at a position, updated or just inserted, is still a fixed point of the whole series |
| BlsRerun.FirstMatchesSettle | scripts/fetch_data.py:75-113 | every row the first run leaves for the series is a fixed point of the whole series |
| BlsRerun.RerunKeepsTable | scripts/fetch_data.py:75-113 | for every series, including ones whose points share a date: running again on the table the first run left gives back that table, inserts nothing, and fails exactly when the first run did |
| MetalProperties.NoReadingIsNoOp | scripts/fetch_data.py:123-125 | `None` makes no call and changes nothing |
| MetalProperties.LeavesExactlyOneRow | scripts/fetch_data.py:129-156 | afterwards exactly one row has key `(metal, date)`, holding the rate's price, high and low and the reading as raw data; no duplicate key is created |
| MetalProperties.OverwritesEvenIfEqual | scripts/fetch_data.py:137-144 | an existing row is rewritten by its id whatever it held; no other row and not the id counter changes |
| MetalProperties.InsertsWhenAbsent | scripts/fetch_data.py:146-155 | with no row for the day, exactly one row is appended under the next id |
| MetalProperties.KeepsIdsUnique | scripts/fetch_data.py:133-155 | ids stay unique and the existing rows keep their ids and keys |
| MetalProperties.LeavesOtherRows | scripts/fetch_data.py:133-144 | a row of another metal or another day is never modified, and the only lookup and insert are for this metal |
| MetalProperties.PollSettlesItsDay | scripts/fetch_data.py:133-155 | after a poll, the row a lookup finds for the reading's day already holds its price, high, low and the reading as raw data |
| MetalProperties.RerunKeepsTable | scripts/fetch_data.py:137-144 | polling again with the same reading rewrites the row with the same values: the table stays as the first poll left it |

## Left out

- `fetch_latest_bls` and `fetch_metal_price` (lines 12-63) are HTTP requests, JSON decoding and error handling around the network. Their results arrive here as the `seriesData` and `metalData` arguments.
- Creating the Supabase client from environment variables (lines 6-10) is I/O. The model replaces the database with the `MarketData` store, whose lookups return rows in sequence order. The model fixes one order (insertion order, unchanged by updates); PostgreSQL guarantees none.
- Concurrent writers are not modelled: the model assumes nothing else writes to `market_data` during a call. The lookup and the insert (lines 85-111 and 133-155) are separate requests, so two overlapping runs can both find no row and both insert the same key. BlsProperties.KeepsNoDuplicateKeys, MetalProperties.LeavesExactlyOneRow and the re-run lemmas hold only for a single writer.
- Row order under duplicate keys: the select at lines 85-87 and 133-135 has no `ORDER BY`, so the database does not fix which row `existing.data[0]` is, and an update may move a row. The model's choice matters only when a key is duplicated. BlsRerun.RerunKeepsTable, BlsRerun.RunOnFirstMatch and BlsRerun.RunLeavesUnfound allow duplicate keys and rely on the model's fixed order for them.
- Failing store calls are not modelled: every `.execute()` succeeds in the model. In the code a failing request raises and ends the call, leaving the writes made before it, as a parse error at line 89 does.
- Values read back exactly: the model assumes the table returns `date` and `average` exactly as they were written. The table's schema is not part of this model. The re-run lemmas (BlsRerun.RerunKeepsTable, BlsProperties.RerunChangesNothing, MetalProperties.RerunKeepsTable) and BlsProperties.UnchangedWhenEqual rest on this.
- `datetime.now()` (line 19) sits in a fetcher and is not part of this model.
- `float(...)` is the `parse` parameter, and values are compared by equality on `real` (lines 89, 93). Binary floating point, NaN, and `float` of a non-number average read back from the table are not modelled. A stored average is never null in the model.
- All `print` diagnostics (lines 30, 69, 101, 113, 115-118, 145, 156) and the `__main__` sequence (lines 158-170) are output and orchestration, so the model leaves them out. The counters are returned instead of printed.
- The records are typed values. A point without a `year` or `period` key (Python `KeyError`) and non-string values are not modelled. `raw_data` is the record itself, not its JSON encoding. The same holds for `metal_data`: an empty dict `{}` is falsy and returns at line 123, and a reading without `rate` or `timestamp` raises `KeyError` at lines 127 and 129. `MetalData` can represent neither.
- Whitespace is the set of characters Python's `str.isspace` accepts, as a fixed list. Unicode database updates beyond that list are not modelled.
- BlsProperties.RerunChangesNothing: only its update counter needs the series' non-blank points to fall on pairwise distinct dates. When two points share a date with different values (the semi-annual codes `S01` and `S02` both map to month `01`), a re-run rewrites that row once for each of them and counts those updates, but ends with the same table. BlsRerun.RerunKeepsTable states the table, insert counter and failure flag for every series.
- MetalProperties.RerunKeepsTable and the key-isolation lemmas require unique ids (`ValidTable`), which is the table's primary key. Without unique ids, an update by id could reach other rows.
