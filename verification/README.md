# Reconciliation of delivery data by flight, creative and day

This project models the reconciliation step of a stream-driven delivery-data
processor. The model is written in Dafny. A request names either one line item
(`processing_id_type = "li_code"`) or one import batch (`"import_id"`). The step
runs in two parts:

1. **Expected data.** It builds a temp table of expected rows. Raw delivery facts
   are joined with vendor mappings on vendor id, where the fact's date must lie in
   the mapping's inclusive range. They are then joined with the import metadata and
   the import records. A fact is dropped when its mapping is soft-deleted, or when
   an alignment conflict of that line item covers its date. The survivors are
   grouped by `(date, li_code, creative)`, and impressions and clicks are summed.
2. **Diff and apply.** It rewrites the output table
   `snoopy.delivery_by_flight_creative_day` in place with three statements, in this
   order:
   - an UPDATE that soft-deletes rows of the affected flights;
   - a DELETE of rows whose key matches an expected row;
   - an INSERT of every expected row.

   It returns the soft-deleted keys and the inserted rows.

The modules follow that structure:

- `Tables` (tables.dfy) holds the rows of every table as datatypes.
- `Text` (text.dfy) holds the string work: the flight id, the temp-table name, and the quoted `IN (...)` list.
- `Expected` (expected.dfy) is the builder, written as pure functions over sequences.
- `Apply` (apply.dfy) gives each statement's effect as a function of the table's rows, and proves what the three statements achieve together.
- `Reconcile` (reconcile.dfy) holds the class `OutputTable`. Its `seq<OutputRow>` field is rewritten by one method per statement. Loops go over the rows, and each method is proved against the functions in `Apply`.
- `Scenarios` (scenarios.dfy) works through two concrete runs.

The model follows the code as written on these points:

- **Creative key comparison.** The key comparisons use plain SQL `=`. A NULL creative id (`None`) therefore never matches anything, including another NULL. `Apply.RerunWithNullCreativeGrows` proves the consequence: re-running with a NULL-creative expected row soft-deletes that row and inserts it again, so the table grows.
- **Already-deleted rows.** The soft-delete's `NOT EXISTS` subquery also tests `output.is_deleted = FALSE`. Rows that are already deleted in an affected flight are therefore marked again and reported again on every run.
- **`updated_at`.** The soft-delete changes only `is_deleted`. It does not stamp `updated_at`.
- **Affected flights.** Every request soft-deletes within its affected flights. For a line-item request that is the one flight `processing_id[3:]`; for an import request it is the flights of its expected rows.
- **Errors.** A failing statement is not retried here; lock-timeout errors reach the caller.
- **NULL creatives in the builder.** The GROUP BY puts all NULL creatives of a line item and date into one group; nothing else is done with them.

## Model

| member | source | states |
|---|---|---|
| `Expected.ScopeOf` | lambda/helpers/database_helper.py:48 | The processing-type lookup succeeds exactly for `li_code` and `import_id`. Any other type yields `UnknownProcessingType` carrying that type. |
| `Expected.GenerateExpectedData` | lambda/helpers/database_helper.py:46-59 | Fails exactly on an unknown type. Otherwise: the temp table is named by `TempTableName(processing_id)` and holds exactly `ExpectedRows` of the request's scope. The affected list is `[processing_id[3:]]` for `li_code` and empty for `import_id`. Every expected row is live and stamped `now`. When the affected list is non-empty, every expected row's flight is in it. |
| `Text.TempTableName` | lambda/helpers/database_helper.py:47 | The name is `expected_temp_table_` followed by the lower-cased id with every `-` removed. It holds no `-` and no upper-case letter, and its length is the prefix length plus the length of the dash-free id. |
| `Text.TempTableNameIgnoresDashes` | lambda/helpers/database_helper.py:47 | Removing dashes from the id first does not change the name, so ids that differ only in dashes share one temp table. |
| `Text.TempTableNameIgnoresCase` | lambda/helpers/database_helper.py:47 | Lower-casing the id first does not change the name, so ids that differ only in letter case share one temp table too. |
| `Text.DropPrefix` | lambda/helpers/database_helper.py:52 | `s[n:]` has length `max(0, \|s\| - n)`, and its i-th character is `s[n + i]`. |
| `Text.SqlSubstringFrom` | lambda/helpers/database_helper.py:36 | PostgreSQL `substring(s, start)` is 1-based. The result's i-th character is `s[start - 1 + i]`, and a start at or before 1 keeps the whole string. |
| `Text.FlightOfIsSlice` | lambda/helpers/database_helper.py:36 | The query's `substring(li_code, 4)` equals the request's `li_code[3:]`. |
| `Text.RemoveChar` | lambda/helpers/database_helper.py:47 | `replace("-", "")` leaves no `-`, and a character occurs in the result exactly when it is another character of the id. |
| `Text.RemoveCharCounts` | lambda/helpers/database_helper.py:47 | Every character other than `-` is kept as often as it occurs in the id; the result is shorter by the number of dashes. |
| `Text.RemoveCharConcat` | lambda/helpers/database_helper.py:47 | Removing dashes from a concatenation removes them from each part and keeps the parts in order. |
| `Text.Lower` | lambda/helpers/database_helper.py:47 | `lower()` keeps the length and leaves no ASCII upper-case letter. Each upper-case letter becomes its lower-case counterpart (32 code points on), and every other character stays. |
| `Text.InListRoundTrip` | lambda/helpers/database_helper.py:69 | If no id contains a quote, SQL reads the string `('a','b',...)` back as exactly the affected id list. |
| `Text.QuoteInIdSplitsTheList` | lambda/helpers/database_helper.py:69 | Quotes are not escaped: the one id `a','b` gives the same IN-list as the two ids `a` and `b`, so it does not read back as itself. |
| `Expected.JoinedMembership` | lambda/helpers/database_helper.py:37-42 | A contribution appears in the join exactly when some (fact, mapping) pair passes every test and yields it, in both directions. The tests: placement id equals vendor id; the date is in the mapping's inclusive range; the import metadata and record exist; the pair is in scope; the mapping is not deleted; no alignment conflict of that line item covers the date. How often it appears is `Expected.JoinedCount`. |
| `Expected.JoinedCount` | lambda/helpers/database_helper.py:37-42 | The join is a bag, not a set: each contribution occurs in it exactly as many times as there are (fact, mapping) pairs that pass every test and yield it, so two identical live mappings give two equal joined rows. |
| `Expected.Groups` | lambda/helpers/database_helper.py:43 | The group keys are distinct. They are exactly the `(date, li_code, creative)` keys of the joined rows. |
| `Expected.GroupMax` | lambda/helpers/database_helper.py:36 | `MAX(...)` of a non-empty group is the value of one of its rows, and is at least every value in the group. |
| `Expected.ExpectedRows` | lambda/helpers/database_helper.py:36 | There is one expected row per distinct group. Every expected row has `is_deleted = FALSE` and `updated_at = now`. |
| `Expected.ExpectedRowsAtAnotherTime` | lambda/helpers/database_helper.py:36 | The same request over the same data at another `now()` yields the same rows, with only `updated_at` changed to the new time. |
| `Expected.OneRowPerGroup` | lambda/helpers/database_helper.py:36-43 | Each expected row belongs to exactly one group key. Its flight is the line-item code without its first three characters. Its impressions and clicks are the group's sums. Its provider and time zone are the group's maxima. |
| `Expected.EveryContributionHasItsRow` | lambda/helpers/database_helper.py:36-43 | Every surviving (fact, mapping) pair appears in an expected row with the fact's date, the mapping's flight and the mapping's creative. |
| `Expected.EveryRowHasAContribution` | lambda/helpers/database_helper.py:36-43 | Every expected row comes from a surviving (fact, mapping) pair with the row's date, flight and creative. |
| `Expected.LiCodeRowsStayInScope` | lambda/helpers/database_helper.py:51-52 | For a line-item request, every expected row's flight is `processing_id[3:]`, the one affected flight. |
| `Expected.ConflictsExcludeRows` | lambda/helpers/database_helper.py:41-42 | No expected row has a date covered by an alignment conflict of its line item. |
| `Expected.TotalsConserved` | lambda/helpers/database_helper.py:36-43 | Grouping neither loses nor double-counts anything. Summed over the expected rows, impressions (and clicks) equal the total of the joined rows, and that total is `WeightedTotal`: each fact's amount times the number of live mappings it joins with, so a fact matched by k mappings counts k times. |
| `Expected.JoinFactsTotal` | lambda/helpers/database_helper.py:36-42 | The impressions (or clicks) of the joined rows of a list of facts are each fact's amount multiplied by the number of mappings that join with it and pass every test. |
| `Apply.DistinctFlights` | lambda/helpers/database_helper.py:66 | The derived affected list holds each flight of the expected rows exactly once, and nothing else. |
| `Apply.EffectiveAffected` | lambda/helpers/database_helper.py:65-68 | A non-empty given list is used as it is. When none is given, the list holds exactly the expected rows' flights. It is empty exactly when none is given and there are no expected rows. |
| `Apply.SoftDeleted` | lambda/helpers/database_helper.py:84-92 | The UPDATE keeps the row count and changes only `is_deleted`, only to TRUE. It changes no row outside the affected flights. A row ends up deleted exactly when it was deleted already or the UPDATE's condition holds for it. The condition is: its flight is affected, and it is already deleted or no expected row has an SQL-equal key. |
| `Apply.DeletedKeys` | lambda/helpers/database_helper.py:84-92 | `deleted` has one entry per row the UPDATE touched, already-deleted ones included: each key occurs exactly as often as touched rows carry it, and no other key occurs. |
| `Apply.RemoveMatchingSpec` | lambda/helpers/database_helper.py:95-100 | After the DELETE, no row has a key SQL-equal to an expected row's key, and every row without such a key is still there. |
| `Apply.StaleRowIsSoftDeleted` | lambda/helpers/database_helper.py:84-92 | A live row of an affected flight that no expected row matches ends up soft-deleted with its other columns unchanged, and its key is reported. |
| `Apply.KeptRowsOfAffectedFlightsAreDeleted` | lambda/helpers/database_helper.py:84-100 | After the UPDATE and the DELETE, every remaining row of an affected flight is deleted and matches no expected row. |
| `Apply.OtherFlightsUnchanged` | lambda/helpers/database_helper.py:84-107 | When every expected row's flight is affected, the rows of the other flights are the same rows, in the same order, after the three statements. |
| `Apply.AffectedFlightsMatchExpected` | lambda/helpers/database_helper.py:84-107 | Partition completeness: afterwards, the live rows of the affected flights are exactly the expected rows. This holds with NULL creatives too. |
| `Apply.EachAffectedFlightMatchesExpected` | lambda/helpers/database_helper.py:84-107 | The same, flight by flight: the live rows of each affected flight are the expected rows of that flight. |
| `Apply.RerunIsStable` | lambda/helpers/database_helper.py:84-107 | Suppose the expected rows have no NULL creative ids. A second run whose expected rows differ only in `updated_at` replaces the rows the first run inserted by the re-stamped ones and leaves every other row as the first run left it; with the same `updated_at` the table does not change. Its `deleted` again reports every soft-deleted row of the affected flights. |
| `Apply.RerunWithNullCreativeGrows` | lambda/helpers/database_helper.py:90-107 | If some expected row has a NULL creative id, a second run leaves strictly more rows than the first. |
| `Reconcile.AffectedCoversExpected` | lambda/helpers/database_helper.py:51-52 | Every expected row of a request lies in one of the flights the step works on. |
| `Reconcile.RerunOfRequestIsStable` | lambda/helpers/database_helper.py:12-17 | Repeating a request over unchanged data in a later transaction works on the same flights. If none of its expected rows has a NULL creative, the repeat only replaces the rows the first request inserted by the same rows stamped with the new time. |
| `Reconcile.OutputTable.SoftDeleteUnmatched` | lambda/helpers/database_helper.py:84-92 | The table's rows become `SoftDeleted` of the old rows, and the returned keys are `DeletedKeys` of the old rows. |
| `Reconcile.OutputTable.DeleteMatching` | lambda/helpers/database_helper.py:95-100 | The table keeps exactly the old rows that match no expected row, in order. |
| `Reconcile.OutputTable.InsertAll` | lambda/helpers/database_helper.py:102-107 | The expected rows are appended, and `inserted` is the expected rows. |
| `Reconcile.OutputTable.CalculateDiffsAndWrite` | lambda/helpers/database_helper.py:64-109 | With no affected flights given and no expected rows, it returns `([], [])` and the table is unchanged. Otherwise the table becomes `Reconciled(old rows)`, and the step returns `(DeletedKeys(old rows), expected rows)`. |
| `Reconcile.OutputTable.ProcessProcessingId` | lambda/helpers/database_helper.py:12-17 | An unknown type fails and leaves the table unchanged. Otherwise the new table is `Reconciled` of the old one (or the old one when no flight is affected), so the rows of unaffected flights stay as they were, the live rows of the affected flights become exactly the expected rows, and the reported diff is the touched keys and the inserted rows. |
| `Scenarios.OneFactIntoEmptyTable` | lambda/helpers/database_helper.py:34-45 | One fact mapped to line item `ABCP1` gives one expected row for flight `P1` with the fact's counts. Applied to an empty table, it inserts that row and deletes nothing. |
| `Scenarios.DuplicatedMapDoublesTheRow` | lambda/helpers/database_helper.py:36-43 | With the one mapping of a fact listed twice, the join holds its contribution twice, and the one expected row carries twice the fact's impressions and clicks (200 and 2 for a fact of 100 and 1). |
| `Scenarios.UnsupportedRowIsSoftDeleted` | lambda/helpers/database_helper.py:84-92 | A live row of flight `P1` for a day with no upstream fact, against the expected rows the builder derives for `ABCP1`, is soft-deleted and its key is reported; the builder's row for the supported day is inserted. |

## Left out

- Transactions and locking are left out: the transaction (line 13), `SET lock_timeout` (lines 20-24) and `SELECT ... FOR UPDATE` (lines 75-81). The lock has no effect on data. Concurrent requests and lock-timeout errors are not modelled.
- The stream handler (lambda/KinesisLambdaProcessor.py) and the credential settings (lambda/config/db_config.py, lambda/rds_config.py) are left out. They are I/O and configuration, and the handler never calls the reconciliation step.
- lambda/helper/database_helper.py is left out. It is a stale, broken copy of the step.
- SQLAlchemy table reflection (lines 58-59, 71-72) is left out. The temp table is modelled by its name and rows.
- `ORDER BY` is left out, since row order carries no meaning.
- `now()` is a parameter `now`.
- Provider and time zone are opaque `Label` codes. `MAX` is the maximum code, which stands for the database's text collation.
- `import_metadata` and `import.records` are modelled as maps keyed by the import record id. This assumes at most one row per id, which is what the joins need to add no extra copies of a fact.
- NULL is modelled only for the creative id. NULL line-item codes, vendor ids, dates or counts are not modelled.
- The processing id is spliced unescaped into the WHERE clause (line 48) and the IN-list (line 69). The model treats the WHERE clause as a plain equality test. `Text.QuoteInIdSplitsTheList` shows what a quote does to the IN-list.
- `Expected.GenerateExpectedData` returns the temp table for any processing id. The name is spliced unquoted into `CREATE TEMP TABLE` (line 54), so an id that holds a space, `.` or `'` after dash removal makes that statement fail or name a table in another schema; the model does not capture that failure.
- `Reconcile.OutputTable.CalculateDiffsAndWrite` always succeeds. For an import request the IN-list is built from the flights of the expected rows, which come from `li_code` values in `vendor_ids.maps`; a quote in one of them breaks the UPDATE (lines 84-92) and aborts the transaction, which the model does not capture (`Text.QuoteInIdSplitsTheList` shows what the quote does to the list).
- `Text.Lower` covers ASCII letters only. Python's case mapping of other characters is not modelled.
- `INSERT ... SELECT *` is taken to match the temp table's columns to the output table's columns by position, in the order the query selects them. The output table's schema and constraints are not visible in the source.
- `Reconcile.OutputTable.ProcessProcessingId` returns the diff, so that its effect can be stated. The Python function returns nothing.
