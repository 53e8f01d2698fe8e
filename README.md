# Health performance dashboard: join and aggregate pipeline

This project models the data transformations of a single-page dashboard for
healthcare facilities (`dashboard.py`). The dashboard loads four CSV tables:
facilities, clinical/neonatal records, governance records and operations
records. It joins the facilities with each of the other three on
`facility_id` and computes the tables it then draws:

- **Governance.** How many joined facility–governance rows have each
  `newborn_protocol_exists` status, and the facilities whose status is
  `"Yes"` (name, district, tier).
- **Clinical.** Live births per reporting month over the whole clinical table,
  earliest month first. Also live births per district over the clinical rows
  joined with the facilities, largest total first.
- **Operations.** The oxygen column coerced to numbers, then the 15 joined
  rows with the most oxygen cylinders.

Each pandas call becomes a pure Dafny function over sequences of record
datatypes. The pandas calls are:

- `merge` becomes `Join.InnerJoin`.
- `groupby().sum()` becomes `Grouping.GroupSum`.
- `value_counts` becomes `Grouping.CountBy`, then a sort by count.
- The boolean filter becomes `Governance.RowsWithStatus`.
- The column selection becomes `Governance.SummarizeAll`.
- `sort_values(ascending=False)` becomes `Sorting.SortDesc`.
- `head` becomes `Operations.Take`.
- `to_numeric(errors='coerce').fillna(0)` becomes `Operations.CoerceOxygen`.

The source reassigns column values in place twice (lines 80 and 121). Both steps are modelled as pure maps over the rows.

Modules:

- `Records`: the four row types.
- `Seqs`: column sums.
- `Join`: the inner join.
- `Grouping`: grouped sums and counts, kept as association lists of (key, total).
- `Sorting`: the descending sort.
- `Governance`, `Clinical`, `Operations`: the three sections of the dashboard.
- `Dashboard`: the all-or-nothing load and the whole report.

Where the intended behaviour of the dashboard and its code disagree, the model follows the code:

- The monthly trend groups the **unjoined** clinical table (line 83). Its
  totals add up to the live births of every clinical row, not only the rows
  whose facility is known.
- All three descending orders (the status counts, the district totals and
  the oxygen ranking) use pandas' default sort, which is not stable. No
  order is promised among equal counts, equal totals or equal oxygen counts. Only the
  descending order and the multiset of rows are promised.
- `value_counts` skips empty cells. So the status counts add up to the
  number of joined rows that *have* a status. That equals the number of
  joined rows only when no status cell is empty.
- The ranking keeps whole joined rows, not only the name and oxygen columns.
  The chart reads just those two columns.

## Model

| member | source | states |
|---|---|---|
| `Join.InnerJoin` | dashboard.py:45 | every row of the join pairs a left row and a right row with equal keys |
| `Join.JoinMultiplicity` | dashboard.py:45 | a pair (l, r) occurs (count of l on the left) × (count of r on the right) times when the keys match, and never otherwise: duplicate keys multiply |
| `Join.JoinMembership` | dashboard.py:45 | (l, r) is in the join exactly when l is a left row, r is a right row and their keys are equal; unmatched rows of either side never appear |
| `Grouping.Accumulate` | dashboard.py:83 | adding v to key k changes only k's total, by v; the keys grow by k, stay distinct and the grand total grows by v |
| `Grouping.GroupSum` | dashboard.py:83 | one entry per distinct key of the rows; each key's total is the sum of the value over that key's rows; the totals add up to the column sum |
| `Grouping.LookupEntry` | dashboard.py:83 | in a table with distinct keys, an entry's total is the total recorded for its key |
| `Grouping.GroupSumEntries` | dashboard.py:83 | every entry of a grouped sum holds the sum over exactly its own key's rows |
| `Grouping.CountIsMultiplicity` | dashboard.py:48 | counting a value by summing 1 over its group gives the number of its occurrences |
| `Grouping.CountBy` | dashboard.py:48 | one entry per distinct value; each count is the value's number of occurrences, at least 1; the counts add up to the number of values |
| `Sorting.InsertSorted` | dashboard.py:98 | inserting into a descending sequence yields a descending sequence one row longer |
| `Sorting.InsertMultiset` | dashboard.py:98 | inserting adds exactly the inserted row to the multiset of rows |
| `Sorting.SortDesc` | dashboard.py:98 | the result is descending by the score and a permutation of the input |
| `Sorting.SortDescLength` | dashboard.py:98 | sorting keeps the number of rows |
| `Sorting.SortDescSum` | dashboard.py:98 | any column sum is the same before and after sorting |
| `Sorting.SortDescKeys` | dashboard.py:98 | sorting a grouped table keeps its set of keys |
| `Sorting.SortDescDistinct` | dashboard.py:98 | sorting a grouped table keeps one entry per key |
| `Sorting.SortedPrefix` | dashboard.py:123 | a prefix of a descending sequence is descending, a sub-multiset of it, and no row after the prefix scores above its last row |
| `Governance.GovMerged` | dashboard.py:45 | no contract of its own; specified by `Governance.GovMergedPairs` |
| `Governance.GovMergedPairs` | dashboard.py:45 | `gov_merged` holds exactly the (facility, governance record) pairs that share a facility_id |
| `Governance.RowsWithStatus` | dashboard.py:68 | the filter keeps exactly the rows with the given status, each one a joined row, and is empty exactly when no row has that status |
| `Governance.RowsWithStatusMultiset` | dashboard.py:68 | each row with the given status is kept as many times as it occurs, and no other row is kept |
| `Governance.RowsWithStatusAppend` | dashboard.py:68 | the filter keeps row order: filtering a concatenation filters each part, and one row is kept exactly when its status matches |
| `Governance.PresentStatuses` | dashboard.py:48 | each status occurs as often as there are rows with it; the non-empty statuses and the empty cells together account for every row |
| `Governance.ProtocolCounts` | dashboard.py:48-49 | no contract of its own; specified by `Governance.ProtocolCountsSpec` |
| `Governance.ProtocolCountsSpec` | dashboard.py:48-49 | one entry per status present in the joined rows, each the number of rows with that status and at least 1; counts non-increasing; counts plus empty cells add up to the joined rows (to all of them when none is empty) |
| `Governance.Summarize` | dashboard.py:69-70 | no contract of its own; one joined row's facility_name, district and tier_level |
| `Governance.SummarizeAll` | dashboard.py:69-70 | same number of rows, and entry i is the projection of joined row i |
| `Governance.CompliantFacilities` | dashboard.py:68-70 | no contract of its own; specified by `Governance.CompliantFacilitiesSpec`, `Governance.CompliantFacilitiesAppend` and `Governance.CompliantFacilitiesCount` |
| `Governance.CompliantFacilitiesSpec` | dashboard.py:68-70 | a (name, district, tier) is listed exactly when a joined row with status "Yes" has it |
| `Governance.CompliantFacilitiesAppend` | dashboard.py:68-70 | the compliant list follows the joined rows in order: listing a concatenation lists each part, and one row is listed once exactly when its status is "Yes" |
| `Governance.CompliantFacilitiesCount` | dashboard.py:48-70 | the compliant list is as long as the "Yes" count, and empty when no row says "Yes" |
| `Clinical.MonthlyTrend` | dashboard.py:83 | no contract of its own; specified by `Clinical.MonthlyTrendSpec` |
| `Clinical.MonthlyTrendSpec` | dashboard.py:83 | one entry per month of the clinical table, months strictly ascending, each total the month's live births and never negative; totals add up to all clinical live births, with no facility filter |
| `Clinical.AscendingFromSort` | dashboard.py:83 | distinct months ordered latest-last are strictly ascending |
| `Clinical.ClinicalMerged` | dashboard.py:97 | no contract of its own; specified by `Join.JoinMembership` and `Clinical.JoinBirths` |
| `Clinical.DistrictBirths` | dashboard.py:97-98 | no contract of its own; specified by `Clinical.DistrictBirthsSpec` and `Clinical.DistrictBirthsConserve` |
| `Clinical.DistrictBirthsSpec` | dashboard.py:97-98 | one entry per district of the joined rows, totals non-increasing, each the district's joined live births; totals add up to the joined live births |
| `Clinical.MatchesBirths` | dashboard.py:97 | with unique facility ids, a clinical record contributes its live births to the join once if its facility exists and not at all otherwise |
| `Clinical.JoinBirths` | dashboard.py:97 | with unique facility ids, the joined live births are the live births of the clinical rows whose facility exists |
| `Clinical.DistrictBirthsConserve` | dashboard.py:97-98 | with unique facility ids, the district totals add up to the live births of the clinical rows whose facility_id matches a facility |
| `Operations.OpsMerged` | dashboard.py:118 | no contract of its own; specified by `Operations.OpsMergedPairs` |
| `Operations.OpsMergedPairs` | dashboard.py:118 | `ops_merged` holds exactly the (facility, operations record) pairs that share a facility_id |
| `Operations.ToNumber` | dashboard.py:121 | no contract of its own; one cell's coercion, specified through `Operations.CoerceOxygen` |
| `Operations.CoerceRow` | dashboard.py:121 | no contract of its own; one row's coercion, specified through `Operations.CoerceOxygen` |
| `Operations.CoerceOxygen` | dashboard.py:121 | same number of rows in the same order, every other column unchanged, a numeric oxygen cell kept and a non-numeric or empty one replaced by 0 |
| `Operations.CoerceOxygenIdempotent` | dashboard.py:121 | coercing an already coerced column changes nothing |
| `Operations.Take` | dashboard.py:123 | `head(n)` keeps the first min(n, rows) rows |
| `Operations.TopOxygen` | dashboard.py:123 | no contract of its own; specified by `Operations.TopOxygenSpec` and `Operations.TopOxygenNumeric` |
| `Operations.TopOxygenSpec` | dashboard.py:123 | min(15, joined rows) rows, descending by oxygen, a sub-multiset of the coerced join (all of it when at most 15 rows); every row left out has at most the oxygen of the last row kept |
| `Operations.TopOxygenNumeric` | dashboard.py:121-123 | every ranked row carries a numeric oxygen value |
| `Dashboard.LoadData` | dashboard.py:21-31 | the load yields the four tables when every file was read, and nothing, never a partial result, when any file is missing |
| `Dashboard.BuildReport` | dashboard.py:45-123 | no contract of its own; the three sections' tables, specified by the members above |
| `Dashboard.Render` | dashboard.py:34-36 | no contract of its own; specified by `Dashboard.RenderAllOrNothing` |
| `Dashboard.RenderAllOrNothing` | dashboard.py:34-36 | a failed load shows no section; a successful one shows the report of exactly the loaded tables |
| `Dashboard.ScenarioGovernance` | dashboard.py:45-70 | one facility with status "Yes" gives counts [("Yes", 1)] and lists that facility |
| `Dashboard.ScenarioOxygen` | dashboard.py:118-123 | oxygen cells 5 and "abc" coerce to 5 and 0 and rank X before Y |
| `Dashboard.ScenarioMonthlyTrend` | dashboard.py:83 | two records of one month give a single entry holding their sum |

## Left out

- Page setup, titles, markdown, columns, tables and Plotly charts (dashboard.py:6-17, 52-67, 71, 86-94, 101-109, 126-143) are presentation through external libraries. The renaming of the count columns (line 49) is only a choice of display labels.
- `st.cache_data` caching and the CSV reading are file I/O. `LoadData` takes each file's outcome as an argument: a table, or None for a missing file. The error message is not modelled. Only `FileNotFoundError` is caught (dashboard.py:29): any other read error, such as an empty or malformed CSV or a permission error, propagates and stops the script, and the `Option` arguments of `LoadData` cannot express that.
- Date parsing with `pd.to_datetime` (line 80) is left out. Months arrive already parsed, as integers that order like the calendar. A malformed date, which would make the whole column fail, is therefore not modelled.
- Floating-point values and NaN are left out. Oxygen counts are integers. A cell that `to_numeric` cannot read is `Text`, and an empty cell is `Missing`. Which strings `to_numeric` accepts is not modelled: a `Number` cell stands for one it accepts.
- Missing keys are not modelled, except for the protocol status. An empty facility_id, reporting_month or district cell, or an empty live_births cell, is outside the model. pandas would match empty ids in `merge`, and `groupby` would drop empty keys.
- Row order of the join is not promised by any lemma. The model lists matches by left row, then by right row.
- Entries with equal totals (district births, status counts) and rows with equal oxygen counts come out in no promised order. pandas' default quicksort is not stable.
- Column layout of merged rows: a joined row is modelled as the pair of its two source rows. So the shared facility_id appears twice. The projection of the facilities to (facility_id, district) before the clinical join (line 97) is not modelled, because it does not change which rows join.
- `Clinical.DistrictBirthsConserve` assumes facility_id is unique in the facilities table: facility_id is meant to be that table's key. Without it, `Join.JoinMultiplicity` says how duplicate facilities multiply the joined rows.
- `Clinical.MonthlyTrendSpec`: the "never negative" clause rests on live_births being a non-negative count (`nat`). That is what the column means, but the script does not check it. With negative values, only that clause would fail.
- Sums are unbounded integers. pandas sums an integer column in 64 bits, and overflow is not modelled.
- The comment "top 10" at dashboard.py:120 is out of date. The code keeps 15 rows (`Operations.TopCount`).
