# Retail dashboard data shaping, in Dafny

The dashboard loads a table of sales rows and shows three derived views. The
first is total sales per category and the second is total sales per store.
Each is a `groupby(key)["Sales"].sum().sort_values(ascending=False)`, so one
aggregation rule serves both keys. The third view is the table filtered to an
inclusive date range. The range widgets default to the earliest and latest
date in the data.

This project models those three views as pure functions over an immutable
`seq<Row>`. It then proves what they promise:

- every present key appears exactly once;
- each total is the sum of `Sales` over exactly that key's rows;
- the totals add up to the grand total, so grouping is a partition;
- the table is ranked by total, and only the order of equal totals is left open;
- the filter keeps exactly the in-range rows, in their original order.

Modules, one per concept:

- `Dates`: the `Date` type (year, month, day) and its lexicographic order `Le`. It also holds `Earliest` and `Latest`, which are pandas `min()` and `max()`.
- `Rows`: the `Row` datatype and `SumSales`. `Store ID` is kept as text. The aggregation is generic in the key type, so a numeric store id would behave the same way.
- `Groups`: the aggregate entry `Group(key, total)` and the vocabulary for tables of such entries.
- `Ranking`: `sort_values(ascending=False)` on a table, written as an insertion sort whose contract promises no tie order.
- `Aggregation`: the one-pass grouping `GroupRows`, the ranked `Aggregate`, the reference `GroupTotal`, and the implementation-free promise `IsRankedSalesTable`.
- `DateFilter`: the inclusive filter `FilterByDate`, the kept positions, and the default bounds.
- `Dashboard`: the two charts' tables, `CategorySales` (by `Category`) and `StoreSales` (by `Store ID`).
- `Options`: `Option`, used for the bounds of an empty table.

Two points of pandas behaviour shape the model:

- pandas' default `sort_values` kind is quicksort, which is not stable. The model therefore promises non-increasing totals and no order among equal totals. `AggregateUniqueUpToTies` shows that this promise fixes everything else.
- `pd.to_datetime` with its default `errors` raises on an unparsable string. Dates here are already parsed.

## Model

| member | source | states |
|---|---|---|
| Dates.Earliest | app.py:34 | the default start is a date that occurs in the data and is on or before every row's date |
| Dates.Latest | app.py:35 | the default end is a date that occurs in the data and is on or after every row's date |
| Dates.EarliestUnique | app.py:34 | the default start is the only date in the data that is on or before every row's date |
| Dates.LatestUnique | app.py:35 | the default end is the only date in the data that is on or after every row's date |
| Dates.LeTotal | app.py:36-37 | any two parsed dates can be compared |
| Dates.LeTransitive | app.py:36-37 | the date comparison is transitive |
| Dates.LeAntisymmetric | app.py:36-37 | two dates each on or before the other are the same day |
| Ranking.Insert | app.py:18 | inserting an entry into a ranked table keeps it ranked, adds exactly that entry (as a multiset), and adds its total to the sum |
| Ranking.RankByTotal | app.py:18 | `sort_values(ascending=False)`: the result is non-increasing by total, is a permutation of the input, and keeps the sum of totals |
| Ranking.InsertKeepsKeysDistinct | app.py:18 | inserting an entry with a fresh key into a table of distinct keys leaves the keys distinct |
| Ranking.RankKeepsKeysDistinct | app.py:18 | sorting does not repeat a key |
| Ranking.RankKeepsEntries | app.py:18 | sorting neither adds nor drops an entry |
| Ranking.RankedTablesAgree | app.py:18 | two ranked tables with the same entries and distinct keys have the same length and the same total at every rank, so an unstable sort can only permute equal totals |
| Aggregation.AddSale | app.py:18 | adding one row's sales under its key raises that key's total by the amount and leaves every other key's total alone; the key set gains exactly that key; keys stay distinct; the grand total rises by the amount |
| Aggregation.GroupRows | app.py:18 | `groupby(...).sum()`: keys are distinct, a key is listed iff some row carries it, the total looked up for any key equals the sum of `Sales` over exactly its rows, and the totals add up to all sales |
| Aggregation.GroupRowsTotals | app.py:18 | every entry of the grouping carries the sum of `Sales` over exactly the rows with its key |
| Aggregation.Aggregate | app.py:18 | the ranked aggregate for any key column: non-increasing by total, each present key exactly once and no other key, each total the sum of `Sales` over exactly that key's rows, totals adding up to the sum of all sales |
| Aggregation.AggregateUniqueUpToTies | app.py:18 | any table meeting the ranked-aggregate promise has the same entries as `Aggregate`, the same length, and the same total at every rank |
| Aggregation.RankedSalesTablePartitions | app.py:18 | for any table meeting the promise, whatever its tie order, the group totals add up to the sales of all rows |
| Dashboard.CategorySales | app.py:18 | total sales by `Category`, ranked largest first, each category once, each total over exactly that category's rows |
| Dashboard.StoreSales | app.py:26 | total sales by `Store ID`, ranked largest first, each store once, each total over exactly that store's rows |
| Dashboard.ChartsPartitionSales | app.py:18-26 | the category chart and the store chart both add up to the total of all sales |
| Dashboard.TwoRowExample | app.py:18-26 | a Dairy row with 100 and a Bakery row with 50 at one store give `[(Dairy, 100), (Bakery, 50)]` by category and `[(S1, 150)]` by store |
| DateFilter.FilterByDate | app.py:36-37 | a row is in the result iff it is in the input and `start <= date <= end`, both ends inclusive; the result is no longer than the input |
| DateFilter.KeptPositions | app.py:36-37 | the positions where the boolean mask is true, strictly increasing: a position is listed iff that row's date is in range |
| DateFilter.FilterKeepsOrder | app.py:36-37 | the result is exactly the input rows at the kept positions, in increasing position order, so rows are neither reordered, altered, duplicated nor dropped when in range |
| DateFilter.FilterAppend | app.py:36-37 | filtering a concatenation gives the concatenation of the filtered parts |
| DateFilter.FilterKeepsAllInRange | app.py:36-37 | when every row is in range, the filter returns the table unchanged |
| DateFilter.FilterIdempotent | app.py:36-37 | filtering twice with the same bounds equals filtering once |
| DateFilter.FilterEmptyWhenStartAfterEnd | app.py:36-37 | a start after the end yields an empty table, not an error |
| DateFilter.DefaultBounds | app.py:34-35 | the default bounds are absent exactly for an empty table; otherwise every row's date is within them and both bounds are dates that occur in the data |
| DateFilter.DefaultBoundsKeepEveryRow | app.py:34-37 | with the default bounds, the filter returns the whole table unchanged |

## Left out

- Loading the CSV file (`pd.read_csv`) and writing it back (`to_csv`, the download button) are I/O and library formatting. The model starts from an in-memory `seq<Row>`.
- Parsing dates (`pd.to_datetime`) is left out. Dates are already parsed, and a date has no time of day. If the data held times, a row on the end day after midnight would be outside the range; the model does not cover that case.
- Missing dates are left out. An empty `Date` cell becomes `NaT`. The program skips such rows when it takes the default bounds, and it drops them from the filter, even with the default bounds. An unparsable date string makes `pd.to_datetime` raise.
- DefaultBoundsKeepEveryRow: holds only because every row here has a date; with a missing date the program would drop that row even under the default bounds.
- NaN sales and NaN keys are left out. pandas' float summation and its default dropping of NaN group keys are also not modelled. Sales are exact integers and every row has a key.
- The integer width of pandas' sums is not modelled, because sums here are unbounded.
- What the date widgets do with an empty table's `NaT` default is not modelled. `DefaultBounds` returns `None` there.
- Streamlit page elements (title, markdown, table previews, date widgets, download button) and the matplotlib bar charts are presentation.
