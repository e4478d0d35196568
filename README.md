# market_sales: a verified model of the dashboard's data transformations

`sales_app.py` is a Dash dashboard over a farm's market sales ledger
(`encoded_df.csv`: Date, Category, Item, Tier, Location, Weight, Net Sales).
Its callbacks turn the ledger into tables and charts. This project models the
data logic of each of those callbacks and proves what the dashboard shows:

- `generate_table` (module `Tables`): a header row, then the first
  `min(len, max_rows)` rows.
- `update_sales_table` (`RecentSales`): the ledger rows of the chosen
  categories, latest date first.
- `set_item_options` (`ItemIndex`): the sorted distinct items of a category.
- `filter_df2item` (`ItemHistory`): one item's rows, optionally limited to the
  last N days, with Tier dropped.
- `update_agg_Table` (`Performance`): per location, the number of days with a
  sale, the total sold, the mean and maximum daily count, and the latest date
  on which that maximum was reached.
- `sales_trends` (`Trends`): one scatter series per location, each point the
  number of rows at that location on that day, with a y axis topped at one
  more than the busiest day's global count.
- `estimate_yield` (`Yield`): for a category and an inclusive date range, the
  summed Weight or Net Sales per animal. It is either one total, or the top
  ten Tier or Item groups ranked largest first.

The generic pieces live in their own modules:

- `Seqs`: row selection, projection and `unique()`.
- `Order`: string order, `sorted(set(...))` and the descending sort.
- `Groups`: `groupby(...).sum()`/`count()`, sums, maximum and quotient.
- `Counts`: the per-(Location, Date) and per-Date counts that the performance
  table and the trend chart both start from.
- `Ledger`: the record types and columns.

Dates are day numbers. Weight and Net Sales are non-negative whole hundredths
of a pound or a dollar. Averages and yields are exact reals, not rounded. The
wall clock (`pd.Timestamp.today()`) is a parameter `today`. Because every ledger
date is a midnight, comparing a date with `now - days` is the same as
comparing day numbers, `date > today - days`.

## Model

| member | source | states |
|---|---|---|
| `Tables.GenerateTable` | sales_app.py:27-40 | a header row of the column names, then exactly `min(len, max_rows)` body rows, none when `max_rows <= 0`; body row i is frame row i |
| `Tables.GenerateTableGrows` | sales_app.py:36-38 | a table with a smaller row limit is a prefix of one with a larger limit |
| `Tables.GenerateTableShowsAll` | sales_app.py:36-38 | with a limit of at least the frame's length, every row is shown in order |
| `Seqs.Filter` | sales_app.py:165 | boolean-mask selection keeps each row's multiplicity when the mask holds and drops it otherwise |
| `Seqs.Unique` | sales_app.py:255 | `unique()` has no duplicates and the same values as its input, in order of first appearance |
| `Order.StrLess` | sales_app.py:178 | Python's `str <`: `a` comes first iff, after some common prefix, `a` ends while `b` goes on or `a` has the smaller code point |
| `Order.SortedSet` | sales_app.py:178 | `sorted(set(s))` is strictly ascending and holds exactly the values of `s` |
| `Order.SortDesc` | sales_app.py:166 | `sort_values(ascending=False)` returns a permutation whose keys do not increase |
| `RecentSales.RecentRows` | sales_app.py:165-166 | the rows kept are a permutation of the ledger rows whose category is chosen, and dates do not increase |
| `RecentSales.UpdateSalesTable` | sales_app.py:164-167 | the ledger header, then the first `min(len, num_rows)` recent rows, each as its seven cells |
| `RecentSales.RecentRowsShown` | sales_app.py:165-167 | every displayed row is in a chosen category, and a row is no older than any row below it |
| `RecentSales.RecentRowsStartWithLatest` | sales_app.py:166 | when some chosen row exists, the first recent row is no older than any chosen ledger row |
| `RecentSales.HeadIsLatest` | sales_app.py:166 | in rows sorted by descending Date, the head is at least as late as every row |
| `RecentSales.UpdateSalesTableNoCategories` | sales_app.py:165-167 | an empty category choice gives only the header row |
| `RecentSales.RecentRowsAllCategories` | sales_app.py:165-166 | choosing every category present re-orders the whole ledger and drops nothing |
| `ItemIndex.ItemsFor` | sales_app.py:176-178 | strictly ascending items; an item is offered iff some ledger row has that category and item |
| `ItemIndex.ItemsForDistinct` | sales_app.py:178 | no item is offered twice |
| `ItemIndex.ItemsForUnknownCategory` | sales_app.py:178 | a category with no rows offers no items |
| `Ledger.DropTier` | sales_app.py:195 | `drop(columns='Tier')` keeps every other column's value |
| `Ledger.DropTierForgetsOnlyTier` | sales_app.py:195 | two records give the same row without Tier exactly when they differ at most in Tier |
| `ItemHistory.ItemRows` | sales_app.py:194-198 | exactly the rows of that category and item, and inside the window (no window: all of them), each with its multiplicity |
| `ItemHistory.FilterToItem` | sales_app.py:194-200 | the history is those rows, in order, with the Tier column dropped |
| `ItemHistory.FilterToItemExact` | sales_app.py:194-198 | every history row matches category, item and window, and every matching ledger row appears in it |
| `ItemHistory.AllTimeKeepsEveryMatch` | sales_app.py:196-199 | a blank look-back keeps every row of the item |
| `ItemHistory.LastDaysDropsOld` | sales_app.py:196-198 | a look-back of N days drops every row dated on or before today - N |
| `ItemHistory.LongerWindowKeepsMore` | sales_app.py:196-198 | a longer look-back keeps every row a shorter one keeps |
| `Counts.DailyCount` | sales_app.py:210-211 | the (Location, Date) count is never more than that day's count over all locations |
| `Counts.DateCount` | sales_app.py:252 | the count of a day over all locations is never more than the number of history rows |
| `Counts.SaleDays` | sales_app.py:210-211 | a location's count groups are its distinct sale dates, ascending |
| `Counts.SaleDaysNonEmpty` | sales_app.py:210-216 | a location has a count group exactly when some row of the history is at that location |
| `Counts.DailyCountOutsideSaleDays` | sales_app.py:210-211 | a day without a sale at the location counts zero |
| `Counts.DailyCountOnSaleDays` | sales_app.py:210-211 | a sale day counts at least one |
| `Performance.DailyCounts` | sales_app.py:210-215 | one count per sale day of the location, the number of its rows on that day |
| `Performance.PeakDays` | sales_app.py:230-232 | the merge on (Location, max) yields at least one day |
| `Performance.DaysWithCountMembers` | sales_app.py:230-232 | joining the counts on a given count keeps exactly the days whose count it is |
| `Performance.PeakDaysMembers` | sales_app.py:230-232 | the merge on (Location, max) yields exactly the sale days whose count equals the maximum |
| `Performance.Summarise` | sales_app.py:214-237 | the aggregated row of a location with a sale day is labelled with that location and has at least one day (its figures: the `Summarise*` lemmas) |
| `Performance.SummariseDays` | sales_app.py:214-218 | "Number of days with at least one sale" is the number of distinct dates at the location |
| `Performance.SummariseTotal` | sales_app.py:214-219 | "Total Sold", the sum of the daily counts, is the number of the location's rows |
| `Performance.SummariseMax` | sales_app.py:214-221 | "Max sold at one market" is at least one, bounds every daily count and is reached on some day |
| `Performance.SummariseMaxDate` | sales_app.py:226-237 | the reported Date has the maximal count, and every day with the maximal count is no later |
| `Performance.SummariseAverage` | sales_app.py:214-220 | the number of days is positive and the average is "Total Sold" divided by it |
| `Performance.Locations` | sales_app.py:214-216 | the location groups are strictly ascending, exactly the history's locations, as many as there are distinct ones |
| `Performance.PerformanceRows` | sales_app.py:214-239 | one row per distinct location of the history |
| `Performance.PerformanceRowsByLocation` | sales_app.py:214-239 | row i is the aggregation of the i-th location in Location order |
| `Performance.PerformanceRowsOrdered` | sales_app.py:214-216 | the rows are in strictly ascending Location order |
| `Performance.PerformanceRowsCover` | sales_app.py:214-216 | every location of the history has its row |
| `Performance.PerformanceRowIsSummary` | sales_app.py:214-237 | each row is of a location present in the history and is the aggregation of that location |
| `Performance.UpdateAggTable` | sales_app.py:206-241 | the performance header, then `min(#locations, 10)` rows of the aggregated locations in order |
| `Performance.UpdateAggTableEmpty` | sales_app.py:206-241 | an empty history gives only the header |
| `Groups.Total` | sales_app.py:313 | `df[col].sum()`: no row's value exceeds the column's sum |
| `Groups.TotalIsSumOfColumn` | sales_app.py:313 | summing a column through its reader is summing the projected column |
| `Groups.GroupSum` | sales_app.py:322 | `groupby(key)[col].sum()` at one group: never more than the column's sum |
| `Groups.Max` | sales_app.py:268 | `max()` of a non-empty column is one of its values and bounds all of them |
| `Groups.GroupSumsPartitionTotal` | sales_app.py:214-219 | group sums over distinct keys that cover every row add up to the column's total |
| `Groups.GroupSumCommutes` | sales_app.py:252-256 | counting location-then-date equals counting date-then-location |
| `Groups.GroupSumOfSelection` | sales_app.py:252-256 | a sub-selection's group sum is at most the whole group sum |
| `Groups.QuotientTimesDivisor` | sales_app.py:220 | the mean times the number of days gives back the total |
| `Groups.QuotientMonotone` | sales_app.py:322-330 | dividing by the same number of animals keeps the order of the group sums |
| `Trends.TraceNames` | sales_app.py:255 | series names are distinct, exactly the history's locations, in first-appearance order |
| `Trends.DailySeries` | sales_app.py:256-258 | one point per sale day of the location, ascending, whose y is that day's row count there |
| `Trends.DailySeriesPoints` | sales_app.py:256-258 | every point counts at least one sale on a day the location sold, and days strictly increase |
| `Trends.AllSaleDays` | sales_app.py:252 | the global count groups are the history's distinct dates, ascending |
| `Trends.GlobalCounts` | sales_app.py:252 | one global count per distinct date, the number of rows that day |
| `Trends.AllSaleDaysNonEmpty` | sales_app.py:251-252 | a non-empty history has a sale day, so `glo_cnts.max()` exists |
| `Trends.SalesTrends` | sales_app.py:247-269 | titled by the first row's item, one series per location in first-appearance order with that location's daily series, y axis top = max global count + 1 |
| `Trends.PointBelowAxisTop` | sales_app.py:256-268 | every location's daily count is below the y axis top |
| `Trends.SeriesBelowAxisTop` | sales_app.py:256-268 | every plotted point lies strictly below the y axis top |
| `Trends.LocationCounts` | sales_app.py:255-256 | per series, its count on a given day |
| `Trends.LocationCountsPartitionDay` | sales_app.py:252-256 | on every day the series' counts add up to the global count |
| `Yield.YieldRows` | sales_app.py:295-297 | exactly the category's rows with start <= Date <= end, each with its multiplicity |
| `Yield.YieldRowsExact` | sales_app.py:295-297 | membership iff in range and category; an inverted range keeps nothing |
| `Yield.ColumnSelects` | sales_app.py:302-306 | "Lbs" selects Weight and "Dollars" selects Net Sales |
| `Yield.GroupTotals` | sales_app.py:322 | one total per distinct key, keys ascending; a key has a total iff some row has it, and the total is its group sum |
| `Yield.Ranked` | sales_app.py:322 | a permutation of the group totals, largest first |
| `Yield.GroupTotalsDistinct` | sales_app.py:322 | the group totals are distinct |
| `Yield.RankedGroup` | sales_app.py:322 | each ranked entry is a group present in the rows with its full group sum |
| `Yield.TopEntries` | sales_app.py:329-330 | the first `min(#groups, 10)` ranked groups, each divided by the number of animals |
| `Yield.EstimateYield` | sales_app.py:288-330 | "Total" gives the column total over n; otherwise the top entries of the chosen grouping |
| `Yield.TopEntriesDistinct` | sales_app.py:322-330 | no two bars show the same group |
| `Yield.TopEntriesCount` | sales_app.py:329-330 | there are `min(#distinct keys, 10)` bars |
| `Yield.TopEntriesValues` | sales_app.py:322-330 | each bar is a group present in the rows, its value the group sum over n |
| `Yield.TopEntriesNonIncreasing` | sales_app.py:322-330 | bar values do not increase |
| `Yield.TopEntriesDominate` | sales_app.py:322-330 | any group left off sums to no more than any bar's group, before and after division |
| `Yield.GroupTotalsPartitionTotal` | sales_app.py:313-322 | the group totals add up to the category's total: the "Total" pie equals the sum of all groups |

## Left out

- The Dash layout, callbacks wiring, `html.*` components and plotly figures
  other than their data (series names, points, y-axis range, bar keys and
  values) are not modelled.
- Reading `encoded_df.csv` and the JSON round trip through the hidden
  `filter-df` element are not modelled; the round trip is taken as the identity.
- `pd.Timestamp.today()` is the parameter `today`.
- `int(num_rows)`, `int(days_back)` and `int(num_animals)` parsing is not
  modelled: the model takes the parsed integers, and the "Look back" input is
  `Window.AllTime` (blank) or `Window.LastDays(n)`. The input is text, so an
  entered "0" is truthy, so a look-back of 0 is not treated as all time: it
  keeps only rows dated after today.
- Rounding to two decimals (`round`, `np.round`) and floating point are not
  modelled; averages and yields are exact quotients.
- NaN cells are not modelled, so `count()` is the number of rows.
- Yield.EstimateYield: requires a positive number of animals; division by zero
  or a negative count is not modelled. Units other than "Lbs"/"Dollars" (where
  `col` would be unbound) cannot be expressed.
- Trends.SalesTrends: requires a non-empty history, since
  `dff['Item'].values[0]` fails on an empty one.
- RecentSales.RecentRows: pandas' default sort is not stable; the contract
  leaves the order of equal dates open, and the body happens to keep ledger
  order. Selection order is stated as a multiset (which rows, how often) rather
  than as ledger order.
- Yield.Ranked: the order of groups with equal totals is likewise left open.
- Performance.SummariseAverage: states the average as the quotient of
  "Total Sold" by the number of days; that the product of the two gives back
  the total is the separate lemma `Groups.QuotientTimesDivisor`.
- The Recent Sales header is `df.columns` of the CSV. The model takes its
  columns to be exactly `Ledger.LEDGER_COLUMNS` in that order; the CSV's own
  header is not part of this model.
- The initial `generate_table(df)` of the layout is `Tables.GenerateTable` with
  its default of ten rows; no separate member.
