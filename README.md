# Order dashboard: cleaning and aggregation, modelled in Dafny

`Data_Analytics_Test.py` is a Streamlit dashboard over a table of customer
orders. Each order has a customer name and id, an order date, an order id, an
order total and a phone number. This project models the dashboard's logic
without Streamlit and pandas:

- `load_data` cleans the table. It removes exact-duplicate rows (keeping the
  first), drops the leading index column, and parses OrderDate, turning a
  date that does not parse into a missing date.
- `human_format` abbreviates a magnitude with an `M` or `k` suffix, or
  returns it unchanged.
- `main` computes five KPIs and several group-and-reduce views: the monthly
  order counts and revenues, a per-customer revenue ranking, the customers
  with more than one distinct order, and revenue per day-of-month,
  month-of-year or year.

Modules, one per component:

- `Orders` (`orders.dfy`): the row types. A raw CSV row is an index plus a
  `Line` whose date is still text. A cleaned `Record` has an optional `Date`.
  `Date` is a subset type of valid Gregorian dates. The module also defines
  the revenue sum and the filter of dated rows.
- `Duplicates` (`duplicates.dfy`): `Dedup` defines keep-first duplicate
  removal. `DropDuplicates` does the same with a loop and a set of rows
  already seen.
- `Loader` (`loader.dfy`): `load_data` in two forms. `LoadData` and
  `LoadAsWritten` run the steps in the source's order. `Load` runs them in
  the corrected order (see Findings). The date parser is a parameter of type
  `string -> Parsed`. Coercion maps `Unparseable` to a missing date.
- `Keys` (`keys.dfy`): group keys (customer name, calendar month, calendar
  sub-unit) and their ascending order. Names use Python's code-point
  lexicographic `str` order. The order is proved to be a strict total order.
- `Grouping` (`grouping.dfy`): pandas `groupby`. Rows are inserted one at a
  time into a key-ordered group list, and rows with a missing key are
  dropped. `Select` is the reference filter "rows with this key". `Aggregate`
  reduces each group with `sum`, `count` or `nunique`.
- `Sorting` (`sorting.dfy`): `sort_values(ascending=False)` as an insertion
  sort. pandas' default sort is not stable, so the contracts promise only
  the outcomes every admissible order shares: a permutation, in
  non-increasing order.
- `Format` (`format.dfy`): `human_format`.
- `Reports` (`reports.dfy`): the KPIs and views. Each view is also stated
  against a reference filter defined directly on the rows: `CustomerRows`,
  `InMonth` and `OnUnit`.

Two facts about the code that shape the model:

- `human_format` compares `num` itself, not its absolute value, so every
  negative value comes back unchanged.
- Duplicates are removed before the index column is dropped (see Findings).

Two quirks of the source are kept:

- The renames at lines 137 and 139 discard their results, so they change
  nothing, and the model has no renamed columns.
- The string `Month` column written at line 129 comes after the monthly
  aggregates, so those aggregates group by the monthly period made at
  line 55.

The calendar sub-unit totals fold, for example, every January of every year
into one month-of-year bucket. This is modelled as written
(`Reports.JanuariesShareABucket`).

## Model

| member | source | states |
|---|---|---|
| `Duplicates.DedupKeepsFirstOccurrences` | Data_Analytics_Test.py:45 | `Dedup` models `drop_duplicates` (keep first); after duplicate removal no two rows are equal, every input row equals some kept row, and the kept rows are in the order of their first occurrences |
| `Duplicates.DedupShrinks` | Data_Analytics_Test.py:45 | duplicate removal never adds rows |
| `Duplicates.DropDuplicates` | Data_Analytics_Test.py:45 | the removal pass, with its set of rows already seen, computes exactly the keep-first result |
| `Loader.LoadData` | Data_Analytics_Test.py:43-50 | computes `LoadAsWritten`, which is `CoerceDates(DropIndex(Dedup(raw)))` (`DropIndex` for line 46, `CoerceDates` for line 49); the cleaned table has one record per deduplicated raw row, in order; the index is dropped and every other column is copied; a date that fails to parse becomes a missing date, that row is kept, and a parsed date is stored as parsed |
| `Loader.IndexDefeatsDeduplication` | Data_Analytics_Test.py:44-46 | as written, two CSV rows that differ only in the index column both survive, so the order line appears twice and its total is counted twice; the corrected order keeps it once |
| `Loader.CorrectedLoadDeduplicates` | Data_Analytics_Test.py:45-49 | about `Loader.Load`, which is `CoerceDates(Dedup(DropIndex(raw)))`: with the index dropped before deduplication, no order line is kept twice, every input line is kept, and coercion builds exactly one record per kept line |
| `Keys.KeyLessTotal` | Data_Analytics_Test.py:72 | the ascending key order of groupby (Python string order for names, chronological for months) relates any two different keys |
| `Keys.KeyLessTransitive` | Data_Analytics_Test.py:72 | that key order is transitive |
| `Grouping.GroupByKeys` | Data_Analytics_Test.py:72 | `GroupBy` models `groupby` (sorted keys, missing keys dropped); it lists each key present in the table exactly once, in strictly ascending key order |
| `Grouping.GroupByRows` | Data_Analytics_Test.py:102 | the group under each key holds exactly the table's rows with that key, in table order; the rows for any other key are empty |
| `Grouping.GroupByTotals` | Data_Analytics_Test.py:95 | the group sums add up to the revenue of the rows that have a key, and the group counts add up to the number of those rows |
| `Grouping.View` | Data_Analytics_Test.py:119 | `Aggregate(GroupBy(t, col), red)` models the `groupby(col)[column].sum()/count()/nunique()` chains; such a column has ascending keys, one bucket per key present, and a bucket is in it exactly when its value reduces the table's rows with its key |
| `Grouping.KeyedRows` | Data_Analytics_Test.py:132-134 | every row has a customer key; the rows with a date-based key are exactly the dated rows, so missing dates are the rows groupby drops |
| `Sorting.SortDescFacts` | Data_Analytics_Test.py:104 | `SortDesc`, the model of `sort_values(ascending=False)`, returns a permutation of its input, ordered by non-increasing value, with the same total and with distinct keys kept distinct |
| `Format.HumanFormat` | Data_Analytics_Test.py:57-63 | values of at least 1 000 000 get `M` with the value divided by a million; values from 1 000 up to a million get `k` with the scaled value in [1, 1000); all other values, every negative value included, come back unchanged; reading the display back gives the original magnitude |
| `Format.HumanFormatSamples` | Data_Analytics_Test.py:57-63 | 999 stays 999, 1500 becomes 1.5 thousands, 2 300 000 becomes 2.3 millions, and a negative value stays unchanged |
| `Reports.AverageOrderValue` | Data_Analytics_Test.py:67 | `total_orders_average`: the mean order value is missing exactly when the table is empty; otherwise it times the row count equals the total revenue |
| `Reports.OrdersPerCustomerIsRatio` | Data_Analytics_Test.py:66-69 | about `OrdersCount` (`total_orders_count`), `CustomersCount` (`customers_count`) and `OrdersPerCustomer` (`total_orders_per_customer`): the per-customer order counts sum to `OrdersCount` and there are `CustomersCount` of them; so `OrdersPerCustomer` equals `OrdersCount` over `CustomersCount`, which is positive on a non-empty table, and the mean is missing on an empty one |
| `Reports.CustomerKeysCount` | Data_Analytics_Test.py:69 | the customer group keys are exactly the distinct customer names, and there are as many of them as `customers_count` |
| `Reports.CustomerView` | Data_Analytics_Test.py:68 | grouped by customer name, there is one bucket per distinct name, in ascending name order, reducing exactly that customer's rows |
| `Reports.PeriodView` | Data_Analytics_Test.py:71-72 | grouped by calendar month, a bucket exists exactly for the months that have a dated row; it reduces that month's dated rows; its month is in 1..12 |
| `Reports.UnitView` | Data_Analytics_Test.py:132-134 | grouped by a calendar sub-unit, a bucket exists exactly for the values that unit takes among the dated rows; it reduces every dated row with that value whatever the rest of its date; days are in 1..31 and months in 1..12 |
| `Reports.MonthlyOrders` | Data_Analytics_Test.py:71-77 | `OrdersPerMonth` is `orders_per_month`: the monthly order counts have strictly ascending (year, month) keys; each counts that month's dated rows and is at least 1; undated rows are excluded, so the counts sum to the number of dated rows |
| `Reports.MonthlyRevenues` | Data_Analytics_Test.py:95 | `RevenuesPerMonth` is `revenues_per_month`: the monthly revenues have strictly ascending (year, month) keys; each is that month's dated revenue; the buckets sum to the revenue of the dated rows |
| `Reports.RankingFacts` | Data_Analytics_Test.py:101-107 | `TopClients` is `top_10_clients`: the customer ranking lists every distinct customer exactly once, so its length is `customers_count`; it is non-increasing in revenue; each entry is that customer's revenue; the entries sum to `TotalRevenue` (`total_revenues`) |
| `Reports.RepeatersFacts` | Data_Analytics_Test.py:120 | `Repeaters` is the mask; it keeps exactly the buckets whose value exceeds 1, and keeps ascending keys ascending |
| `Reports.OrderIdsBound` | Data_Analytics_Test.py:119 | a group of rows has no more distinct order ids than rows |
| `Reports.BestCustomersFacts` | Data_Analytics_Test.py:119-124 | `BestCustomers` is `our_best_customers_df`: the table contains exactly the customers whose distinct OrderID count exceeds 1, each once and with that count; every count is between 2 and the customer's row count; the table is non-increasing by count |
| `Reports.CalendarTotals` | Data_Analytics_Test.py:132-134 | `TotalPer(t, Day)`, `TotalPer(t, Month)` and `TotalPer(t, Year)` are `total_per_day`, `total_per_month` and `total_per_year`: the per-day, per-month and per-year totals have strictly ascending numeric keys, days in 1..31 and months in 1..12; each bucket sums all dated rows with that sub-unit regardless of year; the buckets sum to the revenue of the dated rows |
| `Reports.JanuariesShareABucket` | Data_Analytics_Test.py:133 | two January orders of different years fall into the single month-of-year bucket 1, which holds their combined total |

## Findings

| source | as written | input that shows it | evidently intended | confidence | as-written member | corrected member |
|---|---|---|---|---|---|---|
| Data_Analytics_Test.py:45-46 | duplicates are removed while the leading index column is still present, and only then is the index dropped | two CSV rows with indexes 0 and 1 and identical order columns (as `DataFrame.to_csv` writes a unique index); both survive, and `total_revenues` counts the order total twice | drop the index column first, then remove duplicate rows, so that repeated order lines count once | medium: depends on the file's index column being unique, as pandas writes it; not executed | `Loader.IndexDefeatsDeduplication` | `Loader.CorrectedLoadDeduplicates` |

`Loader.LoadData` and `Loader.LoadAsWritten` keep the source's order of
steps. `Loader.Load` is the corrected order. The reports take any cleaned
table, so they hold for either.

## Left out

- Streamlit: titles, metrics, dividers, dataframes, charts, the sidebar form
  and the branch that shows one of the three calendar tables (lines 80-91,
  98, 109-126, 145-161). The Day/Month/Year choice is the `unit` argument of
  `Reports.TotalPer`.
- `@st.cache_data` memoization of `load_data` (line 42): it is framework
  caching, not logic.
- Reading the CSV file (line 44): the raw rows are an input sequence. A
  missing file or missing columns raise errors that are not modelled.
- The display settings `pd.set_option` (lines 47-48): they have no effect
  on the data.
- The parsing rules of `pd.to_datetime`: the parser is a parameter. Time of
  day and the bounds of pandas timestamps are not modelled, and a parsed
  date is a calendar date.
- The commented-out SQL Server code and the unused imports (lines 1-40).
- The `.1f` rendering and the `$` prefix in `human_format`: the model keeps
  the branch taken and the scaled value, not the digits.
- The `int()` display truncation of orders per customer (line 85).
- The string columns `Date`, `Month` and `Year` (lines 128-130): they feed
  nothing. So do the renames whose results are discarded (lines 137, 139).
- Converting month periods to timestamps for charts (lines 77, 97): the model
  keys each month by (year, month).
- Floating point: OrderTotal is an exact integer, taken in the smallest
  currency unit, and the means are exact reals. pandas' float sums and NaN
  means are not modelled. An empty table's means are `None`.
- Missing CustomerName, OrderID or OrderTotal values: every record has all
  three. pandas would skip them in `count`, `sum` and `groupby`.
- `Reports.RankingFacts`: the order among customers with equal revenue is
  not stated, because pandas' default sort is not stable. The insertion
  sort in `Sorting.SortDesc` is one admissible order.
- `Reports.BestCustomersFacts`: the order among equal counts is unstated
  for the same reason.
