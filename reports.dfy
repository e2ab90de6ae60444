/** The figures `main` derives from the cleaned table: the five KPIs, the
    monthly series, the customer ranking, the repeat customers, and the
    revenue per calendar sub-unit that the sidebar's Date Filter chooses
    among. Each is a function of the table; none changes it. */
module Reports {
  import opened Orders
  import opened Keys
  import opened Grouping
  import opened Sorting

  // ---------------------------------------------------------------------
  // Reference definitions, stated directly on the rows. `CustomerRows`,
  // `InMonth` and `OnUnit` are each the filter `Grouping.Select` specialised
  // to one grouping column and written out in the report's own terms, so
  // that the report lemmas read without the key encoding; `CustomerSelect`,
  // `MonthSelect` and `UnitSelect` prove each equal to `Select`.

  /** The distinct customer names (`nunique` of CustomerName). */
  function NameSet(t: seq<Record>): set<string> {
    set r | r in t :: r.customerName
  }

  /** The rows of one customer, in table order. */
  function CustomerRows(t: seq<Record>, name: string): seq<Record> {
    if t == [] then []
    else CustomerRows(t[..|t| - 1], name) + (if t[|t| - 1].customerName == name then [t[|t| - 1]] else [])
  }

  /** The dated rows of one calendar month of one year. */
  function InMonth(t: seq<Record>, year: int, month: int): seq<Record> {
    if t == [] then []
    else
      var r := t[|t| - 1];
      InMonth(t[..|t| - 1], year, month) +
        (if r.orderDate.Some? && r.orderDate.value.year == year && r.orderDate.value.month == month
         then [r] else [])
  }

  /** The dated rows whose day, month or year is n, whatever the rest of their date. */
  function OnUnit(t: seq<Record>, unit: Unit, n: int): seq<Record> {
    if t == [] then []
    else
      var r := t[|t| - 1];
      OnUnit(t[..|t| - 1], unit, n) + (if r.orderDate.Some? && UnitOf(unit, r.orderDate.value) == n then [r] else [])
  }

  function Mean(sum: int, n: nat): Option<real> {
    if n == 0 then None else Some(sum as real / n as real)
  }

  // ---------------------------------------------------------------------
  // KPIs

  /** `total_revenues`. */
  function TotalRevenue(t: seq<Record>): int {
    Revenue(t)
  }

  /** `total_orders_count`: every row has an OrderID, so `count()` counts the rows. */
  function OrdersCount(t: seq<Record>): nat {
    |t|
  }

  /** `customers_count`. */
  function CustomersCount(t: seq<Record>): nat {
    |NameSet(t)|
  }

  /** `total_orders_average`: the mean OrderTotal; None on an empty table
      (where pandas yields NaN). */
  function AverageOrderValue(t: seq<Record>): (m: Option<real>)
    ensures m.None? <==> t == []
    ensures m.Some? ==> m.value * (|t| as real) == TotalRevenue(t) as real
  {
    Mean(Revenue(t), |t|)
  }

  /** The per-customer OrderID counts, grouped by CustomerName. */
  function OrdersPerCustomerCounts(t: seq<Record>): seq<Bucket> {
    Aggregate(GroupBy(t, ByCustomer), Count)
  }

  /** `total_orders_per_customer`: the mean of the per-customer counts. */
  function OrdersPerCustomer(t: seq<Record>): Option<real> {
    var counts := OrdersPerCustomerCounts(t);
    Mean(Total(counts), |counts|)
  }

  // ---------------------------------------------------------------------
  // Group-and-reduce views

  /** `orders_per_month`: rows per calendar month, months ascending. */
  function OrdersPerMonth(t: seq<Record>): seq<Bucket> {
    Aggregate(GroupBy(t, ByPeriod), Count)
  }

  /** `revenues_per_month`: OrderTotal per calendar month, months ascending. */
  function RevenuesPerMonth(t: seq<Record>): seq<Bucket> {
    Aggregate(GroupBy(t, ByPeriod), Sum)
  }

  /** `top_10_clients`: revenue per customer, largest first, every customer listed. */
  function TopClients(t: seq<Record>): seq<Bucket> {
    SortDesc(Aggregate(GroupBy(t, ByCustomer), Sum))
  }

  /** The boolean mask on `customers_orders` that keeps counts above one. */
  function Repeaters(bs: seq<Bucket>): seq<Bucket> {
    if bs == [] then []
    else (if bs[0].value > 1 then [bs[0]] else []) + Repeaters(bs[1..])
  }

  /** `our_best_customers_df`: customers with more than one distinct OrderID, most orders first. */
  function BestCustomers(t: seq<Record>): seq<Bucket> {
    SortDesc(Repeaters(Aggregate(GroupBy(t, ByCustomer), NUnique)))
  }

  /** `total_per_day`, `total_per_month` and `total_per_year`, chosen by the
      sidebar's Date Filter: OrderTotal per day-of-month, month-of-year or year. */
  function TotalPer(t: seq<Record>, unit: Unit): seq<Bucket> {
    Aggregate(GroupBy(t, ByCalendar(unit)), Sum)
  }

  // ---------------------------------------------------------------------
  // The groupings' rows agree with the reference definitions

  lemma {:induction false} CustomerSelect(t: seq<Record>, name: string)
    ensures Select(t, ByCustomer, Name(name)) == CustomerRows(t, name)
  {
    if t != [] {
      CustomerSelect(t[..|t| - 1], name);
    }
  }

  lemma {:induction false} MonthSelect(t: seq<Record>, year: int, month: int)
    ensures Select(t, ByPeriod, Period(year, month)) == InMonth(t, year, month)
  {
    if t != [] {
      MonthSelect(t[..|t| - 1], year, month);
    }
  }

  lemma {:induction false} UnitSelect(t: seq<Record>, unit: Unit, n: int)
    ensures Select(t, ByCalendar(unit), Sub(n)) == OnUnit(t, unit, n)
  {
    if t != [] {
      UnitSelect(t[..|t| - 1], unit, n);
    }
  }

  /** Customer keys correspond one-to-one with customer names. */
  lemma {:induction false} CustomerKeysCount(t: seq<Record>)
    ensures |KeysOf(t, ByCustomer)| == CustomersCount(t)
    ensures forall k :: k in KeysOf(t, ByCustomer) <==> k.Name? && k.name in NameSet(t)
  {
    if t == [] {
      assert KeysOf(t, ByCustomer) == {};
      assert NameSet(t) == {};
    } else {
      var p, r := t[..|t| - 1], t[|t| - 1];
      CustomerKeysCount(p);
      KeysOfSnoc(t, ByCustomer);
      assert t == p + [r];
      assert NameSet(t) == NameSet(p) + {r.customerName} by {
        forall n | n in NameSet(t) ensures n in NameSet(p) + {r.customerName} {
          var s :| s in t && s.customerName == n;
          if s != r { assert s in p; }
        }
        forall n | n in NameSet(p) ensures n in NameSet(t) {
          var s :| s in p && s.customerName == n;
          assert s in t;
        }
        assert r in t;
      }
      if r.customerName in NameSet(p) {
        assert NameSet(p) + {r.customerName} == NameSet(p);
        assert KeysOf(p, ByCustomer) + {Name(r.customerName)} == KeysOf(p, ByCustomer);
      } else {
        CardAddOne(NameSet(p), r.customerName);
        CardAddOne(KeysOf(p, ByCustomer), Name(r.customerName));
      }
    }
  }

  // ---------------------------------------------------------------------
  // Properties of the KPIs

  /** The per-customer counts add up to `total_orders_count`, there is one
      per customer, and so their mean is orders over customers; on an empty
      table there are no customers and no mean. */
  lemma OrdersPerCustomerIsRatio(t: seq<Record>)
    ensures Total(OrdersPerCustomerCounts(t)) == OrdersCount(t)
    ensures |OrdersPerCustomerCounts(t)| == CustomersCount(t)
    ensures t != [] ==> CustomersCount(t) > 0
    ensures OrdersPerCustomer(t) == Mean(OrdersCount(t), CustomersCount(t))
  {
    GroupByTotals(t, ByCustomer);
    KeyedRows(t, ByCustomer);
    View(t, ByCustomer, Count);
    CustomerKeysCount(t);
    if t != [] {
      assert t[0].customerName in NameSet(t);
    }
  }

  // ---------------------------------------------------------------------
  // Each grouping in terms of the reference definitions

  /** Grouped by calendar month, a bucket exists exactly for the months with
      a dated row, and it reduces that month's dated rows. */
  lemma PeriodView(t: seq<Record>, red: Reducer)
    ensures AscendingKeys(Aggregate(GroupBy(t, ByPeriod), red))
    ensures forall b :: b in Aggregate(GroupBy(t, ByPeriod), red) <==>
      b.key.Period? && InMonth(t, b.key.year, b.key.month) != [] &&
      b.value == Reduce(red, InMonth(t, b.key.year, b.key.month))
    ensures forall b :: b in Aggregate(GroupBy(t, ByPeriod), red) ==> 1 <= b.key.month <= 12
  {
    var bs := Aggregate(GroupBy(t, ByPeriod), red);
    View(t, ByPeriod, red);
    forall b
      ensures b in bs <==>
        b.key.Period? && InMonth(t, b.key.year, b.key.month) != [] &&
        b.value == Reduce(red, InMonth(t, b.key.year, b.key.month))
      ensures b in bs ==> 1 <= b.key.month <= 12
    {
      SelectPresent(t, ByPeriod, b.key);
      if b.key.Period? {
        MonthSelect(t, b.key.year, b.key.month);
      }
      if b in bs {
        var r :| r in t && KeyOf(ByPeriod, r).Some? && KeyOf(ByPeriod, r).value == b.key;
      }
    }
  }

  /** Grouped by a calendar sub-unit, a bucket exists exactly for the values
      of that unit among the dated rows, and it reduces all dated rows with
      that value, whatever the rest of their date. */
  lemma UnitView(t: seq<Record>, unit: Unit, red: Reducer)
    ensures AscendingKeys(Aggregate(GroupBy(t, ByCalendar(unit)), red))
    ensures forall b :: b in Aggregate(GroupBy(t, ByCalendar(unit)), red) <==>
      b.key.Sub? && OnUnit(t, unit, b.key.n) != [] && b.value == Reduce(red, OnUnit(t, unit, b.key.n))
    ensures forall b :: b in Aggregate(GroupBy(t, ByCalendar(unit)), red) ==>
      (unit == Day ==> 1 <= b.key.n <= 31) && (unit == Month ==> 1 <= b.key.n <= 12)
  {
    var bs := Aggregate(GroupBy(t, ByCalendar(unit)), red);
    View(t, ByCalendar(unit), red);
    forall b
      ensures b in bs <==>
        b.key.Sub? && OnUnit(t, unit, b.key.n) != [] && b.value == Reduce(red, OnUnit(t, unit, b.key.n))
      ensures b in bs ==> (unit == Day ==> 1 <= b.key.n <= 31) && (unit == Month ==> 1 <= b.key.n <= 12)
    {
      SelectPresent(t, ByCalendar(unit), b.key);
      if b.key.Sub? {
        UnitSelect(t, unit, b.key.n);
      }
      if b in bs {
        var r :| r in t && KeyOf(ByCalendar(unit), r).Some? && KeyOf(ByCalendar(unit), r).value == b.key;
      }
    }
  }

  /** Grouped by customer, there is one bucket per customer name, and it
      reduces that customer's rows. */
  lemma CustomerView(t: seq<Record>, red: Reducer)
    ensures AscendingKeys(Aggregate(GroupBy(t, ByCustomer), red))
    ensures |Aggregate(GroupBy(t, ByCustomer), red)| == CustomersCount(t)
    ensures forall b :: b in Aggregate(GroupBy(t, ByCustomer), red) <==>
      b.key.Name? && b.key.name in NameSet(t) && b.value == Reduce(red, CustomerRows(t, b.key.name))
  {
    View(t, ByCustomer, red);
    CustomerKeysCount(t);
    forall k: Key | k.Name? ensures Select(t, ByCustomer, k) == CustomerRows(t, k.name) {
      CustomerSelect(t, k.name);
    }
  }

  // ---------------------------------------------------------------------
  // Properties of the views

  /** The monthly order counts: each month that has a dated row appears
      once, months ascending, with the number of that month's dated rows;
      undated rows are left out, so the counts add up to the dated rows. */
  lemma MonthlyOrders(t: seq<Record>)
    ensures AscendingKeys(OrdersPerMonth(t))
    ensures forall b :: b in OrdersPerMonth(t) <==>
      b.key.Period? && InMonth(t, b.key.year, b.key.month) != [] &&
      b.value == |InMonth(t, b.key.year, b.key.month)|
    ensures forall b :: b in OrdersPerMonth(t) ==> 1 <= b.key.month <= 12 && b.value >= 1
    ensures Total(OrdersPerMonth(t)) == |Dated(t)|
  {
    PeriodView(t, Count);
    GroupByTotals(t, ByPeriod);
    KeyedRows(t, ByPeriod);
  }

  /** The monthly revenues: the same months, each with the revenue of that
      month's dated rows; the buckets add up to the revenue of the dated rows. */
  lemma MonthlyRevenues(t: seq<Record>)
    ensures AscendingKeys(RevenuesPerMonth(t))
    ensures forall b :: b in RevenuesPerMonth(t) <==>
      b.key.Period? && InMonth(t, b.key.year, b.key.month) != [] &&
      b.value == Revenue(InMonth(t, b.key.year, b.key.month))
    ensures forall b :: b in RevenuesPerMonth(t) ==> 1 <= b.key.month <= 12
    ensures Total(RevenuesPerMonth(t)) == Revenue(Dated(t))
  {
    PeriodView(t, Sum);
    GroupByTotals(t, ByPeriod);
    KeyedRows(t, ByPeriod);
  }

  /** The ranking lists every customer exactly once, so it is as long as
      `customers_count`; it is ordered by non-increasing revenue; each entry
      is that customer's revenue; and the entries add up to `total_revenues`. */
  lemma RankingFacts(t: seq<Record>)
    ensures |TopClients(t)| == CustomersCount(t)
    ensures DistinctKeys(TopClients(t))
    ensures NonIncreasing(TopClients(t))
    ensures forall b :: b in TopClients(t) <==>
      b.key.Name? && b.key.name in NameSet(t) && b.value == Revenue(CustomerRows(t, b.key.name))
    ensures Total(TopClients(t)) == TotalRevenue(t)
  {
    var bs := Aggregate(GroupBy(t, ByCustomer), Sum);
    CustomerView(t, Sum);
    GroupByTotals(t, ByCustomer);
    KeyedRows(t, ByCustomer);
    AscendingDistinct(bs);
    SortDescFacts(bs);
  }

  lemma {:induction false} RepeatersFacts(bs: seq<Bucket>)
    ensures forall b :: b in Repeaters(bs) <==> b in bs && b.value > 1
    ensures AscendingKeys(bs) ==> AscendingKeys(Repeaters(bs))
  {
    if bs != [] {
      var rest := Repeaters(bs[1..]);
      RepeatersFacts(bs[1..]);
      assert bs == [bs[0]] + bs[1..];
      if AscendingKeys(bs) && bs[0].value > 1 {
        assert AscendingKeys(bs[1..]) by {
          forall i, j | 0 <= i < j < |bs[1..]| ensures KeyLess(bs[1..][i].key, bs[1..][j].key) {
            assert bs[1..][i] == bs[i + 1] && bs[1..][j] == bs[j + 1];
          }
        }
        forall i, j | 0 <= i < j < |[bs[0]] + rest|
          ensures KeyLess(([bs[0]] + rest)[i].key, ([bs[0]] + rest)[j].key)
        {
          if i == 0 {
            assert rest[j - 1] in rest;
            var m :| 0 <= m < |bs[1..]| && bs[1..][m] == rest[j - 1];
            assert bs[m + 1] == rest[j - 1];
          }
        }
      } else if AscendingKeys(bs) {
        assert AscendingKeys(bs[1..]) by {
          forall i, j | 0 <= i < j < |bs[1..]| ensures KeyLess(bs[1..][i].key, bs[1..][j].key) {
            assert bs[1..][i] == bs[i + 1] && bs[1..][j] == bs[j + 1];
          }
        }
      }
    }
  }

  lemma {:induction false} OrderIdsBound(rows: seq<Record>)
    ensures |OrderIds(rows)| <= |rows|
  {
    if rows != [] {
      var p, r := rows[..|rows| - 1], rows[|rows| - 1];
      OrderIdsBound(p);
      assert rows == p + [r];
      assert OrderIds(rows) == OrderIds(p) + {r.orderId} by {
        forall x | x in OrderIds(rows) ensures x in OrderIds(p) + {r.orderId} {
          var s :| s in rows && s.orderId == x;
          if s != r { assert s in p; }
        }
        forall x | x in OrderIds(p) ensures x in OrderIds(rows) {
          var s :| s in p && s.orderId == x;
          assert s in rows;
        }
        assert r in rows;
      }
      if r.orderId in OrderIds(p) {
        assert OrderIds(p) + {r.orderId} == OrderIds(p);
      } else {
        CardAddOne(OrderIds(p), r.orderId);
      }
    }
  }

  /** The repeat customers are exactly the customers with more than one
      distinct OrderID, each once, with that count, which is at least 2 and
      at most the customer's row count, ordered by non-increasing count. */
  lemma BestCustomersFacts(t: seq<Record>)
    ensures forall b :: b in BestCustomers(t) <==>
      b.key.Name? && b.key.name in NameSet(t) &&
      b.value == |OrderIds(CustomerRows(t, b.key.name))| && b.value > 1
    ensures forall b :: b in BestCustomers(t) ==> 2 <= b.value <= |CustomerRows(t, b.key.name)|
    ensures DistinctKeys(BestCustomers(t))
    ensures NonIncreasing(BestCustomers(t))
  {
    var bs := Aggregate(GroupBy(t, ByCustomer), NUnique);
    CustomerView(t, NUnique);
    RepeatersFacts(bs);
    AscendingDistinct(Repeaters(bs));
    SortDescFacts(Repeaters(bs));
    forall b | b in BestCustomers(t) ensures b.value <= |CustomerRows(t, b.key.name)| {
      OrderIdsBound(CustomerRows(t, b.key.name));
    }
  }

  /** The per-unit totals list each day-of-month (1 to 31), month-of-year
      (1 to 12) or year present among the dated rows exactly once, in
      ascending order; each bucket sums every dated row with that unit
      whatever its other date parts, so every January of every year shares
      one bucket; and the buckets add up to the revenue of the dated rows. */
  lemma CalendarTotals(t: seq<Record>, unit: Unit)
    ensures forall i, j :: 0 <= i < j < |TotalPer(t, unit)| ==>
      TotalPer(t, unit)[i].key.Sub? && TotalPer(t, unit)[j].key.Sub? &&
      TotalPer(t, unit)[i].key.n < TotalPer(t, unit)[j].key.n
    ensures forall b :: b in TotalPer(t, unit) <==>
      b.key.Sub? && OnUnit(t, unit, b.key.n) != [] && b.value == Revenue(OnUnit(t, unit, b.key.n))
    ensures unit == Day ==> forall b :: b in TotalPer(t, unit) ==> 1 <= b.key.n <= 31
    ensures unit == Month ==> forall b :: b in TotalPer(t, unit) ==> 1 <= b.key.n <= 12
    ensures Total(TotalPer(t, unit)) == Revenue(Dated(t))
  {
    var bs := TotalPer(t, unit);
    UnitView(t, unit, Sum);
    GroupByTotals(t, ByCalendar(unit));
    KeyedRows(t, ByCalendar(unit));
    forall i | 0 <= i < |bs| ensures bs[i].key.Sub? {
      assert bs[i] in bs;
    }
  }

  /** Two January orders of different years fall into one month-of-year bucket. */
  lemma JanuariesShareABucket(a: Record, b: Record)
    requires a.orderDate == Some(Ymd(2023, 1, 5)) && b.orderDate == Some(Ymd(2024, 1, 20))
    ensures TotalPer([a, b], Month) == [Bucket(Sub(1), a.orderTotal + b.orderTotal)]
  {
    var t := [a, b];
    assert t[..1] == [a] && [a][..0] == [];
    assert KeyOf(ByCalendar(Month), a) == Some(Sub(1));
    assert KeyOf(ByCalendar(Month), b) == Some(Sub(1));
    assert GroupBy([a], ByCalendar(Month)) == [Group(Sub(1), [a])];
    assert GroupBy(t, ByCalendar(Month)) == Insert([Group(Sub(1), [a])], Sub(1), b);
    assert [a] + [b] == [a, b];
    assert GroupBy(t, ByCalendar(Month)) == [Group(Sub(1), [a, b])];
    assert [a, b][..1] == [a];
    assert Revenue([a]) == a.orderTotal;
    assert Revenue([a, b]) == a.orderTotal + b.orderTotal;
    assert Aggregate([Group(Sub(1), [a, b])], Sum) == [Bucket(Sub(1), Revenue([a, b]))];
  }
}
