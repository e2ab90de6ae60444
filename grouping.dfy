/** pandas `groupby` followed by a column reduction: rows are gathered into one
    group per key, groups are listed by ascending key, rows whose key is
    missing are dropped, and each group is reduced to one value. */
module Grouping {
  import opened Orders
  import opened Keys

  /** The sidebar's Date Filter choices; each names a calendar sub-unit. */
  datatype Unit = Day | Month | Year

  /** The grouping columns the dashboard uses. */
  datatype By = ByCustomer | ByPeriod | ByCalendar(unit: Unit)

  function UnitOf(unit: Unit, d: Date): int {
    match unit
    case Day => d.day
    case Month => d.month
    case Year => d.year
  }

  /** The group key of a row; None when the key is missing (a missing date). */
  function KeyOf(col: By, r: Record): Option<Key> {
    match col
    case ByCustomer => Some(Name(r.customerName))
    case ByPeriod =>
      if r.orderDate.Some? then Some(Period(r.orderDate.value.year, r.orderDate.value.month)) else None
    case ByCalendar(unit) =>
      if r.orderDate.Some? then Some(Sub(UnitOf(unit, r.orderDate.value))) else None
  }

  datatype Group = Group(key: Key, rows: seq<Record>)

  predicate Ascending(gs: seq<Group>) {
    forall i, j :: 0 <= i < j < |gs| ==> KeyLess(gs[i].key, gs[j].key)
  }

  function GroupKeys(gs: seq<Group>): set<Key> {
    set g | g in gs :: g.key
  }

  /** The rows held under key k (none when there is no such group). */
  function RowsOf(gs: seq<Group>, k: Key): seq<Record> {
    if gs == [] then [] else if gs[0].key == k then gs[0].rows else RowsOf(gs[1..], k)
  }

  /** Adds row r under key k, keeping the groups in ascending key order. */
  function Insert(gs: seq<Group>, k: Key, r: Record): seq<Group> {
    if gs == [] then [Group(k, [r])]
    else if gs[0].key == k then [Group(k, gs[0].rows + [r])] + gs[1..]
    else if KeyLess(k, gs[0].key) then [Group(k, [r])] + gs
    else [gs[0]] + Insert(gs[1..], k, r)
  }

  /** `groupby`: the groups after adding the rows in table order. */
  function GroupBy(t: seq<Record>, col: By): seq<Group> {
    if t == [] then []
    else
      var gs := GroupBy(t[..|t| - 1], col);
      match KeyOf(col, t[|t| - 1])
      case None => gs
      case Some(k) => Insert(gs, k, t[|t| - 1])
  }

  /** The rows of t whose key is k, in table order. */
  function Select(t: seq<Record>, col: By, k: Key): seq<Record> {
    if t == [] then []
    else Select(t[..|t| - 1], col, k) + (if KeyOf(col, t[|t| - 1]) == Some(k) then [t[|t| - 1]] else [])
  }

  /** The rows of t that have a key. */
  function Keyed(t: seq<Record>, col: By): seq<Record> {
    if t == [] then []
    else Keyed(t[..|t| - 1], col) + (if KeyOf(col, t[|t| - 1]).Some? then [t[|t| - 1]] else [])
  }

  /** The distinct keys present in t. */
  function KeysOf(t: seq<Record>, col: By): set<Key> {
    set r | r in t && KeyOf(col, r).Some? :: KeyOf(col, r).value
  }

  function OrderIds(rows: seq<Record>): set<int> {
    set r | r in rows :: r.orderId
  }

  /** `.sum()` of OrderTotal, `.count()` of OrderID, `.nunique()` of OrderID. */
  datatype Reducer = Sum | Count | NUnique

  function Reduce(red: Reducer, rows: seq<Record>): int {
    match red
    case Sum => Revenue(rows)
    case Count => |rows|
    case NUnique => |OrderIds(rows)|
  }

  /** One row of a grouped result: the key and its reduced value. */
  datatype Bucket = Bucket(key: Key, value: int)

  /** The reduced groups, in the groups' order. */
  function Aggregate(gs: seq<Group>, red: Reducer): seq<Bucket> {
    if gs == [] then [] else [Bucket(gs[0].key, Reduce(red, gs[0].rows))] + Aggregate(gs[1..], red)
  }

  function Total(bs: seq<Bucket>): int {
    if bs == [] then 0 else bs[0].value + Total(bs[1..])
  }

  predicate AscendingKeys(bs: seq<Bucket>) {
    forall i, j :: 0 <= i < j < |bs| ==> KeyLess(bs[i].key, bs[j].key)
  }

  // ---------------------------------------------------------------------
  // Facts about the group list

  lemma HeadBelowRest(gs: seq<Group>)
    requires gs != [] && Ascending(gs)
    ensures forall y :: y in GroupKeys(gs[1..]) ==> KeyLess(gs[0].key, y)
  {
    forall y | y in GroupKeys(gs[1..]) ensures KeyLess(gs[0].key, y) {
      var g :| g in gs[1..] && g.key == y;
      var i :| 0 <= i < |gs[1..]| && gs[1..][i] == g;
      assert gs[i + 1] == g;
    }
  }

  lemma AscendingCons(g: Group, gs: seq<Group>)
    requires Ascending(gs)
    requires forall y :: y in GroupKeys(gs) ==> KeyLess(g.key, y)
    ensures Ascending([g] + gs)
  {
    forall i, j | 0 <= i < j < |[g] + gs| ensures KeyLess(([g] + gs)[i].key, ([g] + gs)[j].key) {
      if i == 0 {
        assert gs[j - 1] in gs;
      }
    }
  }

  lemma RowsOfAbsent(gs: seq<Group>, k: Key)
    requires k !in GroupKeys(gs)
    ensures RowsOf(gs, k) == []
  {
    if gs != [] {
      assert gs[0] in gs;
      assert GroupKeys(gs[1..]) <= GroupKeys(gs) by {
        forall y | y in GroupKeys(gs[1..]) ensures y in GroupKeys(gs) {
          var g :| g in gs[1..] && g.key == y;
          assert g in gs;
        }
      }
      RowsOfAbsent(gs[1..], k);
    }
  }

  /** In an ascending group list, each group's key finds that group's rows. */
  lemma {:induction false} RowsOfAt(gs: seq<Group>, i: nat)
    requires Ascending(gs) && i < |gs|
    ensures RowsOf(gs, gs[i].key) == gs[i].rows
  {
    if i > 0 {
      KeyLessIrreflexive(gs[0].key);
      assert gs[0].key != gs[i].key;
      assert gs[1..][i - 1] == gs[i];
      RowsOfAt(gs[1..], i - 1);
    }
  }

  lemma GroupKeysCons(g: Group, gs: seq<Group>)
    ensures GroupKeys([g] + gs) == {g.key} + GroupKeys(gs)
  {
    var a := [g] + gs;
    forall y | y in GroupKeys(a) ensures y in {g.key} + GroupKeys(gs) {
      var h :| h in a && h.key == y;
      if h != g { assert h in gs; }
    }
    forall y | y in GroupKeys(gs) ensures y in GroupKeys(a) {
      var h :| h in gs && h.key == y;
      assert h in a;
    }
    assert g in a;
  }

  /** A key below the first key of an ascending list is not in the list. */
  lemma AbsentBelowHead(gs: seq<Group>, k: Key)
    requires gs != [] && Ascending(gs) && KeyLess(k, gs[0].key)
    ensures k !in GroupKeys(gs)
  {
    GroupKeysCons(gs[0], gs[1..]);
    assert gs == [gs[0]] + gs[1..];
    HeadBelowRest(gs);
    KeyLessIrreflexive(k);
    forall y | y in GroupKeys(gs[1..]) ensures y != k {
      KeyLessTransitive(k, gs[0].key, y);
      KeyLessIrreflexive(y);
    }
  }

  /** Inserting a row keeps the groups ascending and adds its key. */
  lemma {:induction false} InsertOrdered(gs: seq<Group>, k: Key, r: Record)
    requires Ascending(gs)
    ensures Ascending(Insert(gs, k, r))
    ensures GroupKeys(Insert(gs, k, r)) == GroupKeys(gs) + {k}
  {
    var res := Insert(gs, k, r);
    if gs == [] {
      GroupKeysCons(Group(k, [r]), []);
    } else if gs[0].key == k {
      var g := Group(k, gs[0].rows + [r]);
      assert res == [g] + gs[1..];
      assert gs == [gs[0]] + gs[1..];
      GroupKeysCons(g, gs[1..]);
      GroupKeysCons(gs[0], gs[1..]);
      HeadBelowRest(gs);
      AscendingCons(g, gs[1..]);
    } else if KeyLess(k, gs[0].key) {
      var g := Group(k, [r]);
      assert res == [g] + gs;
      GroupKeysCons(g, gs);
      GroupKeysCons(gs[0], gs[1..]);
      assert gs == [gs[0]] + gs[1..];
      HeadBelowRest(gs);
      forall y | y in GroupKeys(gs) ensures KeyLess(k, y) {
        if y != gs[0].key { KeyLessTransitive(k, gs[0].key, y); }
      }
      AscendingCons(g, gs);
    } else {
      KeyLessTotal(k, gs[0].key);
      var rest := Insert(gs[1..], k, r);
      assert res == [gs[0]] + rest;
      assert gs == [gs[0]] + gs[1..];
      InsertOrdered(gs[1..], k, r);
      GroupKeysCons(gs[0], gs[1..]);
      GroupKeysCons(gs[0], rest);
      HeadBelowRest(gs);
      AscendingCons(gs[0], rest);
    }
  }

  /** Inserting a row adds a group exactly when its key is new. */
  lemma {:induction false} InsertSize(gs: seq<Group>, k: Key, r: Record)
    requires Ascending(gs)
    ensures |Insert(gs, k, r)| == if k in GroupKeys(gs) then |gs| else |gs| + 1
  {
    if gs == [] {
    } else if gs[0].key == k {
      assert gs[0] in gs;
    } else if KeyLess(k, gs[0].key) {
      AbsentBelowHead(gs, k);
    } else {
      InsertSize(gs[1..], k, r);
      GroupKeysCons(gs[0], gs[1..]);
      assert gs == [gs[0]] + gs[1..];
    }
  }

  /** Inserting a row appends it to the rows of its key and to no other. */
  lemma {:induction false} InsertRows(gs: seq<Group>, k: Key, r: Record)
    requires Ascending(gs)
    ensures forall k' ::
      RowsOf(Insert(gs, k, r), k') == (if k' == k then RowsOf(gs, k) + [r] else RowsOf(gs, k'))
  {
    if gs == [] {
    } else if gs[0].key == k {
    } else if KeyLess(k, gs[0].key) {
      AbsentBelowHead(gs, k);
      RowsOfAbsent(gs, k);
    } else {
      assert Insert(gs, k, r) == [gs[0]] + Insert(gs[1..], k, r);
      InsertRows(gs[1..], k, r);
    }
  }

  /** Inserting a row adds its total to the group sums and one to the group counts. */
  lemma {:induction false} InsertTotals(gs: seq<Group>, k: Key, r: Record)
    ensures Total(Aggregate(Insert(gs, k, r), Sum)) == Total(Aggregate(gs, Sum)) + r.orderTotal
    ensures Total(Aggregate(Insert(gs, k, r), Count)) == Total(Aggregate(gs, Count)) + 1
  {
    if gs == [] {
      assert [r][..0] == [];
      assert Revenue([r]) == r.orderTotal;
      assert Aggregate([Group(k, [r])], Sum) == [Bucket(k, r.orderTotal)];
    } else if gs[0].key == k {
      var g := Group(k, gs[0].rows + [r]);
      assert Insert(gs, k, r) == [g] + gs[1..];
      assert (gs[0].rows + [r])[..|gs[0].rows|] == gs[0].rows;
    } else if KeyLess(k, gs[0].key) {
      assert Insert(gs, k, r) == [Group(k, [r])] + gs;
      assert ([Group(k, [r])] + gs)[1..] == gs;
      assert [r][..0] == [];
      assert Revenue([r]) == r.orderTotal;
    } else {
      assert Insert(gs, k, r) == [gs[0]] + Insert(gs[1..], k, r);
      InsertTotals(gs[1..], k, r);
    }
  }

  lemma KeysOfSnoc(t: seq<Record>, col: By)
    requires t != []
    ensures KeysOf(t, col) == KeysOf(t[..|t| - 1], col) +
      (if KeyOf(col, t[|t| - 1]).Some? then {KeyOf(col, t[|t| - 1]).value} else {})
  {
    var p, r := t[..|t| - 1], t[|t| - 1];
    assert t == p + [r];
    forall y | y in KeysOf(t, col)
      ensures y in KeysOf(p, col) + (if KeyOf(col, r).Some? then {KeyOf(col, r).value} else {})
    {
      var s :| s in t && KeyOf(col, s).Some? && KeyOf(col, s).value == y;
      if s != r { assert s in p; }
    }
    forall y | y in KeysOf(p, col) ensures y in KeysOf(t, col) {
      var s :| s in p && KeyOf(col, s).Some? && KeyOf(col, s).value == y;
      assert s in t;
    }
    assert r in t;
  }

  lemma CardAddOne<T>(s: set<T>, x: T)
    requires x !in s
    ensures |s + {x}| == |s| + 1
  {
  }

  /** groupby lists every key of the table exactly once, in ascending order. */
  lemma {:induction false} GroupByKeys(t: seq<Record>, col: By)
    ensures Ascending(GroupBy(t, col))
    ensures GroupKeys(GroupBy(t, col)) == KeysOf(t, col)
    ensures |GroupBy(t, col)| == |KeysOf(t, col)|
  {
    if t == [] {
      assert KeysOf(t, col) == {};
    } else {
      var p, r := t[..|t| - 1], t[|t| - 1];
      GroupByKeys(p, col);
      KeysOfSnoc(t, col);
      match KeyOf(col, r)
      case None =>
      case Some(k) =>
        InsertOrdered(GroupBy(p, col), k, r);
        InsertSize(GroupBy(p, col), k, r);
        if k !in KeysOf(p, col) {
          CardAddOne(KeysOf(p, col), k);
        } else {
          assert KeysOf(p, col) + {k} == KeysOf(p, col);
        }
    }
  }

  /** The group under a key holds exactly the table's rows with that key, in table order. */
  lemma {:induction false} GroupByRows(t: seq<Record>, col: By)
    ensures forall k :: RowsOf(GroupBy(t, col), k) == Select(t, col, k)
  {
    if t != [] {
      var p, r := t[..|t| - 1], t[|t| - 1];
      GroupByRows(p, col);
      GroupByKeys(p, col);
      match KeyOf(col, r)
      case None =>
        forall k ensures RowsOf(GroupBy(t, col), k) == Select(t, col, k) {
          assert Select(p, col, k) + [] == Select(p, col, k);
        }
      case Some(k) =>
        InsertRows(GroupBy(p, col), k, r);
        forall k' ensures RowsOf(GroupBy(t, col), k') == Select(t, col, k') {
          if k' != k {
            assert Select(p, col, k') + [] == Select(p, col, k');
          }
        }
    }
  }

  /** The group sums and counts add up to those of the keyed rows. */
  lemma {:induction false} GroupByTotals(t: seq<Record>, col: By)
    ensures Total(Aggregate(GroupBy(t, col), Sum)) == Revenue(Keyed(t, col))
    ensures Total(Aggregate(GroupBy(t, col), Count)) == |Keyed(t, col)|
  {
    if t != [] {
      var p, r := t[..|t| - 1], t[|t| - 1];
      GroupByTotals(p, col);
      var kd := Keyed(p, col);
      match KeyOf(col, r)
      case None =>
        assert Keyed(t, col) == kd + [];
        assert kd + [] == kd;
      case Some(k) =>
        InsertTotals(GroupBy(p, col), k, r);
        assert Keyed(t, col) == kd + [r];
        assert (kd + [r])[..|kd|] == kd;
    }
  }

  lemma {:induction false} AggregateAt(gs: seq<Group>, red: Reducer)
    ensures |Aggregate(gs, red)| == |gs|
    ensures forall i :: 0 <= i < |gs| ==> Aggregate(gs, red)[i] == Bucket(gs[i].key, Reduce(red, gs[i].rows))
  {
    if gs != [] {
      AggregateAt(gs[1..], red);
      forall i | 0 < i < |gs|
        ensures Aggregate(gs, red)[i] == Bucket(gs[i].key, Reduce(red, gs[i].rows))
      {
        assert gs[1..][i - 1] == gs[i];
      }
    }
  }

  /** A grouped and reduced column, characterised without the group list:
      its keys ascend strictly, and a bucket is in it exactly when its key is
      a key of the table and its value reduces the table's rows with that key. */
  lemma View(t: seq<Record>, col: By, red: Reducer)
    ensures AscendingKeys(Aggregate(GroupBy(t, col), red))
    ensures |Aggregate(GroupBy(t, col), red)| == |KeysOf(t, col)|
    ensures forall b :: b in Aggregate(GroupBy(t, col), red) <==>
      b.key in KeysOf(t, col) && b.value == Reduce(red, Select(t, col, b.key))
  {
    var gs := GroupBy(t, col);
    var bs := Aggregate(gs, red);
    GroupByKeys(t, col);
    GroupByRows(t, col);
    AggregateAt(gs, red);
    forall b ensures b in bs <==> b.key in KeysOf(t, col) && b.value == Reduce(red, Select(t, col, b.key)) {
      if b in bs {
        var i :| 0 <= i < |bs| && bs[i] == b;
        RowsOfAt(gs, i);
        assert gs[i] in gs;
      }
      if b.key in KeysOf(t, col) && b.value == Reduce(red, Select(t, col, b.key)) {
        var g :| g in gs && g.key == b.key;
        var i :| 0 <= i < |gs| && gs[i] == g;
        RowsOfAt(gs, i);
        assert bs[i] == b;
      }
    }
  }

  /** A key is present in the table exactly when some row carries it. */
  lemma {:induction false} SelectPresent(t: seq<Record>, col: By, k: Key)
    ensures k in KeysOf(t, col) <==> Select(t, col, k) != []
  {
    if t == [] {
      assert KeysOf(t, col) == {};
    } else {
      SelectPresent(t[..|t| - 1], col, k);
      KeysOfSnoc(t, col);
    }
  }

  /** The rows of a date-keyed grouping are exactly the dated rows; every
      row has a customer key. */
  lemma {:induction false} KeyedRows(t: seq<Record>, col: By)
    ensures col == ByCustomer ==> Keyed(t, col) == t
    ensures col != ByCustomer ==> Keyed(t, col) == Dated(t)
  {
    if t != [] {
      KeyedRows(t[..|t| - 1], col);
      assert t == t[..|t| - 1] + [t[|t| - 1]];
    }
  }
}
