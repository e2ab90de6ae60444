/** Group keys and the ascending order in which pandas `groupby` lists them. */
module Keys {

  /** Python's `str` order: lexicographic by code point; a proper prefix comes first. */
  predicate StrLess(a: string, b: string) {
    if |a| == 0 then |b| > 0
    else |b| > 0 && (a[0] < b[0] || (a[0] == b[0] && StrLess(a[1..], b[1..])))
  }

  /** A customer name, a monthly period, or one calendar
      sub-unit (day-of-month, month-of-year or year). */
  datatype Key = Name(name: string) | Period(year: int, month: int) | Sub(n: int)

  function Rank(k: Key): nat {
    match k
    case Name(_) => 0
    case Period(_, _) => 1
    case Sub(_) => 2
  }

  /** Key order: names by `StrLess`, periods chronologically, sub-units
      numerically. One grouping only ever compares keys of one kind; `Rank`
      makes the order total across kinds. */
  predicate KeyLess(a: Key, b: Key) {
    if a.Name? && b.Name? then StrLess(a.name, b.name)
    else if a.Period? && b.Period? then a.year < b.year || (a.year == b.year && a.month < b.month)
    else if a.Sub? && b.Sub? then a.n < b.n
    else Rank(a) < Rank(b)
  }

  lemma {:induction false} StrLessIrreflexive(a: string)
    ensures !StrLess(a, a)
  {
    if |a| > 0 {
      StrLessIrreflexive(a[1..]);
    }
  }

  lemma {:induction false} StrLessTransitive(a: string, b: string, c: string)
    requires StrLess(a, b) && StrLess(b, c)
    ensures StrLess(a, c)
  {
    if |a| > 0 && a[0] == b[0] && b[0] == c[0] {
      StrLessTransitive(a[1..], b[1..], c[1..]);
    }
  }

  lemma {:induction false} StrLessTotal(a: string, b: string)
    requires a != b
    ensures StrLess(a, b) || StrLess(b, a)
  {
    if |a| > 0 && |b| > 0 && a[0] == b[0] {
      assert a == [a[0]] + a[1..] && b == [b[0]] + b[1..];
      StrLessTotal(a[1..], b[1..]);
    }
  }

  /** KeyLess is a strict total order. */
  lemma KeyLessIrreflexive(a: Key)
    ensures !KeyLess(a, a)
  {
    if a.Name? {
      StrLessIrreflexive(a.name);
    }
  }

  lemma KeyLessTransitive(a: Key, b: Key, c: Key)
    requires KeyLess(a, b) && KeyLess(b, c)
    ensures KeyLess(a, c)
  {
    if a.Name? && b.Name? && c.Name? {
      StrLessTransitive(a.name, b.name, c.name);
    }
  }

  lemma KeyLessTotal(a: Key, b: Key)
    requires a != b
    ensures KeyLess(a, b) || KeyLess(b, a)
  {
    if a.Name? && b.Name? {
      StrLessTotal(a.name, b.name);
    }
  }
}
