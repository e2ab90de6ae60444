/** Removal of exact-duplicate rows, keeping the first occurrence of each row
    (pandas `drop_duplicates` with its default `keep='first'`). */
module Duplicates {

  /** The rows of s with every later copy of an earlier row removed. */
  function Dedup<T(==)>(s: seq<T>): seq<T> {
    if s == [] then []
    else
      var init := Dedup(s[..|s| - 1]);
      if s[|s| - 1] in s[..|s| - 1] then init else init + [s[|s| - 1]]
  }

  predicate NoDuplicates<T(==)>(s: seq<T>) {
    forall i, j :: 0 <= i < j < |s| ==> s[i] != s[j]
  }

  /** The position of the first occurrence of x in s. */
  function FirstIndex<T(==)>(s: seq<T>, x: T): (i: nat)
    requires x in s
    ensures i < |s| && s[i] == x && x !in s[..i]
  {
    if s[0] == x then 0
    else
      var j := FirstIndex(s[1..], x);
      assert s[..j + 1] == [s[0]] + s[1..][..j];
      1 + j
  }

  /** Appending a row does not move the first occurrence of a row already present. */
  lemma {:induction false} FirstIndexSnoc<T>(p: seq<T>, x: T, y: T)
    requires y in p
    ensures FirstIndex(p + [x], y) == FirstIndex(p, y)
  {
    if p[0] != y {
      assert (p + [x])[1..] == p[1..] + [x];
      FirstIndexSnoc(p[1..], x, y);
    }
  }

  /** Dedup leaves no two equal rows, drops no row value, and lists the
      surviving rows in the order of their first occurrences. */
  lemma {:induction false} DedupKeepsFirstOccurrences<T>(s: seq<T>)
    ensures NoDuplicates(Dedup(s))
    ensures forall x :: x in Dedup(s) <==> x in s
    ensures forall i, j :: 0 <= i < j < |Dedup(s)| ==>
      FirstIndex(s, Dedup(s)[i]) < FirstIndex(s, Dedup(s)[j])
  {
    if s != [] {
      var p, x := s[..|s| - 1], s[|s| - 1];
      assert s == p + [x];
      DedupKeepsFirstOccurrences(p);
      var d := Dedup(p);
      forall y | y in p ensures FirstIndex(s, y) == FirstIndex(p, y) {
        FirstIndexSnoc(p, x, y);
      }
      if x !in p {
        assert Dedup(s) == d + [x];
        var last := FirstIndex(s, x);
        assert last == |p|;
        forall i, j | 0 <= i < j < |Dedup(s)|
          ensures FirstIndex(s, Dedup(s)[i]) < FirstIndex(s, Dedup(s)[j])
        {
          if j == |d| {
            assert Dedup(s)[i] == d[i] && d[i] in d;
            assert FirstIndex(p, d[i]) < |p|;
          } else {
            assert Dedup(s)[i] == d[i] && Dedup(s)[j] == d[j];
          }
        }
      }
    }
  }

  /** Dedup never adds rows. */
  lemma {:induction false} DedupShrinks<T>(s: seq<T>)
    ensures |Dedup(s)| <= |s|
  {
    if s != [] {
      DedupShrinks(s[..|s| - 1]);
    }
  }

  /** `drop_duplicates` as one pass over the rows that builds the kept rows
      and a set of the rows already seen. */
  method DropDuplicates<T(==)>(rows: seq<T>) returns (kept: seq<T>)
    ensures kept == Dedup(rows)
  {
    kept := [];
    var seen: set<T> := {};
    var i := 0;
    while i < |rows|
      invariant 0 <= i <= |rows|
      invariant kept == Dedup(rows[..i])
      invariant forall x :: x in seen <==> x in rows[..i]
    {
      assert rows[..i + 1][..i] == rows[..i];
      assert rows[..i + 1] == rows[..i] + [rows[i]];
      if rows[i] !in seen {
        kept := kept + [rows[i]];
        seen := seen + {rows[i]};
      }
      i := i + 1;
    }
    assert rows[..|rows|] == rows;
  }
}
