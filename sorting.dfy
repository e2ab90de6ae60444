/** Descending `sort_values` on a grouped result. pandas' default sort
    is not stable, so only the outcome is promised: the same buckets, by
    non-increasing value. Insertion sort is one admissible order among ties. */
module Sorting {
  import opened Keys
  import opened Grouping

  predicate NonIncreasing(bs: seq<Bucket>) {
    forall i, j :: 0 <= i < j < |bs| ==> bs[i].value >= bs[j].value
  }

  predicate DistinctKeys(bs: seq<Bucket>) {
    forall i, j :: 0 <= i < j < |bs| ==> bs[i].key != bs[j].key
  }

  function KeySet(bs: seq<Bucket>): set<Key> {
    set b | b in bs :: b.key
  }

  function InsertDesc(b: Bucket, s: seq<Bucket>): seq<Bucket> {
    if s == [] then [b]
    else if b.value >= s[0].value then [b] + s
    else [s[0]] + InsertDesc(b, s[1..])
  }

  function SortDesc(bs: seq<Bucket>): seq<Bucket> {
    if bs == [] then [] else InsertDesc(bs[0], SortDesc(bs[1..]))
  }

  lemma {:induction false} InsertDescFacts(b: Bucket, s: seq<Bucket>)
    ensures multiset(InsertDesc(b, s)) == multiset(s) + multiset{b}
    ensures Total(InsertDesc(b, s)) == b.value + Total(s)
  {
    if s != [] && b.value < s[0].value {
      InsertDescFacts(b, s[1..]);
      assert s == [s[0]] + s[1..];
      assert InsertDesc(b, s) == [s[0]] + InsertDesc(b, s[1..]);
    }
  }

  lemma {:induction false} InsertDescOrdered(b: Bucket, s: seq<Bucket>)
    requires NonIncreasing(s)
    ensures NonIncreasing(InsertDesc(b, s))
  {
    if s != [] && b.value < s[0].value {
      var rest := InsertDesc(b, s[1..]);
      InsertDescOrdered(b, s[1..]);
      InsertDescFacts(b, s[1..]);
      assert InsertDesc(b, s) == [s[0]] + rest;
      forall j | 0 <= j < |rest| ensures s[0].value >= rest[j].value {
        assert rest[j] in multiset(rest);
        if rest[j] != b {
          assert rest[j] in multiset(s[1..]);
          var m :| 0 <= m < |s[1..]| && s[1..][m] == rest[j];
          assert s[m + 1] == rest[j];
        }
      }
    } else if s != [] {
      assert InsertDesc(b, s) == [b] + s;
    }
  }

  lemma KeySetFromMultiset(a: seq<Bucket>, b: seq<Bucket>)
    requires multiset(a) == multiset(b)
    ensures KeySet(a) == KeySet(b)
    ensures forall x :: x in a <==> x in b
  {
    forall x ensures x in a <==> x in b {
      assert x in a <==> x in multiset(a);
      assert x in b <==> x in multiset(b);
    }
  }

  lemma InsertDescDistinct(b: Bucket, s: seq<Bucket>)
    requires DistinctKeys(s) && b.key !in KeySet(s)
    ensures DistinctKeys(InsertDesc(b, s))
    decreases |s|
  {
    if s != [] && b.value < s[0].value {
      var rest := InsertDesc(b, s[1..]);
      assert KeySet(s[1..]) <= KeySet(s) by {
        forall y | y in KeySet(s[1..]) ensures y in KeySet(s) {
          var c :| c in s[1..] && c.key == y;
          assert c in s;
        }
      }
      assert DistinctKeys(s[1..]) by {
        forall i, j | 0 <= i < j < |s[1..]| ensures s[1..][i].key != s[1..][j].key {
          assert s[1..][i] == s[i + 1] && s[1..][j] == s[j + 1];
        }
      }
      InsertDescDistinct(b, s[1..]);
      InsertDescFacts(b, s[1..]);
      KeySetFromMultiset(rest, s[1..] + [b]);
      assert s[0] in s;
      forall j | 0 <= j < |rest| ensures s[0].key != rest[j].key {
        assert rest[j] in rest;
        if rest[j] != b {
          assert rest[j] in s[1..];
          var m :| 0 <= m < |s[1..]| && s[1..][m] == rest[j];
          assert s[m + 1] == rest[j];
        }
      }
      assert InsertDesc(b, s) == [s[0]] + rest;
    }
  }

  /** Sorting keeps exactly the same buckets, orders them by non-increasing
      value, keeps their total, and keeps distinct keys distinct. */
  lemma {:induction false} SortDescFacts(bs: seq<Bucket>)
    ensures multiset(SortDesc(bs)) == multiset(bs)
    ensures |SortDesc(bs)| == |bs|
    ensures forall b :: b in SortDesc(bs) <==> b in bs
    ensures NonIncreasing(SortDesc(bs))
    ensures Total(SortDesc(bs)) == Total(bs)
    ensures DistinctKeys(bs) ==> DistinctKeys(SortDesc(bs))
  {
    if bs != [] {
      var rest := SortDesc(bs[1..]);
      SortDescFacts(bs[1..]);
      InsertDescFacts(bs[0], rest);
      InsertDescOrdered(bs[0], rest);
      assert bs == [bs[0]] + bs[1..];
      assert multiset(SortDesc(bs)) == multiset(bs);
      assert |SortDesc(bs)| == |multiset(SortDesc(bs))|;
      KeySetFromMultiset(SortDesc(bs), bs);
      if DistinctKeys(bs) {
        assert DistinctKeys(bs[1..]) by {
          forall i, j | 0 <= i < j < |bs[1..]| ensures bs[1..][i].key != bs[1..][j].key {
            assert bs[1..][i] == bs[i + 1] && bs[1..][j] == bs[j + 1];
          }
        }
        KeySetFromMultiset(rest, bs[1..]);
        forall y | y in KeySet(bs[1..]) ensures y != bs[0].key {
          var c :| c in bs[1..] && c.key == y;
          var m :| 0 <= m < |bs[1..]| && bs[1..][m] == c;
          assert bs[m + 1] == c;
        }
        InsertDescDistinct(bs[0], rest);
      }
    }
  }

  /** A sequence with ascending keys has distinct keys. */
  lemma AscendingDistinct(bs: seq<Bucket>)
    requires AscendingKeys(bs)
    ensures DistinctKeys(bs)
  {
    forall i, j | 0 <= i < j < |bs| ensures bs[i].key != bs[j].key {
      KeyLessIrreflexive(bs[i].key);
    }
  }
}
