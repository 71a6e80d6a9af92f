/**
  `sort_values(ascending=False)` on an aggregate table: reorder the entries
  so that totals never increase. pandas' default sort is not stable, so
  nothing here promises an order among equal totals; the insertion sort
  below is one admissible order and callers rely only on its contract.
 */
module Ranking {
  import opened Groups

  /** Place `g` into an already ranked table. */
  function Insert<K(==)>(g: Group<K>, s: seq<Group<K>>): (r: seq<Group<K>>)
    requires NonIncreasing(s)
    ensures NonIncreasing(r)
    ensures multiset(r) == multiset(s) + multiset{g}
    ensures SumTotals(r) == SumTotals(s) + g.total
  {
    if |s| == 0 then [g]
    else if g.total >= s[0].total then [g] + s
    else
      var rest := Insert(g, s[1..]);
      assert s == [s[0]] + s[1..];
      InsertBelowHead(g, s, rest);
      [s[0]] + rest
  }

  /** Putting `s[0]` in front of a ranked rearrangement of `s[1..]` and a smaller `g` keeps the ranking. */
  lemma InsertBelowHead<K>(g: Group<K>, s: seq<Group<K>>, rest: seq<Group<K>>)
    requires |s| > 0 && NonIncreasing(s) && NonIncreasing(rest)
    requires g.total < s[0].total
    requires multiset(rest) == multiset(s[1..]) + multiset{g}
    ensures NonIncreasing([s[0]] + rest)
  {
    var r := [s[0]] + rest;
    forall j | 0 < j < |r|
      ensures r[0].total >= r[j].total
    {
      var x := rest[j - 1];
      assert x in multiset(rest);
      if x != g {
        assert x in multiset(s[1..]);
        var k :| 0 <= k < |s[1..]| && s[1..][k] == x;
        assert s[k + 1] == x;
      }
    }
  }

  /** Inserting an entry with a fresh key into a table without repeated keys repeats none. */
  lemma {:induction false} InsertKeepsKeysDistinct<K>(g: Group<K>, s: seq<Group<K>>)
    requires NonIncreasing(s) && DistinctKeys(s) && !HasKey(s, g.key)
    ensures DistinctKeys(Insert(g, s))
  {
    if |s| > 0 {
      assert s[0] in s;
      if g.total < s[0].total {
        assert forall x :: x in s[1..] ==> x in s;
        InsertKeepsKeysDistinct(g, s[1..]);
        var rest := Insert(g, s[1..]);
        var r := [s[0]] + rest;
        forall j | 0 < j < |r|
          ensures r[0].key != r[j].key
        {
          var x := rest[j - 1];
          assert x in multiset(rest);
          if x != g {
            assert x in multiset(s[1..]);
            var k :| 0 <= k < |s[1..]| && s[1..][k] == x;
            assert s[k + 1] == x;
          }
        }
      } else {
        var r := [g] + s;
        forall i, j | 0 <= i < j < |r|
          ensures r[i].key != r[j].key
        {
          if i > 0 {
            assert r[i] == s[i - 1] && r[j] == s[j - 1];
          } else {
            assert r[j] in s;
          }
        }
      }
    }
  }

  /** The table reordered by total, largest first. */
  function RankByTotal<K(==)>(s: seq<Group<K>>): (r: seq<Group<K>>)
    ensures NonIncreasing(r)
    ensures multiset(r) == multiset(s)
    ensures SumTotals(r) == SumTotals(s)
  {
    if |s| == 0 then []
    else
      assert s == [s[0]] + s[1..];
      Insert(s[0], RankByTotal(s[1..]))
  }

  /** Ranking a table without repeated keys repeats none. */
  lemma {:induction false} RankKeepsKeysDistinct<K>(s: seq<Group<K>>)
    requires DistinctKeys(s)
    ensures DistinctKeys(RankByTotal(s))
  {
    if |s| > 0 {
      var rest := RankByTotal(s[1..]);
      assert DistinctKeys(s[1..]) by {
        forall i, j | 0 <= i < j < |s[1..]|
          ensures s[1..][i].key != s[1..][j].key
        {
          assert s[1..][i] == s[i + 1] && s[1..][j] == s[j + 1];
        }
      }
      RankKeepsKeysDistinct(s[1..]);
      forall x | x in rest
        ensures x.key != s[0].key
      {
        assert x in multiset(rest);
        assert x in multiset(s[1..]);
        var j :| 0 <= j < |s[1..]| && s[1..][j] == x;
        assert s[j + 1] == x;
      }
      InsertKeepsKeysDistinct(s[0], rest);
    }
  }

  /** Ranking neither adds nor drops an entry. */
  lemma RankKeepsEntries<K>(s: seq<Group<K>>)
    ensures forall g :: g in RankByTotal(s) <==> g in s
  {
    var r := RankByTotal(s);
    forall g
      ensures g in r <==> g in s
    {
      assert g in r <==> g in multiset(r);
      assert g in s <==> g in multiset(s);
    }
  }

  /** Removing the entry at rank `j` keeps the ranking and drops exactly that entry. */
  lemma DropAt<K>(b: seq<Group<K>>, j: int)
    requires 0 <= j < |b|
    requires NonIncreasing(b) && DistinctKeys(b)
    ensures NonIncreasing(b[..j] + b[j + 1..])
    ensures DistinctKeys(b[..j] + b[j + 1..])
    ensures forall x :: x in b[..j] + b[j + 1..] <==> x in b && x != b[j]
    ensures forall i :: 0 <= i < j ==> (b[..j] + b[j + 1..])[i] == b[i]
    ensures forall i :: j < i < |b| ==> (b[..j] + b[j + 1..])[i - 1] == b[i]
  {
    var b' := b[..j] + b[j + 1..];
    forall i, k | 0 <= i < k < |b'|
      ensures b'[i].total >= b'[k].total && b'[i].key != b'[k].key
    {
      var bi := if i < j then i else i + 1;
      var bk := if k < j then k else k + 1;
      assert b'[i] == b[bi] && b'[k] == b[bk];
    }
    forall x
      ensures x in b' <==> x in b && x != b[j]
    {
      if x in b' {
        var k :| 0 <= k < |b'| && b'[k] == x;
        var bk := if k < j then k else k + 1;
        assert b[bk] == x && bk != j;
      }
      if x in b && x != b[j] {
        var k :| 0 <= k < |b| && b[k] == x;
        if k < j {
          assert b'[k] == x;
        } else {
          assert b'[k - 1] == x;
        }
      }
    }
  }

  /**
    Two ranked tables listing the same entries, each key once, agree in
    length and in the total at every rank; they can differ only in the
    order of entries with equal totals.
   */
  lemma {:induction false} RankedTablesAgree<K>(a: seq<Group<K>>, b: seq<Group<K>>)
    requires NonIncreasing(a) && NonIncreasing(b)
    requires DistinctKeys(a) && DistinctKeys(b)
    requires forall g :: g in a <==> g in b
    ensures |a| == |b|
    ensures forall i :: 0 <= i < |a| ==> a[i].total == b[i].total
    decreases |a|
  {
    DistinctKeysCardinality(a);
    DistinctKeysCardinality(b);
    assert Entries(a) == Entries(b);
    if |a| > 0 {
      assert a[0] in b;
      var j :| 0 <= j < |b| && b[j] == a[0];
      DropMatchingEntries(a, b, j);
      RankedTablesAgree(a[1..], b[..j] + b[j + 1..]);
      RestoreMatchingEntries(a, b, j);
    }
  }

  /** Taking the top entry of `a` out of both tables leaves two tables that still list the same entries. */
  lemma DropMatchingEntries<K>(a: seq<Group<K>>, b: seq<Group<K>>, j: int)
    requires NonIncreasing(a) && NonIncreasing(b)
    requires DistinctKeys(a) && DistinctKeys(b)
    requires forall g :: g in a <==> g in b
    requires 0 <= j < |b| && |a| > 0 && b[j] == a[0]
    ensures NonIncreasing(a[1..]) && NonIncreasing(b[..j] + b[j + 1..])
    ensures DistinctKeys(a[1..]) && DistinctKeys(b[..j] + b[j + 1..])
    ensures forall g :: g in a[1..] <==> g in b[..j] + b[j + 1..]
  {
    DropAt(b, j);
    DropAt(a, 0);
    assert a[1..] == a[..0] + a[1..];
    var b' := b[..j] + b[j + 1..];
    forall g
      ensures g in a[1..] <==> g in b'
    {
      assert g in a[1..] <==> g in a && g != a[0];
      assert g in b' <==> g in b && g != b[j];
    }
  }

  /**
    If the tables agree rank by rank once the top entry of `a` is taken out
    of both, they agree rank by rank with it: every entry ranked above that
    entry in `b` ties with it.
   */
  lemma RestoreMatchingEntries<K>(a: seq<Group<K>>, b: seq<Group<K>>, j: int)
    requires NonIncreasing(a) && NonIncreasing(b)
    requires forall g :: g in a <==> g in b
    requires 0 <= j < |b| && |a| > 0 && b[j] == a[0]
    requires |a[1..]| == |b[..j] + b[j + 1..]|
    requires forall i :: 0 <= i < |a[1..]| ==> a[1..][i].total == (b[..j] + b[j + 1..])[i].total
    ensures |a| == |b|
    ensures forall i :: 0 <= i < |a| ==> a[i].total == b[i].total
  {
    var b' := b[..j] + b[j + 1..];
    forall i | 0 <= i <= j
      ensures b[i].total == a[0].total
    {
      assert b[i] in a;
    }
    forall i | 0 < i < |a|
      ensures a[i].total == b[i].total
    {
      assert a[i] == a[1..][i - 1];
      if i <= j {
        assert b'[i - 1] == b[i - 1];
      } else {
        assert b'[i - 1] == b[i];
      }
    }
  }
}
