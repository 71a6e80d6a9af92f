/**
  The aggregate table a `groupby(...)["Sales"].sum()` produces: one entry
  per key with the summed total, and the vocabulary used to state what such
  a table must satisfy.
 */
module Groups {

  datatype Group<K> = Group(key: K, total: int)

  /** The sum of the `total` column. */
  function SumTotals<K>(gs: seq<Group<K>>): int {
    if |gs| == 0 then 0 else gs[0].total + SumTotals(gs[1..])
  }

  /** Some entry of `gs` is keyed `k`. */
  predicate HasKey<K(==)>(gs: seq<Group<K>>, k: K) {
    exists g :: g in gs && g.key == k
  }

  /** No key is listed twice. */
  predicate DistinctKeys<K(==)>(gs: seq<Group<K>>) {
    forall i, j :: 0 <= i < j < |gs| ==> gs[i].key != gs[j].key
  }

  /** Totals never increase along the table (ties in any order). */
  predicate NonIncreasing<K>(gs: seq<Group<K>>) {
    forall i, j :: 0 <= i < j < |gs| ==> gs[i].total >= gs[j].total
  }

  /** The total recorded for `k`, or 0 when no entry is keyed `k`. */
  function Lookup<K(==)>(gs: seq<Group<K>>, k: K): int {
    if |gs| == 0 then 0
    else if gs[0].key == k then gs[0].total
    else Lookup(gs[1..], k)
  }

  /** In a table without repeated keys, each entry is what `Lookup` finds for its key. */
  lemma {:induction false} LookupFindsEntry<K>(gs: seq<Group<K>>, i: int)
    requires DistinctKeys(gs)
    requires 0 <= i < |gs|
    ensures Lookup(gs, gs[i].key) == gs[i].total
  {
    if i > 0 {
      assert gs[0].key != gs[i].key;
      assert gs[1..][i - 1] == gs[i];
      LookupFindsEntry(gs[1..], i - 1);
    }
  }

  /** A key occurs in `[g] + s` when it is `g`'s or occurs in `s`. */
  lemma HasKeyCons<K>(g: Group<K>, s: seq<Group<K>>, k: K)
    ensures HasKey([g] + s, k) <==> g.key == k || HasKey(s, k)
  {
    var c := [g] + s;
    if HasKey(s, k) {
      var x :| x in s && x.key == k;
      assert x in c;
    }
    if HasKey(c, k) {
      var x :| x in c && x.key == k;
      assert x == g || x in s;
    }
  }

  /** `[g] + s` repeats no key exactly when `s` repeats none and lacks `g`'s key. */
  lemma DistinctKeysCons<K>(g: Group<K>, s: seq<Group<K>>)
    ensures DistinctKeys([g] + s) <==> DistinctKeys(s) && !HasKey(s, g.key)
  {
    var c := [g] + s;
    if DistinctKeys(c) {
      forall i, j | 0 <= i < j < |s|
        ensures s[i].key != s[j].key
      {
        assert s[i] == c[i + 1] && s[j] == c[j + 1];
      }
      forall x | x in s
        ensures x.key != g.key
      {
        var j :| 0 <= j < |s| && s[j] == x;
        assert c[0] == g && c[j + 1] == x;
      }
    }
    if DistinctKeys(s) && !HasKey(s, g.key) {
      forall i, j | 0 <= i < j < |c|
        ensures c[i].key != c[j].key
      {
        if i == 0 {
          assert c[j] in s;
        } else {
          assert c[i] == s[i - 1] && c[j] == s[j - 1];
        }
      }
    }
  }

  /** Two tables listing the same entries carry the same keys. */
  lemma SameEntriesSameKeys<K>(a: seq<Group<K>>, b: seq<Group<K>>)
    requires forall g :: g in a <==> g in b
    ensures forall k :: HasKey(a, k) <==> HasKey(b, k)
  {
    forall k
      ensures HasKey(a, k) <==> HasKey(b, k)
    {
      if HasKey(a, k) {
        var g :| g in a && g.key == k;
        assert g in b;
      }
      if HasKey(b, k) {
        var g :| g in b && g.key == k;
        assert g in a;
      }
    }
  }

  /** The entries of a table, as a set. */
  ghost function Entries<K>(gs: seq<Group<K>>): set<Group<K>> {
    set g | g in gs
  }

  /** A table that repeats no key lists as many entries as it has rows. */
  lemma {:induction false} DistinctKeysCardinality<K>(gs: seq<Group<K>>)
    requires DistinctKeys(gs)
    ensures |Entries(gs)| == |gs|
  {
    if |gs| > 0 {
      var rest := gs[1..];
      assert gs == [gs[0]] + rest;
      DistinctKeysCons(gs[0], rest);
      DistinctKeysCardinality(rest);
      assert gs[0] !in Entries(rest);
      assert Entries(gs) == {gs[0]} + Entries(rest);
    }
  }

  /** Tables with the same totals rank by rank have the same sum of totals. */
  lemma {:induction false} SumTotalsPointwise<K>(a: seq<Group<K>>, b: seq<Group<K>>)
    requires |a| == |b|
    requires forall i :: 0 <= i < |a| ==> a[i].total == b[i].total
    ensures SumTotals(a) == SumTotals(b)
  {
    if |a| > 0 {
      SumTotalsPointwise(a[1..], b[1..]);
    }
  }
}
