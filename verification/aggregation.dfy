/**
  `data.groupby(key)["Sales"].sum().sort_values(ascending=False)`, written
  once for any key column: `keyOf` selects the grouping column of a row
  (`Category` or `Store ID` in the dashboard).

  `GroupRows` is the one-pass grouping: each row adds its sales to the entry
  for its key, opening a new entry the first time a key is seen.
  `RowsWithKey` and `GroupTotal` are the independent reference it is proved
  against: the sum over exactly the rows carrying a key.
 */
module Aggregation {
  import opened Rows
  import opened Groups
  import opened Ranking

  /** The rows whose key is `k`, in their original order. */
  function RowsWithKey<K(==)>(rows: seq<Row>, keyOf: Row -> K, k: K): seq<Row> {
    if |rows| == 0 then []
    else
      var last := rows[|rows| - 1];
      RowsWithKey(rows[..|rows| - 1], keyOf, k) + (if keyOf(last) == k then [last] else [])
  }

  /** The sales summed over exactly the rows whose key is `k`. */
  function GroupTotal<K(==)>(rows: seq<Row>, keyOf: Row -> K, k: K): int {
    SumSales(RowsWithKey(rows, keyOf, k))
  }

  /** Some row of `rows` has key `k`. */
  predicate Occurs<K(==)>(rows: seq<Row>, keyOf: Row -> K, k: K) {
    exists r :: r in rows && keyOf(r) == k
  }

  /** Extending the rows by one adds that row's sales to its own key's total only. */
  lemma GroupTotalSnoc<K>(rows: seq<Row>, keyOf: Row -> K, k: K, last: Row)
    ensures GroupTotal(rows + [last], keyOf, k)
         == GroupTotal(rows, keyOf, k) + (if keyOf(last) == k then last.sales else 0)
  {
    var ext := rows + [last];
    assert ext[..|ext| - 1] == rows;
    var prefix := RowsWithKey(rows, keyOf, k);
    if keyOf(last) == k {
      assert (prefix + [last])[..|prefix|] == prefix;
    } else {
      assert prefix + [] == prefix;
    }
  }

  /** Record `amount` of sales under key `k`. */
  function AddSale<K(==,!new)>(gs: seq<Group<K>>, k: K, amount: int): (r: seq<Group<K>>)
    ensures forall x :: Lookup(r, x) == Lookup(gs, x) + (if x == k then amount else 0)
    ensures forall x :: HasKey(r, x) <==> HasKey(gs, x) || x == k
    ensures DistinctKeys(gs) ==> DistinctKeys(r)
    ensures SumTotals(r) == SumTotals(gs) + amount
  {
    if |gs| == 0 then
      var r := [Group(k, amount)];
      assert r == [r[0]] + [];
      forall x
        ensures HasKey(r, x) <==> x == k
      {
        HasKeyCons(r[0], [], x);
      }
      r
    else
      var head := gs[0];
      assert gs == [head] + gs[1..];
      DistinctKeysCons(head, gs[1..]);
      if head.key == k then
        var r := [Group(k, head.total + amount)] + gs[1..];
        assert r[1..] == gs[1..];
        DistinctKeysCons(r[0], gs[1..]);
        forall x
          ensures HasKey(r, x) <==> HasKey(gs, x) || x == k
        {
          HasKeyCons(r[0], gs[1..], x);
          HasKeyCons(head, gs[1..], x);
        }
        r
      else
        var rest := AddSale(gs[1..], k, amount);
        var r := [head] + rest;
        assert r[1..] == rest;
        DistinctKeysCons(head, rest);
        forall x
          ensures HasKey(r, x) <==> HasKey(gs, x) || x == k
        {
          HasKeyCons(head, rest, x);
          HasKeyCons(head, gs[1..], x);
        }
        r
  }

  /** One pass over the rows, accumulating each row's sales under its key. */
  function GroupRows<K(==,!new)>(rows: seq<Row>, keyOf: Row -> K): (gs: seq<Group<K>>)
    ensures DistinctKeys(gs)
    ensures forall k :: HasKey(gs, k) <==> Occurs(rows, keyOf, k)
    ensures forall k :: Lookup(gs, k) == GroupTotal(rows, keyOf, k)
    ensures SumTotals(gs) == SumSales(rows)
  {
    if |rows| == 0 then []
    else
      var prefix := rows[..|rows| - 1];
      var last := rows[|rows| - 1];
      assert rows == prefix + [last];
      assert forall r :: r in rows <==> r in prefix || r == last;
      forall k
        ensures GroupTotal(rows, keyOf, k)
             == GroupTotal(prefix, keyOf, k) + (if keyOf(last) == k then last.sales else 0)
      {
        GroupTotalSnoc(prefix, keyOf, k, last);
      }
      AddSale(GroupRows(prefix, keyOf), keyOf(last), last.sales)
  }

  /**
    The dashboard's aggregate: one entry per key present in `rows`, carrying
    the sales summed over exactly that key's rows, ranked by total from the
    largest down. Equal totals may come in any order.
   */
  function Aggregate<K(==,!new)>(rows: seq<Row>, keyOf: Row -> K): (r: seq<Group<K>>)
    ensures NonIncreasing(r)
    ensures DistinctKeys(r)
    ensures forall k :: HasKey(r, k) <==> Occurs(rows, keyOf, k)
    ensures forall i :: 0 <= i < |r| ==> r[i].total == GroupTotal(rows, keyOf, r[i].key)
    ensures SumTotals(r) == SumSales(rows)
  {
    var gs := GroupRows(rows, keyOf);
    RankKeepsKeysDistinct(gs);
    RankKeepsEntries(gs);
    SameEntriesSameKeys(RankByTotal(gs), gs);
    GroupRowsTotals(rows, keyOf);
    RankByTotal(gs)
  }

  /** Every entry of the one-pass grouping carries its key's reference total. */
  lemma GroupRowsTotals<K(!new)>(rows: seq<Row>, keyOf: Row -> K)
    ensures forall g :: g in GroupRows(rows, keyOf) ==> g.total == GroupTotal(rows, keyOf, g.key)
  {
    var gs := GroupRows(rows, keyOf);
    forall g | g in gs
      ensures g.total == GroupTotal(rows, keyOf, g.key)
    {
      var j :| 0 <= j < |gs| && gs[j] == g;
      LookupFindsEntry(gs, j);
    }
  }

  /**
    What the dashboard promises of a ranked sales table for `rows`, stated
    without reference to how it is computed.
   */
  ghost predicate IsRankedSalesTable<K(!new)>(rows: seq<Row>, keyOf: Row -> K, gs: seq<Group<K>>) {
    && NonIncreasing(gs)
    && DistinctKeys(gs)
    && (forall k :: HasKey(gs, k) <==> Occurs(rows, keyOf, k))
    && (forall g :: g in gs ==> g.total == GroupTotal(rows, keyOf, g.key))
  }

  /**
    Any table meeting that promise lists the same entries as `Aggregate` and
    the same total at every rank: only the order among equal totals is left
    open, as it is by pandas' unstable sort.
   */
  lemma AggregateUniqueUpToTies<K(!new)>(rows: seq<Row>, keyOf: Row -> K, gs: seq<Group<K>>)
    requires IsRankedSalesTable(rows, keyOf, gs)
    ensures forall g :: g in gs <==> g in Aggregate(rows, keyOf)
    ensures |gs| == |Aggregate(rows, keyOf)|
    ensures forall i :: 0 <= i < |gs| ==> gs[i].total == Aggregate(rows, keyOf)[i].total
  {
    var r := Aggregate(rows, keyOf);
    forall g
      ensures g in gs <==> g in r
    {
      if g in gs {
        assert HasKey(gs, g.key);
        var h :| h in r && h.key == g.key;
        var i :| 0 <= i < |r| && r[i] == h;
      }
      if g in r {
        var i :| 0 <= i < |r| && r[i] == g;
        assert HasKey(r, g.key);
        var h :| h in gs && h.key == g.key;
      }
    }
    RankedTablesAgree(gs, r);
  }

  /**
    Grouping partitions the rows: the totals of any ranked sales table add
    up to the sales of all rows, whichever column is grouped on.
   */
  lemma RankedSalesTablePartitions<K(!new)>(rows: seq<Row>, keyOf: Row -> K, gs: seq<Group<K>>)
    requires IsRankedSalesTable(rows, keyOf, gs)
    ensures SumTotals(gs) == SumSales(rows)
  {
    AggregateUniqueUpToTies(rows, keyOf, gs);
    SumTotalsPointwise(gs, Aggregate(rows, keyOf));
  }
}
