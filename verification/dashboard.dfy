/**
  The two ranked tables the dashboard charts: total sales per category and
  total sales per store, both produced by the one aggregation rule.
 */
module Dashboard {
  import opened Dates
  import opened Rows
  import opened Groups
  import opened Ranking
  import opened Aggregation

  /** The `Category` column of a row. */
  function CategoryOf(r: Row): string {
    r.category
  }

  /** The `Store ID` column of a row. */
  function StoreOf(r: Row): string {
    r.storeId
  }

  /** Total sales by category, largest first. */
  function CategorySales(rows: seq<Row>): (r: seq<Group<string>>)
    ensures NonIncreasing(r)
    ensures DistinctKeys(r)
    ensures forall c :: HasKey(r, c) <==> exists x :: x in rows && x.category == c
    ensures forall i :: 0 <= i < |r| ==> r[i].total == SumSales(RowsWithKey(rows, CategoryOf, r[i].key))
  {
    Aggregate(rows, CategoryOf)
  }

  /** Total sales by store, largest first. */
  function StoreSales(rows: seq<Row>): (r: seq<Group<string>>)
    ensures NonIncreasing(r)
    ensures DistinctKeys(r)
    ensures forall s :: HasKey(r, s) <==> exists x :: x in rows && x.storeId == s
    ensures forall i :: 0 <= i < |r| ==> r[i].total == SumSales(RowsWithKey(rows, StoreOf, r[i].key))
  {
    Aggregate(rows, StoreOf)
  }

  /** Both charts partition the same sales: their bars add up to the grand total. */
  lemma ChartsPartitionSales(rows: seq<Row>)
    ensures SumTotals(CategorySales(rows)) == SumSales(rows)
    ensures SumTotals(StoreSales(rows)) == SumSales(rows)
  {
  }

  /** A two-row table with one store and two categories. */
  lemma TwoRowExample()
    ensures
      var milk := Row("Dairy", "S1", 100, Date(2024, 1, 1));
      var bread := Row("Bakery", "S1", 50, Date(2024, 1, 2));
      && CategorySales([milk, bread]) == [Group("Dairy", 100), Group("Bakery", 50)]
      && StoreSales([milk, bread]) == [Group("S1", 150)]
  {
    var milk := Row("Dairy", "S1", 100, Date(2024, 1, 1));
    var bread := Row("Bakery", "S1", 50, Date(2024, 1, 2));
    var rows := [milk, bread];
    assert rows[..1] == [milk];
    assert rows[..1][..0] == [];
    var byCategory := [Group("Dairy", 100), Group("Bakery", 50)];
    assert GroupRows([milk], CategoryOf) == [Group("Dairy", 100)];
    assert "Dairy"[0] != "Bakery"[0];
    assert AddSale([Group("Dairy", 100)], "Bakery", 50) == byCategory;
    assert GroupRows(rows, CategoryOf) == byCategory;
    assert RankByTotal(byCategory[1..]) == [Group("Bakery", 50)];
    assert GroupRows([milk], StoreOf) == [Group("S1", 100)];
    assert GroupRows(rows, StoreOf) == [Group("S1", 150)];
  }
}
