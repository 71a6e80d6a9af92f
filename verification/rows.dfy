/**
  One row of the sales table loaded from the dataset's CSV file. Only the
  columns the dashboard computes with are kept: `Category`, `Store ID`,
  `Sales` and `Date`. Sales are whole numbers here rather than floats.
 */
module Rows {
  import opened Dates

  datatype Row = Row(category: string, storeId: string, sales: int, date: Date)

  /** The sum of the `Sales` column over `rows`. */
  function SumSales(rows: seq<Row>): int {
    if |rows| == 0 then 0
    else SumSales(rows[..|rows| - 1]) + rows[|rows| - 1].sales
  }

  /** The dates of `rows`, in row order. */
  function DatesOf(rows: seq<Row>): (ds: seq<Date>)
    ensures |ds| == |rows|
    ensures forall i :: 0 <= i < |rows| ==> ds[i] == rows[i].date
  {
    seq(|rows|, i requires 0 <= i < |rows| => rows[i].date)
  }
}
