/**
  The dashboard's date filter: keep the rows whose `Date` is on or after the
  start day and on or before the end day, in their original order, as
  pandas' boolean indexing `data[(date >= start) & (date <= end)]` does.
  Both widgets default to the earliest and the latest date in the data.
 */
module DateFilter {
  import opened Options
  import opened Dates
  import opened Rows

  /** `d` lies in the closed interval from `start` to `end`. */
  predicate InRange(d: Date, start: Date, end: Date) {
    Le(start, d) && Le(d, end)
  }

  /** The rows dated from `start` to `end`, both days included, in input order. */
  function FilterByDate(rows: seq<Row>, start: Date, end: Date): (r: seq<Row>)
    ensures forall x :: x in r <==> x in rows && InRange(x.date, start, end)
    ensures |r| <= |rows|
  {
    if |rows| == 0 then []
    else
      var prefix := rows[..|rows| - 1];
      var last := rows[|rows| - 1];
      assert rows == prefix + [last];
      FilterByDate(prefix, start, end) + (if InRange(last.date, start, end) then [last] else [])
  }

  /**
    The positions of the rows the filter keeps, in increasing order: the
    positions where the boolean mask is true.
   */
  function KeptPositions(rows: seq<Row>, start: Date, end: Date): (idx: seq<int>)
    ensures forall i :: 0 <= i < |idx| ==> 0 <= idx[i] < |rows|
    ensures forall i, j :: 0 <= i < j < |idx| ==> idx[i] < idx[j]
    ensures forall j :: 0 <= j < |rows| ==> (j in idx <==> InRange(rows[j].date, start, end))
  {
    if |rows| == 0 then []
    else
      var n := |rows| - 1;
      var p := KeptPositions(rows[..n], start, end);
      assert forall j :: 0 <= j < n ==> rows[j] == rows[..n][j];
      assert n !in p;
      if InRange(rows[n].date, start, end) then p + [n] else p
  }

  /**
    The filtered rows are exactly the input rows at the kept positions, taken
    in increasing position order: rows are neither reordered, altered nor
    duplicated, and every row in range is kept.
   */
  lemma {:induction false} FilterKeepsOrder(rows: seq<Row>, start: Date, end: Date)
    ensures |FilterByDate(rows, start, end)| == |KeptPositions(rows, start, end)|
    ensures forall i :: 0 <= i < |KeptPositions(rows, start, end)| ==>
              FilterByDate(rows, start, end)[i] == rows[KeptPositions(rows, start, end)[i]]
  {
    if |rows| > 0 {
      var n := |rows| - 1;
      var prefix := rows[..n];
      FilterKeepsOrder(prefix, start, end);
      var p := KeptPositions(prefix, start, end);
      var fp := FilterByDate(prefix, start, end);
      var idx := KeptPositions(rows, start, end);
      var r := FilterByDate(rows, start, end);
      var keep := InRange(rows[n].date, start, end);
      assert idx == if keep then p + [n] else p;
      assert r == fp + (if keep then [rows[n]] else []);
      forall i | 0 <= i < |idx|
        ensures r[i] == rows[idx[i]]
      {
        if i < |p| {
          assert idx[i] == p[i] && r[i] == fp[i];
          assert fp[i] == prefix[p[i]];
        }
      }
    }
  }

  /** Filtering a concatenation filters each part and concatenates the results. */
  lemma {:induction false} FilterAppend(a: seq<Row>, b: seq<Row>, start: Date, end: Date)
    ensures FilterByDate(a + b, start, end) == FilterByDate(a, start, end) + FilterByDate(b, start, end)
    decreases |b|
  {
    if |b| == 0 {
      assert a + b == a;
    } else {
      var b' := b[..|b| - 1];
      var last := b[|b| - 1];
      assert (a + b)[..|a + b| - 1] == a + b';
      assert (a + b)[|a + b| - 1] == last;
      FilterAppend(a, b', start, end);
    }
  }

  /** Rows that all lie in the range pass the filter untouched. */
  lemma {:induction false} FilterKeepsAllInRange(rows: seq<Row>, start: Date, end: Date)
    requires forall i :: 0 <= i < |rows| ==> InRange(rows[i].date, start, end)
    ensures FilterByDate(rows, start, end) == rows
  {
    if |rows| > 0 {
      var prefix := rows[..|rows| - 1];
      FilterKeepsAllInRange(prefix, start, end);
      assert rows == prefix + [rows[|rows| - 1]];
    }
  }

  /** Filtering again with the same bounds changes nothing. */
  lemma FilterIdempotent(rows: seq<Row>, start: Date, end: Date)
    ensures FilterByDate(FilterByDate(rows, start, end), start, end) == FilterByDate(rows, start, end)
  {
    var r := FilterByDate(rows, start, end);
    assert forall i :: 0 <= i < |r| ==> r[i] in r;
    FilterKeepsAllInRange(r, start, end);
  }

  /** A start day after the end day selects nothing; it is not an error. */
  lemma FilterEmptyWhenStartAfterEnd(rows: seq<Row>, start: Date, end: Date)
    requires !Le(start, end)
    ensures FilterByDate(rows, start, end) == []
  {
    var r := FilterByDate(rows, start, end);
    if |r| > 0 {
      assert r[0] in r;
      LeTransitive(start, r[0].date, end);
    }
  }

  /**
    The widgets' default bounds: the earliest and the latest date in the
    data. With no rows there are no dates, and pandas reports `NaT`.
   */
  function DefaultBounds(rows: seq<Row>): (b: Option<(Date, Date)>)
    ensures b.None? <==> |rows| == 0
    ensures b.Some? ==> forall i :: 0 <= i < |rows| ==> InRange(rows[i].date, b.value.0, b.value.1)
    ensures b.Some? ==> exists i :: 0 <= i < |rows| && rows[i].date == b.value.0
    ensures b.Some? ==> exists j :: 0 <= j < |rows| && rows[j].date == b.value.1
  {
    if |rows| == 0 then None
    else
      var ds := DatesOf(rows);
      var lo := Earliest(ds);
      var hi := Latest(ds);
      Some((lo, hi))
  }

  /** With the default bounds every row is kept, in its original order. */
  lemma DefaultBoundsKeepEveryRow(rows: seq<Row>)
    requires DefaultBounds(rows).Some?
    ensures FilterByDate(rows, DefaultBounds(rows).value.0, DefaultBounds(rows).value.1) == rows
  {
    var b := DefaultBounds(rows).value;
    FilterKeepsAllInRange(rows, b.0, b.1);
  }
}
