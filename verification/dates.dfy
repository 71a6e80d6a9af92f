/**
  Calendar days as the dashboard compares them once `pd.to_datetime` has
  parsed the `Date` column: a (year, month, day) triple ordered
  lexicographically. Parsing itself is not modelled, and a day carries no
  time-of-day component.
 */
module Dates {

  datatype Date = Date(year: int, month: int, day: int)

  /** `a` falls on or before `b`. */
  predicate Le(a: Date, b: Date) {
    || a.year < b.year
    || (a.year == b.year && a.month < b.month)
    || (a.year == b.year && a.month == b.month && a.day <= b.day)
  }

  /** Any two days are comparable. */
  lemma LeTotal(a: Date, b: Date)
    ensures Le(a, b) || Le(b, a)
  {
  }

  lemma LeTransitive(a: Date, b: Date, c: Date)
    requires Le(a, b) && Le(b, c)
    ensures Le(a, c)
  {
  }

  /** Two days each on or before the other are the same day. */
  lemma LeAntisymmetric(a: Date, b: Date)
    requires Le(a, b) && Le(b, a)
    ensures a == b
  {
  }

  /** The earliest day in a non-empty list: pandas `Series.min()`. */
  function Earliest(ds: seq<Date>): (m: Date)
    requires |ds| > 0
    ensures m in ds
    ensures forall i :: 0 <= i < |ds| ==> Le(m, ds[i])
  {
    if |ds| == 1 then ds[0]
    else
      var rest := Earliest(ds[1..]);
      assert forall i :: 1 <= i < |ds| ==> ds[i] == ds[1..][i - 1];
      LeTotal(ds[0], rest);
      if Le(ds[0], rest) then ds[0] else rest
  }

  /** The latest day in a non-empty list: pandas `Series.max()`. */
  function Latest(ds: seq<Date>): (m: Date)
    requires |ds| > 0
    ensures m in ds
    ensures forall i :: 0 <= i < |ds| ==> Le(ds[i], m)
  {
    if |ds| == 1 then ds[0]
    else
      var rest := Latest(ds[1..]);
      assert forall i :: 1 <= i < |ds| ==> ds[i] == ds[1..][i - 1];
      LeTotal(ds[0], rest);
      if Le(rest, ds[0]) then ds[0] else rest
  }

  /** A date in the list that is on or before every date in it is the one `Earliest` returns. */
  lemma EarliestUnique(ds: seq<Date>, m: Date)
    requires m in ds
    requires forall i :: 0 <= i < |ds| ==> Le(m, ds[i])
    ensures m == Earliest(ds)
  {
    var e := Earliest(ds);
    var i :| 0 <= i < |ds| && ds[i] == e;
    var j :| 0 <= j < |ds| && ds[j] == m;
    LeAntisymmetric(m, e);
  }

  /** A date in the list that is on or after every date in it is the one `Latest` returns. */
  lemma LatestUnique(ds: seq<Date>, m: Date)
    requires m in ds
    requires forall i :: 0 <= i < |ds| ==> Le(ds[i], m)
    ensures m == Latest(ds)
  {
    var l := Latest(ds);
    var i :| 0 <= i < |ds| && ds[i] == l;
    var j :| 0 <= j < |ds| && ds[j] == m;
    LeAntisymmetric(m, l);
  }
}
