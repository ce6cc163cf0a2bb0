/** The aggregation stage: reload the cleaned table, recompute TotalPrice
    and the year and month, and reduce it to four views. */
module Aggregation {
  import opened Wrappers
  import opened Table
  import opened Grouping

  /** How many rows the top-products and top-countries views keep. */
  const TopCount: nat := 10

  /** A (Year, Month) group key. */
  datatype Period = Period(year: int, month: int)

  /** The text columns the other views group by. */
  datatype Dimension = ByDescription | ByCountry | ByCustomer

  /** The four views, in the order they are returned. */
  datatype Aggregates = Aggregates(
    monthlyRevenue: seq<Group<Period>>,
    topProducts: seq<Group<string>>,
    countryRevenue: seq<Group<string>>,
    clv: seq<Group<string>>)

  // ---------------------------------------------------------------------
  // Recomputed columns

  /** Quantity times unit price: the value TotalPrice must hold. */
  function LineTotal(row: Row): int {
    row.quantity * row.unitPrice
  }

  function RecomputeRow(row: Row): (r: Row)
    ensures r.totalPrice == Some(LineTotal(row))
    ensures r.year.Some? <==> row.invoiceDate.Some?
    ensures r.month.Some? <==> row.invoiceDate.Some?
    ensures row.invoiceDate.Some? ==>
      r.year == Some(row.invoiceDate.value.year) && r.month == Some(row.invoiceDate.value.month)
    ensures r == row.(totalPrice := r.totalPrice, year := r.year, month := r.month)
  {
    match row.invoiceDate
    case Some(d) =>
      row.(totalPrice := Some(LineTotal(row)), year := Some(d.year), month := Some(d.month))
    case None =>
      row.(totalPrice := Some(LineTotal(row)), year := None, month := None)
  }

  /** Overwrites TotalPrice, Year and Month of every row, whatever the
      reloaded file held; Day is left as it was. */
  function RecomputeFeatures(t: seq<Row>): (r: seq<Row>)
    ensures |r| == |t|
    ensures forall i :: 0 <= i < |t| ==>
      && r[i].totalPrice == Some(t[i].quantity * t[i].unitPrice)
      && (r[i].year.Some? <==> t[i].invoiceDate.Some?)
      && (r[i].month.Some? <==> t[i].invoiceDate.Some?)
      && (t[i].invoiceDate.Some? ==>
            && r[i].year == Some(t[i].invoiceDate.value.year)
            && r[i].month == Some(t[i].invoiceDate.value.month))
      && r[i] == t[i].(totalPrice := r[i].totalPrice, year := r[i].year, month := r[i].month)
  {
    seq(|t|, i requires 0 <= i < |t| => RecomputeRow(t[i]))
  }

  // ---------------------------------------------------------------------
  // Reference sums over the table

  /** The TotalPrice a sum adds for a row. A row the recompute step has
      not seen may still have no TotalPrice; such a row adds nothing. */
  function Amount(row: Row): int {
    row.totalPrice.GetOr(0)
  }

  function KeyOf(row: Row, dim: Dimension): string {
    match dim
    case ByDescription => row.description
    case ByCountry => row.country
    case ByCustomer => row.customerId
  }

  /** The (Year, Month) of a row, absent when either part is null. */
  function PeriodOf(row: Row): Option<Period> {
    if row.year.Some? && row.month.Some? then Some(Period(row.year.value, row.month.value)) else None
  }

  /** The sum of TotalPrice over the whole table. */
  function Revenue(t: seq<Row>): int {
    if |t| == 0 then 0 else Amount(t[0]) + Revenue(t[1..])
  }

  /** The sum of TotalPrice over the rows whose `dim` column is `k`. */
  function RevenueFor(t: seq<Row>, dim: Dimension, k: string): int {
    if |t| == 0 then 0
    else (if KeyOf(t[0], dim) == k then Amount(t[0]) else 0) + RevenueFor(t[1..], dim, k)
  }

  /** The sum of TotalPrice over the rows of period `p`. */
  function RevenueIn(t: seq<Row>, p: Period): int {
    if |t| == 0 then 0
    else (if PeriodOf(t[0]) == Some(p) then Amount(t[0]) else 0) + RevenueIn(t[1..], p)
  }

  /** The sum of TotalPrice over the rows that have a period. */
  function DatedRevenue(t: seq<Row>): int {
    if |t| == 0 then 0
    else (if PeriodOf(t[0]).Some? then Amount(t[0]) else 0) + DatedRevenue(t[1..])
  }

  /** The distinct values of the `dim` column. */
  function KeyValues(t: seq<Row>, dim: Dimension): set<string> {
    if |t| == 0 then {} else {KeyOf(t[0], dim)} + KeyValues(t[1..], dim)
  }

  /** The distinct periods present. */
  function Periods(t: seq<Row>): set<Period> {
    if |t| == 0 then {}
    else (if PeriodOf(t[0]).Some? then {PeriodOf(t[0]).value} else {}) + Periods(t[1..])
  }

  /** The sum of Quantity times UnitPrice over the table. */
  function SalesTotal(t: seq<Row>): int {
    if |t| == 0 then 0 else LineTotal(t[0]) + SalesTotal(t[1..])
  }

  /** The sum of Quantity times UnitPrice over the rows with a date. */
  function DatedSalesTotal(t: seq<Row>): int {
    if |t| == 0 then 0
    else (if t[0].invoiceDate.Some? then LineTotal(t[0]) else 0) + DatedSalesTotal(t[1..])
  }

  // ---------------------------------------------------------------------
  // One (key, amount) pair per row

  /** Each row as a (`dim` value, TotalPrice) pair. */
  function DimensionEntries(t: seq<Row>, dim: Dimension): (ps: seq<Group<string>>)
    ensures |ps| == |t|
    ensures Keys(ps) == KeyValues(t, dim)
    ensures Total(ps) == Revenue(t)
    ensures forall k :: SumFor(ps, k) == RevenueFor(t, dim, k)
  {
    if |t| == 0 then []
    else
      var rest := DimensionEntries(t[1..], dim);
      var ps := [Group(KeyOf(t[0], dim), Amount(t[0]))] + rest;
      assert ps[1..] == rest;
      ps
  }

  /** Each dated row as a ((Year, Month), TotalPrice) pair; rows without
      a period are dropped, as grouping drops null keys. */
  function PeriodEntries(t: seq<Row>): (ps: seq<Group<Period>>)
    ensures Keys(ps) == Periods(t)
    ensures Total(ps) == DatedRevenue(t)
    ensures forall p :: SumFor(ps, p) == RevenueIn(t, p)
  {
    if |t| == 0 then []
    else
      var rest := PeriodEntries(t[1..]);
      match PeriodOf(t[0])
      case Some(p) =>
        var ps := [Group(p, Amount(t[0]))] + rest;
        assert ps[1..] == rest;
        ps
      case None => rest
  }

  // ---------------------------------------------------------------------
  // Orders

  /** Ascending (Year, Month). */
  predicate PeriodAscending(a: Group<Period>, b: Group<Period>) {
    a.key.year < b.key.year || (a.key.year == b.key.year && a.key.month <= b.key.month)
  }

  /** Strictly earlier period. */
  predicate PeriodBefore(p: Period, q: Period) {
    p.year < q.year || (p.year == q.year && p.month < q.month)
  }

  /** Code-point lexicographic order on strings, as Python compares them. */
  predicate StrLe(a: string, b: string) {
    if |a| == 0 then true
    else if |b| == 0 then false
    else if a[0] != b[0] then a[0] < b[0]
    else StrLe(a[1..], b[1..])
  }

  /** Ascending group key. */
  predicate KeyAscending(a: Group<string>, b: Group<string>) {
    StrLe(a.key, b.key)
  }

  lemma {:induction false} StrLeTotal(a: string, b: string)
    ensures StrLe(a, b) || StrLe(b, a)
  {
    if |a| > 0 && |b| > 0 && a[0] == b[0] {
      StrLeTotal(a[1..], b[1..]);
    }
  }

  lemma KeyAscendingConnected()
    ensures Connected(KeyAscending)
  {
    forall a: Group<string>, b: Group<string> ensures KeyAscending(a, b) || KeyAscending(b, a) {
      StrLeTotal(a.key, b.key);
    }
  }

  // ---------------------------------------------------------------------
  // The four views

  /** Revenue per (Year, Month): one row per period present, ascending,
      each the sum of its rows; rows without a date are not counted. */
  function MonthlyRevenue(t: seq<Row>): (r: seq<Group<Period>>)
    ensures DistinctKeys(r)
    ensures Keys(r) == Periods(t)
    ensures |r| == |Periods(t)|
    ensures forall j :: 0 <= j < |r| ==> r[j].total == RevenueIn(t, r[j].key)
    ensures forall j :: 0 <= j && j + 1 < |r| ==> PeriodBefore(r[j].key, r[j + 1].key)
    ensures Total(r) == DatedRevenue(t)
  {
    var g := GroupSum(PeriodEntries(t));
    var r := Sort(g, PeriodAscending);
    SortDistinct(g, PeriodAscending);
    SortSums(g, PeriodAscending);
    SortSorted(g, PeriodAscending);
    DistinctKeysCardinality(r);
    RowsCarryKeySums(r);
    r
  }

  /** The `TopCount` largest group sums of the `dim` column, largest first;
      any value left out sums to no more than any value kept. */
  function TopRevenue(t: seq<Row>, dim: Dimension): (r: seq<Group<string>>)
    ensures |r| == if |KeyValues(t, dim)| < TopCount then |KeyValues(t, dim)| else TopCount
    ensures DistinctKeys(r)
    ensures forall j :: 0 <= j < |r| ==>
      r[j].key in KeyValues(t, dim) && r[j].total == RevenueFor(t, dim, r[j].key)
    ensures forall i, j :: 0 <= i < j < |r| ==> r[i].total >= r[j].total
    ensures forall k, j :: k in KeyValues(t, dim) && k !in Keys(r) && 0 <= j < |r| ==>
      RevenueFor(t, dim, k) <= r[j].total
  {
    var g := GroupSum(DimensionEntries(t, dim));
    var s := Sort(g, ByTotalDescending);
    SortDistinct(g, ByTotalDescending);
    SortSums(g, ByTotalDescending);
    SortSorted(g, ByTotalDescending);
    DistinctKeysCardinality(s);
    HeadOfDescending(s, TopCount);
    Head(s, TopCount)
  }

  /** Revenue per customer: one row per distinct CustomerID (all anonymous
      lines under one key), ascending by id, not truncated. */
  function CustomerLifetimeValue(t: seq<Row>): (r: seq<Group<string>>)
    ensures DistinctKeys(r)
    ensures Keys(r) == KeyValues(t, ByCustomer)
    ensures |r| == |KeyValues(t, ByCustomer)|
    ensures forall j :: 0 <= j < |r| ==> r[j].total == RevenueFor(t, ByCustomer, r[j].key)
    ensures forall j :: 0 <= j && j + 1 < |r| ==>
      StrLe(r[j].key, r[j + 1].key) && r[j].key != r[j + 1].key
    ensures Total(r) == Revenue(t)
  {
    var g := GroupSum(DimensionEntries(t, ByCustomer));
    var r := Sort(g, KeyAscending);
    SortDistinct(g, KeyAscending);
    SortSums(g, KeyAscending);
    KeyAscendingConnected();
    SortSorted(g, KeyAscending);
    DistinctKeysCardinality(r);
    RowsCarryKeySums(r);
    r
  }

  /** The whole aggregation stage without the file reads and writes. */
  function PrepareAggregates(t: seq<Row>): (a: Aggregates)
    ensures Total(a.clv) == SalesTotal(t)
    ensures Total(a.monthlyRevenue) == DatedSalesTotal(t)
    ensures (forall i :: 0 <= i < |t| ==> t[i].invoiceDate.Some?) ==>
      Total(a.monthlyRevenue) == SalesTotal(t)
    ensures |a.topProducts| <= TopCount && |a.countryRevenue| <= TopCount
    ensures forall p :: p in Keys(a.monthlyRevenue) <==> exists i :: 0 <= i < |t| && DatedIn(t[i], p)
    ensures Keys(a.clv) == KeyValues(t, ByCustomer)
  {
    var r := RecomputeFeatures(t);
    RecomputedTotals(t);
    RecomputedPeriods(t);
    RecomputedKeys(t, ByCustomer);
    Aggregates(MonthlyRevenue(r), TopRevenue(r, ByDescription), TopRevenue(r, ByCountry),
               CustomerLifetimeValue(r))
  }

  /** After recomputation every sum is a sum of Quantity times UnitPrice,
      and the dated sum is the whole sum when every row has a date. */
  lemma {:induction false} RecomputedTotals(t: seq<Row>)
    ensures Revenue(RecomputeFeatures(t)) == SalesTotal(t)
    ensures DatedRevenue(RecomputeFeatures(t)) == DatedSalesTotal(t)
    ensures (forall i :: 0 <= i < |t| ==> t[i].invoiceDate.Some?) ==> DatedSalesTotal(t) == SalesTotal(t)
  {
    if |t| > 0 {
      var r := RecomputeFeatures(t);
      assert r[1..] == RecomputeFeatures(t[1..]);
      RecomputedTotals(t[1..]);
      assert (forall i :: 0 <= i < |t| ==> t[i].invoiceDate.Some?) ==>
        (forall i :: 0 <= i < |t[1..]| ==> t[1..][i].invoiceDate.Some?) by {
        if forall i :: 0 <= i < |t| ==> t[i].invoiceDate.Some? {
          forall i | 0 <= i < |t[1..]| ensures t[1..][i].invoiceDate.Some? {
            assert t[1..][i] == t[i + 1];
          }
        }
      }
    }
  }

  /** The row's invoice date falls in period `p`. */
  predicate DatedIn(row: Row, p: Period) {
    row.invoiceDate.Some? && row.invoiceDate.value.year == p.year && row.invoiceDate.value.month == p.month
  }

  /** After recomputation the periods present are those of the dated rows. */
  lemma {:induction false} RecomputedPeriods(t: seq<Row>)
    ensures forall p :: p in Periods(RecomputeFeatures(t)) <==> exists i :: 0 <= i < |t| && DatedIn(t[i], p)
  {
    if |t| > 0 {
      var r := RecomputeFeatures(t);
      assert r[1..] == RecomputeFeatures(t[1..]);
      RecomputedPeriods(t[1..]);
      forall p ensures p in Periods(r) <==> exists i :: 0 <= i < |t| && DatedIn(t[i], p) {
        DatedInSplit(t, p);
      }
    }
  }

  /** A period occurs in a non-empty table when it is the head's or occurs in the tail. */
  lemma DatedInSplit(t: seq<Row>, p: Period)
    requires |t| > 0
    ensures (exists i :: 0 <= i < |t| && DatedIn(t[i], p))
      <==> DatedIn(t[0], p) || exists i :: 0 <= i < |t[1..]| && DatedIn(t[1..][i], p)
  {
    if exists i :: 0 <= i < |t| && DatedIn(t[i], p) {
      var i :| 0 <= i < |t| && DatedIn(t[i], p);
      if i > 0 { assert DatedIn(t[1..][i - 1], p); }
    }
    if exists i :: 0 <= i < |t[1..]| && DatedIn(t[1..][i], p) {
      var i :| 0 <= i < |t[1..]| && DatedIn(t[1..][i], p);
      assert DatedIn(t[i + 1], p);
    }
  }

  /** Recomputation leaves the text columns, and so their values, alone. */
  lemma {:induction false} RecomputedKeys(t: seq<Row>, dim: Dimension)
    ensures KeyValues(RecomputeFeatures(t), dim) == KeyValues(t, dim)
  {
    if |t| > 0 {
      var r := RecomputeFeatures(t);
      assert r[1..] == RecomputeFeatures(t[1..]);
      RecomputedKeys(t[1..], dim);
    }
  }

  /** Two lines of customer "A" worth 10 and 5 give one CLV row of 15. */
  lemma CustomerLifetimeValueScenario(a: Row, b: Row)
    requires a.customerId == "A" && b.customerId == "A"
    requires a.totalPrice == Some(10) && b.totalPrice == Some(5)
    ensures CustomerLifetimeValue([a, b]) == [Group("A", 15)]
  {
    OneCustomerTwoLines(a, b);
    var r := CustomerLifetimeValue([a, b]);
    assert |r| == 1;
    KeysIndex(r, "A");
    assert r[0].key == "A";
  }

  lemma OneCustomerTwoLines(a: Row, b: Row)
    requires a.customerId == "A" && b.customerId == "A"
    requires a.totalPrice == Some(10) && b.totalPrice == Some(5)
    ensures KeyValues([a, b], ByCustomer) == {"A"}
    ensures RevenueFor([a, b], ByCustomer, "A") == 15
  {
    var t := [a, b];
    assert t[1..] == [b];
    assert [b][1..] == [];
    assert KeyValues([b], ByCustomer) == {"A"};
    assert Amount(a) == 10 && Amount(b) == 5;
    assert RevenueFor([b], ByCustomer, "A") == 5;
  }
}
