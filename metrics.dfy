/**
 * The four aggregators of scripts/analyzes.py. Each groups the cleaned
 * table by `Shop`, averages one column per shop, rounds the average to two
 * decimals and sorts the shops by it. `Aggregate` is the common shape,
 * parametrised by the column, the direction and whether an absent column
 * gives the empty frame `pd.DataFrame()` (here `Unavailable`).
 */
module Metrics {
  import opened Wrappers
  import opened Sequences
  import opened Numbers
  import opened Table
  import Cleaning

  const ShopColumn := "Shop"
  const BayTime := "BayTime"
  const Cpd := "CPD"

  datatype Order = Ascending | Descending

  /** One row of an aggregate: a shop and its rounded mean; `None` is NaN (a shop with no value). */
  datatype Entry = Entry(shop: Cell, value: Option<real>)

  /** `pd.DataFrame()` for an absent column, or the sorted per-shop rows. */
  datatype Ranking = Unavailable | Ranked(entries: seq<Entry>)

  // ---- Grouping ----

  /** Some row of `rows` belongs to `shop`. */
  predicate HasShop(rows: seq<Row>, shop: Cell) {
    exists i :: 0 <= i < |rows| && Get(rows[i], ShopColumn) == shop
  }

  /** The group keys in row order, with repeats; `groupby` drops a missing key. */
  function ShopCells(rows: seq<Row>): (s: seq<Cell>)
    ensures forall c :: c in s <==> c != Missing && HasShop(rows, c)
  {
    if rows == [] then []
    else
      var c := Get(rows[0], ShopColumn);
      var rest := ShopCells(rows[1..]);
      assert forall d :: HasShop(rows, d) <==> c == d || HasShop(rows[1..], d) by {
        forall d ensures HasShop(rows, d) <==> c == d || HasShop(rows[1..], d) {
          if HasShop(rows[1..], d) {
            var i :| 0 <= i < |rows[1..]| && Get(rows[1..][i], ShopColumn) == d;
            assert Get(rows[i + 1], ShopColumn) == d;
          }
          if HasShop(rows, d) && c != d {
            var i :| 0 <= i < |rows| && Get(rows[i], ShopColumn) == d;
            assert Get(rows[1..][i - 1], ShopColumn) == d;
          }
        }
      }
      if c == Missing then rest else [c] + rest
  }

  /** The groups: every shop once. */
  function Shops(rows: seq<Row>): (s: seq<Cell>)
    ensures Distinct(s)
    ensures forall c :: c in s <==> c != Missing && HasShop(rows, c)
  {
    Dedup(ShopCells(rows))
  }

  /** The numbers in `field` of the rows of `shop`, in row order; `mean` skips missing values. */
  function Values(rows: seq<Row>, shop: Cell, field: string): (v: seq<real>)
    ensures |v| <= |rows|
  {
    if rows == [] then []
    else
      var rest := Values(rows[1..], shop, field);
      var c := Get(rows[0], field);
      if Get(rows[0], ShopColumn) == shop && c.Num? then [c.x] + rest else rest
  }

  function Sum(v: seq<real>): real {
    if v == [] then 0.0 else v[0] + Sum(v[1..])
  }

  /** The arithmetic mean: the number whose `|v|` copies add up to the sum. */
  function Mean(v: seq<real>): (m: real)
    requires v != []
    ensures m * |v| as real == Sum(v)
  {
    Sum(v) / |v| as real
  }

  /** `.mean().round(2)` for one group: NaN when the group has no number. */
  function GroupValue(rows: seq<Row>, shop: Cell, field: string): Option<real> {
    var v := Values(rows, shop, field);
    if v == [] then None else Some(Round2(Mean(v)))
  }

  /**
   * A group's values are the numbers in that shop's rows, and every such
   * number is among them; there are none exactly when no such row has a number.
   */
  lemma {:induction false} ValuesFound(rows: seq<Row>, shop: Cell, field: string)
    ensures var v := Values(rows, shop, field);
      && (v == [] <==> forall i :: 0 <= i < |rows| ==> !(Get(rows[i], ShopColumn) == shop && Get(rows[i], field).Num?))
      && (forall x :: x in v ==> exists i :: 0 <= i < |rows| && Get(rows[i], ShopColumn) == shop && Get(rows[i], field) == Num(x))
      && (forall i :: 0 <= i < |rows| && Get(rows[i], ShopColumn) == shop && Get(rows[i], field).Num? ==> Get(rows[i], field).x in v)
  {
    if rows != [] {
      ValuesFound(rows[1..], shop, field);
      assert forall i :: 1 <= i < |rows| ==> rows[1..][i - 1] == rows[i];
    }
  }

  /**
   * Collecting a shop's numbers works row by row: the numbers of two row
   * lists are those of the first followed by those of the second. With
   * `ValuesOne` this determines `Values` on every input, so each row of the
   * shop is averaged once.
   */
  lemma {:induction false} ValuesAppend(a: seq<Row>, b: seq<Row>, shop: Cell, field: string)
    ensures Values(a + b, shop, field) == Values(a, shop, field) + Values(b, shop, field)
  {
    if a == [] {
      assert a + b == b;
    } else {
      var ab := a + b;
      assert ab[0] == a[0];
      assert ab[1..] == a[1..] + b;
      ValuesAppend(a[1..], b, shop, field);
      var c := Get(a[0], field);
      if Get(a[0], ShopColumn) == shop && c.Num? {
        assert Values(ab, shop, field) == [c.x] + Values(a[1..] + b, shop, field);
        assert Values(a, shop, field) == [c.x] + Values(a[1..], shop, field);
      } else {
        assert Values(ab, shop, field) == Values(a[1..] + b, shop, field);
        assert Values(a, shop, field) == Values(a[1..], shop, field);
      }
    }
  }

  /** One row gives its number exactly when it belongs to the shop and holds one. */
  lemma ValuesOne(r: Row, shop: Cell, field: string)
    ensures Values([r], shop, field) == if Get(r, ShopColumn) == shop && Get(r, field).Num? then [Get(r, field).x] else []
  {
    assert [r][1..] == [];
  }

  /** A group's value is NaN exactly when no row of the shop has a number, and otherwise within half a cent of their mean. */
  lemma GroupValueMeaning(rows: seq<Row>, shop: Cell, field: string)
    ensures var g := GroupValue(rows, shop, field);
      && (g.None? <==> forall i :: 0 <= i < |rows| ==> !(Get(rows[i], ShopColumn) == shop && Get(rows[i], field).Num?))
      && (g.Some? ==> -0.005 <= Mean(Values(rows, shop, field)) - g.value <= 0.005)
  {
    ValuesFound(rows, shop, field);
  }

  /** `mean` fails with a `TypeError` when a grouped cell of the column is text or a date. */
  predicate Numeric(rows: seq<Row>, field: string) {
    forall i :: 0 <= i < |rows| && Get(rows[i], ShopColumn) != Missing ==> IsNumOrMissing(Get(rows[i], field))
  }

  /** `.reset_index()`: one entry per group key. */
  function GroupEntries(shops: seq<Cell>, rows: seq<Row>, field: string): (g: seq<Entry>)
    ensures |g| == |shops|
    ensures forall k :: 0 <= k < |shops| ==> g[k] == Entry(shops[k], GroupValue(rows, shops[k], field))
  {
    if shops == [] then []
    else [Entry(shops[0], GroupValue(rows, shops[0], field))] + GroupEntries(shops[1..], rows, field)
  }

  function ShopsOf(entries: seq<Entry>): (s: seq<Cell>)
    ensures |s| == |entries|
    ensures forall k :: 0 <= k < |entries| ==> s[k] == entries[k].shop
  {
    seq(|entries|, k requires 0 <= k < |entries| => entries[k].shop)
  }

  // ---- Sorting ----

  /**
   * The order of `sort_values` on the value column: by value in the given
   * direction, NaN last in both directions.
   */
  predicate Before(order: Order, a: Entry, b: Entry) {
    if b.value.None? then true
    else if a.value.None? then false
    else if order == Descending then a.value.value >= b.value.value
    else a.value.value <= b.value.value
  }

  /** `Before` as the comparison handed to the sort. */
  function ByValue(order: Order): (Entry, Entry) -> bool {
    (a: Entry, b: Entry) => Before(order, a, b)
  }

  lemma BeforePreorder(order: Order)
    ensures TotalPreorder(ByValue(order))
  {
  }

  // ---- The common shape ----

  /**
   * `df.groupby('Shop')[field].mean().round(2).reset_index().sort_values(...)`,
   * behind the guard `if field not in df.columns: return pd.DataFrame()`
   * when `guarded`. Without the guard an absent column is a `KeyError`; the
   * `Shop` lookup comes first.
   */
  function Aggregate(t: Table, field: string, order: Order, guarded: bool): (r: Result<Ranking, Failure>)
    ensures r == Ok(Unavailable) <==> guarded && field !in t.columns
    ensures !(guarded && field !in t.columns) && ShopColumn !in t.columns ==> r == Err(MissingColumn(ShopColumn))
    ensures ShopColumn in t.columns && !guarded && field !in t.columns ==> r == Err(MissingColumn(field))
    ensures ShopColumn in t.columns && field in t.columns && !Numeric(t.rows, field) ==> r == Err(NotNumeric(field))
    ensures r.Ok? <==> (guarded && field !in t.columns) || (ShopColumn in t.columns && field in t.columns && Numeric(t.rows, field))
    ensures r.Ok? && r.value.Ranked? ==>
      && Sorted(r.value.entries, ByValue(order))
      && multiset(r.value.entries) == multiset(GroupEntries(Shops(t.rows), t.rows, field))
  {
    if guarded && field !in t.columns then Ok(Unavailable)
    else if ShopColumn !in t.columns then Err(MissingColumn(ShopColumn))
    else if field !in t.columns then Err(MissingColumn(field))
    else if !Numeric(t.rows, field) then Err(NotNumeric(field))
    else
      BeforePreorder(order);
      Ok(Ranked(SortBy(GroupEntries(Shops(t.rows), t.rows, field), ByValue(order))))
  }

  /** Group entries of distinct shops are distinct. */
  lemma GroupEntriesDistinct(shops: seq<Cell>, rows: seq<Row>, field: string)
    requires Distinct(shops)
    ensures Distinct(GroupEntries(shops, rows, field))
    ensures ShopsOf(GroupEntries(shops, rows, field)) == shops
  {
  }

  /** A reordering of the group entries of distinct shops: each entry carries its shop's value, every shop once. */
  lemma PermutedGroups(es: seq<Entry>, shops: seq<Cell>, rows: seq<Row>, field: string)
    requires Distinct(shops)
    requires multiset(es) == multiset(GroupEntries(shops, rows, field))
    ensures forall k :: 0 <= k < |es| ==> es[k].value == GroupValue(rows, es[k].shop, field)
    ensures forall c :: c in ShopsOf(es) <==> c in shops
    ensures Distinct(ShopsOf(es))
  {
    var g := GroupEntries(shops, rows, field);
    PermutationMembers(g, es);
    EntryValues(es, shops, rows, field);
    PermutedShops(es, g, shops);
    GroupEntriesDistinct(shops, rows, field);
    PermutationDistinct(g, es);
    DistinctShopsOf(es, g);
  }

  lemma EntryValues(es: seq<Entry>, shops: seq<Cell>, rows: seq<Row>, field: string)
    requires forall x :: x in es ==> x in GroupEntries(shops, rows, field)
    ensures forall k :: 0 <= k < |es| ==> es[k].value == GroupValue(rows, es[k].shop, field)
  {
    var g := GroupEntries(shops, rows, field);
    forall k | 0 <= k < |es| ensures es[k].value == GroupValue(rows, es[k].shop, field) {
      assert es[k] in g;
      var m :| 0 <= m < |g| && g[m] == es[k];
    }
  }

  lemma PermutedShops(es: seq<Entry>, g: seq<Entry>, shops: seq<Cell>)
    requires |g| == |shops| && forall k :: 0 <= k < |g| ==> g[k].shop == shops[k]
    requires forall x :: x in es <==> x in g
    ensures forall c :: c in ShopsOf(es) <==> c in shops
  {
    forall c | c in ShopsOf(es) ensures c in shops {
      var k :| 0 <= k < |es| && ShopsOf(es)[k] == c;
      assert es[k] in g;
    }
    forall c | c in shops ensures c in ShopsOf(es) {
      var m :| 0 <= m < |shops| && shops[m] == c;
      assert g[m] in es;
      var k :| 0 <= k < |es| && es[k] == g[m];
      assert ShopsOf(es)[k] == c;
    }
  }

  /** Distinct entries drawn from a list in which a shop determines its entry have distinct shops. */
  lemma DistinctShopsOf(es: seq<Entry>, g: seq<Entry>)
    requires Distinct(es) && Distinct(ShopsOf(g))
    requires forall x :: x in es ==> x in g
    ensures Distinct(ShopsOf(es))
  {
    forall i, j | 0 <= i < j < |es| ensures ShopsOf(es)[i] != ShopsOf(es)[j] {
      assert es[i] in g && es[j] in g;
      var a :| 0 <= a < |g| && g[a] == es[i];
      var b :| 0 <= b < |g| && g[b] == es[j];
      assert ShopsOf(g)[a] == es[i].shop && ShopsOf(g)[b] == es[j].shop;
    }
  }

  /**
   * An available aggregate has exactly one entry per non-missing shop of
   * the table, whose value is that shop's rounded mean, and its entries
   * come in the requested order with NaN last.
   */
  lemma RankedEntries(t: Table, field: string, order: Order, guarded: bool)
    requires Aggregate(t, field, order, guarded).Ok? && Aggregate(t, field, order, guarded).value.Ranked?
    ensures var es := Aggregate(t, field, order, guarded).value.entries;
      && (forall k :: 0 <= k < |es| ==> es[k].value == GroupValue(t.rows, es[k].shop, field))
      && (forall c :: c in ShopsOf(es) <==> c != Missing && HasShop(t.rows, c))
      && Distinct(ShopsOf(es))
      && (forall i, j :: 0 <= i < j < |es| ==> Before(order, es[i], es[j]))
  {
    var es := Aggregate(t, field, order, guarded).value.entries;
    PermutedGroups(es, Shops(t.rows), t.rows, field);
  }

  /** `top` is a shop of the table whose mean in `field` is at least that of every shop that has one. */
  ghost predicate Leads(t: Table, field: string, top: Cell) {
    && top != Missing && HasShop(t.rows, top)
    && forall c :: c != Missing && HasShop(t.rows, c) && GroupValue(t.rows, c, field).Some? ==>
         GroupValue(t.rows, top, field).Some? && GroupValue(t.rows, top, field).value >= GroupValue(t.rows, c, field).value
  }

  /** The first shop of a non-empty descending ranking leads it. */
  lemma FirstLeads(t: Table, field: string, guarded: bool)
    requires Aggregate(t, field, Descending, guarded).Ok? && Aggregate(t, field, Descending, guarded).value.Ranked?
    requires Aggregate(t, field, Descending, guarded).value.entries != []
    ensures Leads(t, field, Aggregate(t, field, Descending, guarded).value.entries[0].shop)
  {
    var es := Aggregate(t, field, Descending, guarded).value.entries;
    RankedEntries(t, field, Descending, guarded);
    ListLeads(es, t, field);
  }

  /** The first of a list that holds each shop's mean once, highest first, leads. */
  lemma ListLeads(es: seq<Entry>, t: Table, field: string)
    requires es != []
    requires forall k :: 0 <= k < |es| ==> es[k].value == GroupValue(t.rows, es[k].shop, field)
    requires forall c :: c in ShopsOf(es) <==> c != Missing && HasShop(t.rows, c)
    requires forall i, j :: 0 <= i < j < |es| ==> Before(Descending, es[i], es[j])
    ensures Leads(t, field, es[0].shop)
  {
    assert ShopsOf(es)[0] == es[0].shop && es[0].shop in ShopsOf(es);
    forall c | c != Missing && HasShop(t.rows, c) && GroupValue(t.rows, c, field).Some?
      ensures GroupValue(t.rows, es[0].shop, field).Some? && GroupValue(t.rows, es[0].shop, field).value >= GroupValue(t.rows, c, field).value
    {
      assert c in ShopsOf(es);
      var k :| 0 <= k < |es| && ShopsOf(es)[k] == c;
      assert k == 0 || Before(Descending, es[0], es[k]);
    }
  }

  /** Descending rankings do not increase, ascending ones do not decrease; a NaN is never followed by a number. */
  lemma RankedOrder(t: Table, field: string, order: Order, guarded: bool, i: nat, j: nat)
    requires Aggregate(t, field, order, guarded).Ok? && Aggregate(t, field, order, guarded).value.Ranked?
    requires i < j < |Aggregate(t, field, order, guarded).value.entries|
    ensures var es := Aggregate(t, field, order, guarded).value.entries;
      && (es[j].value.Some? ==> es[i].value.Some?)
      && (es[i].value.Some? && es[j].value.Some? && order == Descending ==> es[i].value.value >= es[j].value.value)
      && (es[i].value.Some? && es[j].value.Some? && order == Ascending ==> es[i].value.value <= es[j].value.value)
  {
    RankedEntries(t, field, order, guarded);
  }

  // ---- The four aggregators ----

  /** `analyze_highest_revenue`: mean daily sales, highest first; no guard. */
  function AnalyzeRevenue(t: Table): (r: Result<Ranking, Failure>)
    ensures r.Ok? ==> r.value.Ranked?
    ensures r.Ok? <==> ShopColumn in t.columns && Cleaning.SalesPerDay in t.columns && Numeric(t.rows, Cleaning.SalesPerDay)
  {
    Aggregate(t, Cleaning.SalesPerDay, Descending, false)
  }

  /** `analyze_lowest_baytime`: mean bay time, lowest first; empty when the column is absent. */
  function AnalyzeBayTime(t: Table): (r: Result<Ranking, Failure>)
    ensures r == Ok(Unavailable) <==> BayTime !in t.columns
  {
    Aggregate(t, BayTime, Ascending, true)
  }

  /** `analyze_highest_cpd`: mean cars per day, highest first; empty when the column is absent. */
  function AnalyzeCpd(t: Table): (r: Result<Ranking, Failure>)
    ensures r == Ok(Unavailable) <==> Cpd !in t.columns
  {
    Aggregate(t, Cpd, Descending, true)
  }

  /** One row of the growth result: the shop and its label, e.g. `12.5%`. */
  datatype GrowthRow = GrowthRow(shop: Cell, tag: string)

  /** `pd.DataFrame()` for an absent column, or the `Shop` and `Growth.Label` columns. */
  datatype Growth = NoGrowth | Labelled(rows: seq<GrowthRow>)

  /** `.astype(str) + '%'` on a two-decimal value; NaN prints as `nan`. */
  function Label(v: Option<real>): (s: string)
    ensures |s| > 0 && s[|s| - 1] == '%'
  {
    match v
    case None => "nan%"
    case Some(x) => PyRepr(RoundCents(x)) + "%"
  }

  function LabelRows(es: seq<Entry>): (r: seq<GrowthRow>)
    ensures |r| == |es|
    ensures forall k :: 0 <= k < |es| ==> r[k] == GrowthRow(es[k].shop, Label(es[k].value))
  {
    if es == [] then [] else [GrowthRow(es[0].shop, Label(es[0].value))] + LabelRows(es[1..])
  }

  /**
   * `analyze_highest_growth`: mean year-over-year growth, highest first,
   * reduced to the shop and the label; empty when the column is absent.
   */
  function AnalyzeGrowth(t: Table): (r: Result<Growth, Failure>)
    ensures r == Ok(NoGrowth) <==> Cleaning.NetSalesYoy !in t.columns
    ensures r.Err? <==> Aggregate(t, Cleaning.NetSalesYoy, Descending, true).Err?
  {
    match Aggregate(t, Cleaning.NetSalesYoy, Descending, true)
    case Err(e) => Err(e)
    case Ok(Unavailable) => Ok(NoGrowth)
    case Ok(Ranked(es)) => Ok(Labelled(LabelRows(es)))
  }

  /** The label of a two-decimal value is its text and a `%`, and that text parses back to the value. */
  lemma LabelRoundTrip(c: int)
    ensures var s := Label(Some(c as real / 100.0));
      ParseNumber(s[..|s| - 1]) == Some(c as real / 100.0)
  {
    LabelIsText(c);
    PercentTextRoundTrip(c);
  }

  lemma LabelIsText(c: int)
    ensures Label(Some(c as real / 100.0)) == PyRepr(c) + "%"
  {
    RoundExact(c);
  }

  /** The labels of 12.5 and 7.25 are `12.5%` and `7.25%`: no trailing zero is printed. */
  lemma LabelExamples()
    ensures Label(Some(12.5)) == "12.5%"
    ensures Label(Some(7.25)) == "7.25%"
  {
    LabelIsText(1250);
    LabelIsText(725);
    ReprExamples();
  }

  /**
   * Every growth label of an available result is `Label` of that shop's
   * rounded mean growth: `nan%`, or a text that parses back to the value.
   */
  lemma GrowthLabels(t: Table)
    requires AnalyzeGrowth(t).Ok? && AnalyzeGrowth(t).value.Labelled?
    ensures var rows := AnalyzeGrowth(t).value.rows;
      forall k :: 0 <= k < |rows| ==>
        rows[k].tag == Label(GroupValue(t.rows, rows[k].shop, Cleaning.NetSalesYoy))
    ensures var rows := AnalyzeGrowth(t).value.rows;
      forall k :: 0 <= k < |rows| ==>
        var s := rows[k].tag;
        match GroupValue(t.rows, rows[k].shop, Cleaning.NetSalesYoy)
        case None => s == "nan%"
        case Some(g) => ParseNumber(s[..|s| - 1]) == Some(g)
  {
    var es := Aggregate(t, Cleaning.NetSalesYoy, Descending, true).value.entries;
    RankedEntries(t, Cleaning.NetSalesYoy, Descending, true);
    var rows := AnalyzeGrowth(t).value.rows;
    assert rows == LabelRows(es);
    forall k | 0 <= k < |rows| ensures
      var s := rows[k].tag;
      match GroupValue(t.rows, rows[k].shop, Cleaning.NetSalesYoy)
      case None => s == "nan%"
      case Some(g) => ParseNumber(s[..|s| - 1]) == Some(g)
    {
      assert rows[k].tag == Label(GroupValue(t.rows, rows[k].shop, Cleaning.NetSalesYoy));
      GroupLabel(t.rows, rows[k].shop);
    }
  }

  /** The growth label of one shop. */
  lemma GroupLabel(rows: seq<Row>, shop: Cell)
    ensures var s := Label(GroupValue(rows, shop, Cleaning.NetSalesYoy));
      match GroupValue(rows, shop, Cleaning.NetSalesYoy)
      case None => s == "nan%"
      case Some(g) => ParseNumber(s[..|s| - 1]) == Some(g)
  {
    var v := Values(rows, shop, Cleaning.NetSalesYoy);
    if v != [] {
      var c := RoundCents(Mean(v));
      assert GroupValue(rows, shop, Cleaning.NetSalesYoy) == Some(c as real / 100.0);
      LabelRoundTrip(c);
    }
  }

  // ---- On cleaned tables ----

  lemma ShopNotDropped()
    ensures ShopColumn !in Cleaning.ColumnsToDrop
    ensures ShopColumn != Cleaning.SalesPerDay && ShopColumn != Cleaning.NetSalesYoy
  {
    assert forall k :: 0 <= k < |Cleaning.ColumnsToDrop| ==> |Cleaning.ColumnsToDrop[k]| > 1 && Cleaning.ColumnsToDrop[k][0] != 'S';
    assert Cleaning.SalesPerDay[1] != ShopColumn[1];
  }

  /** On a cleaned table that has shops, the revenue ranking always exists: daily sales are numbers or missing. */
  lemma CleanRevenueRanked(t: Table, toDate: Cell -> Option<int>)
    requires Cleaning.CleanKpi(t, toDate).Ok? && ShopColumn in t.columns
    ensures AnalyzeRevenue(Cleaning.CleanKpi(t, toDate).value).Ok?
  {
    ShopNotDropped();
    Cleaning.CleanedShape(t, toDate);
  }

  /** On a cleaned table that has shops and the growth column, the growth labels always exist. */
  lemma CleanGrowthLabelled(t: Table, toDate: Cell -> Option<int>)
    requires Cleaning.CleanKpi(t, toDate).Ok? && ShopColumn in t.columns && Cleaning.NetSalesYoy in t.columns
    ensures AnalyzeGrowth(Cleaning.CleanKpi(t, toDate).value).Ok?
    ensures AnalyzeGrowth(Cleaning.CleanKpi(t, toDate).value).value.Labelled?
  {
    ShopNotDropped();
    Cleaning.ColumnNamesDiffer();
    Cleaning.CleanedShape(t, toDate);
  }

  // ---- A worked example ----

  function SalesRow(shop: string, sales: real): Row {
    map[ShopColumn := Text(shop), Cleaning.SalesPerDay := Num(sales)]
  }

  function ExampleRows(): seq<Row> {
    [SalesRow("A", 100.0), SalesRow("A", 120.0), SalesRow("B", 50.0)]
  }

  lemma ExampleShops()
    ensures Shops(ExampleRows()) == [Text("A"), Text("B")]
  {
    var rows := ExampleRows();
    ShopNotDropped();
    assert ShopCells(rows[2..]) == [Text("B")];
    assert ShopCells(rows[1..]) == [Text("A"), Text("B")];
    var s := ShopCells(rows);
    assert s == [Text("A"), Text("A"), Text("B")];
    assert s[..2] == [Text("A"), Text("A")] && s[..2][..1] == [Text("A")] && s[..2][..1][..0] == [];
  }

  lemma ExampleValues()
    ensures Values(ExampleRows(), Text("A"), Cleaning.SalesPerDay) == [100.0, 120.0]
    ensures Values(ExampleRows(), Text("B"), Cleaning.SalesPerDay) == [50.0]
  {
    var rows := ExampleRows();
    ShopNotDropped();
    assert rows[1..][1..] == rows[2..];
    assert Values(rows[2..], Text("A"), Cleaning.SalesPerDay) == [];
    assert Values(rows[2..], Text("B"), Cleaning.SalesPerDay) == [50.0];
  }

  lemma ExampleMeans()
    ensures GroupValue(ExampleRows(), Text("A"), Cleaning.SalesPerDay) == Some(110.0)
    ensures GroupValue(ExampleRows(), Text("B"), Cleaning.SalesPerDay) == Some(50.0)
  {
    ExampleValues();
    assert Mean([100.0, 120.0]) == 110.0;
    assert Mean([50.0]) == 50.0;
    RoundExact(11000);
    RoundExact(5000);
  }

  lemma ExampleNumeric()
    ensures Numeric(ExampleRows(), Cleaning.SalesPerDay)
  {
    ShopNotDropped();
  }

  lemma ExampleGroups()
    ensures GroupEntries(Shops(ExampleRows()), ExampleRows(), Cleaning.SalesPerDay)
         == [Entry(Text("A"), Some(110.0)), Entry(Text("B"), Some(50.0))]
  {
    ExampleShops();
    ExampleMeans();
  }

  /** Sorting two entries already in order leaves them as they are. */
  lemma SortPair(a: Entry, b: Entry, order: Order)
    requires Before(order, a, b)
    ensures SortBy([a, b], ByValue(order)) == [a, b]
  {
    var le := ByValue(order);
    BeforePreorder(order);
    assert [a, b][1..] == [b];
    assert SortBy([b], le) == [b] by { assert [b][1..] == []; }
  }

  /** Shop A with daily sales 100 and 120 and shop B with 50 rank as A at 110, then B at 50. */
  lemma RevenueExample()
    ensures AnalyzeRevenue(Table([ShopColumn, Cleaning.SalesPerDay], ExampleRows()))
         == Ok(Ranked([Entry(Text("A"), Some(110.0)), Entry(Text("B"), Some(50.0))]))
  {
    var t := Table([ShopColumn, Cleaning.SalesPerDay], ExampleRows());
    ExampleNumeric();
    ExampleGroups();
    var a, b := Entry(Text("A"), Some(110.0)), Entry(Text("B"), Some(50.0));
    SortPair(a, b, Descending);
  }
}
