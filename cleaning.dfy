/**
 * `clean_and_process_kpi` (scripts/analyzes.py): date coercion, three masks
 * on the raw daily-sales cell, currency stripping and numeric coercion of
 * that cell, a mask on two ratio columns, dropping of five known columns and
 * an optional percentage cleanup of the year-over-year growth column.
 *
 * `CleanKpi` is the specification on table values; `CleanAndProcess` is the
 * step-by-step procedure on a mutable `Frame`, proved to compute it.
 */
module Cleaning {
  import opened Wrappers
  import opened Text
  import opened Numbers
  import opened Table
  import opened Sequences

  const WeekEnding := "WeekEndingCY"
  const SalesPerDay := "Sales / Day"
  const CpdPriorYear := "CPD - PY"
  const RepeatPct := "Customers Repeat % - CY"
  const NetSalesYoy := "Net Sales - YoY %"

  const ColumnsToDrop: seq<string> := [
    "High.Mileage.Opportunity...CY", "Emission.Tickets...CY",
    "Emission.Gross.ARO...CY", "Emissions.Penetration..",
    "Emissions.with.Big.5.....CY"
  ]

  // ---- Step 1: dates ----

  /** `pd.to_datetime(..., errors='coerce')` on one cell, through the date parser `toDate`. */
  function DateCell(c: Cell, toDate: Cell -> Option<int>): (d: Cell)
    ensures d.Stamp? || d.Missing?
  {
    match toDate(c)
    case Some(day) => Stamp(day)
    case None => Missing
  }

  function DateStep(r: Row, toDate: Cell -> Option<int>): Row {
    r[WeekEnding := DateCell(Get(r, WeekEnding), toDate)]
  }

  /** `df['WeekEndingCY'] = pd.to_datetime(df['WeekEndingCY'], errors='coerce')`. */
  function DateRows(rows: seq<Row>, toDate: Cell -> Option<int>): (r: seq<Row>)
    ensures |r| == |rows|
    ensures forall i :: 0 <= i < |rows| ==> r[i] == DateStep(rows[i], toDate)
  {
    if rows == [] then [] else [DateStep(rows[0], toDate)] + DateRows(rows[1..], toDate)
  }

  // ---- Step 2: the masks on the raw daily-sales cell ----

  predicate SalesNotNa(r: Row) {
    Get(r, SalesPerDay) != Missing
  }

  /** `!= 0` compares against the number zero: the text "0" passes. */
  predicate SalesNotZero(r: Row) {
    Get(r, SalesPerDay) != Num(0.0)
  }

  predicate SalesNotBlank(r: Row) {
    Get(r, SalesPerDay) != Text("")
  }

  /**
   * The three sales masks taken together, on the raw cell: a number passes
   * unless it is zero, text unless it is empty (so `"0"` passes), a date
   * always, a missing cell never.
   */
  predicate SalesPresent(r: Row): (b: bool)
    ensures b <==> match Get(r, SalesPerDay)
                   case Missing => false
                   case Num(x) => x != 0.0
                   case Text(s) => s != ""
                   case Stamp(_) => true
  {
    SalesNotNa(r) && SalesNotZero(r) && SalesNotBlank(r)
  }

  // ---- Step 3: numeric coercion ----

  /** The class `[$,\s]`. */
  predicate IsSalesJunk(c: char) {
    c == '$' || c == ',' || IsSpace(c)
  }

  /** The class `[\s,%]`. */
  predicate IsGrowthJunk(c: char) {
    IsSpace(c) || c == ',' || c == '%'
  }

  /**
   * `pd.to_numeric(col.astype(str).str.replace(junk, ''), errors='coerce')`
   * on one cell. A number prints and parses back to itself; the missing
   * marker prints as "nan" and a date as a timestamp, neither of which is
   * numeric; text loses its junk characters and is parsed.
   */
  function ToNumeric(c: Cell, junk: char -> bool): (d: Cell)
    ensures IsNumOrMissing(d)
    ensures c.Num? ==> d == c
    ensures c.Missing? || c.Stamp? ==> d == Missing
    ensures c.Text? ==> d == match ParseNumber(RemoveAll(c.s, junk))
                             case Some(x) => Num(x)
                             case None => Missing
  {
    match c
    case Num(_) => c
    case Text(s) =>
      (match ParseNumber(RemoveAll(s, junk))
       case Some(x) => Num(x)
       case None => Missing)
    case _ => Missing
  }

  /** Text becomes the missing marker exactly when, once cleaned of the class, it is not a signed decimal. */
  lemma ToNumericMissing(s: string, junk: char -> bool)
    ensures ToNumeric(Text(s), junk) == Missing <==> !SignedDecimalText(RemoveAll(s, junk))
  {
    ParseNumberAccepts(RemoveAll(s, junk));
  }

  function SalesStep(r: Row): Row {
    r[SalesPerDay := ToNumeric(Get(r, SalesPerDay), IsSalesJunk)]
  }

  // ---- Step 4: the ratio masks ----

  /** `cell != 0` in a mask: only the number zero fails; text, dates and missing cells pass. */
  predicate NonZeroCell(c: Cell) {
    !(c.Num? && c.x == 0.0)
  }

  /**
   * Line 28 tests the prior-year CPD twice; the duplicate is kept, and the
   * contract shows it tests no more than once. A missing value passes.
   */
  predicate RatiosNonZero(r: Row): (b: bool)
    ensures b <==> NonZeroCell(Get(r, CpdPriorYear)) && NonZeroCell(Get(r, RepeatPct))
  {
    Get(r, CpdPriorYear) != Num(0.0) && Get(r, CpdPriorYear) != Num(0.0) && Get(r, RepeatPct) != Num(0.0)
  }

  // ---- Step 5: dropping known columns ----

  /** The names of `ColumnsToDrop` that the table actually has; no column the pipeline reads is among them. */
  function PresentDrops(columns: seq<string>): (d: set<string>)
    ensures forall c :: c in d <==> c in ColumnsToDrop && c in columns
    ensures WeekEnding !in d && SalesPerDay !in d && CpdPriorYear !in d && RepeatPct !in d && NetSalesYoy !in d
  {
    ColumnNamesDiffer();
    set c | c in ColumnsToDrop && c in columns
  }

  /**
   * The column list without the names in `drop`, in the original order:
   * every occurrence of a kept name stays, and nothing else.
   */
  function KeepColumns(columns: seq<string>, drop: set<string>): (r: seq<string>)
    ensures forall c :: c in r <==> c in columns && c !in drop
    ensures forall c :: multiset(r)[c] == if c in drop then 0 else multiset(columns)[c]
    ensures Subsequence(r, columns)
    ensures |r| <= |columns|
  {
    if columns == [] then []
    else
      assert columns == [columns[0]] + columns[1..];
      var rest := KeepColumns(columns[1..], drop);
      if columns[0] in drop then rest
      else
        assert ([columns[0]] + rest)[1..] == rest;
        [columns[0]] + rest
  }

  /** Without repeated names in the input, the kept list repeats nothing. */
  lemma KeepColumnsDistinct(columns: seq<string>, drop: set<string>)
    requires Distinct(columns)
    ensures Distinct(KeepColumns(columns, drop))
  {
    var r := KeepColumns(columns, drop);
    forall i, j | 0 <= i < j < |r| ensures r[i] != r[j] {
      if r[i] == r[j] {
        TwiceAtLeast(r, i, j);
        DistinctOnce(columns, r[i]);
      }
    }
  }

  /** Without repeated names, exactly the dropped names the list had are lost. */
  lemma {:induction false} KeepColumnsCount(columns: seq<string>, drop: set<string>)
    requires Distinct(columns)
    ensures |KeepColumns(columns, drop)| == |columns| - |set c | c in columns && c in drop|
  {
    if columns != [] {
      var tail := columns[1..];
      assert Distinct(tail) by {
        forall i, j | 0 <= i < j < |tail| ensures tail[i] != tail[j] {
          assert tail[i] == columns[i + 1] && tail[j] == columns[j + 1];
        }
      }
      KeepColumnsCount(tail, drop);
      DroppedSplit(columns, drop);
    }
  }

  /** The dropped names of a list without repeats: those of its tail, plus its head when dropped. */
  lemma DroppedSplit(columns: seq<string>, drop: set<string>)
    requires Distinct(columns) && columns != []
    ensures var d, dt := set c | c in columns && c in drop, set c | c in columns[1..] && c in drop;
      |d| == |dt| + (if columns[0] in drop then 1 else 0)
  {
    var tail := columns[1..];
    var d := set c | c in columns && c in drop;
    var dt := set c | c in tail && c in drop;
    assert columns[0] !in tail by {
      forall k | 0 <= k < |tail| ensures tail[k] != columns[0] {
        assert tail[k] == columns[k + 1];
      }
    }
    assert columns == [columns[0]] + tail;
    if columns[0] in drop {
      assert d == dt + {columns[0]};
    } else {
      assert d == dt;
    }
  }

  /** The row part of `df.drop(columns=[present names], errors='ignore')`: never fails. */
  function DropRows(rows: seq<Row>, drop: set<string>): (r: seq<Row>)
    ensures |r| == |rows|
    ensures forall i :: 0 <= i < |rows| ==> r[i] == rows[i] - drop
  {
    if rows == [] then [] else [rows[0] - drop] + DropRows(rows[1..], drop)
  }

  // ---- Step 6: the growth percentage ----

  function GrowthStep(r: Row): Row {
    r[NetSalesYoy := ToNumeric(Get(r, NetSalesYoy), IsGrowthJunk)]
  }

  function SalesFiltered(rows: seq<Row>): seq<Row> {
    Filter(Filter(Filter(rows, SalesNotNa), SalesNotZero), SalesNotBlank)
  }

  /** Steps 2 to 6 on the rows of a table with columns `columns` whose dates are coerced. */
  function Pipeline(dated: seq<Row>, columns: seq<string>): seq<Row> {
    var parsed := MapRows(SalesFiltered(dated), SalesStep);
    var dropped := DropRows(Filter(parsed, RatiosNonZero), PresentDrops(columns));
    if NetSalesYoy in columns then MapRows(dropped, GrowthStep) else dropped
  }

  /**
   * The whole pipeline on table values. Missing required columns raise
   * `KeyError` in the order the source touches them; dates are coerced
   * before the first of those failures that can follow them.
   */
  function CleanKpi(t: Table, toDate: Cell -> Option<int>): (r: Result<Table, Failure>)
    ensures WeekEnding !in t.columns ==> r == Err(MissingColumn(WeekEnding))
    ensures WeekEnding in t.columns && SalesPerDay !in t.columns ==> r == Err(MissingColumn(SalesPerDay))
    ensures WeekEnding in t.columns && SalesPerDay in t.columns && CpdPriorYear !in t.columns ==>
              r == Err(MissingColumn(CpdPriorYear))
    ensures WeekEnding in t.columns && SalesPerDay in t.columns && CpdPriorYear in t.columns && RepeatPct !in t.columns ==>
              r == Err(MissingColumn(RepeatPct))
    ensures r.Ok? <==> WeekEnding in t.columns && SalesPerDay in t.columns && CpdPriorYear in t.columns && RepeatPct in t.columns
    ensures r.Ok? ==> forall c :: c in r.value.columns <==> c in t.columns && c !in ColumnsToDrop
    ensures r.Ok? ==> Subsequence(r.value.columns, t.columns)
    ensures r.Ok? ==> forall c :: multiset(r.value.columns)[c] == if c in ColumnsToDrop then 0 else multiset(t.columns)[c]
    ensures r.Ok? && Distinct(t.columns) ==>
              Distinct(r.value.columns) && |r.value.columns| == |t.columns| - |PresentDrops(t.columns)|
  {
    if WeekEnding !in t.columns then Err(MissingColumn(WeekEnding))
    else if SalesPerDay !in t.columns then Err(MissingColumn(SalesPerDay))
    else if CpdPriorYear !in t.columns then Err(MissingColumn(CpdPriorYear))
    else if RepeatPct !in t.columns then Err(MissingColumn(RepeatPct))
    else
      DroppedColumns(t.columns);
      Ok(Table(KeepColumns(t.columns, PresentDrops(t.columns)), Pipeline(DateRows(t.rows, toDate), t.columns)))
  }

  /** The column list after line 36: the input's in order, minus the present known names. */
  lemma DroppedColumns(columns: seq<string>)
    ensures var kept := KeepColumns(columns, PresentDrops(columns));
      && (forall c :: c in kept <==> c in columns && c !in ColumnsToDrop)
      && Subsequence(kept, columns)
      && (forall c :: multiset(kept)[c] == if c in ColumnsToDrop then 0 else multiset(columns)[c])
      && (Distinct(columns) ==> Distinct(kept) && |kept| == |columns| - |PresentDrops(columns)|)
  {
    var drop := PresentDrops(columns);
    var kept := KeepColumns(columns, drop);
    forall c ensures multiset(kept)[c] == if c in ColumnsToDrop then 0 else multiset(columns)[c] {
      if c !in columns {
        assert multiset(columns)[c] == 0;
      }
    }
    if Distinct(columns) {
      KeepColumnsDistinct(columns, drop);
      KeepColumnsCount(columns, drop);
      assert (set c | c in columns && c in drop) == drop;
    }
  }

  // ---- The procedure on a mutable table ----

  /** A pandas data frame: its column list and its rows, both replaced as cleaning goes. */
  class Frame {
    var columns: seq<string>
    var rows: seq<Row>

    constructor (columns: seq<string>, rows: seq<Row>)
      ensures this.columns == columns && this.rows == rows
    {
      this.columns := columns;
      this.rows := rows;
    }

    function Value(): (t: Table)
      reads this
      ensures t.columns == columns && t.rows == rows
    {
      Table(columns, rows)
    }
  }

  /**
   * `clean_and_process_kpi(df)` step by step. Line 16 writes the coerced
   * dates into the caller's frame; every filter after it makes a new frame,
   * so the caller's frame is touched by that one step only (and not even by
   * it when the date column is absent). The result agrees with `CleanKpi`.
   */
  method CleanAndProcess(df: Frame, toDate: Cell -> Option<int>) returns (res: Result<Frame, Failure>)
    modifies df
    ensures res.Ok? <==> CleanKpi(old(df.Value()), toDate).Ok?
    ensures res.Err? ==> res.error == CleanKpi(old(df.Value()), toDate).error
    ensures res.Ok? ==> fresh(res.value) && res.value.Value() == CleanKpi(old(df.Value()), toDate).value
    ensures WeekEnding !in old(df.columns) ==> unchanged(df)
    ensures WeekEnding in old(df.columns) ==> df.columns == old(df.columns) && df.rows == DateRows(old(df.rows), toDate)
  {
    if WeekEnding !in df.columns {
      return Err(MissingColumn(WeekEnding));
    }
    df.rows := DateRows(df.rows, toDate);
    res := CleanDated(df);
  }

  /** Lines 19 to 43 on a frame whose dates are coerced: each step makes a new frame. */
  method CleanDated(df: Frame) returns (res: Result<Frame, Failure>)
    ensures res.Err? <==> SalesPerDay !in df.columns || CpdPriorYear !in df.columns || RepeatPct !in df.columns
    ensures res.Err? ==> res.error == MissingColumn(
      if SalesPerDay !in df.columns then SalesPerDay else if CpdPriorYear !in df.columns then CpdPriorYear else RepeatPct)
    ensures res.Ok? ==> fresh(res.value)
    ensures res.Ok? ==> res.value.Value() == Table(KeepColumns(df.columns, PresentDrops(df.columns)), Pipeline(df.rows, df.columns))
  {
    if SalesPerDay !in df.columns {
      return Err(MissingColumn(SalesPerDay));
    }
    var cur := new Frame(df.columns, Filter(df.rows, SalesNotNa));
    cur := new Frame(cur.columns, Filter(cur.rows, SalesNotZero));
    cur := new Frame(cur.columns, Filter(cur.rows, SalesNotBlank));
    assert cur.rows == SalesFiltered(df.rows);
    cur.rows := MapRows(cur.rows, SalesStep);
    if CpdPriorYear !in cur.columns {
      return Err(MissingColumn(CpdPriorYear));
    }
    if RepeatPct !in cur.columns {
      return Err(MissingColumn(RepeatPct));
    }
    cur := new Frame(cur.columns, Filter(cur.rows, RatiosNonZero));
    var drop := PresentDrops(cur.columns);
    cur := new Frame(KeepColumns(cur.columns, drop), DropRows(cur.rows, drop));
    assert NetSalesYoy in cur.columns <==> NetSalesYoy in df.columns by {
      assert NetSalesYoy !in drop by { ColumnNamesDiffer(); }
    }
    if NetSalesYoy in cur.columns {
      cur.rows := MapRows(cur.rows, GrowthStep);
    }
    return Ok(cur);
  }

  // ---- What the pipeline keeps, and how it changes a kept row ----

  /** The condition a raw row must meet to survive cleaning. */
  predicate Survives(r: Row) {
    SalesPresent(r) && RatiosNonZero(r)
  }

  /** What cleaning does to one surviving raw row of a table with columns `columns`. */
  function Processed(r: Row, columns: seq<string>, toDate: Cell -> Option<int>): Row {
    var trimmed := SalesStep(DateStep(r, toDate)) - PresentDrops(columns);
    if NetSalesYoy in columns then GrowthStep(trimmed) else trimmed
  }

  function ProcessRows(rows: seq<Row>, columns: seq<string>, toDate: Cell -> Option<int>): (r: seq<Row>)
    ensures |r| == |rows|
    ensures forall i :: 0 <= i < |rows| ==> r[i] == Processed(rows[i], columns, toDate)
  {
    if rows == [] then [] else [Processed(rows[0], columns, toDate)] + ProcessRows(rows[1..], columns, toDate)
  }

  lemma SalesFilteredCons(x: Row, s: seq<Row>)
    ensures SalesFiltered([x] + s) == (if SalesPresent(x) then [x] else []) + SalesFiltered(s)
  {
    FilterCons(x, s, SalesNotNa);
    var a := Filter(s, SalesNotNa);
    if SalesNotNa(x) {
      FilterCons(x, a, SalesNotZero);
      var b := Filter(a, SalesNotZero);
      if SalesNotZero(x) {
        FilterCons(x, b, SalesNotBlank);
      }
    }
  }

  /** The pipeline works row by row. */
  lemma {:induction false} PipelineCons(d: Row, dated: seq<Row>, columns: seq<string>)
    ensures Pipeline([d] + dated, columns)
         == (if SalesPresent(d) && RatiosNonZero(SalesStep(d)) then [FinishRow(SalesStep(d), columns)] else [])
            + Pipeline(dated, columns)
  {
    var drop := PresentDrops(columns);
    SalesFilteredCons(d, dated);
    var sf := SalesFiltered(dated);
    var p := SalesStep(d);
    if SalesPresent(d) {
      MapRowsCons(d, sf, SalesStep);
      var parsed := MapRows(sf, SalesStep);
      FilterCons(p, parsed, RatiosNonZero);
      if RatiosNonZero(p) {
        var kept := Filter(parsed, RatiosNonZero);
        assert DropRows([p] + kept, drop) == [p - drop] + DropRows(kept, drop) by {
          assert ([p] + kept)[1..] == kept;
        }
        if NetSalesYoy in columns {
          MapRowsCons(p - drop, DropRows(kept, drop), GrowthStep);
        }
      }
    }
  }

  /** Steps 5 and 6 on one row whose date and sales cells are already done. */
  function FinishRow(p: Row, columns: seq<string>): Row {
    var trimmed := p - PresentDrops(columns);
    if NetSalesYoy in columns then GrowthStep(trimmed) else trimmed
  }

  /** The date step touches neither the sales cell nor the ratio cells. */
  lemma DateStepOnly(r: Row, toDate: Cell -> Option<int>)
    ensures SalesPresent(DateStep(r, toDate)) == SalesPresent(r)
    ensures RatiosNonZero(SalesStep(DateStep(r, toDate))) == RatiosNonZero(r)
  {
    var d := DateStep(r, toDate);
    assert Get(d, SalesPerDay) == Get(r, SalesPerDay);
    var p := SalesStep(d);
    assert Get(p, CpdPriorYear) == Get(r, CpdPriorYear);
    assert Get(p, RepeatPct) == Get(r, RepeatPct);
  }

  lemma {:induction false} PipelineSpec(rows: seq<Row>, columns: seq<string>, toDate: Cell -> Option<int>)
    ensures Pipeline(DateRows(rows, toDate), columns) == ProcessRows(Filter(rows, Survives), columns, toDate)
  {
    if rows == [] {
      assert DateRows(rows, toDate) == [];
    } else {
      var r, rest := rows[0], rows[1..];
      assert rows == [r] + rest;
      assert DateRows(rows, toDate) == [DateStep(r, toDate)] + DateRows(rest, toDate);
      PipelineCons(DateStep(r, toDate), DateRows(rest, toDate), columns);
      DateStepOnly(r, toDate);
      PipelineSpec(rest, columns, toDate);
      FilterCons(r, rest, Survives);
      if Survives(r) {
        assert ProcessRows([r] + Filter(rest, Survives), columns, toDate)
            == [Processed(r, columns, toDate)] + ProcessRows(Filter(rest, Survives), columns, toDate) by {
          assert ([r] + Filter(rest, Survives))[1..] == Filter(rest, Survives);
        }
      }
    }
  }

  /**
   * Cleaning keeps exactly the raw rows that pass the sales masks and the
   * ratio masks, in their original order, and transforms each of them by
   * `Processed`; no row is added or reordered.
   */
  lemma CleanKeepsRows(t: Table, toDate: Cell -> Option<int>)
    requires CleanKpi(t, toDate).Ok?
    ensures CleanKpi(t, toDate).value.rows == ProcessRows(Filter(t.rows, Survives), t.columns, toDate)
  {
    PipelineSpec(t.rows, t.columns, toDate);
  }

  /** The names the pipeline itself works on are five different columns, none of them dropped. */
  lemma ColumnNamesDiffer()
    ensures WeekEnding != SalesPerDay && WeekEnding != CpdPriorYear && WeekEnding != RepeatPct && WeekEnding != NetSalesYoy
    ensures SalesPerDay != CpdPriorYear && SalesPerDay != RepeatPct && SalesPerDay != NetSalesYoy
    ensures CpdPriorYear != RepeatPct && CpdPriorYear != NetSalesYoy && RepeatPct != NetSalesYoy
    ensures WeekEnding !in ColumnsToDrop && SalesPerDay !in ColumnsToDrop && CpdPriorYear !in ColumnsToDrop
    ensures RepeatPct !in ColumnsToDrop && NetSalesYoy !in ColumnsToDrop
  {
    assert WeekEnding[0] == 'W' && SalesPerDay[0] == 'S' && CpdPriorYear[0] == 'C' && RepeatPct[0] == 'C';
    assert NetSalesYoy[0] == 'N' && CpdPriorYear[1] == 'P' && RepeatPct[1] == 'u';
    assert forall k :: 0 <= k < |ColumnsToDrop| ==> |ColumnsToDrop[k]| > 1 && (ColumnsToDrop[k][0] == 'H' || ColumnsToDrop[k][0] == 'E');
  }

  /**
   * Cell by cell, a surviving row comes out with its date coerced, its daily
   * sales parsed, the present known columns removed, its growth parsed when
   * the table has that column, and every other cell as it was.
   */
  lemma ProcessedCells(r: Row, columns: seq<string>, toDate: Cell -> Option<int>)
    ensures var p := Processed(r, columns, toDate);
      && Get(p, WeekEnding) == DateCell(Get(r, WeekEnding), toDate)
      && Get(p, SalesPerDay) == ToNumeric(Get(r, SalesPerDay), IsSalesJunk)
      && Get(p, NetSalesYoy) == (if NetSalesYoy in columns then ToNumeric(Get(r, NetSalesYoy), IsGrowthJunk) else Get(r, NetSalesYoy))
      && WeekEnding in p && SalesPerDay in p && (NetSalesYoy in columns ==> NetSalesYoy in p)
      && (forall c :: c in ColumnsToDrop && c in columns ==> c !in p)
      && (forall c :: c != WeekEnding && c != SalesPerDay && c != NetSalesYoy && c !in PresentDrops(columns) ==>
            Get(p, c) == Get(r, c))
  {
    ColumnNamesDiffer();
  }

  lemma ProcessedSales(r: Row, columns: seq<string>, toDate: Cell -> Option<int>)
    ensures Get(Processed(r, columns, toDate), SalesPerDay) == ToNumeric(Get(r, SalesPerDay), IsSalesJunk)
  {
    ColumnNamesDiffer();
  }

  lemma ZeroTextParsesToZero(r: Row, columns: seq<string>, toDate: Cell -> Option<int>)
    requires Get(r, SalesPerDay) == Text("$0")
    ensures Get(Processed(r, columns, toDate), SalesPerDay) == Num(0.0)
  {
    assert RemoveAll("$0", IsSalesJunk) == "0";
    assert ParseNumber("0") == Some(0.0);
    ProcessedSales(r, columns, toDate);
  }

  /** What every cleaned table satisfies. */
  ghost predicate CleanShape(u: Table) {
    (forall c :: c in ColumnsToDrop ==> c !in u.columns) &&
    WeekEnding in u.columns && SalesPerDay in u.columns && CpdPriorYear in u.columns && RepeatPct in u.columns &&
    forall i :: 0 <= i < |u.rows| ==> RowShape(u.rows[i], NetSalesYoy in u.columns)
  }

  /**
   * The cleaned table has none of the known columns, all required ones, and
   * rows whose date is a date or missing, whose daily sales are a number or
   * missing, whose ratios are not zero and whose growth is a number or missing.
   * Daily sales may still be zero or missing: the masks ran before parsing.
   */
  lemma CleanedShape(t: Table, toDate: Cell -> Option<int>)
    requires CleanKpi(t, toDate).Ok?
    ensures CleanShape(CleanKpi(t, toDate).value)
  {
    ColumnNamesDiffer();
    var u := CleanKpi(t, toDate).value;
    CleanKeepsRows(t, toDate);
    var kept := Filter(t.rows, Survives);
    forall i | 0 <= i < |u.rows| ensures RowShape(u.rows[i], NetSalesYoy in u.columns) {
      assert Survives(kept[i]);
      ProcessedShape(kept[i], t.columns, toDate);
    }
  }

  /** What every row of a cleaned table satisfies; `growth` says whether the table has the growth column. */
  ghost predicate RowShape(r: Row, growth: bool) {
    && WeekEnding in r && (Get(r, WeekEnding).Stamp? || Get(r, WeekEnding).Missing?)
    && SalesPerDay in r && IsNumOrMissing(Get(r, SalesPerDay))
    && RatiosNonZero(r)
    && (growth ==> NetSalesYoy in r && IsNumOrMissing(Get(r, NetSalesYoy)))
  }

  lemma ProcessedShape(r: Row, columns: seq<string>, toDate: Cell -> Option<int>)
    requires Survives(r)
    ensures RowShape(Processed(r, columns, toDate), NetSalesYoy in columns)
  {
    ProcessedCells(r, columns, toDate);
    ColumnNamesDiffer();
    assert CpdPriorYear !in PresentDrops(columns) && RepeatPct !in PresentDrops(columns);
  }

  /** Removing no column leaves the column list as it is. */
  lemma {:induction false} KeepAllColumns(columns: seq<string>, drop: set<string>)
    requires forall c :: c in columns ==> c !in drop
    ensures KeepColumns(columns, drop) == columns
  {
    if columns != [] {
      KeepAllColumns(columns[1..], drop);
    }
  }

  /** A date parser that maps a parsed date to itself and the missing marker to missing. */
  ghost predicate StableDates(toDate: Cell -> Option<int>) {
    toDate(Missing) == None && forall day :: toDate(Stamp(day)) == Some(day)
  }

  /** A row of a cleaned table whose daily sales are a non-zero number survives a second pass unchanged. */
  lemma SecondPassRow(r: Row, u: Table, toDate: Cell -> Option<int>)
    requires CleanShape(u) && StableDates(toDate)
    requires r in u.rows
    requires Get(r, SalesPerDay).Num? && Get(r, SalesPerDay) != Num(0.0)
    ensures Survives(r)
    ensures Processed(r, u.columns, toDate) == r
  {
    ColumnNamesDiffer();
    assert PresentDrops(u.columns) == {};
    var d := DateStep(r, toDate);
    assert d == r;
    assert SalesStep(d) == r;
    if NetSalesYoy in u.columns {
      assert GrowthStep(r) == r;
    }
  }

  /** On a cleaned table, the sales masks pass exactly the rows whose daily sales are a non-zero number. */
  predicate SalesSettled(r: Row) {
    Get(r, SalesPerDay).Num? && Get(r, SalesPerDay) != Num(0.0)
  }

  lemma {:induction false} ProcessRowsFixed(rows: seq<Row>, u: Table, toDate: Cell -> Option<int>)
    requires CleanShape(u) && StableDates(toDate)
    requires forall i :: 0 <= i < |rows| ==> rows[i] in u.rows && SalesSettled(rows[i])
    ensures ProcessRows(rows, u.columns, toDate) == rows
  {
    forall i | 0 <= i < |rows| ensures Processed(rows[i], u.columns, toDate) == rows[i] {
      SecondPassRow(rows[i], u, toDate);
    }
  }

  lemma {:induction false} SecondPassKeepsAll(u: Table, toDate: Cell -> Option<int>)
    requires CleanShape(u) && StableDates(toDate)
    requires forall i :: 0 <= i < |u.rows| ==> SalesSettled(u.rows[i])
    ensures CleanKpi(u, toDate) == Ok(u)
  {
    forall i | 0 <= i < |u.rows| ensures Survives(u.rows[i]) {
      SecondPassRow(u.rows[i], u, toDate);
    }
    FilterAll(u.rows, Survives);
    ProcessRowsFixed(u.rows, u, toDate);
    CleanKeepsRows(u, toDate);
    ColumnNamesDiffer();
    KeepAllColumns(u.columns, PresentDrops(u.columns));
  }

  lemma {:induction false} SecondPassDrops(u: Table, toDate: Cell -> Option<int>, k: nat)
    requires CleanShape(u)
    requires k < |u.rows| && !SalesSettled(u.rows[k])
    ensures CleanKpi(u, toDate) != Ok(u)
  {
    CleanKeepsRows(u, toDate);
    assert !SalesPresent(u.rows[k]);
    FilterDrops(u.rows, Survives, k);
  }

  /**
   * Cleaning a cleaned table gives it back exactly when every row's daily
   * sales are a non-zero number: a raw sales text that strips to `0` or to
   * something non-numeric passes the masks of the first pass (they look at
   * the raw cell) and is dropped by the second.
   */
  lemma {:induction false} CleanIdempotentIff(t: Table, toDate: Cell -> Option<int>)
    requires StableDates(toDate)
    requires CleanKpi(t, toDate).Ok?
    ensures var u := CleanKpi(t, toDate).value;
      CleanKpi(u, toDate) == Ok(u) <==> forall i :: 0 <= i < |u.rows| ==> SalesSettled(u.rows[i])
  {
    var u := CleanKpi(t, toDate).value;
    CleanedShape(t, toDate);
    if forall i :: 0 <= i < |u.rows| ==> SalesSettled(u.rows[i]) {
      SecondPassKeepsAll(u, toDate);
    } else {
      var k :| 0 <= k < |u.rows| && !SalesSettled(u.rows[k]);
      SecondPassDrops(u, toDate, k);
    }
  }

  /** A one-row table whose row survives comes out as that row, processed. */
  lemma CleanSingleRow(r: Row, columns: seq<string>, toDate: Cell -> Option<int>)
    requires Survives(r)
    requires WeekEnding in columns && SalesPerDay in columns && CpdPriorYear in columns && RepeatPct in columns
    ensures CleanKpi(Table(columns, [r]), toDate).Ok?
    ensures CleanKpi(Table(columns, [r]), toDate).value.rows == [Processed(r, columns, toDate)]
  {
    FilterCons(r, [], Survives);
    CleanKeepsRows(Table(columns, [r]), toDate);
  }

  /**
   * Tables on which cleaning is not idempotent: the raw daily sales text
   * "$0" is not the number zero, so it passes the masks, and then becomes
   * the number zero, which the masks of a second pass drop.
   */
  lemma ZeroTextSurvivesOnce(r: Row, toDate: Cell -> Option<int>)
    requires Get(r, SalesPerDay) == Text("$0") && RatiosNonZero(r)
    ensures var t := Table([WeekEnding, SalesPerDay, CpdPriorYear, RepeatPct], [r]);
      && CleanKpi(t, toDate).Ok?
      && |CleanKpi(t, toDate).value.rows| == 1
      && CleanKpi(CleanKpi(t, toDate).value, toDate) != CleanKpi(t, toDate)
  {
    var t := Table([WeekEnding, SalesPerDay, CpdPriorYear, RepeatPct], [r]);
    CleanSingleRow(r, t.columns, toDate);
    var u := CleanKpi(t, toDate).value;
    ZeroTextParsesToZero(r, t.columns, toDate);
    assert !SalesSettled(u.rows[0]);
    CleanedShape(t, toDate);
    SecondPassDrops(u, toDate, 0);
  }

  /** Examples of the two character classes at work. */
  lemma CurrencyCleanupExample()
    ensures ToNumeric(Text("$1,234.50"), IsSalesJunk) == Num(1234.5)
  {
    CurrencyStripExample();
    ParseExample1234();
  }

  lemma CurrencyStripExample()
    ensures RemoveAll("$1,234.50", IsSalesJunk) == "1234.50"
  {
    assert "$1,234.50" == "$1," + "234.50";
    assert "1234.50" == "1" + "234.50";
    RemoveAllAppend("$1,", "234.50", IsSalesJunk);
    CurrencyPrefixStrip();
    CurrencySuffixStrip();
  }

  lemma CurrencySuffixStrip()
    ensures RemoveAll("234.50", IsSalesJunk) == "234.50"
  {
    assert "234.50" == "234" + ".50";
    RemoveAllAppend("234", ".50", IsSalesJunk);
    CurrencyDigitsKept("234");
    CurrencyDigitsKept(".50");
  }

  /** The digit pieces of the currency example, which the currency class leaves alone. */
  lemma CurrencyDigitsKept(s: string)
    requires s == "234" || s == ".50"
    ensures RemoveAll(s, IsSalesJunk) == s
  {
    assert s[1..][1..][1..] == [];
  }

  lemma CurrencyPrefixStrip()
    ensures RemoveAll("$1,", IsSalesJunk) == "1"
  {
    assert "$1,"[1..] == "1,";
    assert "1,"[1..] == ",";
    assert ","[1..] == "";
    assert RemoveAll(",", IsSalesJunk) == "";
    assert RemoveAll("1,", IsSalesJunk) == "1";
  }

  lemma ParseExample1234()
    ensures ParseNumber("1234.50") == Some(1234.5)
  {
    Value1234();
    Value50();
    ParseDecimal("1234", "50");
    assert "1234.50" == "1234" + "." + "50";
  }

  lemma Value1234()
    ensures AllDigits("1234") && DigitsValue("1234") == 1234
  {
    Value123();
    DigitsValueSnoc("123", '4');
    assert "123" + ['4'] == "1234";
  }

  lemma Value123()
    ensures AllDigits("123") && DigitsValue("123") == 123
  {
    Value12();
    DigitsValueSnoc("12", '3');
    assert "12" + ['3'] == "123";
  }

  lemma Value12()
    ensures AllDigits("12") && DigitsValue("12") == 12
  {
    DigitsValueSnoc("1", '2');
    assert "1" + ['2'] == "12";
  }

  lemma Value50()
    ensures AllDigits("50") && DigitsValue("50") == 50
  {
    DigitsValueSnoc("5", '0');
    assert "5" + ['0'] == "50";
  }

  lemma PercentCleanupExample()
    ensures ToNumeric(Text("12.5 %"), IsGrowthJunk) == Num(12.5)
  {
    PercentStripExample();
    ParseExample125();
  }

  lemma PercentStripExample()
    ensures RemoveAll("12.5 %", IsGrowthJunk) == "12.5"
  {
    assert "12.5 %" == "12.5" + " %";
    RemoveAllAppend("12.5", " %", IsGrowthJunk);
    PercentDigitsKept();
    PercentSignDropped();
  }

  lemma PercentDigitsKept()
    ensures RemoveAll("12.5", IsGrowthJunk) == "12.5"
  {
    assert "12.5" == "12" + ".5";
    RemoveAllAppend("12", ".5", IsGrowthJunk);
    PercentPieceKept("12");
    PercentPieceKept(".5");
  }

  lemma PercentPieceKept(s: string)
    requires s == "12" || s == ".5"
    ensures RemoveAll(s, IsGrowthJunk) == s
  {
    assert s[1..][1..] == [];
  }

  lemma PercentSignDropped()
    ensures RemoveAll(" %", IsGrowthJunk) == ""
  {
    assert " %"[1..] == "%";
    assert "%"[1..] == "";
  }

  lemma ParseExample125()
    ensures ParseNumber("12.5") == Some(12.5)
  {
    Value12();
    ParseDecimal("12", "5");
    assert "12.5" == "12" + "." + "5";
  }
}
