/**
 * The in-memory table of shop-week records that the program keeps in a
 * pandas DataFrame: an ordered list of column names and one row per record,
 * each row a map from column name to cell.
 */
module Table {

  /**
   * One DataFrame cell: the missing marker (NaN, NaT or None), a number,
   * a piece of text, or a parsed date (a day number).
   */
  datatype Cell = Missing | Num(x: real) | Text(s: string) | Stamp(day: int)

  type Row = map<string, Cell>

  datatype Table = Table(columns: seq<string>, rows: seq<Row>)

  /** The exceptions the bot's Python code lets escape: a `KeyError` on a column, a `TypeError` from `mean`, an `IndexError` from `iloc[0]`. */
  datatype Failure = MissingColumn(name: string) | NotNumeric(column: string) | NoRows

  /** A row's cell in column `c`; a row that lacks the key reads as missing. */
  function Get(r: Row, c: string): Cell {
    if c in r then r[c] else Missing
  }

  predicate IsNumOrMissing(c: Cell) {
    c.Num? || c.Missing?
  }

  /** Boolean-mask indexing `df[mask]`: the rows that satisfy `keep`, in their order. */
  function Filter(rows: seq<Row>, keep: Row -> bool): (r: seq<Row>)
    ensures |r| <= |rows|
    ensures forall i :: 0 <= i < |r| ==> keep(r[i]) && r[i] in rows
  {
    if rows == [] then []
    else if keep(rows[0]) then [rows[0]] + Filter(rows[1..], keep)
    else Filter(rows[1..], keep)
  }

  /** A column assignment `df[c] = ...` applied row by row. */
  function MapRows(rows: seq<Row>, f: Row -> Row): (r: seq<Row>)
    ensures |r| == |rows|
    ensures forall i :: 0 <= i < |rows| ==> r[i] == f(rows[i])
  {
    if rows == [] then [] else [f(rows[0])] + MapRows(rows[1..], f)
  }

  lemma FilterCons(x: Row, s: seq<Row>, keep: Row -> bool)
    ensures Filter([x] + s, keep) == (if keep(x) then [x] else []) + Filter(s, keep)
  {
    assert ([x] + s)[0] == x && ([x] + s)[1..] == s;
  }

  lemma MapRowsCons(x: Row, s: seq<Row>, f: Row -> Row)
    ensures MapRows([x] + s, f) == [f(x)] + MapRows(s, f)
  {
    assert ([x] + s)[0] == x && ([x] + s)[1..] == s;
  }

  /** A mask that every row passes keeps the rows as they are. */
  lemma {:induction false} FilterAll(rows: seq<Row>, keep: Row -> bool)
    requires forall i :: 0 <= i < |rows| ==> keep(rows[i])
    ensures Filter(rows, keep) == rows
  {
    if rows != [] {
      FilterAll(rows[1..], keep);
    }
  }

  /** A mask that some row fails shortens the table. */
  lemma {:induction false} FilterDrops(rows: seq<Row>, keep: Row -> bool, k: nat)
    requires k < |rows| && !keep(rows[k])
    ensures |Filter(rows, keep)| < |rows|
  {
    if k > 0 {
      FilterDrops(rows[1..], keep, k - 1);
    }
  }
}
