/**
 * The data model of the tables the transformer works on: a cell value, a row
 * as a map from column name to value, and a frame as an ordered list of
 * column names with its rows (a polars DataFrame).
 */
module Tables {
  import opened Common

  /** A cell: polars null, an integer, a string, a boolean or an exact decimal. */
  datatype Value = Null | Int(i: int) | Str(s: string) | Bool(b: bool) | Dec(d: real)

  type Row = map<string, Value>

  datatype Frame = Frame(columns: seq<string>, rows: seq<Row>)

  /** The exceptions the transformer can raise. */
  datatype TransformError =
    | MissingEntity(name: string)  // KeyError on the dictionary of curated tables
    | ColumnNotFound               // a named column does not exist
    | DuplicateColumn              // an operation would produce two columns of one name

  /** A frame whose columns are distinct and whose every row has exactly those columns. */
  predicate WellFormed(f: Frame) {
    && Distinct(f.columns)
    && forall i :: 0 <= i < |f.rows| ==> f.rows[i].Keys == ToSet(f.columns)
  }

  /** The value of column `c` in row `r`; a column the row lacks reads as null. */
  function Cell(r: Row, c: string): Value {
    if c in r then r[c] else Null
  }

  /** The cells of `r` in the order of `cols`. */
  function Values(r: Row, cols: seq<string>): seq<Value> {
    seq(|cols|, i requires 0 <= i < |cols| => Cell(r, cols[i]))
  }

  function Nulls(n: nat): seq<Value> {
    seq(n, i => Null)
  }

  /** The row whose column `cols[i]` holds `vals[i]`. */
  function RowFrom(cols: seq<string>, vals: seq<Value>): Row
    requires |cols| == |vals|
  {
    if cols == [] then map[]
    else RowFrom(cols[..|cols| - 1], vals[..|vals| - 1])[cols[|cols| - 1] := vals[|vals| - 1]]
  }

  lemma {:induction false} RowFromAt(cols: seq<string>, vals: seq<Value>)
    requires |cols| == |vals| && Distinct(cols)
    ensures RowFrom(cols, vals).Keys == ToSet(cols)
    ensures forall i :: 0 <= i < |cols| ==> RowFrom(cols, vals)[cols[i]] == vals[i]
  {
    if cols != [] {
      var n := |cols| - 1;
      RowFromAt(cols[..n], vals[..n]);
      assert cols == cols[..n] + [cols[n]];
      assert ToSet(cols) == ToSet(cols[..n]) + {cols[n]};
      forall i | 0 <= i < n ensures cols[..n][i] == cols[i] && cols[i] != cols[n] {
      }
    }
  }

  /** The numeric reading of a cell, as polars' arithmetic sees it. */
  function Num(v: Value): Option<real> {
    match v
    case Int(i) => Some(i as real)
    case Dec(d) => Some(d)
    case _ => None
  }

  /** A cell's contribution to a polars sum: nulls (and non-numbers) are skipped. */
  function NumOrZero(v: Value): real {
    match Num(v)
    case Some(x) => x
    case None => 0.0
  }

  /**
   * polars division followed by the cast to a decimal of scale 6, here the
   * abstract `round6`. A null operand gives null; a zero denominator, which the
   * source leaves undefined, gives null too.
   */
  function Ratio(num: Value, den: Value, round6: real -> real): (r: Value)
    ensures r != Null <==> Num(num).Some? && Num(den).Some? && Num(den).value != 0.0
    ensures r != Null ==> r == Dec(round6(Num(num).value / Num(den).value))
  {
    match (Num(num), Num(den))
    case (Some(a), Some(b)) => if b == 0.0 then Null else Dec(round6(a / b))
    case _ => Null
  }
}
