/**
 * The polars DataFrame operations the transformer composes: rename, left
 * join, cross join, with_columns and select, on the frames of module Tables.
 */
module Frames {
  import opened Common
  import opened Tables

  /** The name `c` takes under a rename mapping. */
  function NewName(mapping: map<string, string>, c: string): string {
    if c in mapping then mapping[c] else c
  }

  function RenamedColumns(cols: seq<string>, mapping: map<string, string>): seq<string> {
    seq(|cols|, i requires 0 <= i < |cols| => NewName(mapping, cols[i]))
  }

  /**
   * DataFrame.rename(mapping): every key of the mapping must be a column and the
   * renamed columns must stay distinct; the cells move with their column.
   */
  function Rename(f: Frame, mapping: map<string, string>): (r: Result<Frame, TransformError>)
    ensures r.Success? <==> mapping.Keys <= ToSet(f.columns) && Distinct(RenamedColumns(f.columns, mapping))
    ensures r.Success? ==>
      && WellFormed(r.value)
      && r.value.columns == RenamedColumns(f.columns, mapping)
      && |r.value.rows| == |f.rows|
      && forall i, j :: 0 <= i < |f.rows| && 0 <= j < |f.columns| ==>
           Cell(r.value.rows[i], r.value.columns[j]) == Cell(f.rows[i], f.columns[j])
  {
    if !(mapping.Keys <= ToSet(f.columns)) then Failure(ColumnNotFound)
    else
      var cols := RenamedColumns(f.columns, mapping);
      if !Distinct(cols) then Failure(DuplicateColumn)
      else
        var rows := seq(|f.rows|, i requires 0 <= i < |f.rows| => RowFrom(cols, Values(f.rows[i], f.columns)));
        assert forall i :: 0 <= i < |rows| ==>
          (rows[i].Keys == ToSet(cols) && forall j :: 0 <= j < |cols| ==> rows[i][cols[j]] == Cell(f.rows[i], f.columns[j])) by {
          forall i | 0 <= i < |rows| {
            RowFromAt(cols, Values(f.rows[i], f.columns));
          }
        }
        Success(Frame(cols, rows))
  }

  /** The columns of `s` other than `x`, in order. */
  function Without(s: seq<string>, x: string): (r: seq<string>)
    ensures forall c :: c in r <==> c in s && c != x
    ensures Distinct(s) ==> Distinct(r)
  {
    if s == [] then []
    else
      var rest := Without(s[1..], x);
      assert Distinct(s) ==> s[0] !in s[1..];
      (if s[0] == x then [] else [s[0]]) + rest
  }

  /** The name a right-hand column takes in a join: polars suffixes a clash with "_right". */
  function OutName(left: seq<string>, c: string): string {
    if c in left then c + "_right" else c
  }

  function OutNames(left: seq<string>, cols: seq<string>): seq<string> {
    seq(|cols|, i requires 0 <= i < |cols| => OutName(left, cols[i]))
  }

  /** Join keys match when equal and not null (polars does not join nulls). */
  predicate Matches(lv: Value, rv: Value) {
    lv != Null && lv == rv
  }

  /** The right rows whose key `rk` matches the value `v`, in right-hand order. */
  function Matching(rs: seq<Row>, v: Value, rk: string): (ms: seq<Row>)
    ensures |ms| <= |rs|
    ensures forall m :: m in ms ==> m in rs && Matches(v, Cell(m, rk))
  {
    if rs == [] then []
    else (if Matches(v, Cell(rs[0], rk)) then [rs[0]] else []) + Matching(rs[1..], v, rk)
  }

  /** The rows a left join makes of one left row. */
  function JoinOne(l: Row, rs: seq<Row>, lk: string, rk: string, rcols: seq<string>, out: seq<string>): seq<Row>
    requires |rcols| == |out|
  {
    var ms := Matching(rs, Cell(l, lk), rk);
    if ms == [] then [l + RowFrom(out, Nulls(|out|))]
    else seq(|ms|, j requires 0 <= j < |ms| => l + RowFrom(out, Values(ms[j], rcols)))
  }

  function JoinRows(ls: seq<Row>, rs: seq<Row>, lk: string, rk: string, rcols: seq<string>, out: seq<string>): seq<Row>
    requires |rcols| == |out|
  {
    if ls == [] then []
    else JoinOne(ls[0], rs, lk, rk, rcols, out) + JoinRows(ls[1..], rs, lk, rk, rcols, out)
  }

  /**
   * left.join(right, left_on=lk, right_on=rk, how="left"): every left row is
   * kept, once per matching right row or once with nulls when none matches; the
   * right key column is dropped and the other right columns are appended.
   */
  function LeftJoin(left: Frame, right: Frame, lk: string, rk: string): Result<Frame, TransformError> {
    if lk !in left.columns || rk !in right.columns then Failure(ColumnNotFound)
    else
      var rcols := Without(right.columns, rk);
      var out := OutNames(left.columns, rcols);
      if !Distinct(left.columns + out) then Failure(DuplicateColumn)
      else Success(Frame(left.columns + out, JoinRows(left.rows, right.rows, lk, rk, rcols, out)))
  }

  function CrossRows(ls: seq<Row>, rs: seq<Row>, rcols: seq<string>, out: seq<string>): seq<Row>
    requires |rcols| == |out|
  {
    if ls == [] then []
    else
      var paired := seq(|rs|, j requires 0 <= j < |rs| => ls[0] + RowFrom(out, Values(rs[j], rcols)));
      paired + CrossRows(ls[1..], rs, rcols, out)
  }

  /** left.join(right, how="cross"): every left row paired with every right row. */
  function CrossJoin(left: Frame, right: Frame): Result<Frame, TransformError> {
    var out := OutNames(left.columns, right.columns);
    if !Distinct(left.columns + out) then Failure(DuplicateColumn)
    else Success(Frame(left.columns + out, CrossRows(left.rows, right.rows, right.columns, out)))
  }

  /**
   * f.with_columns(expr.alias(name)): the expression `fn`, which reads the
   * columns `needs`, is evaluated on every row; an existing column of that
   * name is replaced in place, otherwise the column is appended.
   */
  function WithColumn(f: Frame, needs: seq<string>, name: string, fn: Row -> Value): (r: Result<Frame, TransformError>)
    ensures r.Success? <==> forall c :: c in needs ==> c in f.columns
    ensures r.Success? ==>
      && |r.value.rows| == |f.rows|
      && (name in f.columns ==> r.value.columns == f.columns)
      && (name !in f.columns ==> r.value.columns == f.columns + [name])
      && forall i :: 0 <= i < |f.rows| ==>
           && Cell(r.value.rows[i], name) == fn(f.rows[i])
           && forall c :: c != name ==> Cell(r.value.rows[i], c) == Cell(f.rows[i], c)
  {
    if !(forall c :: c in needs ==> c in f.columns) then Failure(ColumnNotFound)
    else
      Success(Frame(if name in f.columns then f.columns else f.columns + [name],
                    seq(|f.rows|, i requires 0 <= i < |f.rows| => f.rows[i][name := fn(f.rows[i])])))
  }

  /** f.select(cols): exactly the columns `cols`, in that order. */
  function Select(f: Frame, cols: seq<string>): (r: Result<Frame, TransformError>)
    ensures r.Success? <==> (forall c :: c in cols ==> c in f.columns) && Distinct(cols)
    ensures r.Success? ==>
      && WellFormed(r.value)
      && r.value.columns == cols
      && |r.value.rows| == |f.rows|
      && forall i, c :: 0 <= i < |f.rows| && c in cols ==> Cell(r.value.rows[i], c) == Cell(f.rows[i], c)
  {
    if !(forall c :: c in cols ==> c in f.columns) then Failure(ColumnNotFound)
    else if !Distinct(cols) then Failure(DuplicateColumn)
    else
      var rows := seq(|f.rows|, i requires 0 <= i < |f.rows| => RowFrom(cols, Values(f.rows[i], cols)));
      assert forall i :: 0 <= i < |rows| ==>
        (rows[i].Keys == ToSet(cols) && forall j :: 0 <= j < |cols| ==> rows[i][cols[j]] == Cell(f.rows[i], cols[j])) by {
        forall i | 0 <= i < |rows| {
          RowFromAt(cols, Values(f.rows[i], cols));
        }
      }
      Success(Frame(cols, rows))
  }

  /** No two right rows share a non-null key value, so a left row matches at most one. */
  predicate KeyUnique(rows: seq<Row>, rk: string) {
    forall i, j :: 0 <= i < j < |rows| ==> !Matches(Cell(rows[i], rk), Cell(rows[j], rk))
  }

  lemma {:induction false} MatchingNone(rs: seq<Row>, v: Value, rk: string)
    requires forall m :: m in rs ==> !Matches(v, Cell(m, rk))
    ensures Matching(rs, v, rk) == []
  {
    if rs != [] {
      assert rs[0] in rs;
      MatchingNone(rs[1..], v, rk);
    }
  }

  lemma {:induction false} MatchingAtMostOne(rs: seq<Row>, v: Value, rk: string)
    requires KeyUnique(rs, rk)
    ensures |Matching(rs, v, rk)| <= 1
  {
    if rs != [] {
      assert KeyUnique(rs[1..], rk) by {
        forall i, j | 0 <= i < j < |rs[1..]| ensures !Matches(Cell(rs[1..][i], rk), Cell(rs[1..][j], rk)) {
          assert rs[1..][i] == rs[i + 1] && rs[1..][j] == rs[j + 1];
        }
      }
      MatchingAtMostOne(rs[1..], v, rk);
      if Matches(v, Cell(rs[0], rk)) {
        forall m | m in rs[1..] ensures !Matches(v, Cell(m, rk)) {
          var j :| 0 <= j < |rs[1..]| && rs[1..][j] == m;
          assert !Matches(Cell(rs[0], rk), Cell(rs[j + 1], rk));
        }
        MatchingNone(rs[1..], v, rk);
      }
    }
  }

  /** Every right row whose key matches is among the matching rows. */
  lemma {:induction false} MatchingComplete(rs: seq<Row>, v: Value, rk: string)
    ensures forall j :: 0 <= j < |rs| && Matches(v, Cell(rs[j], rk)) ==> rs[j] in Matching(rs, v, rk)
  {
    if rs != [] {
      MatchingComplete(rs[1..], v, rk);
      forall j | 0 < j < |rs| && Matches(v, Cell(rs[j], rk)) ensures rs[j] in Matching(rs, v, rk) {
        assert rs[1..][j - 1] == rs[j];
      }
    }
  }

  /**
   * Matching works row by row: the matches of two stretches of right rows are
   * the matches of the first followed by those of the second, and a single row
   * is kept exactly when its key matches (MatchingOne). So the matching rows are
   * the matching right rows, once per occurrence, in right-hand order.
   */
  lemma {:induction false} MatchingConcat(a: seq<Row>, b: seq<Row>, v: Value, rk: string)
    ensures Matching(a + b, v, rk) == Matching(a, v, rk) + Matching(b, v, rk)
  {
    if a == [] {
      assert a + b == b;
    } else {
      var head := if Matches(v, Cell(a[0], rk)) then [a[0]] else [];
      MatchingConcat(a[1..], b, v, rk);
      ConcatTail(a, b);
      calc {
        Matching(a + b, v, rk);
        { MatchingUnfold(a + b, v, rk); }
        head + Matching(a[1..] + b, v, rk);
        head + (Matching(a[1..], v, rk) + Matching(b, v, rk));
        (head + Matching(a[1..], v, rk)) + Matching(b, v, rk);
        { MatchingUnfold(a, v, rk); }
        Matching(a, v, rk) + Matching(b, v, rk);
      }
    }
  }

  lemma MatchingUnfold(rs: seq<Row>, v: Value, rk: string)
    requires rs != []
    ensures Matching(rs, v, rk) == (if Matches(v, Cell(rs[0], rk)) then [rs[0]] else []) + Matching(rs[1..], v, rk)
  {
  }

  lemma ConcatTail<T>(a: seq<T>, b: seq<T>)
    requires a != []
    ensures a + b != [] && (a + b)[0] == a[0] && (a + b)[1..] == a[1..] + b
  {
  }

  lemma MatchingOne(r: Row, v: Value, rk: string)
    ensures Matching([r], v, rk) == if Matches(v, Cell(r, rk)) then [r] else []
  {
    assert [r][1..] == [];
  }

  /** The right half of a sequence without repeats has no repeats. */
  lemma DistinctSuffix(a: seq<string>, b: seq<string>)
    requires Distinct(a + b)
    ensures Distinct(b)
  {
    forall x, y | 0 <= x < y < |b| ensures b[x] != b[y] {
      assert (a + b)[|a| + x] == b[x] && (a + b)[|a| + y] == b[y];
    }
  }

  /** The cells of a row extended with the columns `names`. */
  lemma ExtendedRowCells(l: Row, names: seq<string>, vals: seq<Value>)
    requires |names| == |vals| && Distinct(names)
    ensures forall c :: c !in names ==> Cell(l + RowFrom(names, vals), c) == Cell(l, c)
    ensures forall j :: 0 <= j < |names| ==> Cell(l + RowFrom(names, vals), names[j]) == vals[j]
  {
    RowFromAt(names, vals);
  }

  lemma {:induction false} JoinRowsKeepEveryRow(ls: seq<Row>, rs: seq<Row>, lk: string, rk: string, rcols: seq<string>, out: seq<string>)
    requires |rcols| == |out|
    ensures |JoinRows(ls, rs, lk, rk, rcols, out)| >= |ls|
  {
    if ls != [] {
      JoinRowsKeepEveryRow(ls[1..], rs, lk, rk, rcols, out);
    }
  }

  /** A left join never loses a left row, whatever the right-hand keys. */
  lemma LeftJoinKeepsEveryRow(left: Frame, right: Frame, lk: string, rk: string)
    requires LeftJoin(left, right, lk, rk).Success?
    ensures |LeftJoin(left, right, lk, rk).value.rows| >= |left.rows|
  {
    var rcols := Without(right.columns, rk);
    JoinRowsKeepEveryRow(left.rows, right.rows, lk, rk, rcols, OutNames(left.columns, rcols));
  }

  lemma JoinOneSingle(l: Row, rs: seq<Row>, lk: string, rk: string, rcols: seq<string>, out: seq<string>)
    requires |rcols| == |out|
    requires KeyUnique(rs, rk)
    ensures |JoinOne(l, rs, lk, rk, rcols, out)| == 1
  {
    MatchingAtMostOne(rs, Cell(l, lk), rk);
  }

  lemma {:induction false} JoinRowsOneEach(ls: seq<Row>, rs: seq<Row>, lk: string, rk: string, rcols: seq<string>, out: seq<string>)
    requires |rcols| == |out|
    requires KeyUnique(rs, rk)
    ensures |JoinRows(ls, rs, lk, rk, rcols, out)| == |ls|
    ensures forall i :: 0 <= i < |ls| ==>
      JoinRows(ls, rs, lk, rk, rcols, out)[i] == JoinOne(ls[i], rs, lk, rk, rcols, out)[0]
  {
    if ls != [] {
      JoinOneSingle(ls[0], rs, lk, rk, rcols, out);
      JoinRowsOneEach(ls[1..], rs, lk, rk, rcols, out);
      var head := JoinOne(ls[0], rs, lk, rk, rcols, out);
      var tail := JoinRows(ls[1..], rs, lk, rk, rcols, out);
      assert |head| == 1;
      assert JoinRows(ls, rs, lk, rk, rcols, out) == head + tail;
      forall i | 0 <= i < |ls| ensures (head + tail)[i] == JoinOne(ls[i], rs, lk, rk, rcols, out)[0] {
        if i > 0 {
          assert (head + tail)[i] == tail[i - 1];
          assert ls[1..][i - 1] == ls[i];
        }
      }
    }
  }

  /**
   * With unique right keys a left join neither drops nor repeats a left row:
   * row i keeps every left cell, and its right-hand columns hold the matching
   * right row's cells, or null when no right row matches.
   */
  lemma LeftJoinUnique(left: Frame, right: Frame, lk: string, rk: string)
    requires LeftJoin(left, right, lk, rk).Success?
    requires KeyUnique(right.rows, rk)
    ensures var out := LeftJoin(left, right, lk, rk).value;
      var rcols := Without(right.columns, rk);
      var names := OutNames(left.columns, rcols);
      && |out.rows| == |left.rows|
      && forall i :: 0 <= i < |left.rows| ==>
           && (forall c :: c !in names ==> Cell(out.rows[i], c) == Cell(left.rows[i], c))
           && var ms := Matching(right.rows, Cell(left.rows[i], lk), rk);
              forall j :: 0 <= j < |rcols| ==>
                Cell(out.rows[i], names[j]) == (if ms == [] then Null else Cell(ms[0], rcols[j]))
  {
    var out := LeftJoin(left, right, lk, rk).value;
    var rcols := Without(right.columns, rk);
    var names := OutNames(left.columns, rcols);
    DistinctSuffix(left.columns, names);
    JoinRowsOneEach(left.rows, right.rows, lk, rk, rcols, names);
    forall i | 0 <= i < |left.rows|
      ensures && (forall c :: c !in names ==> Cell(out.rows[i], c) == Cell(left.rows[i], c))
              && var ms := Matching(right.rows, Cell(left.rows[i], lk), rk);
                 forall j :: 0 <= j < |rcols| ==>
                   Cell(out.rows[i], names[j]) == (if ms == [] then Null else Cell(ms[0], rcols[j]))
    {
      var ms := Matching(right.rows, Cell(left.rows[i], lk), rk);
      var vals := if ms == [] then Nulls(|names|) else Values(ms[0], rcols);
      assert out.rows[i] == left.rows[i] + RowFrom(names, vals);
      ExtendedRowCells(left.rows[i], names, vals);
    }
  }

  lemma {:induction false} CrossRowsCount(ls: seq<Row>, rs: seq<Row>, rcols: seq<string>, out: seq<string>)
    requires |rcols| == |out|
    ensures |CrossRows(ls, rs, rcols, out)| == |ls| * |rs|
    ensures |rs| == 1 ==> forall i :: 0 <= i < |ls| ==>
      CrossRows(ls, rs, rcols, out)[i] == ls[i] + RowFrom(out, Values(rs[0], rcols))
  {
    if ls != [] {
      CrossRowsCount(ls[1..], rs, rcols, out);
      assert |ls| * |rs| == |rs| + (|ls| - 1) * |rs|;
      if |rs| == 1 {
        forall i | 0 < i < |ls| ensures ls[1..][i - 1] == ls[i] { }
      }
    }
  }

  /**
   * A cross join multiplies the row counts; with a one-row right frame every
   * left row is kept once, extended with that row's cells.
   */
  lemma CrossJoinWithOneRow(left: Frame, right: Frame)
    requires CrossJoin(left, right).Success?
    ensures |CrossJoin(left, right).value.rows| == |left.rows| * |right.rows|
    ensures |right.rows| == 1 ==>
      var out := CrossJoin(left, right).value;
      var names := OutNames(left.columns, right.columns);
      && |out.rows| == |left.rows|
      && forall i :: 0 <= i < |left.rows| ==>
           && (forall c :: c !in names ==> Cell(out.rows[i], c) == Cell(left.rows[i], c))
           && forall j :: 0 <= j < |right.columns| ==> Cell(out.rows[i], names[j]) == Cell(right.rows[0], right.columns[j])
  {
    var out := CrossJoin(left, right).value;
    var names := OutNames(left.columns, right.columns);
    CrossRowsCount(left.rows, right.rows, right.columns, names);
    if |right.rows| == 1 {
      DistinctSuffix(left.columns, names);
      ExtendedRowCells(map[], names, Values(right.rows[0], right.columns));
      forall i | 0 <= i < |left.rows|
        ensures && (forall c :: c !in names ==> Cell(out.rows[i], c) == Cell(left.rows[i], c))
                && forall j :: 0 <= j < |right.columns| ==> Cell(out.rows[i], names[j]) == Cell(right.rows[0], right.columns[j])
      {
        ExtendedRowCells(left.rows[i], names, Values(right.rows[0], right.columns));
      }
    }
  }
}
