/**
 * `impute_missing_values`: the frame without its key columns goes through an
 * iterative imputer, and the imputed matrix is put back together with the
 * keys, position by position. The imputer itself is a parameter; what is
 * modelled is how its input is read, when the step raises, and how its output
 * becomes the new frame.
 */
module Imputation {
  import opened Wrappers
  import opened Table

  /** `fit_transform` of the imputer: a matrix with gaps in, a matrix of numbers out. */
  type Imputer = seq<seq<Option<real>>> -> seq<seq<real>>

  /** A cell as the imputer reads it: a number (a boolean as 0 or 1), a gap; text cannot be read. */
  function Numeric(c: Cell): (r: Result<Option<real>, string>)
    ensures r.Failure? <==> c.Some? && c.value.Text?
    ensures r == Success(None) <==> c.None?
    ensures c.Some? && c.value.Num? ==> r == Success(Some(c.value.x))
  {
    match c
    case None => Success(None)
    case Some(Num(x)) => Success(Some(x))
    case Some(Flag(b)) => Success(Some(if b then 1.0 else 0.0))
    case Some(Text(_)) => Failure("could not convert string to float")
  }

  /** Every cell of the given columns can be read as a number or a gap. */
  predicate Readable(columns: seq<Column>, rows: seq<Row>)
  {
    forall i, j :: 0 <= i < |rows| && 0 <= j < |columns| ==> Numeric(Get(rows[i], columns[j])).Success?
  }

  /** Column `j` has no value at all. */
  predicate EmptyColumn(columns: seq<Column>, rows: seq<Row>, j: nat)
    requires j < |columns|
  {
    forall i :: 0 <= i < |rows| ==> Get(rows[i], columns[j]).None?
  }

  /** The imputer's input: row `i`, column `j` is the reading of `columns[j]` in `rows[i]`. */
  function Matrix(columns: seq<Column>, rows: seq<Row>): (m: seq<seq<Option<real>>>)
    requires Readable(columns, rows)
    ensures |m| == |rows| && forall i :: 0 <= i < |m| ==> |m[i]| == |columns|
  {
    seq(|rows|, i requires 0 <= i < |rows| =>
      seq(|columns|, j requires 0 <= j < |columns| => Numeric(Get(rows[i], columns[j])).value))
  }

  /** One imputed row's cells: column `columns[j]` holds `values[j]`, none is missing. */
  function Cells(columns: seq<Column>, values: seq<real>): (m: map<Column, Cell>)
    requires |values| == |columns|
    ensures m.Keys == ColumnSet(columns)
    ensures forall c :: c in m ==> m[c].Some?
    ensures Distinct(columns) ==> forall j :: 0 <= j < |columns| ==> m[columns[j]] == Some(Num(values[j]))
  {
    if columns == [] then map[]
    else
      var rest := Cells(columns[1..], values[1..]);
      assert ColumnSet(columns) == {columns[0]} + ColumnSet(columns[1..]);
      assert Distinct(columns) ==> forall j :: 1 <= j < |columns| ==> columns[j] == columns[1..][j - 1] && columns[j] != columns[0];
      rest[columns[0] := Some(Num(values[0]))]
  }

  /** The imputed matrix has one row per input row and one value per column. */
  predicate Fits(out: seq<seq<real>>, columns: seq<Column>, rows: seq<Row>)
  {
    |out| == |rows| && forall i :: 0 <= i < |out| ==> |out[i]| == |columns|
  }

  /**
   * `impute_missing_values` on a frame whose value columns are `columns`.
   * It raises when there is no row or no column to fit, when a cell is text,
   * when a column has no value at all (the imputer leaves such a column out of
   * its result, so the result no longer fits the column list), and when the
   * result does not fit the frame; otherwise row `i` gets row `i`'s key and
   * the imputed values.
   */
  function Impute(columns: seq<Column>, rows: seq<Row>, imputer: Imputer): (r: Result<seq<Row>, string>)
    ensures r.Success? <==>
      && rows != [] && columns != [] && Readable(columns, rows)
      && (forall j :: 0 <= j < |columns| ==> !EmptyColumn(columns, rows, j))
      && Fits(imputer(Matrix(columns, rows)), columns, rows)
    ensures r.Success? ==> SameKeys(r.value, rows)
    ensures r.Success? ==> forall i :: 0 <= i < |rows| ==> r.value[i].cells.Keys == ColumnSet(columns) && Complete(r.value[i])
    ensures r.Success? && Distinct(columns) ==> WellFormed(columns, r.value)
    ensures r.Success? && Distinct(columns) ==> forall i, j :: 0 <= i < |rows| && 0 <= j < |columns| ==>
      Get(r.value[i], columns[j]) == Some(Num(imputer(Matrix(columns, rows))[i][j]))
  {
    if rows == [] || columns == [] then Failure("Found array with 0 samples or 0 features")
    else if !Readable(columns, rows) then Failure("could not convert string to float")
    else if exists j :: 0 <= j < |columns| && EmptyColumn(columns, rows, j) then Failure("Shape of passed values does not match the columns")
    else
      var out := imputer(Matrix(columns, rows));
      if !Fits(out, columns, rows) then Failure("Shape of passed values does not match the columns")
      else Success(seq(|rows|, i requires 0 <= i < |rows| => Row(rows[i].state, rows[i].datetime, Cells(columns, out[i]))))
  }

  /** A successful imputation over distinct columns is a well-formed frame without gaps. */
  lemma {:induction false} ImputeShape(columns: seq<Column>, rows: seq<Row>, imputer: Imputer)
    requires Distinct(columns) && Impute(columns, rows, imputer).Success?
    ensures WellFormed(columns, Impute(columns, rows, imputer).value)
    ensures forall r :: r in Impute(columns, rows, imputer).value ==> Complete(r)
  {
    var out := Impute(columns, rows, imputer).value;
    forall r | r in out ensures Complete(r) {
      var k :| 0 <= k < |out| && out[k] == r;
    }
  }

  /**
   * An imputer that only fills gaps (every value it is given comes back
   * unchanged) leaves every numeric reading of the frame as it was.
   */
  lemma {:induction false} ImputeKeepsReadings(columns: seq<Column>, rows: seq<Row>, imputer: Imputer)
    requires Distinct(columns) && Impute(columns, rows, imputer).Success?
    requires forall i, j :: 0 <= i < |rows| && 0 <= j < |columns| && Matrix(columns, rows)[i][j].Some? ==>
      imputer(Matrix(columns, rows))[i][j] == Matrix(columns, rows)[i][j].value
    ensures forall i, j, x :: 0 <= i < |rows| && 0 <= j < |columns| && Get(rows[i], columns[j]) == Some(Num(x)) ==>
      Get(Impute(columns, rows, imputer).value[i], columns[j]) == Some(Num(x))
  {
    var m := Matrix(columns, rows);
    forall i, j, x | 0 <= i < |rows| && 0 <= j < |columns| && Get(rows[i], columns[j]) == Some(Num(x))
      ensures Get(Impute(columns, rows, imputer).value[i], columns[j]) == Some(Num(x))
    {
      assert m[i][j] == Some(x);
    }
  }
}
