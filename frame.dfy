/** A pandas DataFrame as an object whose column list and rows are updated in place. */
module Frames {
  import opened Table
  import Order

  class DataFrame {
    var columns: seq<Column>
    var rows: seq<Row>

    /** Distinct column names, and every row carries exactly those columns. */
    ghost predicate Valid()
      reads this
    {
      WellFormed(columns, rows)
    }

    constructor (columns: seq<Column>, rows: seq<Row>)
      requires WellFormed(columns, rows)
      ensures Valid() && this.columns == columns && this.rows == rows
    {
      this.columns := columns;
      this.rows := rows;
    }

    /** `df[c] = values`: a new column goes last, an existing one is overwritten where it stands. */
    method SetColumn(c: Column, values: seq<Cell>)
      requires Valid() && |values| == |rows|
      modifies this
      ensures Valid()
      ensures columns == AddColumnName(old(columns), c)
      ensures rows == Table.SetColumn(old(rows), c, values)
    {
      rows := Table.SetColumn(rows, c, values);
      columns := AddColumnName(columns, c);
    }

    /** `df.drop(c, axis=1, inplace=True)`; a column that is not there raises, changing nothing. */
    method Drop(c: Column) returns (ok: bool)
      requires Valid()
      modifies this
      ensures Valid()
      ensures ok <==> c in old(columns)
      ensures ok ==> columns == RemoveColumnName(old(columns), c) && rows == DropColumn(old(rows), c)
      ensures !ok ==> columns == old(columns) && rows == old(rows)
    {
      ok := c in columns;
      if ok {
        rows := DropColumn(rows, c);
        columns := RemoveColumnName(columns, c);
      }
    }

    /** `df.dropna(inplace=True)`: rows with any missing cell go, the others keep their order. */
    method DropNa()
      requires Valid()
      modifies this
      ensures Valid()
      ensures columns == old(columns) && rows == Table.DropNa(old(rows))
    {
      DropNaMembers(rows);
      rows := Table.DropNa(rows);
    }

    /** `df.sort_values(by=..., inplace=True)`. */
    method SortValues(key: Order.SortKey)
      requires Valid()
      modifies this
      ensures Valid()
      ensures columns == old(columns) && rows == Order.SortValues(key, old(rows))
    {
      var sorted := Order.SortValues(key, rows);
      PermutationKeepsShape(columns, rows, sorted);
      rows := sorted;
    }

    /** `df.sort_values(by=...)` without `inplace`: a new, sorted frame; `df` is left as it was. */
    method SortedCopy(key: Order.SortKey) returns (df: DataFrame)
      requires Valid()
      ensures fresh(df) && df.Valid()
      ensures df.columns == columns && df.rows == Order.SortValues(key, rows)
    {
      var sorted := Order.SortValues(key, rows);
      PermutationKeepsShape(columns, rows, sorted);
      df := new DataFrame(columns, sorted);
    }
  }

  /** Reordering the rows keeps every row's column set. */
  lemma {:induction false} PermutationKeepsShape(columns: seq<Column>, rows: seq<Row>, perm: seq<Row>)
    requires WellFormed(columns, rows) && multiset(perm) == multiset(rows)
    ensures WellFormed(columns, perm)
  {
    forall i | 0 <= i < |perm| ensures perm[i].cells.Keys == ColumnSet(columns) {
      assert perm[i] in multiset(rows);
      var j :| 0 <= j < |rows| && rows[j] == perm[i];
    }
  }

  /** The rows `dropna` keeps are rows of the frame. */
  lemma {:induction false} DropNaMembers(rows: seq<Row>)
    ensures forall i :: 0 <= i < |Table.DropNa(rows)| ==> Table.DropNa(rows)[i] in rows
  {
  }
}
