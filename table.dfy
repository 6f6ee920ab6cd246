/**
 * The in-memory table the feature-engineering pipeline works on: rows keyed
 * by `state` and `DATETIME`, each carrying named cells that may be missing.
 */
module Table {
  import opened Wrappers

  /** A cell value: a number, a boolean column, or text (the LOCATION column). */
  datatype Value = Num(x: real) | Flag(b: bool) | Text(s: string)

  /** A cell of the frame; `None` is a missing value (NaN). */
  type Cell = Option<Value>

  /**
   * The columns besides `state` and `DATETIME`. `H1(c)` and `H24(c)` are the
   * columns named `h1_<c>` and `h24_<c>`; `TM(m)` is the column named `TM<m>`.
   */
  datatype Column =
    | TotalDemand | Temperature | Location
    | Year | Month | DayOfMonth | DayOfWeek | IsWeekday | PeriodOfDay
    | IsPublicHoliday | IsDaylight
    | H1(base: Column) | H24(base: Column)
    | TM(minutes: nat)

  /** One row: its key (`state`, `DATETIME` in minutes since 1970-01-01) and its cells. */
  datatype Row = Row(state: string, datetime: int, cells: map<Column, Cell>)

  /** The cell of column `c`; a column the row lacks reads as missing. */
  function Get(r: Row, c: Column): Cell
  {
    if c in r.cells then r.cells[c] else None
  }

  function ColumnSet(columns: seq<Column>): set<Column>
  {
    set c | c in columns
  }

  predicate Distinct(columns: seq<Column>)
  {
    forall i, j :: 0 <= i < j < |columns| ==> columns[i] != columns[j]
  }

  /** A frame's shape: distinct column names, and every row has exactly those columns. */
  predicate WellFormed(columns: seq<Column>, rows: seq<Row>)
  {
    Distinct(columns) && forall i :: 0 <= i < |rows| ==> rows[i].cells.Keys == ColumnSet(columns)
  }

  /** The column list after `df[c] = ...`: a new column is appended, an existing one keeps its place. */
  function AddColumnName(columns: seq<Column>, c: Column): (cs: seq<Column>)
    ensures ColumnSet(cs) == ColumnSet(columns) + {c}
    ensures Distinct(columns) ==> Distinct(cs)
    ensures |columns| <= |cs| && cs[..|columns|] == columns
  {
    if c in columns then columns else columns + [c]
  }

  /** The column list after dropping `c`, the others in their order. */
  function RemoveColumnName(columns: seq<Column>, c: Column): (cs: seq<Column>)
    ensures ColumnSet(cs) == ColumnSet(columns) - {c}
    ensures Distinct(columns) ==> Distinct(cs)
    ensures c !in columns ==> cs == columns
    ensures forall k :: 0 <= k < |columns| && columns[k] == c && Distinct(columns) ==> cs == columns[..k] + columns[k + 1..]
  {
    if columns == [] then []
    else
      var rest := RemoveColumnName(columns[1..], c);
      RemoveSets(columns, c, rest);
      RemoveAt(columns, c, rest);
      if columns[0] == c then rest else [columns[0]] + rest
  }

  /** One step of `RemoveColumnName`: the set and distinctness facts for a list given those for its tail. */
  lemma {:induction false} RemoveSets(columns: seq<Column>, c: Column, rest: seq<Column>)
    requires columns != []
    requires ColumnSet(rest) == ColumnSet(columns[1..]) - {c}
    requires Distinct(columns[1..]) ==> Distinct(rest)
    ensures ColumnSet(if columns[0] == c then rest else [columns[0]] + rest) == ColumnSet(columns) - {c}
    ensures Distinct(columns) ==> Distinct(if columns[0] == c then rest else [columns[0]] + rest)
  {
    var tail := columns[1..];
    assert ColumnSet(columns) == {columns[0]} + ColumnSet(tail);
    assert Distinct(columns) ==> Distinct(tail) by {
      if Distinct(columns) {
        forall i, j | 0 <= i < j < |tail| ensures tail[i] != tail[j] {
          assert tail[i] == columns[i + 1] && tail[j] == columns[j + 1];
        }
      }
    }
    if columns[0] != c {
      assert Distinct(columns) ==> columns[0] !in ColumnSet(tail);
      assert forall k :: 0 <= k < |rest| ==> rest[k] in ColumnSet(rest);
      assert ColumnSet([columns[0]] + rest) == {columns[0]} + ColumnSet(rest);
    }
  }

  /** One step of `RemoveColumnName`: the order facts for a list given those for its tail. */
  lemma {:induction false} RemoveAt(columns: seq<Column>, c: Column, rest: seq<Column>)
    requires columns != []
    requires c !in columns[1..] ==> rest == columns[1..]
    requires forall k :: 0 <= k < |columns| - 1 && columns[1..][k] == c && Distinct(columns[1..]) ==> rest == columns[1..][..k] + columns[1..][k + 1..]
    ensures c !in columns ==> [columns[0]] + rest == columns
    ensures forall k :: 0 <= k < |columns| && columns[k] == c && Distinct(columns) ==>
      (if columns[0] == c then rest else [columns[0]] + rest) == columns[..k] + columns[k + 1..]
  {
    var tail := columns[1..];
    assert columns == [columns[0]] + tail;
    forall k | 0 <= k < |columns| && columns[k] == c && Distinct(columns)
      ensures (if columns[0] == c then rest else [columns[0]] + rest) == columns[..k] + columns[k + 1..]
    {
      assert Distinct(tail) by {
        forall i, j | 0 <= i < j < |tail| ensures tail[i] != tail[j] {
          assert tail[i] == columns[i + 1] && tail[j] == columns[j + 1];
        }
      }
      if k == 0 {
        assert c !in tail by {
          forall j | 0 <= j < |tail| ensures tail[j] != c {
            assert tail[j] == columns[j + 1];
          }
        }
      } else {
        assert columns[0] != c;
        assert tail[k - 1] == c;
        assert rest == tail[..k - 1] + tail[k..];
        assert columns[..k] == [columns[0]] + tail[..k - 1];
        assert columns[k + 1..] == tail[k..];
      }
    }
  }

  /** `df[c] = values`: every row gets `values[i]` in column `c` and keeps everything else. */
  function SetColumn(rows: seq<Row>, c: Column, values: seq<Cell>): (out: seq<Row>)
    requires |values| == |rows|
    ensures |out| == |rows|
    ensures forall i :: 0 <= i < |rows| ==>
      && out[i].state == rows[i].state
      && out[i].datetime == rows[i].datetime
      && out[i].cells.Keys == rows[i].cells.Keys + {c}
      && Get(out[i], c) == values[i]
      && forall d :: d != c ==> Get(out[i], d) == Get(rows[i], d)
  {
    seq(|rows|, i requires 0 <= i < |rows| => Row(rows[i].state, rows[i].datetime, rows[i].cells[c := values[i]]))
  }

  /** `df.drop(c, axis=1)` on the rows: column `c` disappears, the rest stays. */
  function DropColumn(rows: seq<Row>, c: Column): (out: seq<Row>)
    ensures |out| == |rows|
    ensures forall i :: 0 <= i < |rows| ==>
      && out[i].state == rows[i].state
      && out[i].datetime == rows[i].datetime
      && out[i].cells.Keys == rows[i].cells.Keys - {c}
      && forall d :: d != c ==> Get(out[i], d) == Get(rows[i], d)
  {
    seq(|rows|, i requires 0 <= i < |rows| => Row(rows[i].state, rows[i].datetime, rows[i].cells - {c}))
  }

  /** The rows of state `s`, in frame order: what `groupby('state')` sees of that state. */
  function Filter(rows: seq<Row>, s: string): (g: seq<Row>)
    ensures |g| <= |rows|
  {
    if rows == [] then []
    else (if rows[0].state == s then [rows[0]] else []) + Filter(rows[1..], s)
  }

  /** The position of row `i` within its own state's rows. */
  function Rank(rows: seq<Row>, i: nat): nat
    requires i < |rows|
  {
    |Filter(rows[..i], rows[i].state)|
  }

  /** Selecting one state's rows distributes over concatenation. */
  lemma {:induction false} FilterAppend(a: seq<Row>, b: seq<Row>, s: string)
    ensures Filter(a + b, s) == Filter(a, s) + Filter(b, s)
  {
    if a != [] {
      assert (a + b)[0] == a[0];
      assert (a + b)[1..] == a[1..] + b;
      FilterAppend(a[1..], b, s);
      var head := if a[0].state == s then [a[0]] else [];
      calc {
        Filter(a + b, s);
        head + Filter(a[1..] + b, s);
        head + (Filter(a[1..], s) + Filter(b, s));
        (head + Filter(a[1..], s)) + Filter(b, s);
        Filter(a, s) + Filter(b, s);
      }
    } else {
      assert a + b == b;
    }
  }

  /** A state's rows split around one of them: those before it, itself, those after it. */
  lemma {:induction false} FilterSplit(rows: seq<Row>, i: nat)
    requires i < |rows|
    ensures Filter(rows, rows[i].state) == Filter(rows[..i], rows[i].state) + [rows[i]] + Filter(rows[i + 1..], rows[i].state)
  {
    var s, x := rows[i].state, rows[i];
    var before, after := rows[..i], rows[i + 1..];
    assert rows == before + [x] + after;
    assert Filter([x], s) == [x] by {
      assert [x][1..] == [];
    }
    calc {
      Filter(rows, s);
      Filter(before + [x] + after, s);
      { FilterAppend(before + [x], after, s); }
      Filter(before + [x], s) + Filter(after, s);
      { FilterAppend(before, [x], s); }
      Filter(before, s) + [x] + Filter(after, s);
    }
  }

  /** Row `i` is its state's `Rank(rows, i)`-th row. */
  lemma {:induction false} FilterAtRank(rows: seq<Row>, i: nat)
    requires i < |rows|
    ensures Rank(rows, i) < |Filter(rows, rows[i].state)|
    ensures Filter(rows, rows[i].state)[Rank(rows, i)] == rows[i]
  {
    FilterSplit(rows, i);
  }

  /** The rows selected for a state are rows of that state taken from the frame. */
  lemma {:induction false} FilterMembers(rows: seq<Row>, s: string)
    ensures forall r :: r in Filter(rows, s) ==> r in rows && r.state == s
  {
    if rows != [] {
      FilterMembers(rows[1..], s);
    }
  }

  /** A row with no missing cell. */
  predicate Complete(r: Row)
  {
    forall c :: c in r.cells ==> r.cells[c].Some?
  }

  /** `df.dropna()`: keeps, in order, exactly the rows with no missing cell. */
  function DropNa(rows: seq<Row>): (out: seq<Row>)
    ensures |out| <= |rows|
    ensures forall r :: r in out <==> r in rows && Complete(r)
  {
    if rows == [] then []
    else (if Complete(rows[0]) then [rows[0]] else []) + DropNa(rows[1..])
  }

  /** `dropna` keeps each complete row as often as it occurs and no incomplete one. */
  lemma {:induction false} DropNaMultiplicity(rows: seq<Row>)
    ensures forall r :: multiset(DropNa(rows))[r] == if Complete(r) then multiset(rows)[r] else 0
  {
    if rows != [] {
      DropNaMultiplicity(rows[1..]);
      assert rows == [rows[0]] + rows[1..];
    }
  }

  /** `dropna` works row by row and keeps the order: the kept rows of `a` come before those of `b`. */
  lemma {:induction false} DropNaAppend(a: seq<Row>, b: seq<Row>)
    ensures DropNa(a + b) == DropNa(a) + DropNa(b)
  {
    if a == [] {
      assert a + b == b;
    } else {
      var head := if Complete(a[0]) then [a[0]] else [];
      assert (a + b)[0] == a[0] && (a + b)[1..] == a[1..] + b;
      assert DropNa(a + b) == head + DropNa(a[1..] + b);
      DropNaAppend(a[1..], b);
      assert DropNa(a) == head + DropNa(a[1..]);
    }
  }

  /** The row without the cells of `cs`: the row as it was before those columns were added. */
  function Strip(r: Row, cs: set<Column>): (s: Row)
    ensures s.state == r.state && s.datetime == r.datetime && s.cells.Keys == r.cells.Keys - cs
    ensures forall c :: c !in cs ==> Get(s, c) == Get(r, c)
  {
    Row(r.state, r.datetime, map c | c in r.cells.Keys - cs :: r.cells[c])
  }

  /** Every row without the cells of `cs`. */
  function StripAll(rows: seq<Row>, cs: set<Column>): (out: seq<Row>)
    ensures |out| == |rows| && forall i :: 0 <= i < |rows| ==> out[i] == Strip(rows[i], cs)
  {
    seq(|rows|, i requires 0 <= i < |rows| => Strip(rows[i], cs))
  }

  /** Two frames whose rows carry the same keys, position by position. */
  predicate SameKeys(a: seq<Row>, b: seq<Row>)
  {
    |a| == |b| && forall i :: 0 <= i < |a| ==> a[i].state == b[i].state && a[i].datetime == b[i].datetime
  }
}
