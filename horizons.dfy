/**
 * Look-ahead columns as a list of assignments `df[target] = groupby-shift of
 * base by offset`, applied one after another, and the two lists the feature
 * step uses: `h1_`/`h24_` of five columns, and `TM30` .. `TM1440` of demand.
 */
module Horizons {
  import opened Wrappers
  import opened Table
  import opened Shift

  /** `df[target] = df.groupby('state')[base].shift(-offset)`. */
  datatype Horizon = Horizon(target: Column, base: Column, offset: nat)

  function Targets(hs: seq<Horizon>): set<Column>
  {
    set j | 0 <= j < |hs| :: hs[j].target
  }

  /** The column names in assignment order. */
  function TargetNames(hs: seq<Horizon>): (names: seq<Column>)
    ensures |names| == |hs|
    ensures forall j :: 0 <= j < |hs| ==> names[j] == hs[j].target
  {
    seq(|hs|, j requires 0 <= j < |hs| => hs[j].target)
  }

  predicate PositiveOffsets(hs: seq<Horizon>)
  {
    forall j :: 0 <= j < |hs| ==> hs[j].offset >= 1
  }

  /** Positive offsets, distinct targets, and no target that another assignment reads. */
  predicate ValidHorizons(hs: seq<Horizon>)
  {
    && PositiveOffsets(hs)
    && (forall j, l :: 0 <= j < l < |hs| ==> hs[j].target != hs[l].target)
    && (forall j, l :: 0 <= j < |hs| && 0 <= l < |hs| ==> hs[j].target != hs[l].base)
  }

  /** The assignments of `hs`, in order, each computed on the frame as it then is. */
  function AddShifts(rows: seq<Row>, hs: seq<Horizon>): (out: seq<Row>)
    requires PositiveOffsets(hs)
    ensures |out| == |rows|
    decreases |hs|
  {
    if hs == [] then rows
    else
      var prev := AddShifts(rows, hs[..|hs| - 1]);
      var h := hs[|hs| - 1];
      SetColumn(prev, h.target, GroupShift(prev, h.base, h.offset))
  }

  /**
   * After the assignments, every row keeps its key and every other column,
   * gains exactly the target columns, and each target holds its base shifted
   * within the state as in the ORIGINAL frame: earlier assignments never feed
   * later ones.
   */
  lemma {:induction false} AddShiftsSpec(rows: seq<Row>, hs: seq<Horizon>)
    requires ValidHorizons(hs)
    ensures SameKeys(AddShifts(rows, hs), rows)
    ensures forall i :: 0 <= i < |rows| ==> AddShifts(rows, hs)[i].cells.Keys == rows[i].cells.Keys + Targets(hs)
    ensures forall i, c :: 0 <= i < |rows| && c !in Targets(hs) ==> Get(AddShifts(rows, hs)[i], c) == Get(rows[i], c)
    ensures forall j, i :: 0 <= j < |hs| && 0 <= i < |rows| ==>
      Get(AddShifts(rows, hs)[i], hs[j].target) == GroupShift(rows, hs[j].base, hs[j].offset)[i]
    decreases |hs|
  {
    if hs != [] {
      var n := |hs|;
      var init, h := hs[..n - 1], hs[n - 1];
      assert ValidHorizons(init);
      AddShiftsSpec(rows, init);
      var prev := AddShifts(rows, init);
      assert forall j :: 0 <= j < n - 1 ==> init[j] == hs[j];
      assert Targets(hs) == Targets(init) + {h.target};
      assert h.base !in Targets(init);
      GroupShiftCongruent(prev, rows, h.base, h.offset);
      var col := GroupShift(rows, h.base, h.offset);
      var out := AddShifts(rows, hs);
      assert out == SetColumn(prev, h.target, col);
      forall j, i | 0 <= j < n && 0 <= i < |rows|
        ensures Get(out[i], hs[j].target) == GroupShift(rows, hs[j].base, hs[j].offset)[i]
      {
        if j < n - 1 {
          assert hs[j].target != h.target;
          assert Get(prev[i], init[j].target) == GroupShift(rows, init[j].base, init[j].offset)[i];
        }
      }
    }
  }

  /** One row of `AddShiftsSpec`: row `i` gains the targets and keeps its other cells. */
  lemma {:induction false} AddShiftsRow(rows: seq<Row>, hs: seq<Horizon>, i: nat)
    requires ValidHorizons(hs) && i < |rows|
    ensures AddShifts(rows, hs)[i].cells.Keys == rows[i].cells.Keys + Targets(hs)
    ensures forall c :: c !in Targets(hs) ==> Get(AddShifts(rows, hs)[i], c) == Get(rows[i], c)
  {
    AddShiftsSpec(rows, hs);
  }

  /** One instance of `AddShiftsSpec`: target `j` at row `i`. */
  lemma {:induction false} AddShiftsAt(rows: seq<Row>, hs: seq<Horizon>, j: nat, i: nat)
    requires ValidHorizons(hs) && j < |hs| && i < |rows|
    ensures Get(AddShifts(rows, hs)[i], hs[j].target) == GroupShift(rows, hs[j].base, hs[j].offset)[i]
  {
    AddShiftsSpec(rows, hs);
  }

  /**
   * Target `j` at row `i` holds its base column `offset` places further on in the
   * row's state, counted in the frame the assignments started from.
   */
  lemma {:induction false} AddShiftsOffset(rows: seq<Row>, hs: seq<Horizon>, j: nat, i: nat)
    requires ValidHorizons(hs) && j < |hs| && i < |rows|
    ensures Get(AddShifts(rows, hs)[i], hs[j].target) == ShiftedCell(rows, hs[j].base, hs[j].offset, i)
  {
    var h := hs[j];
    assert GroupShift(rows, h.base, h.offset)[i] == ShiftedCell(rows, h.base, h.offset, i) by {
      GroupShiftValue(rows, h.base, h.offset, i);
    }
    assert Get(AddShifts(rows, hs)[i], h.target) == GroupShift(rows, h.base, h.offset)[i] by {
      AddShiftsAt(rows, hs, j, i);
    }
  }

  /**
   * Nothing else changes: taking the target columns away again gives back the
   * frame the assignments started from, row for row.
   */
  lemma {:induction false} AddShiftsRestore(rows: seq<Row>, hs: seq<Horizon>)
    requires ValidHorizons(hs)
    requires forall r :: r in rows ==> r.cells.Keys !! Targets(hs)
    ensures StripAll(AddShifts(rows, hs), Targets(hs)) == rows
  {
    var out := AddShifts(rows, hs);
    var back := StripAll(out, Targets(hs));
    AddShiftsSpec(rows, hs);
    forall i | 0 <= i < |rows| ensures back[i] == rows[i] {
      var r := back[i];
      assert r.cells.Keys == rows[i].cells.Keys by {
        assert rows[i] in rows;
      }
      forall c | c in r.cells ensures r.cells[c] == rows[i].cells[c] {
        assert Get(r, c) == Get(out[i], c) == Get(rows[i], c);
      }
      assert r.cells == rows[i].cells;
    }
  }

  /** The keys part of `AddShiftsSpec`: the assignments keep every row's `state` and `DATETIME`. */
  lemma {:induction false} AddShiftsKeys(rows: seq<Row>, hs: seq<Horizon>)
    requires ValidHorizons(hs)
    ensures SameKeys(AddShifts(rows, hs), rows)
  {
    AddShiftsSpec(rows, hs);
  }

  /** The names `df.columns` gains, in order, when the assignments run. */
  function AddColumnNames(columns: seq<Column>, names: seq<Column>): (cs: seq<Column>)
    ensures ColumnSet(cs) == ColumnSet(columns) + ColumnSet(names)
    ensures Distinct(columns) ==> Distinct(cs)
    decreases |names|
  {
    if names == [] then columns
    else
      var init, last := names[..|names| - 1], names[|names| - 1];
      assert ColumnSet(names) == ColumnSet(init) + {last} by {
        ColumnSetSnoc(names);
      }
      AddColumnName(AddColumnNames(columns, init), last)
  }

  /** A column is in the grown list exactly when it was there before or is one of the names. */
  lemma {:induction false} AddColumnNamesHas(columns: seq<Column>, names: seq<Column>, c: Column)
    ensures c in AddColumnNames(columns, names) <==> c in columns || c in names
  {
    var cs := AddColumnNames(columns, names);
    assert c in cs <==> c in ColumnSet(cs);
    assert c in columns <==> c in ColumnSet(columns);
    assert c in names <==> c in ColumnSet(names);
  }

  lemma {:induction false} ColumnSetSnoc(names: seq<Column>)
    requires names != []
    ensures ColumnSet(names) == ColumnSet(names[..|names| - 1]) + {names[|names| - 1]}
  {
    assert names == names[..|names| - 1] + [names[|names| - 1]];
  }

  /** Names that are all new and pairwise distinct are appended at the end, in order. */
  lemma {:induction false} AddColumnNamesAppend(columns: seq<Column>, names: seq<Column>)
    requires Distinct(names) && ColumnSet(names) !! ColumnSet(columns)
    ensures AddColumnNames(columns, names) == columns + names
    decreases |names|
  {
    if names != [] {
      var n := |names|;
      var init, last := names[..n - 1], names[n - 1];
      assert names == init + [last];
      assert Distinct(init) by {
        forall a, b | 0 <= a < b < |init| ensures init[a] != init[b] {
          assert init[a] == names[a] && init[b] == names[b];
        }
      }
      assert ColumnSet(init) !! ColumnSet(columns) by {
        forall c | c in ColumnSet(init) ensures c in ColumnSet(names) {
          var a :| 0 <= a < |init| && init[a] == c;
          assert names[a] == c;
        }
      }
      assert last !in columns + init by {
        assert last in ColumnSet(names);
        forall a | 0 <= a < |init| ensures init[a] != last {
          assert init[a] == names[a];
        }
      }
      calc {
        AddColumnNames(columns, names);
        AddColumnName(AddColumnNames(columns, init), last);
        { AddColumnNamesAppend(columns, init); }
        AddColumnName(columns + init, last);
        columns + init + [last];
      }
    }
  }

  /** The columns `add_lagged_features` looks ahead on, in its order. */
  const LagColumns: seq<Column> := [Year, Month, DayOfMonth, DayOfWeek, TotalDemand]

  /** For each column: `h1_<c>` two rows ahead, then `h24_<c>` 48 rows ahead. */
  function LagHorizons(cols: seq<Column>): (hs: seq<Horizon>)
    ensures |hs| == 2 * |cols|
    ensures forall j :: 0 <= j < |hs| ==>
      hs[j].base in cols && hs[j].offset >= 1 && (hs[j].target == H1(hs[j].base) || hs[j].target == H24(hs[j].base))
    decreases |cols|
  {
    if cols == [] then []
    else
      var c := cols[|cols| - 1];
      var init := LagHorizons(cols[..|cols| - 1]);
      assert forall b :: b in cols[..|cols| - 1] ==> b in cols;
      init + [Horizon(H1(c), c, 2), Horizon(H24(c), c, 48)]
  }

  /** Column `cols[j]` contributes the assignments at `2 j` (`h1_`) and `2 j + 1` (`h24_`). */
  lemma {:induction false} LagHorizonsAt(cols: seq<Column>, j: nat)
    requires j < |cols|
    ensures LagHorizons(cols)[2 * j] == Horizon(H1(cols[j]), cols[j], 2)
    ensures LagHorizons(cols)[2 * j + 1] == Horizon(H24(cols[j]), cols[j], 48)
    decreases |cols|
  {
    var n := |cols|;
    if j < n - 1 {
      LagHorizonsAt(cols[..n - 1], j);
    }
  }

  /** The lag assignments are valid whenever the looked-ahead columns are distinct plain columns. */
  lemma {:induction false} LagHorizonsValid(cols: seq<Column>)
    requires Distinct(cols)
    requires forall c :: c in cols ==> !c.H1? && !c.H24?
    ensures ValidHorizons(LagHorizons(cols))
  {
    var hs := LagHorizons(cols);
    forall j | 0 <= j < |hs| ensures hs[j].base == cols[j / 2] && (hs[j].target.H1? <==> j % 2 == 0) {
      LagHorizonsAt(cols, j / 2);
    }
    forall j, l | 0 <= j < l < |hs| ensures hs[j].target != hs[l].target {
      if j / 2 != l / 2 {
        assert cols[j / 2] != cols[l / 2];
      }
    }
  }

  /** `TM<30 i>` holds `TOTALDEMAND` `i` rows ahead, for `i` = 1 .. n. */
  function DenseHorizons(n: nat): (hs: seq<Horizon>)
    ensures |hs| == n
    ensures forall j :: 0 <= j < n ==> hs[j] == Horizon(TM(30 * (j + 1)), TotalDemand, j + 1)
  {
    if n == 0 then [] else DenseHorizons(n - 1) + [Horizon(TM(30 * n), TotalDemand, n)]
  }

  /** The dense assignments are valid. */
  lemma {:induction false} DenseHorizonsValid(n: nat)
    ensures ValidHorizons(DenseHorizons(n))
  {
  }

  /** `add_shifted_demand_features` adds exactly the 48 columns `TM30`, `TM60`, .. `TM1440`. */
  lemma {:induction false} DenseTargets()
    ensures Targets(DenseHorizons(48)) == set i | 1 <= i <= 48 :: TM(30 * i)
    ensures |Targets(DenseHorizons(48))| == 48
    ensures Distinct(TargetNames(DenseHorizons(48)))
  {
    DenseTargetsUpTo(48);
  }

  /** The first `n` dense assignments name `TM30` .. `TM<30 n>`, each once. */
  lemma {:induction false} DenseTargetsUpTo(n: nat)
    ensures Targets(DenseHorizons(n)) == set i | 1 <= i <= n :: TM(30 * i)
    ensures |Targets(DenseHorizons(n))| == n
    ensures Distinct(TargetNames(DenseHorizons(n)))
  {
    var hs := DenseHorizons(n);
    var names := TargetNames(hs);
    assert Targets(hs) == ColumnSet(names);
    assert Distinct(names);
    DistinctCard(names);
    assert (set i | 1 <= i <= n :: TM(30 * i)) == Targets(hs) by {
      forall i | 1 <= i <= n ensures TM(30 * i) in Targets(hs) {
        assert hs[i - 1].target == TM(30 * i);
      }
    }
  }

  /** A list of distinct names names as many columns as it is long. */
  lemma {:induction false} DistinctCard(names: seq<Column>)
    requires Distinct(names)
    ensures |ColumnSet(names)| == |names|
  {
    if names != [] {
      var n := |names|;
      assert Distinct(names[..n - 1]);
      DistinctCard(names[..n - 1]);
      assert ColumnSet(names) == ColumnSet(names[..n - 1]) + {names[n - 1]} by {
        assert names == names[..n - 1] + [names[n - 1]];
      }
      assert names[n - 1] !in ColumnSet(names[..n - 1]) by {
        var init := names[..n - 1];
        assert forall j :: 0 <= j < |init| ==> init[j] != names[n - 1];
      }
    }
  }
}
