/**
 * `add_lagged_features` and `add_shifted_demand_features`: the two steps that
 * append look-ahead columns, as loops of column assignments on a DataFrame.
 */
module Features {
  import opened Wrappers
  import opened Table
  import opened Shift
  import opened Horizons
  import opened Order
  import opened Frames

  /** The rows `add_lagged_features` returns: sorted by `(state, DATETIME)`, then `h1_`/`h24_` columns added. */
  function LaggedRows(rows: seq<Row>): seq<Row>
  {
    AddShifts(SortValues(ByStateDatetime, rows), LagHorizons(LagColumns))
  }

  /** The rows `add_shifted_demand_features` leaves: sorted by `DATETIME`, then `TM30` .. `TM1440` added. */
  function ShiftedRows(rows: seq<Row>): seq<Row>
  {
    AddShifts(SortValues(ByDatetime, rows), DenseHorizons(48))
  }

  /** Adding one more horizon to the list is one more column assignment. */
  lemma {:induction false} AddShiftsSnoc(rows: seq<Row>, hs: seq<Horizon>, h: Horizon)
    requires PositiveOffsets(hs) && h.offset >= 1
    ensures PositiveOffsets(hs + [h])
    ensures AddShifts(rows, hs + [h]) == Table.SetColumn(AddShifts(rows, hs), h.target, GroupShift(AddShifts(rows, hs), h.base, h.offset))
  {
    assert (hs + [h])[..|hs|] == hs;
  }

  /** One more looked-ahead column is two more assignments. */
  lemma {:induction false} LagHorizonsSnoc(cols: seq<Column>, k: nat)
    requires k < |cols|
    ensures LagHorizons(cols[..k + 1]) ==
      LagHorizons(cols[..k]) + [Horizon(H1(cols[k]), cols[k], 2)] + [Horizon(H24(cols[k]), cols[k], 48)]
  {
    assert cols[..k + 1][..k] == cols[..k];
  }

  /** One more name in the list is one more `AddColumnName`. */
  lemma {:induction false} AddColumnNamesSnoc(columns: seq<Column>, hs: seq<Horizon>, h: Horizon)
    ensures AddColumnNames(columns, TargetNames(hs + [h])) == AddColumnName(AddColumnNames(columns, TargetNames(hs)), h.target)
  {
    assert TargetNames(hs + [h])[..|hs|] == TargetNames(hs);
  }

  /**
   * `add_lagged_features`: a sorted copy of the frame gains, for each column of
   * `LagColumns` in turn, `h1_<c>` (two rows ahead) and `h24_<c>` (48 rows
   * ahead) within each state. The frame passed in is not changed.
   */
  method AddLaggedFeatures(df: DataFrame) returns (out: DataFrame)
    requires df.Valid()
    requires forall c :: c in LagColumns ==> c in df.columns
    ensures fresh(out) && out.Valid()
    ensures out.rows == LaggedRows(df.rows)
    ensures out.columns == AddColumnNames(df.columns, TargetNames(LagHorizons(LagColumns)))
  {
    out := df.SortedCopy(ByStateDatetime);
    AddLagColumns(out, LagColumns);
  }

  /** The loop of `add_lagged_features`: for each column of `cols` in turn, `h1_<c>` then `h24_<c>`. */
  method AddLagColumns(df: DataFrame, cols: seq<Column>)
    requires df.Valid()
    modifies df
    ensures df.Valid()
    ensures df.rows == AddShifts(old(df.rows), LagHorizons(cols))
    ensures df.columns == AddColumnNames(old(df.columns), TargetNames(LagHorizons(cols)))
  {
    ghost var rows, columns := df.rows, df.columns;
    var k := 0;
    while k < |cols|
      invariant 0 <= k <= |cols|
      invariant df.Valid()
      invariant df.rows == AddShifts(rows, LagHorizons(cols[..k]))
      invariant df.columns == AddColumnNames(columns, TargetNames(LagHorizons(cols[..k])))
    {
      var col := cols[k];
      LagStep(rows, columns, cols, k);
      df.SetColumn(H1(col), GroupShift(df.rows, col, 2));
      df.SetColumn(H24(col), GroupShift(df.rows, col, 48));
      k := k + 1;
    }
    assert cols[..k] == cols;
  }

  /** One pass of the loop in `AddLaggedFeatures` performs the next two assignments of the lag list. */
  lemma {:induction false} LagStep(rows: seq<Row>, columns: seq<Column>, cols: seq<Column>, k: nat)
    requires k < |cols|
    ensures var c := cols[k];
      var prev := AddShifts(rows, LagHorizons(cols[..k]));
      var mid := Table.SetColumn(prev, H1(c), GroupShift(prev, c, 2));
      AddShifts(rows, LagHorizons(cols[..k + 1])) == Table.SetColumn(mid, H24(c), GroupShift(mid, c, 48))
    ensures var c := cols[k];
      var names := AddColumnNames(columns, TargetNames(LagHorizons(cols[..k])));
      AddColumnNames(columns, TargetNames(LagHorizons(cols[..k + 1]))) == AddColumnName(AddColumnName(names, H1(c)), H24(c))
  {
    var c := cols[k];
    var hs := LagHorizons(cols[..k]);
    LagHorizonsSnoc(cols, k);
    AddShiftsSnoc(rows, hs, Horizon(H1(c), c, 2));
    AddShiftsSnoc(rows, hs + [Horizon(H1(c), c, 2)], Horizon(H24(c), c, 48));
    AddColumnNamesSnoc(columns, hs, Horizon(H1(c), c, 2));
    AddColumnNamesSnoc(columns, hs + [Horizon(H1(c), c, 2)], Horizon(H24(c), c, 48));
  }

  /**
   * `add_shifted_demand_features`: sorts the frame itself by `DATETIME`, then
   * adds `TM<30 i>` = `TOTALDEMAND` `i` rows ahead within each state, for
   * `i` = 1 .. 48, and hands back the same frame.
   */
  method AddShiftedDemandFeatures(df: DataFrame) returns (result: DataFrame)
    requires df.Valid()
    requires TotalDemand in df.columns
    modifies df
    ensures result == df && df.Valid()
    ensures df.rows == ShiftedRows(old(df.rows))
    ensures df.columns == AddColumnNames(old(df.columns), TargetNames(DenseHorizons(48)))
  {
    df.SortValues(ByDatetime);
    ghost var sorted := df.rows;
    for i := 1 to 49
      invariant df.Valid()
      invariant df.rows == AddShifts(sorted, DenseHorizons(i - 1))
      invariant df.columns == AddColumnNames(old(df.columns), TargetNames(DenseHorizons(i - 1)))
    {
      AddShiftsSnoc(sorted, DenseHorizons(i - 1), Horizon(TM(30 * i), TotalDemand, i));
      AddColumnNamesSnoc(old(df.columns), DenseHorizons(i - 1), Horizon(TM(30 * i), TotalDemand, i));
      df.SetColumn(TM(30 * i), GroupShift(df.rows, TotalDemand, i));
    }
    result := df;
  }

  /**
   * The lag offsets: in the `(state, DATETIME)`-sorted frame, the state's `p`-th
   * row gets as `h1_<c>` column `c` of the state's `(p + 2)`-th row and as
   * `h24_<c>` that of its `(p + 48)`-th row, each missing past the state's end;
   * the state's rows are in time order there.
   */
  lemma {:induction false} LagOffsets(rows: seq<Row>, i: nat, j: nat)
    requires i < |rows| && j < |LagColumns|
    ensures var sorted := SortValues(ByStateDatetime, rows);
      && SameKeys(LaggedRows(rows), sorted)
      && Sorted(ByDatetime, Filter(sorted, sorted[i].state))
      && Get(LaggedRows(rows)[i], H1(LagColumns[j])) == ShiftedCell(sorted, LagColumns[j], 2, i)
      && Get(LaggedRows(rows)[i], H24(LagColumns[j])) == ShiftedCell(sorted, LagColumns[j], 48, i)
  {
    var sorted := SortValues(ByStateDatetime, rows);
    var hs := LagHorizons(LagColumns);
    assert ValidHorizons(hs) by {
      LagColumnsValid();
    }
    assert SameKeys(LaggedRows(rows), sorted) by {
      AddShiftsKeys(sorted, hs);
    }
    assert Sorted(ByDatetime, Filter(sorted, sorted[i].state)) by {
      FilterChronological(ByStateDatetime, sorted, sorted[i].state);
    }
    LagHorizonsAt(LagColumns, j);
    AddShiftsOffset(sorted, hs, 2 * j, i);
    AddShiftsOffset(sorted, hs, 2 * j + 1, i);
  }

  /** The ten lag assignments are valid: distinct targets, none read by another. */
  lemma {:induction false} LagColumnsValid()
    ensures ValidHorizons(LagHorizons(LagColumns))
  {
    LagHorizonsValid(LagColumns);
  }

  /**
   * The dense offsets: in the `DATETIME`-sorted frame, the state's `p`-th row
   * gets as `TM<30 k>` the `TOTALDEMAND` of the state's `(p + k)`-th row, for
   * `k` = 1 .. 48, missing past the state's end; the state's rows are in time
   * order there.
   */
  lemma {:induction false} DenseOffsets(rows: seq<Row>, i: nat, k: nat)
    requires i < |rows| && 1 <= k <= 48
    ensures var sorted := SortValues(ByDatetime, rows);
      && SameKeys(ShiftedRows(rows), sorted)
      && Sorted(ByDatetime, Filter(sorted, sorted[i].state))
      && Get(ShiftedRows(rows)[i], TM(30 * k)) == ShiftedCell(sorted, TotalDemand, k, i)
  {
    var sorted := SortValues(ByDatetime, rows);
    var hs := DenseHorizons(48);
    assert ValidHorizons(hs) by {
      DenseHorizonsValid(48);
    }
    assert hs[k - 1] == Horizon(TM(30 * k), TotalDemand, k);
    assert SameKeys(ShiftedRows(rows), sorted) by {
      AddShiftsKeys(sorted, hs);
    }
    assert Sorted(ByDatetime, Filter(sorted, sorted[i].state)) by {
      FilterChronological(ByDatetime, sorted, sorted[i].state);
    }
    AddShiftsOffset(sorted, hs, k - 1, i);
  }

  /**
   * `add_lagged_features` only reorders the rows and adds columns: without the
   * ten new columns the frame is the `(state, DATETIME)`-sorted input, so the
   * multiset of rows and every pre-existing cell are kept.
   */
  lemma {:induction false} LaggedKeepsRows(rows: seq<Row>)
    requires forall r :: r in rows ==> r.cells.Keys !! Targets(LagHorizons(LagColumns))
    ensures StripAll(LaggedRows(rows), Targets(LagHorizons(LagColumns))) == SortValues(ByStateDatetime, rows)
    ensures multiset(StripAll(LaggedRows(rows), Targets(LagHorizons(LagColumns)))) == multiset(rows)
  {
    var sorted := SortValues(ByStateDatetime, rows);
    var hs := LagHorizons(LagColumns);
    assert ValidHorizons(hs) by {
      LagColumnsValid();
    }
    forall r | r in sorted ensures r.cells.Keys !! Targets(hs) {
      assert r in multiset(rows);
    }
    AddShiftsRestore(sorted, hs);
  }

  /**
   * `add_shifted_demand_features` only reorders the rows and adds columns:
   * without `TM30` .. `TM1440` the frame is the `DATETIME`-sorted input.
   */
  lemma {:induction false} ShiftedKeepsRows(rows: seq<Row>)
    requires forall r :: r in rows ==> r.cells.Keys !! Targets(DenseHorizons(48))
    ensures StripAll(ShiftedRows(rows), Targets(DenseHorizons(48))) == SortValues(ByDatetime, rows)
    ensures multiset(StripAll(ShiftedRows(rows), Targets(DenseHorizons(48)))) == multiset(rows)
  {
    var sorted := SortValues(ByDatetime, rows);
    var hs := DenseHorizons(48);
    assert ValidHorizons(hs) by {
      DenseHorizonsValid(48);
    }
    forall r | r in sorted ensures r.cells.Keys !! Targets(hs) {
      assert r in multiset(rows);
    }
    AddShiftsRestore(sorted, hs);
  }
}
