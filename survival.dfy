/**
 * Which rows survive the final `dropna`. Every look-ahead column is filled
 * exactly when its state has enough later rows, so on a frame whose only gaps
 * are the ones the look-ahead steps create, a row survives exactly when its
 * state has at least 48 later readings: each state loses its last 48 rows.
 */
module Survival {
  import opened Wrappers
  import opened Table
  import opened Counting
  import opened Order
  import opened Shift
  import opened Horizons
  import opened Features

  /**
   * In a frame where the state's rows are in time order and keys are unique,
   * the rows of the state after row `i` are exactly its later readings.
   */
  lemma {:induction false} RankLater(rows: seq<Row>, i: nat)
    requires i < |rows| && UniqueKeys(rows)
    requires Sorted(ByDatetime, Filter(rows, rows[i].state))
    ensures Rank(rows, i) + 1 + Later(rows, rows[i]) == |Filter(rows, rows[i].state)|
  {
    var x := rows[i];
    var s, t := x.state, x.datetime;
    var F := Filter(rows, s);
    var before, after := Filter(rows[..i], s), Filter(rows[i + 1..], s);
    var p := |before|;
    assert F == before + [x] + after by {
      FilterSplit(rows, i);
    }
    assert forall k :: 0 <= k < |F| ==> F[k].state == s by {
      FilterMembers(rows, s);
      assert forall k :: 0 <= k < |F| ==> F[k] in F;
    }
    assert Count(F, s, After(t)) == Later(rows, x) && Count(F, s, At(t)) == 1 by {
      CountFilter(rows, s, After(t));
      CountFilter(rows, s, At(t));
    }
    forall k | 0 <= k < |before| ensures before[k].datetime <= t {
      assert before[k] == F[k] && x == F[p];
    }
    forall k | 0 <= k < |after| ensures after[k].datetime >= t && after[k].state == s {
      assert after[k] == F[p + 1 + k] && x == F[p];
    }
    forall k | 0 <= k < |before| ensures before[k].state == s {
      assert before[k] == F[k];
    }
    CountAround(before, x, after);
  }

  /**
   * In a run of one state's rows with `x` at its only instant and earlier
   * rows before it, later ones after it, the rows after `x` are exactly the
   * rows later than `x`.
   */
  lemma {:induction false} CountAround(before: seq<Row>, x: Row, after: seq<Row>)
    requires forall k :: 0 <= k < |before| ==> before[k].state == x.state && before[k].datetime <= x.datetime
    requires forall k :: 0 <= k < |after| ==> after[k].state == x.state && after[k].datetime >= x.datetime
    requires Count(before + [x] + after, x.state, At(x.datetime)) == 1
    ensures Count(before + [x] + after, x.state, After(x.datetime)) == |after|
  {
    var s, t := x.state, x.datetime;
    forall w ensures Count(before + [x] + after, s, w) == Count(before, s, w) + Count([x], s, w) + Count(after, s, w) {
      CountAppend(before + [x], after, s, w);
      CountAppend(before, [x], s, w);
    }
    assert Count([x], s, After(t)) == 0 && Count([x], s, At(t)) == 1 by {
      assert [x][1..] == [];
    }
    CountZero(before, s, After(t));
    CountAtOrAfter(after, s, t);
  }

  /** A shifted cell is present exactly when the state has a row that far ahead. */
  lemma {:induction false} ShiftedCellSome(rows: seq<Row>, c: Column, k: nat, i: nat)
    requires i < |rows|
    requires forall r :: r in rows ==> Get(r, c).Some?
    ensures ShiftedCell(rows, c, k, i).Some? <==> Rank(rows, i) + k < |Filter(rows, rows[i].state)|
  {
    var F := Filter(rows, rows[i].state);
    var q := Rank(rows, i) + k;
    if q < |F| {
      FilterMembers(rows, rows[i].state);
      assert F[q] in F;
    }
  }

  /**
   * After the assignments of `hs`, a row is complete exactly when it was
   * complete before and its state reaches the largest offset past it.
   */
  lemma {:induction false} AddShiftsComplete(rows: seq<Row>, hs: seq<Horizon>, m: nat, i: nat)
    requires ValidHorizons(hs) && m < |hs| && i < |rows|
    requires forall j :: 0 <= j < |hs| ==> hs[j].offset <= hs[m].offset
    requires forall r, j :: r in rows && 0 <= j < |hs| ==> Get(r, hs[j].base).Some?
    requires rows[i].cells.Keys !! Targets(hs)
    ensures Complete(AddShifts(rows, hs)[i]) <==>
      Complete(rows[i]) && Rank(rows, i) + hs[m].offset < |Filter(rows, rows[i].state)|
  {
    var o := AddShifts(rows, hs)[i];
    var reach := |Filter(rows, rows[i].state)|;
    var p := Rank(rows, i);
    assert o.cells.Keys == rows[i].cells.Keys + Targets(hs) &&
      forall c :: c !in Targets(hs) ==> Get(o, c) == Get(rows[i], c) by {
      AddShiftsSpec(rows, hs);
    }
    forall j | 0 <= j < |hs| ensures Get(o, hs[j].target).Some? <==> p + hs[j].offset < reach {
      AddShiftsOffset(rows, hs, j, i);
      ShiftedCellSome(rows, hs[j].base, hs[j].offset, i);
    }
    if Complete(o) {
      assert Get(o, hs[m].target).Some? by {
        assert hs[m].target in Targets(hs);
      }
      forall c | c in rows[i].cells ensures rows[i].cells[c].Some? {
        assert Get(o, c) == Get(rows[i], c);
      }
    }
    if Complete(rows[i]) && p + hs[m].offset < reach {
      forall c | c in o.cells ensures o.cells[c].Some? {
        if c in Targets(hs) {
          var j :| 0 <= j < |hs| && hs[j].target == c;
        } else {
          assert Get(o, c) == Get(rows[i], c);
        }
      }
    }
  }

  /**
   * One look-ahead step on a sorted frame with unique keys: a row is complete
   * afterwards exactly when it was before and its state has at least the
   * largest offset of later readings.
   */
  lemma {:induction false} StepComplete(rows: seq<Row>, hs: seq<Horizon>, m: nat, key: SortKey, i: nat)
    requires ValidHorizons(hs) && m < |hs| && i < |rows|
    requires forall j :: 0 <= j < |hs| ==> hs[j].offset <= hs[m].offset
    requires Sorted(key, rows) && UniqueKeys(rows)
    requires forall r, j :: r in rows && 0 <= j < |hs| ==> Get(r, hs[j].base).Some?
    requires rows[i].cells.Keys !! Targets(hs)
    ensures Complete(AddShifts(rows, hs)[i]) <==> Complete(rows[i]) && Later(rows, rows[i]) >= hs[m].offset
  {
    AddShiftsComplete(rows, hs, m, i);
    FilterChronological(key, rows, rows[i].state);
    RankLater(rows, i);
  }

  /** Later readings depend only on a row's key. */
  lemma {:induction false} LaterByKey(rows: seq<Row>, r: Row, r': Row)
    requires r.state == r'.state && r.datetime == r'.datetime
    ensures Later(rows, r) == Later(rows, r')
  {
  }

  /**
   * The frame the feature steps start from: distinct columns shared by all
   * rows, no missing cell, unique `(state, DATETIME)` keys, the five lag
   * columns present and no look-ahead column yet.
   */
  predicate Prepared(columns: seq<Column>, rows: seq<Row>)
  {
    && WellFormed(columns, rows)
    && UniqueKeys(rows)
    && (forall r :: r in rows ==> Complete(r))
    && (forall c :: c in LagColumns ==> c in columns)
    && (forall c :: c in columns ==> !c.H1? && !c.H24? && !c.TM?)
  }

  /** The lag and dense steps keep every count by state and window: they only reorder and add columns. */
  lemma {:induction false} FeatureCounts(rows: seq<Row>, s: string, w: Window)
    ensures Count(LaggedRows(rows), s, w) == Count(rows, s, w)
    ensures Count(ShiftedRows(LaggedRows(rows)), s, w) == Count(rows, s, w)
  {
    var S1 := SortValues(ByStateDatetime, rows);
    var L := LaggedRows(rows);
    var S2 := SortValues(ByDatetime, L);
    assert SameKeys(L, S1) by {
      LagColumnsValid();
      AddShiftsKeys(S1, LagHorizons(LagColumns));
    }
    assert SameKeys(ShiftedRows(L), S2) by {
      DenseHorizonsValid(48);
      AddShiftsKeys(S2, DenseHorizons(48));
    }
    CountPermutation(S1, rows, s, w);
    CountSameKeys(L, S1, s, w);
    CountPermutation(S2, L, s, w);
    CountSameKeys(ShiftedRows(L), S2, s, w);
  }

  /** The lag and dense steps keep keys unique. */
  lemma {:induction false} FeatureKeys(rows: seq<Row>)
    requires UniqueKeys(rows)
    ensures UniqueKeys(SortValues(ByStateDatetime, rows))
    ensures UniqueKeys(LaggedRows(rows))
    ensures UniqueKeys(SortValues(ByDatetime, LaggedRows(rows)))
  {
    var S1 := SortValues(ByStateDatetime, rows);
    UniqueKeysPermutation(rows, S1);
    assert SameKeys(S1, LaggedRows(rows)) by {
      LagColumnsValid();
      AddShiftsKeys(S1, LagHorizons(LagColumns));
    }
    UniqueKeysSameKeys(S1, LaggedRows(rows));
    UniqueKeysPermutation(LaggedRows(rows), SortValues(ByDatetime, LaggedRows(rows)));
  }

  /** With unique input keys, the frame `dropna` leaves has unique keys. */
  lemma {:induction false} KeptUnique(rows: seq<Row>)
    requires UniqueKeys(rows)
    ensures UniqueKeys(DropNa(ShiftedRows(LaggedRows(rows))))
  {
    var L := LaggedRows(rows);
    FeatureKeys(rows);
    assert SameKeys(SortValues(ByDatetime, L), ShiftedRows(L)) by {
      DenseHorizonsValid(48);
      AddShiftsKeys(SortValues(ByDatetime, L), DenseHorizons(48));
    }
    UniqueKeysSameKeys(SortValues(ByDatetime, L), ShiftedRows(L));
    UniqueKeysDropNa(ShiftedRows(L));
  }

  /** A row of the lagged frame is complete exactly when its state has at least 48 later readings. */
  lemma {:induction false} LaggedComplete(columns: seq<Column>, rows: seq<Row>, j: nat)
    requires Prepared(columns, rows) && j < |rows|
    ensures Complete(LaggedRows(rows)[j]) <==> Later(rows, LaggedRows(rows)[j]) >= 48
  {
    LagComplete(columns, rows, LagColumns, j);
  }

  /** `LaggedComplete` for any list of distinct plain lag columns of the frame. */
  lemma {:induction false} LagComplete(columns: seq<Column>, rows: seq<Row>, cols: seq<Column>, j: nat)
    requires WellFormed(columns, rows) && UniqueKeys(rows) && (forall r :: r in rows ==> Complete(r))
    requires cols != [] && Distinct(cols) && forall c :: c in cols ==> c in columns && !c.H1? && !c.H24?
    requires forall c :: c in columns ==> !c.H1? && !c.H24?
    requires j < |rows|
    ensures var out := AddShifts(SortValues(ByStateDatetime, rows), LagHorizons(cols));
      Complete(out[j]) <==> Later(rows, out[j]) >= 48
  {
    var S1 := SortValues(ByStateDatetime, rows);
    var hs := LagHorizons(cols);
    var out := AddShifts(S1, hs);
    LagHorizonsShape(cols);
    SortValuesMembers(ByStateDatetime, rows);
    assert forall r, k :: r in S1 && 0 <= k < |hs| ==> Get(r, hs[k].base).Some? by {
      forall r, k | r in S1 && 0 <= k < |hs| ensures Get(r, hs[k].base).Some? {
        assert hs[k].base in columns;
      }
    }
    assert S1[j] in rows;
    assert S1[j].cells.Keys !! Targets(hs);
    assert UniqueKeys(S1) by {
      UniqueKeysPermutation(rows, S1);
    }
    StepComplete(S1, hs, 1, ByStateDatetime, j);
    assert Later(S1, S1[j]) == Later(rows, out[j]) by {
      CountPermutation(S1, rows, S1[j].state, After(S1[j].datetime));
      AddShiftsKeys(S1, hs);
    }
  }

  /** The lag list's shape: valid, largest offset 48 at index 1, and only `h1_`/`h24_` targets. */
  lemma {:induction false} LagHorizonsShape(cols: seq<Column>)
    requires cols != [] && Distinct(cols) && forall c :: c in cols ==> !c.H1? && !c.H24?
    ensures ValidHorizons(LagHorizons(cols))
    ensures |LagHorizons(cols)| >= 2 && LagHorizons(cols)[1].offset == 48
    ensures forall k :: 0 <= k < |LagHorizons(cols)| ==> LagHorizons(cols)[k].offset <= 48
    ensures forall c :: c in Targets(LagHorizons(cols)) ==> c.H1? || c.H24?
  {
    var hs := LagHorizons(cols);
    assert ValidHorizons(hs) by {
      LagHorizonsValid(cols);
    }
    assert hs[1].offset == 48 by {
      LagHorizonsAt(cols, 0);
    }
    forall k | 0 <= k < |hs| ensures hs[k].offset <= 48 {
      LagHorizonsAt(cols, k / 2);
    }
    forall c | c in Targets(hs) ensures c.H1? || c.H24? {
      var k :| 0 <= k < |hs| && hs[k].target == c;
    }
  }

  /** The dense list's shape: largest offset `n` at its last index, base `TOTALDEMAND`, only `TM` targets. */
  lemma {:induction false} DenseHorizonsShape(n: nat)
    requires n >= 1
    ensures ValidHorizons(DenseHorizons(n)) && DenseHorizons(n)[n - 1].offset == n
    ensures forall k :: 0 <= k < n ==> DenseHorizons(n)[k].offset <= n && DenseHorizons(n)[k].base == TotalDemand
    ensures forall c :: c in Targets(DenseHorizons(n)) ==> c.TM?
  {
    var hs := DenseHorizons(n);
    DenseHorizonsValid(n);
    forall c | c in Targets(hs) ensures c.TM? {
      var k :| 0 <= k < |hs| && hs[k].target == c;
    }
  }

  /** Every row of the lagged frame has its demand and no `TM` column yet. */
  lemma {:induction false} LaggedRowsShape(columns: seq<Column>, rows: seq<Row>)
    requires Prepared(columns, rows)
    ensures forall r :: r in LaggedRows(rows) ==> Get(r, TotalDemand).Some? && forall c :: c in r.cells ==> !c.TM?
  {
    LagColumnsShape();
    LagRowsShape(columns, rows, LagColumns);
  }

  /** The five lag columns are distinct plain columns and include `TOTALDEMAND`. */
  lemma {:induction false} LagColumnsShape()
    ensures LagColumns != [] && Distinct(LagColumns) && TotalDemand in LagColumns
    ensures forall c :: c in LagColumns ==> !c.H1? && !c.H24?
  {
  }

  /** `LaggedRowsShape` for any list of distinct plain lag columns. */
  lemma {:induction false} LagRowsShape(columns: seq<Column>, rows: seq<Row>, cols: seq<Column>)
    requires WellFormed(columns, rows) && (forall r :: r in rows ==> Complete(r))
    requires TotalDemand in columns && forall c :: c in columns ==> !c.TM?
    requires cols != [] && Distinct(cols) && forall c :: c in cols ==> !c.H1? && !c.H24?
    ensures forall r :: r in AddShifts(SortValues(ByStateDatetime, rows), LagHorizons(cols)) ==>
      Get(r, TotalDemand).Some? && forall c :: c in r.cells ==> !c.TM?
  {
    LagHorizonsShape(cols);
    SortedRowsShape(columns, rows, ByStateDatetime);
    AddShiftsRowsShape(SortValues(ByStateDatetime, rows), LagHorizons(cols));
  }

  /** The sorted frame's rows have their demand and no `TM` column. */
  lemma {:induction false} SortedRowsShape(columns: seq<Column>, rows: seq<Row>, key: SortKey)
    requires WellFormed(columns, rows) && (forall r :: r in rows ==> Complete(r))
    requires TotalDemand in columns && forall c :: c in columns ==> !c.TM?
    ensures forall k :: 0 <= k < |SortValues(key, rows)| ==>
      Get(SortValues(key, rows)[k], TotalDemand).Some? && forall c :: c in SortValues(key, rows)[k].cells ==> !c.TM?
  {
    var S := SortValues(key, rows);
    SortValuesMembers(key, rows);
    forall k | 0 <= k < |S| ensures Get(S[k], TotalDemand).Some? && forall c :: c in S[k].cells ==> !c.TM? {
      assert S[k] in rows;
      var m :| 0 <= m < |rows| && rows[m] == S[k];
    }
  }

  /** `h1_`/`h24_` assignments keep every row's demand and add no `TM` column. */
  lemma {:induction false} AddShiftsRowsShape(rows: seq<Row>, hs: seq<Horizon>)
    requires ValidHorizons(hs) && forall c :: c in Targets(hs) ==> c.H1? || c.H24?
    requires forall k :: 0 <= k < |rows| ==> Get(rows[k], TotalDemand).Some? && forall c :: c in rows[k].cells ==> !c.TM?
    ensures forall r :: r in AddShifts(rows, hs) ==> Get(r, TotalDemand).Some? && forall c :: c in r.cells ==> !c.TM?
  {
    var L := AddShifts(rows, hs);
    assert TotalDemand !in Targets(hs);
    forall r | r in L ensures Get(r, TotalDemand).Some? && forall c :: c in r.cells ==> !c.TM? {
      var j :| 0 <= j < |L| && L[j] == r;
      AddShiftsRow(rows, hs, j);
      forall c | c in r.cells ensures !c.TM? {
        if c !in Targets(hs) {
          assert c in rows[j].cells;
        }
      }
    }
  }

  /**
   * The dense step on a frame with unique keys, demand everywhere and no `TM`
   * column: a row is complete afterwards exactly when it was before and its
   * state has at least `n` later readings.
   */
  lemma {:induction false} DenseComplete(L: seq<Row>, n: nat, i: nat)
    requires n >= 1 && UniqueKeys(L) && i < |L|
    requires forall r :: r in L ==> Get(r, TotalDemand).Some? && forall c :: c in r.cells ==> !c.TM?
    ensures var S2 := SortValues(ByDatetime, L);
      var S := AddShifts(S2, DenseHorizons(n));
      && S2[i] in L && S[i].state == S2[i].state && S[i].datetime == S2[i].datetime
      && (Complete(S[i]) <==> Complete(S2[i]) && Later(L, S[i]) >= n)
  {
    var S2 := SortValues(ByDatetime, L);
    var hs := DenseHorizons(n);
    var S := AddShifts(S2, hs);
    DenseHorizonsShape(n);
    SortValuesMembers(ByDatetime, L);
    assert S2[i] in L;
    assert S2[i].cells.Keys !! Targets(hs);
    assert UniqueKeys(S2) by {
      UniqueKeysPermutation(L, S2);
    }
    StepComplete(S2, hs, n - 1, ByDatetime, i);
    assert SameKeys(S, S2) by {
      AddShiftsKeys(S2, hs);
    }
    CountPermutation(S2, L, S2[i].state, After(S2[i].datetime));
  }

  /**
   * A row of the final frame (before `dropna`) is complete exactly when its
   * state has at least 48 later readings.
   */
  lemma {:induction false} ShiftedComplete(columns: seq<Column>, rows: seq<Row>, i: nat)
    requires Prepared(columns, rows) && i < |ShiftedRows(LaggedRows(rows))|
    ensures Complete(ShiftedRows(LaggedRows(rows))[i]) <==> Later(rows, ShiftedRows(LaggedRows(rows))[i]) >= 48
  {
    var L := LaggedRows(rows);
    var S2 := SortValues(ByDatetime, L);
    var S := ShiftedRows(L);
    assert UniqueKeys(L) by {
      FeatureKeys(rows);
    }
    LaggedRowsShape(columns, rows);
    DenseComplete(L, 48, i);
    var j :| 0 <= j < |L| && L[j] == S2[i];
    LaggedComplete(columns, rows, j);
    FeatureCounts(rows, S[i].state, After(S[i].datetime));
  }

  /**
   * Row survival: on a prepared frame, `dropna` after both look-ahead steps
   * keeps exactly the rows whose state has at least 48 later readings, so
   * every state loses its last 48 rows and nothing else.
   */
  lemma {:induction false} RowSurvival(columns: seq<Column>, rows: seq<Row>)
    requires Prepared(columns, rows)
    ensures forall r :: r in DropNa(ShiftedRows(LaggedRows(rows))) <==>
      r in ShiftedRows(LaggedRows(rows)) && Later(rows, r) >= 48
  {
    var S := ShiftedRows(LaggedRows(rows));
    forall i | 0 <= i < |S| ensures Complete(S[i]) <==> Later(rows, S[i]) >= 48 {
      ShiftedComplete(columns, rows, i);
    }
    DropNaByLater(S, rows, 48);
  }

  /** When completeness is decided by the number of later readings, so is what `dropna` keeps. */
  lemma {:induction false} DropNaByLater(S: seq<Row>, rows: seq<Row>, n: nat)
    requires forall i :: 0 <= i < |S| ==> (Complete(S[i]) <==> Later(rows, S[i]) >= n)
    ensures forall r :: r in DropNa(S) <==> r in S && Later(rows, r) >= n
  {
    forall r | r in S ensures Complete(r) <==> Later(rows, r) >= n {
      var i :| 0 <= i < |S| && S[i] == r;
    }
  }

  /** A state with at most 48 rows contributes nothing to the written frame. */
  lemma {:induction false} SmallStateVanishes(columns: seq<Column>, rows: seq<Row>, s: string)
    requires Prepared(columns, rows) && Count(rows, s, AnyTime) <= 48
    ensures forall r :: r in DropNa(ShiftedRows(LaggedRows(rows))) ==> r.state != s
  {
    var S := ShiftedRows(LaggedRows(rows));
    RowSurvival(columns, rows);
    forall r | r in DropNa(S) ensures r.state != s {
      var i :| 0 <= i < |S| && S[i] == r;
      LaterBelowSize(S, i);
      FeatureCounts(rows, r.state, AnyTime);
      FeatureCounts(rows, r.state, After(r.datetime));
    }
  }

  /** A prepared frame keeps exactly the rows with at least 48 later readings of their state; counted against any frame with the same counts. */
  lemma {:induction false} KeptRowsCounted(columns: seq<Column>, rows: seq<Row>, reference: seq<Row>)
    requires Prepared(columns, rows)
    requires forall s, w :: Count(rows, s, w) == Count(reference, s, w)
    ensures forall r :: r in DropNa(ShiftedRows(LaggedRows(rows))) ==>
      Count(reference, r.state, At(r.datetime)) == 1 && Later(reference, r) >= 48
  {
    var S := ShiftedRows(LaggedRows(rows));
    RowSurvival(columns, rows);
    forall r | r in DropNa(S) ensures Count(reference, r.state, At(r.datetime)) == 1 && Later(reference, r) >= 48 {
      CountMember(S, r);
      FeatureCounts(rows, r.state, At(r.datetime));
      CountUnique(rows, r.state, r.datetime);
    }
  }

  /** A key that occurs in a frame whose `dropna` keeps exactly the rows with enough later readings, and that has enough of them itself, is kept. */
  lemma {:induction false} KeptKey(S: seq<Row>, rows: seq<Row>, d: Row, n: nat)
    requires Count(S, d.state, At(d.datetime)) > 0
    requires forall r :: r in DropNa(S) <==> r in S && Later(rows, r) >= n
    requires Later(rows, d) >= n
    ensures exists r :: r in DropNa(S) && r.state == d.state && r.datetime == d.datetime
  {
    CountPositive(S, d.state, At(d.datetime));
    var k :| 0 <= k < |S| && InWindow(S[k], d.state, At(d.datetime));
    LaterByKey(rows, S[k], d);
    assert S[k] in DropNa(S);
  }

  /** Every reading of the reference frame with at least 48 later readings of its state comes out of a prepared frame with the same counts. */
  lemma {:induction false} KeptReadingsCounted(columns: seq<Column>, rows: seq<Row>, reference: seq<Row>)
    requires Prepared(columns, rows)
    requires forall s, w :: Count(rows, s, w) == Count(reference, s, w)
    ensures forall i :: 0 <= i < |reference| && Later(reference, reference[i]) >= 48 ==>
      exists r :: r in DropNa(ShiftedRows(LaggedRows(rows))) && r.state == reference[i].state && r.datetime == reference[i].datetime
  {
    var S := ShiftedRows(LaggedRows(rows));
    RowSurvival(columns, rows);
    forall i | 0 <= i < |reference| && Later(reference, reference[i]) >= 48
      ensures exists r :: r in DropNa(S) && r.state == reference[i].state && r.datetime == reference[i].datetime
    {
      var d := reference[i];
      CountMember(reference, d);
      FeatureCounts(rows, d.state, At(d.datetime));
      assert Later(rows, d) == Later(reference, d);
      KeptKey(S, rows, d, 48);
    }
  }
}
