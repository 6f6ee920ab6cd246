/**
 * `df.groupby('state')[c].shift(-k)`: each row receives column `c` of the
 * row `k` places further on within its own state's rows, or a missing value
 * when its state has no such row. Offsets are counted in rows, not in time.
 */
module Shift {
  import opened Wrappers
  import opened Table

  /** The offset, within `rest`, of the `k`-th row of state `s` (counting from 1). */
  function Ahead(rest: seq<Row>, s: string, k: nat): (o: Option<nat>)
    requires k >= 1
    ensures o.Some? ==> o.value < |rest| && rest[o.value].state == s
    decreases |rest|
  {
    if rest == [] then None
    else if rest[0].state == s && k == 1 then Some(0)
    else
      match Ahead(rest[1..], s, if rest[0].state == s then k - 1 else k)
      case None => None
      case Some(o) => Some(o + 1)
  }

  /** `Ahead` finds the `k`-th row of the state's subsequence, and finds nothing exactly when it is too short. */
  lemma {:induction false} AheadPosition(rest: seq<Row>, s: string, k: nat)
    requires k >= 1
    ensures Ahead(rest, s, k).None? <==> |Filter(rest, s)| < k
    ensures Ahead(rest, s, k).Some? ==>
      var o := Ahead(rest, s, k).value;
      o < |rest| && |Filter(rest[..o], s)| == k - 1 && Filter(rest, s)[k - 1] == rest[o]
  {
    AheadNone(rest, s, k);
    if Ahead(rest, s, k).Some? {
      AheadSome(rest, s, k);
    }
  }

  /** `Ahead` finds nothing exactly when the state has fewer than `k` rows. */
  lemma {:induction false} AheadNone(rest: seq<Row>, s: string, k: nat)
    requires k >= 1
    ensures Ahead(rest, s, k).None? <==> |Filter(rest, s)| < k
    decreases |rest|
  {
    if rest != [] {
      var head := if rest[0].state == s then [rest[0]] else [];
      assert Filter(rest, s) == head + Filter(rest[1..], s);
      if !(rest[0].state == s && k == 1) {
        AheadNone(rest[1..], s, if rest[0].state == s then k - 1 else k);
      }
    }
  }

  /** What `Ahead` finds is the state's `k`-th row, preceded by `k - 1` rows of the state. */
  lemma {:induction false} AheadSome(rest: seq<Row>, s: string, k: nat)
    requires k >= 1 && Ahead(rest, s, k).Some?
    ensures var o := Ahead(rest, s, k).value;
      k <= |Filter(rest, s)| && |Filter(rest[..o], s)| == k - 1 && Filter(rest, s)[k - 1] == rest[o]
  {
    var o := Ahead(rest, s, k).value;
    AheadBefore(rest, s, k);
    FilterSplit(rest, o);
  }

  /** Exactly `k - 1` rows of the state come before what `Ahead` finds. */
  lemma {:induction false} AheadBefore(rest: seq<Row>, s: string, k: nat)
    requires k >= 1 && Ahead(rest, s, k).Some?
    ensures |Filter(rest[..Ahead(rest, s, k).value], s)| == k - 1
    decreases |rest|
  {
    var x, tail := rest[0], rest[1..];
    if x.state == s && k == 1 {
      assert rest[..0] == [];
    } else {
      var k' := if x.state == s then k - 1 else k;
      var o := Ahead(tail, s, k').value;
      assert Ahead(rest, s, k).value == o + 1;
      AheadBefore(tail, s, k');
      assert Filter(rest[..o + 1], s) == (if x.state == s then [x] else []) + Filter(tail[..o], s) by {
        assert rest[..o + 1] == [x] + tail[..o];
        FilterAppend([x], tail[..o], s);
        assert [x][1..] == [];
      }
    }
  }

  /** A shift only ever looks at rows of the same state. */
  lemma {:induction false} AheadSameStates(x: seq<Row>, y: seq<Row>, s: string, k: nat)
    requires k >= 1
    requires |x| == |y| && forall i :: 0 <= i < |x| ==> x[i].state == y[i].state
    ensures Ahead(x, s, k) == Ahead(y, s, k)
    decreases |x|
  {
    if x != [] && !(x[0].state == s && k == 1) {
      AheadSameStates(x[1..], y[1..], s, if x[0].state == s then k - 1 else k);
    }
  }

  /** The index of the row whose value row `i` receives from a shift by `k`, if there is one. */
  function ShiftSource(rows: seq<Row>, i: nat, k: nat): (src: Option<nat>)
    requires i < |rows| && k >= 1
    ensures src.Some? ==> i < src.value < |rows| && rows[src.value].state == rows[i].state
  {
    match Ahead(rows[i + 1..], rows[i].state, k)
    case None => None
    case Some(o) => Some(i + 1 + o)
  }

  /**
   * `df.groupby('state')[c].shift(-k)`, `k >= 1`: row `i` receives column `c`
   * of the row `ShiftSource` finds for it, or a missing value.
   */
  function GroupShift(rows: seq<Row>, c: Column, k: nat): (col: seq<Cell>)
    requires k >= 1
    ensures |col| == |rows|
  {
    seq(|rows|, i requires 0 <= i < |rows| =>
      var src := ShiftSource(rows, i, k);
      if src.Some? then Get(rows[src.value], c) else None)
  }

  /**
   * No value crosses a state boundary: what row `i` receives is column `c` of a
   * later row of its own state, exactly `k` places on among that state's rows,
   * and it is missing (never zero, never another state's value) when the state
   * has no such row.
   */
  lemma {:induction false} GroupShiftSource(rows: seq<Row>, c: Column, k: nat, i: nat)
    requires k >= 1 && i < |rows|
    ensures match ShiftSource(rows, i, k)
      case None => GroupShift(rows, c, k)[i] == None && Rank(rows, i) + k >= |Filter(rows, rows[i].state)|
      case Some(j) =>
        && i < j < |rows| && rows[j].state == rows[i].state
        && Rank(rows, j) == Rank(rows, i) + k
        && GroupShift(rows, c, k)[i] == Get(rows[j], c)
  {
    ShiftSourceRank(rows, i, k);
  }

  /**
   * Column `c` of the row `k` places after row `i` among the rows of its state,
   * or a missing value when the state has fewer rows.
   */
  function ShiftedCell(rows: seq<Row>, c: Column, k: nat, i: nat): Cell
    requires i < |rows|
  {
    var F := Filter(rows, rows[i].state);
    var q := Rank(rows, i) + k;
    if q < |F| then Get(F[q], c) else None
  }

  /**
   * The state's `p`-th row receives column `c` of the state's `(p + k)`-th row,
   * and a missing value when the state has no `(p + k)`-th row.
   */
  lemma {:induction false} GroupShiftValue(rows: seq<Row>, c: Column, k: nat, i: nat)
    requires k >= 1 && i < |rows|
    ensures GroupShift(rows, c, k)[i] == ShiftedCell(rows, c, k, i)
  {
    var s := rows[i].state;
    var rest := rows[i + 1..];
    var F := Filter(rows, s);
    var p := Rank(rows, i);
    assert |F| == p + 1 + |Filter(rest, s)| &&
      forall q :: 0 <= q < |Filter(rest, s)| ==> F[p + 1 + q] == Filter(rest, s)[q] by {
      FilterSplit(rows, i);
    }
    GroupShiftUnfold(rows, c, k, i);
    AheadPosition(rest, s, k);
    match Ahead(rest, s, k)
    case None =>
    case Some(o) =>
      assert F[p + k] == rest[o];
  }

  /** The value row `i` receives, read through `Ahead`. */
  lemma {:induction false} GroupShiftUnfold(rows: seq<Row>, c: Column, k: nat, i: nat)
    requires k >= 1 && i < |rows|
    ensures GroupShift(rows, c, k)[i] == match Ahead(rows[i + 1..], rows[i].state, k)
      case None => None
      case Some(o) => Get(rows[i + 1..][o], c)
  {
  }

  /** The source of a shift by `k` lies exactly `k` places further on in the state's rows. */
  lemma {:induction false} ShiftSourceRank(rows: seq<Row>, i: nat, k: nat)
    requires i < |rows| && k >= 1
    ensures ShiftSource(rows, i, k).Some? ==> Rank(rows, ShiftSource(rows, i, k).value) == Rank(rows, i) + k
    ensures ShiftSource(rows, i, k).None? <==> Rank(rows, i) + k >= |Filter(rows, rows[i].state)|
  {
    var s := rows[i].state;
    var rest := rows[i + 1..];
    var p := Rank(rows, i);
    assert |Filter(rows, s)| == p + 1 + |Filter(rest, s)| by {
      FilterSplit(rows, i);
    }
    AheadNone(rest, s, k);
    if Ahead(rest, s, k).Some? {
      var o := Ahead(rest, s, k).value;
      var j := i + 1 + o;
      assert |Filter(rest[..o], s)| == k - 1 by {
        AheadSome(rest, s, k);
      }
      assert rows[j].state == s;
      assert |Filter(rows[..j], s)| == p + 1 + |Filter(rest[..o], s)| by {
        assert rows[..j] == rows[..i] + ([rows[i]] + rest[..o]);
        FilterAppend(rows[..i], [rows[i]] + rest[..o], s);
        FilterAppend([rows[i]], rest[..o], s);
        assert Filter([rows[i]], s) == [rows[i]] by {
          assert [rows[i]][1..] == [];
        }
      }
    }
  }

  /** Shifting two frames with the same states and the same column `c` gives the same column. */
  lemma {:induction false} GroupShiftCongruent(a: seq<Row>, b: seq<Row>, c: Column, k: nat)
    requires k >= 1 && SameKeys(a, b)
    requires forall i :: 0 <= i < |a| ==> Get(a[i], c) == Get(b[i], c)
    ensures GroupShift(a, c, k) == GroupShift(b, c, k)
  {
    var ga, gb := GroupShift(a, c, k), GroupShift(b, c, k);
    forall i | 0 <= i < |a| ensures ga[i] == gb[i] {
      assert ShiftSource(a, i, k) == ShiftSource(b, i, k) by {
        AheadSameStates(a[i + 1..], b[i + 1..], a[i].state, k);
      }
    }
    assert ga == gb;
  }
}
