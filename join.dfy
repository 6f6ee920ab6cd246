/**
 * `pd.merge(left, right, on=['state', 'DATETIME'], how='left')`: every left
 * row, in order, joined with each right row of the same key in the right
 * frame's order, or with missing right-hand cells when there is none.
 */
module Join {
  import opened Wrappers
  import opened Table
  import opened Counting

  /** The right rows carrying key `(s, t)`, in their order. */
  function KeyMatches(right: seq<Row>, s: string, t: int): (m: seq<Row>)
    ensures |m| == Count(right, s, At(t))
    ensures forall r :: r in m <==> r in right && r.state == s && r.datetime == t
  {
    if right == [] then []
    else
      var rest := KeyMatches(right[1..], s, t);
      assert forall r :: r in right <==> r == right[0] || r in right[1..];
      (if right[0].state == s && right[0].datetime == t then [right[0]] else []) + rest
  }

  /** A left row joined with a right row: the left key, the left cells and the right row's other cells. */
  function Combine(l: Row, r: Row): Row
  {
    Row(l.state, l.datetime, l.cells + r.cells)
  }

  /** A left row without a partner: the right frame's columns are missing. */
  function Unmatched(l: Row, rightColumns: seq<Column>): Row
  {
    Row(l.state, l.datetime, l.cells + map c | c in ColumnSet(rightColumns) :: None)
  }

  /** The output rows of one left row: one per partner, or a single unmatched row. */
  function MergeRow(l: Row, right: seq<Row>, rightColumns: seq<Column>): (out: seq<Row>)
    ensures |out| == if Count(right, l.state, At(l.datetime)) == 0 then 1 else Count(right, l.state, At(l.datetime))
    ensures forall o :: o in out ==> o.state == l.state && o.datetime == l.datetime
  {
    var m := KeyMatches(right, l.state, l.datetime);
    if m == [] then [Unmatched(l, rightColumns)]
    else seq(|m|, k requires 0 <= k < |m| => Combine(l, m[k]))
  }

  /** The left merge of the two frames on `(state, DATETIME)`. */
  function LeftMerge(left: seq<Row>, right: seq<Row>, rightColumns: seq<Column>): (out: seq<Row>)
    ensures |out| >= |left|
  {
    if left == [] then []
    else MergeRow(left[0], right, rightColumns) + LeftMerge(left[1..], right, rightColumns)
  }

  /** The merge works left row by left row and keeps their order. */
  lemma {:induction false} LeftMergeAppend(a: seq<Row>, b: seq<Row>, right: seq<Row>, rightColumns: seq<Column>)
    ensures LeftMerge(a + b, right, rightColumns) == LeftMerge(a, right, rightColumns) + LeftMerge(b, right, rightColumns)
  {
    if a == [] {
      assert a + b == b;
    } else {
      assert (a + b)[0] == a[0] && (a + b)[1..] == a[1..] + b;
      LeftMergeAppend(a[1..], b, right, rightColumns);
    }
  }

  /** Every left row comes out under its key, and every merged row carries the key of a left row. */
  lemma {:induction false} LeftMergeKeepsKeys(left: seq<Row>, right: seq<Row>, rightColumns: seq<Column>)
    ensures forall l :: l in left ==>
      exists o :: o in LeftMerge(left, right, rightColumns) && o.state == l.state && o.datetime == l.datetime
    ensures forall o :: o in LeftMerge(left, right, rightColumns) ==>
      exists l :: l in left && o.state == l.state && o.datetime == l.datetime
  {
    if left != [] {
      var head, rest := MergeRow(left[0], right, rightColumns), LeftMerge(left[1..], right, rightColumns);
      LeftMergeKeepsKeys(left[1..], right, rightColumns);
      assert LeftMerge(left, right, rightColumns) == head + rest;
      assert head[0] in head;
      forall l | l in left
        ensures exists o :: o in head + rest && o.state == l.state && o.datetime == l.datetime
      {
        if l != left[0] {
          assert l in left[1..];
        }
      }
    }
  }

  /** The rows a left row produces keep its cells, when the right frame's columns are not among them. */
  lemma {:induction false} MergeRowCells(l: Row, right: seq<Row>, rightColumns: seq<Column>)
    requires l.cells.Keys !! ColumnSet(rightColumns)
    requires forall r :: r in right ==> r.cells.Keys <= ColumnSet(rightColumns)
    ensures forall o :: o in MergeRow(l, right, rightColumns) ==> forall c :: c in l.cells ==> Get(o, c) == Get(l, c)
  {
    var m := KeyMatches(right, l.state, l.datetime);
    forall k | 0 <= k < |m| ensures m[k].cells.Keys !! l.cells.Keys {
      assert m[k] in m;
    }
  }

  /**
   * Whatever the right frame holds, every left row comes out of the merge
   * with its key and all its cells, provided the right frame's columns are
   * not among them.
   */
  lemma {:induction false} LeftMergeKeepsCells(left: seq<Row>, right: seq<Row>, rightColumns: seq<Column>)
    requires forall l :: l in left ==> l.cells.Keys !! ColumnSet(rightColumns)
    requires forall r :: r in right ==> r.cells.Keys <= ColumnSet(rightColumns)
    ensures forall i :: 0 <= i < |left| ==>
      exists o :: (o in LeftMerge(left, right, rightColumns) && o.state == left[i].state && o.datetime == left[i].datetime
        && forall c :: c in left[i].cells ==> Get(o, c) == Get(left[i], c))
  {
    if left != [] {
      var head, rest := MergeRow(left[0], right, rightColumns), LeftMerge(left[1..], right, rightColumns);
      LeftMergeKeepsCells(left[1..], right, rightColumns);
      MergeRowCells(left[0], right, rightColumns);
      assert LeftMerge(left, right, rightColumns) == head + rest;
      assert head[0] in head;
      forall i | 0 < i < |left|
        ensures exists o :: (o in head + rest && o.state == left[i].state && o.datetime == left[i].datetime
          && forall c :: c in left[i].cells ==> Get(o, c) == Get(left[i], c))
      {
        assert left[i] == left[1..][i - 1];
      }
    }
  }

  /** The right row a left row is joined with, when the right frame holds at most one per key. */
  function Partner(right: seq<Row>, s: string, t: int): (p: Option<Row>)
    ensures p.Some? <==> Count(right, s, At(t)) > 0
    ensures p.Some? ==> p.value in right && p.value.state == s && p.value.datetime == t
  {
    var m := KeyMatches(right, s, t);
    if m == [] then None else Some(m[0])
  }

  /** What the merge puts in a right-hand column: the partner's cell, or missing without a partner. */
  function RightCell(right: seq<Row>, l: Row, c: Column): Cell
  {
    match Partner(right, l.state, l.datetime)
    case None => None
    case Some(r) => Get(r, c)
  }

  /** Every left row has at most one partner on the right. */
  predicate AtMostOnePartner(left: seq<Row>, right: seq<Row>)
  {
    forall i :: 0 <= i < |left| ==> Count(right, left[i].state, At(left[i].datetime)) <= 1
  }

  /** A left row with several partners comes out once per partner: the merge keeps the row count exactly when no left row has two. */
  lemma {:induction false} MergeMultiplies(left: seq<Row>, right: seq<Row>, rightColumns: seq<Column>)
    ensures |LeftMerge(left, right, rightColumns)| == |left| <==> AtMostOnePartner(left, right)
  {
    if left != [] {
      var rest := left[1..];
      MergeMultiplies(rest, right, rightColumns);
      assert AtMostOnePartner(left, right) <==>
        Count(right, left[0].state, At(left[0].datetime)) <= 1 && AtMostOnePartner(rest, right)
      by {
        assert forall i :: 0 <= i < |rest| ==> rest[i] == left[i + 1];
        assert forall i :: 0 < i < |left| ==> left[i] == rest[i - 1];
      }
    }
  }

  /** The merged row a left row produces when it has at most one partner. */
  function Merged(l: Row, right: seq<Row>, rightColumns: seq<Column>): Row
  {
    match Partner(right, l.state, l.datetime)
    case None => Unmatched(l, rightColumns)
    case Some(r) => Combine(l, r)
  }

  /** With at most one right row per key, a left row produces exactly its merged row. */
  lemma {:induction false} MergeRowSingle(l: Row, right: seq<Row>, rightColumns: seq<Column>)
    requires UniqueKeys(right)
    ensures MergeRow(l, right, rightColumns) == [Merged(l, right, rightColumns)]
  {
    var m := KeyMatches(right, l.state, l.datetime);
    if m != [] {
      assert m[0] in right;
      var j :| 0 <= j < |right| && right[j] == m[0];
      assert |m| == 1;
    }
  }

  /** With at most one right row per key, row `i` of the merge is left row `i` joined with its partner. */
  lemma {:induction false} LeftMergeAt(left: seq<Row>, right: seq<Row>, rightColumns: seq<Column>)
    requires UniqueKeys(right)
    ensures |LeftMerge(left, right, rightColumns)| == |left|
    ensures forall i :: 0 <= i < |left| ==> LeftMerge(left, right, rightColumns)[i] == Merged(left[i], right, rightColumns)
  {
    if left != [] {
      var rest := LeftMerge(left[1..], right, rightColumns);
      LeftMergeAt(left[1..], right, rightColumns);
      MergeRowSingle(left[0], right, rightColumns);
      var out := [Merged(left[0], right, rightColumns)] + rest;
      assert LeftMerge(left, right, rightColumns) == out;
      forall i | 0 < i < |left| ensures out[i] == Merged(left[i], right, rightColumns) {
        assert out[i] == rest[i - 1] && left[i] == left[1..][i - 1];
      }
    }
  }

  /**
   * With at most one right row per key and disjoint column sets, the merge
   * keeps the left frame's keys and cells row by row, and fills each right
   * column from the partner, or leaves it missing.
   */
  lemma {:induction false} LeftMergeCells(left: seq<Row>, right: seq<Row>, rightColumns: seq<Column>)
    requires UniqueKeys(right) && WellFormed(rightColumns, right)
    requires forall l :: l in left ==> l.cells.Keys !! ColumnSet(rightColumns)
    ensures SameKeys(LeftMerge(left, right, rightColumns), left)
    ensures forall i :: 0 <= i < |left| ==>
      var o := LeftMerge(left, right, rightColumns)[i];
      && o.cells.Keys == left[i].cells.Keys + ColumnSet(rightColumns)
      && (forall c :: c in left[i].cells ==> Get(o, c) == Get(left[i], c))
      && (forall c :: c in rightColumns ==> Get(o, c) == RightCell(right, left[i], c))
  {
    LeftMergeAt(left, right, rightColumns);
    var out := LeftMerge(left, right, rightColumns);
    forall i | 0 <= i < |left|
      ensures out[i].state == left[i].state && out[i].datetime == left[i].datetime
      ensures out[i].cells.Keys == left[i].cells.Keys + ColumnSet(rightColumns)
      ensures forall c :: c in left[i].cells ==> Get(out[i], c) == Get(left[i], c)
      ensures forall c :: c in rightColumns ==> Get(out[i], c) == RightCell(right, left[i], c)
    {
      var l := left[i];
      var p := Partner(right, l.state, l.datetime);
      if p.Some? {
        var j :| 0 <= j < |right| && right[j] == p.value;
        assert p.value.cells.Keys == ColumnSet(rightColumns);
      }
    }
  }

  /** The rows one left row produces carry its columns and all the right frame's columns. */
  lemma {:induction false} MergeRowKeys(l: Row, right: seq<Row>, rightColumns: seq<Column>)
    requires forall k :: 0 <= k < |right| ==> right[k].cells.Keys == ColumnSet(rightColumns)
    ensures forall k :: 0 <= k < |MergeRow(l, right, rightColumns)| ==>
      MergeRow(l, right, rightColumns)[k].cells.Keys == l.cells.Keys + ColumnSet(rightColumns)
  {
    var m := KeyMatches(right, l.state, l.datetime);
    forall k | 0 <= k < |m| ensures m[k].cells.Keys == ColumnSet(rightColumns) {
      var j :| 0 <= j < |right| && right[j] == m[k];
    }
  }

  /** Every merged row carries the left row's columns and all the right frame's columns, partner or not. */
  lemma {:induction false} LeftMergeKeys(left: seq<Row>, right: seq<Row>, rightColumns: seq<Column>, keys: set<Column>)
    requires forall k :: 0 <= k < |left| ==> left[k].cells.Keys == keys
    requires forall k :: 0 <= k < |right| ==> right[k].cells.Keys == ColumnSet(rightColumns)
    ensures forall k :: 0 <= k < |LeftMerge(left, right, rightColumns)| ==>
      LeftMerge(left, right, rightColumns)[k].cells.Keys == keys + ColumnSet(rightColumns)
  {
    if left != [] {
      var head, rest := MergeRow(left[0], right, rightColumns), LeftMerge(left[1..], right, rightColumns);
      MergeRowKeys(left[0], right, rightColumns);
      LeftMergeKeys(left[1..], right, rightColumns, keys);
      assert LeftMerge(left, right, rightColumns) == head + rest;
    }
  }

  /** The merge of two well-formed frames with disjoint columns is well formed, left columns first. */
  lemma {:induction false} LeftMergeShape(leftColumns: seq<Column>, left: seq<Row>, rightColumns: seq<Column>, right: seq<Row>)
    requires WellFormed(leftColumns, left) && WellFormed(rightColumns, right)
    requires ColumnSet(leftColumns) !! ColumnSet(rightColumns)
    ensures WellFormed(leftColumns + rightColumns, LeftMerge(left, right, rightColumns))
  {
    LeftMergeKeys(left, right, rightColumns, ColumnSet(leftColumns));
    assert ColumnSet(leftColumns + rightColumns) == ColumnSet(leftColumns) + ColumnSet(rightColumns);
    var cs := leftColumns + rightColumns;
    forall i, j | 0 <= i < j < |cs| ensures cs[i] != cs[j] {
      if j < |leftColumns| {
      } else if i >= |leftColumns| {
        assert cs[i] == rightColumns[i - |leftColumns|] && cs[j] == rightColumns[j - |leftColumns|];
      } else {
        assert cs[i] in ColumnSet(leftColumns) && cs[j] in ColumnSet(rightColumns);
      }
    }
  }

  /** With at most one right row per key, the merge keeps the left frame's key counts, so unique keys stay unique. */
  lemma {:induction false} LeftMergeCounts(left: seq<Row>, right: seq<Row>, rightColumns: seq<Column>)
    requires UniqueKeys(right)
    ensures forall s, w :: Count(LeftMerge(left, right, rightColumns), s, w) == Count(left, s, w)
    ensures UniqueKeys(left) ==> UniqueKeys(LeftMerge(left, right, rightColumns))
  {
    var out := LeftMerge(left, right, rightColumns);
    LeftMergeAt(left, right, rightColumns);
    assert SameKeys(out, left);
    forall s, w ensures Count(out, s, w) == Count(left, s, w) {
      CountSameKeys(out, left, s, w);
    }
    if UniqueKeys(left) {
      UniqueKeysSameKeys(left, out);
    }
  }
}
