/**
 * Counting rows of one state by time window. Counts depend only on the rows'
 * keys and not on their order, which lets properties of a sorted frame be
 * stated without naming the sort.
 */
module Counting {
  import opened Table

  /** Which instants of a state are counted: all, exactly `t`, or strictly after `t`. */
  datatype Window = AnyTime | At(t: int) | After(t: int)

  predicate InWindow(r: Row, s: string, w: Window)
  {
    r.state == s &&
    match w
    case AnyTime => true
    case At(t) => r.datetime == t
    case After(t) => r.datetime > t
  }

  /** The number of rows of state `s` whose DATETIME lies in `w`. */
  function Count(rows: seq<Row>, s: string, w: Window): (n: nat)
    ensures n <= |rows|
  {
    if rows == [] then 0
    else (if InWindow(rows[0], s, w) then 1 else 0) + Count(rows[1..], s, w)
  }

  /** Every `(state, DATETIME)` key occurs in exactly one row. */
  predicate UniqueKeys(rows: seq<Row>)
  {
    forall i :: 0 <= i < |rows| ==> Count(rows, rows[i].state, At(rows[i].datetime)) == 1
  }

  /** The number of later readings of the same state: how far a row is from its state's end. */
  function Later(rows: seq<Row>, r: Row): nat
  {
    Count(rows, r.state, After(r.datetime))
  }

  lemma {:induction false} CountAppend(a: seq<Row>, b: seq<Row>, s: string, w: Window)
    ensures Count(a + b, s, w) == Count(a, s, w) + Count(b, s, w)
  {
    if a == [] {
      assert a + b == b;
    } else {
      assert (a + b)[0] == a[0];
      assert (a + b)[1..] == a[1..] + b;
      CountAppend(a[1..], b, s, w);
    }
  }

  /** Removing the element at `j` removes one copy of it from the multiset. */
  lemma {:induction false} MultisetRemove(b: seq<Row>, j: nat)
    requires j < |b|
    ensures multiset(b[..j] + b[j + 1..]) == multiset(b) - multiset{b[j]}
  {
    assert b == b[..j] + [b[j]] + b[j + 1..];
  }

  /** Removing the element at `j` lowers the count by its own contribution. */
  lemma {:induction false} CountRemove(b: seq<Row>, j: nat, s: string, w: Window)
    requires j < |b|
    ensures Count(b, s, w) == Count(b[..j] + b[j + 1..], s, w) + (if InWindow(b[j], s, w) then 1 else 0)
  {
    assert b == b[..j] + [b[j]] + b[j + 1..];
    CountAppend(b[..j] + [b[j]], b[j + 1..], s, w);
    CountAppend(b[..j], [b[j]], s, w);
    CountAppend(b[..j], b[j + 1..], s, w);
    assert [b[j]][1..] == [];
  }

  /** Taking the first row of `a` out of a permutation `b` of `a` leaves a permutation of the tail of `a`. */
  lemma {:induction false} PermutationTail(a: seq<Row>, b: seq<Row>, j: nat)
    requires multiset(a) == multiset(b) && a != [] && j < |b| && b[j] == a[0]
    ensures multiset(a[1..]) == multiset(b[..j] + b[j + 1..])
  {
    MultisetRemove(b, j);
    assert a == [a[0]] + a[1..];
  }

  /** Counts see only the multiset of rows: reordering a frame changes none of them. */
  lemma {:induction false} CountPermutation(a: seq<Row>, b: seq<Row>, s: string, w: Window)
    requires multiset(a) == multiset(b)
    ensures Count(a, s, w) == Count(b, s, w)
    decreases |a|
  {
    if a == [] {
      assert |b| == |multiset(b)| == 0;
    } else {
      var x := a[0];
      assert x in b by {
        assert x in multiset(a);
      }
      var j :| 0 <= j < |b| && b[j] == x;
      var rest := b[..j] + b[j + 1..];
      PermutationTail(a, b, j);
      CountPermutation(a[1..], rest, s, w);
      CountRemove(b, j, s, w);
    }
  }

  /** Counts see only the keys: frames with the same keys position by position count alike. */
  lemma {:induction false} CountSameKeys(a: seq<Row>, b: seq<Row>, s: string, w: Window)
    requires SameKeys(a, b)
    ensures Count(a, s, w) == Count(b, s, w)
  {
    if a != [] {
      CountSameKeys(a[1..], b[1..], s, w);
    }
  }

  /** Counting within one state's rows gives the state's count in the whole frame. */
  lemma {:induction false} CountFilter(rows: seq<Row>, s: string, w: Window)
    ensures Count(Filter(rows, s), s, w) == Count(rows, s, w)
  {
    if rows != [] {
      CountFilter(rows[1..], s, w);
      var head := if rows[0].state == s then [rows[0]] else [];
      CountAppend(head, Filter(rows[1..], s), s, w);
      assert head != [] ==> head[1..] == [];
    }
  }

  /** A count is at most the number of rows of the state. */
  lemma {:induction false} CountAtMostAll(rows: seq<Row>, s: string, w: Window)
    ensures Count(rows, s, w) <= Count(rows, s, AnyTime)
  {
    if rows != [] {
      CountAtMostAll(rows[1..], s, w);
    }
  }

  /** A row never counts among its own later readings, so `Later` is below its state's size. */
  lemma {:induction false} LaterBelowSize(rows: seq<Row>, i: nat)
    requires i < |rows|
    ensures Later(rows, rows[i]) < Count(rows, rows[i].state, AnyTime)
  {
    var r := rows[i];
    if i == 0 {
      CountAtMostAll(rows[1..], r.state, After(r.datetime));
    } else {
      LaterBelowSize(rows[1..], i - 1);
    }
  }

  /** No row in the window: the count is zero. */
  lemma {:induction false} CountZero(rows: seq<Row>, s: string, w: Window)
    requires forall k :: 0 <= k < |rows| ==> !InWindow(rows[k], s, w)
    ensures Count(rows, s, w) == 0
  {
    if rows != [] {
      CountZero(rows[1..], s, w);
    }
  }

  /** A window counts something exactly when some row lies in it. */
  lemma {:induction false} CountPositive(rows: seq<Row>, s: string, w: Window)
    ensures Count(rows, s, w) > 0 <==> exists k :: 0 <= k < |rows| && InWindow(rows[k], s, w)
  {
    if rows != [] {
      CountPositive(rows[1..], s, w);
      if exists k :: 0 <= k < |rows[1..]| && InWindow(rows[1..][k], s, w) {
        var k :| 0 <= k < |rows[1..]| && InWindow(rows[1..][k], s, w);
        assert InWindow(rows[k + 1], s, w);
      }
      if exists k :: 0 <= k < |rows| && InWindow(rows[k], s, w) {
        var k :| 0 <= k < |rows| && InWindow(rows[k], s, w);
        if k > 0 {
          assert InWindow(rows[1..][k - 1], s, w);
        }
      }
    }
  }

  /** A row of the frame counts at its own key. */
  lemma {:induction false} CountMember(rows: seq<Row>, r: Row)
    requires r in rows
    ensures Count(rows, r.state, At(r.datetime)) > 0
  {
    CountPositive(rows, r.state, At(r.datetime));
    var k :| 0 <= k < |rows| && rows[k] == r;
    assert InWindow(rows[k], r.state, At(r.datetime));
  }

  /** In a frame with unique keys, a key that occurs occurs once. */
  lemma {:induction false} CountUnique(rows: seq<Row>, s: string, t: int)
    requires UniqueKeys(rows) && Count(rows, s, At(t)) > 0
    ensures Count(rows, s, At(t)) == 1
  {
    CountPositive(rows, s, At(t));
    var k :| 0 <= k < |rows| && InWindow(rows[k], s, At(t));
    assert rows[k].state == s && rows[k].datetime == t;
  }

  /** Rows of state `s` no earlier than `t` are each either at `t` or after it. */
  lemma {:induction false} CountAtOrAfter(rows: seq<Row>, s: string, t: int)
    requires forall k :: 0 <= k < |rows| ==> rows[k].state == s && rows[k].datetime >= t
    ensures Count(rows, s, After(t)) + Count(rows, s, At(t)) == |rows|
  {
    if rows != [] {
      CountAtOrAfter(rows[1..], s, t);
    }
  }

  /** Reordering keeps every key unique. */
  lemma {:induction false} UniqueKeysPermutation(a: seq<Row>, b: seq<Row>)
    requires multiset(a) == multiset(b) && UniqueKeys(a)
    ensures UniqueKeys(b)
  {
    forall i | 0 <= i < |b| ensures Count(b, b[i].state, At(b[i].datetime)) == 1 {
      var x := b[i];
      assert x in a by {
        assert x in multiset(b);
      }
      var j :| 0 <= j < |a| && a[j] == x;
      CountPermutation(a, b, x.state, At(x.datetime));
    }
  }

  /** `dropna` only removes rows, so no count grows. */
  lemma {:induction false} CountDropNa(rows: seq<Row>, s: string, w: Window)
    ensures Count(DropNa(rows), s, w) <= Count(rows, s, w)
  {
    if rows != [] {
      var head := if Complete(rows[0]) then [rows[0]] else [];
      CountDropNa(rows[1..], s, w);
      CountAppend(head, DropNa(rows[1..]), s, w);
      assert head == [] || head[1..] == [];
    }
  }

  /** Rows with unique keys still have unique keys after `dropna`. */
  lemma {:induction false} UniqueKeysDropNa(rows: seq<Row>)
    requires UniqueKeys(rows)
    ensures UniqueKeys(DropNa(rows))
  {
    var out := DropNa(rows);
    forall i | 0 <= i < |out| ensures Count(out, out[i].state, At(out[i].datetime)) == 1 {
      var r := out[i];
      assert r in out;
      var j :| 0 <= j < |rows| && rows[j] == r;
      CountMember(out, r);
      CountDropNa(rows, r.state, At(r.datetime));
    }
  }

  /** Frames with the same keys have unique keys together. */
  lemma {:induction false} UniqueKeysSameKeys(a: seq<Row>, b: seq<Row>)
    requires SameKeys(a, b) && UniqueKeys(a)
    ensures UniqueKeys(b)
  {
    forall i | 0 <= i < |b| ensures Count(b, b[i].state, At(b[i].datetime)) == 1 {
      CountSameKeys(a, b, a[i].state, At(a[i].datetime));
    }
  }
}
