/**
 * The orders `sort_values` uses: by `(state, DATETIME)` with Python's
 * code-point order on the state string, or by `DATETIME` alone.
 */
module Order {
  import opened Table

  /** Python's `<=` on strings: lexicographic by code point, a proper prefix first. */
  predicate StrLe(a: string, b: string)
  {
    a == [] || (b != [] && (a[0] < b[0] || (a[0] == b[0] && StrLe(a[1..], b[1..]))))
  }

  lemma {:induction false} StrLeTotal(a: string, b: string)
    ensures StrLe(a, b) || StrLe(b, a)
  {
    if a != [] && b != [] && a[0] == b[0] {
      StrLeTotal(a[1..], b[1..]);
    }
  }

  lemma {:induction false} StrLeTransitive(a: string, b: string, c: string)
    requires StrLe(a, b) && StrLe(b, c)
    ensures StrLe(a, c)
  {
    if a != [] && a[0] == b[0] && b[0] == c[0] {
      StrLeTransitive(a[1..], b[1..], c[1..]);
    }
  }

  lemma {:induction false} StrLeAntisymmetric(a: string, b: string)
    requires StrLe(a, b) && StrLe(b, a)
    ensures a == b
  {
    if a != [] {
      StrLeAntisymmetric(a[1..], b[1..]);
      assert a == [a[0]] + a[1..] && b == [b[0]] + b[1..];
    }
  }

  /** The `by=` argument of the two `sort_values` calls. */
  datatype SortKey = ByStateDatetime | ByDatetime

  /** Row `a` may come before row `b` under `key`. */
  predicate Le(key: SortKey, a: Row, b: Row)
  {
    match key
    case ByStateDatetime =>
      (a.state != b.state && StrLe(a.state, b.state)) || (a.state == b.state && a.datetime <= b.datetime)
    case ByDatetime => a.datetime <= b.datetime
  }

  lemma {:induction false} LeTotal(key: SortKey, a: Row, b: Row)
    ensures Le(key, a, b) || Le(key, b, a)
  {
    StrLeTotal(a.state, b.state);
  }

  lemma {:induction false} LeTransitive(key: SortKey, a: Row, b: Row, c: Row)
    requires Le(key, a, b) && Le(key, b, c)
    ensures Le(key, a, c)
  {
    if key == ByStateDatetime && a.state != b.state && b.state != c.state {
      StrLeTransitive(a.state, b.state, c.state);
      if a.state == c.state {
        StrLeAntisymmetric(a.state, b.state);
      }
    }
  }

  predicate Sorted(key: SortKey, rows: seq<Row>)
  {
    forall i, j :: 0 <= i < j < |rows| ==> Le(key, rows[i], rows[j])
  }

  /** Places `x` before the first row it may precede. */
  function Insert(key: SortKey, x: Row, rows: seq<Row>): (out: seq<Row>)
    ensures multiset(out) == multiset(rows) + multiset{x}
    ensures |out| == |rows| + 1
    ensures Sorted(key, rows) ==> Sorted(key, out)
  {
    if rows == [] then [x]
    else if Le(key, x, rows[0]) then
      InsertFirst(key, x, rows);
      assert rows == [rows[0]] + rows[1..];
      [x] + rows
    else
      var rest := Insert(key, x, rows[1..]);
      LeTotal(key, x, rows[0]);
      assert rows == [rows[0]] + rows[1..];
      InsertBehind(key, rows[0], x, rows[1..], rest);
      [rows[0]] + rest
  }

  /** Placing `x` in front of a sorted frame whose head it may precede keeps it sorted. */
  lemma {:induction false} InsertFirst(key: SortKey, x: Row, rows: seq<Row>)
    requires rows != [] && Le(key, x, rows[0])
    ensures Sorted(key, rows) ==> Sorted(key, [x] + rows)
  {
    if Sorted(key, rows) {
      forall j | 0 < j < |rows| ensures Le(key, x, rows[j]) {
        LeTransitive(key, x, rows[0], rows[j]);
      }
    }
  }

  /** A head that may precede every row of `tail` and `x` stays in front of their merge. */
  lemma {:induction false} InsertBehind(key: SortKey, head: Row, x: Row, tail: seq<Row>, merged: seq<Row>)
    requires Le(key, head, x)
    requires multiset(merged) == multiset(tail) + multiset{x}
    requires Sorted(key, [head] + tail) && Sorted(key, tail) ==> Sorted(key, merged)
    ensures Sorted(key, [head] + tail) ==> Sorted(key, [head] + merged)
  {
    if Sorted(key, [head] + tail) {
      assert Sorted(key, tail) by {
        forall i, j | 0 <= i < j < |tail| ensures Le(key, tail[i], tail[j]) {
          assert ([head] + tail)[i + 1] == tail[i] && ([head] + tail)[j + 1] == tail[j];
        }
      }
      forall k | 0 <= k < |merged| ensures Le(key, head, merged[k]) {
        assert merged[k] in multiset(merged);
        if merged[k] != x {
          assert merged[k] in multiset(tail);
          var t :| 0 <= t < |tail| && tail[t] == merged[k];
          assert ([head] + tail)[0] == head && ([head] + tail)[t + 1] == tail[t];
          assert Le(key, ([head] + tail)[0], ([head] + tail)[t + 1]);
        }
      }
    }
  }

  /** `sort_values(by=...)`: a sorted permutation of the frame's rows. */
  function SortValues(key: SortKey, rows: seq<Row>): (out: seq<Row>)
    ensures |out| == |rows|
    ensures multiset(out) == multiset(rows)
    ensures Sorted(key, out)
  {
    if rows == [] then []
    else
      assert rows == [rows[0]] + rows[1..];
      Insert(key, rows[0], SortValues(key, rows[1..]))
  }

  /**
   * A state's rows, taken from a frame sorted by either key, are in time order:
   * `groupby('state')` sees each state chronologically.
   */
  lemma {:induction false} FilterChronological(key: SortKey, rows: seq<Row>, s: string)
    requires Sorted(key, rows)
    ensures Sorted(ByDatetime, Filter(rows, s))
  {
    if rows != [] {
      var tail := rows[1..];
      assert Sorted(key, tail);
      FilterChronological(key, tail, s);
      if rows[0].state == s {
        var g := Filter(tail, s);
        FilterMembers(tail, s);
        forall j | 0 <= j < |g| ensures rows[0].datetime <= g[j].datetime {
          assert g[j] in tail;
          var t :| 0 <= t < |tail| && tail[t] == g[j];
          assert rows[t + 1] == g[j];
        }
        assert Filter(rows, s) == [rows[0]] + g;
      }
    }
  }

  /** Every row of the sorted frame is a row of the input. */
  lemma {:induction false} SortValuesMembers(key: SortKey, rows: seq<Row>)
    ensures forall r :: r in SortValues(key, rows) ==> r in rows
  {
    forall r | r in SortValues(key, rows) ensures r in rows {
      assert r in multiset(SortValues(key, rows));
    }
  }
}
