/**
 * The eight columns `run` derives from each row's `DATETIME` and `state`
 * before the look-ahead steps: year, month, day of month, day of week,
 * weekday flag, half-hour slot, public holiday and daylight.
 */
module Derive {
  import opened Wrappers
  import opened Table
  import opened Horizons
  import opened Frames
  import Calendar
  import Daylight

  /** A calendar date. */
  datatype CivilDate = CivilDate(year: int, month: int, day: int)

  /**
   * What the derived columns consult besides the row: the sine and pi of the
   * periodic encoding, the calendar date of a day number (the `.dt`
   * accessors), the public-holiday calendar of a state for a day number
   * (raising for a state it does not know), and the clock `is_daylight` reads.
   */
  datatype Oracles = Oracles(
    sin: real -> real,
    pi: real,
    civil: int -> CivilDate,
    holiday: (string, int) -> Result<bool, string>,
    clock: Daylight.Clock)

  /** The derived columns, in the order `run` assigns them. */
  const DerivedColumns: seq<Column> :=
    [Year, Month, DayOfMonth, DayOfWeek, IsWeekday, PeriodOfDay, IsPublicHoliday, IsDaylight]

  /**
   * The value `run` assigns to column `c` for the reading of `state` at `t`.
   * Month, day of week and slot are sine-encoded; `is_weekday` is the
   * corrected test on the raw day of week; the holiday is looked up for the
   * date of `t` itself, daylight for the state's local date. A lookup that
   * raises gives no value here (see `DeriveError`).
   */
  function Feature(o: Oracles, c: Column, state: string, t: int): Cell
  {
    var date := o.civil(Calendar.Day(t));
    match c
    case Year => Some(Num(date.year as real))
    case Month => Some(Num(Calendar.TransformPeriodic(o.sin, o.pi, date.month, 12)))
    case DayOfMonth => Some(Num(date.day as real))
    case DayOfWeek => Some(Num(Calendar.TransformPeriodic(o.sin, o.pi, Calendar.DayOfWeek(t), 7)))
    case IsWeekday => Some(Flag(Calendar.IsWeekday(t)))
    case PeriodOfDay => Some(Num(Calendar.TransformPeriodic(o.sin, o.pi, Calendar.PeriodSlot(t), 48)))
    case IsPublicHoliday =>
      (match o.holiday(state, Calendar.Day(t))
       case Success(b) => Some(Flag(b))
       case Failure(_) => None)
    case IsDaylight =>
      (match Daylight.IsDaylight(o.clock, state, t)
       case Success(b) => Some(Flag(b))
       case Failure(_) => None)
    case _ => None
  }

  /** The column `df[c] = ...` assigns: the feature of each row's key. */
  function FeatureColumn(o: Oracles, c: Column, rows: seq<Row>): (values: seq<Cell>)
    ensures |values| == |rows|
  {
    seq(|rows|, i requires 0 <= i < |rows| => Feature(o, c, rows[i].state, rows[i].datetime))
  }

  /** The cells of the features `cs` for one key. */
  function FeatureCells(o: Oracles, cs: seq<Column>, state: string, t: int): (m: map<Column, Cell>)
    ensures m.Keys == ColumnSet(cs)
  {
    map c | c in ColumnSet(cs) :: Feature(o, c, state, t)
  }

  /** The rows after the features `cs` are assigned: each row gains them, keeps its key and its other cells. */
  function WithFeatures(rows: seq<Row>, o: Oracles, cs: seq<Column>): (out: seq<Row>)
    ensures SameKeys(out, rows)
    ensures forall i :: 0 <= i < |rows| ==>
      && out[i].cells.Keys == rows[i].cells.Keys + ColumnSet(cs)
      && (forall c :: c in cs ==> Get(out[i], c) == Feature(o, c, rows[i].state, rows[i].datetime))
      && (forall c :: c !in cs ==> Get(out[i], c) == Get(rows[i], c))
  {
    seq(|rows|, i requires 0 <= i < |rows| =>
      Row(rows[i].state, rows[i].datetime, rows[i].cells + FeatureCells(o, cs, rows[i].state, rows[i].datetime)))
  }

  /** Some row's state has no holiday calendar. */
  predicate HolidayFails(o: Oracles, rows: seq<Row>)
  {
    exists i :: 0 <= i < |rows| && o.holiday(rows[i].state, Calendar.Day(rows[i].datetime)).Failure?
  }

  /** Some row's state has no time zone. */
  predicate DaylightFails(rows: seq<Row>)
  {
    exists i :: 0 <= i < |rows| && rows[i].state !in Daylight.KnownStates
  }

  /** What the step raises: first the holiday lookup, then the time zone lookup. */
  function DeriveError(o: Oracles, rows: seq<Row>): (e: Option<string>)
    ensures e.None? <==> !HolidayFails(o, rows) && !DaylightFails(rows)
  {
    if HolidayFails(o, rows) then Some("is_public_holiday")
    else if DaylightFails(rows) then Some("KeyError: state")
    else None
  }

  /** Assigning no feature changes nothing. */
  lemma {:induction false} NoFeatures(rows: seq<Row>, o: Oracles)
    ensures WithFeatures(rows, o, []) == rows
  {
    var out := WithFeatures(rows, o, []);
    forall i | 0 <= i < |rows| ensures out[i] == rows[i] {
      assert out[i].cells == rows[i].cells;
    }
  }

  /** One more feature in the list is one more entry in a row's feature cells. */
  lemma {:induction false} FeatureCellsStep(r: Row, o: Oracles, cs: seq<Column>, c: Column)
    ensures (r.cells + FeatureCells(o, cs, r.state, r.datetime))[c := Feature(o, c, r.state, r.datetime)]
         == r.cells + FeatureCells(o, cs + [c], r.state, r.datetime)
  {
    assert ColumnSet(cs + [c]) == ColumnSet(cs) + {c};
  }

  /** One more assignment `df[c] = ...` extends the assigned features by `c`. */
  lemma {:induction false} FeatureStep(rows: seq<Row>, o: Oracles, cs: seq<Column>, c: Column)
    ensures var prev := WithFeatures(rows, o, cs);
      Table.SetColumn(prev, c, FeatureColumn(o, c, prev)) == WithFeatures(rows, o, cs + [c])
  {
    var prev := WithFeatures(rows, o, cs);
    var next, want := Table.SetColumn(prev, c, FeatureColumn(o, c, prev)), WithFeatures(rows, o, cs + [c]);
    forall i | 0 <= i < |rows| ensures next[i] == want[i] {
      FeatureCellsStep(rows[i], o, cs, c);
    }
  }

  /** One more name in the list of assigned columns is one more `AddColumnName`. */
  lemma {:induction false} NamesStep(columns: seq<Column>, names: seq<Column>, c: Column)
    ensures AddColumnNames(columns, names + [c]) == AddColumnName(AddColumnNames(columns, names), c)
  {
    assert (names + [c])[..|names|] == names;
  }

  /** Assigning the derived columns one by one, in order, assigns `DerivedColumns`. */
  lemma {:induction false} DerivedColumnsInOrder()
    ensures [Year] + [Month] + [DayOfMonth] + [DayOfWeek] + [IsWeekday] + [PeriodOfDay]
      + [IsPublicHoliday] + [IsDaylight] == DerivedColumns
  {
    var cs := [Year] + [Month] + [DayOfMonth] + [DayOfWeek] + [IsWeekday] + [PeriodOfDay]
      + [IsPublicHoliday] + [IsDaylight];
    assert |cs| == |DerivedColumns|;
    forall k | 0 <= k < |cs| ensures cs[k] == DerivedColumns[k] {
    }
  }

  /** The derived column names, as a set; TOTALDEMAND is not among them. */
  lemma {:induction false} DerivedColumnSet()
    ensures ColumnSet(DerivedColumns) == {Year, Month, DayOfMonth, DayOfWeek, IsWeekday, PeriodOfDay, IsPublicHoliday, IsDaylight}
    ensures forall c :: c in LagColumns ==> c == TotalDemand || c in ColumnSet(DerivedColumns)
  {
    var cs := DerivedColumns;
    assert cs[0] == Year && cs[1] == Month && cs[2] == DayOfMonth && cs[3] == DayOfWeek;
    assert cs[4] == IsWeekday && cs[5] == PeriodOfDay && cs[6] == IsPublicHoliday && cs[7] == IsDaylight;
  }

  /** The calendar columns are plain columns other than TOTALDEMAND, and they hold every lag column but TOTALDEMAND. */
  lemma {:induction false} DerivedColumnsPlain()
    ensures forall c :: c in DerivedColumns ==> c != TotalDemand && c != Location && !c.H1? && !c.H24? && !c.TM?
    ensures forall c :: c in LagColumns ==> c == TotalDemand || c in DerivedColumns
  {
    DerivedColumnSet();
    forall c | c in DerivedColumns ensures c != TotalDemand && c != Location && !c.H1? && !c.H24? && !c.TM? {
      assert c in ColumnSet(DerivedColumns);
    }
    forall c | c in LagColumns ensures c == TotalDemand || c in DerivedColumns {
      assert c == TotalDemand || c in ColumnSet(DerivedColumns);
    }
  }

  /** With no lookup error, the calendar columns turn a well-formed frame without gaps into another one. */
  lemma {:induction false} WithFeaturesShape(columns: seq<Column>, rows: seq<Row>, o: Oracles)
    requires WellFormed(columns, rows) && (forall r :: r in rows ==> Complete(r)) && DeriveError(o, rows).None?
    ensures WellFormed(AddColumnNames(columns, DerivedColumns), WithFeatures(rows, o, DerivedColumns))
    ensures forall r :: r in WithFeatures(rows, o, DerivedColumns) ==> Complete(r)
  {
    var out := WithFeatures(rows, o, DerivedColumns);
    WithFeaturesComplete(o, rows);
    forall r | r in out ensures Complete(r) {
      var k :| 0 <= k < |out| && out[k] == r;
    }
  }

  /** `df[c] = ...` for one feature, on a frame that already holds the features `cs` over `rows`. */
  method Assign(df: DataFrame, o: Oracles, c: Column, ghost rows: seq<Row>, ghost columns: seq<Column>, ghost cs: seq<Column>)
    requires df.Valid()
    requires df.rows == WithFeatures(rows, o, cs) && df.columns == AddColumnNames(columns, cs)
    modifies df
    ensures df.Valid()
    ensures df.rows == WithFeatures(rows, o, cs + [c]) && df.columns == AddColumnNames(columns, cs + [c])
  {
    FeatureStep(rows, o, cs, c);
    NamesStep(columns, cs, c);
    df.SetColumn(c, FeatureColumn(o, c, df.rows));
  }

  /**
   * The eight assignments of `run`, in place. When a lookup raises, the
   * error comes back and the frame is left to be discarded; otherwise every
   * row gains the eight features and keeps everything else.
   */
  method AddCalendarFeatures(df: DataFrame, o: Oracles) returns (err: Option<string>)
    requires df.Valid()
    modifies df
    ensures df.Valid()
    ensures err == DeriveError(o, old(df.rows))
    ensures err.None? ==> df.rows == WithFeatures(old(df.rows), o, DerivedColumns)
    ensures err.None? ==> df.columns == AddColumnNames(old(df.columns), DerivedColumns)
  {
    var rows := df.rows;
    ghost var columns := df.columns;
    ghost var cs: seq<Column> := [];
    NoFeatures(rows, o);
    assert cs + [Year] == [Year];
    assert AddColumnNames(columns, []) == columns;
    Assign(df, o, Year, rows, columns, cs);
    cs := cs + [Year];
    Assign(df, o, Month, rows, columns, cs);
    cs := cs + [Month];
    Assign(df, o, DayOfMonth, rows, columns, cs);
    cs := cs + [DayOfMonth];
    Assign(df, o, DayOfWeek, rows, columns, cs);
    cs := cs + [DayOfWeek];
    Assign(df, o, IsWeekday, rows, columns, cs);
    cs := cs + [IsWeekday];
    Assign(df, o, PeriodOfDay, rows, columns, cs);
    cs := cs + [PeriodOfDay];
    if HolidayFails(o, rows) {
      return Some("is_public_holiday");
    }
    Assign(df, o, IsPublicHoliday, rows, columns, cs);
    cs := cs + [IsPublicHoliday];
    if DaylightFails(rows) {
      return Some("KeyError: state");
    }
    Assign(df, o, IsDaylight, rows, columns, cs);
    cs := cs + [IsDaylight];
    DerivedColumnsInOrder();
    err := None;
  }

  /**
   * The weekday column holds the corrected flag: it agrees with the
   * always-true flag of the source exactly on Monday .. Friday readings.
   */
  lemma {:induction false} WeekdayColumnAsWritten(o: Oracles, state: string, t: int)
    requires Calendar.BoundedSine(o.sin)
    ensures Feature(o, IsWeekday, state, t) == Some(Flag(Calendar.IsWeekdayAsWritten(o.sin, o.pi, t)))
      <==> Calendar.DayOfWeek(t) < 5
  {
    Calendar.IsWeekdayAlwaysTrue(o.sin, o.pi, t);
  }

  /** Without a lookup error every feature of every key has a value: the step adds no gap. */
  lemma {:induction false} FeaturesPresent(o: Oracles, rows: seq<Row>, i: nat)
    requires DeriveError(o, rows).None? && i < |rows|
    ensures forall c :: c in DerivedColumns ==> Feature(o, c, rows[i].state, rows[i].datetime).Some?
  {
    assert o.holiday(rows[i].state, Calendar.Day(rows[i].datetime)).Success?;
    assert rows[i].state in Daylight.KnownStates;
  }

  /** Complete rows stay complete once the features are added. */
  lemma {:induction false} WithFeaturesComplete(o: Oracles, rows: seq<Row>)
    requires DeriveError(o, rows).None? && forall r :: r in rows ==> Complete(r)
    ensures forall i :: 0 <= i < |rows| ==> Complete(WithFeatures(rows, o, DerivedColumns)[i])
  {
    var out := WithFeatures(rows, o, DerivedColumns);
    forall i | 0 <= i < |rows| ensures Complete(out[i]) {
      FeaturesPresent(o, rows, i);
      assert Complete(rows[i]) by {
        assert rows[i] in rows;
      }
      forall c | c in out[i].cells ensures out[i].cells[c].Some? {
        if c in DerivedColumns {
          assert Get(out[i], c) == Feature(o, c, rows[i].state, rows[i].datetime);
        } else {
          assert Get(out[i], c) == Get(rows[i], c);
        }
      }
    }
  }

  /** With a bounded sine, the encoded month, day of week and slot lie in [-1, 1]. */
  lemma {:induction false} EncodedFeaturesBounded(o: Oracles, state: string, t: int)
    requires Calendar.BoundedSine(o.sin)
    ensures forall c :: c in [Month, DayOfWeek, PeriodOfDay] ==>
      var v := Feature(o, c, state, t); v.Some? && v.value.Num? && -1.0 <= v.value.x <= 1.0
  {
    var date := o.civil(Calendar.Day(t));
    Calendar.TransformPeriodicRange(o.sin, o.pi, date.month, 12);
    Calendar.TransformPeriodicRange(o.sin, o.pi, Calendar.DayOfWeek(t), 7);
    Calendar.TransformPeriodicRange(o.sin, o.pi, Calendar.PeriodSlot(t), 48);
  }

  /** A reading one day later has the same encoded slot, and one week later the same weekday features. */
  lemma {:induction false} FeaturesPeriodic(o: Oracles, state: string, t: int)
    ensures Feature(o, PeriodOfDay, state, t + 1440) == Feature(o, PeriodOfDay, state, t)
    ensures Feature(o, DayOfWeek, state, t + 7 * 1440) == Feature(o, DayOfWeek, state, t)
    ensures Feature(o, IsWeekday, state, t + 7 * 1440) == Feature(o, IsWeekday, state, t)
  {
    Calendar.PeriodSlotDaily(t);
    assert Calendar.Day(t + 7 * 1440) == Calendar.Day(t) + 7 by {
      assert t + 7 * 1440 == (Calendar.Day(t) + 7) * 1440 + t % 1440;
    }
  }
}
