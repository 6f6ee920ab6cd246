/**
 * `FeatureEngineering.run`: drop the temperature frame's LOCATION column,
 * left-merge demand with temperature, impute, derive the calendar columns,
 * add the look-ahead columns, drop incomplete rows, and replace the target
 * collection with what is left. Any step that raises ends the run with
 * nothing written.
 */
module Pipeline {
  import opened Wrappers
  import opened Table
  import opened Counting
  import opened Join
  import opened Imputation
  import opened Horizons
  import opened Derive
  import opened Frames
  import opened Features
  import opened Survival

  /** The target collection of the document store: whether it exists, and its documents. */
  class Collection {
    var present: bool
    var records: seq<Row>

    /** A collection that does not exist holds no documents. */
    ghost predicate Valid()
      reads this
    {
      !present ==> records == []
    }

    constructor (present: bool, records: seq<Row>)
      requires !present ==> records == []
      ensures Valid() && this.present == present && this.records == records
    {
      this.present := present;
      this.records := records;
    }

    /** `drop_collection`: the collection and its documents are gone. */
    method Drop()
      modifies this
      ensures Valid() && !present && records == []
    {
      present := false;
      records := [];
    }

    /**
     * `insert_many`: the documents are appended, the collection created if
     * needed; an empty list raises and changes nothing.
     */
    method InsertMany(docs: seq<Row>) returns (ok: bool)
      requires Valid()
      modifies this
      ensures Valid()
      ensures ok <==> docs != []
      ensures ok ==> present && records == old(records) + docs
      ensures !ok ==> present == old(present) && records == old(records)
    {
      ok := docs != [];
      if ok {
        present := true;
        records := records + docs;
      }
    }
  }

  /**
   * The steps after the imputer: the calendar columns (a lookup error of the
   * holiday or daylight column ends the run), then the look-ahead columns
   * (TOTALDEMAND missing is a `KeyError`), then `dropna`.
   */
  function LookAhead(columns: seq<Column>, imputed: seq<Row>, o: Oracles): Result<seq<Row>, string>
  {
    match DeriveError(o, imputed)
    case Some(e) => Failure(e)
    case None =>
      if TotalDemand !in columns then Failure("KeyError: TOTALDEMAND")
      else Success(Table.DropNa(ShiftedRows(LaggedRows(WithFeatures(imputed, o, DerivedColumns)))))
  }

  /**
   * The table the run computes from demand and from the temperature frame
   * once LOCATION is gone, or the error that ends it.
   */
  function Transform(demandColumns: seq<Column>, demand: seq<Row>, rightColumns: seq<Column>, right: seq<Row>,
                     imputer: Imputer, o: Oracles): Result<seq<Row>, string>
  {
    match Impute(demandColumns + rightColumns, LeftMerge(demand, right, rightColumns), imputer)
    case Failure(e) => Failure(e)
    case Success(imputed) => LookAhead(demandColumns + rightColumns, imputed, o)
  }

  /** The table `run` writes, or the error that ends it; a temperature frame without LOCATION raises first. */
  function FeatureTable(demandColumns: seq<Column>, demand: seq<Row>,
                        temperatureColumns: seq<Column>, temperature: seq<Row>,
                        imputer: Imputer, o: Oracles): Result<seq<Row>, string>
  {
    if Location !in temperatureColumns then Failure("KeyError: LOCATION")
    else Transform(demandColumns, demand, RemoveColumnName(temperatureColumns, Location), DropColumn(temperature, Location), imputer, o)
  }

  /** The calendar columns add no TOTALDEMAND, and with TOTALDEMAND present every lag column is there. */
  lemma {:induction false} LagColumnsPresent(columns: seq<Column>)
    ensures TotalDemand in AddColumnNames(columns, DerivedColumns) <==> TotalDemand in columns
    ensures TotalDemand in columns ==> forall c :: c in LagColumns ==> c in AddColumnNames(columns, DerivedColumns)
  {
    DerivedColumnsPlain();
    AddColumnNamesHas(columns, DerivedColumns, TotalDemand);
    forall c | c in LagColumns && TotalDemand in columns ensures c in AddColumnNames(columns, DerivedColumns) {
      AddColumnNamesHas(columns, DerivedColumns, c);
    }
  }

  /** The merge of the two frames, then the imputer. */
  method MergeImpute(demand: DataFrame, right: DataFrame, imputer: Imputer) returns (result: Result<seq<Row>, string>)
    requires demand.Valid() && right.Valid()
    requires ColumnSet(demand.columns) !! ColumnSet(right.columns)
    ensures result == Impute(demand.columns + right.columns, LeftMerge(demand.rows, right.rows, right.columns), imputer)
    ensures result.Success? ==> WellFormed(demand.columns + right.columns, result.value)
  {
    LeftMergeShape(demand.columns, demand.rows, right.columns, right.rows);
    var merged := new DataFrame(demand.columns + right.columns, LeftMerge(demand.rows, right.rows, right.columns));
    result := Impute(merged.columns, merged.rows, imputer);
  }

  /** The steps after the imputer, on a new frame: calendar columns, look-ahead columns, `dropna`. */
  method FeatureSteps(columns: seq<Column>, imputed: seq<Row>, o: Oracles) returns (result: Result<seq<Row>, string>)
    requires WellFormed(columns, imputed)
    ensures result == LookAhead(columns, imputed, o)
  {
    var df := new DataFrame(columns, imputed);
    var err := AddCalendarFeatures(df, o);
    if err.Some? {
      return Failure(err.value);
    }
    LagColumnsPresent(columns);
    if TotalDemand !in df.columns {
      return Failure("KeyError: TOTALDEMAND");
    }
    var lagged := AddLaggedFeatures(df);
    AddColumnNamesHas(df.columns, TargetNames(LagHorizons(LagColumns)), TotalDemand);
    var shifted := AddShiftedDemandFeatures(lagged);
    shifted.DropNa();
    result := Success(shifted.rows);
  }

  /** The body of `run` between reading the frames and writing the result. Only new frames are changed. */
  method BuildTable(demand: DataFrame, right: DataFrame, imputer: Imputer, o: Oracles)
    returns (result: Result<seq<Row>, string>)
    requires demand.Valid() && right.Valid()
    requires ColumnSet(demand.columns) !! ColumnSet(right.columns)
    ensures result == Transform(demand.columns, demand.rows, right.columns, right.rows, imputer, o)
  {
    var imputed := MergeImpute(demand, right, imputer);
    if imputed.Failure? {
      return Failure(imputed.error);
    }
    result := FeatureSteps(demand.columns + right.columns, imputed.value, o);
  }

  /**
   * `run` on frames already read from the store. The temperature frame loses
   * LOCATION in place; the target is replaced by the table only when every
   * step succeeds, and an empty table leaves no target at all (it is dropped
   * and the insert of no documents raises).
   */
  method Run(demand: DataFrame, temperature: DataFrame, imputer: Imputer, o: Oracles, target: Collection)
    returns (outcome: Result<seq<Row>, string>)
    requires demand.Valid() && temperature.Valid() && demand != temperature
    requires ColumnSet(demand.columns) !! ColumnSet(temperature.columns)
    requires target.Valid()
    modifies temperature, target
    ensures target.Valid()
    ensures outcome == FeatureTable(demand.columns, demand.rows, old(temperature.columns), old(temperature.rows), imputer, o)
    ensures Location in old(temperature.columns) ==>
      temperature.columns == RemoveColumnName(old(temperature.columns), Location) &&
      temperature.rows == DropColumn(old(temperature.rows), Location)
    ensures Location !in old(temperature.columns) ==>
      temperature.columns == old(temperature.columns) && temperature.rows == old(temperature.rows)
    ensures outcome.Failure? ==> target.present == old(target.present) && target.records == old(target.records)
    ensures outcome.Success? && outcome.value != [] ==> target.present && target.records == outcome.value
    ensures outcome.Success? && outcome.value == [] ==> !target.present && target.records == []
  {
    var ok := temperature.Drop(Location);
    if !ok {
      return Failure("KeyError: LOCATION");
    }
    outcome := BuildTable(demand, temperature, imputer, o);
    if outcome.Success? {
      if target.present {
        target.Drop();
      }
      var inserted := target.InsertMany(outcome.value);
    }
  }

  /** The value columns after the merge: demand's, then temperature's other than LOCATION. */
  function JoinedColumns(demandColumns: seq<Column>, temperatureColumns: seq<Column>): seq<Column>
  {
    demandColumns + RemoveColumnName(temperatureColumns, Location)
  }

  /** The merged frame the imputer receives. */
  function JoinedRows(demand: seq<Row>, temperatureColumns: seq<Column>, temperature: seq<Row>): seq<Row>
  {
    LeftMerge(demand, DropColumn(temperature, Location), RemoveColumnName(temperatureColumns, Location))
  }

  /** The frame the feature steps receive: the merged, imputed frame with its calendar columns. */
  function DerivedRows(demandColumns: seq<Column>, demand: seq<Row>,
                       temperatureColumns: seq<Column>, temperature: seq<Row>,
                       imputer: Imputer, o: Oracles): seq<Row>
    requires Impute(JoinedColumns(demandColumns, temperatureColumns), JoinedRows(demand, temperatureColumns, temperature), imputer).Success?
  {
    var imputed := Impute(JoinedColumns(demandColumns, temperatureColumns), JoinedRows(demand, temperatureColumns, temperature), imputer).value;
    WithFeatures(imputed, o, DerivedColumns)
  }

  /** The inputs the survival statement is about: well-formed frames, disjoint columns, no look-ahead column yet. */
  predicate Inputs(demandColumns: seq<Column>, demand: seq<Row>, temperatureColumns: seq<Column>, temperature: seq<Row>)
  {
    && WellFormed(demandColumns, demand) && WellFormed(temperatureColumns, temperature)
    && ColumnSet(demandColumns) !! ColumnSet(temperatureColumns)
    && (forall c :: c in demandColumns ==> !c.H1? && !c.H24? && !c.TM?)
    && (forall c :: c in temperatureColumns ==> !c.H1? && !c.H24? && !c.TM?)
  }

  /**
   * With at most one temperature reading per key, the merged frame is well
   * formed and keeps demand's keys: every count by state and window is
   * demand's, so unique demand keys stay unique.
   */
  lemma {:induction false} JoinedCounts(demandColumns: seq<Column>, demand: seq<Row>,
                                        temperatureColumns: seq<Column>, temperature: seq<Row>)
    requires Inputs(demandColumns, demand, temperatureColumns, temperature) && UniqueKeys(temperature)
    requires Location in temperatureColumns
    ensures WellFormed(JoinedColumns(demandColumns, temperatureColumns), JoinedRows(demand, temperatureColumns, temperature))
    ensures forall s, w :: Count(JoinedRows(demand, temperatureColumns, temperature), s, w) == Count(demand, s, w)
    ensures UniqueKeys(demand) ==> UniqueKeys(JoinedRows(demand, temperatureColumns, temperature))
  {
    var right, rc := DropColumn(temperature, Location), RemoveColumnName(temperatureColumns, Location);
    assert SameKeys(temperature, right);
    UniqueKeysSameKeys(temperature, right);
    assert WellFormed(rc, right);
    LeftMergeShape(demandColumns, demand, rc, right);
    LeftMergeCounts(demand, right, rc);
  }

  /** The derived frame has the merged frame's columns and the calendar columns, and no look-ahead column. */
  lemma {:induction false} DerivedColumnsShape(demandColumns: seq<Column>, temperatureColumns: seq<Column>)
    requires forall c :: c in demandColumns ==> !c.H1? && !c.H24? && !c.TM?
    requires forall c :: c in temperatureColumns ==> !c.H1? && !c.H24? && !c.TM?
    ensures forall c :: c in AddColumnNames(JoinedColumns(demandColumns, temperatureColumns), DerivedColumns) ==> !c.H1? && !c.H24? && !c.TM?
  {
    var columns := JoinedColumns(demandColumns, temperatureColumns);
    DerivedColumnsPlain();
    forall c | c in AddColumnNames(columns, DerivedColumns) ensures !c.H1? && !c.H24? && !c.TM? {
      AddColumnNamesHas(columns, DerivedColumns, c);
      if c !in DerivedColumns && c !in demandColumns {
        var rc := RemoveColumnName(temperatureColumns, Location);
        assert c in rc;
        assert c in ColumnSet(rc);
        assert c in ColumnSet(temperatureColumns);
      }
    }
  }

  /** A successful run imputes the merged frame and writes what the feature steps make of its derived frame. */
  lemma {:induction false} FeatureTableValue(demandColumns: seq<Column>, demand: seq<Row>,
                                             temperatureColumns: seq<Column>, temperature: seq<Row>,
                                             imputer: Imputer, o: Oracles)
    requires FeatureTable(demandColumns, demand, temperatureColumns, temperature, imputer, o).Success?
    ensures Location in temperatureColumns
    ensures Impute(JoinedColumns(demandColumns, temperatureColumns), JoinedRows(demand, temperatureColumns, temperature), imputer).Success?
    ensures DeriveError(o, Impute(JoinedColumns(demandColumns, temperatureColumns), JoinedRows(demand, temperatureColumns, temperature), imputer).value).None?
    ensures TotalDemand in JoinedColumns(demandColumns, temperatureColumns)
    ensures FeatureTable(demandColumns, demand, temperatureColumns, temperature, imputer, o).value
         == Table.DropNa(ShiftedRows(LaggedRows(DerivedRows(demandColumns, demand, temperatureColumns, temperature, imputer, o))))
  {
  }

  /** The derived frame of a successful run keeps demand's counts, so its keys are unique when demand's are. */
  lemma {:induction false} DerivedCounts(demandColumns: seq<Column>, demand: seq<Row>,
                                         temperatureColumns: seq<Column>, temperature: seq<Row>,
                                         imputer: Imputer, o: Oracles)
    requires Inputs(demandColumns, demand, temperatureColumns, temperature)
    requires UniqueKeys(demand) && UniqueKeys(temperature) && Location in temperatureColumns
    requires Impute(JoinedColumns(demandColumns, temperatureColumns), JoinedRows(demand, temperatureColumns, temperature), imputer).Success?
    ensures var derived := DerivedRows(demandColumns, demand, temperatureColumns, temperature, imputer, o);
      UniqueKeys(derived) && forall s, w :: Count(derived, s, w) == Count(demand, s, w)
  {
    var joined := JoinedRows(demand, temperatureColumns, temperature);
    JoinedCounts(demandColumns, demand, temperatureColumns, temperature);
    var imputed := Impute(JoinedColumns(demandColumns, temperatureColumns), joined, imputer).value;
    var derived := WithFeatures(imputed, o, DerivedColumns);
    forall s, w ensures Count(derived, s, w) == Count(demand, s, w) {
      CountSameKeys(derived, imputed, s, w);
      CountSameKeys(imputed, joined, s, w);
    }
    UniqueKeysSameKeys(joined, imputed);
    UniqueKeysSameKeys(imputed, derived);
  }

  /** The derived frame of a successful run is well formed and has no missing cell. */
  lemma {:induction false} DerivedShape(demandColumns: seq<Column>, demand: seq<Row>,
                                        temperatureColumns: seq<Column>, temperature: seq<Row>,
                                        imputer: Imputer, o: Oracles)
    requires Inputs(demandColumns, demand, temperatureColumns, temperature)
    requires UniqueKeys(temperature) && Location in temperatureColumns
    requires Impute(JoinedColumns(demandColumns, temperatureColumns), JoinedRows(demand, temperatureColumns, temperature), imputer).Success?
    requires DeriveError(o, Impute(JoinedColumns(demandColumns, temperatureColumns), JoinedRows(demand, temperatureColumns, temperature), imputer).value).None?
    ensures var derived := DerivedRows(demandColumns, demand, temperatureColumns, temperature, imputer, o);
      && WellFormed(AddColumnNames(JoinedColumns(demandColumns, temperatureColumns), DerivedColumns), derived)
      && forall r :: r in derived ==> Complete(r)
  {
    var columns := JoinedColumns(demandColumns, temperatureColumns);
    var joined := JoinedRows(demand, temperatureColumns, temperature);
    JoinedCounts(demandColumns, demand, temperatureColumns, temperature);
    ImputeShape(columns, joined, imputer);
    WithFeaturesShape(columns, Impute(columns, joined, imputer).value, o);
  }

  /** A successful run hands the feature steps a prepared frame whose counts are demand's. */
  lemma {:induction false} DerivedPrepared(demandColumns: seq<Column>, demand: seq<Row>,
                                           temperatureColumns: seq<Column>, temperature: seq<Row>,
                                           imputer: Imputer, o: Oracles)
    requires Inputs(demandColumns, demand, temperatureColumns, temperature)
    requires UniqueKeys(demand) && UniqueKeys(temperature)
    requires FeatureTable(demandColumns, demand, temperatureColumns, temperature, imputer, o).Success?
    ensures Impute(JoinedColumns(demandColumns, temperatureColumns), JoinedRows(demand, temperatureColumns, temperature), imputer).Success?
    ensures var derived := DerivedRows(demandColumns, demand, temperatureColumns, temperature, imputer, o);
      && Prepared(AddColumnNames(JoinedColumns(demandColumns, temperatureColumns), DerivedColumns), derived)
      && (forall s, w :: Count(derived, s, w) == Count(demand, s, w))
      && FeatureTable(demandColumns, demand, temperatureColumns, temperature, imputer, o).value
         == Table.DropNa(ShiftedRows(LaggedRows(derived)))
  {
    FeatureTableValue(demandColumns, demand, temperatureColumns, temperature, imputer, o);
    DerivedCounts(demandColumns, demand, temperatureColumns, temperature, imputer, o);
    DerivedShape(demandColumns, demand, temperatureColumns, temperature, imputer, o);
    DerivedColumnsShape(demandColumns, temperatureColumns);
    LagColumnsPresent(JoinedColumns(demandColumns, temperatureColumns));
  }

  /**
   * End to end: with at most one reading per key in each input, a reading of
   * demand comes out of `run` exactly when its state has at least 48 later
   * demand readings (the furthest look-ahead, one day of half-hours), and
   * every row that comes out carries the key of exactly one demand reading.
   */
  lemma {:induction false} PipelineSurvival(demandColumns: seq<Column>, demand: seq<Row>,
                                            temperatureColumns: seq<Column>, temperature: seq<Row>,
                                            imputer: Imputer, o: Oracles)
    requires Inputs(demandColumns, demand, temperatureColumns, temperature)
    requires UniqueKeys(demand) && UniqueKeys(temperature)
    requires FeatureTable(demandColumns, demand, temperatureColumns, temperature, imputer, o).Success?
    ensures var out := FeatureTable(demandColumns, demand, temperatureColumns, temperature, imputer, o).value;
      forall r :: r in out ==> Count(demand, r.state, At(r.datetime)) == 1 && Later(demand, r) >= 48
    ensures var out := FeatureTable(demandColumns, demand, temperatureColumns, temperature, imputer, o).value;
      forall i :: 0 <= i < |demand| && Later(demand, demand[i]) >= 48 ==>
        exists r :: r in out && r.state == demand[i].state && r.datetime == demand[i].datetime
    ensures UniqueKeys(FeatureTable(demandColumns, demand, temperatureColumns, temperature, imputer, o).value)
  {
    DerivedPrepared(demandColumns, demand, temperatureColumns, temperature, imputer, o);
    var derived := DerivedRows(demandColumns, demand, temperatureColumns, temperature, imputer, o);
    var dcols := AddColumnNames(JoinedColumns(demandColumns, temperatureColumns), DerivedColumns);
    KeptRowsCounted(dcols, derived, demand);
    KeptReadingsCounted(dcols, derived, demand);
    KeptUnique(derived);
  }

  /** A state with at most 48 demand readings leaves no row at all. */
  lemma {:induction false} PipelineSmallState(demandColumns: seq<Column>, demand: seq<Row>,
                                              temperatureColumns: seq<Column>, temperature: seq<Row>,
                                              imputer: Imputer, o: Oracles, s: string)
    requires Inputs(demandColumns, demand, temperatureColumns, temperature)
    requires UniqueKeys(demand) && UniqueKeys(temperature)
    requires FeatureTable(demandColumns, demand, temperatureColumns, temperature, imputer, o).Success?
    requires Count(demand, s, AnyTime) <= 48
    ensures forall r :: r in FeatureTable(demandColumns, demand, temperatureColumns, temperature, imputer, o).value ==> r.state != s
  {
    DerivedPrepared(demandColumns, demand, temperatureColumns, temperature, imputer, o);
    var derived := DerivedRows(demandColumns, demand, temperatureColumns, temperature, imputer, o);
    SmallStateVanishes(AddColumnNames(JoinedColumns(demandColumns, temperatureColumns), DerivedColumns), derived, s);
  }
}
