/**
 The two engines: DuckDB runs the pushed half as an inner SELECT and the residual half as an outer
 one; Spark flattens both halves into one filter, one projection and the smaller limit. On every
 split the validator accepts both give the rows of the logical plan, so they agree with each other
 although neither knows how the other divides the work.
 */
module Engines {
  import opened Wrappers
  import opened Values
  import opened Expressions
  import opened Plans
  import opened Execution

  /** SELECT columns FROM table WHERE filter LIMIT n; an empty column list reads as `*`. */
  function InnerSelect(pushed: Pushed, table: seq<Row>, params: Params): seq<Row> {
    var rows := TakeBy(pushed.limit, FilterBy(pushed.filter, table, params));
    if pushed.columns.Some? && pushed.columns.value != [] then PruneAll(rows, pushed.columns.value) else rows
  }

  /** Keeping exactly the matching rows is one of the relaxations. */
  lemma {:induction false} ExactIsRelaxed(f: Option<Expr>, table: seq<Row>, params: Params)
    ensures Relaxes(f, table, FilterBy(f, table, params), params)
    decreases |table|
  {
    hide IsTrue;
    if table == [] {
      assert FilterBy(f, table, params) == [];
    } else {
      ExactIsRelaxed(f, table[1..], params);
      FilterByStep(f, table, params);
      var rest := FilterBy(f, table[1..], params);
      if Keeps(f, table[0], params) {
        assert ([table[0]] + rest)[1..] == rest;
      } else {
        assert [] + rest == rest;
      }
    }
  }

  lemma PrunedIsSame(columns: seq<string>, rows: seq<Row>)
    ensures PruneAllowed(Partial, Some(columns), rows, PruneAll(rows, columns))
  {
  }

  lemma NeededColumnsNonEmpty(parts: Parts, pushed: Pushed, residual: Residual, support: Option<Support>, engine: EngineCapabilities)
    requires parts.Valid() && ProjectionAccounted(parts, pushed, residual, support, engine)
    ensures pushed.columns.Some? ==> pushed.columns.value != [] && support in {Some(Full), Some(Partial)}
  {
    if parts.projection.Some? && PushesWhole(parts.projection.value, residual.filter, support) {
      assert |OutputNames(parts.projection.value)| == |parts.projection.value|;
    }
  }

  /** Running the pushed half exactly is a behaviour every capability level allows. */
  lemma ExactScanIsAllowed(
    parts: Parts, pushed: Pushed, residual: Residual, scan: PushdownCapabilities, engine: EngineCapabilities,
    table: seq<Row>, params: Params)
    requires parts.Valid() && Accounted(parts, pushed, residual, scan, engine)
    ensures ScanAllows(scan, pushed, table, InnerSelect(pushed, table, params), params)
  {
    var filtered := FilterBy(pushed.filter, table, params);
    var cut := TakeBy(pushed.limit, filtered);
    NeededColumnsNonEmpty(parts, pushed, residual, Some(scan.projection), engine);
    assert FilterAllowed(scan.filter, pushed.filter, table, filtered, params) by {
      ExactIsRelaxed(pushed.filter, table, params);
      FirstIsMember(ConjunctsOf(pushed.filter));
      if scan.filter.Unsupported? {
        NoClausesKeepAll(pushed.filter, table, params);
      }
    }
    assert LimitAllowed(scan.limit, pushed.limit, filtered, cut);
    if pushed.columns.Some? {
      PrunedIsSame(pushed.columns.value, cut);
    }
    assert PruneAllowed(scan.projection, pushed.columns, cut, InnerSelect(pushed, table, params));
  }

  /** DuckDB: the outer SELECT over the inner one returns the plan's rows. */
  method DuckDbExecute(
    ghost parts: Parts, pushed: Pushed, residual: Residual, ghost scan: PushdownCapabilities,
    ghost engine: EngineCapabilities, table: seq<Row>, params: Params) returns (rows: seq<Row>)
    requires parts.Valid() && Accounted(parts, pushed, residual, scan, engine)
    requires residual.filter.Some? ==> WellFormed(residual.filter.value)
    ensures rows == Answer(parts, table, params)
  {
    var inner := InnerSelect(pushed, table, params);
    rows := RunResidual(residual, inner, params);
    ExactScanIsAllowed(parts, pushed, residual, scan, engine, table, params);
    AccountedSplitIsCorrect(parts, pushed, residual, scan, engine, table, inner, params);
  }

  // ---- Spark ---------------------------------------------------------------------------------------

  function Present(f: Option<Expr>): seq<Expr> {
    if f.Some? then [f.value] else []
  }

  lemma ConjoinedFilter(pushed: Option<Expr>, residual: Option<Expr>, row: Row, params: Params)
    ensures Keeps(AndAll(Present(pushed) + Present(residual)), row, params)
            <==> Keeps(pushed, row, params) && Keeps(residual, row, params)
  {
    var both := Present(pushed) + Present(residual);
    if pushed.Some? && residual.Some? {
      var vs := EvalAll(both, row, params);
      assert both[1..] == [residual.value] && [residual.value][1..] == [];
      assert vs == [Eval(pushed.value, row, params)] + EvalAll([residual.value], row, params);
      assert vs[1..] == [Eval(residual.value, row, params)];
      assert AllOf(vs[1..]) == And3(vs[1], AllOf([]));
    }
  }

  lemma {:induction false} FiltersAgree(f: Option<Expr>, g: Option<Expr>, table: seq<Row>, params: Params)
    requires forall row | row in table :: Keeps(f, row, params) <==> Keeps(g, row, params)
    ensures FilterBy(f, table, params) == FilterBy(g, table, params)
    decreases |table|
  {
    hide IsTrue;
    if table == [] {
      assert FilterBy(f, table, params) == FilterBy(g, table, params) == [];
    } else {
      FilterByStep(f, table, params);
      FilterByStep(g, table, params);
      FiltersAgree(f, g, table[1..], params);
    }
  }

  lemma FlattenedFilter(
    parts: Parts, pushed: Pushed, residual: Residual, scan: PushdownCapabilities, engine: EngineCapabilities,
    table: seq<Row>, params: Params)
    requires parts.Valid() && Accounted(parts, pushed, residual, scan, engine)
    ensures FilterBy(AndAll(Present(pushed.filter) + Present(residual.filter)), table, params)
            == FilterBy(parts.filter, table, params)
  {
    var flat := AndAll(Present(pushed.filter) + Present(residual.filter));
    forall row | row in table
      ensures Keeps(flat, row, params) <==> Keeps(parts.filter, row, params)
    {
      ConjoinedFilter(pushed.filter, residual.filter, row, params);
      CoveredFiltersAgree(parts.filter, pushed.filter, residual.filter, scan.filter.Partial?, row, params);
    }
    FiltersAgree(flat, parts.filter, table, params);
  }

  lemma PureProjectionsArePruning(es: seq<Expr>, rows: seq<Row>, params: Params)
    requires PureColumns(es)
    ensures PruneAll(rows, OutputNames(es)) == ProjectRows(es, rows, params)
  {
    forall i | 0 <= i < |rows|
      ensures Prune(rows[i], OutputNames(es)) == ProjectRow(es, rows[i], params)
    {
      PureProjectionIsPruning(es, rows[i], params);
    }
  }

  /** Spark: the data frame is filtered, projected and limited in place of the two halves. */
  method SparkCompile(
    ghost parts: Parts, pushed: Pushed, residual: Residual, ghost scan: PushdownCapabilities,
    ghost engine: EngineCapabilities, table: seq<Row>, params: Params) returns (df: seq<Row>)
    requires parts.Valid() && Accounted(parts, pushed, residual, scan, engine)
    ensures df == Answer(parts, table, params)
  {
    df := table;
    var condition := AndAll(Present(pushed.filter) + Present(residual.filter));
    FlattenedFilter(parts, pushed, residual, scan, engine, table, params);
    if condition.Some? {
      df := FilterRows(condition.value, df, params);
    }
    assert df == FilterBy(parts.filter, table, params);
    if residual.projection.Some? {
      df := ProjectRows(residual.projection.value, df, params);
    } else if pushed.columns.Some? {
      PureProjectionsArePruning(parts.projection.value, df, params);
      df := PruneAll(df, pushed.columns.value);
    }
    assert df == ProjectBy(parts.projection, FilterBy(parts.filter, table, params), params);
    var limit := MinOpt(pushed.limit, residual.limit);
    if limit.Some? {
      df := Take(limit.value, df);
    }
  }

  /** The two engines agree on every accounted split of every plan, on every table. */
  method EnginesAgree(
    ghost parts: Parts, pushed: Pushed, residual: Residual, ghost scan: PushdownCapabilities,
    ghost engine: EngineCapabilities, table: seq<Row>, params: Params) returns (duckDb: seq<Row>, spark: seq<Row>)
    requires parts.Valid() && Accounted(parts, pushed, residual, scan, engine)
    requires residual.filter.Some? ==> WellFormed(residual.filter.value)
    ensures duckDb == spark == Answer(parts, table, params)
  {
    duckDb := DuckDbExecute(parts, pushed, residual, scan, engine, table, params);
    spark := SparkCompile(parts, pushed, residual, scan, engine, table, params);
  }
}
