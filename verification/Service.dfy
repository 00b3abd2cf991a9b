/** A whole query over an Iceberg table: bound, planned, scanned and finished by the engine. */
module Service {
  import opened Wrappers
  import opened Values
  import opened Types
  import opened Expressions
  import opened Plans
  import opened Execution
  import opened Planner
  import opened Engines
  import opened Binding
  import opened Streams
  import opened IcebergFilter
  import opened IcebergScan

  /** What the Iceberg handler declares: LIKE and arithmetic stay with the engine. */
  const ICEBERG := PushdownCapabilities(
    Full, Full, Full,
    {ColumnKind, LiteralKind, ParameterKind, ComparisonKind, AndKind, OrKind, NotKind, IsNullKind, InKind}, true)

  datatype QueryError =
    | ParameterMissing | ParameterUnexpected
    | CannotBind(cause: BindError) | NotExecutable | ScanFailed(reason: ScanError)

  /** Every node of the plan's expressions. */
  function PlanNodes(parts: Parts): seq<Expr> {
    (if parts.filter.Some? then Walk(parts.filter.value) else [])
    + if parts.projection.Some? then WalkAll(parts.projection.value) else []
  }

  predicate Unexpected(name: string, parts: Parts) {
    Parameter(name) !in PlanNodes(parts)
  }

  // ---- what is pushed, the scan can evaluate -----------------------------------------------------------

  lemma {:induction false} SupportedIsEvaluable(e: Expr)
    requires ICEBERG.Supports(e)
    ensures Evaluable(e)
    decreases e, 1
  {
    assert forall n | n in Walk(e) :: ICEBERG.SupportsNode(n);
    assert e in Walk(e) && KindOf(e) in ICEBERG.expressions;
    match e
    case And(os) => AllSupportedAreEvaluable(os);
    case Or(os) => AllSupportedAreEvaluable(os);
    case Not(o) => SupportedIsEvaluable(o);
    case IsNull(o, _) => SupportedIsEvaluable(o);
    case In(o, _, _) => SupportedIsEvaluable(o);
    case Comparison(_, l, r) =>
      SupportedIsEvaluable(l);
      SupportedIsEvaluable(r);
    case _ =>
  }

  lemma {:induction false} AllSupportedAreEvaluable(es: seq<Expr>)
    requires forall n | n in WalkAll(es) :: ICEBERG.SupportsNode(n)
    ensures AllEvaluable(es)
    decreases es, 0
  {
    if es != [] {
      SupportedIsEvaluable(es[0]);
      AllSupportedAreEvaluable(es[1..]);
    }
  }

  lemma {:induction false} ClausesAreEvaluable(cs: seq<Expr>)
    requires forall c | c in cs :: ICEBERG.Supports(c)
    ensures AllEvaluable(cs)
  {
    if cs != [] {
      assert cs[0] in cs;
      SupportedIsEvaluable(cs[0]);
      ClausesAreEvaluable(cs[1..]);
    }
  }

  lemma PushedIsEvaluable(parts: Parts, t: PlanningTarget)
    requires parts.Valid() && t.scan == ICEBERG
    ensures var f := PlannedPushed(parts, t).filter; f.Some? ==> Evaluable(f.value) && WellFormed(f.value)
  {
    PlannedFiltersWellFormed(parts, t);
    PushedClausesWithinScan(ConjunctsOf(parts.filter), t);
    ClausesAreEvaluable(PushedClauses(parts.filter, t));
  }

  /** On conforming rows no clause of a bound filter is stuck, so neither is any conjunction of them. */
  lemma PushedNeverStuck(
    f: Option<Expr>, g: Option<Expr>, schema: Schema, params: Params, t: PlanningTarget, table: seq<Row>)
    requires ValidSchema(schema) && KnownScalars(schema) && ValidParams(params)
    requires f.Some? ==> WellFormed(f.value) && Supplied(Walk(f.value), params)
    requires FilterBinds(f, schema, params)
    requires g == if f.None? then None else AndAll(Conjuncts(Bind(f.value, schema, params, false).value))
    requires forall row | row in table :: RowConforms(row, schema)
    ensures var pushed := AndAll(PushedClauses(g, t)); pushed.Some? ==> NeverStuck(pushed.value, table, params)
  {
    var cs := PushedClauses(g, t);
    if f.Some? && cs != [] {
      forall row | row in table
        ensures !Eval(AndAll(cs).value, row, params).Fault?
      {
        BoundFilterIsSound(f.value, schema, params, row);
        ConjunctTruths(g.value, row, params);
        assert forall c | c in cs :: Eval(c, row, params).Truth();
        assert cs[0] in cs;
        if |cs| > 1 {
          EvalAllTruths(cs, row, params);
          AllOfTruths(EvalAll(cs, row, params));
        }
      }
    }
  }

  // ---- what is pushed, the table has ---------------------------------------------------------------------

  predicate ColumnsKnown(nodes: seq<Expr>, names: seq<string>) {
    forall n | n in nodes && n.Column? :: n.name in names
  }

  lemma {:induction false} AllColumnsKnown(es: seq<Expr>, names: seq<string>)
    requires forall e | e in es :: ColumnsKnown(Walk(e), names)
    ensures ColumnsKnown(WalkAll(es), names)
  {
    if es != [] {
      assert es[0] in es;
      AllColumnsKnown(es[1..], names);
    }
  }

  lemma ConjoinedColumnsKnown(cs: seq<Expr>, names: seq<string>)
    requires forall c | c in cs :: ColumnsKnown(Walk(c), names)
    ensures AndAll(cs).Some? ==> ColumnsKnown(Walk(AndAll(cs).value), names)
  {
    AllColumnsKnown(cs, names);
    if |cs| == 1 {
      assert cs[0] in cs;
    }
  }

  lemma BoundClausesKnown(parts: Parts, schema: Schema, params: Params, b: BoundPlan)
    requires parts.Valid() && IsBound(parts, schema, params, b)
    ensures forall c | c in ConjunctsOf(b.parts.filter) :: ColumnsKnown(Walk(c), Names(schema))
  {
    if parts.filter.Some? {
      var bound := Bind(parts.filter.value, schema, params, false).value;
      BoundColumnsKnown(parts.filter.value, schema, params, false);
      ConjunctsAreNotAnds(bound);
      ConjunctsOfAndAll(Conjuncts(bound));
      forall c | c in Conjuncts(bound)
        ensures ColumnsKnown(Walk(c), Names(schema))
      {
        ConjunctWalks(bound, c);
      }
    }
  }

  lemma BoundOutputsKnown(parts: Parts, schema: Schema, params: Params, b: BoundPlan)
    requires parts.Valid() && IsBound(parts, schema, params, b)
    ensures b.parts.projection.Some? ==> forall e | e in b.parts.projection.value :: ColumnsKnown(Walk(e), Names(schema))
  {
    if parts.projection.Some? {
      var es, bs := parts.projection.value, b.parts.projection.value;
      forall i | 0 <= i < |bs|
        ensures ColumnsKnown(Walk(bs[i]), Names(schema))
      {
        assert es[i] in es;
        BoundColumnsKnown(es[i], schema, params, true);
      }
    }
  }

  /** A bound plan asks the scan for columns of its schema only. */
  lemma PushedIsKnown(parts: Parts, schema: Schema, params: Params, b: BoundPlan, t: PlanningTarget)
    requires parts.Valid() && IsBound(parts, schema, params, b) && b.parts.Valid()
    ensures var pushed := PlannedPushed(b.parts, t); !AsksUnknown(Names(schema), pushed.columns, pushed.filter)
  {
    hide Walk, IsBound, ReferencedColumns, AsksUnknown, ReadColumns, ColumnsKnown;
    var pushed, names := PlannedPushed(b.parts, t), Names(schema);
    BoundClausesKnown(parts, schema, params, b);
    BoundOutputsKnown(parts, schema, params, b);
    ConjoinedColumnsKnown(PushedClauses(b.parts.filter, t), names);
    ConjoinedColumnsKnown(ResidualClauses(b.parts.filter, t), names);
    if pushed.filter.Some? {
      ReferencedKnown([pushed.filter.value], names);
    }
    if b.parts.projection.Some? {
      ReferencedKnown(Evaluated(b.parts.projection.value, AndAll(ResidualClauses(b.parts.filter, t))), names);
    }
    KnownIsAsked(names, pushed.columns, pushed.filter);
  }

  lemma KnownIsAsked(schema: seq<string>, projection: Option<seq<string>>, filter: Option<Expr>)
    requires projection.Some? ==> forall c | c in projection.value :: c in schema
    requires forall c | c in FilterColumns(filter) :: c in schema
    ensures !AsksUnknown(schema, projection, filter)
  {
    assert forall c | c in Take(1, schema) :: c in schema;
  }

  lemma ReferencedKnown(es: seq<Expr>, names: seq<string>)
    requires forall e | e in es :: ColumnsKnown(Walk(e), names)
    ensures forall c | c in ReferencedColumns(es) :: c in names
  {
    AllColumnsKnown(es, names);
    forall c | c in ReferencedColumns(es)
      ensures c in names
    {
      ColumnNamesHas(WalkAll(es), c);
      assert Column(c) in WalkAll(es);
    }
  }

  // ---- what the scan returns, the planner relies on ---------------------------------------------------------

  /** The rows have exactly the columns of the schema, with values of their types. */
  predicate TableConforms(table: seq<Row>, schema: Schema)
    requires ValidSchema(schema)
  {
    RowsWithin(table, Names(schema)) && forall row | row in table :: RowConforms(row, schema)
  }

  lemma WholeRowsStay(rows: seq<Row>, schema: Schema)
    requires ValidSchema(schema) && TableConforms(rows, schema)
    ensures PruneAll(rows, Names(schema)) == rows
  {
    forall i | 0 <= i < |rows|
      ensures Prune(rows[i], Names(schema)) == rows[i]
    {
      var row := rows[i];
      assert row in rows;
      forall c
        ensures c in Names(schema) <==> c in row
      {
        if c in Names(schema) {
          var j :| 0 <= j < |schema| && Names(schema)[j] == c;
          assert schema[j] in schema;
        }
      }
    }
  }

  lemma AnsweredRowsConform(pushed: Pushed, schema: Schema, table: seq<Row>, params: Params)
    requires ValidSchema(schema) && TableConforms(table, schema)
    ensures TableConforms(TakeBy(pushed.limit, FilterBy(pushed.filter, table, params)), schema)
  {
    var kept := FilterBy(pushed.filter, table, params);
    if pushed.filter.Some? {
      FilteredComeFrom(pushed.filter.value, table, params);
    }
    assert forall row | row in TakeBy(pushed.limit, kept) :: row in kept;
  }

  /** The columns of the scan's output leave exactly what an exact scan owes. */
  lemma ScannedIsInnerSelect(
    parts: Parts, t: PlanningTarget, schema: Schema, table: seq<Row>, params: Params)
    requires parts.Valid() && Accepted(parts, t) && ValidSchema(schema) && TableConforms(table, schema)
    ensures var pushed := PlannedPushed(parts, t);
            PruneAll(TakeBy(pushed.limit, FilterBy(pushed.filter, table, params)),
                     OutputColumns(Names(schema), pushed.columns, pushed.filter))
            == InnerSelect(pushed, table, params)
  {
    var pushed, residual := PlannedPushed(parts, t), PlannedResidual(parts, t);
    PlannedSplitAccounted(parts, t);
    NeededColumnsNonEmpty(parts, pushed, residual, Some(t.scan.projection), t.engine);
    if pushed.columns.None? {
      AnsweredRowsConform(pushed, schema, table, params);
      WholeRowsStay(TakeBy(pushed.limit, FilterBy(pushed.filter, table, params)), schema);
    }
  }

  /** Whatever the planner pushed, the exact scan of it and the engine's residual half give the plan's rows. */
  lemma FinishedIsAnswer(parts: Parts, t: PlanningTarget, table: seq<Row>, params: Params)
    requires parts.Valid() && Accepted(parts, t)
    ensures var es := PlannedResidual(parts, t).projection; es.Some? ==> forall e | e in es.value :: e.Column? || e.Alias?
    ensures RunResidual(PlannedResidual(parts, t), InnerSelect(PlannedPushed(parts, t), table, params), params)
            == Answer(parts, table, params)
  {
    var pushed, residual := PlannedPushed(parts, t), PlannedResidual(parts, t);
    PlannedSplitAccounted(parts, t);
    PlannedFiltersWellFormed(parts, t);
    ExactScanIsAllowed(parts, pushed, residual, t.scan, t.engine, table, params);
    AccountedSplitIsCorrect(
      parts, pushed, residual, t.scan, t.engine, table, InnerSelect(pushed, table, params), params);
  }

  // ---- the query ---------------------------------------------------------------------------------------------

  /** A reader delivers the rows it is asked for, in any batches. */
  type Reader = (RowFilter, bool, Option<nat>, seq<string>) -> seq<seq<Row>>

  ghost predicate Reads(reader: Reader, table: seq<Row>) {
    forall f, exact, limit, columns ::
      Flatten(reader(f, exact, limit, columns)) == PruneAll(RowsRead(f, exact, limit, table), columns)
  }

  /** The plan the binder rebuilt. */
  function BoundChain(plan: PlanNode, b: BoundPlan): PlanNode {
    FirstIsScan(plan);
    Chain(Nodes(plan)[0].source, b.parts)
  }

  lemma BoundChainIsValid(plan: PlanNode, b: BoundPlan)
    requires ValidPlan(plan) && b.parts.Valid()
    ensures Nodes(plan)[0].Scan?
    ensures ValidPlan(BoundChain(plan, b)) && PartsOf(Nodes(BoundChain(plan, b))) == b.parts
  {
    FirstIsScan(plan);
    assert ValidNode(Nodes(plan)[0]);
    ChainParts(Nodes(plan)[0].source, b.parts);
  }

  function Target(engine: EngineCapabilities): PlanningTarget {
    PlanningTarget(engine, ICEBERG, true)
  }

  lemma PartsSupplied(parts: Parts, params: Params)
    requires Supplied(PlanNodes(parts), params)
    ensures parts.filter.Some? ==> Supplied(Walk(parts.filter.value), params)
    ensures parts.projection.Some? ==> Supplied(WalkAll(parts.projection.value), params)
  {
  }

  /** Running the planned halves of a bound plan; the scan fails only on a test it cannot bind. */
  method Run(
    parts: Parts, b: BoundPlan, ep: ExecutionPlan, schema: Schema, params: Params, engine: EngineCapabilities,
    table: seq<Row>, reader: Reader, batchSize: nat, icebergTable: Table) returns (r: Result<seq<Row>, ScanError>)
    requires parts.Valid() && ValidSchema(schema) && KnownScalars(schema)
    requires ValidParams(params) && Supplied(PlanNodes(parts), params) && batchSize > 0
    requires IsBound(parts, schema, params, b) && b.parts.Valid() && Accepted(b.parts, Target(engine))
    requires ep.pushed == PlannedPushed(b.parts, Target(engine)) && ep.residual == PlannedResidual(b.parts, Target(engine))
    requires TableConforms(table, schema) && Reads(reader, table)
    ensures r.Success? ==> r.value == Answer(b.parts, table, params)
    ensures r.Failure? <==>
              ep.pushed.filter.Some? && RefusesTest(ep.pushed.filter.value, params, icebergTable)
  {
    hide Eval, Conforms, WellFormed, Evaluable, NeverStuck, FilterBy, PruneAll, TakeBy, Flatten, RowsRead, Translate,
         RefusesTest, AsksUnknown, OutputColumns, ReaderColumns, ValidPlan, KnownScalars, RowConforms, RowsWithin,
         Answer, InnerSelect, Accepted, PlannedColumns, PlannedPushedLimit, PlannedProjection, PlannedResidualLimit,
         PushedClauses, ResidualClauses, Supplied, PlanNodes, FilterBinds, OutputsBound, Bind, Sized;
    ghost var t := Target(engine);
    var pushed := ep.pushed;
    var (f, exact) := RowFilterOf(pushed.filter, params, icebergTable);
    var columns := ReaderColumns(Names(schema), pushed.columns, pushed.filter);
    PartsSupplied(parts, params);
    PushedIsEvaluable(b.parts, t);
    PushedNeverStuck(parts.filter, b.parts.filter, schema, params, t, table);
    PushedIsKnown(parts, schema, params, b, t);
    var stream := reader(f, exact, pushed.limit, columns);
    var batches :- IcebergScan.Scan(
      table, Names(schema), stream, pushed.columns, pushed.filter, pushed.limit, batchSize, params, icebergTable);
    ScannedIsInnerSelect(b.parts, t, schema, table, params);
    FinishedIsAnswer(b.parts, t, table, params);
    r := Success(RunResidual(ep.residual, Flatten(batches), params));
  }

  /** What the bound plan denotes, stage by stage. */
  ghost function Meaning(plan: PlanNode, b: BoundPlan, table: seq<Row>, params: Params): (rows: seq<Row>)
    requires ValidPlan(plan) && b.parts.Valid()
    ensures rows == Answer(b.parts, table, params)
  {
    BoundChainIsValid(plan, b);
    DenoteByParts(BoundChain(plan, b), table, params);
    Denote(BoundChain(plan, b), table, params)
  }

  /** The rows are those the bound plan denotes, and conform to its output schema. */
  ghost predicate Answers(
    plan: PlanNode, schema: Schema, params: Params, table: seq<Row>, b: BoundPlan, rows: seq<Row>)
    requires ValidPlan(plan) && PartsOf(Nodes(plan)).Valid()
  {
    && IsBound(PartsOf(Nodes(plan)), schema, params, b) && b.parts.Valid()
    && rows == Meaning(plan, b, table, params)
    && ValidSchema(b.outputSchema) && forall row | row in rows :: RowConforms(row, b.outputSchema)
  }

  /** Why a query fails: each error exactly in the case it names. */
  ghost predicate Explains(
    e: QueryError, plan: PlanNode, schema: Schema, params: Params, engine: EngineCapabilities, icebergTable: Table)
    requires ValidPlan(plan) && PartsOf(Nodes(plan)).Valid()
  {
    var parts := PartsOf(Nodes(plan));
    match e
    case ParameterMissing => !Supplied(PlanNodes(parts), params)
    case ParameterUnexpected => exists n :: n in params && Unexpected(n, parts)
    case CannotBind(_) => forall b :: !IsBound(parts, schema, params, b)
    case NotExecutable => exists b ::
      IsBound(parts, schema, params, b) && b.parts.Valid() && !Accepted(b.parts, Target(engine))
    case ScanFailed(_) => exists b ::
      && IsBound(parts, schema, params, b) && b.parts.Valid()
      && var filter := PlannedPushed(b.parts, Target(engine)).filter;
         filter.Some? && RefusesTest(filter.value, params, icebergTable)
  }

  /**
   The whole query. Bound, planned, scanned in any batching and finished by the engine, it returns the
   rows the bound plan denotes, all within its output schema; it fails exactly when one of five things is wrong.
   */
  method Execute(
    plan: PlanNode, schema: Schema, params: Params, engine: EngineCapabilities, table: seq<Row>, reader: Reader,
    batchSize: nat, icebergTable: Table) returns (r: Result<(BoundPlan, seq<Row>), QueryError>)
    requires ValidPlan(plan) && ValidSchema(schema) && KnownScalars(schema) && ValidParams(params) && batchSize > 0
    requires TableConforms(table, schema) && Reads(reader, table)
    ensures PartsOf(Nodes(plan)).Valid()
    ensures r.Success? ==> Answers(plan, schema, params, table, r.value.0, r.value.1)
    ensures r.Failure? ==> Explains(r.error, plan, schema, params, engine, icebergTable)
    ensures r.Success? ==> forall e :: !Explains(e, plan, schema, params, engine, icebergTable)
  {
    hide ValidPlan, KnownScalars, TableConforms, Reads, Supplied, PlanNodes, IsBound, Accepted, PlannedPushed,
         PlannedResidual, RefusesTest, Complete, RowConforms, ValidSchema, Answer, FilterBy, BoundChain;
    var parts := PartsOf(Nodes(plan));
    ValidPlanHasValidParts(plan);
    if !Supplied(PlanNodes(parts), params) {
      return Failure(ParameterMissing);
    }
    if n :| n in params && Unexpected(n, parts) {
      return Failure(ParameterUnexpected);
    }
    var bound := BindPlan(parts, schema, params);
    if bound.Failure? {
      return Failure(CannotBind(bound.error));
    }
    var b := bound.value;
    BoundChainIsValid(plan, b);
    var ep := PlanQuery(BoundChain(plan, b), Target(engine));
    if !ep.explain.executable {
      return Failure(NotExecutable);
    }
    var rows := Run(parts, b, ep, schema, params, engine, table, reader, batchSize, icebergTable);
    if rows.Failure? {
      return Failure(ScanFailed(rows.error));
    }
    AnswerConforms(parts, schema, params, b, table);
    BoundIsUnique(parts, schema, params, b);
    r := Success((b, rows.value));
  }

  lemma BoundIsUnique(parts: Parts, schema: Schema, params: Params, b: BoundPlan)
    requires parts.Valid() && IsBound(parts, schema, params, b)
    ensures forall other | IsBound(parts, schema, params, other) :: other == b
  {
    if parts.projection.Some? {
      OutputsAreUnique(parts.projection.value, b.parts.projection.value, b.outputSchema, schema, params);
    }
  }

  lemma AnswerConforms(parts: Parts, schema: Schema, params: Params, b: BoundPlan, table: seq<Row>)
    requires parts.Valid() && ValidSchema(schema) && KnownScalars(schema) && ValidParams(params)
    requires IsBound(parts, schema, params, b) && TableConforms(table, schema) && Supplied(PlanNodes(parts), params)
    ensures b.parts.Valid() && ValidSchema(b.outputSchema)
    ensures forall row | row in Answer(b.parts, table, params) :: RowConforms(row, b.outputSchema)
  {
    PartsSupplied(parts, params);
    BoundAnswerConforms(parts, schema, params, b, table);
  }
}
