/**
 A split of a plan into work pushed to the scan target and work left for the engine; what a scan
 may do with the pushed half under declared capabilities; and the validator of such a split.
 */
module Execution {
  import opened Wrappers
  import opened Values
  import opened Expressions
  import opened Plans

  datatype Support = Full | Partial | Unsupported

  datatype PushdownCapabilities = PushdownCapabilities(
    projection: Support, filter: Support, limit: Support, expressions: set<Kind>, parameters: bool)
  {
    predicate SupportsNode(n: Expr) {
      KindOf(n) in expressions && (n.Parameter? ==> parameters)
    }

    predicate Supports(e: Expr) {
      forall n | n in Walk(e) :: SupportsNode(n)
    }
  }

  datatype EngineCapabilities = EngineCapabilities(
    residualExpressions: set<Kind>, residualProjection: bool, residualLimit: bool)
  {
    predicate Evaluates(e: Expr) {
      forall n | n in Walk(e) :: KindOf(n) in residualExpressions
    }

    /** A top-level conjunction is split, so only its conjuncts need support. */
    predicate Supports(e: Expr) {
      forall c | c in Conjuncts(e) :: Evaluates(c)
    }
  }

  datatype Pushed = Pushed(columns: Option<seq<string>>, filter: Option<Expr>, limit: Option<nat>)

  datatype Residual = Residual(projection: Option<seq<Expr>>, filter: Option<Expr>, limit: Option<nat>)

  datatype Disposition = PushedDown | PartiallyPushed | LeftResidual | Rejected

  datatype Reason =
    | PushdownFull | PushdownPartial
    | ResidualNoCapability | ResidualUnsupportedExpression | ResidualComputedProjection
    | ResidualLimitAfterResidualFilter
    | RejectedSourceUnreachable | RejectedEngineUnsupportedExpression | RejectedEngineUnsupportedOperation

  datatype ExplainNode = ExplainNode(operation: nat, disposition: Disposition, reason: Reason)

  datatype Explain = Explain(
    nodes: seq<ExplainNode>, executable: bool, stagingRequired: bool,
    scan: Option<PushdownCapabilities>, engine: Option<EngineCapabilities>)
  {
    /** A missing engine record grants nothing. */
    function EngineOrNone(): EngineCapabilities {
      if engine.Some? then engine.value else EngineCapabilities({}, false, false)
    }
  }

  datatype ExecutionPlan = ExecutionPlan(plan: PlanNode, pushed: Pushed, residual: Residual, explain: Explain)

  predicate AnyRejected(nodes: seq<ExplainNode>) {
    exists n :: n in nodes && n.disposition.Rejected?
  }

  // ---- projection placement ------------------------------------------------------------------

  function OutputNames(es: seq<Expr>): (names: seq<string>)
    requires forall e | e in es :: e.Column? || e.Alias?
    ensures |names| == |es|
    ensures forall i | 0 <= i < |es| :: names[i] == OutputName(es[i])
  {
    seq(|es|, i requires 0 <= i < |es| => OutputName(es[i]))
  }

  /** The projected expressions and the residual predicate: everything the engine evaluates. */
  function Evaluated(es: seq<Expr>, filter: Option<Expr>): seq<Expr> {
    es + if filter.Some? then [filter.value] else []
  }

  function Needed(es: seq<Expr>, filter: Option<Expr>): seq<string> {
    ReferencedColumns(Evaluated(es, filter))
  }

  predicate PureColumns(es: seq<Expr>) {
    forall e | e in es :: e.Column?
  }

  /** The scan alone can produce the projection. */
  predicate PushesWhole(es: seq<Expr>, filter: Option<Expr>, projection: Option<Support>)
    requires forall e | e in es :: e.Column? || e.Alias?
  {
    projection == Some(Full) && PureColumns(es) && Needed(es, filter) == OutputNames(es)
  }

  function ExpectedColumns(es: seq<Expr>, filter: Option<Expr>, projection: Option<Support>): Option<seq<string>>
    requires forall e | e in es :: e.Column? || e.Alias?
  {
    if PushesWhole(es, filter, projection) then Some(OutputNames(es))
    else if projection in {Some(Full), Some(Partial)} && Needed(es, filter) != [] then Some(Needed(es, filter))
    else None
  }

  function ExpectedProjection(es: seq<Expr>, filter: Option<Expr>, projection: Option<Support>): Option<seq<Expr>>
    requires forall e | e in es :: e.Column? || e.Alias?
  {
    if PushesWhole(es, filter, projection) then None else Some(es)
  }

  // ---- the validator -----------------------------------------------------------------------------

  datatype Problem =
    | NothingRejected | RejectedNodeInExecutablePlan | UnknownPredicateSupport
    | PushedExceedsScan(clause: Expr) | ResidualExceedsEngine(clause: Expr)
    | PartialCoverageDiffers | ConjunctsDiffer
    | ProjectionPlacementDiffers | ProjectionWithoutLogicalProjection
    | ResidualProjectionUnsupported | ResidualProjectionExceedsEngine
    | LimitPlacementDiffers | LimitWithoutLogicalLimit | ResidualLimitUnsupported

  predicate LimitPlaced(parts: Parts, pushed: Pushed, residual: Residual, support: Option<Support>)
    requires parts.limit.Some?
  {
    if residual.filter.Some? then pushed.limit.None? && residual.limit == parts.limit
    else if support == Some(Full) then pushed.limit == parts.limit && residual.limit.None?
    else if support == Some(Partial) then pushed.limit == parts.limit && residual.limit == parts.limit
    else support == Some(Unsupported) && pushed.limit.None? && residual.limit == parts.limit
  }

  predicate FiltersCover(logical: seq<Expr>, pushed: seq<Expr>, residual: seq<Expr>, partial: bool) {
    if partial then multiset(residual) == multiset(logical) && multiset(pushed) <= multiset(logical)
    else multiset(pushed) !! multiset(residual) && multiset(pushed) + multiset(residual) == multiset(logical)
  }

  predicate FiltersAccounted(
    logical: seq<Expr>, pushed: seq<Expr>, residual: seq<Expr>, scan: Option<PushdownCapabilities>, engine: EngineCapabilities)
  {
    && scan.Some?
    && (forall c | c in pushed :: !scan.value.filter.Unsupported? && scan.value.Supports(c))
    && FiltersCover(logical, pushed, residual, scan.value.filter.Partial?)
    && (forall c | c in residual :: engine.Evaluates(c))
  }

  predicate ProjectionAccounted(
    parts: Parts, pushed: Pushed, residual: Residual, support: Option<Support>, engine: EngineCapabilities)
    requires parts.Valid()
  {
    && (if parts.projection.Some? then
          && pushed.columns == ExpectedColumns(parts.projection.value, residual.filter, support)
          && residual.projection == ExpectedProjection(parts.projection.value, residual.filter, support)
        else pushed.columns.None? && residual.projection.None?)
    && (residual.projection.Some? ==>
          engine.residualProjection && forall e | e in residual.projection.value :: engine.Evaluates(e))
  }

  predicate LimitAccounted(
    parts: Parts, pushed: Pushed, residual: Residual, support: Option<Support>, engine: EngineCapabilities)
  {
    && (if parts.limit.Some? then LimitPlaced(parts, pushed, residual, support)
        else pushed.limit.None? && residual.limit.None?)
    && (residual.limit.Some? ==> engine.residualLimit)
  }

  /** Every logical operation is accounted for, within the declared capabilities. */
  predicate Accounted(
    parts: Parts, pushed: Pushed, residual: Residual, scan: PushdownCapabilities, engine: EngineCapabilities)
    requires parts.Valid()
  {
    && FiltersAccounted(
         ConjunctsOf(parts.filter), ConjunctsOf(pushed.filter), ConjunctsOf(residual.filter), Some(scan), engine)
    && ProjectionAccounted(parts, pushed, residual, Some(scan.projection), engine)
    && LimitAccounted(parts, pushed, residual, Some(scan.limit), engine)
  }

  /** What the validator certifies by reporting no problem. */
  predicate Complete(ep: ExecutionPlan)
    requires ValidPlan(ep.plan)
  {
    ValidPlanHasValidParts(ep.plan);
    if !ep.explain.executable then AnyRejected(ep.explain.nodes)
    else
      && !AnyRejected(ep.explain.nodes)
      && ep.explain.scan.Some?
      && Accounted(PartsOf(Nodes(ep.plan)), ep.pushed, ep.residual, ep.explain.scan.value,
                   ep.explain.EngineOrNone())
  }

  /** Collects the clauses that use an unsupported node. */
  method UnsupportedClauses(clauses: seq<Expr>, supported: Expr -> bool) returns (bad: seq<Expr>)
    ensures forall c :: c in bad <==> c in clauses && !supported(c)
  {
    bad := [];
    for i := 0 to |clauses|
      invariant forall c :: c in bad <==> c in clauses[..i] && !supported(c)
    {
      if !supported(clauses[i]) {
        bad := bad + [clauses[i]];
      }
      assert clauses[..i + 1] == clauses[..i] + [clauses[i]];
    }
    assert clauses[..|clauses|] == clauses;
  }

  /** The pushdown completeness check: no problem is reported exactly for a complete split. */
  method CheckCompleteness(ep: ExecutionPlan) returns (problems: seq<Problem>)
    requires ValidPlan(ep.plan)
    ensures problems == [] <==> Complete(ep)
  {
    ValidPlanHasValidParts(ep.plan);
    problems := [];
    if !ep.explain.executable {
      if !AnyRejected(ep.explain.nodes) {
        problems := problems + [NothingRejected];
      }
      return;
    }
    if AnyRejected(ep.explain.nodes) {
      problems := problems + [RejectedNodeInExecutablePlan];
    }
    var parts := PartsOf(Nodes(ep.plan));
    var engine := ep.explain.EngineOrNone();
    problems := CheckFilters(
      ConjunctsOf(parts.filter), ConjunctsOf(ep.pushed.filter), ConjunctsOf(ep.residual.filter),
      ep.explain.scan, engine, problems);
    problems := CheckProjection(parts, ep.pushed, ep.residual, ep.explain.scan, engine, problems);
    problems := CheckLimit(parts, ep.pushed, ep.residual, ep.explain.scan, engine, problems);
  }

  method CheckFilters(
    logical: seq<Expr>, pushed: seq<Expr>, residual: seq<Expr>, scan: Option<PushdownCapabilities>,
    engine: EngineCapabilities, before: seq<Problem>) returns (problems: seq<Problem>)
    ensures problems == [] <==> before == [] && FiltersAccounted(logical, pushed, residual, scan, engine)
  {
    problems := before;
    if scan.None? {
      problems := problems + [UnknownPredicateSupport];
    }
    var exceeding := UnsupportedClauses(
      pushed, c => scan.Some? && !scan.value.filter.Unsupported? && scan.value.Supports(c));
    if exceeding != [] {
      assert exceeding[0] in exceeding;
      problems := problems + [PushedExceedsScan(exceeding[0])];
    }
    if scan.Some? && scan.value.filter.Partial? {
      if !FiltersCover(logical, pushed, residual, true) {
        problems := problems + [PartialCoverageDiffers];
      }
    } else if !FiltersCover(logical, pushed, residual, false) {
      problems := problems + [ConjunctsDiffer];
    }
    exceeding := UnsupportedClauses(residual, c => engine.Evaluates(c));
    if exceeding != [] {
      assert exceeding[0] in exceeding;
      problems := problems + [ResidualExceedsEngine(exceeding[0])];
    }
  }

  method CheckProjection(
    parts: Parts, pushed: Pushed, residual: Residual, scan: Option<PushdownCapabilities>, engine: EngineCapabilities,
    before: seq<Problem>) returns (problems: seq<Problem>)
    requires parts.Valid()
    ensures problems == [] <==>
              before == []
              && ProjectionAccounted(parts, pushed, residual, if scan.Some? then Some(scan.value.projection) else None, engine)
  {
    problems := before;
    if parts.projection.Some? {
      var support := if scan.Some? then Some(scan.value.projection) else None;
      var expectedColumns := ExpectedColumns(parts.projection.value, residual.filter, support);
      var expectedProjection := ExpectedProjection(parts.projection.value, residual.filter, support);
      if pushed.columns != expectedColumns || residual.projection != expectedProjection {
        problems := problems + [ProjectionPlacementDiffers];
      }
    } else if residual.projection.Some? || pushed.columns.Some? {
      problems := problems + [ProjectionWithoutLogicalProjection];
    }
    if residual.projection.Some? {
      if !engine.residualProjection {
        problems := problems + [ResidualProjectionUnsupported];
      }
      var exceeding := UnsupportedClauses(residual.projection.value, e => engine.Evaluates(e));
      if exceeding != [] {
        assert exceeding[0] in residual.projection.value;
        problems := problems + [ResidualProjectionExceedsEngine];
      }
    }
  }

  method CheckLimit(
    parts: Parts, pushed: Pushed, residual: Residual, scan: Option<PushdownCapabilities>, engine: EngineCapabilities,
    before: seq<Problem>) returns (problems: seq<Problem>)
    ensures problems == [] <==>
              before == []
              && LimitAccounted(parts, pushed, residual, if scan.Some? then Some(scan.value.limit) else None, engine)
  {
    problems := before;
    if parts.limit.Some? {
      if !LimitPlaced(parts, pushed, residual, if scan.Some? then Some(scan.value.limit) else None) {
        problems := problems + [LimitPlacementDiffers];
      }
    } else if pushed.limit.Some? || residual.limit.Some? {
      problems := problems + [LimitWithoutLogicalLimit];
    }
    if residual.limit.Some? && !engine.residualLimit {
      problems := problems + [ResidualLimitUnsupported];
    }
  }

  // ---- what a scan may return ------------------------------------------------------------------------

  predicate Keeps(f: Option<Expr>, row: Row, params: Params) {
    f.None? || IsTrue(f.value, row, params)
  }

  /** `out` selects rows of `table` in table order and drops none that the filter keeps. */
  predicate Relaxes(f: Option<Expr>, table: seq<Row>, out: seq<Row>, params: Params)
    decreases |table|
  {
    if table == [] then out == []
    else
      || (out != [] && out[0] == table[0] && Relaxes(f, table[1..], out[1..], params))
      || (!Keeps(f, table[0], params) && Relaxes(f, table[1..], out, params))
  }

  predicate FilterAllowed(support: Support, f: Option<Expr>, table: seq<Row>, out: seq<Row>, params: Params) {
    match support
    case Full => out == FilterBy(f, table, params)
    case Partial => Relaxes(f, table, out, params)
    case Unsupported => out == table
  }

  /** A partial limit is a hint: any prefix at least as long as the limit allows. */
  predicate LimitAllowed(support: Support, n: Option<nat>, rows: seq<Row>, out: seq<Row>) {
    if n.None? then out == rows
    else match support
      case Full => out == Take(n.value, rows)
      case Partial => out <= rows && Min(n.value, |rows|) <= |out|
      case Unsupported => out == rows
  }

  function Prune(row: Row, columns: seq<string>): Row {
    map c | c in columns :: Lookup(row, c)
  }

  function PruneAll(rows: seq<Row>, columns: seq<string>): (out: seq<Row>)
    ensures |out| == |rows|
    ensures forall i | 0 <= i < |rows| :: out[i] == Prune(rows[i], columns)
  {
    if rows == [] then [] else [Prune(rows[0], columns)] + PruneAll(rows[1..], columns)
  }

  ghost predicate SameIn(columns: seq<string>, r: Row, s: Row) {
    forall c | c in columns :: Lookup(r, c) == Lookup(s, c)
  }

  /** Partial pruning keeps the requested columns and says nothing about others. */
  ghost predicate PruneAllowed(support: Support, columns: Option<seq<string>>, rows: seq<Row>, out: seq<Row>) {
    if columns.None? then out == rows
    else match support
      case Full => out == PruneAll(rows, columns.value)
      case Partial => |out| == |rows| && forall i | 0 <= i < |rows| :: SameIn(columns.value, out[i], rows[i])
      case Unsupported => out == rows
  }

  /** Every behaviour the declared capabilities allow for the pushed operations. */
  ghost predicate ScanAllows(scan: PushdownCapabilities, pushed: Pushed, table: seq<Row>, out: seq<Row>, params: Params) {
    exists filtered, cut ::
      && FilterAllowed(scan.filter, pushed.filter, table, filtered, params)
      && LimitAllowed(scan.limit, pushed.limit, filtered, cut)
      && PruneAllowed(scan.projection, pushed.columns, cut, out)
  }

  function RunResidual(residual: Residual, rows: seq<Row>, params: Params): seq<Row>
    requires residual.projection.Some? ==> forall e | e in residual.projection.value :: e.Column? || e.Alias?
  {
    TakeBy(residual.limit, ProjectBy(residual.projection, FilterBy(residual.filter, rows, params), params))
  }

  // ---- filters compose ----------------------------------------------------------------------------------

  lemma KeepsIffConjuncts(f: Option<Expr>, row: Row, params: Params)
    ensures Keeps(f, row, params) <==> forall c | c in ConjunctsOf(f) :: IsTrue(c, row, params)
  {
    if f.Some? {
      TrueIffConjunctsTrue(f.value, row, params);
    }
  }

  /** Clauses compared only as multisets still decide which rows are kept. */
  lemma CoveredFiltersAgree(
    logical: Option<Expr>, pushed: Option<Expr>, residual: Option<Expr>, partial: bool, row: Row, params: Params)
    requires FiltersCover(ConjunctsOf(logical), ConjunctsOf(pushed), ConjunctsOf(residual), partial)
    ensures Keeps(logical, row, params) <==> Keeps(pushed, row, params) && Keeps(residual, row, params)
    ensures partial ==> (Keeps(logical, row, params) <==> Keeps(residual, row, params))
  {
    KeepsIffConjuncts(logical, row, params);
    KeepsIffConjuncts(pushed, row, params);
    KeepsIffConjuncts(residual, row, params);
    var l, p, r := ConjunctsOf(logical), ConjunctsOf(pushed), ConjunctsOf(residual);
    assert forall c :: c in l <==> c in multiset(l);
    assert forall c :: c in p <==> c in multiset(p);
    assert forall c :: c in r <==> c in multiset(r);
    if !partial {
      assert forall c :: c in multiset(l) <==> c in multiset(p) || c in multiset(r);
    }
  }

  lemma FilterByStep(f: Option<Expr>, rows: seq<Row>, params: Params)
    requires rows != []
    ensures FilterBy(f, rows, params)
            == (if Keeps(f, rows[0], params) then [rows[0]] else []) + FilterBy(f, rows[1..], params)
  {
    hide IsTrue;
    if f.None? {
      assert rows == [rows[0]] + rows[1..];
    }
  }

  lemma {:induction false} FiltersCompose(
    logical: Option<Expr>, pushed: Option<Expr>, residual: Option<Expr>, table: seq<Row>, params: Params)
    requires FiltersCover(ConjunctsOf(logical), ConjunctsOf(pushed), ConjunctsOf(residual), false)
    ensures FilterBy(residual, FilterBy(pushed, table, params), params) == FilterBy(logical, table, params)
    decreases |table|
  {
    hide IsTrue;
    if table == [] {
      assert FilterBy(pushed, table, params) == [];
    } else {
      FiltersCompose(logical, pushed, residual, table[1..], params);
      CoveredFiltersAgree(logical, pushed, residual, false, table[0], params);
      FilterByStep(logical, table, params);
      FilterByStep(pushed, table, params);
      var rest := FilterBy(pushed, table[1..], params);
      if Keeps(pushed, table[0], params) {
        FilterByStep(residual, [table[0]] + rest, params);
        assert ([table[0]] + rest)[1..] == rest;
      } else {
        assert [] + rest == rest;
      }
    }
  }

  /** Rechecking the whole predicate over any safe relaxation restores it. */
  lemma {:induction false} RecheckRestores(
    logical: Option<Expr>, pushed: Option<Expr>, residual: Option<Expr>, table: seq<Row>, out: seq<Row>, params: Params)
    requires FiltersCover(ConjunctsOf(logical), ConjunctsOf(pushed), ConjunctsOf(residual), true)
    requires Relaxes(pushed, table, out, params)
    ensures FilterBy(residual, out, params) == FilterBy(logical, table, params)
    decreases |table|
  {
    hide IsTrue;
    if table == [] {
      assert FilterBy(residual, out, params) == [];
    } else {
      CoveredFiltersAgree(logical, pushed, residual, true, table[0], params);
      FilterByStep(logical, table, params);
      if out != [] && out[0] == table[0] && Relaxes(pushed, table[1..], out[1..], params) {
        RecheckRestores(logical, pushed, residual, table[1..], out[1..], params);
        FilterByStep(residual, out, params);
      } else {
        RecheckRestores(logical, pushed, residual, table[1..], out, params);
        assert [] + FilterBy(logical, table[1..], params) == FilterBy(logical, table[1..], params);
      }
    }
  }

  lemma FirstIsMember(es: seq<Expr>)
    ensures es != [] ==> exists c :: c in es
  {
    if es != [] {
      assert es[0] in es;
    }
  }

  lemma ScannedThenFiltered(
    parts: Parts, pushed: Pushed, residual: Residual, scan: PushdownCapabilities, engine: EngineCapabilities,
    table: seq<Row>, filtered: seq<Row>, params: Params)
    requires parts.Valid() && Accounted(parts, pushed, residual, scan, engine)
    requires FilterAllowed(scan.filter, pushed.filter, table, filtered, params)
    ensures FilterBy(residual.filter, filtered, params) == FilterBy(parts.filter, table, params)
  {
    match scan.filter
    case Full => FiltersCompose(parts.filter, pushed.filter, residual.filter, table, params);
    case Partial => RecheckRestores(parts.filter, pushed.filter, residual.filter, table, filtered, params);
    case Unsupported =>
      FirstIsMember(ConjunctsOf(pushed.filter));
      assert FilterBy(pushed.filter, table, params) == table by {
        NoClausesKeepAll(pushed.filter, table, params);
      }
      FiltersCompose(parts.filter, pushed.filter, residual.filter, table, params);
  }

  lemma {:induction false} NoClausesKeepAll(f: Option<Expr>, table: seq<Row>, params: Params)
    requires ConjunctsOf(f) == []
    ensures FilterBy(f, table, params) == table
    decreases |table|
  {
    hide IsTrue;
    if table != [] {
      KeepsIffConjuncts(f, table[0], params);
      FilterByStep(f, table, params);
      NoClausesKeepAll(f, table[1..], params);
    }
  }

  // ---- pruning is invisible ---------------------------------------------------------------------------------

  ghost predicate AgreeRows(nodes: seq<Expr>, xs: seq<Row>, ys: seq<Row>) {
    |xs| == |ys| && forall i | 0 <= i < |xs| :: AgreeOn(nodes, xs[i], ys[i])
  }

  lemma {:induction false} FilterAgrees(f: Expr, nodes: seq<Expr>, xs: seq<Row>, ys: seq<Row>, params: Params)
    requires AgreeRows(nodes, xs, ys) && forall n | n in Walk(f) :: n in nodes
    ensures AgreeRows(nodes, FilterRows(f, xs, params), FilterRows(f, ys, params))
  {
    if xs != [] {
      EvalFootprint(f, xs[0], ys[0], params);
      FilterAgrees(f, nodes, xs[1..], ys[1..], params);
    }
  }

  lemma {:induction false} ProjectRowAgrees(es: seq<Expr>, r: Row, s: Row, params: Params)
    requires AgreeOn(WalkAll(es), r, s) && forall e | e in es :: e.Column? || e.Alias?
    ensures ProjectRow(es, r, params) == ProjectRow(es, s, params)
  {
    if es != [] {
      EvalFootprint(es[0], r, s, params);
      ProjectRowAgrees(es[1..], r, s, params);
    }
  }

  /** Filtering and projecting rows that agree on the evaluated columns gives equal rows. */
  lemma EvaluationAgrees(es: seq<Expr>, f: Option<Expr>, xs: seq<Row>, ys: seq<Row>, params: Params)
    requires forall e | e in es :: e.Column? || e.Alias?
    requires AgreeRows(WalkAll(Evaluated(es, f)), xs, ys)
    ensures ProjectRows(es, FilterBy(f, xs, params), params) == ProjectRows(es, FilterBy(f, ys, params), params)
  {
    var nodes := WalkAll(Evaluated(es, f));
    if f.Some? {
      assert f.value in Evaluated(es, f);
      WalkAllContains(Evaluated(es, f), f.value);
      FilterAgrees(f.value, nodes, xs, ys, params);
    }
    var xs', ys' := FilterBy(f, xs, params), FilterBy(f, ys, params);
    WalkAllConcat(es, if f.Some? then [f.value] else []);
    forall i | 0 <= i < |xs'|
      ensures ProjectRow(es, xs'[i], params) == ProjectRow(es, ys'[i], params)
    {
      assert AgreeOn(nodes, xs'[i], ys'[i]);
      ProjectRowAgrees(es, xs'[i], ys'[i], params);
    }
  }

  lemma PrunedRowsAgree(es: seq<Expr>, f: Option<Expr>, support: Support, columns: Option<seq<string>>, rows: seq<Row>, out: seq<Row>)
    requires columns.Some? ==> forall c | c in Needed(es, f) :: c in columns.value
    requires PruneAllowed(support, columns, rows, out)
    ensures AgreeRows(WalkAll(Evaluated(es, f)), out, rows)
  {
    var nodes := WalkAll(Evaluated(es, f));
    forall i | 0 <= i < |rows|
      ensures AgreeOn(nodes, out[i], rows[i])
    {
      forall n | n in nodes && n.Column?
        ensures Lookup(out[i], n.name) == Lookup(rows[i], n.name)
      {
        assert n == Column(n.name);
        ColumnNamesHas(nodes, n.name);
        assert n.name in Needed(es, f);
      }
    }
  }

  lemma PruneStep(row: Row, names: seq<string>)
    requires names != []
    ensures Prune(row, names) == Prune(row, names[1..])[names[0] := Lookup(row, names[0])]
  {
    assert forall c :: c in names <==> c == names[0] || c in names[1..];
  }

  lemma OutputNamesStep(es: seq<Expr>)
    requires es != [] && forall e | e in es :: e.Column? || e.Alias?
    ensures OutputNames(es)[0] == OutputName(es[0]) && OutputNames(es)[1..] == OutputNames(es[1..])
  {
  }

  lemma {:induction false} PureProjectionIsPruning(es: seq<Expr>, row: Row, params: Params)
    requires PureColumns(es)
    ensures ProjectRow(es, row, params) == Prune(row, OutputNames(es))
  {
    if es != [] {
      assert es[0] in es;
      OutputNamesStep(es);
      PruneStep(row, OutputNames(es));
      PureProjectionIsPruning(es[1..], row, params);
    }
  }

  /** No row loses a column the expression reads: it is kept, or was not there. */
  predicate PruningSpares(f: Expr, columns: seq<string>, rows: seq<Row>) {
    forall row, n | row in rows && n in Walk(f) && n.Column? :: n.name in columns || n.name !in row
  }

  lemma PruningSparesStep(f: Expr, columns: seq<string>, rows: seq<Row>, params: Params)
    requires rows != [] && PruningSpares(f, columns, rows)
    ensures PruningSpares(f, columns, rows[1..])
    ensures Eval(f, Prune(rows[0], columns), params) == Eval(f, rows[0], params)
  {
    hide Eval, Walk;
    assert rows[0] in rows && forall row | row in rows[1..] :: row in rows;
    EvalFootprint(f, Prune(rows[0], columns), rows[0], params);
  }

  lemma {:induction false} FilterOfPruned(f: Expr, columns: seq<string>, rows: seq<Row>, params: Params)
    requires PruningSpares(f, columns, rows)
    ensures FilterRows(f, PruneAll(rows, columns), params) == PruneAll(FilterRows(f, rows, params), columns)
    decreases |rows|
  {
    if rows != [] {
      var row, kept := rows[0], FilterRows(f, rows[1..], params);
      PruningSparesStep(f, columns, rows, params);
      FilterOfPruned(f, columns, rows[1..], params);
      assert ([row] + kept)[1..] == kept;
      assert PruneAll(rows, columns)[1..] == PruneAll(rows[1..], columns);
    }
  }

  /** Filtering the pruned rows is the whole projection, when the filter reads only kept columns. */
  lemma WholeProjectionPushed(es: seq<Expr>, f: Option<Expr>, rows: seq<Row>, params: Params)
    requires PureColumns(es) && Needed(es, f) == OutputNames(es)
    ensures FilterBy(f, PruneAll(rows, OutputNames(es)), params) == ProjectRows(es, FilterBy(f, rows, params), params)
  {
    var names := OutputNames(es);
    if f.Some? {
      var nodes := WalkAll(Evaluated(es, f));
      assert f.value in Evaluated(es, f);
      WalkAllContains(Evaluated(es, f), f.value);
      forall n | n in Walk(f.value) && n.Column?
        ensures n.name in names
      {
        assert n == Column(n.name);
        ColumnNamesHas(nodes, n.name);
      }
      FilterOfPruned(f.value, names, rows, params);
    }
    var kept := FilterBy(f, rows, params);
    forall i | 0 <= i < |kept|
      ensures ProjectRow(es, kept[i], params) == Prune(kept[i], names)
    {
      PureProjectionIsPruning(es, kept[i], params);
    }
  }

  // ---- the main result ---------------------------------------------------------------------------------------

  /** Without a limit in play, the engine's filter and projection finish what the scan began. */
  lemma FilterAndProjectComplete(
    parts: Parts, pushed: Pushed, residual: Residual, scan: PushdownCapabilities, engine: EngineCapabilities,
    rows: seq<Row>, out: seq<Row>, params: Params)
    requires parts.Valid() && Accounted(parts, pushed, residual, scan, engine)
    requires PruneAllowed(scan.projection, pushed.columns, rows, out)
    ensures ProjectBy(residual.projection, FilterBy(residual.filter, out, params), params)
            == ProjectBy(parts.projection, FilterBy(residual.filter, rows, params), params)
  {
    if parts.projection.Some? {
      var es := parts.projection.value;
      if PushesWhole(es, residual.filter, Some(scan.projection)) {
        WholeProjectionPushed(es, residual.filter, rows, params);
      } else {
        PrunedRowsAgree(es, residual.filter, scan.projection, pushed.columns, rows, out);
        EvaluationAgrees(es, residual.filter, out, rows, params);
      }
    }
  }

  lemma TakeCommutesWithProject(es: Option<seq<Expr>>, n: nat, rows: seq<Row>, params: Params)
    requires es.Some? ==> forall e | e in es.value :: e.Column? || e.Alias?
    ensures ProjectBy(es, Take(n, rows), params) == Take(n, ProjectBy(es, rows, params))
  {
  }

  /** A partial limit cut no row the engine's own limit keeps. */
  lemma PartialLimitFinishes(es: Option<seq<Expr>>, n: nat, rows: seq<Row>, cut: seq<Row>, params: Params)
    requires es.Some? ==> forall e | e in es.value :: e.Column? || e.Alias?
    requires LimitAllowed(Partial, Some(n), rows, cut)
    ensures Take(n, ProjectBy(es, cut, params)) == Take(n, ProjectBy(es, rows, params))
  {
    TakeCommutesWithProject(es, n, rows, params);
    TakeCommutesWithProject(es, n, cut, params);
    hide ProjectBy;
    assert Take(n, cut) == Take(n, rows);
  }

  /** Wherever the limit was placed, cutting before the engine's work and after it gives the plan's cut. */
  lemma LimitFinishes(
    parts: Parts, pushed: Pushed, residual: Residual, support: Support, engine: EngineCapabilities,
    rows: seq<Row>, cut: seq<Row>, params: Params)
    requires parts.projection.Some? ==> forall e | e in parts.projection.value :: e.Column? || e.Alias?
    requires LimitAccounted(parts, pushed, residual, Some(support), engine)
    requires LimitAllowed(support, pushed.limit, rows, cut)
    ensures TakeBy(residual.limit, ProjectBy(parts.projection, FilterBy(residual.filter, cut, params), params))
            == TakeBy(parts.limit, ProjectBy(parts.projection, FilterBy(residual.filter, rows, params), params))
  {
    hide ProjectBy, FilterRows;
    if parts.limit.Some? && residual.filter.None? {
      var n := parts.limit.value;
      match support
      case Full => TakeCommutesWithProject(parts.projection, n, rows, params);
      case Partial => PartialLimitFinishes(parts.projection, n, rows, cut, params);
      case Unsupported =>
    }
  }

  /**
   Any split the accounting accepts, however it was built, means its logical plan: whatever the
   scan does within its declared capabilities, the engine's residual work gives the plan's rows.
   */
  lemma AccountedSplitIsCorrect(
    parts: Parts, pushed: Pushed, residual: Residual, scan: PushdownCapabilities, engine: EngineCapabilities,
    table: seq<Row>, out: seq<Row>, params: Params)
    requires parts.Valid() && Accounted(parts, pushed, residual, scan, engine)
    requires residual.filter.Some? ==> WellFormed(residual.filter.value)
    requires ScanAllows(scan, pushed, table, out, params)
    ensures RunResidual(residual, out, params) == Answer(parts, table, params)
  {
    hide FilterAllowed, LimitAllowed, PruneAllowed, FiltersAccounted, LimitAccounted, FilterBy, ProjectBy, TakeBy;
    var filtered, cut :|
      && FilterAllowed(scan.filter, pushed.filter, table, filtered, params)
      && LimitAllowed(scan.limit, pushed.limit, filtered, cut)
      && PruneAllowed(scan.projection, pushed.columns, cut, out);
    ScannedThenFiltered(parts, pushed, residual, scan, engine, table, filtered, params);
    FilterAndProjectComplete(parts, pushed, residual, scan, engine, cut, out, params);
    LimitFinishes(parts, pushed, residual, scan.limit, engine, filtered, cut, params);
  }

  /** The validator is sound: an executable split with no reported problem answers its plan. */
  lemma AcceptedSplitIsCorrect(ep: ExecutionPlan, table: seq<Row>, out: seq<Row>, params: Params)
    requires ValidPlan(ep.plan) && ep.explain.executable && Complete(ep)
    requires ep.residual.filter.Some? ==> WellFormed(ep.residual.filter.value)
    requires ScanAllows(ep.explain.scan.value, ep.pushed, table, out, params)
    ensures ep.residual.projection.Some? ==> ValidProjection(ep.residual.projection.value)
    ensures RunResidual(ep.residual, out, params) == Denote(ep.plan, table, params)
  {
    ValidPlanHasValidParts(ep.plan);
    AccountedSplitIsCorrect(
      PartsOf(Nodes(ep.plan)), ep.pushed, ep.residual, ep.explain.scan.value, ep.explain.EngineOrNone(),
      table, out, params);
    DenoteByParts(ep.plan, table, params);
  }
}
