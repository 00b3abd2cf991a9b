/**
 The logical plan: a chain Scan -> Filter? -> Project? -> Limit?, what it means on a table, and
 the builder that assembles it. A plan is determined by its three optional parts, and its meaning is
 to filter, then project, then take; the builder's calls may come in any order as long as those of
 one kind keep theirs, and they build the same plan.
 */
module Plans {
  import opened Wrappers
  import opened Values
  import opened Expressions

  datatype PlanNode =
    | Scan(source: string)
    | Filter(child: PlanNode, condition: Expr)
    | Project(child: PlanNode, expressions: seq<Expr>)
    | Limit(child: PlanNode, count: nat)
  {
    function Rank(): nat {
      if Scan? then 0 else if Filter? then 1 else if Project? then 2 else 3
    }
  }

  /** Columns or aliases, at least one, with distinct output names. */
  predicate ValidProjection(es: seq<Expr>) {
    && es != []
    && (forall e | e in es :: e.Column? || e.Alias?)
    && (forall i, j | 0 <= i < j < |es| :: OutputName(es[i]) != OutputName(es[j]))
    && AllWellFormed(es)
  }

  function Nodes(root: PlanNode): (nodes: seq<PlanNode>)
    ensures nodes != []
  {
    if root.Scan? then [root] else Nodes(root.child) + [root]
  }

  predicate InOrder(nodes: seq<PlanNode>) {
    forall i, j | 0 <= i < j < |nodes| :: nodes[i].Rank() < nodes[j].Rank()
  }

  predicate ValidNode(n: PlanNode) {
    match n
    case Scan(source) => source != []
    case Filter(_, p) => WellFormed(p)
    case Project(_, es) => ValidProjection(es)
    case Limit(_, _) => true
  }

  predicate ValidPlan(root: PlanNode) {
    && InOrder(Nodes(root))
    && (forall n | n in Nodes(root) :: ValidNode(n))
  }

  // ---- parts of a chain -----------------------------------------------------------------------

  function PredicateOf(nodes: seq<PlanNode>): Option<Expr> {
    if nodes == [] then None
    else if nodes[0].Filter? then Some(nodes[0].condition)
    else PredicateOf(nodes[1..])
  }

  function ProjectionOf(nodes: seq<PlanNode>): Option<seq<Expr>> {
    if nodes == [] then None
    else if nodes[0].Project? then Some(nodes[0].expressions)
    else ProjectionOf(nodes[1..])
  }

  function LimitOf(nodes: seq<PlanNode>): Option<nat> {
    if nodes == [] then None
    else if nodes[0].Limit? then Some(nodes[0].count)
    else LimitOf(nodes[1..])
  }

  function OrElse<T>(first: Option<T>, second: Option<T>): Option<T> {
    if first.Some? then first else second
  }

  lemma {:induction false} PartsSnoc(nodes: seq<PlanNode>, n: PlanNode)
    ensures PredicateOf(nodes + [n]) == OrElse(PredicateOf(nodes), PredicateOf([n]))
    ensures ProjectionOf(nodes + [n]) == OrElse(ProjectionOf(nodes), ProjectionOf([n]))
    ensures LimitOf(nodes + [n]) == OrElse(LimitOf(nodes), LimitOf([n]))
  {
    if nodes == [] {
      assert nodes + [n] == [n];
    } else {
      assert (nodes + [n])[1..] == nodes[1..] + [n];
      PartsSnoc(nodes[1..], n);
    }
  }

  /** A part comes from a node of the chain that carries it. */
  lemma {:induction false} PartsComeFromNodes(nodes: seq<PlanNode>)
    ensures PredicateOf(nodes).Some? <==> exists n :: n in nodes && n.Filter?
    ensures ProjectionOf(nodes).Some? <==> exists n :: n in nodes && n.Project?
    ensures LimitOf(nodes).Some? <==> exists n :: n in nodes && n.Limit?
    ensures (forall n | n in nodes :: ValidNode(n)) && PredicateOf(nodes).Some? ==> WellFormed(PredicateOf(nodes).value)
    ensures (forall n | n in nodes :: ValidNode(n)) && ProjectionOf(nodes).Some? ==> ValidProjection(ProjectionOf(nodes).value)
  {
    if nodes != [] {
      PartsComeFromNodes(nodes[1..]);
    }
  }

  /** The three optional parts of a plan. */
  datatype Parts = Parts(filter: Option<Expr>, projection: Option<seq<Expr>>, limit: Option<nat>) {
    predicate Valid() {
      && (filter.Some? ==> WellFormed(filter.value))
      && (projection.Some? ==> ValidProjection(projection.value))
    }
  }

  function PartsOf(nodes: seq<PlanNode>): Parts {
    Parts(PredicateOf(nodes), ProjectionOf(nodes), LimitOf(nodes))
  }

  lemma ValidPlanHasValidParts(root: PlanNode)
    requires ValidPlan(root)
    ensures PartsOf(Nodes(root)).Valid()
  {
    PartsComeFromNodes(Nodes(root));
  }

  // ---- meaning -----------------------------------------------------------------------------------

  function FilterRows(p: Expr, rows: seq<Row>, params: Params): seq<Row> {
    if rows == [] then []
    else (if IsTrue(p, rows[0], params) then [rows[0]] else []) + FilterRows(p, rows[1..], params)
  }

  function ProjectRow(es: seq<Expr>, row: Row, params: Params): Row
    requires forall e | e in es :: e.Column? || e.Alias?
  {
    if es == [] then map[]
    else ProjectRow(es[1..], row, params)[OutputName(es[0]) := Eval(es[0], row, params)]
  }

  function ProjectRows(es: seq<Expr>, rows: seq<Row>, params: Params): (out: seq<Row>)
    requires forall e | e in es :: e.Column? || e.Alias?
    ensures |out| == |rows|
    ensures forall i | 0 <= i < |rows| :: out[i] == ProjectRow(es, rows[i], params)
  {
    seq(|rows|, i requires 0 <= i < |rows| => ProjectRow(es, rows[i], params))
  }

  function Take<T>(n: nat, s: seq<T>): seq<T> {
    if n < |s| then s[..n] else s
  }

  function FilterBy(p: Option<Expr>, rows: seq<Row>, params: Params): seq<Row> {
    if p.Some? then FilterRows(p.value, rows, params) else rows
  }

  function ProjectBy(es: Option<seq<Expr>>, rows: seq<Row>, params: Params): seq<Row>
    requires es.Some? ==> forall e | e in es.value :: e.Column? || e.Alias?
  {
    if es.Some? then ProjectRows(es.value, rows, params) else rows
  }

  function TakeBy<T>(n: Option<nat>, s: seq<T>): seq<T> {
    if n.Some? then Take(n.value, s) else s
  }

  /** A filter with its parameters in place; fails with the first missing name. */
  function SubstituteIn(p: Option<Expr>, params: Params): Result<Option<Expr>, string> {
    if p.None? then Success(None)
    else
      var e :- Substitute(p.value, params);
      Success(Some(e))
  }

  predicate SuppliedIn(p: Option<Expr>, params: Params) {
    p.Some? ==> Supplied(Walk(p.value), params)
  }

  lemma SubstituteInSucceedsIff(p: Option<Expr>, params: Params)
    ensures SubstituteIn(p, params).Success? <==> SuppliedIn(p, params)
  {
    if p.Some? {
      SubstituteSucceedsIff(p.value, params);
    }
  }

  /** The filter with its parameters in place. */
  function Substituted(p: Option<Expr>, params: Params): Option<Expr>
    requires SuppliedIn(p, params)
  {
    SubstituteInSucceedsIff(p, params);
    SubstituteIn(p, params).value
  }

  /** A filter with its parameters in place keeps the rows it keeps with them bound. */
  lemma {:induction false} SubstitutedKeepsRows(p: Option<Expr>, rows: seq<Row>, params: Params)
    requires SuppliedIn(p, params)
    ensures FilterBy(Substituted(p, params), rows, map[]) == FilterBy(p, rows, params)
  {
    SubstituteInSucceedsIff(p, params);
    if p.Some? && rows != [] {
      SubstituteKeepsMeaning(p.value, params, rows[0], map[]);
      SubstitutedKeepsRows(p, rows[1..], params);
    }
  }

  /** The rows a plan denotes on a table, stage by stage. */
  function Denote(root: PlanNode, table: seq<Row>, params: Params): seq<Row>
    requires forall n | n in Nodes(root) :: ValidNode(n)
  {
    match root
    case Scan(_) => table
    case Filter(c, p) =>
      assert forall n | n in Nodes(c) :: n in Nodes(root);
      FilterRows(p, Denote(c, table, params), params)
    case Project(c, es) =>
      assert Nodes(root)[|Nodes(c)|] == root;
      assert ValidNode(root);
      assert forall n | n in Nodes(c) :: n in Nodes(root);
      ProjectRows(es, Denote(c, table, params), params)
    case Limit(c, n) =>
      assert forall m | m in Nodes(c) :: m in Nodes(root);
      Take(n, Denote(c, table, params))
  }

  /** WHERE sees source columns, SELECT produces the output, LIMIT bounds it. */
  function Answer(parts: Parts, table: seq<Row>, params: Params): seq<Row>
    requires parts.Valid()
  {
    TakeBy(parts.limit, ProjectBy(parts.projection, FilterBy(parts.filter, table, params), params))
  }

  lemma ChainSnoc(root: PlanNode)
    requires ValidPlan(root) && !root.Scan?
    ensures ValidPlan(root.child)
    ensures forall n | n in Nodes(root.child) :: n.Rank() < root.Rank()
  {
    var nodes, front := Nodes(root), Nodes(root.child);
    assert forall i | 0 <= i < |front| :: front[i] == nodes[i];
    assert nodes[|front|] == root;
  }

  /** The stage-by-stage meaning of a valid chain is the filter, then the projection, then the limit. */
  lemma {:induction false} DenoteByParts(root: PlanNode, table: seq<Row>, params: Params)
    requires ValidPlan(root)
    ensures PartsOf(Nodes(root)).Valid()
    ensures Denote(root, table, params) == Answer(PartsOf(Nodes(root)), table, params)
  {
    ValidPlanHasValidParts(root);
    LonePart(root);
    if !root.Scan? {
      ChainSnoc(root);
      DenoteByParts(root.child, table, params);
      PartsSnoc(Nodes(root.child), root);
      PartsComeFromNodes(Nodes(root.child));
      var before := PartsOf(Nodes(root.child));
      assert before.limit.None?;
      assert root.Filter? ==> before.filter.None? && before.projection.None?;
      assert root.Project? ==> before.projection.None?;
    }
  }

  lemma LonePart(n: PlanNode)
    ensures PredicateOf([n]) == (if n.Filter? then Some(n.condition) else None)
    ensures ProjectionOf([n]) == (if n.Project? then Some(n.expressions) else None)
    ensures LimitOf([n]) == (if n.Limit? then Some(n.count) else None)
  {
    assert [n][1..] == [];
  }

  // ---- building ----------------------------------------------------------------------------------------

  /** The chain holding the given parts over a source. */
  function Chain(source: string, parts: Parts): PlanNode {
    var scan := Scan(source);
    var filtered := if parts.filter.Some? then Filter(scan, parts.filter.value) else scan;
    var projected := if parts.projection.Some? then Project(filtered, parts.projection.value) else filtered;
    if parts.limit.Some? then Limit(projected, parts.limit.value) else projected
  }

  /** Adding a node of a higher rank to a valid chain adds exactly its part. */
  lemma Extend(root: PlanNode, parts: Parts)
    requires !root.Scan? && ValidPlan(root.child) && ValidNode(root) && PartsOf(Nodes(root.child)) == parts
    requires forall n | n in Nodes(root.child) :: n.Rank() < root.Rank()
    ensures ValidPlan(root) && Nodes(root) == Nodes(root.child) + [root]
    ensures PartsOf(Nodes(root))
            == Parts(OrElse(parts.filter, PredicateOf([root])),
                     OrElse(parts.projection, ProjectionOf([root])),
                     OrElse(parts.limit, LimitOf([root])))
  {
    var front, nodes := Nodes(root.child), Nodes(root);
    PartsSnoc(front, root);
    assert forall i | 0 <= i < |front| :: nodes[i] == front[i] && front[i] in front;
  }

  lemma ChainParts(source: string, parts: Parts)
    requires source != [] && parts.Valid()
    ensures ValidPlan(Chain(source, parts))
    ensures PartsOf(Nodes(Chain(source, parts))) == parts
  {
    var n0 := Scan(source);
    LonePart(n0);
    assert ValidPlan(n0) && PartsOf(Nodes(n0)) == BARE;
    var n1 := if parts.filter.Some? then Filter(n0, parts.filter.value) else n0;
    if parts.filter.Some? {
      Extend(n1, BARE);
      LonePart(n1);
    }
    assert forall n | n in Nodes(n1) :: n.Rank() <= 1;
    var n2 := if parts.projection.Some? then Project(n1, parts.projection.value) else n1;
    if parts.projection.Some? {
      Extend(n2, PartsOf(Nodes(n1)));
      LonePart(n2);
    }
    assert forall n | n in Nodes(n2) :: n.Rank() <= 2;
    if parts.limit.Some? {
      var n3 := Limit(n2, parts.limit.value);
      Extend(n3, PartsOf(Nodes(n2)));
      LonePart(n3);
    }
  }

  datatype Step = Where(condition: Expr) | Select(columns: seq<Expr>) | LimitTo(bound: nat) {
    predicate Valid() {
      && (Where? ==> WellFormed(condition))
      && (Select? ==> ValidProjection(columns))
    }
  }

  /** `where` conjoins, `select` replaces, `limit` keeps the smaller bound. */
  function Apply(parts: Parts, step: Step): Parts {
    match step
    case Where(p) => parts.(filter := AndAll(ConjunctsOf(parts.filter) + Conjuncts(p)))
    case Select(es) => parts.(projection := Some(es))
    case LimitTo(n) => parts.(limit := Some(if parts.limit.None? then n else Min(parts.limit.value, n)))
  }

  function Build(parts: Parts, steps: seq<Step>): Parts
    decreases |steps|
  {
    if steps == [] then parts else Build(Apply(parts, steps[0]), steps[1..])
  }

  function Clauses(steps: seq<Step>): seq<Expr> {
    if steps == [] then []
    else (if steps[0].Where? then Conjuncts(steps[0].condition) else []) + Clauses(steps[1..])
  }

  function LastSelect(steps: seq<Step>): Option<seq<Expr>> {
    if steps == [] then None
    else OrElse(LastSelect(steps[1..]), if steps[0].Select? then Some(steps[0].columns) else None)
  }

  function SmallestLimit(steps: seq<Step>): Option<nat> {
    if steps == [] then None
    else
      var rest := SmallestLimit(steps[1..]);
      if !steps[0].LimitTo? then rest
      else Some(if rest.None? then steps[0].bound else Min(steps[0].bound, rest.value))
  }

  function MinOpt(a: Option<nat>, b: Option<nat>): Option<nat> {
    if a.None? then b else if b.None? then a else Some(Min(a.value, b.value))
  }

  lemma {:induction false} BuildFilter(parts: Parts, steps: seq<Step>)
    requires parts.filter == AndAll(ConjunctsOf(parts.filter)) && NoneIsAnd(ConjunctsOf(parts.filter))
    ensures Build(parts, steps).filter == AndAll(ConjunctsOf(parts.filter) + Clauses(steps))
    decreases |steps|
  {
    var clauses := ConjunctsOf(parts.filter);
    if steps == [] {
      assert clauses + [] == clauses;
    } else {
      var next := Apply(parts, steps[0]);
      var added := if steps[0].Where? then Conjuncts(steps[0].condition) else [];
      if steps[0].Where? {
        ConjunctsAreNotAnds(steps[0].condition);
        ConjunctsOfAndAll(clauses + added);
      }
      assert clauses + [] == clauses;
      BuildFilter(next, steps[1..]);
      assert clauses + (added + Clauses(steps[1..])) == (clauses + added) + Clauses(steps[1..]);
    }
  }

  lemma {:induction false} BuildProjection(parts: Parts, steps: seq<Step>)
    ensures Build(parts, steps).projection == OrElse(LastSelect(steps), parts.projection)
    decreases |steps|
  {
    if steps != [] {
      BuildProjection(Apply(parts, steps[0]), steps[1..]);
    }
  }

  lemma {:induction false} BuildLimit(parts: Parts, steps: seq<Step>)
    ensures Build(parts, steps).limit == MinOpt(parts.limit, SmallestLimit(steps))
    decreases |steps|
  {
    if steps != [] {
      BuildLimit(Apply(parts, steps[0]), steps[1..]);
    }
  }

  const BARE := Parts(None, None, None)

  /**
   What any run of builder calls builds: every WHERE conjunct in call order, the last SELECT, and
   the smallest LIMIT. Runs that agree kind by kind build the same plan, however interleaved.
   */
  lemma BuildIsOrderFreeAcrossKinds(steps: seq<Step>)
    ensures Build(BARE, steps) == Parts(AndAll(Clauses(steps)), LastSelect(steps), SmallestLimit(steps))
  {
    BuildFilter(BARE, steps);
    BuildProjection(BARE, steps);
    BuildLimit(BARE, steps);
    assert ConjunctsOf(BARE.filter) + Clauses(steps) == Clauses(steps);
  }

  /** Each WHERE added to a plan filters further: conjoining by flattening loses no condition. */
  lemma WhereNarrows(parts: Parts, condition: Expr, row: Row, params: Params)
    requires parts.Valid() && WellFormed(condition)
    ensures var p := Apply(parts, Where(condition)).filter;
            p.Some? && (IsTrue(p.value, row, params)
                        <==> IsTrue(condition, row, params)
                             && (parts.filter.Some? ==> IsTrue(parts.filter.value, row, params)))
  {
    var before, added := ConjunctsOf(parts.filter), Conjuncts(condition);
    var p := AndAll(before + added);
    WellFormedHasConjuncts(condition);
    ConjunctsAreNotAnds(condition);
    if parts.filter.Some? {
      ConjunctsAreNotAnds(parts.filter.value);
      TrueIffConjunctsTrue(parts.filter.value, row, params);
    }
    ConjunctsOfAndAll(before + added);
    TrueIffConjunctsTrue(p.value, row, params);
    TrueIffConjunctsTrue(condition, row, params);
    assert forall c :: c in before + added <==> c in before || c in added;
  }
}
