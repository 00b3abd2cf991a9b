/**
 The capability planner: for every logical operation it decides whether the scan performs it,
 the engine does, both do, or the plan is rejected.
 */
module Planner {
  import opened Wrappers
  import opened Values
  import opened Expressions
  import opened Plans
  import opened Execution

  datatype PlanningTarget = PlanningTarget(engine: EngineCapabilities, scan: PushdownCapabilities, reachable: bool)

  // ---- what becomes of one clause ----------------------------------------------------------------

  /** Pushed to an exact scan, pushed to a relaxing scan and rechecked, left, or impossible. */
  datatype Fate = Push | Recheck | Leave | Reject

  function FateOf(c: Expr, t: PlanningTarget): Fate {
    if !t.scan.filter.Unsupported? && t.scan.Supports(c) && t.scan.filter.Full? then Push
    else if !t.engine.Supports(c) then Reject
    else if !t.scan.filter.Unsupported? && t.scan.Supports(c) then Recheck
    else Leave
  }

  /** The clauses, in order, that meet one of the given fates. */
  function Sift(cs: seq<Expr>, fates: set<Fate>, t: PlanningTarget): (r: seq<Expr>)
    ensures forall c :: c in r <==> c in cs && FateOf(c, t) in fates
  {
    if cs == [] then [] else (if FateOf(cs[0], t) in fates then [cs[0]] else []) + Sift(cs[1..], fates, t)
  }

  lemma {:induction false} SiftSnoc(cs: seq<Expr>, c: Expr, fates: set<Fate>, t: PlanningTarget)
    ensures Sift(cs + [c], fates, t) == Sift(cs, fates, t) + (if FateOf(c, t) in fates then [c] else [])
  {
    if cs == [] {
      assert cs + [c] == [c];
    } else {
      assert (cs + [c])[1..] == cs[1..] + [c];
      SiftSnoc(cs[1..], c, fates, t);
    }
  }

  lemma AllSiftsSnoc(cs: seq<Expr>, c: Expr, t: PlanningTarget)
    ensures var fate := FateOf(c, t);
            && Sift(cs + [c], {Push, Recheck}, t)
               == (if fate.Push? || fate.Recheck? then Sift(cs, {Push, Recheck}, t) + [c] else Sift(cs, {Push, Recheck}, t))
            && Sift(cs + [c], {Recheck, Leave}, t)
               == (if fate.Recheck? || fate.Leave? then Sift(cs, {Recheck, Leave}, t) + [c] else Sift(cs, {Recheck, Leave}, t))
            && Sift(cs + [c], {Reject}, t)
               == (if fate.Reject? then Sift(cs, {Reject}, t) + [c] else Sift(cs, {Reject}, t))
  {
    SiftSnoc(cs, c, {Push, Recheck}, t);
    SiftSnoc(cs, c, {Recheck, Leave}, t);
    SiftSnoc(cs, c, {Reject}, t);
  }

  /** Every clause goes to exactly one side, as often as it occurs. */
  lemma {:induction false} SiftPartitions(cs: seq<Expr>, left: set<Fate>, right: set<Fate>, t: PlanningTarget)
    requires left !! right && forall c | c in cs :: FateOf(c, t) in left + right
    ensures multiset(Sift(cs, left, t)) + multiset(Sift(cs, right, t)) == multiset(cs)
  {
    if cs != [] {
      SiftPartitions(cs[1..], left, right, t);
      assert cs == [cs[0]] + cs[1..];
    }
  }

  lemma {:induction false} SiftIsContained(cs: seq<Expr>, fates: set<Fate>, t: PlanningTarget)
    ensures multiset(Sift(cs, fates, t)) <= multiset(cs)
  {
    if cs != [] {
      SiftIsContained(cs[1..], fates, t);
      assert cs == [cs[0]] + cs[1..];
    }
  }

  lemma {:induction false} SiftKeepsAll(cs: seq<Expr>, fates: set<Fate>, t: PlanningTarget)
    requires forall c | c in cs :: FateOf(c, t) in fates
    ensures Sift(cs, fates, t) == cs
  {
    if cs != [] {
      SiftKeepsAll(cs[1..], fates, t);
      assert cs == [cs[0]] + cs[1..];
    }
  }

  // ---- the planned split, part by part --------------------------------------------------------------

  function PushedClauses(f: Option<Expr>, t: PlanningTarget): seq<Expr> {
    Sift(ConjunctsOf(f), {Push, Recheck}, t)
  }

  function ResidualClauses(f: Option<Expr>, t: PlanningTarget): seq<Expr> {
    Sift(ConjunctsOf(f), {Recheck, Leave}, t)
  }

  function PlannedColumns(parts: Parts, t: PlanningTarget): Option<seq<string>>
    requires parts.Valid()
  {
    if parts.projection.None? then None
    else ExpectedColumns(parts.projection.value, AndAll(ResidualClauses(parts.filter, t)), Some(t.scan.projection))
  }

  function PlannedProjection(parts: Parts, t: PlanningTarget): Option<seq<Expr>>
    requires parts.Valid()
  {
    if parts.projection.None? then None
    else ExpectedProjection(parts.projection.value, AndAll(ResidualClauses(parts.filter, t)), Some(t.scan.projection))
  }

  /** The limit reaches the scan when nothing is filtered after it and the scan heeds limits. */
  function PlannedPushedLimit(parts: Parts, t: PlanningTarget): Option<nat> {
    if ResidualClauses(parts.filter, t) != [] then None
    else match t.scan.limit
      case Full => parts.limit
      case Partial => if t.engine.residualLimit then parts.limit else None
      case Unsupported => None
  }

  function PlannedResidualLimit(parts: Parts, t: PlanningTarget): Option<nat> {
    if t.engine.residualLimit && (ResidualClauses(parts.filter, t) != [] || !t.scan.limit.Full?) then parts.limit
    else None
  }

  function PlannedPushed(parts: Parts, t: PlanningTarget): Pushed
    requires parts.Valid()
  {
    Pushed(PlannedColumns(parts, t), AndAll(PushedClauses(parts.filter, t)), PlannedPushedLimit(parts, t))
  }

  function PlannedResidual(parts: Parts, t: PlanningTarget): Residual
    requires parts.Valid()
  {
    Residual(PlannedProjection(parts, t), AndAll(ResidualClauses(parts.filter, t)), PlannedResidualLimit(parts, t))
  }

  predicate ProjectionAccepted(parts: Parts, t: PlanningTarget)
    requires parts.Valid()
  {
    var projection := PlannedProjection(parts, t);
    projection.Some? ==>
      t.engine.residualProjection && forall e | e in projection.value :: t.engine.Supports(e)
  }

  predicate LimitAccepted(parts: Parts, t: PlanningTarget) {
    parts.limit.None? || t.engine.residualLimit || (ResidualClauses(parts.filter, t) == [] && t.scan.limit.Full?)
  }

  predicate FilterAccepted(parts: Parts, t: PlanningTarget) {
    forall c | c in ConjunctsOf(parts.filter) :: !FateOf(c, t).Reject?
  }

  /** No operation of the plan is rejected. */
  predicate Accepted(parts: Parts, t: PlanningTarget)
    requires parts.Valid()
  {
    FilterAccepted(parts, t) && ProjectionAccepted(parts, t) && LimitAccepted(parts, t)
  }

  // ---- the planned split is accounted for ---------------------------------------------------------------

  lemma ClausesSplitAlone(f: Option<Expr>, t: PlanningTarget)
    ensures forall c | c in ConjunctsOf(f) :: Conjuncts(c) == [c]
    ensures ConjunctsOf(AndAll(PushedClauses(f, t))) == PushedClauses(f, t)
    ensures ConjunctsOf(AndAll(ResidualClauses(f, t))) == ResidualClauses(f, t)
  {
    if f.Some? {
      ConjunctsAreNotAnds(f.value);
    }
    ConjunctsOfAndAll(PushedClauses(f, t));
    ConjunctsOfAndAll(ResidualClauses(f, t));
  }

  lemma {:induction false} NothingIsRechecked(cs: seq<Expr>, t: PlanningTarget)
    requires !t.scan.filter.Partial?
    ensures Sift(cs, {Push, Recheck}, t) == Sift(cs, {Push}, t)
    ensures Sift(cs, {Recheck, Leave}, t) == Sift(cs, {Leave}, t)
  {
    if cs != [] {
      NothingIsRechecked(cs[1..], t);
    }
  }

  lemma PushedClausesWithinScan(cs: seq<Expr>, t: PlanningTarget)
    ensures forall c | c in Sift(cs, {Push, Recheck}, t) :: !t.scan.filter.Unsupported? && t.scan.Supports(c)
  {
  }

  lemma ResidualClausesWithinEngine(cs: seq<Expr>, t: PlanningTarget)
    requires NoneIsAnd(cs)
    ensures forall c | c in Sift(cs, {Recheck, Leave}, t) :: t.engine.Evaluates(c)
  {
    forall c | c in Sift(cs, {Recheck, Leave}, t)
      ensures t.engine.Evaluates(c)
    {
      assert t.engine.Supports(c);
      assert c in Conjuncts(c);
    }
  }

  lemma PartialFates(cs: seq<Expr>, t: PlanningTarget)
    requires t.scan.filter.Partial? && forall c | c in cs :: !FateOf(c, t).Reject?
    ensures forall c | c in cs :: FateOf(c, t) in {Recheck, Leave}
  {
  }

  lemma ExactFates(cs: seq<Expr>, t: PlanningTarget)
    requires !t.scan.filter.Partial? && forall c | c in cs :: !FateOf(c, t).Reject?
    ensures forall c | c in cs :: FateOf(c, t) in {Push} + {Leave}
  {
  }

  lemma SiftsAreDisjoint(cs: seq<Expr>, left: set<Fate>, right: set<Fate>, t: PlanningTarget)
    requires left !! right
    ensures multiset(Sift(cs, left, t)) !! multiset(Sift(cs, right, t))
  {
    forall c | c in multiset(Sift(cs, left, t))
      ensures c !in multiset(Sift(cs, right, t))
    {
      assert c in Sift(cs, left, t);
    }
  }

  lemma PlannedClausesCover(cs: seq<Expr>, t: PlanningTarget)
    requires forall c | c in cs :: !FateOf(c, t).Reject?
    ensures FiltersCover(cs, Sift(cs, {Push, Recheck}, t), Sift(cs, {Recheck, Leave}, t), t.scan.filter.Partial?)
  {
    if t.scan.filter.Partial? {
      PartialFates(cs, t);
      SiftKeepsAll(cs, {Recheck, Leave}, t);
      SiftIsContained(cs, {Push, Recheck}, t);
    } else {
      ExactFates(cs, t);
      NothingIsRechecked(cs, t);
      SiftPartitions(cs, {Push}, {Leave}, t);
      SiftsAreDisjoint(cs, {Push}, {Leave}, t);
    }
  }

  lemma PlannedFiltersAccounted(f: Option<Expr>, t: PlanningTarget)
    requires forall c | c in ConjunctsOf(f) :: !FateOf(c, t).Reject?
    ensures FiltersAccounted(ConjunctsOf(f), PushedClauses(f, t), ResidualClauses(f, t), Some(t.scan), t.engine)
  {
    if f.Some? {
      ConjunctsAreNotAnds(f.value);
    }
    PlannedClausesCover(ConjunctsOf(f), t);
    PushedClausesWithinScan(ConjunctsOf(f), t);
    ResidualClausesWithinEngine(ConjunctsOf(f), t);
  }

  /** The validator accepts whatever the planner accepts. */
  lemma PlannedSplitAccounted(parts: Parts, t: PlanningTarget)
    requires parts.Valid() && Accepted(parts, t)
    ensures Accounted(parts, PlannedPushed(parts, t), PlannedResidual(parts, t), t.scan, t.engine)
  {
    PlannedFiltersAccounted(parts.filter, t);
    ClausesSplitAlone(parts.filter, t);
  }

  // ---- the planner misses no split ---------------------------------------------------------------------------

  lemma FirstSeenNames(es: seq<Expr>)
    requires PureColumns(es)
    ensures ColumnNames(WalkAll(es)) == OutputNames(es)
  {
    if es != [] {
      assert es[0] in es;
      FirstSeenNames(es[1..]);
      assert Walk(es[0]) == [es[0]];
      ColumnNamesConcat(Walk(es[0]), WalkAll(es[1..]));
      assert ColumnNames([es[0]]) == [es[0].name];
      assert OutputNames(es) == [OutputName(es[0])] + OutputNames(es[1..]);
    }
  }

  lemma {:induction false} DistinctNamesStay(seen: seq<string>, names: seq<string>)
    requires forall i, j | 0 <= i < j < |names| :: names[i] != names[j]
    requires forall n | n in names :: n !in seen
    ensures Dedupe(seen, names) == seen + names
    decreases |names|
  {
    if names != [] {
      DistinctNamesStay(seen + [names[0]], names[1..]);
      assert (seen + [names[0]]) + names[1..] == seen + names;
    } else {
      assert seen + names == seen;
    }
  }

  /** A pure projection is all a scan must read exactly when the residual reads no other column. */
  lemma NeededIsNamesIff(es: seq<Expr>, f: Option<Expr>)
    requires ValidProjection(es) && PureColumns(es)
    ensures Needed(es, f) == OutputNames(es)
            <==> f.None? || forall n | n in Walk(f.value) && n.Column? :: n.name in OutputNames(es)
  {
    var names := OutputNames(es);
    var more := if f.Some? then [f.value] else [];
    WalkAllConcat(es, more);
    ColumnNamesConcat(WalkAll(es), WalkAll(more));
    FirstSeenNames(es);
    DedupeConcat([], names, ColumnNames(WalkAll(more)));
    DistinctNamesStay([], names);
    assert [] + names == names;
    DedupeAddsNothing(names, ColumnNames(WalkAll(more)));
    if f.Some? {
      assert WalkAll(more) == Walk(f.value) + WalkAll([]);
      forall n | n in Walk(f.value) && n.Column?
        ensures n.name in ColumnNames(WalkAll(more))
      {
        assert n == Column(n.name);
        ColumnNamesHas(WalkAll(more), n.name);
      }
      forall c | c in ColumnNames(WalkAll(more))
        ensures Column(c) in Walk(f.value)
      {
        ColumnNamesHas(WalkAll(more), c);
      }
    }
  }

  /** Where an accounted split can have put a logical clause. */
  lemma ClauseIsSomewhere(l: seq<Expr>, p: seq<Expr>, r: seq<Expr>, partial: bool, c: Expr)
    requires FiltersCover(l, p, r, partial) && c in l
    ensures c in r || (!partial && c in p)
  {
    assert c in multiset(l);
    if partial {
      assert c in multiset(r);
    } else {
      assert c in multiset(p) || c in multiset(r);
    }
  }

  lemma EngineEvaluatesClause(c: Expr, t: PlanningTarget)
    requires !c.And? && t.engine.Evaluates(c)
    ensures t.engine.Supports(c)
  {
  }

  /** Of all splits the validator accepts, the planner's leaves the fewest clauses to the engine. */
  lemma PlannerLeavesLeast(parts: Parts, t: PlanningTarget, pushed: Pushed, residual: Residual)
    requires parts.Valid() && Accounted(parts, pushed, residual, t.scan, t.engine)
    ensures forall c | c in ResidualClauses(parts.filter, t) :: c in ConjunctsOf(residual.filter)
    ensures FilterAccepted(parts, t)
  {
    var l, p, r := ConjunctsOf(parts.filter), ConjunctsOf(pushed.filter), ConjunctsOf(residual.filter);
    if parts.filter.Some? {
      ConjunctsAreNotAnds(parts.filter.value);
    }
    forall c | c in l
      ensures !FateOf(c, t).Reject? && (FateOf(c, t) in {Recheck, Leave} ==> c in r)
    {
      ClauseIsSomewhere(l, p, r, t.scan.filter.Partial?, c);
      if c in r {
        EngineEvaluatesClause(c, t);
      }
    }
  }

  lemma ResidualColumnsShrink(f: Expr, g: Expr, names: seq<string>)
    requires forall c | c in Conjuncts(f) :: c in Conjuncts(g)
    requires forall n | n in Walk(g) && n.Column? :: n.name in names
    ensures forall n | n in Walk(f) && n.Column? :: n.name in names
  {
    forall n | n in Walk(f) && n.Column?
      ensures n.name in names
    {
      ColumnInConjunct(f, n);
      var c :| c in Conjuncts(f) && n in Walk(c);
      ConjunctWalks(g, c);
    }
  }

  /** If any split of the plan at all passes the validator, the planner accepts the plan. */
  lemma PlannerMissesNoSplit(parts: Parts, t: PlanningTarget, pushed: Pushed, residual: Residual)
    requires parts.Valid() && Accounted(parts, pushed, residual, t.scan, t.engine)
    requires residual.filter.Some? ==> WellFormed(residual.filter.value)
    ensures Accepted(parts, t)
  {
    var planned := AndAll(ResidualClauses(parts.filter, t));
    PlannerLeavesLeast(parts, t, pushed, residual);
    ClausesSplitAlone(parts.filter, t);
    FirstIsMember(ResidualClauses(parts.filter, t));
    assert residual.filter.None? ==> planned.None?;
    if parts.projection.Some? {
      var es := parts.projection.value;
      if PushesWhole(es, residual.filter, Some(t.scan.projection)) {
        NeededIsNamesIff(es, residual.filter);
        NeededIsNamesIff(es, planned);
        if planned.Some? {
          ResidualColumnsShrink(planned.value, residual.filter.value, OutputNames(es));
        }
        assert PushesWhole(es, planned, Some(t.scan.projection));
      } else {
        assert forall e | e in es :: Conjuncts(e) == [e];
      }
    }
  }

  /** A plan is accepted exactly when some split of it passes the validator. */
  lemma AcceptedIffSomeSplitExists(parts: Parts, t: PlanningTarget)
    requires parts.Valid()
    ensures Accepted(parts, t) <==>
              exists pushed: Pushed, residual: Residual ::
                (residual.filter.Some? ==> WellFormed(residual.filter.value))
                && Accounted(parts, pushed, residual, t.scan, t.engine)
  {
    if Accepted(parts, t) {
      PlannedSplitAccounted(parts, t);
      PlannedFiltersWellFormed(parts, t);
      var pushed, residual := PlannedPushed(parts, t), PlannedResidual(parts, t);
      assert (residual.filter.Some? ==> WellFormed(residual.filter.value))
          && Accounted(parts, pushed, residual, t.scan, t.engine);
    }
    forall pushed: Pushed, residual: Residual |
      (residual.filter.Some? ==> WellFormed(residual.filter.value))
      && Accounted(parts, pushed, residual, t.scan, t.engine)
      ensures Accepted(parts, t)
    {
      PlannerMissesNoSplit(parts, t, pushed, residual);
    }
  }

  lemma PlannedFiltersWellFormed(parts: Parts, t: PlanningTarget)
    requires parts.Valid()
    ensures var r := PlannedResidual(parts, t).filter; r.Some? ==> WellFormed(r.value)
    ensures var p := PlannedPushed(parts, t).filter; p.Some? ==> WellFormed(p.value)
  {
    if parts.filter.Some? {
      ClausesWellFormed(parts.filter.value);
    }
    AllWellFormedIff(ResidualClauses(parts.filter, t));
    AllWellFormedIff(PushedClauses(parts.filter, t));
  }

  // ---- the planner ---------------------------------------------------------------------------------------------

  /** Sorts one filter's conjuncts into pushed, residual and rejected parts. */
  method SplitClauses(clauses: seq<Expr>, t: PlanningTarget)
    returns (pushed: seq<Expr>, residual: seq<Expr>, rejected: seq<Expr>)
    ensures pushed == Sift(clauses, {Push, Recheck}, t)
    ensures residual == Sift(clauses, {Recheck, Leave}, t)
    ensures rejected == Sift(clauses, {Reject}, t)
  {
    pushed, residual, rejected := [], [], [];
    for i := 0 to |clauses|
      invariant pushed == Sift(clauses[..i], {Push, Recheck}, t)
      invariant residual == Sift(clauses[..i], {Recheck, Leave}, t)
      invariant rejected == Sift(clauses[..i], {Reject}, t)
    {
      var clause := clauses[i];
      assert clauses[..i + 1] == clauses[..i] + [clause];
      AllSiftsSnoc(clauses[..i], clause, t);
      var scanSupports := !t.scan.filter.Unsupported? && t.scan.Supports(clause);
      if scanSupports && t.scan.filter.Full? {
        pushed := pushed + [clause];
      } else if scanSupports && t.scan.filter.Partial? {
        if t.engine.Supports(clause) {
          // A partial scan only relaxes the clause; the engine rechecks all of it.
          pushed := pushed + [clause];
          residual := residual + [clause];
        } else {
          rejected := rejected + [clause];
        }
      } else if t.engine.Supports(clause) {
        residual := residual + [clause];
      } else {
        rejected := rejected + [clause];
      }
    }
    assert clauses[..|clauses|] == clauses;
  }

  method PlanFilter(condition: Expr, t: PlanningTarget)
    returns (pushed: Option<Expr>, residual: Option<Expr>, node: ExplainNode)
    ensures pushed == AndAll(PushedClauses(Some(condition), t))
    ensures residual == AndAll(ResidualClauses(Some(condition), t))
    ensures node.operation == 1
    ensures node.disposition.Rejected? <==> exists c :: c in Conjuncts(condition) && FateOf(c, t).Reject?
    ensures node.disposition.PushedDown? ==> residual.None?
    ensures node.disposition.LeftResidual? ==> pushed.None?
    ensures node.disposition.PartiallyPushed? ==> pushed.Some? && residual.Some?
  {
    var pushedParts, residualParts, rejectedParts := SplitClauses(Conjuncts(condition), t);
    pushed, residual := AndAll(pushedParts), AndAll(residualParts);
    FirstIsMember(rejectedParts);
    if rejectedParts != [] {
      node := ExplainNode(1, Rejected, RejectedEngineUnsupportedExpression);
    } else if residualParts == [] {
      node := ExplainNode(1, PushedDown, PushdownFull);
    } else if pushedParts == [] {
      node := ExplainNode(
        1, LeftResidual, if t.scan.filter.Unsupported? then ResidualNoCapability else ResidualUnsupportedExpression);
    } else {
      node := ExplainNode(1, PartiallyPushed, PushdownPartial);
    }
  }

  method PlanProject(es: seq<Expr>, residual: Option<Expr>, t: PlanningTarget)
    returns (columns: Option<seq<string>>, projection: Option<seq<Expr>>, node: ExplainNode)
    requires ValidProjection(es)
    ensures columns == ExpectedColumns(es, residual, Some(t.scan.projection))
    ensures projection == ExpectedProjection(es, residual, Some(t.scan.projection))
    ensures node.operation == 2
    ensures node.disposition.Rejected? <==>
              projection.Some? && !(t.engine.residualProjection && forall e | e in es :: t.engine.Supports(e))
    ensures node.disposition.PushedDown? <==> projection.None?
  {
    var needed, names := Needed(es, residual), OutputNames(es);
    if t.scan.projection.Full? && PureColumns(es) && needed == names {
      return Some(names), None, ExplainNode(2, PushedDown, PushdownFull);
    }
    projection := Some(es);
    columns := if !t.scan.projection.Unsupported? && needed != [] then Some(needed) else None;
    var unsupported := UnsupportedClauses(es, e => t.engine.Supports(e));
    FirstIsMember(unsupported);
    if !t.engine.residualProjection {
      node := ExplainNode(2, Rejected, RejectedEngineUnsupportedOperation);
    } else if unsupported != [] {
      node := ExplainNode(2, Rejected, RejectedEngineUnsupportedExpression);
    } else if t.scan.projection.Unsupported? {
      node := ExplainNode(2, LeftResidual, ResidualNoCapability);
    } else if columns.None? {
      // A constant projection keeps every source column, so that the row count survives.
      node := ExplainNode(2, LeftResidual, ResidualComputedProjection);
    } else if t.scan.projection.Partial? {
      node := ExplainNode(2, PartiallyPushed, PushdownPartial);
    } else {
      node := ExplainNode(2, PartiallyPushed, ResidualComputedProjection);
    }
  }

  method PlanLimit(count: nat, residual: Option<Expr>, t: PlanningTarget)
    returns (pushed: Option<nat>, left: Option<nat>, node: ExplainNode)
    ensures pushed == if residual.None? && (t.scan.limit.Full? || (t.scan.limit.Partial? && t.engine.residualLimit))
                      then Some(count) else None
    ensures left == if t.engine.residualLimit && (residual.Some? || !t.scan.limit.Full?) then Some(count) else None
    ensures node.operation == 3
    ensures node.disposition.Rejected? <==> pushed.None? && left.None?
  {
    pushed, left := None, None;
    var rejection := ExplainNode(3, Rejected, RejectedEngineUnsupportedOperation);
    if residual.Some? {
      if t.engine.residualLimit {
        left, node := Some(count), ExplainNode(3, LeftResidual, ResidualLimitAfterResidualFilter);
      } else {
        node := rejection;
      }
    } else if t.scan.limit.Full? {
      pushed, node := Some(count), ExplainNode(3, PushedDown, PushdownFull);
    } else if t.scan.limit.Partial? {
      if t.engine.residualLimit {
        pushed, left, node := Some(count), Some(count), ExplainNode(3, PartiallyPushed, PushdownPartial);
      } else {
        node := rejection;
      }
    } else {
      if t.engine.residualLimit {
        left, node := Some(count), ExplainNode(3, LeftResidual, ResidualNoCapability);
      } else {
        node := rejection;
      }
    }
  }

  /** The parts of a chain once one more node is added. */
  function After(parts: Parts, n: PlanNode): Parts {
    match n
    case Scan(_) => parts
    case Filter(_, p) => parts.(filter := Some(p))
    case Project(_, es) => parts.(projection := Some(es))
    case Limit(_, count) => parts.(limit := Some(count))
  }

  /** Whether the node may follow a chain with these parts. */
  predicate MayFollow(parts: Parts, n: PlanNode) {
    match n
    case Scan(_) => parts == BARE
    case Filter(_, _) => parts == BARE
    case Project(_, _) => parts.projection.None? && parts.limit.None?
    case Limit(_, _) => parts.limit.None?
  }

  lemma PrefixParts(nodes: seq<PlanNode>, i: nat)
    requires InOrder(nodes) && i < |nodes| && forall n | n in nodes :: ValidNode(n)
    ensures PartsOf(nodes[..i]).Valid() && PartsOf(nodes[..i + 1]).Valid()
    ensures PartsOf(nodes[..i + 1]) == After(PartsOf(nodes[..i]), nodes[i])
    ensures MayFollow(PartsOf(nodes[..i]), nodes[i])
  {
    assert nodes[..i + 1] == nodes[..i] + [nodes[i]];
    PartsSnoc(nodes[..i], nodes[i]);
    LonePart(nodes[i]);
    PartsComeFromNodes(nodes[..i]);
    PartsComeFromNodes(nodes[..i + 1]);
    assert forall n | n in nodes[..i] :: n.Rank() < nodes[i].Rank();
  }

  /** One turn of the planner's loop, for a node above the scan. */
  method PlanNodeAbove(node: PlanNode, ghost before: Parts, pushed: Pushed, residual: Residual, t: PlanningTarget)
    returns (pushed': Pushed, residual': Residual, explained: ExplainNode)
    requires !node.Scan? && ValidNode(node) && before.Valid() && MayFollow(before, node)
    requires pushed == PlannedPushed(before, t) && residual == PlannedResidual(before, t)
    ensures After(before, node).Valid()
    ensures pushed' == PlannedPushed(After(before, node), t)
    ensures residual' == PlannedResidual(After(before, node), t)
    ensures explained.operation == node.Rank()
    ensures Accepted(After(before, node), t) <==> Accepted(before, t) && !explained.disposition.Rejected?
  {
    match node {
      case Filter(_, condition) =>
        var p, r, n := PlanFilter(condition, t);
        pushed', residual', explained := pushed.(filter := p), residual.(filter := r), n;
      case Project(_, es) =>
        var columns, projection, n := PlanProject(es, residual.filter, t);
        pushed', residual', explained := pushed.(columns := columns), residual.(projection := projection), n;
      case Limit(_, count) =>
        var p, r, n := PlanLimit(count, residual.filter, t);
        pushed', residual', explained := pushed.(limit := p), residual.(limit := r), n;
    }
  }

  /**
   The planner's pass over the chain. Its final self-check never fails (`Complete`), and the plan is
   executable exactly when the source is reachable and no operation is rejected.
   */
  method PlanQuery(plan: PlanNode, t: PlanningTarget) returns (ep: ExecutionPlan)
    requires ValidPlan(plan)
    ensures PartsOf(Nodes(plan)).Valid()
    ensures ep.plan == plan && ep.explain.scan == Some(t.scan) && ep.explain.engine == Some(t.engine)
    ensures ep.pushed == PlannedPushed(PartsOf(Nodes(plan)), t)
    ensures ep.residual == PlannedResidual(PartsOf(Nodes(plan)), t)
    ensures ep.explain.executable <==> t.reachable && Accepted(PartsOf(Nodes(plan)), t)
    ensures ep.explain.stagingRequired <==> !t.reachable
    ensures |ep.explain.nodes| == |Nodes(plan)|
    ensures forall i | 0 <= i < |Nodes(plan)| :: ep.explain.nodes[i].operation == Nodes(plan)[i].Rank()
    ensures Complete(ep)
  {
    var chain := Nodes(plan);
    ValidPlanHasValidParts(plan);
    ScanComesFirst(plan);
    var first :=
      if t.reachable then ExplainNode(0, PushedDown, PushdownFull)
      else ExplainNode(0, Rejected, RejectedSourceUnreachable);
    var nodes := [first];
    var pushed, residual := Pushed(None, None, None), Residual(None, None, None);
    var rejected := !t.reachable;
    PrefixParts(chain, 0);
    for i := 1 to |chain|
      invariant PartsOf(chain[..i]).Valid()
      invariant pushed == PlannedPushed(PartsOf(chain[..i]), t)
      invariant residual == PlannedResidual(PartsOf(chain[..i]), t)
      invariant |nodes| == i && forall k | 0 <= k < i :: nodes[k].operation == chain[k].Rank()
      invariant rejected <==> AnyRejected(nodes)
      invariant rejected <==> !t.reachable || !Accepted(PartsOf(chain[..i]), t)
    {
      PrefixParts(chain, i);
      var explained: ExplainNode;
      pushed, residual, explained := PlanNodeAbove(chain[i], PartsOf(chain[..i]), pushed, residual, t);
      assert forall n :: n in nodes + [explained] <==> n in nodes || n == explained;
      nodes := nodes + [explained];
      rejected := rejected || explained.disposition.Rejected?;
    }
    assert chain[..|chain|] == chain;
    ep := ExecutionPlan(
      plan, pushed, residual, Explain(nodes, !rejected, !t.reachable, Some(t.scan), Some(t.engine)));
    if !rejected {
      PlannedSplitAccounted(PartsOf(chain), t);
    }
  }

  lemma ScanComesFirst(plan: PlanNode)
    requires ValidPlan(plan)
    ensures forall i | 0 <= i < |Nodes(plan)| :: Nodes(plan)[i].Scan? <==> i == 0
  {
    FirstIsScan(plan);
  }

  lemma FirstIsScan(plan: PlanNode)
    ensures Nodes(plan)[0].Scan?
  {
  }

  /**
   End to end: whatever the scan does with the planned half within its capabilities, an accepted
   plan returns exactly the rows the logical plan denotes.
   */
  lemma PlannerPreservesMeaning(plan: PlanNode, t: PlanningTarget, table: seq<Row>, out: seq<Row>, params: Params)
    requires ValidPlan(plan) && PartsOf(Nodes(plan)).Valid() && Accepted(PartsOf(Nodes(plan)), t)
    requires ScanAllows(t.scan, PlannedPushed(PartsOf(Nodes(plan)), t), table, out, params)
    ensures RunResidual(PlannedResidual(PartsOf(Nodes(plan)), t), out, params) == Denote(plan, table, params)
  {
    var parts := PartsOf(Nodes(plan));
    PlannedSplitAccounted(parts, t);
    PlannedFiltersWellFormed(parts, t);
    AccountedSplitIsCorrect(parts, PlannedPushed(parts, t), PlannedResidual(parts, t), t.scan, t.engine, table, out, params);
    DenoteByParts(plan, table, params);
  }
}
