/**
 The Neo4j scan: conjuncts over converted properties stay local, the rest go to Cypher, and one
 fused loop rechecks, limits and batches. The loop tests the limit after producing a row, so a limit
 of zero behaves as a limit of one whenever conjuncts stay local; otherwise the scan returns exactly
 the filtered, limited rows.
 */
module Neo4j {
  import opened Wrappers
  import opened Values
  import Types
  import opened LikePatterns
  import opened Expressions
  import opened Plans
  import opened Execution
  import opened Streams

  // ---- the split ---------------------------------------------------------------------------------

  predicate TouchesLocal(e: Expr, localColumns: set<string>) {
    exists c :: c in ReferencedColumns([e]) && c in localColumns
  }

  function NativePart(clauses: seq<Expr>, localColumns: set<string>): (native: seq<Expr>)
    ensures forall c :: c in native <==> c in clauses && !TouchesLocal(c, localColumns)
  {
    if clauses == [] then []
    else (if TouchesLocal(clauses[0], localColumns) then [] else [clauses[0]]) + NativePart(clauses[1..], localColumns)
  }

  function LocalPart(clauses: seq<Expr>, localColumns: set<string>): (local: seq<Expr>)
    ensures forall c :: c in local <==> c in clauses && TouchesLocal(c, localColumns)
  {
    if clauses == [] then []
    else (if TouchesLocal(clauses[0], localColumns) then [clauses[0]] else []) + LocalPart(clauses[1..], localColumns)
  }

  lemma AndAllKeeps(clauses: seq<Expr>, row: Row)
    requires NoneIsAnd(clauses)
    ensures Keeps(AndAll(clauses), row, map[]) <==> forall c | c in clauses :: IsTrue(c, row, map[])
  {
    ConjunctsOfAndAll(clauses);
    KeepsIffConjuncts(AndAll(clauses), row, map[]);
  }

  lemma {:induction false} SplitCovers(clauses: seq<Expr>, localColumns: set<string>)
    ensures multiset(clauses) == multiset(NativePart(clauses, localColumns)) + multiset(LocalPart(clauses, localColumns))
  {
    hide TouchesLocal;
    if clauses != [] {
      var c, rest := clauses[0], clauses[1..];
      SplitCovers(rest, localColumns);
      assert clauses == [c] + rest;
      assert multiset(clauses) == multiset{c} + multiset(rest);
      var native, local := NativePart(rest, localColumns), LocalPart(rest, localColumns);
      if TouchesLocal(c, localColumns) {
        assert [] + native == native && multiset([c] + local) == multiset{c} + multiset(local);
      } else {
        assert [] + local == local && multiset([c] + native) == multiset{c} + multiset(native);
      }
    }
  }

  /** Cypher's filter followed by the local one is the whole predicate. */
  lemma SplitFilters(filter: Option<Expr>, localColumns: set<string>, rows: seq<Row>)
    ensures var clauses := ConjunctsOf(filter);
            FilterBy(AndAll(LocalPart(clauses, localColumns)), FilterBy(AndAll(NativePart(clauses, localColumns)), rows, map[]), map[])
            == FilterBy(filter, rows, map[])
    ensures NoneIsAnd(NativePart(ConjunctsOf(filter), localColumns)) && NoneIsAnd(LocalPart(ConjunctsOf(filter), localColumns))
  {
    var clauses := ConjunctsOf(filter);
    var native, local := NativePart(clauses, localColumns), LocalPart(clauses, localColumns);
    if filter.Some? {
      ConjunctsAreNotAnds(filter.value);
    }
    SplitCovers(clauses, localColumns);
    ConjunctsOfAndAll(native);
    ConjunctsOfAndAll(local);
    hide TouchesLocal;
    assert forall c :: c in multiset(native) <==> c in native;
    assert forall c :: c in multiset(local) <==> c in local;
    FiltersCompose(filter, AndAll(native), AndAll(local), rows, map[]);
  }

  // ---- in-process evaluation ------------------------------------------------------------------------------

  /** What the source declares it evaluates: arithmetic stays with the engine, an alias is no predicate. */
  predicate Pushable(nodes: seq<Expr>) {
    forall n | n in nodes :: !n.Arithmetic? && !n.Alias?
  }

  /** `x IN (vs)` by a scan that stops at the first equal member and remembers a NULL one. */
  function ScanMembers(x: Value, vs: seq<Value>, negated: bool, sawNull: bool): Value {
    if vs == [] then if sawNull then Null else Bool(negated)
    else if vs[0].Fault? then Fault
    else if vs[0].Null? then ScanMembers(x, vs[1..], negated, true)
    else if Compare(x, vs[0]).Equal? then Bool(!negated)
    else ScanMembers(x, vs[1..], negated, sawNull)
  }

  /** The evaluation of a conjunct, or of any expression in it, on a converted row. `Fault` is an exception. */
  function Evaluate(e: Expr, row: Row): Value
    decreases e, 1
  {
    match e
    case Column(c) => if c in row then row[c] else Null
    case Literal(l) => l.value
    case And(os) => EvaluateAnd(os, row, TRUE)
    case Or(os) => EvaluateOr(os, row, FALSE)
    case Not(o) => Not3(Evaluate(o, row))
    case IsNull(o, negated) =>
      var v := Evaluate(o, row);
      if v.Fault? then Fault else Bool(v.Null? != negated)
    case Comparison(op, l, r) =>
      var a, b := Evaluate(l, row), Evaluate(r, row);
      if a.Fault? || b.Fault? then Fault
      else if a.Null? || b.Null? then Null else PythonCompare(op, a, b)
    case In(o, vs, negated) =>
      var x := Evaluate(o, row);
      if x.Fault? then Fault else if x.Null? then Null else ScanMembers(x, EvaluateAll(vs, row), negated, false)
    case Like(o, p, negated) =>
      var x, pattern := Evaluate(o, row), Evaluate(p, row);
      if x.Fault? || pattern.Fault? then Fault
      else if x.Null? || pattern.Null? then Null
      else if x.Text? && pattern.Text? then Bool(Accepts(Cypher, LikeToRegex(Cypher, pattern.s), x.s) != negated)
      else Fault
    case _ => Fault
  }

  function EvaluateAll(es: seq<Expr>, row: Row): seq<Value>
    decreases es, 0
  {
    if es == [] then [] else [Evaluate(es[0], row)] + EvaluateAll(es[1..], row)
  }

  /** Stops at FALSE; otherwise remembers whether an operand was UNKNOWN. */
  function EvaluateAnd(es: seq<Expr>, row: Row, sofar: Value): Value
    decreases es, 0
  {
    if es == [] then sofar
    else
      var v := Evaluate(es[0], row);
      if v == FALSE || v.Fault? then v else EvaluateAnd(es[1..], row, if v.Null? then Null else sofar)
  }

  function EvaluateOr(es: seq<Expr>, row: Row, sofar: Value): Value
    decreases es, 0
  {
    if es == [] then sofar
    else
      var v := Evaluate(es[0], row);
      if v == TRUE || v.Fault? then v else EvaluateOr(es[1..], row, if v.Null? then Null else sofar)
  }

  lemma {:induction false} ScanIsMembership(x: Value, vs: seq<Value>, negated: bool, sawNull: bool)
    requires x.Present() && !Member3(x, vs).Fault?
    ensures ScanMembers(x, vs, negated, sawNull)
            == Negate(if sawNull then Or3(Null, Member3(x, vs)) else Member3(x, vs), negated)
  {
    hide Compare;
    if vs != [] && (vs[0].Null? || !Compare(x, vs[0]).Equal?) {
      ScanIsMembership(x, vs[1..], negated, sawNull || vs[0].Null?);
    }
  }

  lemma {:induction false} PairEvaluates(e: Expr, row: Row)
    requires (e.Comparison? || e.Like?) && WellFormed(e) && Pushable(Walk(e)) && !Eval(e, row, map[]).Fault?
    ensures Evaluate(e, row) == Eval(e, row, map[])
    decreases e, 0
  {
    var l, r := if e.Comparison? then e.left else e.operand, if e.Comparison? then e.right else e.pattern;
    var a, b := Eval(l, row, map[]), Eval(r, row, map[]);
    assert Eval(e, row, map[])
        == if e.Comparison? then Relate(e.comparison, a, b) else Negate(LikeValue(a, b), e.negated);
    EvaluateIsEval(l, row);
    EvaluateIsEval(r, row);
    if e.Like? && a.Text? && b.Text? {
      CompiledRegexMatchesLike(Cypher, b.s, a.s);
    }
    hide Accepts, LikeMatch, LikeToRegex, Compare, Walk, WellFormed;
  }

  lemma {:induction false} InEvaluates(e: Expr, row: Row)
    requires e.In? && WellFormed(e) && Pushable(Walk(e)) && !Eval(e, row, map[]).Fault?
    ensures Evaluate(e, row) == Eval(e, row, map[])
    decreases e, 0
  {
    var x, vs := Eval(e.operand, row, map[]), EvalAll(e.values, row, map[]);
    assert Eval(e, row, map[]) == Negate(Member3(x, vs), e.negated);
    MembershipTruth(x, vs);
    assert vs[0] in vs && Relate(EQ, x, vs[0]).Truth();
    EvaluateIsEval(e.operand, row);
    forall v | v in vs
      ensures !v.Fault?
    {
      assert Relate(EQ, x, v).Truth();
    }
    EvaluateAllIsEval(e.values, row);
    if x.Null? {
      MemberOfNull(vs);
    } else {
      ScanIsMembership(x, vs, e.negated, false);
    }
  }

  /** Where SQL gives the predicate a value, in-process evaluation gives the same. */
  lemma {:induction false} EvaluateIsEval(e: Expr, row: Row)
    requires WellFormed(e) && Pushable(Walk(e)) && !Eval(e, row, map[]).Fault?
    ensures Evaluate(e, row) == Eval(e, row, map[])
    decreases e, 1
  {
    assert e in Walk(e);
    match e
    case And(os) => EvaluateAndIsEval(os, row, TRUE);
    case Or(os) => EvaluateOrIsEval(os, row, FALSE);
    case Not(o) => EvaluateIsEval(o, row);
    case IsNull(o, _) => EvaluateIsEval(o, row);
    case Comparison(_, _, _) => PairEvaluates(e, row);
    case Like(_, _, _) => PairEvaluates(e, row);
    case In(_, _, _) => InEvaluates(e, row);
    case _ =>
  }

  lemma {:induction false} EvaluateAllIsEval(es: seq<Expr>, row: Row)
    requires AllWellFormed(es) && Pushable(WalkAll(es)) && forall v | v in EvalAll(es, row, map[]) :: !v.Fault?
    ensures EvaluateAll(es, row) == EvalAll(es, row, map[])
    decreases es, 0
  {
    if es != [] {
      var vs := EvalAll(es, row, map[]);
      assert vs[0] == Eval(es[0], row, map[]) && vs[0] in vs && vs[1..] == EvalAll(es[1..], row, map[]);
      EvaluateIsEval(es[0], row);
      EvaluateAllIsEval(es[1..], row);
    }
  }

  lemma {:induction false} EvaluateAndIsEval(es: seq<Expr>, row: Row, sofar: Value)
    requires AllWellFormed(es) && Pushable(WalkAll(es)) && sofar in {TRUE, Null} && !AllOf(EvalAll(es, row, map[])).Fault?
    ensures EvaluateAnd(es, row, sofar) == And3(sofar, AllOf(EvalAll(es, row, map[])))
    decreases es, 0
  {
    if es != [] {
      var vs := EvalAll(es, row, map[]);
      assert vs[0] == Eval(es[0], row, map[]) && vs[1..] == EvalAll(es[1..], row, map[]);
      EvaluateIsEval(es[0], row);
      EvaluateAndIsEval(es[1..], row, if vs[0].Null? then Null else sofar);
    }
  }

  lemma {:induction false} EvaluateOrIsEval(es: seq<Expr>, row: Row, sofar: Value)
    requires AllWellFormed(es) && Pushable(WalkAll(es)) && sofar in {FALSE, Null} && !AnyOf(EvalAll(es, row, map[])).Fault?
    ensures EvaluateOr(es, row, sofar) == Or3(sofar, AnyOf(EvalAll(es, row, map[])))
    decreases es, 0
  {
    if es != [] {
      var vs := EvalAll(es, row, map[]);
      assert vs[0] == Eval(es[0], row, map[]) && vs[1..] == EvalAll(es[1..], row, map[]);
      EvaluateIsEval(es[0], row);
      EvaluateOrIsEval(es[1..], row, if vs[0].Null? then Null else sofar);
    }
  }

  // ---- the fused loop ---------------------------------------------------------------------------------

  /** Every local conjunct evaluates to TRUE. */
  predicate Passes(local: seq<Expr>, row: Row) {
    forall c | c in local :: Evaluate(c, row) == TRUE
  }

  /** The rows the loop keeps, trimmed, before any limit. */
  function Kept(local: seq<Expr>, rows: seq<Row>, names: seq<string>): seq<Row> {
    if rows == [] then []
    else (if Passes(local, rows[0]) then [Prune(rows[0], names)] else []) + Kept(local, rows[1..], names)
  }

  lemma {:induction false} KeptConcat(local: seq<Expr>, xs: seq<Row>, ys: seq<Row>, names: seq<string>)
    ensures Kept(local, xs + ys, names) == Kept(local, xs, names) + Kept(local, ys, names)
  {
    hide Passes, Prune;
    if xs == [] {
      assert xs + ys == ys;
    } else {
      assert (xs + ys)[1..] == xs[1..] + ys;
      KeptConcat(local, xs[1..], ys, names);
      Associates(
        if Passes(local, xs[0]) then [Prune(xs[0], names)] else [], Kept(local, xs[1..], names), Kept(local, ys, names));
    }
  }

  lemma KeptStep(local: seq<Expr>, rows: seq<Row>, i: nat, names: seq<string>)
    requires i < |rows|
    ensures Kept(local, rows[..i + 1], names)
            == Kept(local, rows[..i], names) + if Passes(local, rows[i]) then [Prune(rows[i], names)] else []
    ensures Kept(local, rows, names) == Kept(local, rows[..i + 1], names) + Kept(local, rows[i + 1..], names)
  {
    assert rows[..i + 1] == rows[..i] + [rows[i]] && rows == rows[..i + 1] + rows[i + 1..];
    KeptConcat(local, rows[..i], [rows[i]], names);
    KeptConcat(local, rows[..i + 1], rows[i + 1..], names);
    hide Passes, Prune;
    assert [rows[i]][1..] == [];
  }

  /** Conjuncts the loop can evaluate: their nodes are pushable, and SQL gives them a value on every row. */
  ghost predicate Defined(local: seq<Expr>, rows: seq<Row>) {
    forall c | c in local :: WellFormed(c) && Pushable(Walk(c)) && NeverStuck(c, rows, map[])
  }

  lemma PassesIffKept(local: seq<Expr>, row: Row)
    requires NoneIsAnd(local) && Defined(local, [row])
    ensures Passes(local, row) <==> Keeps(AndAll(local), row, map[])
  {
    AndAllKeeps(local, row);
    forall c | c in local
      ensures Evaluate(c, row) == Eval(c, row, map[])
    {
      assert row in [row];
      EvaluateIsEval(c, row);
    }
  }

  /** The loop over rows cut to the fetched columns keeps what SQL keeps of the whole rows. */
  lemma {:induction false} KeptIsFiltered(local: seq<Expr>, rows: seq<Row>, fetched: seq<string>, names: seq<string>)
    requires NoneIsAnd(local) && Defined(local, rows)
    requires forall c | c in names :: c in fetched
    requires forall e, n | e in local && n in Walk(e) && n.Column? :: n.name in fetched
    ensures Kept(local, PruneAll(rows, fetched), names) == PruneAll(FilterBy(AndAll(local), rows, map[]), names)
  {
    if rows == [] {
      assert FilterBy(AndAll(local), [], map[]) == [];
    } else {
      var row, narrow := rows[0], Prune(rows[0], fetched);
      assert PruneAll(rows, fetched)[0] == narrow && PruneAll(rows, fetched)[1..] == PruneAll(rows[1..], fetched);
      assert Prune(narrow, names) == Prune(row, names);
      KeptIsFiltered(local, rows[1..], fetched, names);
      NarrowPasses(local, row, fetched);
      DefinedRow(local, rows);
      PassesIffKept(local, row);
      FilterByStep(AndAll(local), rows, map[]);
      hide Keeps, Passes, Prune, NoneIsAnd, Defined;
      var rest := FilterBy(AndAll(local), rows[1..], map[]);
      if Keeps(AndAll(local), row, map[]) {
        assert ([row] + rest)[1..] == rest;
      } else {
        assert [] + rest == rest;
      }
    }
  }

  lemma DefinedRow(local: seq<Expr>, rows: seq<Row>)
    requires rows != [] && Defined(local, rows)
    ensures Defined(local, [rows[0]]) && Defined(local, rows[1..])
  {
    assert rows[0] in rows;
  }

  lemma NarrowPasses(local: seq<Expr>, row: Row, fetched: seq<string>)
    requires forall e, n | e in local && n in Walk(e) && n.Column? :: n.name in fetched
    requires Defined(local, [row])
    ensures Passes(local, Prune(row, fetched)) <==> Passes(local, row)
  {
    forall c | c in local
      ensures Evaluate(c, Prune(row, fetched)) == Evaluate(c, row)
    {
      assert row in [row];
      EvalFootprint(c, Prune(row, fetched), row, map[]);
      EvaluateIsEval(c, row);
      EvaluateIsEval(c, Prune(row, fetched));
    }
  }

  /** The limit the loop honours: it stops only after a row, so a limit of zero acts as one. */
  function Honoured(limit: Option<nat>): Option<nat> {
    if limit == Some(0) then Some(1) else limit
  }

  predicate Reached(limit: Option<nat>, produced: nat) {
    limit.Some? && produced >= limit.value
  }

  lemma HonouredAtStop(limit: Option<nat>, rows: seq<Row>, more: seq<Row>)
    requires |rows| > 0 && Reached(limit, |rows|) && (|rows| == 1 || !Reached(limit, |rows| - 1))
    ensures TakeBy(Honoured(limit), rows + more) == rows
  {
  }

  method Batches(result: seq<Row>, local: seq<Expr>, names: seq<string>, batchSize: nat, limit: Option<nat>)
    returns (out: seq<seq<Row>>)
    requires batchSize > 0
    ensures Flatten(out) == TakeBy(Honoured(limit), Kept(local, result, names))
    ensures Sized(out, batchSize)
  {
    hide Passes, Prune, Flatten, Kept;
    out := [];
    var buffer: seq<Row> := [];
    var produced := 0;
    var stopped := false;
    var i := 0;
    NothingKept(local, names);
    assert result[..0] == [];
    while i < |result| && !stopped
      invariant i <= |result| && |buffer| < batchSize && Sized(out, batchSize)
      invariant Flatten(out) + buffer == Kept(local, result[..i], names) && produced == |Kept(local, result[..i], names)|
      invariant !stopped ==> produced == 0 || !Reached(limit, produced)
      invariant stopped ==> TakeBy(Honoured(limit), Kept(local, result, names)) == Flatten(out) + buffer
    {
      var row := result[i];
      ghost var before := Kept(local, result[..i], names);
      KeptStep(local, result, i, names);
      i := i + 1;
      if Passes(local, row) {
        assert Flatten(out) + (buffer + [Prune(row, names)]) == before + [Prune(row, names)];
        buffer := buffer + [Prune(row, names)];
        produced := produced + 1;
        if |buffer| >= batchSize {
          FlattenSnoc(out, buffer);
          assert Flatten(out + [buffer]) + [] == Flatten(out) + buffer;
          out := out + [buffer];
          buffer := [];
        }
        if Reached(limit, produced) {
          HonouredAtStop(limit, before + [Prune(row, names)], Kept(local, result[i..], names));
          stopped := true;
        }
      } else {
        assert Kept(local, result[..i], names) == before;
      }
    }
    if !stopped {
      assert result[..|result|] == result;
      assert TakeBy(Honoured(limit), Kept(local, result, names)) == Kept(local, result, names);
    }
    if buffer != [] {
      FlattenSnoc(out, buffer);
      out := out + [buffer];
    } else {
      assert Flatten(out) + buffer == Flatten(out);
    }
  }

  lemma NothingKept(local: seq<Expr>, names: seq<string>)
    ensures Kept(local, [], names) == [] && Flatten<Row>([]) == []
  {
  }

  // ---- the scan ------------------------------------------------------------------------------------------

  /** The limit the scan applies overall: Cypher's own, or the loop's when conjuncts stay local. */
  function Effective(limit: Option<nat>, local: seq<Expr>): Option<nat> {
    if local == [] then limit else Honoured(limit)
  }

  datatype ScanError = MissingParameter(name: string) | UnknownColumn(name: string) | NoColumns

  /** The output columns, then the columns the local conjuncts add. */
  function Fetched(names: seq<string>, local: seq<Expr>): (r: seq<string>)
    ensures forall c :: c in r <==> c in names || c in ReferencedColumns(local)
  {
    Dedupe([], names + ReferencedColumns(local))
  }

  lemma LocalColumnsFetched(names: seq<string>, local: seq<Expr>)
    ensures forall e, n | e in local && n in Walk(e) && n.Column? :: n.name in Fetched(names, local)
  {
    forall e, n | e in local && n in Walk(e) && n.Column?
      ensures n.name in Fetched(names, local)
    {
      WalkAllContains(local, e);
      assert n == Column(n.name);
      ColumnNamesHas(WalkAll(local), n.name);
    }
  }

  /** A predicate the planner may push here, with SQL values on the table when its parameters are there. */
  ghost predicate Answerable(filter: Option<Expr>, table: seq<Row>, params: Params) {
    filter.Some? ==>
      && WellFormed(filter.value) && Pushable(Walk(filter.value))
      && (SuppliedIn(filter, params) ==> NeverStuck(filter.value, table, params))
  }

  lemma PushableConcat(xs: seq<Expr>, ys: seq<Expr>)
    ensures Pushable(xs + ys) <==> Pushable(xs) && Pushable(ys)
  {
    assert forall n :: n in xs + ys <==> n in xs || n in ys;
  }

  lemma PushableNode(e: Expr)
    ensures Pushable([e]) <==> !e.Arithmetic? && !e.Alias?
  {
    assert e in [e];
  }

  lemma {:induction false} SubstituteKeepsPushable(e: Expr, params: Params)
    requires Pushable(Walk(e)) && Substitute(e, params).Success?
    ensures Pushable(Walk(Substitute(e, params).value))
    decreases e, 1
  {
    hide Pushable;
    var s := Substitute(e, params).value;
    PushableConcat([e], Walk(e)[1..]);
    PushableConcat([s], Walk(s)[1..]);
    assert Walk(e) == [e] + Walk(e)[1..] && Walk(s) == [s] + Walk(s)[1..];
    PushableNode(e);
    PushableNode(s);
    match e
    case Comparison(_, l, r) =>
      PushableConcat(Walk(l), Walk(r));
      SubstituteKeepsPushable(l, params);
      SubstituteKeepsPushable(r, params);
      PushableConcat(Walk(Substitute(l, params).value), Walk(Substitute(r, params).value));
    case Like(o, p, _) =>
      PushableConcat(Walk(o), Walk(p));
      SubstituteKeepsPushable(o, params);
      SubstituteKeepsPushable(p, params);
      PushableConcat(Walk(Substitute(o, params).value), Walk(Substitute(p, params).value));
    case And(os) => SubstituteAllKeepsPushable(os, params);
    case Or(os) => SubstituteAllKeepsPushable(os, params);
    case Not(o) => SubstituteKeepsPushable(o, params);
    case IsNull(o, _) => SubstituteKeepsPushable(o, params);
    case In(o, vs, _) =>
      PushableConcat(Walk(o), WalkAll(vs));
      SubstituteKeepsPushable(o, params);
      SubstituteAllKeepsPushable(vs, params);
      PushableConcat(Walk(Substitute(o, params).value), WalkAll(SubstituteAll(vs, params).value));
    case _ =>
  }

  lemma {:induction false} SubstituteAllKeepsPushable(es: seq<Expr>, params: Params)
    requires Pushable(WalkAll(es)) && SubstituteAll(es, params).Success?
    ensures Pushable(WalkAll(SubstituteAll(es, params).value))
    decreases es, 0
  {
    hide Pushable;
    if es != [] {
      PushableConcat(Walk(es[0]), WalkAll(es[1..]));
      SubstituteKeepsPushable(es[0], params);
      SubstituteAllKeepsPushable(es[1..], params);
      var all := SubstituteAll(es, params).value;
      assert all[0] == Substitute(es[0], params).value && all[1..] == SubstituteAll(es[1..], params).value;
      PushableConcat(Walk(all[0]), WalkAll(all[1..]));
    }
  }

  lemma LocalIsDefined(filter: Option<Expr>, localColumns: set<string>, table: seq<Row>, params: Params)
    requires Answerable(filter, table, params) && ValidParams(params) && SuppliedIn(filter, params)
    ensures Defined(LocalPart(ConjunctsOf(Substituted(filter, params)), localColumns), table)
  {
    SubstituteInSucceedsIff(filter, params);
    if filter.Some? {
      var e, bound := filter.value, Substituted(filter, params).value;
      SubstituteKeepsForm(e, params);
      SubstituteKeepsPushable(e, params);
      ClausesWellFormed(bound);
      forall c | c in Conjuncts(bound)
        ensures Pushable(Walk(c)) && NeverStuck(c, table, map[])
      {
        ConjunctWalks(bound, c);
        forall row | row in table
          ensures !Eval(c, row, map[]).Fault?
        {
          SubstituteKeepsMeaning(e, params, row, map[]);
          ConjunctsDefined(bound, row, map[]);
        }
      }
    }
  }

  lemma {:induction false} DefinedWithin(local: seq<Expr>, table: seq<Row>, rows: seq<Row>)
    requires Defined(local, table) && forall row | row in rows :: row in table
    ensures Defined(local, rows)
  {
  }

  lemma {:induction false} FilteredWithin(f: Option<Expr>, table: seq<Row>)
    ensures forall row | row in FilterBy(f, table, map[]) :: row in table
    decreases |table|
  {
    hide IsTrue;
    if table == [] {
      assert FilterBy(f, table, map[]) == [];
    } else {
      FilterByStep(f, table, map[]);
      FilteredWithin(f, table[1..]);
    }
  }

  /** What Cypher returns: the native conjuncts filter, and the limit applies when nothing is checked after. */
  function CypherRows(
    bound: Option<Expr>, localColumns: set<string>, limit: Option<nat>, fetched: seq<string>, table: seq<Row>): seq<Row>
  {
    var clauses := ConjunctsOf(bound);
    var matched := FilterBy(AndAll(NativePart(clauses, localColumns)), table, map[]);
    PruneAll(TakeBy(if LocalPart(clauses, localColumns) == [] then limit else None, matched), fetched)
  }

  lemma LoopKeeps(
    bound: Option<Expr>, localColumns: set<string>, limit: Option<nat>, names: seq<string>, table: seq<Row>)
    requires Defined(LocalPart(ConjunctsOf(bound), localColumns), table)
    ensures var local := LocalPart(ConjunctsOf(bound), localColumns);
            TakeBy(Honoured(if local == [] then None else limit),
                   Kept(local, CypherRows(bound, localColumns, limit, Fetched(names, local), table), names))
            == PruneAll(TakeBy(Effective(limit, local), FilterBy(bound, table, map[])), names)
  {
    var clauses := ConjunctsOf(bound);
    var native, local := NativePart(clauses, localColumns), LocalPart(clauses, localColumns);
    var fetched := Fetched(names, local);
    var rows := TakeBy(if local == [] then limit else None, FilterBy(AndAll(native), table, map[]));
    FilteredWithin(AndAll(native), table);
    DefinedWithin(local, table, rows);
    LocalColumnsFetched(names, local);
    hide TouchesLocal, Walk, PruneAll, FilterBy, Defined, NativePart, LocalPart, Kept, Flatten, AndAll;
    SplitFilters(bound, localColumns, table);
    KeptIsFiltered(local, rows, fetched, names);
    TakeOfPruned(Effective(limit, local), FilterBy(bound, table, map[]), names);
  }

  /**
   The scan: an error for a missing parameter, for an unknown column among those it fetches, or for an
   empty output; otherwise the filtered and trimmed rows under the limit it honours.
   */
  method Scan(
    table: seq<Row>, columns: seq<string>, names: seq<string>, filter: Option<Expr>, limit: Option<nat>, batchSize: nat,
    params: Params, localColumns: set<string>) returns (r: Result<seq<seq<Row>>, ScanError>)
    requires batchSize > 0 && ValidParams(params) && Answerable(filter, table, params)
    ensures r.Failure? <==>
              || names == [] || !SuppliedIn(filter, params)
              || (exists c :: c !in columns
                    && (c in names
                        || c in ReferencedColumns(LocalPart(ConjunctsOf(Substituted(filter, params)), localColumns))))
    ensures r.Success? ==>
              var local := LocalPart(ConjunctsOf(Substituted(filter, params)), localColumns);
              && Flatten(r.value) == PruneAll(TakeBy(Effective(limit, local), FilterBy(filter, table, params)), names)
              && Sized(r.value, batchSize)
  {
    hide NativePart, LocalPart, Defined, PruneAll, TakeBy, FilterBy, Flatten, Kept, Substitute, Supplied, Answerable;
    SubstituteInSucceedsIff(filter, params);
    var substituted := SubstituteIn(filter, params);
    if substituted.Failure? {
      return Failure(MissingParameter(substituted.error));
    }
    var bound := substituted.value;
    assert bound == Substituted(filter, params);
    var local := LocalPart(ConjunctsOf(bound), localColumns);
    var fetched := Fetched(names, local);
    if c :| c in fetched && c !in columns {
      return Failure(UnknownColumn(c));
    }
    if names == [] {
      return Failure(NoColumns);
    }
    var result := CypherRows(bound, localColumns, limit, fetched, table);
    LocalIsDefined(filter, localColumns, table, params);
    LoopKeeps(bound, localColumns, limit, names, table);
    SubstitutedKeepsRows(filter, table, params);
    var batches := Batches(result, local, names, batchSize, if local == [] then None else limit);
    r := Success(batches);
  }

  lemma {:induction false} PruneAllNonEmpty(rows: seq<Row>, names: seq<string>)
    ensures |PruneAll(rows, names)| == |rows|
  {
    if rows != [] {
      PruneAllNonEmpty(rows[1..], names);
    }
  }

  /** The scan's rows are the limited rows exactly when it is not LIMIT 0 over a local match. */
  lemma LimitIsExactIff(table: seq<Row>, names: seq<string>, filter: Option<Expr>, limit: Option<nat>, localColumns: set<string>)
    ensures var local := LocalPart(ConjunctsOf(filter), localColumns); var rows := FilterBy(filter, table, map[]);
            PruneAll(TakeBy(Effective(limit, local), rows), names) == PruneAll(TakeBy(limit, rows), names)
            <==> !(limit == Some(0) && local != [] && rows != [])
  {
    var local := LocalPart(ConjunctsOf(filter), localColumns);
    var rows := FilterBy(filter, table, map[]);
    PruneAllNonEmpty(TakeBy(Effective(limit, local), rows), names);
    PruneAllNonEmpty(TakeBy(limit, rows), names);
  }

  /** `tag = '1'`. */
  function TagTest(): Expr {
    Comparison(EQ, Column("tag"), Literal(Lit(Text("1"), Types.StringType)))
  }

  lemma TagTestIsTrue()
    ensures WellFormed(TagTest()) && IsTrue(TagTest(), map["tag" := Text("1")], map[])
  {
    OrderTextsFlips("1", "1");
    assert Relate(EQ, Text("1"), Text("1")) == TRUE;
    assert Eval(TagTest().left, map["tag" := Text("1")], map[]) == Text("1");
  }

  lemma TagTestIsLocal()
    ensures LocalPart(ConjunctsOf(Some(TagTest())), {"tag"}) == [TagTest()]
  {
    var e := TagTest();
    assert Column("tag") in Walk(e.left) && Column("tag") in Walk(e);
    assert WalkAll([e]) == Walk(e) + WalkAll([]);
    ColumnNamesHas(WalkAll([e]), "tag");
    assert "tag" in ReferencedColumns([e]) && TouchesLocal(e, {"tag"});
    hide TouchesLocal;
    assert [e][1..] == [];
  }

  /** A concrete LIMIT 0 scan, over a column whose values were normalised to text, that yields a row. */
  lemma ZeroLimitYieldsRow()
    ensures var row: Row := map["tag" := Text("1")];
            var local := LocalPart(ConjunctsOf(Some(TagTest())), {"tag"});
            TakeBy(Effective(Some(0), local), FilterBy(Some(TagTest()), [row], map[])) == [row]
  {
    var e, row := TagTest(), map["tag" := Text("1")];
    TagTestIsLocal();
    TagTestIsTrue();
    hide TagTest, IsTrue, LocalPart;
    assert [row][1..] == [] && FilterRows(e, [], map[]) == [];
    assert FilterRows(e, [row], map[]) == [row] + [];
  }
}
