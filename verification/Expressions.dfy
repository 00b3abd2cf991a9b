/**
 The portable expression tree, its traversals, and its meaning on a row: the value SQL assigns
 under three-valued logic, or `Fault` where SQL would reject the operand types. Every translator of
 this project is compared with `Eval`. The two facts the rest builds on are that a conjunction is
 TRUE exactly when its flattened conjuncts are, and that an expression sees only the columns it
 references.
 */
module Expressions {
  import opened Wrappers
  import opened Values
  import opened Types
  import opened LikePatterns

  datatype Lit = Lit(value: Value, dataType: DataType) {
    /** What literal construction enforces: a typed value the type can represent. */
    predicate Valid() {
      dataType.Valid() && Conforms(value, dataType) && (value.Int? ==> FitsInt64(value.i))
    }
  }

  datatype Expr =
    | Column(name: string)
    | Literal(lit: Lit)
    | Parameter(name: string)
    | Comparison(comparison: ComparisonOp, left: Expr, right: Expr)
    | And(operands: seq<Expr>)
    | Or(operands: seq<Expr>)
    | Not(operand: Expr)
    | IsNull(operand: Expr, negated: bool)
    | In(operand: Expr, values: seq<Expr>, negated: bool)
    | Like(operand: Expr, pattern: Expr, negated: bool)
    | Arithmetic(arithmetic: ArithmeticOp, left: Expr, right: Expr)
    | Alias(expression: Expr, alias: string)

  datatype Kind =
    | ColumnKind | LiteralKind | ParameterKind | ComparisonKind | AndKind | OrKind | NotKind
    | IsNullKind | InKind | LikeKind | ArithmeticKind | AliasKind

  function KindOf(e: Expr): Kind {
    match e
    case Column(_) => ColumnKind
    case Literal(_) => LiteralKind
    case Parameter(_) => ParameterKind
    case Comparison(_, _, _) => ComparisonKind
    case And(_) => AndKind
    case Or(_) => OrKind
    case Not(_) => NotKind
    case IsNull(_, _) => IsNullKind
    case In(_, _, _) => InKind
    case Like(_, _, _) => LikeKind
    case Arithmetic(_, _, _) => ArithmeticKind
    case Alias(_, _) => AliasKind
  }

  predicate Constant(e: Expr) {
    e.Literal? || e.Parameter?
  }

  /** What the node constructors enforce, at every node. */
  predicate WellFormed(e: Expr)
    decreases e, 1
  {
    match e
    case Column(n) => n != []
    case Literal(l) => l.Valid()
    case Parameter(_) => true
    case Comparison(_, l, r) => WellFormed(l) && WellFormed(r)
    case And(os) => |os| >= 2 && AllWellFormed(os)
    case Or(os) => |os| >= 2 && AllWellFormed(os)
    case Not(o) => WellFormed(o)
    case IsNull(o, _) => WellFormed(o)
    case In(o, vs, _) => WellFormed(o) && vs != [] && AllWellFormed(vs) && (forall v | v in vs :: Constant(v))
    case Like(o, p, _) => WellFormed(o) && WellFormed(p) && Constant(p)
    case Arithmetic(_, l, r) => WellFormed(l) && WellFormed(r)
    case Alias(i, n) => n != [] && !i.Alias? && WellFormed(i)
  }

  predicate AllWellFormed(es: seq<Expr>)
    decreases es, 0
  {
    es == [] || (WellFormed(es[0]) && AllWellFormed(es[1..]))
  }

  lemma {:induction false} AllWellFormedIff(es: seq<Expr>)
    ensures AllWellFormed(es) <==> forall e | e in es :: WellFormed(e)
  {
    if es != [] {
      AllWellFormedIff(es[1..]);
      assert forall e :: e in es <==> e == es[0] || e in es[1..];
      assert es[0] in es;
    }
  }

  // ---- traversal -----------------------------------------------------------------------------

  /** Every node, in pre-order. */
  function Walk(e: Expr): seq<Expr>
    decreases e, 1
  {
    [e] +
    match e
    case Column(_) => []
    case Literal(_) => []
    case Parameter(_) => []
    case Comparison(_, l, r) => Walk(l) + Walk(r)
    case And(os) => WalkAll(os)
    case Or(os) => WalkAll(os)
    case Not(o) => Walk(o)
    case IsNull(o, _) => Walk(o)
    case In(o, vs, _) => Walk(o) + WalkAll(vs)
    case Like(o, p, _) => Walk(o) + Walk(p)
    case Arithmetic(_, l, r) => Walk(l) + Walk(r)
    case Alias(i, _) => Walk(i)
  }

  function WalkAll(es: seq<Expr>): seq<Expr>
    decreases es, 0
  {
    if es == [] then [] else Walk(es[0]) + WalkAll(es[1..])
  }

  lemma {:induction false} WalkAllContains(es: seq<Expr>, e: Expr)
    requires e in es
    ensures forall n | n in Walk(e) :: n in WalkAll(es)
  {
    if e != es[0] {
      WalkAllContains(es[1..], e);
    }
  }

  lemma {:induction false} WalkAllConcat(xs: seq<Expr>, ys: seq<Expr>)
    ensures WalkAll(xs + ys) == WalkAll(xs) + WalkAll(ys)
  {
    if xs == [] {
      assert xs + ys == ys;
    } else {
      assert (xs + ys)[1..] == xs[1..] + ys;
      WalkAllConcat(xs[1..], ys);
    }
  }

  function ColumnNames(nodes: seq<Expr>): seq<string> {
    if nodes == [] then []
    else (if nodes[0].Column? then [nodes[0].name] else []) + ColumnNames(nodes[1..])
  }

  lemma {:induction false} ColumnNamesConcat(xs: seq<Expr>, ys: seq<Expr>)
    ensures ColumnNames(xs + ys) == ColumnNames(xs) + ColumnNames(ys)
  {
    if xs == [] {
      assert xs + ys == ys;
    } else {
      assert (xs + ys)[1..] == xs[1..] + ys;
      ColumnNamesConcat(xs[1..], ys);
    }
  }

  lemma {:induction false} ColumnNamesHas(nodes: seq<Expr>, c: string)
    ensures c in ColumnNames(nodes) <==> Column(c) in nodes
  {
    if nodes != [] {
      ColumnNamesHas(nodes[1..], c);
    }
  }

  /** The names in first-seen order, each once, appended to those already seen. */
  function Dedupe(seen: seq<string>, names: seq<string>): (r: seq<string>)
    ensures forall n :: n in r <==> n in seen || n in names
    ensures seen <= r
    decreases |names|
  {
    if names == [] then seen
    else if names[0] in seen then Dedupe(seen, names[1..])
    else Dedupe(seen + [names[0]], names[1..])
  }

  /** Where a name is first seen. */
  function FirstAt(names: seq<string>, n: string): (i: nat)
    ensures i <= |names| && forall k | 0 <= k < i :: names[k] != n
    ensures n in names ==> i < |names| && names[i] == n
  {
    if names == [] || names[0] == n then 0 else 1 + FirstAt(names[1..], n)
  }

  /** The names stand in the order in which `all` first mentions them; hence no name stands twice. */
  predicate FirstSeenOrder(names: seq<string>, all: seq<string>) {
    forall i, j | 0 <= i < j < |names| :: FirstAt(all, names[i]) < FirstAt(all, names[j])
  }

  lemma {:induction false} DedupeKeepsOrder(seen: seq<string>, all: seq<string>, k: nat)
    requires k <= |all| && FirstSeenOrder(seen, all) && forall n :: n in seen <==> n in all[..k]
    ensures FirstSeenOrder(Dedupe(seen, all[k..]), all)
    decreases |all| - k
  {
    if k < |all| {
      var names, n := all[k..], all[k];
      assert names[0] == n && names[1..] == all[k + 1..] && all[..k + 1] == all[..k] + [n];
      if n in seen {
        DedupeKeepsOrder(seen, all, k + 1);
      } else {
        assert FirstAt(all, n) == k;
        assert forall m | m in seen :: FirstAt(all, m) < k;
        DedupeKeepsOrder(seen + [n], all, k + 1);
      }
    }
  }

  /** Column names the expressions reference, in first-seen order, each once. */
  function ReferencedColumns(es: seq<Expr>): (names: seq<string>)
    ensures forall c :: c in names <==> c in ColumnNames(WalkAll(es))
    ensures FirstSeenOrder(names, ColumnNames(WalkAll(es)))
  {
    var all := ColumnNames(WalkAll(es));
    DedupeKeepsOrder([], all, 0);
    assert all[0..] == all;
    Dedupe([], all)
  }

  lemma {:induction false} DedupeConcat(seen: seq<string>, xs: seq<string>, ys: seq<string>)
    ensures Dedupe(seen, xs + ys) == Dedupe(Dedupe(seen, xs), ys)
    decreases |xs|
  {
    if xs == [] {
      assert xs + ys == ys;
    } else {
      assert (xs + ys)[1..] == xs[1..] + ys;
      DedupeConcat(if xs[0] in seen then seen else seen + [xs[0]], xs[1..], ys);
    }
  }

  lemma {:induction false} DedupeAddsNothing(seen: seq<string>, names: seq<string>)
    ensures Dedupe(seen, names) == seen <==> forall n | n in names :: n in seen
    decreases |names|
  {
    if names != [] {
      DedupeAddsNothing(if names[0] in seen then seen else seen + [names[0]], names[1..]);
    }
  }

  // ---- conjunctions ----------------------------------------------------------------------------

  /** Nested AND flattened into its conjuncts. */
  function Conjuncts(e: Expr): seq<Expr>
    decreases e, 1
  {
    if e.And? then ConjunctsAll(e.operands) else [e]
  }

  function ConjunctsAll(es: seq<Expr>): seq<Expr>
    decreases es, 0
  {
    if es == [] then [] else Conjuncts(es[0]) + ConjunctsAll(es[1..])
  }

  function ConjunctsOf(e: Option<Expr>): seq<Expr> {
    if e.None? then [] else Conjuncts(e.value)
  }

  function AndAll(es: seq<Expr>): Option<Expr> {
    if |es| == 0 then None else if |es| == 1 then Some(es[0]) else Some(And(es))
  }

  predicate NoneIsAnd(es: seq<Expr>) {
    forall e | e in es :: !e.And?
  }

  lemma {:induction false} ConjunctsAreNotAnds(e: Expr)
    ensures NoneIsAnd(Conjuncts(e))
    decreases e, 1
  {
    if e.And? {
      ConjunctsAllAreNotAnds(e.operands);
    }
  }

  lemma {:induction false} ConjunctsAllAreNotAnds(es: seq<Expr>)
    ensures NoneIsAnd(ConjunctsAll(es))
    decreases es, 0
  {
    if es != [] {
      ConjunctsAreNotAnds(es[0]);
      ConjunctsAllAreNotAnds(es[1..]);
    }
  }

  lemma {:induction false} ConjunctsAllOfClauses(es: seq<Expr>)
    requires NoneIsAnd(es)
    ensures ConjunctsAll(es) == es
  {
    if es != [] {
      ConjunctsAllOfClauses(es[1..]);
      assert es == [es[0]] + es[1..];
    }
  }

  /** Conjoining clauses and flattening the result gives the clauses back. */
  lemma ConjunctsOfAndAll(es: seq<Expr>)
    requires NoneIsAnd(es)
    ensures ConjunctsOf(AndAll(es)) == es
  {
    if |es| > 1 {
      ConjunctsAllOfClauses(es);
    }
  }

  lemma {:induction false} WellFormedHasConjuncts(e: Expr)
    requires WellFormed(e)
    ensures Conjuncts(e) != []
    decreases e
  {
    if e.And? {
      WellFormedHasConjuncts(e.operands[0]);
    }
  }

  lemma ClausesWellFormed(e: Expr)
    requires WellFormed(e)
    ensures forall c | c in Conjuncts(e) :: WellFormed(c)
    decreases e, 1
  {
    if e.And? {
      AllClausesWellFormed(e.operands);
    }
  }

  lemma AllClausesWellFormed(es: seq<Expr>)
    requires AllWellFormed(es)
    ensures forall c | c in ConjunctsAll(es) :: WellFormed(c)
    decreases es, 0
  {
    if es != [] {
      ClausesWellFormed(es[0]);
      AllClausesWellFormed(es[1..]);
    }
  }

  /** Every node of a conjunct is a node of the whole predicate. */
  lemma {:induction false} ConjunctWalks(e: Expr, c: Expr)
    requires c in Conjuncts(e)
    ensures forall n | n in Walk(c) :: n in Walk(e)
    decreases e, 1
  {
    if e.And? {
      ConjunctAllWalks(e.operands, c);
    }
  }

  lemma {:induction false} ConjunctAllWalks(es: seq<Expr>, c: Expr)
    requires c in ConjunctsAll(es)
    ensures forall n | n in Walk(c) :: n in WalkAll(es)
    decreases es, 0
  {
    if c in Conjuncts(es[0]) {
      ConjunctWalks(es[0], c);
    } else {
      ConjunctAllWalks(es[1..], c);
    }
  }

  /** A column of a predicate is a column of one of its conjuncts. */
  lemma {:induction false} ColumnInConjunct(e: Expr, n: Expr)
    requires n in Walk(e) && n.Column?
    ensures exists c :: c in Conjuncts(e) && n in Walk(c)
    decreases e, 1
  {
    if e.And? {
      ColumnInConjuncts(e.operands, n);
    } else {
      assert e in Conjuncts(e);
    }
  }

  lemma {:induction false} ColumnInConjuncts(es: seq<Expr>, n: Expr)
    requires n in WalkAll(es) && n.Column?
    ensures exists c :: c in ConjunctsAll(es) && n in Walk(c)
    decreases es, 0
  {
    if n in Walk(es[0]) {
      ColumnInConjunct(es[0], n);
    } else {
      ColumnInConjuncts(es[1..], n);
    }
  }

  // ---- output names --------------------------------------------------------------------------------

  function OutputName(e: Expr): string
    requires e.Column? || e.Alias?
  {
    if e.Alias? then e.alias else e.name
  }

  // ---- meaning ---------------------------------------------------------------------------------------

  type Row = map<string, Value>
  type Params = map<string, Lit>

  /** What parameter binding hands over: each supplied literal is valid. */
  predicate ValidParams(params: Params) {
    forall n | n in params :: params[n].Valid()
  }

  /** Every parameter among the nodes was supplied. */
  predicate Supplied(nodes: seq<Expr>, params: Params) {
    forall n | n in nodes && n.Parameter? :: n.name in params
  }

  function Lookup(row: Row, c: string): Value {
    if c in row then row[c] else Fault
  }

  function LikeValue(v: Value, p: Value): Value {
    if (!v.Null? && !v.Text?) || (!p.Null? && !p.Text?) then Fault
    else if v.Null? || p.Null? then Null
    else Bool(LikeMatch(p.s, v.s))
  }

  function Negate(v: Value, negated: bool): Value {
    if negated then Not3(v) else v
  }

  function Eval(e: Expr, row: Row, params: Params): Value
    decreases e, 1
  {
    match e
    case Column(n) => Lookup(row, n)
    case Literal(l) => l.value
    case Parameter(n) => if n in params then params[n].value else Fault
    case Comparison(op, l, r) => Relate(op, Eval(l, row, params), Eval(r, row, params))
    case And(os) => AllOf(EvalAll(os, row, params))
    case Or(os) => AnyOf(EvalAll(os, row, params))
    case Not(o) => Not3(Eval(o, row, params))
    case IsNull(o, negated) =>
      var v := Eval(o, row, params);
      if v.Fault? then Fault else Bool(v.Null? != negated)
    case In(o, vs, negated) => Negate(Member3(Eval(o, row, params), EvalAll(vs, row, params)), negated)
    case Like(o, p, negated) => Negate(LikeValue(Eval(o, row, params), Eval(p, row, params)), negated)
    case Arithmetic(op, l, r) => Calculate(op, Eval(l, row, params), Eval(r, row, params))
    case Alias(i, _) => Eval(i, row, params)
  }

  function EvalAll(es: seq<Expr>, row: Row, params: Params): (vs: seq<Value>)
    ensures |vs| == |es|
    decreases es, 0
  {
    if es == [] then [] else [Eval(es[0], row, params)] + EvalAll(es[1..], row, params)
  }

  predicate IsTrue(e: Expr, row: Row, params: Params) {
    Eval(e, row, params) == TRUE
  }

  lemma {:induction false} EvalAllAt(es: seq<Expr>, row: Row, params: Params, i: nat)
    requires i < |es|
    ensures EvalAll(es, row, params)[i] == Eval(es[i], row, params)
  {
    if i > 0 {
      EvalAllAt(es[1..], row, params, i - 1);
    }
  }

  /** A conjunction is TRUE exactly when each of its flattened conjuncts is. */
  lemma {:induction false} TrueIffConjunctsTrue(e: Expr, row: Row, params: Params)
    ensures IsTrue(e, row, params) <==> forall c | c in Conjuncts(e) :: IsTrue(c, row, params)
    decreases e, 1
  {
    if e.And? {
      AllTrueIffConjunctsTrue(e.operands, row, params);
    }
  }

  lemma {:induction false} AllTrueIffConjunctsTrue(es: seq<Expr>, row: Row, params: Params)
    ensures AllOf(EvalAll(es, row, params)) == TRUE <==> forall c | c in ConjunctsAll(es) :: IsTrue(c, row, params)
    decreases es, 0
  {
    if es != [] {
      TrueIffConjunctsTrue(es[0], row, params);
      AllTrueIffConjunctsTrue(es[1..], row, params);
      assert EvalAll(es, row, params)[1..] == EvalAll(es[1..], row, params);
    }
  }

  /** Where a predicate is not stuck, none of its conjuncts is. */
  lemma {:induction false} ConjunctsDefined(e: Expr, row: Row, params: Params)
    requires !Eval(e, row, params).Fault?
    ensures forall c | c in Conjuncts(e) :: !Eval(c, row, params).Fault?
    decreases e, 1
  {
    if e.And? {
      AllConjunctsDefined(e.operands, row, params);
    }
  }

  lemma {:induction false} AllConjunctsDefined(es: seq<Expr>, row: Row, params: Params)
    requires !AllOf(EvalAll(es, row, params)).Fault?
    ensures forall c | c in ConjunctsAll(es) :: !Eval(c, row, params).Fault?
    decreases es, 0
  {
    if es != [] {
      ConjunctsDefined(es[0], row, params);
      AllConjunctsDefined(es[1..], row, params);
      assert EvalAll(es, row, params)[1..] == EvalAll(es[1..], row, params);
    }
  }

  // ---- column footprint --------------------------------------------------------------------------------

  /** The rows agree on every column among the nodes. */
  ghost predicate AgreeOn(nodes: seq<Expr>, r: Row, s: Row) {
    forall n | n in nodes && n.Column? :: Lookup(r, n.name) == Lookup(s, n.name)
  }

  /** An expression sees only the columns it references. */
  lemma {:induction false} EvalFootprint(e: Expr, r: Row, s: Row, params: Params)
    requires AgreeOn(Walk(e), r, s)
    ensures Eval(e, r, params) == Eval(e, s, params)
    decreases e, 1
  {
    match e
    case Column(_) => assert e in Walk(e);
    case Literal(_) =>
    case Parameter(_) =>
    case Comparison(_, l, x) => EvalFootprint(l, r, s, params); EvalFootprint(x, r, s, params);
    case And(os) => EvalAllFootprint(os, r, s, params);
    case Or(os) => EvalAllFootprint(os, r, s, params);
    case Not(o) => EvalFootprint(o, r, s, params);
    case IsNull(o, _) => EvalFootprint(o, r, s, params);
    case In(o, vs, _) => EvalFootprint(o, r, s, params); EvalAllFootprint(vs, r, s, params);
    case Like(o, p, _) => EvalFootprint(o, r, s, params); EvalFootprint(p, r, s, params);
    case Arithmetic(_, l, x) => EvalFootprint(l, r, s, params); EvalFootprint(x, r, s, params);
    case Alias(i, _) => EvalFootprint(i, r, s, params);
  }

  lemma {:induction false} EvalAllFootprint(es: seq<Expr>, r: Row, s: Row, params: Params)
    requires AgreeOn(WalkAll(es), r, s)
    ensures EvalAll(es, r, params) == EvalAll(es, s, params)
    decreases es, 0
  {
    if es != [] {
      EvalFootprint(es[0], r, s, params);
      EvalAllFootprint(es[1..], r, s, params);
    }
  }

  // ---- parameter substitution ----------------------------------------------------------------------------

  /** A copy with parameters replaced by literals; fails with the first missing name. */
  function Substitute(e: Expr, params: Params): Result<Expr, string>
    decreases e, 1
  {
    match e
    case Parameter(n) => if n in params then Success(Literal(params[n])) else Failure(n)
    case Comparison(op, l, r) =>
      var l' :- Substitute(l, params);
      var r' :- Substitute(r, params);
      Success(Comparison(op, l', r'))
    case And(os) =>
      var os' :- SubstituteAll(os, params);
      Success(And(os'))
    case Or(os) =>
      var os' :- SubstituteAll(os, params);
      Success(Or(os'))
    case Not(o) =>
      var o' :- Substitute(o, params);
      Success(Not(o'))
    case IsNull(o, negated) =>
      var o' :- Substitute(o, params);
      Success(IsNull(o', negated))
    case In(o, vs, negated) =>
      var o' :- Substitute(o, params);
      var vs' :- SubstituteAll(vs, params);
      Success(In(o', vs', negated))
    case Like(o, p, negated) =>
      var o' :- Substitute(o, params);
      var p' :- Substitute(p, params);
      Success(Like(o', p', negated))
    case Arithmetic(op, l, r) =>
      var l' :- Substitute(l, params);
      var r' :- Substitute(r, params);
      Success(Arithmetic(op, l', r'))
    case Alias(i, n) =>
      var i' :- Substitute(i, params);
      Success(Alias(i', n))
    case _ => Success(e)
  }

  function SubstituteAll(es: seq<Expr>, params: Params): (r: Result<seq<Expr>, string>)
    ensures r.Success? ==> |r.value| == |es|
    decreases es, 0
  {
    if es == [] then Success([])
    else
      var e' :- Substitute(es[0], params);
      var es' :- SubstituteAll(es[1..], params);
      Success([e'] + es')
  }

  /** Substituted parameters mean what bound parameters mean, and none is left. */
  lemma {:induction false} SubstituteKeepsMeaning(e: Expr, params: Params, row: Row, rest: Params)
    requires Substitute(e, params).Success?
    ensures Eval(Substitute(e, params).value, row, rest) == Eval(e, row, params)
    decreases e, 1
  {
    match e
    case Comparison(_, l, r) =>
      SubstituteKeepsMeaning(l, params, row, rest);
      SubstituteKeepsMeaning(r, params, row, rest);
    case And(os) => SubstituteAllKeepsMeaning(os, params, row, rest);
    case Or(os) => SubstituteAllKeepsMeaning(os, params, row, rest);
    case Not(o) => SubstituteKeepsMeaning(o, params, row, rest);
    case IsNull(o, _) => SubstituteKeepsMeaning(o, params, row, rest);
    case In(o, vs, _) =>
      SubstituteKeepsMeaning(o, params, row, rest);
      SubstituteAllKeepsMeaning(vs, params, row, rest);
    case Like(o, p, _) =>
      SubstituteKeepsMeaning(o, params, row, rest);
      SubstituteKeepsMeaning(p, params, row, rest);
    case Arithmetic(_, l, r) =>
      SubstituteKeepsMeaning(l, params, row, rest);
      SubstituteKeepsMeaning(r, params, row, rest);
    case Alias(i, _) => SubstituteKeepsMeaning(i, params, row, rest);
    case _ =>
  }

  lemma {:induction false} SubstituteAllKeepsMeaning(es: seq<Expr>, params: Params, row: Row, rest: Params)
    requires SubstituteAll(es, params).Success?
    ensures EvalAll(SubstituteAll(es, params).value, row, rest) == EvalAll(es, row, params)
    decreases es, 0
  {
    if es != [] {
      SubstituteKeepsMeaning(es[0], params, row, rest);
      SubstituteAllKeepsMeaning(es[1..], params, row, rest);
      var e' := Substitute(es[0], params).value;
      var es' := SubstituteAll(es[1..], params).value;
      assert ([e'] + es')[1..] == es';
    }
  }

  /** Substitution keeps what the node constructors enforce, and makes constants literals. */
  lemma {:induction false} SubstituteKeepsForm(e: Expr, params: Params)
    requires WellFormed(e) && ValidParams(params) && Substitute(e, params).Success?
    ensures WellFormed(Substitute(e, params).value)
    ensures Constant(e) ==> Substitute(e, params).value.Literal?
    ensures e.Alias? <==> Substitute(e, params).value.Alias?
    decreases e, 1
  {
    match e
    case Comparison(_, l, r) => SubstituteKeepsForm(l, params); SubstituteKeepsForm(r, params);
    case And(os) => SubstituteAllKeepsForm(os, params);
    case Or(os) => SubstituteAllKeepsForm(os, params);
    case Not(o) => SubstituteKeepsForm(o, params);
    case IsNull(o, _) => SubstituteKeepsForm(o, params);
    case In(o, vs, _) => SubstituteKeepsForm(o, params); SubstituteAllKeepsForm(vs, params);
    case Like(o, p, _) => SubstituteKeepsForm(o, params); SubstituteKeepsForm(p, params);
    case Arithmetic(_, l, r) => SubstituteKeepsForm(l, params); SubstituteKeepsForm(r, params);
    case Alias(i, _) => SubstituteKeepsForm(i, params);
    case _ =>
  }

  lemma {:induction false} SubstituteAllKeepsForm(es: seq<Expr>, params: Params)
    requires AllWellFormed(es) && ValidParams(params) && SubstituteAll(es, params).Success?
    ensures AllWellFormed(SubstituteAll(es, params).value)
    ensures (forall e | e in es :: Constant(e)) ==> forall e | e in SubstituteAll(es, params).value :: e.Literal?
    decreases es, 0
  {
    if es != [] {
      SubstituteKeepsForm(es[0], params);
      SubstituteAllKeepsForm(es[1..], params);
      var rest := SubstituteAll(es[1..], params).value;
      assert SubstituteAll(es, params).value[1..] == rest;
      assert es[0] in es && forall e | e in es[1..] :: e in es;
    }
  }

  /** Substitution fails exactly when a referenced parameter was not supplied. */
  lemma {:induction false} SubstituteSucceedsIff(e: Expr, params: Params)
    ensures Substitute(e, params).Success? <==> Supplied(Walk(e), params)
    decreases e, 1
  {
    match e
    case Comparison(_, l, r) => SubstituteSucceedsIff(l, params); SubstituteSucceedsIff(r, params);
    case And(os) => SubstituteAllSucceedsIff(os, params);
    case Or(os) => SubstituteAllSucceedsIff(os, params);
    case Not(o) => SubstituteSucceedsIff(o, params);
    case IsNull(o, _) => SubstituteSucceedsIff(o, params);
    case In(o, vs, _) => SubstituteSucceedsIff(o, params); SubstituteAllSucceedsIff(vs, params);
    case Like(o, p, _) => SubstituteSucceedsIff(o, params); SubstituteSucceedsIff(p, params);
    case Arithmetic(_, l, r) => SubstituteSucceedsIff(l, params); SubstituteSucceedsIff(r, params);
    case Alias(i, _) => SubstituteSucceedsIff(i, params);
    case Parameter(_) => assert e in Walk(e);
    case _ =>
  }

  lemma {:induction false} SubstituteAllSucceedsIff(es: seq<Expr>, params: Params)
    ensures SubstituteAll(es, params).Success? <==> Supplied(WalkAll(es), params)
    decreases es, 0
  {
    if es != [] {
      SubstituteSucceedsIff(es[0], params);
      SubstituteAllSucceedsIff(es[1..], params);
    }
  }

  /** Substitution adds no column. */
  lemma {:induction false} SubstituteKeepsColumns(e: Expr, params: Params)
    requires Substitute(e, params).Success?
    ensures forall n | n in Walk(Substitute(e, params).value) && n.Column? :: n in Walk(e)
    decreases e, 1
  {
    match e
    case Comparison(_, l, r) => SubstituteKeepsColumns(l, params); SubstituteKeepsColumns(r, params);
    case And(os) => SubstituteAllKeepsColumns(os, params);
    case Or(os) => SubstituteAllKeepsColumns(os, params);
    case Not(o) => SubstituteKeepsColumns(o, params);
    case IsNull(o, _) => SubstituteKeepsColumns(o, params);
    case In(o, vs, _) => SubstituteKeepsColumns(o, params); SubstituteAllKeepsColumns(vs, params);
    case Like(o, p, _) => SubstituteKeepsColumns(o, params); SubstituteKeepsColumns(p, params);
    case Arithmetic(_, l, r) => SubstituteKeepsColumns(l, params); SubstituteKeepsColumns(r, params);
    case Alias(i, _) => SubstituteKeepsColumns(i, params);
    case _ =>
  }

  lemma {:induction false} SubstituteAllKeepsColumns(es: seq<Expr>, params: Params)
    requires SubstituteAll(es, params).Success?
    ensures forall n | n in WalkAll(SubstituteAll(es, params).value) && n.Column? :: n in WalkAll(es)
    decreases es, 0
  {
    if es != [] {
      SubstituteKeepsColumns(es[0], params);
      SubstituteAllKeepsColumns(es[1..], params);
      var all, rest := SubstituteAll(es, params).value, SubstituteAll(es[1..], params).value;
      assert all[0] == Substitute(es[0], params).value && all[1..] == rest;
    }
  }
}
