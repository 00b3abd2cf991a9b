/**
 The Delta Lake reader: a pushed predicate becomes an Arrow dataset filter that keeps three-valued
 logic, with IN rebuilt from a membership kernel that has none.
 */
module Delta {
  import opened Wrappers
  import opened Values
  import opened Types
  import opened Expressions
  import opened Plans
  import opened Execution
  import opened Streams

  // ---- Arrow expressions ---------------------------------------------------------------------------

  datatype Arrow =
    | Field(column: string)
    | Constant'(value: Value)
    | Compared(op: ComparisonOp, left: Arrow, right: Arrow)
    | AndKleene(left: Arrow, right: Arrow)
    | OrKleene(left: Arrow, right: Arrow)
    | Invert(operand: Arrow)
    | IsValid(operand: Arrow)
    | IsNullTest(operand: Arrow)
    | IsIn(operand: Arrow, members: seq<Value>)
    | IfElse(condition: Arrow, yes: Arrow, no: Arrow)

  predicate EqualsAny(x: Value, members: seq<Value>) {
    exists v :: v in members && Compare(x, v).Equal?
  }

  /** The membership kernel is two-valued: a NULL operand is simply not a member. */
  function MemberOf(x: Value, members: seq<Value>): Value {
    if x.Fault? then Fault else Bool(EqualsAny(x, members))
  }

  function Compute(a: Arrow, row: Row): Value {
    match a
    case Field(c) => Lookup(row, c)
    case Constant'(v) => v
    case Compared(op, l, r) => Relate(op, Compute(l, row), Compute(r, row))
    case AndKleene(l, r) => And3(Compute(l, row), Compute(r, row))
    case OrKleene(l, r) => Or3(Compute(l, row), Compute(r, row))
    case Invert(o) => Not3(Compute(o, row))
    case IsValid(o) => var v := Compute(o, row); if v.Fault? then Fault else Bool(!v.Null?)
    case IsNullTest(o) => var v := Compute(o, row); if v.Fault? then Fault else Bool(v.Null?)
    case IsIn(o, vs) => MemberOf(Compute(o, row), vs)
    case IfElse(c, y, n) =>
      var v := Compute(c, row);
      if !v.Truth() then Fault else if v.Null? then Null else if v.b then Compute(y, row) else Compute(n, row)
  }

  // ---- scalars ---------------------------------------------------------------------------------------

  /** A typed Arrow scalar; Arrow types go by the portable types that map to them. */
  datatype Scalar = Scalar(value: Value, dataType: DataType)

  /** The dataset schema, and whether Arrow can build one array of the given values. */
  datatype Dataset = Dataset(schema: map<string, DataType>, arrayBuilds: seq<Value> -> bool)

  predicate ShouldCast(v: Value, target: DataType) {
    match v
    case Int(_) => target.DecimalType?
    case Decimal(_, _) => target.DecimalType?
    case Opaque(Timestamp, _) => target.TimestampType?
    case _ => false
  }

  /** A lossless conversion to the target type; None where Arrow refuses it. */
  function Cast(v: Value, target: DataType): Option<Value>
    requires ShouldCast(v, target)
  {
    if v.Opaque? then Some(v)
    else if Scale(v) <= target.scale && FitsDigits(Rescale(Unscaled(v), Scale(v), target.scale), target.precision) then
      Some(Decimal(Rescale(Unscaled(v), Scale(v), target.scale), target.scale))
    else None
  }

  function ScalarOf(lit: Lit, target: Option<DataType>): Scalar {
    if lit.value.Null? then Scalar(Null, target.GetOr(NullType))
    else if target.Some? && ShouldCast(lit.value, target.value) && Cast(lit.value, target.value).Some? then
      Scalar(Cast(lit.value, target.value).value, target.value)
    else Scalar(lit.value, lit.dataType)
  }

  lemma ScalarIsLiteral(lit: Lit, target: Option<DataType>)
    ensures SameValue(ScalarOf(lit, target).value, lit.value)
  {
    var v := lit.value;
    if target.Some? && ShouldCast(v, target.value) && !v.Opaque? && Scale(v) <= target.value.scale {
      RescaledIsSame(Unscaled(v), Scale(v), target.value.scale);
      assert v.Int? ==> Pow10(0) == 1;
      hide Pow10, Rescale;
    }
  }

  // ---- translation -------------------------------------------------------------------------------------

  datatype DeltaError = MissingParameter(name: string) | NotTranslatable

  function TypeOf(e: Expr, d: Dataset): Option<DataType> {
    if e.Column? && e.name in d.schema then Some(d.schema[e.name]) else None
  }

  function ScalarsOf(es: seq<Expr>, target: Option<DataType>): (r: Result<seq<Scalar>, DeltaError>)
    ensures r.Success? ==> |r.value| == |es|
  {
    if es == [] then Success([])
    else if es[0].Parameter? then Failure(MissingParameter(es[0].name))
    else if !es[0].Literal? then Failure(NotTranslatable)
    else
      var rest :- ScalarsOf(es[1..], target);
      Success([ScalarOf(es[0].lit, target)] + rest)
  }

  function PresentOf(ss: seq<Scalar>): seq<Scalar> {
    if ss == [] then [] else (if ss[0].value.Null? then [] else [ss[0]]) + PresentOf(ss[1..])
  }

  function ValuesOf(ss: seq<Scalar>): (vs: seq<Value>)
    ensures |vs| == |ss|
  {
    if ss == [] then [] else [ss[0].value] + ValuesOf(ss[1..])
  }

  /** One array of the members, when they share a type. */
  function ValueSet(present: seq<Scalar>, d: Dataset): Option<seq<Value>> {
    if present == [] then None
    else if exists s :: s in present && s.dataType != present[0].dataType then None
    else if d.arrayBuilds(ValuesOf(present)) then Some(ValuesOf(present)) else None
  }

  /** `x = v0 OR x = v1 OR ...`, nested to the left onto what came before. */
  function Chain(sofar: Arrow, operand: Arrow, ss: seq<Scalar>): Arrow
    decreases |ss|
  {
    if ss == [] then sofar
    else Chain(OrKleene(sofar, Compared(EQ, operand, Constant'(ss[0].value))), operand, ss[1..])
  }

  function Rebuilt(operand: Arrow, ss: seq<Scalar>, d: Dataset): Arrow {
    var present := PresentOf(ss);
    var members := ValueSet(present, d);
    if members.None? then
      if ss == [] then Constant'(Null)
      else Chain(Compared(EQ, operand, Constant'(ss[0].value)), operand, ss[1..])
    else if |present| < |ss| then IfElse(IsIn(operand, members.value), Constant'(TRUE), Constant'(Null))
    else IfElse(IsValid(operand), IsIn(operand, members.value), Constant'(Null))
  }

  function Membership(operand: Arrow, ss: seq<Scalar>, negated: bool, d: Dataset): Arrow {
    if negated then Invert(Rebuilt(operand, ss, d)) else Rebuilt(operand, ss, d)
  }

  function Translate(e: Expr, d: Dataset): Result<Arrow, DeltaError>
    decreases e, 1
  {
    match e
    case Column(c) => Success(Field(c))
    case Literal(l) => Success(Constant'(ScalarOf(l, None).value))
    case Parameter(n) => Failure(MissingParameter(n))
    case Comparison(op, l, r) =>
      if l.Column? && r.Literal? then
        Success(Compared(op, Field(l.name), Constant'(ScalarOf(r.lit, TypeOf(l, d)).value)))
      else if l.Literal? && r.Column? then
        Success(Compared(op, Constant'(ScalarOf(l.lit, TypeOf(r, d)).value), Field(r.name)))
      else
        var left :- Translate(l, d);
        var right :- Translate(r, d);
        Success(Compared(op, left, right))
    case And(os) => FoldAll(os, true, d)
    case Or(os) => FoldAll(os, false, d)
    case Not(o) =>
      var operand :- Translate(o, d);
      Success(Invert(operand))
    case IsNull(o, negated) =>
      var operand :- Translate(o, d);
      Success(if negated then IsValid(operand) else IsNullTest(operand))
    case In(o, vs, negated) =>
      var operand :- Translate(o, d);
      var ss :- ScalarsOf(vs, TypeOf(o, d));
      Success(Membership(operand, ss, negated, d))
    case _ => Failure(NotTranslatable)
  }

  /** The operands folded from the left by one Kleene connective. */
  function FoldAll(es: seq<Expr>, conjunction: bool, d: Dataset): Result<Arrow, DeltaError>
    decreases es, 0
  {
    if es == [] then Failure(NotTranslatable)
    else
      var first :- Translate(es[0], d);
      Fold(first, es[1..], conjunction, d)
  }

  function Fold(sofar: Arrow, es: seq<Expr>, conjunction: bool, d: Dataset): Result<Arrow, DeltaError>
    decreases es, 0
  {
    if es == [] then Success(sofar)
    else
      var next :- Translate(es[0], d);
      Fold(if conjunction then AndKleene(sofar, next) else OrKleene(sofar, next), es[1..], conjunction, d)
  }

  // ---- the translated predicate has the same truth value ------------------------------------------------

  function Join3(a: Value, b: Value, conjunction: bool): Value {
    if conjunction then And3(a, b) else Or3(a, b)
  }

  function JoinOf(vs: seq<Value>, conjunction: bool): Value {
    if conjunction then AllOf(vs) else AnyOf(vs)
  }

  lemma Join3Associates(a: Value, b: Value, c: Value, conjunction: bool)
    ensures Join3(Join3(a, b, conjunction), c, conjunction) == Join3(a, Join3(b, c, conjunction), conjunction)
  {
  }

  lemma {:induction false} ChainIsMembership(sofar: Arrow, operand: Arrow, ss: seq<Scalar>, row: Row)
    requires Compute(sofar, row).Truth()
    ensures Compute(Chain(sofar, operand, ss), row)
            == Or3(Compute(sofar, row), Member3(Compute(operand, row), ValuesOf(ss)))
    decreases |ss|
  {
    hide Relate;
    if ss != [] {
      var test := Compared(EQ, operand, Constant'(ss[0].value));
      var grown, x := OrKleene(sofar, test), Compute(operand, row);
      assert Compute(test, row) == Relate(EQ, x, ss[0].value);
      Join3Associates(Compute(sofar, row), Compute(test, row), Member3(x, ValuesOf(ss[1..])), false);
      if Compute(test, row).Truth() {
        ChainIsMembership(grown, operand, ss[1..], row);
      } else {
        assert Compute(grown, row).Fault?;
        FaultyChain(grown, operand, ss[1..], row);
      }
    }
  }

  lemma {:induction false} FaultyChain(sofar: Arrow, operand: Arrow, ss: seq<Scalar>, row: Row)
    requires Compute(sofar, row).Fault?
    ensures Compute(Chain(sofar, operand, ss), row).Fault?
    decreases |ss|
  {
    if ss != [] {
      FaultyChain(OrKleene(sofar, Compared(EQ, operand, Constant'(ss[0].value))), operand, ss[1..], row);
    }
  }

  /** The scalars carry the values the literals denote, and a NULL literal is a NULL scalar. */
  lemma {:induction false} ScalarsCarryValues(es: seq<Expr>, target: Option<DataType>, row: Row)
    requires ScalarsOf(es, target).Success?
    ensures var vs, ss := EvalAll(es, row, map[]), ScalarsOf(es, target).value;
            forall i | 0 <= i < |es| :: SameValue(ValuesOf(ss)[i], vs[i])
  {
    hide SameValue;
    if es != [] {
      ScalarIsLiteral(es[0].lit, target);
      ScalarsCarryValues(es[1..], target, row);
      var vs, ss := EvalAll(es, row, map[]), ScalarsOf(es, target).value;
      assert vs[1..] == EvalAll(es[1..], row, map[]) && ss[1..] == ScalarsOf(es[1..], target).value;
      assert ValuesOf(ss)[1..] == ValuesOf(ss[1..]);
      forall i | 1 <= i < |es|
        ensures SameValue(ValuesOf(ss)[i], vs[i])
      {
        assert SameValue(ValuesOf(ss[1..])[i - 1], vs[1..][i - 1]);
      }
    }
  }

  lemma {:induction false} SameMembership(x: Value, y: Value, vs: seq<Value>, ws: seq<Value>)
    requires SameValue(x, y) && |vs| == |ws| && forall i | 0 <= i < |vs| :: SameValue(vs[i], ws[i])
    ensures Member3(x, vs) == Member3(y, ws)
  {
    hide Relate, SameValue;
    if vs != [] {
      SameValuesRelateSame(EQ, x, vs[0], y, ws[0]);
      SameMembership(x, y, vs[1..], ws[1..]);
    }
  }

  lemma {:induction false} PresentAreNonNull(ss: seq<Scalar>)
    ensures forall v :: v in ValuesOf(PresentOf(ss)) <==> v in ValuesOf(ss) && !v.Null?
    ensures |PresentOf(ss)| <= |ss|
    ensures |PresentOf(ss)| < |ss| <==> Null in ValuesOf(ss)
  {
    if ss != [] {
      PresentAreNonNull(ss[1..]);
      var rest := PresentOf(ss[1..]);
      assert forall v :: v in ValuesOf(ss) <==> v == ss[0].value || v in ValuesOf(ss[1..]);
      if ss[0].value.Null? {
        assert PresentOf(ss) == rest;
      } else {
        assert PresentOf(ss)[0] == ss[0] && PresentOf(ss)[1..] == rest;
        assert forall v :: v in ValuesOf(PresentOf(ss)) <==> v == ss[0].value || v in ValuesOf(rest);
      }
    }
  }

  /** Membership with its NULL rules, spelled out. */
  lemma {:induction false} MemberByCases(x: Value, vs: seq<Value>)
    requires vs != [] && !Member3(x, vs).Fault?
    ensures !x.Fault? && (x.Null? ==> Member3(x, vs).Null?)
    ensures x.Present() ==>
              Member3(x, vs) == if EqualsAny(x, vs) then TRUE else if Null in vs then Null else FALSE
  {
    hide Compare;
    var first, rest := vs[0], vs[1..];
    assert forall v :: v in vs <==> v == first || v in rest;
    assert first.Null? ==> Compare(x, first).Incomparable? by { NullIsIncomparable(x); }
    if rest != [] {
      MemberByCases(x, rest);
    }
  }

  lemma NullIsIncomparable(x: Value)
    ensures Compare(x, Null).Incomparable?
  {
  }

  /** Every branch of the rebuilt IN gives SQL's value: NULL operand, NULL member, match or none. */
  lemma RebuiltIsMember(operand: Arrow, ss: seq<Scalar>, d: Dataset, row: Row)
    requires ss != [] && !Member3(Compute(operand, row), ValuesOf(ss)).Fault?
    ensures Compute(Rebuilt(operand, ss, d), row) == Member3(Compute(operand, row), ValuesOf(ss))
  {
    var x, present, vs := Compute(operand, row), PresentOf(ss), ValuesOf(ss);
    assert vs[0] == ss[0].value && vs[1..] == ValuesOf(ss[1..]);
    if ValueSet(present, d).None? {
      var first := Compared(EQ, operand, Constant'(ss[0].value));
      assert Compute(first, row) == Relate(EQ, x, vs[0]);
      hide Relate;
      ChainIsMembership(first, operand, ss[1..], row);
    } else {
      SetIsMember(operand, ss, d, row);
    }
  }

  lemma SetIsMember(operand: Arrow, ss: seq<Scalar>, d: Dataset, row: Row)
    requires ss != [] && !Member3(Compute(operand, row), ValuesOf(ss)).Fault?
    requires ValueSet(PresentOf(ss), d).Some?
    ensures Compute(Rebuilt(operand, ss, d), row) == Member3(Compute(operand, row), ValuesOf(ss))
  {
    hide Member3, Compare, MemberOf, ValuesOf, PresentOf, ValueSet, EqualsAny;
    var x, present, vs := Compute(operand, row), PresentOf(ss), ValuesOf(ss);
    var members := ValueSet(present, d).value;
    ValueSetHolds(present, d);
    PresentAreNonNull(ss);
    MemberByCases(x, vs);
    SetMembership(x, members, vs);
    var test := IsIn(operand, members);
    assert Compute(test, row) == MemberOf(x, members);
    assert Compute(IsValid(operand), row) == Bool(!x.Null?);
  }

  lemma ValueSetHolds(present: seq<Scalar>, d: Dataset)
    requires ValueSet(present, d).Some?
    ensures ValueSet(present, d).value == ValuesOf(present)
  {
  }

  lemma MembershipIsMember(operand: Arrow, ss: seq<Scalar>, negated: bool, d: Dataset, row: Row)
    requires ss != [] && !Member3(Compute(operand, row), ValuesOf(ss)).Fault?
    ensures Compute(Membership(operand, ss, negated, d), row) == Negate(Member3(Compute(operand, row), ValuesOf(ss)), negated)
  {
    hide Rebuilt, Member3, ValuesOf;
    RebuiltIsMember(operand, ss, d, row);
  }

  lemma SetMembership(x: Value, members: seq<Value>, vs: seq<Value>)
    requires !x.Fault? && forall v :: v in members <==> v in vs && !v.Null?
    ensures MemberOf(x, members) == Bool(EqualsAny(x, vs))
    ensures x.Null? ==> MemberOf(x, members) == FALSE
  {
    NullIsIncomparable(x);
  }

  lemma InIsEval(e: Expr, d: Dataset, row: Row)
    requires e.In? && e.values != [] && Translate(e, d).Success? && !Eval(e, row, map[]).Fault?
    requires Translate(e.operand, d).Success?
             && SameValue(Compute(Translate(e.operand, d).value, row), Eval(e.operand, row, map[]))
    ensures Compute(Translate(e, d).value, row) == Eval(e, row, map[])
  {
    var operand, ss := Translate(e.operand, d).value, ScalarsOf(e.values, TypeOf(e.operand, d)).value;
    var x, vs := Eval(e.operand, row, map[]), EvalAll(e.values, row, map[]);
    assert Translate(e, d).value == Membership(operand, ss, e.negated, d);
    assert Eval(e, row, map[]) == Negate(Member3(x, vs), e.negated);
    ScalarsCarryValues(e.values, TypeOf(e.operand, d), row);
    SameMembership(Compute(operand, row), x, ValuesOf(ss), vs);
    hide Translate, Membership, Member3, Compute, ScalarsOf;
    MembershipIsMember(operand, ss, e.negated, d, row);
  }

  lemma ComparisonIsEval(e: Expr, d: Dataset, row: Row)
    requires e.Comparison? && Translate(e, d).Success? && !Eval(e, row, map[]).Fault?
    requires forall o | o in [e.left, e.right] && Translate(o, d).Success? && !Eval(o, row, map[]).Fault? ::
               SameValue(Compute(Translate(o, d).value, row), Eval(o, row, map[]))
    ensures Compute(Translate(e, d).value, row) == Eval(e, row, map[])
  {
    var l, r := Eval(e.left, row, map[]), Eval(e.right, row, map[]);
    assert Eval(e, row, map[]) == Relate(e.comparison, l, r);
    var arrow := Translate(e, d).value;
    if e.left.Column? && e.right.Literal? {
      ScalarIsLiteral(e.right.lit, TypeOf(e.left, d));
    } else if e.left.Literal? && e.right.Column? {
      ScalarIsLiteral(e.left.lit, TypeOf(e.right, d));
    } else {
      assert e.left in [e.left, e.right] && e.right in [e.left, e.right];
    }
    hide Relate, SameValue, Translate, ScalarOf;
    SameValuesRelateSame(e.comparison, Compute(arrow.left, row), Compute(arrow.right, row), l, r);
  }

  /**
   On every row where SQL evaluation is defined, the Arrow expression has the predicate's value:
   TRUE, FALSE or UNKNOWN, through any nesting.
   */
  lemma {:induction false} TranslationIsEval(e: Expr, d: Dataset, row: Row)
    requires WellFormed(e) && Translate(e, d).Success? && !Eval(e, row, map[]).Fault?
    ensures SameValue(Compute(Translate(e, d).value, row), Eval(e, row, map[]))
    decreases e, 1
  {
    hide Compare, Relate, ScalarsOf, Rebuilt, Membership, Member3, Fold, LikeValue, Calculate;
    match e
    case Column(_) =>
    case Literal(l) => ScalarIsLiteral(l, None);
    case Comparison(_, l, r) =>
      RelatedAreDefined(e, row);
      if Translate(l, d).Success? { TranslationIsEval(l, d, row); }
      if Translate(r, d).Success? { TranslationIsEval(r, d, row); }
      ComparisonIsEval(e, d, row);
    case And(os) => FoldAllIsEval(os, true, d, row);
    case Or(os) => FoldAllIsEval(os, false, d, row);
    case Not(o) => TranslationIsEval(o, d, row);
    case IsNull(o, _) => TranslationIsEval(o, d, row);
    case In(o, vs, negated) =>
      MemberOperandDefined(e, row);
      TranslationIsEval(o, d, row);
      InIsEval(e, d, row);
  }

  lemma RelatedAreDefined(e: Expr, row: Row)
    requires e.Comparison? && !Eval(e, row, map[]).Fault?
    ensures !Eval(e.left, row, map[]).Fault? && !Eval(e.right, row, map[]).Fault?
  {
    assert Eval(e, row, map[]) == Relate(e.comparison, Eval(e.left, row, map[]), Eval(e.right, row, map[]));
  }

  lemma MemberOperandDefined(e: Expr, row: Row)
    requires e.In? && e.values != [] && !Eval(e, row, map[]).Fault?
    ensures !Eval(e.operand, row, map[]).Fault?
  {
    var x, vs := Eval(e.operand, row, map[]), EvalAll(e.values, row, map[]);
    assert Eval(e, row, map[]) == Negate(Member3(x, vs), e.negated);
    MemberByCases(x, vs);
  }

  lemma FoldAllIsEval(es: seq<Expr>, conjunction: bool, d: Dataset, row: Row)
    requires es != [] && AllWellFormed(es) && FoldAll(es, conjunction, d).Success?
    requires !JoinOf(EvalAll(es, row, map[]), conjunction).Fault?
    ensures Compute(FoldAll(es, conjunction, d).value, row) == JoinOf(EvalAll(es, row, map[]), conjunction)
    decreases es, 1
  {
    var vs := EvalAll(es, row, map[]);
    assert vs[0] == Eval(es[0], row, map[]) && vs[1..] == EvalAll(es[1..], row, map[]);
    TranslationIsEval(es[0], d, row);
    FoldIsEval(Translate(es[0], d).value, es[1..], conjunction, d, row);
  }

  lemma {:induction false} FoldIsEval(sofar: Arrow, es: seq<Expr>, conjunction: bool, d: Dataset, row: Row)
    requires AllWellFormed(es) && Fold(sofar, es, conjunction, d).Success? && Compute(sofar, row).Truth()
    requires !JoinOf(EvalAll(es, row, map[]), conjunction).Fault?
    ensures Compute(Fold(sofar, es, conjunction, d).value, row)
            == Join3(Compute(sofar, row), JoinOf(EvalAll(es, row, map[]), conjunction), conjunction)
    decreases es, 0
  {
    if es != [] {
      var vs := EvalAll(es, row, map[]);
      assert vs[0] == Eval(es[0], row, map[]) && vs[1..] == EvalAll(es[1..], row, map[]);
      assert JoinOf(vs, conjunction) == Join3(vs[0], JoinOf(vs[1..], conjunction), conjunction);
      TranslationIsEval(es[0], d, row);
      var next := Translate(es[0], d).value;
      assert Compute(next, row) == vs[0];
      var grown := if conjunction then AndKleene(sofar, next) else OrKleene(sofar, next);
      FoldIsEval(grown, es[1..], conjunction, d, row);
      Join3Associates(Compute(sofar, row), vs[0], JoinOf(vs[1..], conjunction), conjunction);
    }
  }

  // ---- which predicates translate -----------------------------------------------------------------------

  const PUSHABLE := {ColumnKind, LiteralKind, ParameterKind, ComparisonKind, AndKind, OrKind, NotKind, IsNullKind, InKind}

  predicate AllPushable(nodes: seq<Expr>) {
    forall n | n in nodes :: KindOf(n) in PUSHABLE
  }

  /** Parameters are substituted first, then every remaining node must be pushable. */
  function TranslatePredicate(e: Expr, params: Params, d: Dataset): Result<Arrow, DeltaError> {
    var s := Substitute(e, params);
    if s.Failure? then Failure(MissingParameter(s.error)) else Translate(s.value, d)
  }

  lemma {:induction false} LiteralsHaveScalars(es: seq<Expr>, target: Option<DataType>)
    requires forall e | e in es :: e.Literal?
    ensures ScalarsOf(es, target).Success?
  {
    if es != [] {
      assert es[0] in es;
      LiteralsHaveScalars(es[1..], target);
    }
  }

  lemma {:induction false} ConstantsArePushable(es: seq<Expr>)
    requires forall e | e in es :: Constant(e)
    ensures AllPushable(WalkAll(es))
  {
    if es != [] {
      assert es[0] in es && Walk(es[0]) == [es[0]];
      ConstantsArePushable(es[1..]);
    }
  }

  lemma {:induction false} TranslatesIff(e: Expr, params: Params, d: Dataset)
    requires WellFormed(e) && ValidParams(params) && Substitute(e, params).Success?
    ensures Translate(Substitute(e, params).value, d).Success? <==> AllPushable(Walk(e))
    decreases e, 1
  {
    match e
    case Comparison(_, l, r) => TranslatesIff(l, params, d); TranslatesIff(r, params, d);
    case And(os) => FoldTranslatesIff(os, params, d);
    case Or(os) => FoldTranslatesIff(os, params, d);
    case Not(o) => TranslatesIff(o, params, d);
    case IsNull(o, _) => TranslatesIff(o, params, d);
    case In(o, vs, _) =>
      TranslatesIff(o, params, d);
      SubstituteAllKeepsForm(vs, params);
      LiteralsHaveScalars(SubstituteAll(vs, params).value, TypeOf(Substitute(o, params).value, d));
      ConstantsArePushable(vs);
    case Like(_, _, _) => assert e in Walk(e);
    case Arithmetic(_, _, _) => assert e in Walk(e);
    case Alias(_, _) => assert e in Walk(e);
    case _ =>
  }

  lemma FoldTranslatesIff(es: seq<Expr>, params: Params, d: Dataset)
    requires es != [] && AllWellFormed(es) && ValidParams(params) && SubstituteAll(es, params).Success?
    ensures forall c: bool :: FoldAll(SubstituteAll(es, params).value, c, d).Success? <==> AllPushable(WalkAll(es))
    decreases es, 1
  {
    TranslatesIff(es[0], params, d);
    var ss := SubstituteAll(es, params).value;
    assert ss[0] == Substitute(es[0], params).value && ss[1..] == SubstituteAll(es[1..], params).value;
    forall c: bool
      ensures FoldAll(ss, c, d).Success? <==> AllPushable(WalkAll(es))
    {
      if Translate(ss[0], d).Success? {
        RestTranslatesIff(Translate(ss[0], d).value, es[1..], c, params, d);
      }
    }
  }

  lemma {:induction false} RestTranslatesIff(sofar: Arrow, es: seq<Expr>, conjunction: bool, params: Params, d: Dataset)
    requires AllWellFormed(es) && ValidParams(params) && SubstituteAll(es, params).Success?
    ensures Fold(sofar, SubstituteAll(es, params).value, conjunction, d).Success? <==> AllPushable(WalkAll(es))
    decreases es, 0
  {
    if es != [] {
      TranslatesIff(es[0], params, d);
      var ss := SubstituteAll(es, params).value;
      assert ss[0] == Substitute(es[0], params).value && ss[1..] == SubstituteAll(es[1..], params).value;
      if Translate(ss[0], d).Success? {
        var next := Translate(ss[0], d).value;
        RestTranslatesIff(if conjunction then AndKleene(sofar, next) else OrKleene(sofar, next), es[1..], conjunction, params, d);
      }
    }
  }

  /** A pushed predicate translates exactly when its parameters are supplied and its nodes pushable. */
  lemma PredicateTranslatesIff(e: Expr, params: Params, d: Dataset)
    requires WellFormed(e) && ValidParams(params)
    ensures TranslatePredicate(e, params, d).Success?
            <==> AllPushable(Walk(e)) && Supplied(Walk(e), params)
  {
    SubstituteSucceedsIff(e, params);
    if Substitute(e, params).Success? {
      TranslatesIff(e, params, d);
    }
  }

  // ---- the scan --------------------------------------------------------------------------------------------

  /** The rows a dataset scanner returns under an Arrow filter: those where it computes to TRUE. */
  function ArrowRows(a: Option<Arrow>, rows: seq<Row>): seq<Row> {
    if rows == [] then []
    else (if a.Some? && Compute(a.value, rows[0]) != TRUE then [] else [rows[0]]) + ArrowRows(a, rows[1..])
  }

  lemma {:induction false} ArrowRowsAreFiltered(filter: Option<Expr>, params: Params, d: Dataset, rows: seq<Row>)
    requires filter.Some? ==> WellFormed(filter.value) && ValidParams(params)
                              && NeverStuck(filter.value, rows, params) && TranslatePredicate(filter.value, params, d).Success?
    ensures ArrowRows(if filter.Some? then Some(TranslatePredicate(filter.value, params, d).value) else None, rows)
            == FilterBy(filter, rows, params)
  {
    hide Compute, Eval, TranslatePredicate, WellFormed;
    if rows != [] {
      if filter.Some? {
        assert rows[0] in rows;
        PredicateKeepsTruth(filter.value, params, d, rows[0]);
      }
      ArrowRowsAreFiltered(filter, params, d, rows[1..]);
    }
  }

  lemma PredicateKeepsTruth(e: Expr, params: Params, d: Dataset, row: Row)
    requires WellFormed(e) && ValidParams(params) && TranslatePredicate(e, params, d).Success? && !Eval(e, row, params).Fault?
    ensures Compute(TranslatePredicate(e, params, d).value, row) == TRUE <==> IsTrue(e, row, params)
  {
    hide Compute, Eval, Translate, Substitute, WellFormed;
    SubstituteKeepsMeaning(e, params, row, map[]);
    SubstituteKeepsForm(e, params);
    TranslationIsEval(Substitute(e, params).value, d, row);
  }

  /** The defensive limit on the scanner's batches, whatever their sizes. */
  method Batches(reader: seq<seq<Row>>, limit: Option<nat>) returns (out: seq<seq<Row>>)
    ensures Flatten(out) == TakeBy(limit, Flatten(reader))
    ensures |out| <= |reader| && forall i | 0 <= i < |out| :: out[i] <= reader[i]
  {
    hide Flatten;
    out := [];
    var remaining := Remaining(limit, 0);
    assert reader[..0] == [] && Flatten<Row>([]) == [] by { FlattenNothing(); }
    for i := 0 to |reader|
      invariant Flatten(out) == TakeBy(limit, Flatten(reader[..i]))
      invariant remaining == Remaining(limit, |Flatten(out)|)
      invariant |out| == i && forall j | 0 <= j < i :: out[j] <= reader[j]
    {
      var batch := reader[i];
      ReadBatch(reader, i);
      AdmitMore(limit, Flatten(reader[..i]), batch);
      if remaining.Some? {
        if remaining.value <= 0 {
          SplitStream(reader, i);
          AdmitMore(limit, Flatten(reader[..i]), Flatten(reader[i..]));
          return;
        }
        if |batch| > remaining.value {
          batch := batch[..remaining.value];
        }
        remaining := Some(remaining.value - |batch|);
      }
      FlattenSnoc(out, batch);
      out := out + [batch];
    }
    assert reader[..|reader|] == reader;
  }

  lemma FlattenNothing()
    ensures Flatten<Row>([]) == []
  {
  }

  /** A predicate the scan accepts: of pushable nodes, with its parameters supplied. */
  predicate Accepts(filter: Option<Expr>, params: Params) {
    filter.Some? ==> AllPushable(Walk(filter.value)) && Supplied(Walk(filter.value), params)
  }

  function ArrowFilter(filter: Option<Expr>, params: Params, d: Dataset): Option<Arrow> {
    if filter.None? then None
    else
      var arrow := TranslatePredicate(filter.value, params, d);
      if arrow.Success? then Some(arrow.value) else None
  }

  /**
   The scan of a pushed predicate, projection and limit, with or without a projection: what a fully
   capable scan owes, or an error exactly when the predicate is not one it accepts.
   */
  method Scan(
    table: seq<Row>, reader: seq<seq<Row>>, columns: Option<seq<string>>, filter: Option<Expr>, limit: Option<nat>,
    params: Params, d: Dataset) returns (r: Result<seq<seq<Row>>, DeltaError>)
    requires ValidParams(params)
    requires filter.Some? ==> WellFormed(filter.value) && (Accepts(filter, params) ==> NeverStuck(filter.value, table, params))
    requires Flatten(reader) == PruneBy(columns, ArrowRows(ArrowFilter(filter, params, d), table))
    ensures r.Failure? <==> !Accepts(filter, params)
    ensures r.Success? ==> Flatten(r.value) == PruneBy(columns, TakeBy(limit, FilterBy(filter, table, params)))
  {
    if filter.Some? {
      PredicateTranslatesIff(filter.value, params, d);
      var arrow := TranslatePredicate(filter.value, params, d);
      if arrow.Failure? {
        return Failure(arrow.error);
      }
    }
    ArrowRowsAreFiltered(filter, params, d, table);
    if columns.Some? {
      TakeOfPruned(limit, FilterBy(filter, table, params), columns.value);
    }
    var batches := Batches(reader, limit);
    r := Success(batches);
  }
}
