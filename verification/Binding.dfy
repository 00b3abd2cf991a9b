/**
 Binding a plan to a source schema: names are resolved, operand types checked and the output
 schema derived. The main result is type soundness of whatever binds.
 */
module Binding {
  import opened Wrappers
  import opened Values
  import opened Types
  import opened Expressions
  import opened Plans

  // ---- schemas ---------------------------------------------------------------------------------

  datatype Field = Field(name: string, dataType: DataType, nullable: bool)

  type Schema = seq<Field>

  predicate ValidSchema(schema: Schema) {
    && (forall f | f in schema :: f.name != [] && f.dataType.Valid())
    && (forall i, j | 0 <= i < j < |schema| :: schema[i].name != schema[j].name)
  }

  function LowerChar(c: char): char {
    if 'A' <= c <= 'Z' then c + 32 as char else c
  }

  function Lower(s: string): string {
    if s == [] then [] else [LowerChar(s[0])] + Lower(s[1..])
  }

  function FindExact(schema: Schema, name: string): (r: Option<Field>)
    ensures r.Some? ==> r.value in schema && r.value.name == name
    ensures r.None? ==> forall f | f in schema :: f.name != name
  {
    if schema == [] then None
    else if schema[0].name == name then Some(schema[0])
    else FindExact(schema[1..], name)
  }

  function CaseMatches(schema: Schema, lowered: string): (r: seq<Field>)
    ensures forall f | f in r :: f in schema
  {
    if schema == [] then []
    else (if Lower(schema[0].name) == lowered then [schema[0]] else []) + CaseMatches(schema[1..], lowered)
  }

  /** Exactly, then case-insensitively when only one field matches. */
  function Resolve(schema: Schema, name: string): (r: Option<Field>)
    ensures r.Some? ==> r.value in schema
  {
    var exact := FindExact(schema, name);
    if exact.Some? then exact
    else
      var matches := CaseMatches(schema, Lower(name));
      if |matches| == 1 then Some(matches[0]) else None
  }

  /** Field `i` alone bears the name, up to case. */
  predicate OnlyMatch(schema: Schema, lowered: string, i: nat) {
    && i < |schema| && Lower(schema[i].name) == lowered
    && forall j | 0 <= j < |schema| && j != i :: Lower(schema[j].name) != lowered
  }

  /** Exactly one field bears the name, up to case. */
  ghost predicate Unambiguous(schema: Schema, lowered: string) {
    exists i: nat :: OnlyMatch(schema, lowered, i)
  }

  lemma {:induction false} CaseMatchesAre(schema: Schema, lowered: string)
    ensures CaseMatches(schema, lowered) == [] <==> forall f | f in schema :: Lower(f.name) != lowered
    ensures |CaseMatches(schema, lowered)| == 1 <==> Unambiguous(schema, lowered)
    ensures forall i: nat :: OnlyMatch(schema, lowered, i) ==> CaseMatches(schema, lowered) == [schema[i]]
  {
    hide Lower;
    if schema != [] {
      var rest := schema[1..];
      CaseMatchesAre(rest, lowered);
      assert schema[0] in schema;
      forall i: nat
        ensures i > 0 && Lower(schema[0].name) != lowered ==> (OnlyMatch(schema, lowered, i) <==> OnlyMatch(rest, lowered, i - 1))
        ensures OnlyMatch(schema, lowered, 0) <==>
                  Lower(schema[0].name) == lowered && forall f | f in rest :: Lower(f.name) != lowered
      {
        assert forall j | 0 < j < |schema| :: schema[j] == rest[j - 1];
      }
      if Lower(schema[0].name) == lowered {
        assert (forall f | f in rest :: Lower(f.name) != lowered) <==> OnlyMatch(schema, lowered, 0);
      } else {
        forall i: nat | OnlyMatch(rest, lowered, i)
          ensures OnlyMatch(schema, lowered, i + 1)
        {
        }
      }
    }
  }

  /**
   A name finds the field that bears it exactly; failing that, the one field that bears it up to case;
   and nothing when no field or more than one does.
   */
  lemma ResolveFinds(schema: Schema, name: string)
    ensures forall f | f in schema && f.name == name :: Resolve(schema, name).Some? && Resolve(schema, name).value.name == name
    ensures (forall f | f in schema :: f.name != name) ==>
              && (Resolve(schema, name).Some? <==> Unambiguous(schema, Lower(name)))
              && (forall i: nat | OnlyMatch(schema, Lower(name), i) :: Resolve(schema, name) == Some(schema[i]))
  {
    hide OnlyMatch, Unambiguous;
    CaseMatchesAre(schema, Lower(name));
    var found := FindExact(schema, name);
    assert forall f | f in schema && f.name == name :: found.Some?;
  }

  /** Resolving a resolved name finds the same field: binding again changes nothing. */
  lemma {:induction false} ResolvedNamesAreExact(schema: Schema, f: Field)
    requires ValidSchema(schema) && f in schema
    ensures Resolve(schema, f.name) == Some(f)
  {
    var found := FindExact(schema, f.name);
    var i :| 0 <= i < |schema| && schema[i] == f;
    var j :| 0 <= j < |schema| && schema[j] == found.value;
    assert i == j;
  }

  // ---- types of expressions ------------------------------------------------------------------------

  datatype BindError =
    | UnknownColumn(column: string) | NotPortable(dataType: DataType) | MisplacedAlias
    | NotComparable | NotBoolean | NotText | NotNumeric | TooWide(cause: TypeError)
    | MissingParameter(parameter: string) | DuplicateOutput(output: string)

  function ExpressionType(e: Expr, schema: Schema): Result<DataType, TypeError> {
    match e
    case Column(n) => var f := Resolve(schema, n); Success(if f.Some? then f.value.dataType else UnknownType)
    case Literal(l) => Success(l.dataType)
    case Parameter(_) => Success(UnknownType)
    case Alias(i, _) => ExpressionType(i, schema)
    case Arithmetic(op, l, r) =>
      var lt :- ExpressionType(l, schema);
      var rt :- ExpressionType(r, schema);
      Unify(lt, rt, Some(op))
    case _ => Success(BooleanType)
  }

  /** The type once supplied parameters are substituted; a missing one raises when any is supplied. */
  function TypeOf(e: Expr, schema: Schema, params: Params): Result<DataType, BindError> {
    if params == map[] then FromTypeError(ExpressionType(e, schema))
    else
      match Substitute(e, params)
      case Failure(n) => Failure(MissingParameter(n))
      case Success(s) => FromTypeError(ExpressionType(s, schema))
  }

  function FromTypeError(r: Result<DataType, TypeError>): Result<DataType, BindError> {
    if r.Success? then Success(r.value) else Failure(TooWide(r.error))
  }

  function RequirePortable(t: DataType): Result<(), BindError> {
    if IsPortable(t) then Success(()) else Failure(NotPortable(t))
  }

  function CheckComparable(l: Expr, r: Expr, schema: Schema, params: Params): Result<(), BindError> {
    var lt :- TypeOf(l, schema, params);
    var rt :- TypeOf(r, schema, params);
    if IsComparable(lt, rt) then Success(()) else Failure(NotComparable)
  }

  function CheckAllComparable(l: Expr, rs: seq<Expr>, schema: Schema, params: Params): Result<(), BindError> {
    if rs == [] then Success(())
    else
      var _ :- CheckComparable(l, rs[0], schema, params);
      CheckAllComparable(l, rs[1..], schema, params)
  }

  function CheckBoolean(e: Expr, schema: Schema, params: Params): Result<(), BindError> {
    var t :- TypeOf(e, schema, params);
    if t.BooleanType? || t.Open() then Success(()) else Failure(NotBoolean)
  }

  function CheckAllBoolean(es: seq<Expr>, schema: Schema, params: Params): Result<(), BindError> {
    if es == [] then Success(())
    else
      var _ :- CheckBoolean(es[0], schema, params);
      CheckAllBoolean(es[1..], schema, params)
  }

  function CheckText(e: Expr, schema: Schema, params: Params): Result<(), BindError> {
    var t :- TypeOf(e, schema, params);
    if t.StringType? || t.Open() then Success(()) else Failure(NotText)
  }

  function CheckNumeric(e: Expr, schema: Schema, params: Params): Result<(), BindError> {
    var t :- TypeOf(e, schema, params);
    if t.Numeric() || t.Open() then Success(()) else Failure(NotNumeric)
  }

  // ---- binding -----------------------------------------------------------------------------------------

  function Bind(e: Expr, schema: Schema, params: Params, allowAlias: bool): Result<Expr, BindError>
    decreases e, 1
  {
    match e
    case Column(n) =>
      var f := Resolve(schema, n);
      if f.None? then Failure(UnknownColumn(n))
      else
        var _ :- RequirePortable(f.value.dataType);
        Success(Column(f.value.name))
    case Literal(l) =>
      var _ :- RequirePortable(l.dataType);
      Success(e)
    case Parameter(n) =>
      var _ :- if n in params then RequirePortable(params[n].dataType) else Success(());
      Success(e)
    case Alias(i, n) =>
      if !allowAlias then Failure(MisplacedAlias)
      else
        var i' :- Bind(i, schema, params, false);
        Success(Alias(i', n))
    case Comparison(op, l, r) =>
      var l' :- Bind(l, schema, params, false);
      var r' :- Bind(r, schema, params, false);
      var _ :- CheckComparable(l', r', schema, params);
      Success(Comparison(op, l', r'))
    case And(os) =>
      var os' :- BindAll(os, schema, params);
      var _ :- CheckAllBoolean(os', schema, params);
      Success(And(os'))
    case Or(os) =>
      var os' :- BindAll(os, schema, params);
      var _ :- CheckAllBoolean(os', schema, params);
      Success(Or(os'))
    case Not(o) =>
      var o' :- Bind(o, schema, params, false);
      var _ :- CheckBoolean(o', schema, params);
      Success(Not(o'))
    case IsNull(o, negated) =>
      var o' :- Bind(o, schema, params, false);
      Success(IsNull(o', negated))
    case In(o, vs, negated) =>
      var o' :- Bind(o, schema, params, false);
      var vs' :- BindAll(vs, schema, params);
      var _ :- CheckAllComparable(o', vs', schema, params);
      Success(In(o', vs', negated))
    case Like(o, p, negated) =>
      var o' :- Bind(o, schema, params, false);
      var _ :- CheckText(o', schema, params);
      var p' :- Bind(p, schema, params, false);
      var _ :- CheckText(p', schema, params);
      Success(Like(o', p', negated))
    case Arithmetic(op, l, r) =>
      var l' :- Bind(l, schema, params, false);
      var r' :- Bind(r, schema, params, false);
      var _ :- CheckNumeric(l', schema, params);
      var _ :- CheckNumeric(r', schema, params);
      var _ :- TypeOf(Arithmetic(op, l', r'), schema, params);
      Success(Arithmetic(op, l', r'))
  }

  function BindAll(es: seq<Expr>, schema: Schema, params: Params): (r: Result<seq<Expr>, BindError>)
    ensures r.Success? ==> |r.value| == |es|
    decreases es, 0
  {
    if es == [] then Success([])
    else
      var e' :- Bind(es[0], schema, params, false);
      var es' :- BindAll(es[1..], schema, params);
      Success([e'] + es')
  }

  /** Binding keeps what the node constructors enforce, and leaves constants as they are. */
  lemma {:induction false} BindKeepsForm(e: Expr, schema: Schema, params: Params, allowAlias: bool)
    requires ValidSchema(schema) && WellFormed(e) && Bind(e, schema, params, allowAlias).Success?
    ensures var b := Bind(e, schema, params, allowAlias).value;
            WellFormed(b) && (Constant(e) ==> b == e) && (b.Alias? <==> e.Alias?)
    decreases e, 1
  {
    hide CheckComparable, CheckAllComparable, CheckBoolean, CheckAllBoolean, CheckText, CheckNumeric, TypeOf, RequirePortable, IsPortable;
    match e
    case Comparison(_, _, _) => PairKeepsForm(e, schema, params, allowAlias);
    case And(os) => BindAllKeepsForm(os, schema, params);
    case Or(os) => BindAllKeepsForm(os, schema, params);
    case Not(o) => BindKeepsForm(o, schema, params, false);
    case IsNull(o, _) => BindKeepsForm(o, schema, params, false);
    case In(_, _, _) => MatchKeepsForm(e, schema, params, allowAlias);
    case Like(_, _, _) => MatchKeepsForm(e, schema, params, allowAlias);
    case Arithmetic(_, _, _) => PairKeepsForm(e, schema, params, allowAlias);
    case Alias(i, _) => BindKeepsForm(i, schema, params, false);
    case _ =>
  }

  lemma {:induction false} PairKeepsForm(e: Expr, schema: Schema, params: Params, allowAlias: bool)
    requires ValidSchema(schema) && WellFormed(e) && Bind(e, schema, params, allowAlias).Success?
    requires e.Comparison? || e.Arithmetic?
    ensures WellFormed(Bind(e, schema, params, allowAlias).value)
    decreases e, 0
  {
    hide CheckComparable, CheckAllComparable, CheckBoolean, CheckAllBoolean, CheckText, CheckNumeric, TypeOf, RequirePortable, IsPortable;
    BindKeepsForm(e.left, schema, params, false);
    BindKeepsForm(e.right, schema, params, false);
  }

  lemma {:induction false} MatchKeepsForm(e: Expr, schema: Schema, params: Params, allowAlias: bool)
    requires ValidSchema(schema) && WellFormed(e) && Bind(e, schema, params, allowAlias).Success? && (e.In? || e.Like?)
    ensures WellFormed(Bind(e, schema, params, allowAlias).value)
    decreases e, 0
  {
    hide CheckComparable, CheckAllComparable, CheckBoolean, CheckAllBoolean, CheckText, CheckNumeric, TypeOf, RequirePortable, IsPortable;
    BindKeepsForm(e.operand, schema, params, false);
    if e.In? {
      BindAllKeepsForm(e.values, schema, params);
    } else {
      BindKeepsForm(e.pattern, schema, params, false);
    }
  }

  lemma {:induction false} BindAllKeepsForm(es: seq<Expr>, schema: Schema, params: Params)
    requires ValidSchema(schema) && AllWellFormed(es) && BindAll(es, schema, params).Success?
    ensures AllWellFormed(BindAll(es, schema, params).value)
    ensures (forall e | e in es :: Constant(e)) ==> forall b | b in BindAll(es, schema, params).value :: Constant(b)
    decreases es, 0
  {
    if es != [] {
      BindKeepsForm(es[0], schema, params, false);
      BindAllKeepsForm(es[1..], schema, params);
      var rest := BindAll(es[1..], schema, params).value;
      assert BindAll(es, schema, params).value[1..] == rest;
      assert es[0] in es && forall e | e in es[1..] :: e in es;
    }
  }

  function Names(schema: Schema): (names: seq<string>)
    ensures |names| == |schema| && forall i | 0 <= i < |schema| :: names[i] == schema[i].name
  {
    seq(|schema|, i requires 0 <= i < |schema| => schema[i].name)
  }

  /** Every column of a bound expression is a field of the schema. */
  lemma {:induction false} BoundColumnsKnown(e: Expr, schema: Schema, params: Params, allowAlias: bool)
    requires Bind(e, schema, params, allowAlias).Success?
    ensures forall n | n in Walk(Bind(e, schema, params, allowAlias).value) && n.Column? :: n.name in Names(schema)
    decreases e, 1
  {
    hide CheckComparable, CheckAllComparable, CheckBoolean, CheckAllBoolean, CheckText, CheckNumeric, TypeOf, RequirePortable, IsPortable;
    match e
    case Column(n) =>
      var f := Resolve(schema, n).value;
      var i :| 0 <= i < |schema| && schema[i] == f;
      assert Names(schema)[i] == f.name;
    case Comparison(_, l, r) =>
      BoundColumnsKnown(l, schema, params, false);
      BoundColumnsKnown(r, schema, params, false);
    case And(os) => AllBoundColumnsKnown(os, schema, params);
    case Or(os) => AllBoundColumnsKnown(os, schema, params);
    case Not(o) => BoundColumnsKnown(o, schema, params, false);
    case IsNull(o, _) => BoundColumnsKnown(o, schema, params, false);
    case In(_, _, _) => MatchColumnsKnown(e, schema, params, allowAlias);
    case Like(_, _, _) => MatchColumnsKnown(e, schema, params, allowAlias);
    case Arithmetic(_, l, r) =>
      BoundColumnsKnown(l, schema, params, false);
      BoundColumnsKnown(r, schema, params, false);
    case Alias(i, _) => BoundColumnsKnown(i, schema, params, false);
    case _ =>
  }

  lemma {:induction false} MatchColumnsKnown(e: Expr, schema: Schema, params: Params, allowAlias: bool)
    requires Bind(e, schema, params, allowAlias).Success? && (e.In? || e.Like?)
    ensures forall n | n in Walk(Bind(e, schema, params, allowAlias).value) && n.Column? :: n.name in Names(schema)
    decreases e, 0
  {
    hide CheckComparable, CheckAllComparable, CheckBoolean, CheckAllBoolean, CheckText, CheckNumeric, TypeOf, RequirePortable, IsPortable;
    BoundColumnsKnown(e.operand, schema, params, false);
    if e.In? {
      AllBoundColumnsKnown(e.values, schema, params);
    } else {
      BoundColumnsKnown(e.pattern, schema, params, false);
    }
  }

  lemma {:induction false} AllBoundColumnsKnown(es: seq<Expr>, schema: Schema, params: Params)
    requires BindAll(es, schema, params).Success?
    ensures forall n | n in WalkAll(BindAll(es, schema, params).value) && n.Column? :: n.name in Names(schema)
    decreases es, 0
  {
    if es != [] {
      BoundColumnsKnown(es[0], schema, params, false);
      AllBoundColumnsKnown(es[1..], schema, params);
      assert BindAll(es, schema, params).value[1..] == BindAll(es[1..], schema, params).value;
    }
  }

  // ---- soundness -------------------------------------------------------------------------------------------

  /** Every column present with a value of its declared type; NULL is allowed anywhere. */
  predicate RowConforms(row: Row, schema: Schema)
    requires ValidSchema(schema)
  {
    forall f | f in schema :: f.name in row && Conforms(row[f.name], f.dataType)
  }

  predicate KnownScalars(schema: Schema) {
    forall f | f in schema :: f.dataType.Scalar()
  }

  /** The type with parameters in place, without substituting. */
  function TypeUnder(e: Expr, schema: Schema, params: Params): Result<DataType, TypeError> {
    match e
    case Parameter(n) => Success(if n in params then params[n].dataType else UnknownType)
    case Alias(i, _) => TypeUnder(i, schema, params)
    case Arithmetic(op, l, r) =>
      var lt :- TypeUnder(l, schema, params);
      var rt :- TypeUnder(r, schema, params);
      Unify(lt, rt, Some(op))
    case _ => ExpressionType(e, schema)
  }

  lemma {:induction false} SubstituteKeepsType(e: Expr, schema: Schema, params: Params)
    requires Substitute(e, params).Success?
    ensures ExpressionType(Substitute(e, params).value, schema) == TypeUnder(e, schema, params)
  {
    match e
    case Alias(i, _) => SubstituteKeepsType(i, schema, params);
    case Arithmetic(_, l, r) =>
      SubstituteKeepsType(l, schema, params);
      SubstituteKeepsType(r, schema, params);
    case _ =>
  }

  lemma {:induction false} NoParametersNeeded(e: Expr, schema: Schema)
    ensures TypeUnder(e, schema, map[]) == ExpressionType(e, schema)
  {
    match e
    case Alias(i, _) => NoParametersNeeded(i, schema);
    case Arithmetic(_, l, r) =>
      NoParametersNeeded(l, schema);
      NoParametersNeeded(r, schema);
    case _ =>
  }

  /** Whatever type is derived by substituting is the type with parameters in place. */
  lemma TypeOfIsTypeUnder(e: Expr, schema: Schema, params: Params)
    requires TypeOf(e, schema, params).Success?
    ensures TypeUnder(e, schema, params) == Success(TypeOf(e, schema, params).value)
  {
    if params == map[] {
      NoParametersNeeded(e, schema);
    } else {
      SubstituteKeepsType(e, schema, params);
    }
  }

  // Soundness of each operator on conforming operands.

  lemma ComparableValuesRelate(op: ComparisonOp, a: Value, b: Value, l: DataType, r: DataType)
    requires l.Valid() && r.Valid() && Conforms(a, l) && Conforms(b, r) && IsComparable(l, r)
    ensures Relate(op, a, b).Truth()
  {
    if a.Text? && b.Text? {
      OrderTextsFlips(a.s, b.s);
    }
  }

  lemma IntegerArithmeticConforms(op: ArithmeticOp, a: Value, b: Value)
    requires a.Int? && b.Int? && !op.DIV?
    ensures Conforms(Calculate(op, a, b), IntegerType(64))
  {
    Pow2Widths();
  }

  lemma FloatArithmeticConforms(op: ArithmeticOp, a: Value, b: Value, width: nat)
    requires a.Numeric() && b.Numeric() && (op.DIV? || a.Float? || b.Float?) && width in {32, 64}
    ensures Conforms(Calculate(op, a, b), FloatType(width))
  {
  }

  /** What the kind of an arithmetic type says about its operands. */
  lemma ArithmeticTypeKinds(op: ArithmeticOp, l: DataType, r: DataType)
    requires l.Valid() && r.Valid() && l.Numeric() && r.Numeric() && Unify(l, r, Some(op)).Success?
    ensures var t := Unify(l, r, Some(op)).value;
            || (t.FloatType? && t.width in {32, 64} && (op.DIV? || l.FloatType? || r.FloatType?))
            || (!op.DIV? && t == IntegerType(64) && l.IntegerType? && r.IntegerType?)
            || (!op.DIV? && t.DecimalType?)
  {
  }

  lemma ArithmeticConforms(op: ArithmeticOp, a: Value, b: Value, l: DataType, r: DataType, t: DataType)
    requires l.Valid() && r.Valid() && Conforms(a, l) && Conforms(b, r)
    requires (l.Numeric() || l.Open()) && (r.Numeric() || r.Open())
    requires Unify(l, r, Some(op)) == Success(t)
    ensures t.Valid() && Conforms(Calculate(op, a, b), t)
  {
    UnifyIsValid(l, r, Some(op));
    if a.Null? || b.Null? {
      assert Calculate(op, a, b).Null?;
    } else {
      hide Calculate, Unify;
      ArithmeticTypeKinds(op, l, r);
      if t.FloatType? {
        FloatArithmeticConforms(op, a, b, t.width);
      } else if t.IntegerType? {
        IntegerArithmeticConforms(op, a, b);
      } else {
        DecimalResultsFit(op, a, b, l, r);
      }
    }
  }

  lemma {:induction false} AllOfTruths(vs: seq<Value>)
    requires forall v | v in vs :: v.Truth()
    ensures AllOf(vs).Truth() && AnyOf(vs).Truth()
  {
    if vs != [] {
      AllOfTruths(vs[1..]);
    }
  }

  lemma {:induction false} MemberTruth(v: Value, vs: seq<Value>)
    requires forall x | x in vs :: Relate(EQ, v, x).Truth()
    ensures Member3(v, vs).Truth()
  {
    if vs != [] {
      MemberTruth(v, vs[1..]);
    }
  }

  /** The bound expression has a type, and its value on the row lies inside it. */
  ghost predicate Sound(b: Expr, schema: Schema, params: Params, row: Row) {
    && TypeUnder(b, schema, params).Success?
    && TypeUnder(b, schema, params).value.Valid()
    && Conforms(Eval(b, row, params), TypeUnder(b, schema, params).value)
  }

  ghost predicate Ready(schema: Schema, params: Params, row: Row) {
    ValidSchema(schema) && KnownScalars(schema) && RowConforms(row, schema) && ValidParams(params)
  }

  lemma ConformingIsNotFault(v: Value, t: DataType)
    requires t.Valid() && Conforms(v, t)
    ensures !v.Fault? && (t.Open() ==> v.Null?)
  {
  }

  lemma {:induction false} BooleansAreTruths(es: seq<Expr>, schema: Schema, params: Params, row: Row)
    requires CheckAllBoolean(es, schema, params).Success?
    requires forall e | e in es :: Sound(e, schema, params, row)
    ensures forall v | v in EvalAll(es, row, params) :: v.Truth()
  {
    if es != [] {
      TypeOfIsTypeUnder(es[0], schema, params);
      assert Sound(es[0], schema, params, row);
      BooleansAreTruths(es[1..], schema, params, row);
    }
  }

  lemma {:induction false} ComparablesRelate(o: Expr, es: seq<Expr>, schema: Schema, params: Params, row: Row)
    requires CheckAllComparable(o, es, schema, params).Success?
    requires Sound(o, schema, params, row) && forall e | e in es :: Sound(e, schema, params, row)
    ensures forall v | v in EvalAll(es, row, params) :: Relate(EQ, Eval(o, row, params), v).Truth()
  {
    if es != [] {
      TypeOfIsTypeUnder(o, schema, params);
      TypeOfIsTypeUnder(es[0], schema, params);
      assert Sound(es[0], schema, params, row);
      ComparableValuesRelate(
        EQ, Eval(o, row, params), Eval(es[0], row, params),
        TypeUnder(o, schema, params).value, TypeUnder(es[0], schema, params).value);
      ComparablesRelate(o, es[1..], schema, params, row);
    }
  }

  lemma {:induction false} LeafIsSound(e: Expr, schema: Schema, params: Params, allowAlias: bool, row: Row)
    requires Ready(schema, params, row) && WellFormed(e) && Supplied(Walk(e), params)
    requires (e.Column? || e.Literal? || e.Parameter?) && Bind(e, schema, params, allowAlias).Success?
    ensures Sound(Bind(e, schema, params, allowAlias).value, schema, params, row)
  {
    if e.Column? {
      ColumnIsSound(e.name, schema, params, row);
    }
    assert e in Walk(e);
  }

  lemma {:induction false} BoundPairIsSound(e: Expr, schema: Schema, params: Params, row: Row)
    requires Ready(schema, params, row) && WellFormed(e) && Supplied(Walk(e), params)
    requires (e.Comparison? || e.Arithmetic?) && Bind(e, schema, params, false).Success?
    ensures Sound(Bind(e, schema, params, false).value, schema, params, row)
    decreases e, 0
  {
    hide TypeOf, CheckComparable, CheckAllComparable, CheckBoolean, CheckAllBoolean, CheckText, CheckNumeric;
    var b := Bind(e, schema, params, false).value;
    BindIsSound(e.left, schema, params, false, row);
    BindIsSound(e.right, schema, params, false, row);
    if e.Comparison? {
      ComparisonIsSound(b, schema, params, row);
    } else {
      ArithmeticIsSound(b, schema, params, row);
    }
  }

  lemma {:induction false} BoundJunctionIsSound(e: Expr, schema: Schema, params: Params, row: Row)
    requires Ready(schema, params, row) && WellFormed(e) && Supplied(Walk(e), params)
    requires (e.And? || e.Or?) && Bind(e, schema, params, false).Success?
    ensures Sound(Bind(e, schema, params, false).value, schema, params, row)
    decreases e, 0
  {
    hide TypeOf, CheckComparable, CheckAllComparable, CheckBoolean, CheckAllBoolean, CheckText, CheckNumeric;
    var b := Bind(e, schema, params, false).value;
    BindAllIsSound(e.operands, schema, params, row);
    JunctionIsSound(b, schema, params, row);
  }

  lemma {:induction false} BoundTestIsSound(e: Expr, schema: Schema, params: Params, row: Row)
    requires Ready(schema, params, row) && WellFormed(e) && Supplied(Walk(e), params)
    requires (e.Not? || e.IsNull?) && Bind(e, schema, params, false).Success?
    ensures Sound(Bind(e, schema, params, false).value, schema, params, row)
    decreases e, 0
  {
    hide TypeOf, CheckComparable, CheckAllComparable, CheckBoolean, CheckAllBoolean, CheckText, CheckNumeric;
    var b := Bind(e, schema, params, false).value;
    BindIsSound(e.operand, schema, params, false, row);
    if e.Not? {
      NotIsSound(b, schema, params, row);
    } else {
      ConformingIsNotFault(Eval(b.operand, row, params), TypeUnder(b.operand, schema, params).value);
    }
  }

  lemma {:induction false} BoundMatchIsSound(e: Expr, schema: Schema, params: Params, row: Row)
    requires Ready(schema, params, row) && WellFormed(e) && Supplied(Walk(e), params)
    requires (e.In? || e.Like?) && Bind(e, schema, params, false).Success?
    ensures Sound(Bind(e, schema, params, false).value, schema, params, row)
    decreases e, 0
  {
    hide TypeOf, CheckComparable, CheckAllComparable, CheckBoolean, CheckAllBoolean, CheckText, CheckNumeric;
    var b := Bind(e, schema, params, false).value;
    BindIsSound(e.operand, schema, params, false, row);
    if e.In? {
      BindAllIsSound(e.values, schema, params, row);
      InIsSound(b, schema, params, row);
    } else {
      BindIsSound(e.pattern, schema, params, false, row);
      LikeIsSound(b, schema, params, row);
    }
  }

  /**
   Type soundness: on a conforming row a bound expression is never stuck; its value is NULL or lies
   inside the type derived for it.
   */
  lemma {:induction false} BindIsSound(e: Expr, schema: Schema, params: Params, allowAlias: bool, row: Row)
    requires Ready(schema, params, row) && WellFormed(e) && Supplied(Walk(e), params)
    requires Bind(e, schema, params, allowAlias).Success?
    ensures Sound(Bind(e, schema, params, allowAlias).value, schema, params, row)
    decreases e, 1
  {
    if e.Column? || e.Literal? || e.Parameter? {
      LeafIsSound(e, schema, params, allowAlias, row);
    } else if e.Alias? {
      BindIsSound(e.expression, schema, params, false, row);
    } else {
      AliasFlagOnlyMatters(e, schema, params, allowAlias);
      if e.Comparison? || e.Arithmetic? {
        BoundPairIsSound(e, schema, params, row);
      } else if e.And? || e.Or? {
        BoundJunctionIsSound(e, schema, params, row);
      } else if e.Not? || e.IsNull? {
        BoundTestIsSound(e, schema, params, row);
      } else {
        BoundMatchIsSound(e, schema, params, row);
      }
    }
  }

  lemma AliasFlagOnlyMatters(e: Expr, schema: Schema, params: Params, allowAlias: bool)
    requires !e.Alias?
    ensures Bind(e, schema, params, allowAlias) == Bind(e, schema, params, false)
  {
  }

  lemma ColumnIsSound(n: string, schema: Schema, params: Params, row: Row)
    requires Ready(schema, params, row) && Resolve(schema, n).Some?
    ensures Sound(Column(Resolve(schema, n).value.name), schema, params, row)
  {
    ResolvedNamesAreExact(schema, Resolve(schema, n).value);
  }

  lemma JunctionIsSound(b: Expr, schema: Schema, params: Params, row: Row)
    requires (b.And? || b.Or?) && CheckAllBoolean(b.operands, schema, params).Success?
    requires forall o | o in b.operands :: Sound(o, schema, params, row)
    ensures Sound(b, schema, params, row)
  {
    BooleansAreTruths(b.operands, schema, params, row);
    AllOfTruths(EvalAll(b.operands, row, params));
  }

  lemma NotIsSound(b: Expr, schema: Schema, params: Params, row: Row)
    requires b.Not? && CheckBoolean(b.operand, schema, params).Success?
    requires Sound(b.operand, schema, params, row)
    ensures Sound(b, schema, params, row)
  {
    TypeOfIsTypeUnder(b.operand, schema, params);
  }

  lemma InIsSound(b: Expr, schema: Schema, params: Params, row: Row)
    requires b.In? && CheckAllComparable(b.operand, b.values, schema, params).Success?
    requires Sound(b.operand, schema, params, row) && forall v | v in b.values :: Sound(v, schema, params, row)
    ensures Sound(b, schema, params, row)
  {
    ComparablesRelate(b.operand, b.values, schema, params, row);
    MemberTruth(Eval(b.operand, row, params), EvalAll(b.values, row, params));
  }

  lemma LikeIsSound(b: Expr, schema: Schema, params: Params, row: Row)
    requires b.Like? && CheckText(b.operand, schema, params).Success? && CheckText(b.pattern, schema, params).Success?
    requires Sound(b.operand, schema, params, row) && Sound(b.pattern, schema, params, row)
    ensures Sound(b, schema, params, row)
  {
    TypeOfIsTypeUnder(b.operand, schema, params);
    TypeOfIsTypeUnder(b.pattern, schema, params);
  }

  lemma ComparisonIsSound(b: Expr, schema: Schema, params: Params, row: Row)
    requires b.Comparison?
    requires Sound(b.left, schema, params, row) && Sound(b.right, schema, params, row)
    requires CheckComparable(b.left, b.right, schema, params).Success?
    ensures Sound(b, schema, params, row)
  {
    TypeOfIsTypeUnder(b.left, schema, params);
    TypeOfIsTypeUnder(b.right, schema, params);
    ComparableValuesRelate(
      b.comparison, Eval(b.left, row, params), Eval(b.right, row, params),
      TypeUnder(b.left, schema, params).value, TypeUnder(b.right, schema, params).value);
  }

  lemma ArithmeticIsSound(b: Expr, schema: Schema, params: Params, row: Row)
    requires b.Arithmetic?
    requires Sound(b.left, schema, params, row) && Sound(b.right, schema, params, row)
    requires CheckNumeric(b.left, schema, params).Success? && CheckNumeric(b.right, schema, params).Success?
    requires TypeOf(b, schema, params).Success?
    ensures Sound(b, schema, params, row)
  {
    TypeOfIsTypeUnder(b.left, schema, params);
    TypeOfIsTypeUnder(b.right, schema, params);
    TypeOfIsTypeUnder(b, schema, params);
    ArithmeticConforms(
      b.arithmetic, Eval(b.left, row, params), Eval(b.right, row, params),
      TypeUnder(b.left, schema, params).value, TypeUnder(b.right, schema, params).value,
      TypeUnder(b, schema, params).value);
  }

  lemma {:induction false} BindAllIsSound(es: seq<Expr>, schema: Schema, params: Params, row: Row)
    requires Ready(schema, params, row) && AllWellFormed(es) && Supplied(WalkAll(es), params)
    requires BindAll(es, schema, params).Success?
    ensures forall b | b in BindAll(es, schema, params).value :: Sound(b, schema, params, row)
    decreases es, 0
  {
    if es != [] {
      BindIsSound(es[0], schema, params, false, row);
      BindAllIsSound(es[1..], schema, params, row);
    }
  }

  // ---- whole plans -------------------------------------------------------------------------------------------

  datatype BoundPlan = BoundPlan(parts: Parts, schema: Schema, outputSchema: Schema)

  function Unalias(e: Expr): Expr {
    if e.Alias? then e.expression else e
  }

  lemma BindKeepsShape(e: Expr, schema: Schema, params: Params)
    requires (e.Column? || e.Alias?) && Bind(e, schema, params, true).Success?
    ensures var b := Bind(e, schema, params, true).value;
            (e.Column? ==> b.Column?) && (e.Alias? ==> b.Alias? && b.alias == e.alias)
  {
  }

  /** One projected expression: bound, typed, and named. */
  function BindOutput(e: Expr, schema: Schema, params: Params): Result<(Expr, Field), BindError>
    requires e.Column? || e.Alias?
  {
    var b :- Bind(e, schema, params, true);
    BindKeepsShape(e, schema, params);
    var t :- TypeOf(Unalias(b), schema, params);
    Success((b, Field(OutputName(b), NormalisePortable(t), true)))
  }

  /** The bound projection matches the source one expression by expression, with distinct names. */
  ghost predicate OutputsBound(es: seq<Expr>, bound: seq<Expr>, fields: seq<Field>, schema: Schema, params: Params)
    requires forall e | e in es :: e.Column? || e.Alias?
  {
    && |bound| == |fields| == |es|
    && (forall i | 0 <= i < |es| :: BindOutput(es[i], schema, params) == Success((bound[i], fields[i])))
    && (forall i, j | 0 <= i < j < |es| :: fields[i].name != fields[j].name)
  }

  method BindOutputs(es: seq<Expr>, schema: Schema, params: Params)
    returns (r: Result<(seq<Expr>, seq<Field>), BindError>)
    requires forall e | e in es :: e.Column? || e.Alias?
    ensures r.Success? ==> OutputsBound(es, r.value.0, r.value.1, schema, params)
    ensures r.Failure? ==> forall bound: seq<Expr>, fields: seq<Field> :: !OutputsBound(es, bound, fields, schema, params)
  {
    hide BindOutput;
    var bound: seq<Expr>, fields: seq<Field>, names: set<string> := [], [], {};
    for i := 0 to |es|
      invariant OutputsBound(es[..i], bound, fields, schema, params)
      invariant forall n :: n in names <==> exists f :: f in fields && f.name == n
    {
      var output := BindOutput(es[i], schema, params);
      if output.Failure? {
        return Failure(output.error);
      }
      var (b, field) := output.value;
      if field.name in names {
        ghost var f :| f in fields && f.name == field.name;
        ghost var k :| 0 <= k < i && fields[k] == f;
        assert es[..i][k] == es[k];
        assert BindOutput(es[k], schema, params).value.1.name == BindOutput(es[i], schema, params).value.1.name;
        return Failure(DuplicateOutput(field.name));
      }
      names := names + {field.name};
      assert forall k | 0 <= k < i :: fields[k] in fields;
      bound, fields := bound + [b], fields + [field];
      assert es[..i + 1] == es[..i] + [es[i]];
    }
    assert es[..|es|] == es;
    r := Success((bound, fields));
  }

  function WholeSchema(schema: Schema): Schema {
    seq(|schema|, i requires 0 <= i < |schema| =>
      Field(schema[i].name, NormalisePortable(schema[i].dataType), true))
  }

  /** Whether a predicate binds with a boolean type. */
  predicate FilterBinds(f: Option<Expr>, schema: Schema, params: Params) {
    f.Some? ==>
      var b := Bind(f.value, schema, params, false);
      b.Success? && CheckBoolean(b.value, schema, params).Success?
  }

  /** The rebuilt plan over resolved names, and the portable schema of its output. */
  ghost predicate IsBound(parts: Parts, schema: Schema, params: Params, b: BoundPlan)
    requires parts.Valid()
  {
    && FilterBinds(parts.filter, schema, params)
    && b.parts.filter
       == (if parts.filter.None? then None
           else AndAll(Conjuncts(Bind(parts.filter.value, schema, params, false).value)))
    && b.parts.limit == parts.limit && b.schema == schema
    && (if parts.projection.Some? then
          && b.parts.projection.Some?
          && OutputsBound(parts.projection.value, b.parts.projection.value, b.outputSchema, schema, params)
        else b.parts.projection.None? && b.outputSchema == WholeSchema(schema))
    && (forall f | f in b.outputSchema :: IsPortable(f.dataType))
  }

  /** Semantic validation of a plan: it fails exactly when no bound plan exists, and a bound plan is valid. */
  method BindPlan(parts: Parts, schema: Schema, params: Params) returns (r: Result<BoundPlan, BindError>)
    requires parts.Valid() && ValidSchema(schema)
    ensures r.Success? ==> IsBound(parts, schema, params, r.value) && r.value.parts.Valid()
    ensures r.Failure? ==> forall b :: !IsBound(parts, schema, params, b)
  {
    var filter: Option<Expr> := None;
    if parts.filter.Some? {
      var bound := Bind(parts.filter.value, schema, params, false);
      if bound.Failure? {
        return Failure(bound.error);
      }
      var boolean := CheckBoolean(bound.value, schema, params);
      if boolean.Failure? {
        return Failure(boolean.error);
      }
      filter := Apply(BARE, Where(bound.value)).filter;
      assert ConjunctsOf(None) + Conjuncts(bound.value) == Conjuncts(bound.value);
    }
    var projection: Option<seq<Expr>>, fields := None, WholeSchema(schema);
    if parts.projection.Some? {
      var outputs := BindOutputs(parts.projection.value, schema, params);
      if outputs.Failure? {
        return Failure(outputs.error);
      }
      projection, fields := Some(outputs.value.0), outputs.value.1;
      OutputsAreUnique(parts.projection.value, projection.value, fields, schema, params);
    }
    for i := 0 to |fields|
      invariant forall k | 0 <= k < i :: IsPortable(fields[k].dataType)
    {
      if !IsPortable(fields[i].dataType) {
        assert fields[i] in fields;
        return Failure(NotPortable(fields[i].dataType));
      }
    }
    var bound := BoundPlan(Parts(filter, projection, parts.limit), schema, fields);
    BoundPartsValid(parts, schema, params, bound);
    r := Success(bound);
  }

  lemma OutputsAreUnique(es: seq<Expr>, bound: seq<Expr>, fields: seq<Field>, schema: Schema, params: Params)
    requires forall e | e in es :: e.Column? || e.Alias?
    requires OutputsBound(es, bound, fields, schema, params)
    ensures forall b, f | OutputsBound(es, b, f, schema, params) :: b == bound && f == fields
  {
    forall b, f | OutputsBound(es, b, f, schema, params)
      ensures b == bound && f == fields
    {
      assert forall i | 0 <= i < |es| :: BindOutput(es[i], schema, params).value == (b[i], f[i]);
    }
  }

  lemma OutputKeepsForm(e: Expr, schema: Schema, params: Params)
    requires ValidSchema(schema) && WellFormed(e) && (e.Column? || e.Alias?) && BindOutput(e, schema, params).Success?
    ensures var (b, field) := BindOutput(e, schema, params).value;
            WellFormed(b) && (b.Column? || b.Alias?) && OutputName(b) == field.name
  {
    BindKeepsForm(e, schema, params, true);
    BindKeepsShape(e, schema, params);
  }

  lemma BoundPartsValid(parts: Parts, schema: Schema, params: Params, b: BoundPlan)
    requires parts.Valid() && ValidSchema(schema) && IsBound(parts, schema, params, b)
    ensures b.parts.Valid()
  {
    if parts.filter.Some? {
      var f := parts.filter.value;
      var bound := Bind(f, schema, params, false).value;
      BindKeepsForm(f, schema, params, false);
      BoundHasConjuncts(f, schema, params);
      ClausesWellFormed(bound);
      AllWellFormedIff(Conjuncts(bound));
    }
    if parts.projection.Some? {
      var es, bs, fields := parts.projection.value, b.parts.projection.value, b.outputSchema;
      AllWellFormedIff(es);
      forall i | 0 <= i < |es|
        ensures WellFormed(bs[i]) && (bs[i].Column? || bs[i].Alias?) && OutputName(bs[i]) == fields[i].name
      {
        assert es[i] in es;
        OutputKeepsForm(es[i], schema, params);
      }
      AllWellFormedIff(bs);
    }
  }

  // A bound plan is sound.

  lemma {:induction false} ConjunctTruths(e: Expr, row: Row, params: Params)
    requires Eval(e, row, params).Truth()
    ensures forall c | c in Conjuncts(e) :: Eval(c, row, params).Truth()
    decreases e, 1
  {
    if e.And? {
      AllConjunctTruths(e.operands, row, params);
    }
  }

  lemma {:induction false} AllConjunctTruths(es: seq<Expr>, row: Row, params: Params)
    requires AllOf(EvalAll(es, row, params)).Truth()
    ensures forall c | c in ConjunctsAll(es) :: Eval(c, row, params).Truth()
    decreases es, 0
  {
    if es != [] {
      var vs := EvalAll(es, row, params);
      assert vs[1..] == EvalAll(es[1..], row, params);
      ConjunctTruths(es[0], row, params);
      AllConjunctTruths(es[1..], row, params);
    }
  }

  lemma EvalAllTruths(es: seq<Expr>, row: Row, params: Params)
    requires forall e | e in es :: Eval(e, row, params).Truth()
    ensures forall v | v in EvalAll(es, row, params) :: v.Truth()
  {
    forall i | 0 <= i < |es|
      ensures EvalAll(es, row, params)[i].Truth()
    {
      EvalAllAt(es, row, params, i);
    }
  }

  /** WHERE on a bound plan is TRUE, FALSE or UNKNOWN on every conforming row, and means what was bound. */
  lemma BoundFilterIsSound(f: Expr, schema: Schema, params: Params, row: Row)
    requires Ready(schema, params, row) && WellFormed(f) && Supplied(Walk(f), params)
    requires FilterBinds(Some(f), schema, params)
    ensures var b := Bind(f, schema, params, false).value;
            && AndAll(Conjuncts(b)).Some?
            && Eval(AndAll(Conjuncts(b)).value, row, params).Truth()
            && (IsTrue(AndAll(Conjuncts(b)).value, row, params) <==> IsTrue(b, row, params))
  {
    var b := Bind(f, schema, params, false).value;
    BindIsSound(f, schema, params, false, row);
    TypeOfIsTypeUnder(b, schema, params);
    ConjunctTruths(b, row, params);
    BoundHasConjuncts(f, schema, params);
    var cs := Conjuncts(b);
    if |cs| > 1 {
      EvalAllTruths(cs, row, params);
      AllOfTruths(EvalAll(cs, row, params));
    }
    ConjunctsAreNotAnds(b);
    ConjunctsOfAndAll(cs);
    TrueIffConjunctsTrue(AndAll(cs).value, row, params);
    TrueIffConjunctsTrue(b, row, params);
  }

  lemma BoundHasConjuncts(f: Expr, schema: Schema, params: Params)
    requires WellFormed(f) && Bind(f, schema, params, false).Success?
    ensures Conjuncts(Bind(f, schema, params, false).value) != []
    decreases f
  {
    if f.And? {
      BoundHasConjuncts(f.operands[0], schema, params);
    }
  }

  lemma {:induction false} NormalisedConforms(v: Value, t: DataType)
    requires t.Valid() && Conforms(v, t)
    ensures NormalisePortable(t).Valid() && Conforms(v, NormalisePortable(t))
  {
    match t
    case ListType(e) => NormalisedConforms(Null, e);
    case StructType(fs) =>
      forall i | 0 <= i < |fs|
        ensures NormalisePortable(fs[i].1).Valid()
      {
        assert fs[i] in fs;
        NormalisedConforms(Null, fs[i].1);
      }
    case _ =>
  }

  /** Each output of a bound plan conforms to the declared output field on every conforming row. */
  lemma BoundOutputIsSound(e: Expr, schema: Schema, params: Params, row: Row)
    requires Ready(schema, params, row) && WellFormed(e) && Supplied(Walk(e), params)
    requires (e.Column? || e.Alias?) && BindOutput(e, schema, params).Success?
    ensures var (b, field) := BindOutput(e, schema, params).value;
            field.dataType.Valid() && Conforms(Eval(b, row, params), field.dataType)
  {
    var (b, field) := BindOutput(e, schema, params).value;
    BindIsSound(e, schema, params, true, row);
    TypeOfIsTypeUnder(Unalias(b), schema, params);
    NormalisedConforms(Eval(b, row, params), TypeOf(Unalias(b), schema, params).value);
  }

  lemma {:induction false} ProjectRowAt(es: seq<Expr>, row: Row, params: Params, i: nat)
    requires i < |es| && (forall e | e in es :: e.Column? || e.Alias?)
    requires forall j, k | 0 <= j < k < |es| :: OutputName(es[j]) != OutputName(es[k])
    ensures OutputName(es[i]) in ProjectRow(es, row, params)
    ensures ProjectRow(es, row, params)[OutputName(es[i])] == Eval(es[i], row, params)
  {
    if i > 0 {
      ProjectRowAt(es[1..], row, params, i - 1);
    }
  }

  /** A row every schema admits. */
  function NullRow(schema: Schema): Row {
    map n | n in Names(schema) :: Null
  }

  lemma NullRowConforms(schema: Schema)
    requires ValidSchema(schema)
    ensures RowConforms(NullRow(schema), schema)
  {
    forall f | f in schema
      ensures f.name in NullRow(schema) && Conforms(NullRow(schema)[f.name], f.dataType)
    {
      var i :| 0 <= i < |schema| && schema[i] == f;
      assert Names(schema)[i] == f.name;
    }
  }

  lemma OutputSchemaValid(parts: Parts, schema: Schema, params: Params, b: BoundPlan)
    requires parts.Valid() && ValidSchema(schema) && KnownScalars(schema) && ValidParams(params)
    requires IsBound(parts, schema, params, b)
    requires parts.projection.Some? ==> Supplied(WalkAll(parts.projection.value), params)
    ensures ValidSchema(b.outputSchema)
  {
    NullRowConforms(schema);
    if parts.projection.Some? {
      var es := parts.projection.value;
      AllWellFormedIff(es);
      forall i | 0 <= i < |es|
        ensures b.outputSchema[i].name != [] && b.outputSchema[i].dataType.Valid()
      {
        assert es[i] in es;
        WalkAllContains(es, es[i]);
        OutputKeepsForm(es[i], schema, params);
        BoundOutputIsSound(es[i], schema, params, NullRow(schema));
      }
    } else {
      forall i | 0 <= i < |schema|
        ensures b.outputSchema[i].name != [] && b.outputSchema[i].dataType.Valid()
      {
        assert schema[i] in schema;
        NormalisedConforms(Null, schema[i].dataType);
      }
    }
  }

  lemma ProjectedRowConforms(parts: Parts, schema: Schema, params: Params, b: BoundPlan, row: Row)
    requires parts.Valid() && Ready(schema, params, row) && IsBound(parts, schema, params, b)
    requires parts.projection.Some? && Supplied(WalkAll(parts.projection.value), params)
    requires b.parts.Valid() && ValidSchema(b.outputSchema)
    ensures RowConforms(ProjectRow(b.parts.projection.value, row, params), b.outputSchema)
  {
    var es, bs := parts.projection.value, b.parts.projection.value;
    AllWellFormedIff(es);
    hide Eval, Conforms, Walk;
    forall f | f in b.outputSchema
      ensures f.name in ProjectRow(bs, row, params) && Conforms(ProjectRow(bs, row, params)[f.name], f.dataType)
    {
      var i :| 0 <= i < |es| && b.outputSchema[i] == f;
      assert es[i] in es;
      WalkAllContains(es, es[i]);
      OutputKeepsForm(es[i], schema, params);
      BoundOutputIsSound(es[i], schema, params, row);
      ProjectRowAt(bs, row, params, i);
    }
  }

  lemma WholeRowConforms(schema: Schema, row: Row)
    requires ValidSchema(schema) && RowConforms(row, schema) && ValidSchema(WholeSchema(schema))
    ensures RowConforms(row, WholeSchema(schema))
  {
    forall f | f in WholeSchema(schema)
      ensures f.name in row && Conforms(row[f.name], f.dataType)
    {
      var i :| 0 <= i < |schema| && WholeSchema(schema)[i] == f;
      assert schema[i] in schema;
      NormalisedConforms(row[schema[i].name], schema[i].dataType);
    }
  }

  lemma {:induction false} FilteredComeFrom(f: Expr, rows: seq<Row>, params: Params)
    ensures forall row | row in FilterRows(f, rows, params) :: row in rows
  {
    hide IsTrue;
    if rows != [] {
      FilteredComeFrom(f, rows[1..], params);
    }
  }

  /** Every row a bound plan answers with conforms to the plan's output schema. */
  lemma BoundAnswerConforms(parts: Parts, schema: Schema, params: Params, b: BoundPlan, table: seq<Row>)
    requires parts.Valid() && ValidSchema(schema) && KnownScalars(schema) && ValidParams(params)
    requires IsBound(parts, schema, params, b) && forall row | row in table :: RowConforms(row, schema)
    requires parts.projection.Some? ==> Supplied(WalkAll(parts.projection.value), params)
    ensures b.parts.Valid() && ValidSchema(b.outputSchema)
    ensures forall row | row in Answer(b.parts, table, params) :: RowConforms(row, b.outputSchema)
  {
    BoundPartsValid(parts, schema, params, b);
    OutputSchemaValid(parts, schema, params, b);
    var kept := FilterBy(b.parts.filter, table, params);
    var out := ProjectBy(b.parts.projection, kept, params);
    if b.parts.filter.Some? {
      FilteredComeFrom(b.parts.filter.value, table, params);
    }
    forall i | 0 <= i < |out|
      ensures RowConforms(out[i], b.outputSchema)
    {
      assert kept[i] in kept;
      if parts.projection.Some? {
        ProjectedRowConforms(parts, schema, params, b, kept[i]);
      } else {
        WholeRowConforms(schema, kept[i]);
      }
    }
  }
}
