/**
 The MongoDB scan: conjuncts with a faithful `find()` translation go to the server, the rest are
 evaluated on converted rows before the limit. A missing field reads as NULL.
 */
module Mongo {
  import opened Wrappers
  import opened Values
  import opened Types
  import opened LikePatterns
  import opened Expressions
  import opened Plans
  import opened Execution
  import opened Streams

  // ObjectId columns are not part of this model.

  type Document = map<string, Value>

  function Field(doc: Document, c: string): Value {
    if c in doc then doc[c] else Null
  }

  /** A converted row over the given columns. */
  function ConvertRow(doc: Document, columns: seq<string>): Row {
    map c | c in columns :: Field(doc, c)
  }

  // ---- find() documents --------------------------------------------------------------------------

  datatype Query =
    | Compared(column: string, op: ComparisonOp, value: Value)
    | NotEqual(column: string, value: Value)
    | EqualsNull(column: string) | NotEqualsNull(column: string)
    | InList(column: string, values: seq<Value>) | NotInList(column: string, values: seq<Value>)
    | Regex(column: string, text: string) | NotRegex(column: string, text: string)
    | Both(queries: seq<Query>) | Either(queries: seq<Query>)

  predicate RegexMatches(x: Value, text: string) {
    x.Text? && Accepts(Bson, text, x.s)
  }

  /** Comparison operators never match null or missing fields; `$ne`, `$nin` and `$not` do. */
  predicate Matches(q: Query, doc: Document)
    decreases q, 1
  {
    match q
    case Compared(c, op, v) =>
      var x := Field(doc, c);
      x.Present() && !Compare(x, v).Incomparable? && op.Holds(Compare(x, v))
    case NotEqual(c, v) => !Equals(Field(doc, c), v)
    case EqualsNull(c) => Field(doc, c).Null?
    case NotEqualsNull(c) => !Field(doc, c).Null?
    case InList(c, vs) => exists v :: v in vs && Equals(Field(doc, c), v)
    case NotInList(c, vs) => !exists v :: v in vs && Equals(Field(doc, c), v)
    case Regex(c, p) => RegexMatches(Field(doc, c), p)
    case NotRegex(c, p) => !RegexMatches(Field(doc, c), p)
    case Both(qs) => AllMatch(qs, doc)
    case Either(qs) => AnyMatches(qs, doc)
  }

  predicate AllMatch(qs: seq<Query>, doc: Document)
    decreases qs, 0
  {
    qs == [] || (Matches(qs[0], doc) && AllMatch(qs[1..], doc))
  }

  predicate AnyMatches(qs: seq<Query>, doc: Document)
    decreases qs, 0
  {
    qs != [] && (Matches(qs[0], doc) || AnyMatches(qs[1..], doc))
  }

  // ---- translation ------------------------------------------------------------------------------------

  /**
   Columns whose stored values were stringified, whether string predicates must stay local, and which
   stored values a column's converter accepts.
   */
  datatype Collection = Collection(
    localColumns: set<string>, forceLocalStrings: bool, accepts: (string, Value) -> bool)

  function TranslateComparison(column: string, op: ComparisonOp, v: Value, k: Collection): Option<Query> {
    if column in k.localColumns || v.Null? || (k.forceLocalStrings && v.Text?) then None
    else if op.NE? then Some(Both([NotEqual(column, v), NotEqualsNull(column)]))
    else Some(Compared(column, op, v))
  }

  /** The non-null literal members; None when a member is not a usable literal. */
  function ListMembers(es: seq<Expr>, negated: bool, k: Collection): Option<seq<Value>> {
    if es == [] then Some([])
    else if !es[0].Literal? then None
    else
      var v := es[0].lit.value;
      var rest := ListMembers(es[1..], negated, k);
      if v.Null? then if negated then None else rest
      else if k.forceLocalStrings && v.Text? then None
      else if rest.None? then None else Some([v] + rest.value)
  }

  function TranslateIn(e: Expr, k: Collection): Option<Query>
    requires e.In?
  {
    if !e.operand.Column? || e.operand.name in k.localColumns then None
    else
      var vs := ListMembers(e.values, e.negated, k);
      if vs.None? || vs.value == [] then None
      else if e.negated then Some(Both([NotInList(e.operand.name, vs.value), NotEqualsNull(e.operand.name)]))
      else Some(InList(e.operand.name, vs.value))
  }

  function TranslateLike(e: Expr, k: Collection): Option<Query>
    requires e.Like?
  {
    if !e.operand.Column? || e.operand.name in k.localColumns || k.forceLocalStrings then None
    else if !e.pattern.Literal? || !e.pattern.lit.value.Text? then None
    else
      var text := LikeToRegex(Bson, e.pattern.lit.value.s);
      if e.negated then Some(Both([NotRegex(e.operand.name, text), NotEqualsNull(e.operand.name)]))
      else Some(Regex(e.operand.name, text))
  }

  /** A faithful `find()` document, or None when the conjunct must be evaluated in-process. */
  function Translate(e: Expr, k: Collection): Option<Query>
    decreases e, 1
  {
    match e
    case And(os) => var qs := TranslateAll(os, k); if qs.None? then None else Some(Both(qs.value))
    case Or(os) => var qs := TranslateAll(os, k); if qs.None? then None else Some(Either(qs.value))
    case Comparison(op, l, r) =>
      if l.Column? && r.Literal? then TranslateComparison(l.name, op, r.lit.value, k)
      else if l.Literal? && r.Column? then TranslateComparison(r.name, Mirror(op), l.lit.value, k)
      else None
    case IsNull(o, negated) =>
      if !o.Column? then None else Some(if negated then NotEqualsNull(o.name) else EqualsNull(o.name))
    case In(_, _, _) => TranslateIn(e, k)
    case Like(_, _, _) => TranslateLike(e, k)
    case _ => None
  }

  function TranslateAll(es: seq<Expr>, k: Collection): (r: Option<seq<Query>>)
    ensures r.Some? ==> |r.value| == |es|
    decreases es, 0
  {
    if es == [] then Some([])
    else
      var q, qs := Translate(es[0], k), TranslateAll(es[1..], k);
      if q.None? || qs.None? then None else Some([q.value] + qs.value)
  }

  // ---- a native document matches exactly the rows where its conjunct is TRUE -----------------------------

  /** The row reads every column the nodes mention as the document's field. */
  ghost predicate Reads(nodes: seq<Expr>, row: Row, doc: Document) {
    forall n | n in nodes && n.Column? :: Lookup(row, n.name) == Field(doc, n.name)
  }

  lemma PairMatches(q: Query, r: Query, doc: Document)
    ensures Matches(Both([q, r]), doc) <==> Matches(q, doc) && Matches(r, doc)
  {
    assert [q, r][1..] == [r] && [r][1..] == [];
    assert AllMatch([r], doc) <==> Matches(r, doc) && AllMatch([], doc);
    assert AllMatch([q, r], doc) <==> Matches(q, doc) && AllMatch([r], doc);
  }

  lemma ComparisonMatches(c: string, op: ComparisonOp, v: Value, k: Collection, doc: Document)
    requires TranslateComparison(c, op, v, k).Some? && !Relate(op, Field(doc, c), v).Fault?
    ensures Matches(TranslateComparison(c, op, v, k).value, doc) <==> Relate(op, Field(doc, c), v) == TRUE
  {
    hide Compare;
    PairMatches(NotEqual(c, v), NotEqualsNull(c), doc);
  }

  /** The members kept are exactly the non-null ones, and a negated list has no NULL. */
  lemma {:induction false} MembersKept(es: seq<Expr>, negated: bool, k: Collection, row: Row)
    requires ListMembers(es, negated, k).Some?
    ensures var all, kept := EvalAll(es, row, map[]), ListMembers(es, negated, k).value;
            && (forall v :: v in kept <==> v in all && !v.Null?)
            && (negated ==> forall v | v in all :: !v.Null?)
  {
    if es != [] {
      MembersKept(es[1..], negated, k, row);
      var all, rest := EvalAll(es, row, map[]), EvalAll(es[1..], row, map[]);
      assert all[0] == es[0].lit.value && all[1..] == rest;
      assert forall v :: v in all <==> v == all[0] || v in all[1..];
    }
  }

  lemma InMatches(e: Expr, k: Collection, row: Row, doc: Document)
    requires e.In? && TranslateIn(e, k).Some? && Reads(Walk(e), row, doc) && !Eval(e, row, map[]).Fault?
    ensures Matches(TranslateIn(e, k).value, doc) <==> Eval(e, row, map[]) == TRUE
  {
    var c, all := e.operand.name, EvalAll(e.values, row, map[]);
    var x, kept := Field(doc, c), ListMembers(e.values, e.negated, k).value;
    assert e.operand in Walk(e.operand) && Eval(e.operand, row, map[]) == x;
    assert Eval(e, row, map[]) == Negate(Member3(x, all), e.negated);
    MembersKept(e.values, e.negated, k, row);
    assert kept[0] in kept;
    hide Member3, Compare, ListMembers, Equals, Eval, EvalAll;
    ListTruth(x, all, kept, e.negated);
    PairMatches(NotInList(c, kept), NotEqualsNull(c), doc);
  }

  /** SQL's membership is TRUE exactly where the two-valued list test, guarded against NULL, holds. */
  lemma ListTruth(x: Value, all: seq<Value>, kept: seq<Value>, negated: bool)
    requires !Member3(x, all).Fault? && kept != [] && forall v :: v in kept <==> v in all && !v.Null?
    requires negated ==> forall v | v in all :: !v.Null?
    ensures Negate(Member3(x, all), negated) == TRUE
            <==> if negated then !x.Null? && !exists v :: v in kept && Equals(x, v) else exists v :: v in kept && Equals(x, v)
  {
    MembershipTruth(x, all);
    hide Member3, Relate, Equals;
    assert kept[0] in kept;
    forall v | v in all
      ensures Relate(EQ, x, v) == TRUE <==> !v.Null? && Equals(x, v)
      ensures Relate(EQ, x, v) == FALSE <==> !v.Null? && x.Present() && !Equals(x, v)
    {
      EqualRelates(x, v);
    }
  }

  lemma LikeMatches(e: Expr, k: Collection, row: Row, doc: Document)
    requires e.Like? && TranslateLike(e, k).Some? && Reads(Walk(e), row, doc) && !Eval(e, row, map[]).Fault?
    ensures Matches(TranslateLike(e, k).value, doc) <==> Eval(e, row, map[]) == TRUE
  {
    var c, p := e.operand.name, e.pattern.lit.value;
    assert e.operand in Walk(e.operand) && Eval(e.operand, row, map[]) == Field(doc, c);
    assert Eval(e, row, map[]) == Negate(LikeValue(Field(doc, c), p), e.negated);
    PairMatches(NotRegex(c, LikeToRegex(Bson, p.s)), NotEqualsNull(c), doc);
    if Field(doc, c).Text? {
      CompiledRegexMatchesLike(Bson, p.s, Field(doc, c).s);
    }
    hide Accepts, LikeMatch, LikeToRegex;
  }

  lemma NullMatches(e: Expr, k: Collection, row: Row, doc: Document)
    requires e.IsNull? && e.operand.Column? && Reads(Walk(e), row, doc) && !Eval(e, row, map[]).Fault?
    ensures Matches(Translate(e, k).value, doc) <==> Eval(e, row, map[]) == TRUE
  {
    assert e.operand in Walk(e.operand) && Eval(e.operand, row, map[]) == Field(doc, e.operand.name);
  }

  lemma ComparisonConjunctMatches(e: Expr, k: Collection, row: Row, doc: Document)
    requires e.Comparison? && Translate(e, k).Some? && Reads(Walk(e), row, doc) && !Eval(e, row, map[]).Fault?
    ensures Matches(Translate(e, k).value, doc) <==> Eval(e, row, map[]) == TRUE
  {
    assert Eval(e, row, map[]) == Relate(e.comparison, Eval(e.left, row, map[]), Eval(e.right, row, map[]));
    hide Relate, Matches, TranslateComparison;
    if e.left.Column? {
      assert e.left in Walk(e.left) && Eval(e.left, row, map[]) == Field(doc, e.left.name);
      ComparisonMatches(e.left.name, e.comparison, e.right.lit.value, k, doc);
    } else {
      assert e.right in Walk(e.right) && Eval(e.right, row, map[]) == Field(doc, e.right.name);
      MirroredRelates(e.comparison, e.left.lit.value, Field(doc, e.right.name));
      ComparisonMatches(e.right.name, Mirror(e.comparison), e.left.lit.value, k, doc);
    }
  }

  /**
   A native document matches a document exactly when its conjunct is TRUE on the converted row,
   although `$ne`, `$nin` and `$not` also match null and missing fields.
   */
  lemma {:induction false} NativeMatchesTruth(e: Expr, k: Collection, row: Row, doc: Document)
    requires Translate(e, k).Some? && Reads(Walk(e), row, doc) && !Eval(e, row, map[]).Fault?
    ensures Matches(Translate(e, k).value, doc) <==> Eval(e, row, map[]) == TRUE
    decreases e, 1
  {
    match e
    case And(os) => NativeAllMatchTruth(os, k, row, doc);
    case Or(os) => NativeAllMatchTruth(os, k, row, doc);
    case Comparison(_, _, _) => ComparisonConjunctMatches(e, k, row, doc);
    case IsNull(_, _) => NullMatches(e, k, row, doc);
    case In(_, _, _) => InMatches(e, k, row, doc);
    case Like(_, _, _) => LikeMatches(e, k, row, doc);
  }

  lemma {:induction false} NativeAllMatchTruth(es: seq<Expr>, k: Collection, row: Row, doc: Document)
    requires TranslateAll(es, k).Some? && Reads(WalkAll(es), row, doc)
    ensures var vs, qs := EvalAll(es, row, map[]), TranslateAll(es, k).value;
            && (!AllOf(vs).Fault? ==> (AllMatch(qs, doc) <==> AllOf(vs) == TRUE))
            && (!AnyOf(vs).Fault? ==> (AnyMatches(qs, doc) <==> AnyOf(vs) == TRUE))
    decreases es, 0
  {
    hide Matches;
    if es != [] {
      var vs, qs := EvalAll(es, row, map[]), TranslateAll(es, k).value;
      assert vs[0] == Eval(es[0], row, map[]) && vs[1..] == EvalAll(es[1..], row, map[]);
      assert qs[0] == Translate(es[0], k).value && qs[1..] == TranslateAll(es[1..], k).value;
      NativeAllMatchTruth(es[1..], k, row, doc);
      if !vs[0].Fault? {
        NativeMatchesTruth(es[0], k, row, doc);
      }
    }
  }

  // ---- in-process evaluation -------------------------------------------------------------------------------

  datatype ScanError = UnknownColumn(name: string) | MissingParameter(name: string) | CannotConvert | CannotEvaluate

  function Scalar(e: Expr, row: Row): Result<Value, ScanError> {
    if e.Column? then Success(if e.name in row then row[e.name] else Null)
    else if e.Literal? then Success(e.lit.value)
    else Failure(CannotEvaluate)
  }

  /** `x IN (es)` by a scan that stops at the first equal member and remembers a NULL one. */
  function ScanMembers(x: Value, es: seq<Expr>, row: Row, negated: bool, sawNull: bool): Result<Value, ScanError> {
    if es == [] then Success(if sawNull then Null else Bool(negated))
    else
      var v :- Scalar(es[0], row);
      if v.Null? then ScanMembers(x, es[1..], row, negated, true)
      else if Compare(x, v).Equal? then Success(Bool(!negated))
      else ScanMembers(x, es[1..], row, negated, sawNull)
  }

  /** The short-circuiting three-valued evaluation of a conjunct on a row. */
  function Evaluate(e: Expr, row: Row): Result<Value, ScanError>
    decreases e, 1
  {
    match e
    case And(os) => EvaluateAnd(os, row, TRUE)
    case Or(os) => EvaluateOr(os, row, FALSE)
    case Not(o) =>
      var v :- Evaluate(o, row);
      Success(Not3(v))
    case IsNull(o, negated) =>
      var v :- Scalar(o, row);
      Success(Bool(v.Null? != negated))
    case Comparison(op, l, r) =>
      var a :- Scalar(l, row);
      var b :- Scalar(r, row);
      Success(if a.Null? || b.Null? then Null else PythonCompare(op, a, b))
    case In(o, vs, negated) =>
      var x :- Scalar(o, row);
      if x.Null? then Success(Null) else ScanMembers(x, vs, row, negated, false)
    case Like(o, p, negated) =>
      var x :- Scalar(o, row);
      var pattern :- Scalar(p, row);
      Success(
        if x.Null? || pattern.Null? then Null
        else if x.Text? && pattern.Text? then Bool(Accepts(Bson, LikeToRegex(Bson, pattern.s), x.s) != negated)
        else Fault)
    case _ => Failure(CannotEvaluate)
  }

  /** Stops at FALSE; otherwise remembers whether an operand was UNKNOWN. */
  function EvaluateAnd(es: seq<Expr>, row: Row, sofar: Value): Result<Value, ScanError>
    decreases es, 0
  {
    if es == [] then Success(sofar)
    else
      var v :- Evaluate(es[0], row);
      if v == FALSE then Success(FALSE) else EvaluateAnd(es[1..], row, if v.Null? then Null else sofar)
  }

  function EvaluateOr(es: seq<Expr>, row: Row, sofar: Value): Result<Value, ScanError>
    decreases es, 0
  {
    if es == [] then Success(sofar)
    else
      var v :- Evaluate(es[0], row);
      if v == TRUE then Success(TRUE) else EvaluateOr(es[1..], row, if v.Null? then Null else sofar)
  }

  predicate IsScalar(e: Expr) {
    e.Column? || e.Literal?
  }

  lemma ScalarIsEval(e: Expr, row: Row)
    requires Scalar(e, row).Success? && !Eval(e, row, map[]).Fault?
    ensures Scalar(e, row) == Success(Eval(e, row, map[]))
  {
  }

  lemma {:induction false} ScanIsMembership(x: Value, es: seq<Expr>, row: Row, negated: bool, sawNull: bool)
    requires x.Present() && !Member3(x, EvalAll(es, row, map[])).Fault?
    requires ScanMembers(x, es, row, negated, sawNull).Success?
    ensures var member := Member3(x, EvalAll(es, row, map[]));
            ScanMembers(x, es, row, negated, sawNull)
            == Success(Negate(if sawNull then Or3(Null, member) else member, negated))
  {
    hide Compare, Scalar;
    if es != [] {
      var vs := EvalAll(es, row, map[]);
      assert vs[0] == Eval(es[0], row, map[]) && vs[1..] == EvalAll(es[1..], row, map[]);
      ScalarIsEval(es[0], row);
      if vs[0].Null? || !Compare(x, vs[0]).Equal? {
        ScanIsMembership(x, es[1..], row, negated, sawNull || vs[0].Null?);
      }
    }
  }

  lemma LocalComparisonIsEval(e: Expr, row: Row)
    requires e.Comparison? && Evaluate(e, row).Success? && !Eval(e, row, map[]).Fault?
    ensures Evaluate(e, row) == Success(Eval(e, row, map[]))
  {
    assert Eval(e, row, map[]) == Relate(e.comparison, Eval(e.left, row, map[]), Eval(e.right, row, map[]));
    ScalarIsEval(e.left, row);
    ScalarIsEval(e.right, row);
    hide Compare, Scalar;
  }

  lemma LocalInIsEval(e: Expr, row: Row)
    requires e.In? && Evaluate(e, row).Success? && e.values != [] && !Eval(e, row, map[]).Fault?
    ensures Evaluate(e, row) == Success(Eval(e, row, map[]))
  {
    var x, vs := Eval(e.operand, row, map[]), EvalAll(e.values, row, map[]);
    assert Eval(e, row, map[]) == Negate(Member3(x, vs), e.negated);
    MembershipTruth(x, vs);
    assert vs[0] in vs && Relate(EQ, x, vs[0]).Truth();
    ScalarIsEval(e.operand, row);
    if x.Null? {
      MemberOfNull(vs);
    } else {
      ScanIsMembership(x, e.values, row, e.negated, false);
    }
  }

  lemma LocalTestIsEval(e: Expr, row: Row)
    requires (e.IsNull? || e.Like?) && Evaluate(e, row).Success? && !Eval(e, row, map[]).Fault?
    ensures Evaluate(e, row) == Success(Eval(e, row, map[]))
  {
    if e.IsNull? {
      assert !Eval(e.operand, row, map[]).Fault?;
      ScalarIsEval(e.operand, row);
    } else {
      assert Eval(e, row, map[]) == Negate(LikeValue(Eval(e.operand, row, map[]), Eval(e.pattern, row, map[])), e.negated);
      ScalarIsEval(e.operand, row);
      ScalarIsEval(e.pattern, row);
      var x, p := Eval(e.operand, row, map[]), Eval(e.pattern, row, map[]);
      if x.Text? && p.Text? {
        CompiledRegexMatchesLike(Bson, p.s, x.s);
      }
      hide Accepts, LikeMatch, LikeToRegex;
    }
  }

  /** Whenever in-process evaluation does not raise, it gives the conjunct's SQL truth value. */
  lemma {:induction false} LocalIsEval(e: Expr, row: Row)
    requires WellFormed(e) && Evaluate(e, row).Success? && !Eval(e, row, map[]).Fault?
    ensures Evaluate(e, row) == Success(Eval(e, row, map[]))
    decreases e, 1
  {
    match e
    case And(os) => LocalAndIsEval(os, row, TRUE);
    case Or(os) => LocalOrIsEval(os, row, FALSE);
    case Not(o) => LocalIsEval(o, row);
    case Comparison(_, _, _) => LocalComparisonIsEval(e, row);
    case In(_, _, _) => LocalInIsEval(e, row);
    case _ => LocalTestIsEval(e, row);
  }

  lemma {:induction false} LocalAndIsEval(es: seq<Expr>, row: Row, sofar: Value)
    requires AllWellFormed(es) && sofar in {TRUE, Null} && EvaluateAnd(es, row, sofar).Success?
    requires !AllOf(EvalAll(es, row, map[])).Fault?
    ensures EvaluateAnd(es, row, sofar) == Success(And3(sofar, AllOf(EvalAll(es, row, map[]))))
    decreases es, 0
  {
    if es != [] {
      var vs := EvalAll(es, row, map[]);
      assert vs[0] == Eval(es[0], row, map[]) && vs[1..] == EvalAll(es[1..], row, map[]);
      LocalIsEval(es[0], row);
      if vs[0] != FALSE {
        LocalAndIsEval(es[1..], row, if vs[0].Null? then Null else sofar);
      }
    }
  }

  lemma {:induction false} LocalOrIsEval(es: seq<Expr>, row: Row, sofar: Value)
    requires AllWellFormed(es) && sofar in {FALSE, Null} && EvaluateOr(es, row, sofar).Success?
    requires !AnyOf(EvalAll(es, row, map[])).Fault?
    ensures EvaluateOr(es, row, sofar) == Success(Or3(sofar, AnyOf(EvalAll(es, row, map[]))))
    decreases es, 0
  {
    if es != [] {
      var vs := EvalAll(es, row, map[]);
      assert vs[0] == Eval(es[0], row, map[]) && vs[1..] == EvalAll(es[1..], row, map[]);
      LocalIsEval(es[0], row);
      if vs[0] != TRUE {
        LocalOrIsEval(es[1..], row, if vs[0].Null? then Null else sofar);
      }
    }
  }

  /**
   Evaluation meets a node it cannot evaluate: a predicate that is no test, or a test of something that
   is neither column nor literal. It meets an operand of AND when none before it is FALSE, and one of
   OR when none before it is TRUE.
   */
  predicate Rejects(e: Expr, row: Row)
    decreases e, 1
  {
    match e
    case And(os) => RejectsOne(os, row, FALSE)
    case Or(os) => RejectsOne(os, row, TRUE)
    case Not(o) => Rejects(o, row)
    case IsNull(o, _) => !IsScalar(o)
    case Comparison(_, l, r) => !IsScalar(l) || !IsScalar(r)
    case In(o, _, _) => !IsScalar(o)
    case Like(o, _, _) => !IsScalar(o)
    case _ => true
  }

  predicate RejectsOne(es: seq<Expr>, row: Row, decisive: Value)
    decreases es, 0
  {
    es != [] && (Rejects(es[0], row) || (Eval(es[0], row, map[]) != decisive && RejectsOne(es[1..], row, decisive)))
  }

  /** Parameters are in place, so a defined list or pattern holds literals only. */
  lemma ConstantsAreLiterals(e: Expr, row: Row)
    requires (e.In? || e.Like?) && WellFormed(e) && !Eval(e, row, map[]).Fault?
    ensures e.In? ==> forall v | v in e.values :: IsScalar(v)
    ensures e.Like? ==> IsScalar(e.pattern)
  {
    if e.In? {
      var x, vs := Eval(e.operand, row, map[]), EvalAll(e.values, row, map[]);
      assert Eval(e, row, map[]) == Negate(Member3(x, vs), e.negated);
      MembershipTruth(x, vs);
      forall v | v in e.values
        ensures IsScalar(v)
      {
        var i :| 0 <= i < |e.values| && e.values[i] == v;
        EvalAllAt(e.values, row, map[], i);
        assert vs[i] in vs && Relate(EQ, x, vs[i]).Truth();
      }
    } else {
      assert Eval(e, row, map[])
          == Negate(LikeValue(Eval(e.operand, row, map[]), Eval(e.pattern, row, map[])), e.negated);
    }
  }

  lemma TestRejectsIff(e: Expr, row: Row)
    requires WellFormed(e) && !Eval(e, row, map[]).Fault? && !e.And? && !e.Or? && !e.Not?
    ensures Evaluate(e, row).Failure? <==> Rejects(e, row)
  {
    if e.In? || e.Like? {
      ConstantsAreLiterals(e, row);
    }
    if e.In? && IsScalar(e.operand) {
      ScanNeverRaises(Scalar(e.operand, row).value, e.values, row, e.negated, false);
    }
  }

  /** In-process evaluation raises exactly when it meets a node it cannot evaluate. */
  lemma {:induction false} RejectsIff(e: Expr, row: Row)
    requires WellFormed(e) && !Eval(e, row, map[]).Fault?
    ensures Evaluate(e, row).Failure? <==> Rejects(e, row)
    decreases e, 1
  {
    match e
    case And(os) => AndRejectsIff(os, row, TRUE);
    case Or(os) => OrRejectsIff(os, row, FALSE);
    case Not(o) => RejectsIff(o, row);
    case _ => TestRejectsIff(e, row);
  }

  lemma {:induction false} AndRejectsIff(es: seq<Expr>, row: Row, sofar: Value)
    requires AllWellFormed(es) && !AllOf(EvalAll(es, row, map[])).Fault?
    ensures EvaluateAnd(es, row, sofar).Failure? <==> RejectsOne(es, row, FALSE)
    decreases es, 0
  {
    if es != [] {
      var vs := EvalAll(es, row, map[]);
      assert vs[0] == Eval(es[0], row, map[]) && vs[1..] == EvalAll(es[1..], row, map[]);
      RejectsIff(es[0], row);
      if Evaluate(es[0], row).Success? {
        LocalIsEval(es[0], row);
        AndRejectsIff(es[1..], row, if vs[0].Null? then Null else sofar);
      }
    }
  }

  lemma {:induction false} OrRejectsIff(es: seq<Expr>, row: Row, sofar: Value)
    requires AllWellFormed(es) && !AnyOf(EvalAll(es, row, map[])).Fault?
    ensures EvaluateOr(es, row, sofar).Failure? <==> RejectsOne(es, row, TRUE)
    decreases es, 0
  {
    if es != [] {
      var vs := EvalAll(es, row, map[]);
      assert vs[0] == Eval(es[0], row, map[]) && vs[1..] == EvalAll(es[1..], row, map[]);
      RejectsIff(es[0], row);
      if Evaluate(es[0], row).Success? {
        LocalIsEval(es[0], row);
        OrRejectsIff(es[1..], row, if vs[0].Null? then Null else sofar);
      }
    }
  }

  /** Whether evaluation is rejected depends only on the columns referenced. */
  lemma {:induction false} RejectsFootprint(e: Expr, r: Row, s: Row)
    requires AgreeOn(Walk(e), r, s)
    ensures Rejects(e, r) == Rejects(e, s)
    decreases e, 1
  {
    match e
    case And(os) => RejectsOneFootprint(os, r, s, FALSE);
    case Or(os) => RejectsOneFootprint(os, r, s, TRUE);
    case Not(o) => RejectsFootprint(o, r, s);
    case _ =>
  }

  lemma {:induction false} RejectsOneFootprint(es: seq<Expr>, r: Row, s: Row, decisive: Value)
    requires AgreeOn(WalkAll(es), r, s)
    ensures RejectsOne(es, r, decisive) == RejectsOne(es, s, decisive)
    decreases es, 0
  {
    if es != [] {
      RejectsFootprint(es[0], r, s);
      EvalFootprint(es[0], r, s, map[]);
      RejectsOneFootprint(es[1..], r, s, decisive);
    }
  }

  /** Built from tests of columns and literals: no bare column, literal or arithmetic as a predicate. */
  predicate Evaluable(e: Expr)
    decreases e, 1
  {
    match e
    case And(os) => AllEvaluable(os)
    case Or(os) => AllEvaluable(os)
    case Not(o) => Evaluable(o)
    case IsNull(o, _) => IsScalar(o)
    case Comparison(_, l, r) => IsScalar(l) && IsScalar(r)
    case In(o, vs, _) => IsScalar(o) && forall v | v in vs :: IsScalar(v)
    case Like(o, p, _) => IsScalar(o) && IsScalar(p)
    case _ => false
  }

  predicate AllEvaluable(es: seq<Expr>)
    decreases es, 0
  {
    es == [] || (Evaluable(es[0]) && AllEvaluable(es[1..]))
  }

  lemma {:induction false} ScanNeverRaises(x: Value, es: seq<Expr>, row: Row, negated: bool, sawNull: bool)
    requires forall e | e in es :: IsScalar(e)
    ensures ScanMembers(x, es, row, negated, sawNull).Success?
  {
    if es != [] {
      assert es[0] in es;
      ScanNeverRaises(x, es[1..], row, negated, sawNull);
      ScanNeverRaises(x, es[1..], row, negated, true);
    }
  }

  lemma {:induction false} EvaluableNeverRaises(e: Expr, row: Row)
    requires Evaluable(e)
    ensures Evaluate(e, row).Success?
    decreases e, 1
  {
    match e
    case And(os) => AllEvaluableNeverRaise(os, row, TRUE);
    case Or(os) => AllEvaluableNeverRaise(os, row, FALSE);
    case Not(o) => EvaluableNeverRaises(o, row);
    case In(o, vs, negated) => ScanNeverRaises(Scalar(o, row).value, vs, row, negated, false);
    case _ =>
  }

  lemma {:induction false} AllEvaluableNeverRaise(es: seq<Expr>, row: Row, sofar: Value)
    requires AllEvaluable(es)
    ensures EvaluateAnd(es, row, sofar).Success? && EvaluateOr(es, row, sofar).Success?
    decreases es, 0
  {
    if es != [] {
      EvaluableNeverRaises(es[0], row);
      AllEvaluableNeverRaise(es[1..], row, if Evaluate(es[0], row).value.Null? then Null else sofar);
    }
  }

  /**
   A bare boolean column is a valid predicate of pushable kinds, yet it has no `find()` translation
   and its in-process evaluation raises on every row, also where SQL finds it TRUE.
   */
  lemma BareColumnRaises(c: string, k: Collection, row: Row)
    ensures Translate(Column(c), k).None? && Evaluate(Column(c), row) == Failure(CannotEvaluate)
    ensures Eval(Column(c), map[c := TRUE], map[]) == TRUE
  {
  }

  // ---- the split ----------------------------------------------------------------------------------------------

  function NativePart(clauses: seq<Expr>, k: Collection): seq<Query> {
    if clauses == [] then []
    else NativeOf(clauses[0], k) + NativePart(clauses[1..], k)
  }

  function LocalPart(clauses: seq<Expr>, k: Collection): (local: seq<Expr>)
    ensures forall c :: c in local <==> c in clauses && Translate(c, k).None?
  {
    if clauses == [] then []
    else LocalOf(clauses[0], k) + LocalPart(clauses[1..], k)
  }

  function NativeOf(c: Expr, k: Collection): seq<Query> {
    var q := Translate(c, k);
    if q.Some? then [q.value] else []
  }

  function LocalOf(c: Expr, k: Collection): seq<Expr> {
    if Translate(c, k).Some? then [] else [c]
  }

  lemma {:induction false} SplitSnoc(clauses: seq<Expr>, c: Expr, k: Collection)
    ensures NativePart(clauses + [c], k) == NativePart(clauses, k) + NativeOf(c, k)
    ensures LocalPart(clauses + [c], k) == LocalPart(clauses, k) + LocalOf(c, k)
  {
    hide NativeOf, LocalOf;
    if clauses == [] {
      assert clauses + [c] == [c] && [c][1..] == [];
    } else {
      var rest := clauses[1..];
      assert (clauses + [c])[0] == clauses[0] && (clauses + [c])[1..] == rest + [c];
      SplitSnoc(rest, c, k);
      Associates(NativeOf(clauses[0], k), NativePart(rest, k), NativeOf(c, k));
      Associates(LocalOf(clauses[0], k), LocalPart(rest, k), LocalOf(c, k));
    }
  }

  /** Each conjunct goes to exactly one side, in order. */
  method SplitClauses(clauses: seq<Expr>, k: Collection) returns (native: seq<Query>, local: seq<Expr>)
    ensures native == NativePart(clauses, k) && local == LocalPart(clauses, k)
  {
    native, local := [], [];
    assert clauses[..0] == [];
    for i := 0 to |clauses|
      invariant native == NativePart(clauses[..i], k) && local == LocalPart(clauses[..i], k)
    {
      var document := Translate(clauses[i], k);
      assert clauses[..i + 1] == clauses[..i] + [clauses[i]];
      SplitSnoc(clauses[..i], clauses[i], k);
      if document.None? {
        local := local + [clauses[i]];
      } else {
        native := native + [document.value];
      }
    }
    assert clauses[..|clauses|] == clauses;
  }

  /** The local check of a row stops at the first conjunct that is not TRUE. */
  function CheckRow(local: seq<Expr>, row: Row): Result<bool, ScanError> {
    if local == [] then Success(true)
    else
      var v :- Evaluate(local[0], row);
      if v != TRUE then Success(false) else CheckRow(local[1..], row)
  }

  lemma {:induction false} CheckRowIsTrue(local: seq<Expr>, row: Row)
    requires CheckRow(local, row).Success?
    requires forall c | c in local :: WellFormed(c) && !Eval(c, row, map[]).Fault?
    ensures CheckRow(local, row).value <==> forall c | c in local :: IsTrue(c, row, map[])
  {
    if local != [] {
      assert local[0] in local;
      LocalIsEval(local[0], row);
      hide Evaluate, Eval, WellFormed;
      if Evaluate(local[0], row).value == TRUE {
        CheckRowIsTrue(local[1..], row);
        assert forall c :: c in local <==> c == local[0] || c in local[1..];
      }
    }
  }

  /** Some clause is rejected, and all before it are TRUE. */
  predicate RejectsClause(local: seq<Expr>, row: Row) {
    local != [] && (Rejects(local[0], row) || (IsTrue(local[0], row, map[]) && RejectsClause(local[1..], row)))
  }

  lemma {:induction false} CheckRowRejectsIff(local: seq<Expr>, row: Row)
    requires Defined(local, row)
    ensures CheckRow(local, row).Failure? <==> RejectsClause(local, row)
  {
    if local != [] {
      assert local[0] in local && Defined(local[1..], row);
      RejectsIff(local[0], row);
      hide Evaluate, Rejects, Eval, WellFormed;
      if Evaluate(local[0], row).Success? {
        LocalIsEval(local[0], row);
        CheckRowRejectsIff(local[1..], row);
      }
    }
  }

  lemma {:induction false} RejectsClauseFootprint(local: seq<Expr>, r: Row, s: Row)
    requires forall c | c in local :: AgreeOn(Walk(c), r, s)
    ensures RejectsClause(local, r) == RejectsClause(local, s)
  {
    hide Rejects, AgreeOn, Walk, Eval;
    if local != [] {
      assert local[0] in local;
      RejectsFootprint(local[0], r, s);
      EvalFootprint(local[0], r, s, map[]);
      RejectsClauseFootprint(local[1..], r, s);
    }
  }

  predicate RowIsTrue(clauses: seq<Expr>, row: Row) {
    forall c | c in clauses :: IsTrue(c, row, map[])
  }

  ghost predicate Defined(clauses: seq<Expr>, row: Row) {
    forall c | c in clauses :: WellFormed(c) && !Eval(c, row, map[]).Fault?
  }

  predicate Covers(columns: seq<string>, es: seq<Expr>) {
    forall e, n | e in es && n in Walk(e) && n.Column? :: n.name in columns
  }

  lemma RowsRead(c: Expr, columns: seq<string>, doc: Document)
    requires forall n | n in Walk(c) && n.Column? :: n.name in columns
    ensures Reads(Walk(c), ConvertRow(doc, columns), doc)
  {
  }

  /** On one document, the server's verdict and the local conjuncts together are the predicate. */
  lemma {:induction false} SplitMeansAll(clauses: seq<Expr>, k: Collection, columns: seq<string>, doc: Document)
    requires Covers(columns, clauses) && Defined(clauses, ConvertRow(doc, columns))
    ensures AllMatch(NativePart(clauses, k), doc) && RowIsTrue(LocalPart(clauses, k), ConvertRow(doc, columns))
            <==> RowIsTrue(clauses, ConvertRow(doc, columns))
  {
    if clauses != [] {
      var c, rest, row := clauses[0], clauses[1..], ConvertRow(doc, columns);
      assert c in clauses && forall x :: x in clauses <==> x == c || x in rest;
      SplitMeansAll(rest, k, columns, doc);
      RowsRead(c, columns, doc);
      hide Matches, Translate, Walk, ConvertRow, Eval, Covers, Defined;
      var native, local := NativePart(rest, k), LocalPart(rest, k);
      if Translate(c, k).Some? {
        NativeMatchesTruth(c, k, row, doc);
        assert ([Translate(c, k).value] + native)[1..] == native;
        assert [] + local == local;
      } else {
        assert [] + native == native;
        assert forall x :: x in [c] + local <==> x == c || x in local;
      }
    }
  }

  lemma NarrowRowsAgree(local: seq<Expr>, columns: seq<string>, fetched: seq<string>, doc: Document)
    requires Covers(columns, local) && Covers(fetched, local)
    ensures forall c | c in local :: AgreeOn(Walk(c), ConvertRow(doc, fetched), ConvertRow(doc, columns))
    ensures forall c | c in local :: Eval(c, ConvertRow(doc, fetched), map[]) == Eval(c, ConvertRow(doc, columns), map[])
  {
    forall c | c in local
      ensures AgreeOn(Walk(c), ConvertRow(doc, fetched), ConvertRow(doc, columns))
      ensures Eval(c, ConvertRow(doc, fetched), map[]) == Eval(c, ConvertRow(doc, columns), map[])
    {
      EvalFootprint(c, ConvertRow(doc, fetched), ConvertRow(doc, columns), map[]);
    }
  }

  // ---- the cursor loop ----------------------------------------------------------------------------------------

  function Matching(qs: seq<Query>, docs: seq<Document>): seq<Document> {
    if docs == [] then []
    else (if AllMatch(qs, docs[0]) then [docs[0]] else []) + Matching(qs, docs[1..])
  }

  function ConvertAll(docs: seq<Document>, columns: seq<string>): (rows: seq<Row>)
    ensures |rows| == |docs|
  {
    if docs == [] then [] else [ConvertRow(docs[0], columns)] + ConvertAll(docs[1..], columns)
  }

  /** What the loop reads of a document, tests on it, and puts out. */
  datatype Reading = Reading(fetched: seq<string>, local: seq<Expr>, names: seq<string>, k: Collection)

  /** Every stored value converts; a missing or null one always does. */
  predicate Converts(doc: Document, columns: seq<string>, k: Collection) {
    forall c | c in columns :: Field(doc, c).Null? || k.accepts(c, Field(doc, c))
  }

  /** One turn of the loop: the fields are converted, then the local conjuncts checked. */
  function Check(doc: Document, r: Reading): Result<bool, ScanError> {
    if !Converts(doc, r.fetched, r.k) then Failure(CannotConvert) else CheckRow(r.local, ConvertRow(doc, r.fetched))
  }

  function KeptOf(doc: Document, r: Reading): seq<Row> {
    if Check(doc, r) == Success(true) then [Prune(ConvertRow(doc, r.fetched), r.names)] else []
  }

  /** The rows the cursor loop keeps, trimmed to the output names, before any limit. */
  function Kept(docs: seq<Document>, r: Reading): seq<Row> {
    if docs == [] then [] else KeptOf(docs[0], r) + Kept(docs[1..], r)
  }

  lemma {:induction false} KeptConcat(xs: seq<Document>, ys: seq<Document>, r: Reading)
    ensures Kept(xs + ys, r) == Kept(xs, r) + Kept(ys, r)
  {
    hide KeptOf;
    if xs == [] {
      assert xs + ys == ys;
    } else {
      assert (xs + ys)[1..] == xs[1..] + ys;
      KeptConcat(xs[1..], ys, r);
      Associates(KeptOf(xs[0], r), Kept(xs[1..], r), Kept(ys, r));
    }
  }

  lemma KeptStep(docs: seq<Document>, i: nat, r: Reading)
    requires i < |docs|
    ensures Kept(docs[..i + 1], r) == Kept(docs[..i], r) + KeptOf(docs[i], r)
    ensures Kept(docs, r) == Kept(docs[..i + 1], r) + Kept(docs[i + 1..], r)
  {
    assert docs[..i + 1] == docs[..i] + [docs[i]] && docs == docs[..i + 1] + docs[i + 1..];
    KeptConcat(docs[..i], [docs[i]], r);
    KeptConcat(docs[..i + 1], docs[i + 1..], r);
    hide KeptOf;
    assert [docs[i]][1..] == [];
  }

  /** The loop fails on document `i`, and the limit is not reached before it. */
  ghost predicate RaisesAt(i: nat, docs: seq<Document>, r: Reading, limit: Option<nat>) {
    && i < |docs|
    && Check(docs[i], r).Failure?
    && (limit.Some? ==> |Kept(docs[..i], r)| < limit.value)
  }

  ghost predicate Raises(docs: seq<Document>, r: Reading, limit: Option<nat>) {
    exists i :: RaisesAt(i, docs, r, limit)
  }

  lemma LimitReached(docs: seq<Document>, i: nat, r: Reading, limit: nat)
    requires i < |docs| && |Kept(docs[..i + 1], r)| >= limit
    requires forall j | 0 <= j <= i :: Check(docs[j], r).Success?
    ensures !Raises(docs, r, Some(limit))
  {
    forall j: nat
      ensures !RaisesAt(j, docs, r, Some(limit))
    {
      if i < j < |docs| {
        assert docs[..j] == docs[..i + 1] + docs[i + 1..j];
        KeptConcat(docs[..i + 1], docs[i + 1..j], r);
      }
    }
  }

  /** The cursor loop: converts, rechecks the local conjuncts, trims, and stops after `limit` rows. */
  method Rows(cursor: seq<Document>, r: Reading, limit: Option<nat>) returns (out: Result<seq<Row>, ScanError>)
    requires limit.Some? ==> limit.value > 0
    ensures out.Failure? <==> Raises(cursor, r, limit)
    ensures out.Success? ==> out.value == TakeBy(limit, Kept(cursor, r))
  {
    hide CheckRow, ConvertRow, Kept, Prune, Converts;
    var rows := [];
    var produced := 0;
    assert cursor[..0] == [] && Kept([], r) == [] by { KeptOfNone(r); }
    for i := 0 to |cursor|
      invariant rows == Kept(cursor[..i], r) && produced == |rows|
      invariant limit.Some? ==> produced < limit.value
      invariant forall j | 0 <= j < i :: Check(cursor[j], r).Success?
    {
      var check := Check(cursor[i], r);
      if check.Failure? {
        assert RaisesAt(i, cursor, r, limit);
        return Failure(check.error);
      }
      KeptStep(cursor, i, r);
      if check.value {
        rows := rows + [Prune(ConvertRow(cursor[i], r.fetched), r.names)];
        produced := produced + 1;
        if limit.Some? && produced >= limit.value {
          LimitReached(cursor, i, r, limit.value);
          return Success(rows);
        }
      }
    }
    assert cursor[..|cursor|] == cursor;
    return Success(rows);
  }

  lemma KeptOfNone(r: Reading)
    ensures Kept([], r) == []
  {
  }

  function Fewer(limit: Option<nat>, kept: bool): Option<nat>
    requires limit != Some(0)
  {
    if limit.Some? && kept then Some(limit.value - 1) else limit
  }

  /** Raising, one document at a time. */
  lemma RaisesStep(docs: seq<Document>, r: Reading, limit: Option<nat>)
    requires docs != []
    ensures Raises(docs, r, limit)
            <==> limit != Some(0)
                 && (Check(docs[0], r).Failure? || Raises(docs[1..], r, Fewer(limit, Check(docs[0], r) == Success(true))))
  {
    hide Check;
    var rest, kept := docs[1..], Check(docs[0], r) == Success(true);
    forall i: nat | 0 < i < |docs|
      ensures limit != Some(0) ==> (RaisesAt(i, docs, r, limit) <==> RaisesAt(i - 1, rest, r, Fewer(limit, kept)))
      ensures RaisesAt(i, docs, r, limit) ==> limit != Some(0)
    {
      assert docs[..i][0] == docs[0] && docs[..i][1..] == rest[..i - 1];
    }
    assert docs[..0] == [] && (RaisesAt(0, docs, r, limit) <==> limit != Some(0) && Check(docs[0], r).Failure?);
    if limit != Some(0) && Raises(rest, r, Fewer(limit, kept)) {
      var j: nat :| RaisesAt(j, rest, r, Fewer(limit, kept));
      assert RaisesAt(j + 1, docs, r, limit);
    }
  }

  lemma NothingRaises(r: Reading, limit: Option<nat>)
    ensures !Raises([], r, limit)
  {
  }

  /** With nothing to check locally it is the same whether the server limits or the loop does. */
  lemma {:induction false} UncheckedRaises(docs: seq<Document>, r: Reading, n: nat)
    requires r.local == []
    ensures Raises(Take(n, docs), r, None) <==> Raises(docs, r, Some(n))
    ensures !Raises(docs, r, Some(n)) ==> Kept(Take(n, docs), r) == Take(n, Kept(docs, r))
  {
    hide Raises, Converts, ConvertRow, Prune;
    if docs == [] || n == 0 {
      NothingRaises(r, None);
      NothingRaises(r, Some(n));
      if docs != [] {
        RaisesStep(docs, r, Some(n));
      }
    } else {
      var cut := Take(n, docs);
      assert cut[1..] == Take(n - 1, docs[1..]);
      RaisesStep(cut, r, None);
      RaisesStep(docs, r, Some(n));
      UncheckedRaises(docs[1..], r, n - 1);
    }
  }

  // ---- the rows the scan owes ---------------------------------------------------------------------------------

  /** The rows of the table the predicate keeps, trimmed, computed from documents. */
  function Expected(docs: seq<Document>, clauses: seq<Expr>, columns: seq<string>, names: seq<string>): seq<Row> {
    if docs == [] then []
    else
      var row := ConvertRow(docs[0], columns);
      (if RowIsTrue(clauses, row) then [Prune(row, names)] else []) + Expected(docs[1..], clauses, columns, names)
  }

  ghost predicate RowsDefined(clauses: seq<Expr>, docs: seq<Document>, columns: seq<string>) {
    forall d | d in docs :: Defined(clauses, ConvertRow(d, columns))
  }

  predicate Within(names: seq<string>, columns: seq<string>) {
    forall c | c in names :: c in columns
  }

  /** What the loop does for these output names and conjuncts. */
  function ReadingOf(names: seq<string>, clauses: seq<Expr>, k: Collection): Reading {
    var local := LocalPart(clauses, k);
    Reading(Fetched(names, local), local, names, k)
  }

  /** A document the server returns is kept by the loop exactly when its row satisfies the predicate. */
  lemma DocumentKept(clauses: seq<Expr>, k: Collection, columns: seq<string>, names: seq<string>, doc: Document)
    requires Covers(columns, clauses) && Defined(clauses, ConvertRow(doc, columns))
    requires AllMatch(NativePart(clauses, k), doc) ==> Check(doc, ReadingOf(names, clauses, k)).Success?
    ensures AllMatch(NativePart(clauses, k), doc) && Check(doc, ReadingOf(names, clauses, k)) == Success(true)
            <==> RowIsTrue(clauses, ConvertRow(doc, columns))
  {
    var r := ReadingOf(names, clauses, k);
    SplitMeansAll(clauses, k, columns, doc);
    NarrowRowsAgree(r.local, columns, r.fetched, doc);
    hide CheckRow, Eval, WellFormed, ConvertRow, AllMatch, NativePart, LocalPart, Converts;
    if AllMatch(NativePart(clauses, k), doc) {
      CheckRowIsTrue(r.local, ConvertRow(doc, r.fetched));
    }
  }

  /** Up to the limit, the loop over the server's documents yields the rows the predicate keeps. */
  lemma {:induction false} CursorRows(
    docs: seq<Document>, clauses: seq<Expr>, k: Collection, columns: seq<string>, names: seq<string>, limit: Option<nat>)
    requires Covers(columns, clauses) && RowsDefined(clauses, docs, columns) && Within(names, columns)
    requires !Raises(Matching(NativePart(clauses, k), docs), ReadingOf(names, clauses, k), limit)
    ensures TakeBy(limit, Kept(Matching(NativePart(clauses, k), docs), ReadingOf(names, clauses, k)))
            == TakeBy(limit, Expected(docs, clauses, columns, names))
  {
    if docs != [] && limit != Some(0) {
      var native, r := NativePart(clauses, k), ReadingOf(names, clauses, k);
      var first, rest := docs[0], Matching(native, docs[1..]);
      var kept := AllMatch(native, first) && Check(first, r) == Success(true);
      assert first in docs && RowsDefined(clauses, docs[1..], columns);
      hide Covers, Check, RowIsTrue, AllMatch, ConvertRow, Prune, NativePart, LocalPart, Defined, Raises, RowsDefined,
           Within, Kept, Expected, TakeBy, Take, ReadingOf;
      if AllMatch(native, first) {
        assert ([first] + rest)[1..] == rest;
        RaisesStep([first] + rest, r, limit);
      } else {
        assert [] + rest == rest;
      }
      DocumentKept(clauses, k, columns, names, first);
      CursorRows(docs[1..], clauses, k, columns, names, Fewer(limit, kept));
      PrunedSame(first, columns, names, clauses, k);
      KeptFirst(native, docs, r);
      var row := Prune(ConvertRow(first, columns), names);
      TakeAfterFirst(kept, row, Kept(rest, r), limit);
      TakeAfterFirst(kept, row, Expected(docs[1..], clauses, columns, names), limit);
      assert Expected(docs, clauses, columns, names)
             == (if kept then [row] else []) + Expected(docs[1..], clauses, columns, names) by {
        ExpectedFirst(docs, clauses, columns, names);
      }
    }
  }

  lemma PrunedSame(doc: Document, columns: seq<string>, names: seq<string>, clauses: seq<Expr>, k: Collection)
    requires Within(names, columns)
    ensures var r := ReadingOf(names, clauses, k);
            r.names == names && Prune(ConvertRow(doc, r.fetched), names) == Prune(ConvertRow(doc, columns), names)
  {
  }

  lemma ExpectedFirst(docs: seq<Document>, clauses: seq<Expr>, columns: seq<string>, names: seq<string>)
    requires docs != []
    ensures var row := ConvertRow(docs[0], columns);
            Expected(docs, clauses, columns, names)
            == (if RowIsTrue(clauses, row) then [Prune(row, names)] else []) + Expected(docs[1..], clauses, columns, names)
  {
  }

  lemma KeptFirst(native: seq<Query>, docs: seq<Document>, r: Reading)
    requires docs != []
    ensures var row, rest := ConvertRow(docs[0], r.fetched), Matching(native, docs[1..]);
            Kept(Matching(native, docs), r)
            == (if AllMatch(native, docs[0]) && Check(docs[0], r) == Success(true) then [Prune(row, r.names)] else [])
               + Kept(rest, r)
  {
    hide Check, ConvertRow, Prune, AllMatch;
    var rest := Matching(native, docs[1..]);
    if AllMatch(native, docs[0]) {
      assert ([docs[0]] + rest)[0] == docs[0] && ([docs[0]] + rest)[1..] == rest;
    } else {
      assert [] + rest == rest && [] + Kept(rest, r) == Kept(rest, r);
    }
  }

  lemma TakeAfterFirst(kept: bool, row: Row, rest: seq<Row>, limit: Option<nat>)
    requires limit != Some(0)
    ensures TakeBy(limit, (if kept then [row] else []) + rest) == (if kept then [row] else []) + TakeBy(Fewer(limit, kept), rest)
  {
    if !kept {
      assert [] + rest == rest && [] + TakeBy(limit, rest) == TakeBy(limit, rest);
    }
  }

  lemma {:induction false} ExpectedIsAnswer(docs: seq<Document>, filter: Option<Expr>, columns: seq<string>, names: seq<string>)
    ensures Expected(docs, ConjunctsOf(filter), columns, names)
            == PruneAll(FilterBy(filter, ConvertAll(docs, columns), map[]), names)
  {
    if docs == [] {
      assert FilterBy(filter, [], map[]) == [];
    } else {
      hide RowIsTrue, ConvertRow, Prune;
      AnswerStep(docs, filter, columns);
      ExpectedIsAnswer(docs[1..], filter, columns, names);
      var rest := FilterBy(filter, ConvertAll(docs[1..], columns), map[]);
      var row := ConvertRow(docs[0], columns);
      if RowIsTrue(ConjunctsOf(filter), row) {
        assert ([row] + rest)[1..] == rest;
      } else {
        assert [] + rest == rest;
      }
    }
  }

  lemma AnswerStep(docs: seq<Document>, filter: Option<Expr>, columns: seq<string>)
    requires docs != []
    ensures var row := ConvertRow(docs[0], columns);
            FilterBy(filter, ConvertAll(docs, columns), map[])
            == (if RowIsTrue(ConjunctsOf(filter), row) then [row] else [])
               + FilterBy(filter, ConvertAll(docs[1..], columns), map[])
  {
    var rows := ConvertAll(docs, columns);
    assert rows[1..] == ConvertAll(docs[1..], columns);
    hide ConvertAll, ConvertRow, RowIsTrue, Keeps;
    KeepsIsRowIsTrue(filter, rows[0]);
    FilterByStep(filter, rows, map[]);
  }

  lemma KeepsIsRowIsTrue(filter: Option<Expr>, row: Row)
    ensures Keeps(filter, row, map[]) <==> RowIsTrue(ConjunctsOf(filter), row)
  {
    KeepsIffConjuncts(filter, row, map[]);
  }

  /** The output columns, then the columns the local conjuncts add, in first-seen order, each once. */
  function Fetched(names: seq<string>, local: seq<Expr>): (r: seq<string>)
    ensures forall c :: c in r <==> c in names || c in ReferencedColumns(local)
    ensures FirstSeenOrder(r, names + ReferencedColumns(local))
    ensures Within(names, r) && Covers(r, local)
  {
    var all := names + ReferencedColumns(local);
    var r := Dedupe([], all);
    LocalColumnsCovered(local, r);
    DedupeKeepsOrder([], all, 0);
    assert all[0..] == all;
    r
  }

  lemma LocalColumnsCovered(local: seq<Expr>, columns: seq<string>)
    requires forall c | c in ReferencedColumns(local) :: c in columns
    ensures Covers(columns, local)
  {
    forall e, n | e in local && n in Walk(e) && n.Column?
      ensures n.name in columns
    {
      WalkAllContains(local, e);
      assert n == Column(n.name);
      ColumnNamesHas(WalkAll(local), n.name);
    }
  }

  // ---- which scans raise ----------------------------------------------------------------------------------------

  /**
   The scan cannot get past a document: every conjunct the server tests is TRUE on its row, but a field
   does not convert or a local conjunct is rejected before one that is not TRUE.
   */
  ghost predicate StopsOn(doc: Document, columns: seq<string>, names: seq<string>, clauses: seq<Expr>, k: Collection) {
    var row, local := ConvertRow(doc, columns), LocalPart(clauses, k);
    && (forall c | c in clauses && Translate(c, k).Some? :: IsTrue(c, row, map[]))
    && (!Converts(doc, Fetched(names, local), k) || RejectsClause(local, row))
  }

  /** It cannot get past document `i`, and fewer rows than the limit satisfy the predicate before it. */
  ghost predicate StopsAt(
    i: nat, docs: seq<Document>, columns: seq<string>, names: seq<string>, filter: Option<Expr>, limit: Option<nat>, k: Collection)
  {
    && i < |docs|
    && StopsOn(docs[i], columns, names, ConjunctsOf(filter), k)
    && (limit.Some? ==> |FilterBy(filter, ConvertAll(docs[..i], columns), map[])| < limit.value)
  }

  ghost predicate ScanStops(
    docs: seq<Document>, columns: seq<string>, names: seq<string>, filter: Option<Expr>, limit: Option<nat>, k: Collection)
  {
    exists i :: StopsAt(i, docs, columns, names, filter, limit, k)
  }

  lemma {:induction false} NativeIsTrue(clauses: seq<Expr>, k: Collection, columns: seq<string>, doc: Document)
    requires Covers(columns, clauses) && Defined(clauses, ConvertRow(doc, columns))
    ensures AllMatch(NativePart(clauses, k), doc)
            <==> forall c | c in clauses && Translate(c, k).Some? :: IsTrue(c, ConvertRow(doc, columns), map[])
  {
    if clauses != [] {
      var c, rest, row := clauses[0], clauses[1..], ConvertRow(doc, columns);
      assert c in clauses && forall x :: x in clauses <==> x == c || x in rest;
      NativeIsTrue(rest, k, columns, doc);
      RowsRead(c, columns, doc);
      hide Matches, Translate, Walk, ConvertRow, Eval, Covers, Defined;
      var native := NativePart(rest, k);
      if Translate(c, k).Some? {
        NativeMatchesTruth(c, k, row, doc);
        assert ([Translate(c, k).value] + native)[1..] == native;
      } else {
        assert [] + native == native;
      }
    }
  }

  lemma StopsOnIff(doc: Document, columns: seq<string>, names: seq<string>, clauses: seq<Expr>, k: Collection)
    requires Covers(columns, clauses) && Defined(clauses, ConvertRow(doc, columns))
    ensures StopsOn(doc, columns, names, clauses, k)
            <==> AllMatch(NativePart(clauses, k), doc) && Check(doc, ReadingOf(names, clauses, k)).Failure?
  {
    var r := ReadingOf(names, clauses, k);
    NativeIsTrue(clauses, k, columns, doc);
    NarrowRowsAgree(r.local, columns, r.fetched, doc);
    hide Converts, ConvertRow, Eval, AgreeOn, AllMatch, NativePart, Walk, CheckRow, RejectsClause, WellFormed, Translate;
    CheckRowRejectsIff(r.local, ConvertRow(doc, r.fetched));
    RejectsClauseFootprint(r.local, ConvertRow(doc, r.fetched), ConvertRow(doc, columns));
  }

  lemma StopsStep(
    docs: seq<Document>, columns: seq<string>, names: seq<string>, filter: Option<Expr>, limit: Option<nat>, k: Collection)
    requires docs != []
    ensures ScanStops(docs, columns, names, filter, limit, k)
            <==> limit != Some(0)
                 && (StopsOn(docs[0], columns, names, ConjunctsOf(filter), k)
                     || ScanStops(
                          docs[1..], columns, names, filter,
                          Fewer(limit, RowIsTrue(ConjunctsOf(filter), ConvertRow(docs[0], columns))), k))
  {
    hide StopsOn, RowIsTrue, ConvertRow, FilterBy, ConvertAll;
    var rest, kept := docs[1..], RowIsTrue(ConjunctsOf(filter), ConvertRow(docs[0], columns));
    forall i: nat | 0 < i < |docs|
      ensures limit != Some(0) ==>
                (StopsAt(i, docs, columns, names, filter, limit, k)
                 <==> StopsAt(i - 1, rest, columns, names, filter, Fewer(limit, kept), k))
      ensures StopsAt(i, docs, columns, names, filter, limit, k) ==> limit != Some(0)
    {
      assert docs[..i][0] == docs[0] && docs[..i][1..] == rest[..i - 1];
      AnswerStep(docs[..i], filter, columns);
    }
    assert docs[..0] == [];
    NoRows(filter, columns);
    assert StopsAt(0, docs, columns, names, filter, limit, k)
      <==> limit != Some(0) && StopsOn(docs[0], columns, names, ConjunctsOf(filter), k);
    if limit != Some(0) && ScanStops(rest, columns, names, filter, Fewer(limit, kept), k) {
      var j: nat :| StopsAt(j, rest, columns, names, filter, Fewer(limit, kept), k);
      assert StopsAt(j + 1, docs, columns, names, filter, limit, k);
    }
  }

  lemma NoRows(filter: Option<Expr>, columns: seq<string>)
    ensures FilterBy(filter, ConvertAll([], columns), map[]) == []
  {
  }

  /** The loop over the server's documents raises exactly where the scan stops on a document. */
  lemma {:induction false} RaisesIffStops(
    docs: seq<Document>, columns: seq<string>, names: seq<string>, filter: Option<Expr>, limit: Option<nat>, k: Collection)
    requires Covers(columns, ConjunctsOf(filter)) && RowsDefined(ConjunctsOf(filter), docs, columns)
    ensures Raises(Matching(NativePart(ConjunctsOf(filter), k), docs), ReadingOf(names, ConjunctsOf(filter), k), limit)
            <==> ScanStops(docs, columns, names, filter, limit, k)
  {
    var clauses := ConjunctsOf(filter);
    var native, r := NativePart(clauses, k), ReadingOf(names, clauses, k);
    if docs == [] {
      NothingRaises(r, limit);
    } else {
      var first, rest := docs[0], Matching(native, docs[1..]);
      assert first in docs && RowsDefined(clauses, docs[1..], columns);
      hide Covers, Check, RowIsTrue, AllMatch, ConvertRow, NativePart, Defined, Raises, RowsDefined, ReadingOf, ScanStops, StopsOn;
      StopsStep(docs, columns, names, filter, limit, k);
      StopsOnIff(first, columns, names, clauses, k);
      if AllMatch(native, first) {
        assert ([first] + rest)[1..] == rest;
        RaisesStep([first] + rest, r, limit);
      } else {
        assert [] + rest == rest;
      }
      if limit == Some(0) {
        NoneWanted(Matching(native, docs), r);
      } else if !StopsOn(first, columns, names, clauses, k) {
        DocumentKept(clauses, k, columns, names, first);
        RaisesIffStops(docs[1..], columns, names, filter, Fewer(limit, RowIsTrue(clauses, ConvertRow(first, columns))), k);
      }
    }
  }

  lemma NoneWanted(docs: seq<Document>, r: Reading)
    ensures !Raises(docs, r, Some(0))
  {
  }

  lemma {:induction false} EvaluableNotRejected(e: Expr, row: Row)
    requires Evaluable(e)
    ensures !Rejects(e, row)
    decreases e, 1
  {
    match e
    case And(os) => AllEvaluableNotRejected(os, row, FALSE);
    case Or(os) => AllEvaluableNotRejected(os, row, TRUE);
    case Not(o) => EvaluableNotRejected(o, row);
    case _ =>
  }

  lemma {:induction false} AllEvaluableNotRejected(es: seq<Expr>, row: Row, decisive: Value)
    requires AllEvaluable(es)
    ensures !RejectsOne(es, row, decisive)
    decreases es, 0
  {
    if es != [] {
      EvaluableNotRejected(es[0], row);
      AllEvaluableNotRejected(es[1..], row, decisive);
    }
  }

  lemma {:induction false} EvaluableClausesNotRejected(local: seq<Expr>, row: Row)
    requires forall c | c in local :: Evaluable(c)
    ensures !RejectsClause(local, row)
  {
    if local != [] {
      assert local[0] in local;
      EvaluableNotRejected(local[0], row);
      EvaluableClausesNotRejected(local[1..], row);
    }
  }

  /** Where fields convert, a predicate of translatable or evaluable clauses never makes the scan raise. */
  lemma HandledNeverRaises(
    docs: seq<Document>, columns: seq<string>, names: seq<string>, filter: Option<Expr>, limit: Option<nat>, k: Collection)
    requires forall c | c in ConjunctsOf(filter) :: Translate(c, k).Some? || Evaluable(c)
    requires forall d | d in docs :: Converts(d, Fetched(names, LocalPart(ConjunctsOf(filter), k)), k)
    ensures !ScanStops(docs, columns, names, filter, limit, k)
  {
    forall i: nat
      ensures !StopsAt(i, docs, columns, names, filter, limit, k)
    {
      if i < |docs| {
        assert docs[i] in docs;
        EvaluableClausesNotRejected(LocalPart(ConjunctsOf(filter), k), ConvertRow(docs[i], columns));
      }
    }
  }

  /** A scan for active documents, `WHERE active`, raises on the one document SQL returns. */
  lemma BareColumnStopsScan(k: Collection)
    requires k.accepts("active", TRUE)
    ensures var docs, columns: seq<string>, filter := [map["active" := TRUE]], ["active"], Some(Column("active"));
            && ScanStops(docs, columns, columns, filter, None, k)
            && FilterBy(filter, ConvertAll(docs, columns), map[]) == ConvertAll(docs, columns) != []
  {
    var e, columns: seq<string> := Column("active"), ["active"];
    var doc: Document := map["active" := TRUE];
    var docs, row := [doc], ConvertRow(doc, columns);
    assert ConjunctsOf(Some(e)) == [e] && [e][1..] == [] && docs[1..] == [];
    assert LocalPart([], k) == [];
    assert LocalPart([e], k) == [e] + [];
    BareColumnRaises("active", k, row);
    assert Walk(e) == [e] && WalkAll([]) == [] && WalkAll([e]) == [e] + [];
    assert ColumnNames([]) == [] && ColumnNames([e]) == ["active"] + [];
    var fetched := Fetched(columns, [e]);
    assert forall c | c in fetched :: c == "active";
    assert Converts(doc, fetched, k) && RejectsClause([e], row);
    assert StopsAt(0, docs, columns, columns, Some(e), None, k);
    assert Eval(e, row, map[]) == TRUE && IsTrue(e, row, map[]);
    assert ConvertAll([], columns) == [] && ConvertAll(docs, columns) == [row] + [];
    assert FilterRows(e, [row][1..], map[]) == [];
    assert FilterRows(e, [row], map[]) == [row] + [];
  }

  // ---- the whole scan ---------------------------------------------------------------------------------------------

  /** What the cursor returns: the server limits only when nothing is left to check locally. */
  function Cursor(docs: seq<Document>, clauses: seq<Expr>, limit: Option<nat>, k: Collection): seq<Document> {
    TakeBy(if LocalPart(clauses, k) == [] then limit else None, Matching(NativePart(clauses, k), docs))
  }

  lemma ScanOwes(
    docs: seq<Document>, columns: seq<string>, names: seq<string>, filter: Option<Expr>, limit: Option<nat>, k: Collection)
    requires Within(names, columns) && Covers(columns, ConjunctsOf(filter)) && RowsDefined(ConjunctsOf(filter), docs, columns)
    ensures var clauses := ConjunctsOf(filter);
            var r, loopLimit := ReadingOf(names, clauses, k), if LocalPart(clauses, k) == [] then None else limit;
            && (Raises(Cursor(docs, clauses, limit, k), r, loopLimit) <==> ScanStops(docs, columns, names, filter, limit, k))
            && (!ScanStops(docs, columns, names, filter, limit, k) ==>
                  TakeBy(loopLimit, Kept(Cursor(docs, clauses, limit, k), r))
                  == PruneAll(TakeBy(limit, FilterBy(filter, ConvertAll(docs, columns), map[])), names))
  {
    var clauses := ConjunctsOf(filter);
    var matching, r := Matching(NativePart(clauses, k), docs), ReadingOf(names, clauses, k);
    RaisesIffStops(docs, columns, names, filter, limit, k);
    hide Raises, Kept, FilterBy, ConvertAll, PruneAll, Covers, RowsDefined, Matching, Expected;
    if r.local == [] && limit.Some? {
      UncheckedRaises(matching, r, limit.value);
    }
    if !ScanStops(docs, columns, names, filter, limit, k) {
      CursorRows(docs, clauses, k, columns, names, limit);
      ExpectedIsAnswer(docs, filter, columns, names);
      TakeOfPruned(limit, FilterBy(filter, ConvertAll(docs, columns), map[]), names);
    }
  }

  /** The first requested column the schema lacks. */
  method FirstUnknown(names: seq<string>, columns: seq<string>) returns (unknown: Option<string>)
    ensures unknown.None? <==> Within(names, columns)
    ensures unknown.Some? ==> unknown.value in names && unknown.value !in columns
  {
    for i := 0 to |names|
      invariant forall j | 0 <= j < i :: names[j] in columns
    {
      if names[i] !in columns {
        return Some(names[i]);
      }
    }
    return None;
  }

  lemma NothingTaken(rows: seq<Row>, names: seq<string>)
    ensures PruneAll(TakeBy(Some(0), rows), names) == Flatten([])
  {
  }

  /** Substituted or not, the predicate reads the schema's columns and is defined on the same rows. */
  lemma BoundClausesDefined(docs: seq<Document>, columns: seq<string>, filter: Option<Expr>, params: Params)
    requires SuppliedIn(filter, params) && ValidParams(params)
    requires filter.Some? ==>
               WellFormed(filter.value) && Covers(columns, [filter.value])
               && NeverStuck(filter.value, ConvertAll(docs, columns), params)
    ensures var clauses := ConjunctsOf(Substituted(filter, params));
            Covers(columns, clauses) && RowsDefined(clauses, docs, columns)
  {
    SubstituteInSucceedsIff(filter, params);
    if filter.Some? {
      var e, bound := filter.value, Substituted(filter, params).value;
      SubstituteKeepsForm(e, params);
      SubstituteKeepsColumns(e, params);
      ClausesWellFormed(bound);
      forall c, n | c in Conjuncts(bound) && n in Walk(c) && n.Column?
        ensures n.name in columns
      {
        ConjunctWalks(bound, c);
        assert e in [e] && n in Walk(e);
      }
      forall d | d in docs
        ensures Defined(Conjuncts(bound), ConvertRow(d, columns))
      {
        var i :| 0 <= i < |docs| && docs[i] == d;
        ConvertAllAt(docs, columns, i);
        assert ConvertRow(d, columns) in ConvertAll(docs, columns);
        SubstituteKeepsMeaning(e, params, ConvertRow(d, columns), map[]);
        ConjunctsDefined(bound, ConvertRow(d, columns), map[]);
      }
    }
  }

  lemma {:induction false} ConvertAllAt(docs: seq<Document>, columns: seq<string>, i: nat)
    requires i < |docs|
    ensures ConvertAll(docs, columns)[i] == ConvertRow(docs[i], columns)
  {
    if i > 0 {
      ConvertAllAt(docs[1..], columns, i - 1);
    }
  }

  /**
   The scan. It raises exactly on an unknown column, a missing parameter, or a document it cannot get
   past; otherwise, for every split into native and local conjuncts, it returns exactly the filtered,
   limited and trimmed rows of the collection.
   */
  method Scan(
    docs: seq<Document>, columns: seq<string>, names: seq<string>, filter: Option<Expr>, limit: Option<nat>,
    batchSize: nat, params: Params, k: Collection) returns (r: Result<seq<seq<Row>>, ScanError>)
    requires batchSize > 0 && ValidParams(params)
    requires filter.Some? ==> WellFormed(filter.value) && Covers(columns, [filter.value])
    requires filter.Some? && SuppliedIn(filter, params) ==> NeverStuck(filter.value, ConvertAll(docs, columns), params)
    ensures r.Failure? <==>
              || !Within(names, columns)
              || (limit != Some(0) && !SuppliedIn(filter, params))
              || (SuppliedIn(filter, params) && ScanStops(docs, columns, names, Substituted(filter, params), limit, k))
    ensures r.Success? ==>
              && Flatten(r.value) == PruneAll(TakeBy(limit, FilterBy(filter, ConvertAll(docs, columns), params)), names)
              && Sized(r.value, batchSize)
  {
    hide Within, Covers, RowsDefined, Kept, Raises, TakeBy, PruneAll, FilterBy, ConvertAll, Matching, Fetched, Defined,
         NativePart, LocalPart, Flatten, Take, SubstituteIn, SuppliedIn, NeverStuck, ScanStops;
    var unknown := FirstUnknown(names, columns);
    if unknown.Some? {
      return Failure(UnknownColumn(unknown.value));
    }
    SubstituteInSucceedsIff(filter, params);
    var substituted := SubstituteIn(filter, params);
    if limit == Some(0) {
      if substituted.Success? {
        NoneStop(docs, columns, names, substituted.value, k);
      }
      NothingTaken(FilterBy(filter, ConvertAll(docs, columns), params), names);
      return Success([]);
    }
    if substituted.Failure? {
      return Failure(MissingParameter(substituted.error));
    }
    var bound := substituted.value;
    BoundClausesDefined(docs, columns, filter, params);
    ScanOwes(docs, columns, names, bound, limit, k);
    SubstitutedKeepsRows(filter, ConvertAll(docs, columns), params);
    var native, local := SplitClauses(ConjunctsOf(bound), k);
    var fetched := Fetched(names, local);
    var cursor := TakeBy(if local == [] then limit else None, Matching(native, docs));
    var rows := Rows(cursor, Reading(fetched, local, names, k), if local == [] then None else limit);
    if rows.Failure? {
      return Failure(rows.error);
    }
    var batches := BatchRows(rows.value, batchSize);
    r := Success(batches);
  }

  lemma NoneStop(docs: seq<Document>, columns: seq<string>, names: seq<string>, filter: Option<Expr>, k: Collection)
    ensures !ScanStops(docs, columns, names, filter, Some(0), k)
  {
  }
}
