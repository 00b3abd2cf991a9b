/**
 The Iceberg row filter: a SQL predicate becomes a two-valued filter that never drops a row SQL
 keeps, with a flag that says when it keeps no other.
 */
module IcebergFilter {
  import opened Wrappers
  import opened Values
  import opened Types
  import opened Expressions
  import opened Plans
  import opened Execution

  // ---- columns and literals ----------------------------------------------------------------------

  datatype ColumnType =
    | LongColumn | IntegerColumn | DoubleColumn | FloatColumn
    | DecimalColumn(precision: nat, scale: nat)
    | BooleanColumn | StringColumn | BinaryColumn | DateColumn
    | TimestampColumn(aware: bool) | OtherColumn

  /** What the translator knows: column types by name, and facts about literal payloads. */
  datatype Table = Table(columns: map<string, ColumnType>, fitsFloat32: real -> bool, zoned: int -> bool)

  /** The context precision beyond which the decimal library refuses to quantize. */
  const QUANTIZE_DIGITS := 28

  /** Exact conversion, a lossy one left to the recheck, or an error of the decimal library. */
  datatype Conversion = Exactly(value: Value) | NotExact | Refused

  function DecimalLiteral(unscaled: int, scale: nat, t: ColumnType): Conversion
    requires t.DecimalColumn?
  {
    if scale > t.scale then NotExact
    else
      var quantized := Rescale(unscaled, scale, t.scale);
      if !FitsDigits(quantized, QUANTIZE_DIGITS) then Refused
      else if !FitsDigits(quantized, t.precision) then NotExact
      else Exactly(Decimal(quantized, t.scale))
  }

  function IntegerLiteral(i: int, t: ColumnType): Conversion {
    match t
    case LongColumn => if FitsInt64(i) then Exactly(Int(i)) else NotExact
    case IntegerColumn => if -0x8000_0000 <= i < 0x8000_0000 then Exactly(Int(i)) else NotExact
    case DoubleColumn => if Abs(i) <= 0x20_0000_0000_0000 then Exactly(Float(i as real)) else NotExact
    case FloatColumn => if Abs(i) <= 0x100_0000 then Exactly(Float(i as real)) else NotExact
    case DecimalColumn(_, _) => DecimalLiteral(i, 0, t)
    case _ => NotExact
  }

  /** A literal bound to the column type without changing its meaning. */
  function ConvertLiteral(v: Value, t: ColumnType, table: Table): Conversion {
    match v
    case Bool(_) => if t.BooleanColumn? then Exactly(v) else NotExact
    case Int(i) => IntegerLiteral(i, t)
    case Float(r) =>
      if t.DoubleColumn? then Exactly(v)
      else if t.FloatColumn? then if table.fitsFloat32(r) then Exactly(v) else NotExact
      else if (t.LongColumn? || t.IntegerColumn?) && r.Floor as real == r then IntegerLiteral(r.Floor, t)
      else NotExact
    case Decimal(u, s) =>
      if t.DecimalColumn? then DecimalLiteral(u, s, t)
      else if (t.LongColumn? || t.IntegerColumn?) && Shift(u / Pow10(s), s) == u then IntegerLiteral(u / Pow10(s), t)
      else NotExact
    case Text(_) => if t.StringColumn? then Exactly(v) else NotExact
    case Opaque(Binary, _) => if t.BinaryColumn? then Exactly(v) else NotExact
    case Opaque(Date, _) => if t.DateColumn? then Exactly(v) else NotExact
    case Opaque(Timestamp, k) => if t == TimestampColumn(table.zoned(k)) then Exactly(v) else NotExact
    case _ => NotExact
  }

  lemma WholeDecimalIsInteger(u: int, s: nat)
    requires Shift(u / Pow10(s), s) == u
    ensures Real(Decimal(u, s)) == (u / Pow10(s)) as real
  {
    RescaledIsSame(u / Pow10(s), 0, s);
    assert Pow10(0) == 1;
    assert Real(Decimal(u / Pow10(s), 0)) == (u / Pow10(s)) as real;
  }

  lemma IntegerLiteralIsSame(i: int, t: ColumnType)
    requires IntegerLiteral(i, t).Exactly?
    ensures SameValue(IntegerLiteral(i, t).value, Int(i))
  {
    if t.DecimalColumn? {
      RescaledIsSame(i, 0, t.scale);
      assert Pow10(0) == 1;
    }
  }

  /** A converted literal is the literal: every comparison against it has the same outcome. */
  lemma ConvertedIsSame(v: Value, t: ColumnType, table: Table)
    requires ConvertLiteral(v, t, table).Exactly?
    ensures SameValue(ConvertLiteral(v, t, table).value, v)
  {
    match v
    case Int(i) => IntegerLiteralIsSame(i, t);
    case Float(r) => if t.LongColumn? || t.IntegerColumn? { IntegerLiteralIsSame(r.Floor, t); }
    case Decimal(u, s) =>
      if t.DecimalColumn? {
        RescaledIsSame(u, s, t.scale);
      } else {
        WholeDecimalIsInteger(u, s);
        IntegerLiteralIsSame(u / Pow10(s), t);
      }
    case _ =>
  }

  // ---- the row filter --------------------------------------------------------------------------------

  /** Iceberg expressions. `Aborted` stands for a translation that raised. */
  datatype RowFilter =
    | AlwaysTrue | AlwaysFalse | Aborted
    | Test(op: ComparisonOp, column: string, literal: Value)
    | NullTest(column: string) | NotNullTest(column: string)
    | InSet(column: string, members: set<Value>) | NotInSet(column: string, members: set<Value>)
    | Every(parts: seq<RowFilter>) | Some'(parts: seq<RowFilter>)

  /** Two-valued: a comparison with NULL is false, but NOT IN lets NULL through. */
  predicate Passes(f: RowFilter, row: Row)
    decreases f, 1
  {
    match f
    case AlwaysTrue => true
    case AlwaysFalse => false
    case Aborted => true
    case Test(op, c, v) =>
      var x := Lookup(row, c);
      x.Present() && !Compare(x, v).Incomparable? && op.Holds(Compare(x, v))
    case NullTest(c) => Lookup(row, c).Null?
    case NotNullTest(c) => Lookup(row, c).Present()
    case InSet(c, s) => Lookup(row, c).Present() && exists v :: v in s && Equals(Lookup(row, c), v)
    case NotInSet(c, s) => Lookup(row, c).Null? || forall v :: v in s ==> !Equals(Lookup(row, c), v)
    case Every(ps) => AllPass(ps, row)
    case Some'(ps) => AnyPasses(ps, row)
  }

  predicate AllPass(fs: seq<RowFilter>, row: Row)
    decreases fs, 0
  {
    fs == [] || (Passes(fs[0], row) && AllPass(fs[1..], row))
  }

  predicate AnyPasses(fs: seq<RowFilter>, row: Row)
    decreases fs, 0
  {
    fs != [] && (Passes(fs[0], row) || AnyPasses(fs[1..], row))
  }

  // ---- translation --------------------------------------------------------------------------------------

  function Opposite(op: ComparisonOp): ComparisonOp {
    match op
    case EQ => NE
    case NE => EQ
    case LT => GE
    case LE => GT
    case GT => LE
    case GE => LT
  }

  const RELAXED := (AlwaysTrue, false)

  /** A constant's value; `Fault` when it is a parameter nobody supplied. */
  function ConstantValue(e: Expr, params: Params): Value
    requires Constant(e)
  {
    Eval(e, map[], params)
  }

  function LeafFilter(op: ComparisonOp, column: string, v: Value, negated: bool, table: Table): (RowFilter, bool) {
    if v.Fault? then (Aborted, false)
    else if v.Null? then (AlwaysFalse, true)
    else if column !in table.columns then RELAXED
    else match ConvertLiteral(v, table.columns[column], table)
      case NotExact => RELAXED
      case Refused => (Aborted, false)
      case Exactly(c) => (Test(if negated then Opposite(op) else op, column, c), true)
  }

  function ComparisonFilter(e: Expr, params: Params, negated: bool, table: Table): (RowFilter, bool)
    requires e.Comparison?
  {
    if e.left.Column? && Constant(e.right) then
      LeafFilter(e.comparison, e.left.name, ConstantValue(e.right, params), negated, table)
    else if e.right.Column? && Constant(e.left) then
      LeafFilter(Mirror(e.comparison), e.right.name, ConstantValue(e.left, params), negated, table)
    else RELAXED
  }

  function NullFilter(e: Expr, params: Params, negated: bool, table: Table): (RowFilter, bool)
    requires e.IsNull?
  {
    var wantsNull := e.negated == negated;
    if Constant(e.operand) then
      var v := ConstantValue(e.operand, params);
      if v.Fault? then (Aborted, false) else (if v.Null? == wantsNull then AlwaysTrue else AlwaysFalse, true)
    else if !e.operand.Column? || e.operand.name !in table.columns then RELAXED
    else (if wantsNull then NullTest(e.operand.name) else NotNullTest(e.operand.name), true)
  }

  /** The members converted to the column type, or why they cannot all be. */
  datatype Members = Converted(values: set<Value>) | SomeNotExact | SomeRefused

  function ConvertMembers(vs: seq<Value>, t: ColumnType, table: Table): Members {
    if vs == [] then Converted({})
    else
      var rest := ConvertMembers(vs[1..], t, table);
      if vs[0].Fault? then SomeRefused
      else if vs[0].Null? then rest
      else match ConvertLiteral(vs[0], t, table)
        case Refused => SomeRefused
        case NotExact => if rest.SomeRefused? then rest else SomeNotExact
        case Exactly(c) => if rest.Converted? then Converted({c} + rest.values) else rest
  }

  predicate HasNull(vs: seq<Value>) {
    exists v :: v in vs && v.Null?
  }

  function InFilter(e: Expr, params: Params, negated: bool, table: Table): (RowFilter, bool)
    requires e.In?
  {
    if !e.operand.Column? || e.operand.name !in table.columns then RELAXED
    else
      var c, excluded := e.operand.name, e.negated != negated;
      var vs := EvalAll(e.values, map[], params);
      match ConvertMembers(vs, table.columns[c], table)
      case SomeRefused => (Aborted, false)
      case SomeNotExact => if excluded && HasNull(vs) then (AlwaysFalse, true) else RELAXED
      case Converted(s) =>
        if excluded then
          if HasNull(vs) then (AlwaysFalse, true) else (Every([NotNullTest(c), NotInSet(c, s)]), true)
        else if s == {} then (AlwaysFalse, true)
        else (InSet(c, s), true)
  }

  /** NOT is pushed to the leaves; anything not expressible exactly becomes TRUE, marked inexact. */
  function Translate(e: Expr, params: Params, negated: bool, table: Table): (RowFilter, bool)
    decreases e, 1
  {
    match e
    case And(os) =>
      var (fs, exact) := TranslateAll(os, params, negated, table);
      (if negated then Some'(fs) else Every(fs), exact)
    case Or(os) =>
      var (fs, exact) := TranslateAll(os, params, negated, table);
      (if negated then Every(fs) else Some'(fs), exact)
    case Not(o) => Translate(o, params, !negated, table)
    case Comparison(_, _, _) => ComparisonFilter(e, params, negated, table)
    case IsNull(_, _) => NullFilter(e, params, negated, table)
    case In(_, _, _) => InFilter(e, params, negated, table)
    case _ => RELAXED
  }

  function TranslateAll(es: seq<Expr>, params: Params, negated: bool, table: Table): (seq<RowFilter>, bool)
    decreases es, 0
  {
    if es == [] then ([], true)
    else
      var (f, exact) := Translate(es[0], params, negated, table);
      var (fs, allExact) := TranslateAll(es[1..], params, negated, table);
      ([f] + fs, exact && allExact)
  }

  // ---- which predicates the translation refuses ------------------------------------------------------------

  predicate Aborts(f: RowFilter)
    decreases f, 1
  {
    match f
    case Aborted => true
    case Every(ps) => AnyAborts(ps)
    case Some'(ps) => AnyAborts(ps)
    case _ => false
  }

  predicate AnyAborts(fs: seq<RowFilter>)
    decreases fs, 0
  {
    fs != [] && (Aborts(fs[0]) || AnyAborts(fs[1..]))
  }

  /** The tests of a predicate: what is left below AND, OR and NOT. */
  function Leaves(e: Expr): seq<Expr>
    decreases e, 1
  {
    match e
    case And(os) => LeavesOfAll(os)
    case Or(os) => LeavesOfAll(os)
    case Not(o) => Leaves(o)
    case _ => [e]
  }

  function LeavesOfAll(es: seq<Expr>): seq<Expr>
    decreases es, 0
  {
    if es == [] then [] else Leaves(es[0]) + LeavesOfAll(es[1..])
  }

  /** An exact number that the decimal column's scale admits, with too many digits at that scale. */
  predicate NeedsTooManyDigits(v: Value, t: ColumnType) {
    && t.DecimalColumn? && (v.Int? || v.Decimal?) && Scale(v) <= t.scale
    && !FitsDigits(Rescale(Unscaled(v), Scale(v), t.scale), QUANTIZE_DIGITS)
  }

  predicate Missing(k: Expr, params: Params) {
    k.Parameter? && k.name !in params
  }

  predicate Unbindable(column: string, k: Expr, params: Params, table: Table)
    requires Constant(k)
  {
    || Missing(k, params)
    || (column in table.columns && NeedsTooManyDigits(ConstantValue(k, params), table.columns[column]))
  }

  /** A test of a column against a constant, or of a constant, that cannot be translated. */
  predicate LeafRefuses(n: Expr, params: Params, table: Table) {
    match n
    case Comparison(_, l, r) =>
      || (l.Column? && Constant(r) && Unbindable(l.name, r, params, table))
      || (r.Column? && Constant(l) && Unbindable(r.name, l, params, table))
    case IsNull(o, _) => Missing(o, params)
    case In(o, vs, _) =>
      o.Column? && o.name in table.columns && exists v :: v in vs && Constant(v) && Unbindable(o.name, v, params, table)
    case _ => false
  }

  /** Some test of the predicate cannot be translated. */
  predicate RefusesTest(e: Expr, params: Params, table: Table) {
    exists n :: n in Leaves(e) && LeafRefuses(n, params, table)
  }

  lemma ConversionRefusedIff(v: Value, t: ColumnType, table: Table)
    ensures ConvertLiteral(v, t, table).Refused? <==> NeedsTooManyDigits(v, t)
  {
  }

  lemma ConstantMissingIff(k: Expr, params: Params)
    requires Constant(k) && WellFormed(k) && ValidParams(params)
    ensures ConstantValue(k, params).Fault? <==> Missing(k, params)
  {
  }

  lemma LeafAbortsIff(op: ComparisonOp, column: string, k: Expr, params: Params, negated: bool, table: Table)
    requires Constant(k) && WellFormed(k) && ValidParams(params)
    ensures Aborts(LeafFilter(op, column, ConstantValue(k, params), negated, table).0)
            <==> Unbindable(column, k, params, table)
  {
    ConstantMissingIff(k, params);
    if column in table.columns {
      ConversionRefusedIff(ConstantValue(k, params), table.columns[column], table);
    }
    hide ConvertLiteral, NeedsTooManyDigits;
  }

  lemma {:induction false} MembersRefusedIff(vs: seq<Value>, t: ColumnType, table: Table)
    ensures ConvertMembers(vs, t, table).SomeRefused? <==> exists v :: v in vs && (v.Fault? || NeedsTooManyDigits(v, t))
  {
    hide ConvertLiteral, FitsDigits, Rescale;
    if vs != [] {
      MembersRefusedIff(vs[1..], t, table);
      ConversionRefusedIff(vs[0], t, table);
      assert forall v :: v in vs <==> v == vs[0] || v in vs[1..];
    }
  }

  /** Some member's value is missing or too long exactly when some member cannot be bound. */
  lemma UnbindableMembers(es: seq<Expr>, column: string, params: Params, table: Table)
    requires AllWellFormed(es) && ValidParams(params) && (forall e | e in es :: Constant(e)) && column in table.columns
    ensures (exists v :: v in EvalAll(es, map[], params) && (v.Fault? || NeedsTooManyDigits(v, table.columns[column])))
            <==> exists e :: e in es && Constant(e) && Unbindable(column, e, params, table)
  {
    var vs := EvalAll(es, map[], params);
    AllWellFormedIff(es);
    forall i | 0 <= i < |es|
      ensures Constant(es[i]) && vs[i] == ConstantValue(es[i], params)
      ensures (vs[i].Fault? || NeedsTooManyDigits(vs[i], table.columns[column])) <==> Unbindable(column, es[i], params, table)
    {
      EvalAllAt(es, map[], params, i);
      assert es[i] in es;
      ConstantMissingIff(es[i], params);
    }
    hide NeedsTooManyDigits, Unbindable, EvalAll, WellFormed;
    if v :| v in vs && (v.Fault? || NeedsTooManyDigits(v, table.columns[column])) {
      var i :| 0 <= i < |vs| && vs[i] == v;
      assert es[i] in es && Unbindable(column, es[i], params, table);
    }
    if e :| e in es && Constant(e) && Unbindable(column, e, params, table) {
      var i :| 0 <= i < |es| && es[i] == e;
      assert vs[i] in vs;
    }
  }

  lemma InAbortsIff(e: Expr, params: Params, negated: bool, table: Table)
    requires e.In? && WellFormed(e) && ValidParams(params)
    ensures Aborts(InFilter(e, params, negated, table).0) <==> LeafRefuses(e, params, table)
  {
    if e.operand.Column? && e.operand.name in table.columns {
      var c, vs := e.operand.name, EvalAll(e.values, map[], params);
      MembersRefusedIff(vs, table.columns[c], table);
      UnbindableMembers(e.values, c, params, table);
      hide NeedsTooManyDigits, Unbindable, ConvertMembers, EvalAll;
      var members := ConvertMembers(vs, table.columns[c], table);
      if members.Converted? {
        var parts := [NotNullTest(c), NotInSet(c, members.values)];
        assert parts[1..] == [NotInSet(c, members.values)] && parts[1..][1..] == [];
        assert !AnyAborts(parts[1..][1..]);
        assert !AnyAborts(parts[1..]);
        assert !AnyAborts(parts);
      }
    }
  }

  /**
   The translation raises exactly when one of the predicate's tests cannot be bound: a condition on the
   predicate, its parameters and the column types alone.
   */
  lemma {:induction false} AbortsIff(e: Expr, params: Params, negated: bool, table: Table)
    requires WellFormed(e) && ValidParams(params)
    ensures Aborts(Translate(e, params, negated, table).0) <==> RefusesTest(e, params, table)
    decreases e, 1
  {
    match e
    case And(os) => AllAbortIff(os, params, negated, table);
    case Or(os) => AllAbortIff(os, params, negated, table);
    case Not(o) => AbortsIff(o, params, !negated, table);
    case _ => TestAbortsIff(e, params, negated, table);
  }

  lemma {:induction false} AllAbortIff(es: seq<Expr>, params: Params, negated: bool, table: Table)
    requires AllWellFormed(es) && ValidParams(params)
    ensures AnyAborts(TranslateAll(es, params, negated, table).0)
            <==> exists n :: n in LeavesOfAll(es) && LeafRefuses(n, params, table)
    decreases es, 0
  {
    hide LeafRefuses, Translate;
    if es != [] {
      AbortsIff(es[0], params, negated, table);
      AllAbortIff(es[1..], params, negated, table);
      var t := TranslateAll(es, params, negated, table);
      assert t.0[0] == Translate(es[0], params, negated, table).0;
      assert t.0[1..] == TranslateAll(es[1..], params, negated, table).0;
    }
  }

  lemma TestAbortsIff(e: Expr, params: Params, negated: bool, table: Table)
    requires WellFormed(e) && ValidParams(params) && !e.And? && !e.Or? && !e.Not?
    ensures Aborts(Translate(e, params, negated, table).0) <==> RefusesTest(e, params, table)
  {
    assert Leaves(e) == [e] && e in Leaves(e);
    match e
    case Comparison(op, l, r) =>
      hide Unbindable, LeafFilter;
      if l.Column? && Constant(r) {
        LeafAbortsIff(op, l.name, r, params, negated, table);
      } else if r.Column? && Constant(l) {
        LeafAbortsIff(Mirror(op), r.name, l, params, negated, table);
      }
    case IsNull(o, _) => if Constant(o) { ConstantMissingIff(o, params); }
    case In(_, _, _) => InAbortsIff(e, params, negated, table);
    case _ =>
  }

  lemma WideDigits()
    ensures var wide := Rescale(100_000_000_000_000_000_000, 0, 10);
            FitsDigits(wide, 38) && !FitsDigits(wide, QUANTIZE_DIGITS) && FitsDigits(100_000_000_000_000_000_000, 21)
  {
    Pow10Widths();
    ShiftScales(100_000_000_000_000_000_000, 10);
    Pow10Add(10, 10);
    Pow10Add(20, 10);
    assert Pow10(21) == 10 * Pow10(20) && Pow10(31) == 10 * Pow10(30);
    Pow10Monotone(28, 30);
    Pow10Monotone(31, 38);
    hide Pow10;
  }

  lemma OneMoreIsGreater(u: int, scale: nat, k: Value)
    requires k.Numeric() && Real(Decimal(u, scale)) == Real(k)
    ensures Relate(GT, Decimal(u + 1, scale), k) == TRUE
  {
    var p := Pow10(scale) as real;
    assert (u + 1) as real / p == u as real / p + 1.0 / p;
  }

  lemma WholeLiteralIsWellFormed(u: int, params: Params)
    requires FitsDigits(u, 21)
    ensures var literal := Literal(Lit(Decimal(u, 0), DecimalType(21, 0)));
            WellFormed(literal) && ConstantValue(literal, params) == Decimal(u, 0)
  {
  }

  lemma LongLiteralRefused(c: string, u: int, table: Table, params: Params)
    requires c != [] && c in table.columns && table.columns[c] == DecimalColumn(38, 10)
    requires FitsDigits(u, 21) && !FitsDigits(Rescale(u, 0, 10), QUANTIZE_DIGITS)
    ensures var e := Comparison(GT, Column(c), Literal(Lit(Decimal(u, 0), DecimalType(21, 0))));
            && WellFormed(e) && Translate(e, params, false, table) == (Aborted, false)
            && IsTrue(e, map[c := Decimal(Rescale(u, 0, 10) + 1, 10)], params)
  {
    var k, wide := Decimal(u, 0), Rescale(u, 0, 10);
    var literal := Literal(Lit(k, DecimalType(21, 0)));
    var e := Comparison(GT, Column(c), literal);
    ConversionRefusedIff(k, table.columns[c], table);
    WholeLiteralIsWellFormed(u, params);
    RescaledIsSame(u, 0, 10);
    OneMoreIsGreater(wide, 10, k);
    hide Rescale, FitsDigits, Relate, ConvertLiteral, Conforms;
    var row: Row := map[c := Decimal(wide + 1, 10)];
    assert Eval(Column(c), row, params) == Decimal(wide + 1, 10);
    assert Eval(e, row, params) == Relate(GT, Decimal(wide + 1, 10), k);
    assert Translate(e, params, false, table) == LeafFilter(GT, c, k, false, table);
  }

  /**
   10^20 is a value of decimal(38,10), which holds it in 31 digits, and values there exceed it; yet the
   comparison with it cannot be translated.
   */
  lemma RoomyColumnRefused(c: string, table: Table, params: Params)
    requires c != [] && c in table.columns && table.columns[c] == DecimalColumn(38, 10)
    ensures var u := 100_000_000_000_000_000_000;
            var e := Comparison(GT, Column(c), Literal(Lit(Decimal(u, 0), DecimalType(21, 0))));
            && FitsDigits(Rescale(u, 0, 10), 38) && WellFormed(e)
            && IsTrue(e, map[c := Decimal(Rescale(u, 0, 10) + 1, 10)], params)
            && Translate(e, params, false, table) == (Aborted, false)
  {
    var u := 100_000_000_000_000_000_000;
    WideDigits();
    hide FitsDigits, Rescale, IsTrue, Translate, WellFormed;
    LongLiteralRefused(c, u, table, params);
  }

  // ---- the filter is a relaxation, and exact when it says so ------------------------------------------------

  /** What the (possibly negated) predicate wants: TRUE, or FALSE under a negation. */
  function Wanted(negated: bool): Value {
    Bool(!negated)
  }

  /** The filter keeps every wanted row and, when exact, only those. */
  predicate Faithful(t: (RowFilter, bool), outcome: Value, negated: bool, row: Row) {
    && (outcome == Wanted(negated) ==> Passes(t.0, row))
    && (t.1 && Passes(t.0, row) && !outcome.Fault? ==> outcome == Wanted(negated))
  }

  lemma OppositeNegates(op: ComparisonOp, o: Order)
    requires !o.Incomparable?
    ensures Opposite(op).Holds(o) == !op.Holds(o)
    ensures Mirror(op).Holds(o.Flip()) == op.Holds(o)
  {
  }

  /** A converted test passes exactly where the comparison is TRUE, or FALSE once negated. */
  lemma TestIsExact(op: ComparisonOp, column: string, v: Value, c: Value, negated: bool, row: Row)
    requires SameValue(c, v) && v.Present()
    ensures Passes(Test(if negated then Opposite(op) else op, column, c), row)
            <==> Relate(op, Lookup(row, column), v) == Wanted(negated)
  {
    var x := Lookup(row, column);
    SameValueComparesSame(x, c, v);
    hide Compare;
    if !Compare(x, v).Incomparable? {
      OppositeNegates(op, Compare(x, v));
    }
  }

  lemma LeafIsFaithful(op: ComparisonOp, column: string, v: Value, negated: bool, table: Table, row: Row)
    ensures Faithful(LeafFilter(op, column, v, negated, table), Relate(op, Lookup(row, column), v), negated, row)
  {
    if !v.Null? && column in table.columns && ConvertLiteral(v, table.columns[column], table).Exactly? {
      var c := ConvertLiteral(v, table.columns[column], table).value;
      ConvertedIsSame(v, table.columns[column], table);
      hide ConvertLiteral, Compare, Relate;
      TestIsExact(op, column, v, c, negated, row);
    }
  }

  lemma ConstantsIgnoreRows(e: Expr, row: Row, params: Params)
    requires Constant(e)
    ensures Eval(e, row, params) == ConstantValue(e, params)
  {
  }

  lemma ComparisonIsFaithful(e: Expr, params: Params, negated: bool, table: Table, row: Row)
    requires e.Comparison?
    ensures Faithful(ComparisonFilter(e, params, negated, table), Eval(e, row, params), negated, row)
  {
    hide LeafFilter, Relate, Passes;
    if e.left.Column? && Constant(e.right) {
      ConstantsIgnoreRows(e.right, row, params);
      LeafIsFaithful(e.comparison, e.left.name, ConstantValue(e.right, params), negated, table, row);
    } else if e.right.Column? && Constant(e.left) {
      ConstantsIgnoreRows(e.left, row, params);
      var x := Lookup(row, e.right.name);
      MirroredRelates(e.comparison, ConstantValue(e.left, params), x);
      LeafIsFaithful(Mirror(e.comparison), e.right.name, ConstantValue(e.left, params), negated, table, row);
    } else {
      RelaxedIsFaithful(Eval(e, row, params), negated, row);
    }
  }

  lemma RelaxedIsFaithful(outcome: Value, negated: bool, row: Row)
    ensures Faithful(RELAXED, outcome, negated, row)
  {
  }

  lemma NullIsFaithful(e: Expr, params: Params, negated: bool, table: Table, row: Row)
    requires e.IsNull?
    ensures Faithful(NullFilter(e, params, negated, table), Eval(e, row, params), negated, row)
  {
    if Constant(e.operand) {
      ConstantsIgnoreRows(e.operand, row, params);
    } else if e.operand.Column? {
      assert Eval(e.operand, row, params) == Lookup(row, e.operand.name);
    }
  }

  lemma {:induction false} ConstantMembers(vs: seq<Expr>, row: Row, params: Params)
    requires forall v | v in vs :: Constant(v)
    ensures EvalAll(vs, row, params) == EvalAll(vs, map[], params)
  {
    if vs != [] {
      assert vs[0] in vs;
      ConstantMembers(vs[1..], row, params);
    }
  }

  /** A converted set has a member equal to x exactly when a non-null value of the list does. */
  lemma {:induction false} ConvertedMembers(x: Value, vs: seq<Value>, t: ColumnType, table: Table)
    requires ConvertMembers(vs, t, table).Converted?
    ensures (exists v :: v in ConvertMembers(vs, t, table).values && Equals(x, v))
            <==> exists v :: v in vs && !v.Null? && Equals(x, v)
  {
    if vs != [] {
      var all, rest := ConvertMembers(vs, t, table).values, ConvertMembers(vs[1..], t, table);
      ConvertedMembers(x, vs[1..], t, table);
      assert forall v :: v in vs <==> v == vs[0] || v in vs[1..];
      if !vs[0].Null? {
        var c := ConvertLiteral(vs[0], t, table).value;
        ConvertedIsSame(vs[0], t, table);
        SameValueComparesSame(x, c, vs[0]);
        assert forall v :: v in all <==> v == c || v in rest.values;
      }
    }
  }

  /** IN and NOT IN against a converted set, on a value that makes the test neither stuck nor lossy. */
  lemma SetTestIsExact(x: Value, vs: seq<Value>, t: ColumnType, table: Table)
    requires ConvertMembers(vs, t, table).Converted? && !Member3(x, vs).Fault? && vs != []
    ensures var s := ConvertMembers(vs, t, table).values;
            && (Member3(x, vs) == TRUE <==> x.Present() && exists v :: v in s && Equals(x, v))
            && (Member3(x, vs) == FALSE
                <==> !HasNull(vs) && x.Present() && forall v :: v in s ==> !Equals(x, v))
  {
    var s := ConvertMembers(vs, t, table).values;
    MembershipTruth(x, vs);
    ConvertedMembers(x, vs, t, table);
    forall v | v in vs
      ensures Relate(EQ, x, v) == TRUE <==> x.Present() && !v.Null? && Equals(x, v)
      ensures Relate(EQ, x, v) == FALSE <==> x.Present() && !v.Null? && !Equals(x, v)
    {
      EqualRelates(x, v);
      assert Relate(EQ, x, v).Truth();
    }
    assert vs[0] in vs;
  }

  lemma NullMemberNeverFalse(x: Value, vs: seq<Value>)
    requires HasNull(vs) && !Member3(x, vs).Fault?
    ensures Member3(x, vs) != FALSE
  {
    MembershipTruth(x, vs);
    var v :| v in vs && v.Null?;
    assert Relate(EQ, x, v) != FALSE;
  }

  /** What the IN filter passes, given how its members converted. */
  lemma InFilterPasses(e: Expr, params: Params, negated: bool, table: Table, row: Row, vs: seq<Value>, x: Value)
    requires e.In? && e.operand.Column? && e.operand.name in table.columns
    requires vs == EvalAll(e.values, map[], params) && x == Lookup(row, e.operand.name)
    requires vs != [] && !Member3(x, vs).Fault?
    ensures var outcome := if e.negated != negated then FALSE else TRUE;
            var (f, exact) := InFilter(e, params, negated, table);
            && (Member3(x, vs) == outcome ==> Passes(f, row))
            && (exact && Passes(f, row) ==> Member3(x, vs) == outcome)
  {
    hide Member3, Compare, Relate, EvalAll;
    var c, t := e.operand.name, table.columns[e.operand.name];
    if HasNull(vs) {
      NullMemberNeverFalse(x, vs);
    }
    if ConvertMembers(vs, t, table).Converted? {
      SetTestIsExact(x, vs, t, table);
      TwoParts(NotNullTest(c), NotInSet(c, ConvertMembers(vs, t, table).values), row);
    }
  }

  lemma InIsFaithful(e: Expr, params: Params, negated: bool, table: Table, row: Row)
    requires e.In? && WellFormed(e)
    ensures Faithful(InFilter(e, params, negated, table), Eval(e, row, params), negated, row)
  {
    if !e.operand.Column? || e.operand.name !in table.columns {
      RelaxedIsFaithful(Eval(e, row, params), negated, row);
    } else {
      var x, vs := Lookup(row, e.operand.name), EvalAll(e.values, map[], params);
      ConstantMembers(e.values, row, params);
      assert Eval(e.operand, row, params) == x;
      assert Eval(e, row, params) == Negate(Member3(x, vs), e.negated);
      hide InFilter, Passes, Member3;
      if !Eval(e, row, params).Fault? {
        InFilterPasses(e, params, negated, table, row, vs, x);
      }
    }
  }

  lemma TwoParts(f: RowFilter, g: RowFilter, row: Row)
    ensures Passes(Every([f, g]), row) <==> Passes(f, row) && Passes(g, row)
  {
    assert [f, g][1..] == [g] && [g][1..] == [];
    assert AllPass([g], row) <==> Passes(g, row) && AllPass([], row);
    assert AllPass([f, g], row) <==> Passes(f, row) && AllPass([g], row);
  }

  /** An operand-wise faithful list, folded as AND or OR, is faithful to the folded outcome. */
  predicate AllFaithful(fs: seq<RowFilter>, exact: bool, vs: seq<Value>, negated: bool, row: Row) {
    && |fs| == |vs|
    && forall i | 0 <= i < |fs| :: Faithful((fs[i], exact), vs[i], negated, row)
  }

  lemma EmptyJunction(row: Row)
    ensures Passes(Every([]), row) && !Passes(Some'([]), row)
  {
    assert AllPass([], row) && !AnyPasses([], row);
  }

  lemma JunctionPasses(fs: seq<RowFilter>, row: Row)
    requires fs != []
    ensures Passes(Every(fs), row) <==> Passes(fs[0], row) && Passes(Every(fs[1..]), row)
    ensures Passes(Some'(fs), row) <==> Passes(fs[0], row) || Passes(Some'(fs[1..]), row)
  {
    assert AllPass(fs, row) <==> Passes(fs[0], row) && AllPass(fs[1..], row);
    assert AnyPasses(fs, row) <==> Passes(fs[0], row) || AnyPasses(fs[1..], row);
  }

  lemma {:induction false} JunctionIsFaithful(fs: seq<RowFilter>, exact: bool, vs: seq<Value>, negated: bool, row: Row)
    requires AllFaithful(fs, exact, vs, negated, row)
    ensures Faithful((if negated then Some'(fs) else Every(fs), exact), AllOf(vs), negated, row)
    ensures Faithful((if negated then Every(fs) else Some'(fs), exact), AnyOf(vs), negated, row)
  {
    if fs == [] {
      EmptyJunction(row);
    } else {
      assert Faithful((fs[0], exact), vs[0], negated, row);
      JunctionPasses(fs, row);
      JunctionIsFaithful(fs[1..], exact, vs[1..], negated, row);
    }
  }

  lemma WeakerFlag(f: RowFilter, exact: bool, weaker: bool, outcome: Value, negated: bool, row: Row)
    requires Faithful((f, exact), outcome, negated, row) && (weaker ==> exact)
    ensures Faithful((f, weaker), outcome, negated, row)
  {
  }

  /**
   By induction through De Morgan, NULL operands, NULL members and literal coercion: the filter
   keeps every row where the (possibly negated) predicate is TRUE and, when flagged exact, only
   those, on every row where the predicate is not stuck.
   */
  lemma {:induction false} TranslationIsFaithful(e: Expr, params: Params, negated: bool, table: Table, row: Row)
    requires WellFormed(e)
    ensures Faithful(Translate(e, params, negated, table), Eval(e, row, params), negated, row)
    decreases e, 1
  {
    hide Faithful, ComparisonFilter, NullFilter, InFilter, Passes;
    match e
    case And(os) =>
      TranslationsAreFaithful(os, params, negated, table, row);
      var t := TranslateAll(os, params, negated, table);
      JunctionIsFaithful(t.0, t.1, EvalAll(os, row, params), negated, row);
    case Or(os) =>
      TranslationsAreFaithful(os, params, negated, table, row);
      var t := TranslateAll(os, params, negated, table);
      JunctionIsFaithful(t.0, t.1, EvalAll(os, row, params), negated, row);
    case Not(o) =>
      TranslationIsFaithful(o, params, !negated, table, row);
      NotFlips(Translate(o, params, !negated, table), Eval(o, row, params), negated, row);
    case Comparison(_, _, _) => ComparisonIsFaithful(e, params, negated, table, row);
    case IsNull(_, _) => NullIsFaithful(e, params, negated, table, row);
    case In(_, _, _) => InIsFaithful(e, params, negated, table, row);
    case _ => RelaxedIsFaithful(Eval(e, row, params), negated, row);
  }

  lemma NotFlips(t: (RowFilter, bool), outcome: Value, negated: bool, row: Row)
    requires Faithful(t, outcome, !negated, row)
    ensures Faithful(t, Not3(outcome), negated, row)
  {
  }

  lemma {:induction false} TranslationsAreFaithful(es: seq<Expr>, params: Params, negated: bool, table: Table, row: Row)
    requires AllWellFormed(es)
    ensures var (fs, exact) := TranslateAll(es, params, negated, table);
            AllFaithful(fs, exact, EvalAll(es, row, params), negated, row)
    decreases es, 0
  {
    hide Faithful, Translate;
    if es != [] {
      TranslationIsFaithful(es[0], params, negated, table, row);
      TranslationsAreFaithful(es[1..], params, negated, table, row);
      var (f, exact) := Translate(es[0], params, negated, table);
      var (fs, allExact) := TranslateAll(es[1..], params, negated, table);
      var vs := EvalAll(es[1..], row, params);
      WeakerFlag(f, exact, exact && allExact, Eval(es[0], row, params), negated, row);
      forall i | 0 <= i < |fs|
        ensures Faithful((fs[i], exact && allExact), vs[i], negated, row)
      {
        WeakerFlag(fs[i], allExact, exact && allExact, vs[i], negated, row);
      }
    }
  }
}
