/**
 Logical data types, the common type of two inputs, and the exact-decimal promises of that
 common type. With an operation the result type is wide enough for every exact result; without one,
 unification of numeric types is a join whose order and grouping do not matter, even where the
 cap of 76 digits trims scale.
 */
module Types {
  import opened Wrappers
  import opened Values

  datatype DataType =
    | UnknownType
    | NullType
    | BooleanType
    | IntegerType(bits: nat)
    | FloatType(width: nat)
    | DecimalType(precision: nat, scale: nat)
    | StringType
    | BinaryType
    | DateType
    | TimestampType(timezone: Option<string>)
    | ListType(element: DataType)
    | StructType(fields: seq<(string, DataType)>)
  {
    /** What the type constructors enforce. */
    predicate Valid() {
      match this
      case IntegerType(bits) => bits in {8, 16, 32, 64}
      case FloatType(width) => width in {32, 64}
      case DecimalType(p, s) => 1 <= p <= 76 && s <= p
      case ListType(e) => e.Valid()
      case StructType(fs) => forall f | f in fs :: f.1.Valid()
      case _ => true
    }

    predicate Numeric() {
      IntegerType? || FloatType? || DecimalType?
    }

    predicate Open() {
      NullType? || UnknownType?
    }

    predicate Scalar() {
      !UnknownType? && !ListType? && !StructType?
    }
  }

  type Numeric = t: DataType | t.Numeric() && t.Valid() witness IntegerType(64)

  const PORTABLE_DECIMAL_PRECISION := 38
  const DESCRIPTIVE_DECIMAL_PRECISION := 76

  datatype TypeError = DecimalTooWide(integral: int, scale: int, maximum: nat)

  // ---- classification ------------------------------------------------------------------------

  predicate SameKind(a: DataType, b: DataType) {
    match a
    case UnknownType => b.UnknownType?
    case NullType => b.NullType?
    case BooleanType => b.BooleanType?
    case IntegerType(_) => b.IntegerType?
    case FloatType(_) => b.FloatType?
    case DecimalType(_, _) => b.DecimalType?
    case StringType => b.StringType?
    case BinaryType => b.BinaryType?
    case DateType => b.DateType?
    case TimestampType(_) => b.TimestampType?
    case ListType(_) => b.ListType?
    case StructType(_) => b.StructType?
  }

  predicate IsComparable(a: DataType, b: DataType) {
    if a.Open() || b.Open() then true
    else if a.Numeric() && b.Numeric() then true
    else SameKind(a, b)
  }

  predicate IsPortable(t: DataType) {
    match t
    case DecimalType(p, _) => p <= PORTABLE_DECIMAL_PRECISION
    case ListType(e) => IsPortable(e)
    case StructType(fs) => forall f | f in fs :: IsPortable(f.1)
    case _ => true
  }

  /** The engine-independent result type of a scalar: every aware timestamp is UTC. */
  function NormalisePortable(t: DataType): DataType {
    match t
    case TimestampType(tz) => if tz.Some? then TimestampType(Some("UTC")) else t
    case ListType(e) => ListType(NormalisePortable(e))
    case StructType(fs) => StructType(seq(|fs|, i requires 0 <= i < |fs| => (fs[i].0, NormalisePortable(fs[i].1))))
    case _ => t
  }

  // ---- unification -----------------------------------------------------------------------------

  /** Decimal digits an integer of the given width may need. */
  function IntegerDigits(bits: nat): nat {
    if bits == 8 then 3 else if bits == 16 then 5 else if bits == 32 then 10 else 19
  }

  function AsDecimal(t: DataType): DataType
    requires t.IntegerType? || t.DecimalType?
  {
    if t.DecimalType? then t else DecimalType(IntegerDigits(t.bits), 0)
  }

  function Integral(t: DataType): int
    requires t.DecimalType?
  {
    t.precision - t.scale
  }

  function BoundedDecimal(integral: int, scale: int, maximum: nat): Result<DataType, TypeError> {
    var i, s := Max(integral, 0), Max(scale, 0);
    if i > maximum then Failure(DecimalTooWide(i, s, maximum))
    else if i + s <= maximum then Success(DecimalType(Max(i + s, 1), s))
    else Success(DecimalType(maximum, Max(0, maximum - i)))
  }

  function UnifyExact(l: DataType, r: DataType, operation: Option<ArithmeticOp>): Result<DataType, TypeError>
    requires l.DecimalType? && r.DecimalType?
    requires operation != Some(DIV)
  {
    var li, ri := Integral(l), Integral(r);
    var multiplies := operation == Some(MUL);
    var scale := if multiplies then l.scale + r.scale else Max(l.scale, r.scale);
    var integral := if multiplies then li + ri + 1 else if operation.Some? then Max(li, ri) + 1 else Max(li, ri);
    var maximum := if operation.Some? then PORTABLE_DECIMAL_PRECISION else DESCRIPTIVE_DECIMAL_PRECISION;
    if integral > maximum then Failure(DecimalTooWide(integral, scale, maximum))
    else if operation.Some? && integral + scale > maximum then Failure(DecimalTooWide(integral, scale, maximum))
    else BoundedDecimal(integral, scale, maximum)
  }

  function UnifyNumeric(l: DataType, r: DataType, operation: Option<ArithmeticOp>): Result<DataType, TypeError>
    requires l.Numeric() && r.Numeric() && operation != Some(DIV)
  {
    if l.FloatType? || r.FloatType? then
      Success(if l.FloatType? && r.FloatType? then FloatType(Max(l.width, r.width)) else FloatType(64))
    else if l.IntegerType? && r.IntegerType? then
      Success(if operation.Some? then IntegerType(64) else IntegerType(Max(l.bits, r.bits)))
    else UnifyExact(AsDecimal(l), AsDecimal(r), operation)
  }

  /** The common type of two inputs, or of an arithmetic operation over them. */
  function Unify(l: DataType, r: DataType, operation: Option<ArithmeticOp>): Result<DataType, TypeError> {
    if operation == Some(DIV) then Success(FloatType(64))
    else if operation.Some? && (l.UnknownType? || r.UnknownType?) then Success(UnknownType)
    else if l.Open() && r.Open() then
      Success(if l.UnknownType? || r.UnknownType? then UnknownType else NullType)
    else if l.Open() then Success(r)
    else if r.Open() then Success(l)
    else if !(l.Numeric() && r.Numeric()) then Success(if l == r then l else UnknownType)
    else UnifyNumeric(l, r, operation)
  }

  /** Exact unification in closed form: a decimal of the needed shape, capped only without an operation. */
  lemma UnifyExactShape(l: DataType, r: DataType, operation: Option<ArithmeticOp>)
    requires l.DecimalType? && r.DecimalType? && l.Valid() && r.Valid()
    requires operation != Some(DIV)
    ensures UnifyExact(l, r, operation) == UnifyExact(r, l, operation)
    ensures UnifyExact(l, r, operation).Success? ==>
              UnifyExact(l, r, operation).value.DecimalType? && UnifyExact(l, r, operation).value.Valid()
  {
  }

  lemma UnifyNumericCommutes(l: DataType, r: DataType, operation: Option<ArithmeticOp>)
    requires l.Valid() && r.Valid() && l.Numeric() && r.Numeric() && operation != Some(DIV)
    ensures UnifyNumeric(l, r, operation) == UnifyNumeric(r, l, operation)
    ensures UnifyNumeric(l, r, operation).Success? ==>
              UnifyNumeric(l, r, operation).value.Numeric() && UnifyNumeric(l, r, operation).value.Valid()
  {
    if ExactType(l) && ExactType(r) {
      UnifyExactShape(AsDecimal(l), AsDecimal(r), operation);
    }
  }

  lemma UnifyIsValid(l: DataType, r: DataType, operation: Option<ArithmeticOp>)
    requires l.Valid() && r.Valid()
    ensures Unify(l, r, operation).Success? ==> Unify(l, r, operation).value.Valid()
  {
    if operation != Some(DIV) && l.Numeric() && r.Numeric() {
      UnifyNumericCommutes(l, r, operation);
    }
  }

  /** Unification is symmetric for every pair of types and every operation, errors included. */
  lemma UnifyCommutes(l: DataType, r: DataType, operation: Option<ArithmeticOp>)
    requires l.Valid() && r.Valid()
    ensures Unify(l, r, operation) == Unify(r, l, operation)
  {
    if operation != Some(DIV) && l.Numeric() && r.Numeric() {
      UnifyNumericCommutes(l, r, operation);
    }
  }

  // ---- values of a type --------------------------------------------------------------------------

  function Pow2(n: nat): (r: int)
    ensures r > 0
  {
    if n == 0 then 1 else 2 * Pow2(n - 1)
  }

  lemma Pow2Widths()
    ensures Pow2(7) == 0x80 && Pow2(15) == 0x8000 && Pow2(31) == 0x8000_0000 && Pow2(63) == 0x8000_0000_0000_0000
  {
    assert Pow2(7) == 0x80;
    assert Pow2(11) == 0x800;
    assert Pow2(15) == 0x8000;
    assert Pow2(19) == 0x8_0000;
    assert Pow2(23) == 0x80_0000;
    assert Pow2(27) == 0x800_0000;
    assert Pow2(31) == 0x8000_0000;
    assert Pow2(35) == 0x8_0000_0000;
    assert Pow2(39) == 0x80_0000_0000;
    assert Pow2(43) == 0x800_0000_0000;
    assert Pow2(47) == 0x8000_0000_0000;
    assert Pow2(51) == 0x8_0000_0000_0000;
    assert Pow2(55) == 0x80_0000_0000_0000;
    assert Pow2(59) == 0x800_0000_0000_0000;
    assert Pow2(63) == 0x8000_0000_0000_0000;
  }

  lemma Pow10Widths()
    ensures Pow10(3) == 1_000 && Pow10(5) == 100_000 && Pow10(10) == 10_000_000_000
    ensures Pow10(19) == 10_000_000_000_000_000_000
  {
    assert Pow10(3) == 1_000;
    assert Pow10(5) == 100_000;
    assert Pow10(8) == 100_000_000;
    assert Pow10(10) == 10_000_000_000;
    assert Pow10(13) == 10_000_000_000_000;
    assert Pow10(16) == 10_000_000_000_000_000;
    assert Pow10(19) == 10_000_000_000_000_000_000;
  }

  predicate FitsBits(i: int, bits: nat)
    requires bits > 0
  {
    -Pow2(bits - 1) <= i < Pow2(bits - 1)
  }

  /** Whether a number of `scale` fractional digits is written with at most `precision` digits. */
  predicate FitsDigits(unscaled: int, precision: nat) {
    -Pow10(precision) < unscaled < Pow10(precision)
  }

  /**
   Whether a value lies inside a type. A decimal does when it can be written at the type's scale
   within its precision. NULL lies inside every type and `Fault` inside none.
   */
  predicate Conforms(v: Value, t: DataType)
    requires t.Valid()
  {
    if v.Null? then true
    else match t
      case BooleanType => v.Bool?
      case IntegerType(bits) => v.Int? && FitsBits(v.i, bits)
      case FloatType(_) => v.Float?
      case DecimalType(p, s) =>
        v.Decimal? && v.scale <= s && FitsDigits(Rescale(v.unscaled, v.scale, s), p)
      case StringType => v.Text?
      case BinaryType => v.Opaque? && v.kind.Binary?
      case DateType => v.Opaque? && v.kind.Date?
      case TimestampType(_) => v.Opaque? && v.kind.Timestamp?
      case _ => false
  }

  // ---- decimal capacity ----------------------------------------------------------------------------

  /** Every integer of a type has at most the digits the capacity table allots to its width. */
  lemma IntegersFitTheirDigits(i: int, t: DataType)
    requires t.IntegerType? && t.Valid() && FitsBits(i, t.bits)
    ensures FitsDigits(i, IntegerDigits(t.bits))
  {
    Pow2Widths();
    Pow10Widths();
  }

  /** Writing a number with more fractional digits needs exactly that many more digits. */
  lemma {:induction false} ShiftFits(digits: int, precision: nat, k: nat)
    requires FitsDigits(digits, precision)
    ensures FitsDigits(Shift(digits, k), precision + k)
  {
    if k > 0 {
      ShiftFits(digits, precision, k - 1);
    }
  }

  lemma FitsMore(digits: int, p: nat, q: nat)
    requires p <= q && FitsDigits(digits, p)
    ensures FitsDigits(digits, q)
  {
    Pow10Monotone(p, q);
  }

  lemma ProductBelow(x: nat, y: nat, m: nat, n: nat)
    requires x < m && y < n
    ensures x * y < m * n
  {
    calc {
      x * y;
    <= { assert x * (n - y) >= 0; assert x * (n - y) == x * n - x * y; }
      x * n;
    < { assert (m - x) * n > 0; assert (m - x) * n == m * n - x * n; }
      m * n;
    }
  }

  function Abs(a: int): nat {
    if a < 0 then -a else a
  }

  lemma AbsOfProduct(a: int, b: int)
    ensures Abs(a * b) == Abs(a) * Abs(b)
  {
    assert (-a) * b == -(a * b) && a * (-b) == -(a * b) && (-a) * (-b) == a * b;
    assert a >= 0 && b >= 0 ==> a * b >= 0;
    assert a < 0 && b >= 0 ==> (-a) * b >= 0;
    assert a >= 0 && b < 0 ==> a * (-b) >= 0;
    assert a < 0 && b < 0 ==> (-a) * (-b) >= 0;
  }

  lemma ProductFits(a: int, b: int, p: nat, q: nat)
    requires FitsDigits(a, p) && FitsDigits(b, q)
    ensures FitsDigits(a * b, p + q)
  {
    Pow10Add(p, q);
    ProductBelow(Abs(a), Abs(b), Pow10(p), Pow10(q));
    AbsOfProduct(a, b);
    BelowFits(a * b, p + q);
  }

  lemma BelowFits(x: int, n: nat)
    ensures FitsDigits(x, n) <==> Abs(x) < Pow10(n)
  {
  }

  /** An exact number that can be written in the digits of a decimal type. */
  predicate Within(v: Value, t: DataType)
    requires t.DecimalType?
  {
    (v.Int? || v.Decimal?) && Scale(v) <= t.scale && FitsDigits(Rescale(Unscaled(v), Scale(v), t.scale), t.precision)
  }

  lemma ExactDigits(v: Value, t: DataType)
    requires (t.IntegerType? || t.DecimalType?) && t.Valid() && Conforms(v, t) && !v.Null?
    ensures Within(v, AsDecimal(t))
  {
    if t.IntegerType? {
      IntegersFitTheirDigits(v.i, t);
      assert Rescale(v.i, 0, 0) == v.i;
    }
  }

  lemma SumFits(a: int, b: int, n: nat)
    requires FitsDigits(a, n) && FitsDigits(b, n)
    ensures FitsDigits(a + b, n + 1) && FitsDigits(a - b, n + 1)
  {
    assert Pow10(n + 1) == 10 * Pow10(n);
  }

  lemma SumAtScale(x: int, p: nat, y: int, q: nat, s: nat, t: nat)
    requires p <= s <= t && q <= s
    ensures Rescale(Rescale(x, p, s) + Rescale(y, q, s), s, t) == Rescale(x, p, t) + Rescale(y, q, t)
    ensures Rescale(Rescale(x, p, s) - Rescale(y, q, s), s, t) == Rescale(x, p, t) - Rescale(y, q, t)
  {
    ShiftAdds(Rescale(x, p, s), Rescale(y, q, s), t - s);
    ShiftTwice(x, s - p, t - s);
    ShiftTwice(y, s - q, t - s);
  }

  lemma TermFits(v: Value, t: DataType, scale: nat, n: nat)
    requires t.DecimalType? && Within(v, t) && t.scale <= scale && t.precision + (scale - t.scale) <= n
    ensures FitsDigits(Rescale(Unscaled(v), Scale(v), scale), n)
  {
    var x := Rescale(Unscaled(v), Scale(v), t.scale);
    ShiftFits(x, t.precision, scale - t.scale);
    FitsMore(Rescale(x, t.scale, scale), t.precision + (scale - t.scale), n);
    ShiftTwice(Unscaled(v), t.scale - Scale(v), scale - t.scale);
  }

  lemma AdditiveShape(op: ArithmeticOp, a: Value, b: Value, t: nat)
    requires (op.ADD? || op.SUB?) && (a.Int? || a.Decimal?) && (b.Int? || b.Decimal?)
    requires Scale(a) <= t && Scale(b) <= t
    ensures var e := ExactDecimal(op, a, b);
            var x, y := Rescale(Unscaled(a), Scale(a), t), Rescale(Unscaled(b), Scale(b), t);
            e.scale <= t && Rescale(e.unscaled, e.scale, t) == if op.ADD? then x + y else x - y
  {
    SumAtScale(Unscaled(a), Scale(a), Unscaled(b), Scale(b), Max(Scale(a), Scale(b)), t);
  }

  lemma AdditiveFits(op: ArithmeticOp, a: Value, b: Value, l: DataType, r: DataType)
    requires op.ADD? || op.SUB?
    requires l.DecimalType? && l.Valid() && r.DecimalType? && r.Valid() && Within(a, l) && Within(b, r)
    ensures Within(ExactDecimal(op, a, b), DecimalType(NeededDigits(l, r, op), NeededScale(l, r, op)))
  {
    var t, n := NeededScale(l, r, op), NeededDigits(l, r, op) - 1;
    TermFits(a, l, t, n);
    TermFits(b, r, t, n);
    SumFits(Rescale(Unscaled(a), Scale(a), t), Rescale(Unscaled(b), Scale(b), t), n);
    AdditiveShape(op, a, b, t);
  }

  lemma MultiplicativeFits(a: Value, b: Value, l: DataType, r: DataType)
    requires l.DecimalType? && l.Valid() && r.DecimalType? && r.Valid() && Within(a, l) && Within(b, r)
    ensures Within(ExactDecimal(MUL, a, b), DecimalType(NeededDigits(l, r, MUL), NeededScale(l, r, MUL)))
  {
    var x, y := Rescale(Unscaled(a), Scale(a), l.scale), Rescale(Unscaled(b), Scale(b), r.scale);
    ShiftMultiplies(Unscaled(a), Unscaled(b), l.scale - Scale(a), r.scale - Scale(b));
    ProductFits(x, y, l.precision, r.precision);
    FitsMore(x * y, l.precision + r.precision, NeededDigits(l, r, MUL));
  }

  /** What unification needs of an exact operation, in digits. */
  function NeededDigits(l: DataType, r: DataType, op: ArithmeticOp): nat
    requires l.DecimalType? && l.Valid() && r.DecimalType? && r.Valid()
  {
    if op.MUL? then l.precision + r.precision + 1
    else Max(Integral(l), Integral(r)) + 1 + Max(l.scale, r.scale)
  }

  function NeededScale(l: DataType, r: DataType, op: ArithmeticOp): nat
    requires l.DecimalType? && r.DecimalType?
  {
    if op.MUL? then l.scale + r.scale else Max(l.scale, r.scale)
  }

  predicate ExactType(t: DataType) {
    t.Valid() && (t.IntegerType? || t.DecimalType?)
  }

  /** Unification of exact operands, in digits: a decimal of the needed shape, or a refusal. */
  lemma UnifyInDigits(l: DataType, r: DataType, op: ArithmeticOp)
    requires ExactType(l) && ExactType(r) && (l.DecimalType? || r.DecimalType?) && !op.DIV?
    ensures var needed := NeededDigits(AsDecimal(l), AsDecimal(r), op);
            Unify(l, r, Some(op)).Failure? <==> needed > PORTABLE_DECIMAL_PRECISION
    ensures Unify(l, r, Some(op)).Success? ==>
              Unify(l, r, Some(op)).value
              == DecimalType(NeededDigits(AsDecimal(l), AsDecimal(r), op), NeededScale(AsDecimal(l), AsDecimal(r), op))
  {
  }

  lemma DecimalResultTypes(l: DataType, r: DataType, op: ArithmeticOp)
    requires l.Valid() && r.Valid() && l.Numeric() && r.Numeric() && !op.DIV?
    requires Unify(l, r, Some(op)).Success? && Unify(l, r, Some(op)).value.DecimalType?
    ensures ExactType(l) && ExactType(r) && (l.DecimalType? || r.DecimalType?)
  {
  }

  lemma ExactOperation(op: ArithmeticOp, a: Value, b: Value)
    requires (a.Int? || a.Decimal?) && (b.Int? || b.Decimal?) && (a.Decimal? || b.Decimal?) && !op.DIV?
    ensures Calculate(op, a, b) == ExactDecimal(op, a, b)
  {
  }

  /**
   Decimal capacity: when unification for +, - or * gives decimal(p, s), the exact result of any
   two values of the operand types has scale s and at most p digits, and p is at most 38.
   */
  lemma DecimalResultsFit(op: ArithmeticOp, a: Value, b: Value, l: DataType, r: DataType)
    requires l.Valid() && r.Valid() && l.Numeric() && r.Numeric() && !op.DIV?
    requires Conforms(a, l) && Conforms(b, r)
    requires Unify(l, r, Some(op)).Success? && Unify(l, r, Some(op)).value.DecimalType?
    ensures Unify(l, r, Some(op)).value.precision <= PORTABLE_DECIMAL_PRECISION
    ensures Unify(l, r, Some(op)).value.Valid()
    ensures Conforms(Calculate(op, a, b), Unify(l, r, Some(op)).value)
    ensures Calculate(op, a, b).Null? <==> a.Null? || b.Null?
  {
    DecimalResultTypes(l, r, op);
    UnifyInDigits(l, r, op);
    UnifyIsValid(l, r, Some(op));
    if !a.Null? && !b.Null? {
      ExactDigits(a, l);
      ExactDigits(b, r);
      ExactOperation(op, a, b);
      var ld, rd := AsDecimal(l), AsDecimal(r);
      if op.MUL? {
        MultiplicativeFits(a, b, ld, rd);
      } else {
        AdditiveFits(op, a, b, ld, rd);
      }
    }
  }

  // ---- the semilattice of descriptive unification ------------------------------------------------------

  /** A decimal of at most 76 digits that keeps every integral digit and as much scale as fits. */
  function Capped(integral: nat, scale: nat): DataType
    requires integral <= DESCRIPTIVE_DECIMAL_PRECISION
  {
    DecimalType(Min(integral + scale, DESCRIPTIVE_DECIMAL_PRECISION), Min(scale, DESCRIPTIVE_DECIMAL_PRECISION - integral))
  }

  /** The least upper bound of two numeric types, in closed form. */
  function Join(l: Numeric, r: Numeric): (t: Numeric) {
    if l.FloatType? || r.FloatType? then FloatType(if l == r == FloatType(32) then 32 else 64)
    else if l.IntegerType? && r.IntegerType? then IntegerType(Max(l.bits, r.bits))
    else
      var a, b := AsDecimal(l), AsDecimal(r);
      Capped(Max(Integral(a), Integral(b)), Max(a.scale, b.scale))
  }

  lemma UnifyExactIsCapped(l: DataType, r: DataType)
    requires l.DecimalType? && l.Valid() && r.DecimalType? && r.Valid()
    ensures UnifyExact(l, r, None) == Success(Capped(Max(Integral(l), Integral(r)), Max(l.scale, r.scale)))
  {
    BoundedIsCapped(Max(Integral(l), Integral(r)), Max(l.scale, r.scale));
    hide BoundedDecimal, Capped;
  }

  lemma BoundedIsCapped(integral: nat, scale: nat)
    requires 0 < integral + scale && integral <= DESCRIPTIVE_DECIMAL_PRECISION
    ensures BoundedDecimal(integral, scale, DESCRIPTIVE_DECIMAL_PRECISION) == Success(Capped(integral, scale))
  {
  }

  /** On numeric types descriptive unification never fails and is the join. */
  lemma UnifyIsJoin(l: Numeric, r: Numeric)
    ensures Unify(l, r, None) == Success(Join(l, r))
  {
    if !l.FloatType? && !r.FloatType? {
      UnifyExactIsCapped(AsDecimal(l), AsDecimal(r));
    }
  }

  lemma JoinCommutes(l: Numeric, r: Numeric)
    ensures Join(l, r) == Join(r, l)
  {
  }

  lemma JoinIdempotent(t: Numeric)
    ensures Join(t, t) == t
  {
  }

  /** The smaller of what is asked for and what the cap leaves beside the integral digits. */
  function Kept(integral: nat, scale: nat): int {
    Min(scale, DESCRIPTIVE_DECIMAL_PRECISION - integral)
  }

  /** Capping early is absorbed by capping later, when the later type has no fewer integral digits. */
  lemma CapAbsorbed(i: nat, s: nat, j: nat, r: nat)
    requires i <= j <= DESCRIPTIVE_DECIMAL_PRECISION
    ensures 0 <= Kept(i, s) && Kept(j, Max(Kept(i, s), r)) == Kept(j, Max(s, r))
  {
  }

  lemma MaxAssociates(x: int, y: int, z: int)
    ensures Max(Max(x, y), z) == Max(x, Max(y, z)) == Max(Max(y, z), x)
  {
  }

  lemma KeptAssociates(i: nat, s: nat, j: nat, t: nat, k: nat, u: nat)
    requires Max(Max(i, j), k) <= DESCRIPTIVE_DECIMAL_PRECISION
    ensures Max(i, j) <= Max(Max(i, j), k) && Max(j, k) <= Max(i, Max(j, k)) == Max(Max(i, j), k)
    ensures 0 <= Kept(Max(i, j), Max(s, t)) && 0 <= Kept(Max(j, k), Max(t, u))
    ensures Kept(Max(Max(i, j), k), Max(Kept(Max(i, j), Max(s, t)), u))
            == Kept(Max(Max(i, j), k), Max(Max(s, t), u))
            == Kept(Max(i, Max(j, k)), Max(s, Kept(Max(j, k), Max(t, u))))
  {
    var all := Max(Max(i, j), k);
    MaxAssociates(i, j, k);
    MaxAssociates(s, t, u);
    CapAbsorbed(Max(i, j), Max(s, t), all, u);
    CapAbsorbed(Max(j, k), Max(t, u), all, s);
    MaxAssociates(Kept(Max(j, k), Max(t, u)), s, s);
  }

  lemma CappedIs(integral: nat, scale: nat)
    requires integral <= DESCRIPTIVE_DECIMAL_PRECISION
    ensures Capped(integral, scale) == DecimalType(integral + Kept(integral, scale), Kept(integral, scale))
    ensures Integral(Capped(integral, scale)) == integral
  {
  }

  /** The join of two decimals, in digits. */
  lemma JoinOfDecimals(l: Numeric, r: Numeric)
    requires l.DecimalType? && r.DecimalType?
    ensures var i := Max(Integral(l), Integral(r));
            var s := Kept(i, Max(l.scale, r.scale));
            0 <= s && Join(l, r) == DecimalType(i + s, s)
  {
    CappedIs(Max(Integral(l), Integral(r)), Max(l.scale, r.scale));
  }

  lemma DecimalsAssociate(a: Numeric, b: Numeric, c: Numeric)
    requires a.DecimalType? && b.DecimalType? && c.DecimalType?
    ensures Join(Join(a, b), c) == Join(a, Join(b, c))
  {
    JoinOfDecimals(a, b);
    JoinOfDecimals(b, c);
    JoinOfDecimals(Join(a, b), c);
    JoinOfDecimals(a, Join(b, c));
    KeptAssociates(Integral(a), a.scale, Integral(b), b.scale, Integral(c), c.scale);
  }

  /** Two exact types join to an integer, or as the decimals they stand for. */
  lemma JoinOfExacts(l: Numeric, r: Numeric)
    requires !l.FloatType? && !r.FloatType?
    ensures !Join(l, r).FloatType? && (Join(l, r).IntegerType? <==> l.IntegerType? && r.IntegerType?)
    ensures AsDecimal(Join(l, r)) == Join(AsDecimal(l), AsDecimal(r))
  {
  }

  lemma SameDecimals(l: Numeric, r: Numeric)
    requires l.DecimalType? && r.DecimalType? && AsDecimal(l) == AsDecimal(r)
    ensures l == r
  {
  }

  lemma ExactsNestLeft(a: Numeric, b: Numeric, c: Numeric)
    requires !a.FloatType? && !b.FloatType? && !c.FloatType?
    ensures var t := Join(Join(a, b), c);
            && !t.FloatType? && (t.IntegerType? <==> a.IntegerType? && b.IntegerType? && c.IntegerType?)
            && AsDecimal(t) == Join(Join(AsDecimal(a), AsDecimal(b)), AsDecimal(c))
  {
    JoinOfExacts(a, b);
    JoinOfExacts(Join(a, b), c);
  }

  lemma ExactsNestRight(a: Numeric, b: Numeric, c: Numeric)
    requires !a.FloatType? && !b.FloatType? && !c.FloatType?
    ensures var t := Join(a, Join(b, c));
            && !t.FloatType? && (t.IntegerType? <==> a.IntegerType? && b.IntegerType? && c.IntegerType?)
            && AsDecimal(t) == Join(AsDecimal(a), Join(AsDecimal(b), AsDecimal(c)))
  {
    JoinOfExacts(b, c);
    JoinOfExacts(a, Join(b, c));
  }

  lemma IntegersAssociate(a: Numeric, b: Numeric, c: Numeric)
    requires a.IntegerType? && b.IntegerType? && c.IntegerType?
    ensures Join(Join(a, b), c) == Join(a, Join(b, c))
  {
    MaxAssociates(a.bits, b.bits, c.bits);
  }

  lemma ExactsAssociate(a: Numeric, b: Numeric, c: Numeric)
    requires !a.FloatType? && !b.FloatType? && !c.FloatType?
    ensures Join(Join(a, b), c) == Join(a, Join(b, c))
  {
    hide Join;
    if a.IntegerType? && b.IntegerType? && c.IntegerType? {
      IntegersAssociate(a, b, c);
    } else {
      ExactsNestLeft(a, b, c);
      ExactsNestRight(a, b, c);
      DecimalsAssociate(AsDecimal(a), AsDecimal(b), AsDecimal(c));
      SameDecimals(Join(Join(a, b), c), Join(a, Join(b, c)));
    }
  }

  /** Associative even where the 76-digit cap trims scale. */
  lemma JoinAssociates(a: Numeric, b: Numeric, c: Numeric)
    ensures Join(Join(a, b), c) == Join(a, Join(b, c))
  {
    if !a.FloatType? && !b.FloatType? && !c.FloatType? {
      ExactsAssociate(a, b, c);
    }
  }

  /** The common type without an operation: it never fails. */
  function Common(a: DataType, b: DataType): (t: DataType)
    requires a.Valid() && b.Valid()
    ensures t.Valid()
  {
    UnifyNeverFails(a, b);
    Unify(a, b, None).value
  }

  lemma UnifyNeverFails(a: DataType, b: DataType)
    requires a.Valid() && b.Valid()
    ensures Unify(a, b, None).Success? && Unify(a, b, None).value.Valid()
  {
    if a.Numeric() && b.Numeric() {
      UnifyIsJoin(a, b);
    }
  }

  /** Two types that say something, and nothing in common. */
  predicate Clash(a: DataType, b: DataType) {
    !a.Open() && !b.Open() && a != b && !(a.Numeric() && b.Numeric())
  }

  lemma CommonIs(a: DataType, b: DataType)
    requires a.Valid() && b.Valid()
    ensures Common(a, b).Valid() && Common(a, b) == Common(b, a)
    ensures Clash(a, b) ==> Common(a, b) == UnknownType
    ensures a.Open() ==> Common(a, b) == if a.UnknownType? && b.NullType? then a else b
    ensures a == b ==> Common(a, b) == a
    ensures a.Numeric() && b.Numeric() ==> Common(a, b) == Join(a, b)
  {
    UnifyNeverFails(a, b);
    UnifyCommutes(a, b, None);
    if a.Numeric() && b.Numeric() {
      UnifyIsJoin(a, b);
      if a == b {
        JoinIdempotent(a);
      }
    }
    hide Join, UnifyNumeric;
  }

  /** Both sides of the associative law. */
  predicate GroupsAlike(a: DataType, b: DataType, c: DataType)
    requires a.Valid() && b.Valid() && c.Valid()
  {
    Common(Common(a, b), c) == Common(a, Common(b, c))
  }

  lemma OpenGroupsAlike(a: DataType, b: DataType, c: DataType)
    requires a.Valid() && b.Valid() && c.Valid() && (a.Open() || b.Open() || c.Open())
    ensures GroupsAlike(a, b, c)
  {
    CommonIs(a, b);
    CommonIs(b, c);
    CommonIs(a, c);
    CommonIs(Common(a, b), c);
    CommonIs(a, Common(b, c));
    hide Join, Common, Unify;
  }

  lemma NoClashGroupsAlike(a: DataType, b: DataType, c: DataType)
    requires a.Valid() && b.Valid() && c.Valid() && !a.Open() && !b.Open() && !c.Open()
    requires !Clash(a, b) && !Clash(b, c)
    ensures GroupsAlike(a, b, c)
  {
    CommonIs(a, b);
    CommonIs(b, c);
    if b.Numeric() {
      JoinAssociates(a, b, c);
      CommonIs(Join(a, b), c);
      CommonIs(a, Join(b, c));
    }
    hide Join, Common, Unify;
  }

  lemma ClashKeepsTheThird(a: DataType, b: DataType, c: DataType)
    requires a.Valid() && b.Valid() && c.Valid() && !a.Open() && !b.Open() && !c.Open()
    requires Clash(a, b)
    ensures Common(Common(a, b), c) == c
    ensures Common(a, Common(b, c)) == if Clash(b, c) then a else UnknownType
  {
    CommonIs(a, b);
    CommonIs(b, c);
    CommonIs(UnknownType, c);
    CommonIs(UnknownType, a);
    CommonIs(a, Common(b, c));
    hide Join, Common, Unify;
  }

  /**
   Over all valid types the grouping does not matter exactly when one of the types is open, the outer
   two are equal, or neither neighbouring pair clashes.
   */
  lemma CommonAssociatesIff(a: DataType, b: DataType, c: DataType)
    requires a.Valid() && b.Valid() && c.Valid()
    ensures GroupsAlike(a, b, c)
            <==> a.Open() || b.Open() || c.Open() || a == c || (!Clash(a, b) && !Clash(b, c))
  {
    CommonIs(a, b);
    CommonIs(b, c);
    hide Join, Common, Unify;
    if a.Open() || b.Open() || c.Open() {
      OpenGroupsAlike(a, b, c);
    } else if a == c {
      CommonIs(a, Common(a, b));
    } else if Clash(a, b) {
      ClashKeepsTheThird(a, b, c);
    } else if Clash(b, c) {
      ClashKeepsTheThird(c, b, a);
      CommonIs(Common(a, b), c);
      CommonIs(a, Common(b, c));
    } else {
      NoClashGroupsAlike(a, b, c);
    }
  }

  /** Where a mismatch collapses to unknown, the third type is what remains. */
  lemma UnifyDoesNotAssociateOverAllTypes()
    ensures Unify(Unify(StringType, BooleanType, None).value, DateType, None) == Success(DateType)
    ensures Unify(StringType, Unify(BooleanType, DateType, None).value, None) == Success(StringType)
  {
  }

  function JoinAll(start: Numeric, ts: seq<Numeric>): Numeric
    decreases |ts|
  {
    if ts == [] then start else JoinAll(Join(start, ts[0]), ts[1..])
  }

  lemma {:induction false} JoinAllAbsorbs(start: Numeric, ts: seq<Numeric>, t: Numeric)
    ensures JoinAll(Join(start, t), ts) == Join(JoinAll(start, ts), t)
    decreases |ts|
  {
    if ts != [] {
      JoinAssociates(start, t, ts[0]);
      JoinAssociates(start, ts[0], t);
      JoinCommutes(t, ts[0]);
      JoinAllAbsorbs(Join(start, ts[0]), ts[1..], t);
    }
  }

  lemma {:induction false} JoinAllMoves(start: Numeric, before: seq<Numeric>, t: Numeric, after: seq<Numeric>)
    ensures JoinAll(start, before + [t] + after) == Join(JoinAll(start, before + after), t)
    decreases |before|
  {
    if before == [] {
      assert before + [t] + after == [t] + after && before + after == after;
      JoinAllAbsorbs(start, after, t);
    } else {
      assert (before + [t] + after)[1..] == before[1..] + [t] + after;
      assert (before + after)[1..] == before[1..] + after;
      JoinAllMoves(Join(start, before[0]), before[1..], t, after);
    }
  }

  lemma RemoveOccurrence(xs: seq<Numeric>, k: nat)
    requires k < |xs|
    ensures xs == xs[..k] + [xs[k]] + xs[k + 1..]
    ensures multiset(xs[..k] + xs[k + 1..]) == multiset(xs) - multiset{xs[k]}
  {
    assert xs == xs[..k] + [xs[k]] + xs[k + 1..];
    assert multiset(xs) == multiset(xs[..k]) + multiset{xs[k]} + multiset(xs[k + 1..]);
  }

  /**
   Folding the join over an unordered collection of numeric kinds has one answer: any two orders
   of the same multiset give the same type.
   */
  lemma {:induction false} JoinAllOrderFree(start: Numeric, xs: seq<Numeric>, ys: seq<Numeric>)
    requires multiset(xs) == multiset(ys)
    ensures JoinAll(start, xs) == JoinAll(start, ys)
    decreases |xs|
  {
    if xs == [] {
      assert |multiset(ys)| == 0;
    } else {
      var t := xs[0];
      assert t in multiset(ys);
      var k :| 0 <= k < |ys| && ys[k] == t;
      RemoveOccurrence(xs, 0);
      RemoveOccurrence(ys, k);
      assert xs[..0] + xs[1..] == xs[1..];
      JoinAllOrderFree(start, xs[1..], ys[..k] + ys[k + 1..]);
      JoinAllMoves(start, ys[..k], t, ys[k + 1..]);
      JoinAllAbsorbs(start, xs[1..], t);
    }
  }

  // ---- what descriptive unification can represent ------------------------------------------------------

  /** Whether the exact number `unscaled / 10^scale` is a value of the type. */
  ghost predicate Representable(unscaled: int, scale: nat, t: DataType)
    requires t.DecimalType? && t.Valid()
  {
    if scale <= t.scale then FitsDigits(Rescale(unscaled, scale, t.scale), t.precision)
    else exists u :: FitsDigits(u, t.precision) && unscaled == Rescale(u, t.scale, scale)
  }

  /** Every value of `l` is a value of `t`. */
  ghost predicate Widens(l: DataType, t: DataType)
    requires l.DecimalType? && l.Valid() && t.DecimalType? && t.Valid()
  {
    forall u :: FitsDigits(u, l.precision) ==> Representable(u, l.scale, t)
  }

  /**
   The common decimal type represents both inputs exactly when their integral digits and their
   larger scale fit in 76 digits together; otherwise the cap drops a fractional digit that the
   finer input has.
   */
  lemma JoinWidensIffItFits(l: DataType, r: DataType)
    requires l.DecimalType? && l.Valid() && r.DecimalType? && r.Valid()
    ensures Widens(l, Join(l, r)) && Widens(r, Join(l, r)) <==>
              Max(Integral(l), Integral(r)) + Max(l.scale, r.scale) <= DESCRIPTIVE_DECIMAL_PRECISION
  {
    var t := Join(l, r);
    hide Pow10;
    var fine := if l.scale >= r.scale then l else r;
    if Max(Integral(l), Integral(r)) + Max(l.scale, r.scale) <= DESCRIPTIVE_DECIMAL_PRECISION {
      WidensWhenRoomy(l, t);
      WidensWhenRoomy(r, t);
    } else {
      assert t.scale < fine.scale;
      Pow10Monotone(1, fine.precision);
      assert Pow10(1) == 10;
      assert FitsDigits(1, fine.precision);
      assert !Representable(1, fine.scale, t) by {
        assert forall u :: Rescale(u, t.scale, fine.scale) == 10 * Shift(u, fine.scale - t.scale - 1);
      }
      assert !Widens(fine, t);
    }
  }

  /** A whole-number and a fractional type of 76 digits each: the common type loses every fraction. */
  lemma JoinCanLoseFractions()
    ensures Join(DecimalType(76, 0), DecimalType(76, 76)) == DecimalType(76, 0)
    ensures FitsDigits(1, 76) && !Representable(1, 76, DecimalType(76, 0))
    ensures !Widens(DecimalType(76, 76), DecimalType(76, 0))
  {
    Pow10Monotone(1, 76);
    assert Pow10(1) == 10;
    assert forall u :: Rescale(u, 0, 76) == 10 * Shift(u, 75);
    hide Pow10;
  }

  lemma WidensWhenRoomy(l: DataType, t: DataType)
    requires l.DecimalType? && l.Valid() && t.DecimalType? && t.Valid()
    requires l.scale <= t.scale && Integral(l) <= Integral(t)
    ensures Widens(l, t)
  {
    forall u | FitsDigits(u, l.precision)
      ensures Representable(u, l.scale, t)
    {
      ShiftFits(u, l.precision, t.scale - l.scale);
      FitsMore(Rescale(u, l.scale, t.scale), l.precision + (t.scale - l.scale), t.precision);
    }
  }
}
