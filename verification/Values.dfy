/**
 The values a row can hold, their order, and SQL's three-valued logic over them. Numbers of all three
 kinds compare by their exact value. A float is an exact real here, so it is never NaN and never
 rounds. Dates, timestamps and binary strings keep only their kind and their place in the order of
 that kind, which is all that comparing them needs.
 */
module Values {

  datatype OpaqueKind = Binary | Date | Timestamp

  /** `Fault` is the outcome of applying an operator outside its domain: evaluation is stuck. */
  datatype Value =
    | Null
    | Bool(b: bool)
    | Int(i: int)
    | Decimal(unscaled: int, scale: nat)
    | Float(r: real)
    | Text(s: string)
    | Opaque(kind: OpaqueKind, key: int)
    | Fault
  {
    predicate Numeric() {
      Int? || Decimal? || Float?
    }

    /** A value a boolean operator accepts: TRUE, FALSE or UNKNOWN. */
    predicate Truth() {
      Bool? || Null?
    }

    predicate Present() {
      !Null? && !Fault?
    }
  }

  const TRUE := Bool(true)
  const FALSE := Bool(false)

  datatype Order = Less | Equal | Greater | Incomparable {
    function Flip(): Order {
      match this
      case Less => Greater
      case Greater => Less
      case o => o
    }
  }

  datatype ComparisonOp = EQ | NE | LT | LE | GT | GE {
    predicate Holds(o: Order)
      requires !o.Incomparable?
    {
      match this
      case EQ => o.Equal?
      case NE => !o.Equal?
      case LT => o.Less?
      case LE => !o.Greater?
      case GT => o.Greater?
      case GE => !o.Less?
    }
  }

  datatype ArithmeticOp = ADD | SUB | MUL | DIV

  // ---- numbers ---------------------------------------------------------------------------

  function Pow10(n: nat): (r: int)
    ensures r > 0
  {
    if n == 0 then 1 else 10 * Pow10(n - 1)
  }

  lemma {:induction false} Pow10Add(a: nat, b: nat)
    ensures Pow10(a + b) == Pow10(a) * Pow10(b)
  {
    if a > 0 {
      Pow10Add(a - 1, b);
      assert Pow10(a) * Pow10(b) == 10 * (Pow10(a - 1) * Pow10(b));
    }
  }

  lemma {:induction false} Pow10Monotone(a: nat, b: nat)
    requires a <= b
    ensures Pow10(a) <= Pow10(b)
  {
    if a < b {
      Pow10Monotone(a, b - 1);
    }
  }

  function Real(v: Value): real
    requires v.Numeric()
  {
    match v
    case Int(i) => i as real
    case Decimal(u, s) => u as real / Pow10(s) as real
    case Float(r) => r
  }

  // ---- order -----------------------------------------------------------------------------

  function OrderReals(a: real, b: real): Order {
    if a < b then Less else if a == b then Equal else Greater
  }

  function OrderInts(a: int, b: int): Order {
    if a < b then Less else if a == b then Equal else Greater
  }

  function OrderBools(a: bool, b: bool): Order {
    if a == b then Equal else if b then Less else Greater
  }

  /** Code-point order: byte-wise, case-sensitive. */
  function OrderTexts(a: string, b: string): Order {
    if a == [] then if b == [] then Equal else Less
    else if b == [] then Greater
    else if a[0] < b[0] then Less
    else if a[0] > b[0] then Greater
    else OrderTexts(a[1..], b[1..])
  }

  function Compare(a: Value, b: Value): Order {
    if a.Numeric() && b.Numeric() then OrderReals(Real(a), Real(b))
    else if a.Bool? && b.Bool? then OrderBools(a.b, b.b)
    else if a.Text? && b.Text? then OrderTexts(a.s, b.s)
    else if a.Opaque? && b.Opaque? && a.kind == b.kind then OrderInts(a.key, b.key)
    else Incomparable
  }

  lemma {:induction false} OrderTextsFlips(a: string, b: string)
    ensures OrderTexts(b, a) == OrderTexts(a, b).Flip()
    ensures !OrderTexts(a, b).Incomparable?
    ensures OrderTexts(a, b).Equal? <==> a == b
  {
    if a != [] && b != [] && a[0] == b[0] {
      OrderTextsFlips(a[1..], b[1..]);
      assert a == [a[0]] + a[1..] && b == [b[0]] + b[1..];
    }
  }

  /** Comparing the other way round flips the outcome, for values of any kinds. */
  lemma CompareFlips(a: Value, b: Value)
    ensures Compare(b, a) == Compare(a, b).Flip()
  {
    if a.Text? && b.Text? {
      OrderTextsFlips(a.s, b.s);
    }
  }

  // ---- three-valued logic ------------------------------------------------------------------

  function Relate(op: ComparisonOp, a: Value, b: Value): Value {
    if a.Fault? || b.Fault? then Fault
    else if a.Null? || b.Null? then Null
    else
      var o := Compare(a, b);
      if o.Incomparable? then Fault else Bool(op.Holds(o))
  }

  /** Python's comparison: unlike values are unequal, and cannot be ordered. */
  function PythonCompare(op: ComparisonOp, a: Value, b: Value): Value {
    if !Compare(a, b).Incomparable? then Bool(op.Holds(Compare(a, b)))
    else if op.EQ? then FALSE else if op.NE? then TRUE else Null
  }

  function Not3(a: Value): Value {
    if !a.Truth() then Fault else if a.Null? then Null else Bool(!a.b)
  }

  function And3(a: Value, b: Value): Value {
    if !a.Truth() || !b.Truth() then Fault
    else if a == FALSE || b == FALSE then FALSE
    else if a.Null? || b.Null? then Null
    else TRUE
  }

  function Or3(a: Value, b: Value): Value {
    if !a.Truth() || !b.Truth() then Fault
    else if a == TRUE || b == TRUE then TRUE
    else if a.Null? || b.Null? then Null
    else FALSE
  }

  function AllOf(vs: seq<Value>): Value {
    if vs == [] then TRUE else And3(vs[0], AllOf(vs[1..]))
  }

  function AnyOf(vs: seq<Value>): Value {
    if vs == [] then FALSE else Or3(vs[0], AnyOf(vs[1..]))
  }

  /** `v IN (vs)` is `v = vs[0] OR v = vs[1] OR ...` (ISO/IEC 9075-2, section 8.4). */
  function Member3(v: Value, vs: seq<Value>): Value {
    if vs == [] then FALSE else Or3(Relate(EQ, v, vs[0]), Member3(v, vs[1..]))
  }

  // ---- arithmetic --------------------------------------------------------------------------

  predicate FitsInt64(i: int) {
    -0x8000_0000_0000_0000 <= i < 0x8000_0000_0000_0000
  }

  function Unscaled(v: Value): int
    requires v.Int? || v.Decimal?
  {
    if v.Int? then v.i else v.unscaled
  }

  function Scale(v: Value): nat
    requires v.Int? || v.Decimal?
  {
    if v.Int? then 0 else v.scale
  }

  function Max(a: int, b: int): int {
    if a < b then b else a
  }

  function Min(a: int, b: int): int {
    if a < b then a else b
  }

  /** The digits followed by `k` zeros. */
  function Shift(digits: int, k: nat): int {
    if k == 0 then digits else 10 * Shift(digits, k - 1)
  }

  /** The unscaled digits of the same number written at a larger scale. */
  function Rescale(unscaled: int, from: nat, to: nat): int
    requires from <= to
  {
    Shift(unscaled, to - from)
  }

  lemma {:induction false} ShiftTwice(digits: int, j: nat, k: nat)
    ensures Shift(Shift(digits, j), k) == Shift(digits, j + k)
  {
    if k > 0 {
      ShiftTwice(digits, j, k - 1);
    }
  }

  lemma {:induction false} ShiftAdds(a: int, b: int, k: nat)
    ensures Shift(a + b, k) == Shift(a, k) + Shift(b, k)
    ensures Shift(a - b, k) == Shift(a, k) - Shift(b, k)
  {
    if k > 0 {
      ShiftAdds(a, b, k - 1);
    }
  }

  lemma TenTimes(x: int, y: int)
    ensures 10 * (x * y) == (10 * x) * y == x * (10 * y)
  {
  }

  lemma {:induction false} ShiftMultiplies(a: int, b: int, j: nat, k: nat)
    ensures Shift(a * b, j + k) == Shift(a, j) * Shift(b, k)
    decreases j + k
  {
    if j > 0 {
      ShiftMultiplies(a, b, j - 1, k);
      TenTimes(Shift(a, j - 1), Shift(b, k));
    } else if k > 0 {
      ShiftMultiplies(a, b, j, k - 1);
      TenTimes(a, Shift(b, k - 1));
    }
  }

  function ExactDecimal(op: ArithmeticOp, a: Value, b: Value): Value
    requires a.Int? || a.Decimal?
    requires b.Int? || b.Decimal?
    requires !op.DIV?
  {
    if op.MUL? then
      Decimal(Unscaled(a) * Unscaled(b), Scale(a) + Scale(b))
    else
      var s := Max(Scale(a), Scale(b));
      var l, r := Rescale(Unscaled(a), Scale(a), s), Rescale(Unscaled(b), Scale(b), s);
      Decimal(if op.ADD? then l + r else l - r, s)
  }

  function CombineInts(op: ArithmeticOp, a: int, b: int): int
    requires !op.DIV?
  {
    match op
    case ADD => a + b
    case SUB => a - b
    case MUL => a * b
  }

  function CombineReals(op: ArithmeticOp, a: real, b: real): real
    requires !op.DIV?
  {
    match op
    case ADD => a + b
    case SUB => a - b
    case MUL => a * b
  }

  /** Division is floating point with NULL on zero; int64 overflow is NULL; decimals are exact. */
  function Calculate(op: ArithmeticOp, a: Value, b: Value): Value {
    if (!a.Null? && !a.Numeric()) || (!b.Null? && !b.Numeric()) then Fault
    else if a.Null? || b.Null? then Null
    else if op.DIV? then
      if Real(b) == 0.0 then Null else Float(Real(a) / Real(b))
    else if a.Float? || b.Float? then Float(CombineReals(op, Real(a), Real(b)))
    else if a.Int? && b.Int? then
      var i := CombineInts(op, a.i, b.i);
      if FitsInt64(i) then Int(i) else Null
    else ExactDecimal(op, a, b)
  }

  // ---- the same value in another form --------------------------------------------------------

  lemma {:induction false} ShiftScales(u: int, k: nat)
    ensures Shift(u, k) == u * Pow10(k)
  {
    if k > 0 {
      ShiftScales(u, k - 1);
      TenTimes(u, Pow10(k - 1));
    }
  }

  lemma QuotientOfProducts(u: real, p: real, k: real)
    requires p > 0.0 && k > 0.0
    ensures (u * k) / (p * k) == u / p
  {
    var q := u / p;
    assert q * p == u;
    assert q * (p * k) == u * k;
  }

  /** The same number at a larger scale. */
  lemma RescaledIsSame(u: int, from: nat, to: nat)
    requires from <= to
    ensures Real(Decimal(Rescale(u, from, to), to)) == Real(Decimal(u, from))
  {
    var k := to - from;
    ShiftScales(u, k);
    Pow10Add(from, k);
    hide Shift, Pow10;
    var p, q := Pow10(from), Pow10(k);
    ProductsAsReals(u, q);
    ProductsAsReals(p, q);
    QuotientOfProducts(u as real, p as real, q as real);
    assert Pow10(to) == p * q;
  }

  lemma ProductsAsReals(a: int, b: int)
    ensures (a * b) as real == a as real * b as real
  {
  }

  predicate SameValue(a: Value, b: Value) {
    a == b || (a.Numeric() && b.Numeric() && Real(a) == Real(b))
  }

  lemma SameValueComparesSame(x: Value, a: Value, b: Value)
    requires SameValue(a, b)
    ensures Compare(x, a) == Compare(x, b)
  {
  }

  /** Operators cannot tell apart two forms of the same value. */
  lemma SameValuesRelateSame(op: ComparisonOp, a: Value, b: Value, x: Value, y: Value)
    requires SameValue(a, x) && SameValue(b, y)
    ensures Relate(op, a, b) == Relate(op, x, y)
  {
    SameValueComparesSame(a, b, y);
    CompareFlips(a, y);
    CompareFlips(x, y);
    SameValueComparesSame(y, a, x);
  }

  /** Membership of NULL in a non-empty list is UNKNOWN. */
  lemma {:induction false} MemberOfNull(vs: seq<Value>)
    requires vs != [] && !Member3(Null, vs).Fault?
    ensures Member3(Null, vs).Null?
  {
    if |vs| > 1 {
      MemberOfNull(vs[1..]);
    } else {
      assert vs[1..] == [];
    }
  }

  /** The comparison that holds with its operands the other way round. */
  function Mirror(op: ComparisonOp): ComparisonOp {
    match op
    case LT => GT
    case LE => GE
    case GT => LT
    case GE => LE
    case o => o
  }

  lemma MirroredRelates(op: ComparisonOp, a: Value, b: Value)
    ensures Relate(Mirror(op), b, a) == Relate(op, a, b)
  {
    CompareFlips(a, b);
  }

  /** Membership is TRUE where some member equals, FALSE where none does and none is NULL. */
  lemma {:induction false} MembershipTruth(x: Value, vs: seq<Value>)
    requires !Member3(x, vs).Fault?
    ensures Member3(x, vs) == TRUE <==> exists v :: v in vs && Relate(EQ, x, v) == TRUE
    ensures Member3(x, vs) == FALSE <==> forall v :: v in vs ==> Relate(EQ, x, v) == FALSE
    ensures forall v | v in vs :: Relate(EQ, x, v).Truth()
  {
    hide Relate;
    if vs != [] {
      MembershipTruth(x, vs[1..]);
      assert forall v :: v in vs <==> v == vs[0] || v in vs[1..];
    }
  }

  predicate Equals(x: Value, v: Value) {
    Compare(x, v).Equal?
  }

  lemma EqualRelates(x: Value, v: Value)
    ensures Relate(EQ, x, v) == TRUE <==> x.Present() && v.Present() && Equals(x, v)
    ensures Relate(EQ, x, v) == FALSE ==> x.Present() && v.Present() && !Equals(x, v)
    ensures Relate(EQ, x, v).Truth() && x.Present() && v.Present() ==> (Relate(EQ, x, v) == FALSE <==> !Equals(x, v))
  {
  }
}
