/**
 The JSON form of types, expressions and plans. Reading accepts only what the constructors accept,
 and reading what was written gives back the same value. The text of a decimal, date, timestamp or
 byte string is one atom here, as is the payload it stands for; member names and tags are an
 enumeration, with `Other` for any other string. A missing detail of a type reads as its default, as
 in the source, and a missing negation reads as none.
 */
module Serialization {
  import opened Wrappers
  import opened Values
  import opened Types
  import opened Expressions
  import opened Plans

  /** The member names and tag strings of the format; any other string is `Other`. */
  datatype Word =
    | KindWord | BitsWord | PrecisionWord | ScaleWord | TimezoneWord | ElementWord | FieldsWord | NameWord | TypeWord
    | NodeWord | OpWord | LeftWord | RightWord | OperandsWord | OperandWord | NegatedWord | ValuesWord | PatternWord
    | ExpressionWord | ValueWord | InputWord | PredicateWord | ExpressionsWord | CountWord | SourceWord | VersionWord | RootWord
    | DecimalWord | DatetimeWord | DateWord | BytesWord
    | TypeTag(kind: TypeKind) | ExprTag(node: Kind) | ComparisonTag(comparison: ComparisonOp) | ArithmeticTag(arithmetic: ArithmeticOp)
    | ScanTag | FilterTag | ProjectTag | LimitTag | VersionTag
    | Other(text: string)

  datatype TypeKind =
    | UnknownKind | NullKind | BooleanKind | IntegerKind | FloatKind | DecimalKind | StringKind | BinaryKind | DateKind
    | TimestampKind | ListKind | StructKind

  datatype Json =
    | JNull | JBool(b: bool) | JInt(i: int) | JReal(r: real) | JString(s: string) | JWord(word: Word)
    | JNumeral(unscaled: int, scale: nat) | JKey(key: int)
    | JArray(items: seq<Json>)
    | JObject(fields: map<Word, Json>)

  datatype Malformed = Malformed

  predicate Has(j: Json, key: Word) {
    j.JObject? && key in j.fields
  }

  predicate HasText(j: Json, key: Word) {
    Has(j, key) && j.fields[key].JString?
  }

  predicate HasWord(j: Json, key: Word) {
    Has(j, key) && j.fields[key].JWord?
  }

  predicate HasArray(j: Json, key: Word) {
    Has(j, key) && j.fields[key].JArray?
  }

  /** Python's truth value of a JSON value. */
  predicate Truthy(j: Json) {
    match j
    case JNull => false
    case JBool(b) => b
    case JInt(i) => i != 0
    case JReal(r) => r != 0.0
    case JString(s) => s != []
    case JArray(items) => items != []
    case JObject(fields) => fields != map[]
    case _ => true
  }

  predicate Negated(j: Json) {
    Has(j, NegatedWord) && Truthy(j.fields[NegatedWord])
  }

  // ---- types --------------------------------------------------------------------------------------------

  function TypeKindOf(t: DataType): TypeKind {
    match t
    case UnknownType => UnknownKind
    case NullType => NullKind
    case BooleanType => BooleanKind
    case IntegerType(_) => IntegerKind
    case FloatType(_) => FloatKind
    case DecimalType(_, _) => DecimalKind
    case StringType => StringKind
    case BinaryType => BinaryKind
    case DateType => DateKind
    case TimestampType(_) => TimestampKind
    case ListType(_) => ListKind
    case StructType(_) => StructKind
  }

  function TypeToJson(t: DataType): Json
    decreases t, 1
  {
    var kind := JWord(TypeTag(TypeKindOf(t)));
    match t
    case IntegerType(bits) => JObject(map[KindWord := kind, BitsWord := JInt(bits)])
    case FloatType(width) => JObject(map[KindWord := kind, BitsWord := JInt(width)])
    case DecimalType(p, s) => JObject(map[KindWord := kind, PrecisionWord := JInt(p), ScaleWord := JInt(s)])
    case TimestampType(zone) => JObject(map[KindWord := kind, TimezoneWord := if zone.Some? then JString(zone.value) else JNull])
    case ListType(e) => JObject(map[KindWord := kind, ElementWord := TypeToJson(e)])
    case StructType(_) => JObject(map[KindWord := kind, FieldsWord := JArray(FieldsToJson(t, 0))])
    case _ => JObject(map[KindWord := kind])
  }

  function FieldsToJson(t: DataType, i: nat): (items: seq<Json>)
    requires t.StructType? && i <= |t.fields|
    ensures |items| == |t.fields| - i
    decreases t, 0, |t.fields| - i
  {
    if i == |t.fields| then []
    else [JObject(map[NameWord := JString(t.fields[i].0), TypeWord := TypeToJson(t.fields[i].1)])] + FieldsToJson(t, i + 1)
  }

  function IntField(j: Json, key: Word, default: int): Option<int> {
    if !Has(j, key) then Some(default) else if j.fields[key].JInt? then Some(j.fields[key].i) else None
  }

  /** What a type's constructor checks. */
  function Accepted(t: DataType): Result<DataType, Malformed> {
    match t
    case IntegerType(bits) => if bits in {8, 16, 32, 64} then Success(t) else Failure(Malformed)
    case FloatType(width) => if width in {32, 64} then Success(t) else Failure(Malformed)
    case DecimalType(p, s) => if 1 <= p <= 76 && s <= p then Success(t) else Failure(Malformed)
    case _ => Success(t)
  }

  function SimpleType(kind: Word): Result<DataType, Malformed> {
    if kind == TypeTag(UnknownKind) then Success(UnknownType)
    else if kind == TypeTag(NullKind) then Success(NullType)
    else if kind == TypeTag(BooleanKind) then Success(BooleanType)
    else if kind == TypeTag(StringKind) then Success(StringType)
    else if kind == TypeTag(BinaryKind) then Success(BinaryType)
    else if kind == TypeTag(DateKind) then Success(DateType)
    else Failure(Malformed)
  }

  function Widths(j: Json): Result<nat, Malformed> {
    var bits := IntField(j, BitsWord, 64);
    if bits.Some? && bits.value >= 0 then Success(bits.value) else Failure(Malformed)
  }

  function DecimalShape(j: Json): Result<DataType, Malformed> {
    var p, s := IntField(j, PrecisionWord, 38), IntField(j, ScaleWord, 9);
    if p.Some? && s.Some? && p.value >= 0 && s.value >= 0 then Accepted(DecimalType(p.value, s.value)) else Failure(Malformed)
  }

  function Zone(j: Json): Result<DataType, Malformed> {
    if !Has(j, TimezoneWord) || j.fields[TimezoneWord].JNull? then Success(TimestampType(None))
    else if j.fields[TimezoneWord].JString? then Success(TimestampType(Some(j.fields[TimezoneWord].s)))
    else Failure(Malformed)
  }

  /** An absent kind reads as unknown; absent details read as their defaults. */
  function TypeFromJson(j: Json): (r: Result<DataType, Malformed>)
    decreases j, 1
  {
    if !j.JObject? || (Has(j, KindWord) && !HasWord(j, KindWord)) then Failure(Malformed)
    else
      var kind := if Has(j, KindWord) then j.fields[KindWord].word else TypeTag(UnknownKind);
      if kind == TypeTag(IntegerKind) then
        var bits :- Widths(j);
        Accepted(IntegerType(bits))
      else if kind == TypeTag(FloatKind) then
        var bits :- Widths(j);
        Accepted(FloatType(bits))
      else if kind == TypeTag(DecimalKind) then DecimalShape(j)
      else if kind == TypeTag(TimestampKind) then Zone(j)
      else if kind == TypeTag(ListKind) then
        if !Has(j, ElementWord) then Success(ListType(UnknownType))
        else
          var e :- TypeFromJson(j.fields[ElementWord]);
          Success(ListType(e))
      else if kind == TypeTag(StructKind) then
        if !Has(j, FieldsWord) then Success(StructType([]))
        else if !j.fields[FieldsWord].JArray? then Failure(Malformed)
        else
          var fields :- FieldsFromJson(j.fields[FieldsWord].items);
          Success(StructType(fields))
      else SimpleType(kind)
  }

  function FieldsFromJson(items: seq<Json>): Result<seq<(string, DataType)>, Malformed>
    decreases items, 0
  {
    if items == [] then Success([])
    else if !HasText(items[0], NameWord) || !Has(items[0], TypeWord) then Failure(Malformed)
    else
      var t :- TypeFromJson(items[0].fields[TypeWord]);
      var rest :- FieldsFromJson(items[1..]);
      Success([(items[0].fields[NameWord].s, t)] + rest)
  }

  /** Only valid types are read. */
  lemma {:induction false} ReadTypesAreValid(j: Json)
    requires TypeFromJson(j).Success?
    ensures TypeFromJson(j).value.Valid()
    decreases j, 1
  {
    var kind := if Has(j, KindWord) then j.fields[KindWord].word else TypeTag(UnknownKind);
    if kind == TypeTag(ListKind) && Has(j, ElementWord) {
      ReadTypesAreValid(j.fields[ElementWord]);
    } else if kind == TypeTag(StructKind) && Has(j, FieldsWord) {
      ReadFieldsAreValid(j.fields[FieldsWord].items);
    }
  }

  lemma {:induction false} ReadFieldsAreValid(items: seq<Json>)
    requires FieldsFromJson(items).Success?
    ensures forall f | f in FieldsFromJson(items).value :: f.1.Valid()
    decreases items, 0
  {
    if items != [] {
      ReadTypesAreValid(items[0].fields[TypeWord]);
      ReadFieldsAreValid(items[1..]);
    }
  }

  lemma PlainRoundTrip(t: DataType)
    requires t.Valid() && !t.ListType? && !t.StructType?
    ensures TypeFromJson(TypeToJson(t)) == Success(t)
  {
    var j := TypeToJson(t);
    assert HasWord(j, KindWord) && j.fields[KindWord].word == TypeTag(TypeKindOf(t));
    assert t.IntegerType? ==> Widths(j) == Success(t.bits);
    assert t.FloatType? ==> Widths(j) == Success(t.width);
    assert t.DecimalType? ==> DecimalShape(j) == Success(t);
    assert t.TimestampType? ==> Zone(j) == Success(t);
  }

  lemma ListRoundTrip(t: DataType)
    requires t.ListType? && TypeFromJson(TypeToJson(t.element)) == Success(t.element)
    ensures TypeFromJson(TypeToJson(t)) == Success(t)
  {
    var j := TypeToJson(t);
    assert HasWord(j, KindWord) && j.fields[KindWord].word == TypeTag(ListKind);
    assert Has(j, ElementWord) && j.fields[ElementWord] == TypeToJson(t.element);
  }

  lemma StructRoundTrip(t: DataType)
    requires t.StructType? && FieldsFromJson(FieldsToJson(t, 0)) == Success(t.fields)
    ensures TypeFromJson(TypeToJson(t)) == Success(t)
  {
    var j := TypeToJson(t);
    assert HasWord(j, KindWord) && j.fields[KindWord].word == TypeTag(StructKind);
    assert Has(j, FieldsWord) && j.fields[FieldsWord] == JArray(FieldsToJson(t, 0));
  }

  /** A valid type reads back as written. */
  lemma {:induction false} TypeRoundTrip(t: DataType)
    requires t.Valid()
    ensures TypeFromJson(TypeToJson(t)) == Success(t)
    decreases t, 1
  {
    hide TypeFromJson, TypeToJson;
    match t
    case ListType(e) =>
      TypeRoundTrip(e);
      ListRoundTrip(t);
    case StructType(fs) =>
      FieldsRoundTrip(t, 0);
      assert fs[0..] == fs;
      StructRoundTrip(t);
    case _ => PlainRoundTrip(t);
  }

  lemma {:induction false} FieldsRoundTrip(t: DataType, i: nat)
    requires t.StructType? && t.Valid() && i <= |t.fields|
    ensures FieldsFromJson(FieldsToJson(t, i)) == Success(t.fields[i..])
    decreases t, 0, |t.fields| - i
  {
    hide TypeFromJson, TypeToJson;
    if i < |t.fields| {
      var items, field := FieldsToJson(t, i), t.fields[i];
      assert field in t.fields;
      TypeRoundTrip(field.1);
      FieldsRoundTrip(t, i + 1);
      assert items[1..] == FieldsToJson(t, i + 1);
      assert HasText(items[0], NameWord) && items[0].fields[NameWord].s == field.0;
      assert Has(items[0], TypeWord) && items[0].fields[TypeWord] == TypeToJson(field.1);
      assert t.fields[i..] == [field] + t.fields[i + 1..];
    }
  }

  // ---- expressions ----------------------------------------------------------------------------------------

  function EncodeValue(v: Value): Json {
    match v
    case Null => JNull
    case Bool(b) => JBool(b)
    case Int(i) => JInt(i)
    case Float(r) => JReal(r)
    case Text(s) => JString(s)
    case Decimal(u, s) => JObject(map[DecimalWord := JNumeral(u, s)])
    case Opaque(Timestamp, k) => JObject(map[DatetimeWord := JKey(k)])
    case Opaque(Date, k) => JObject(map[DateWord := JKey(k)])
    case Opaque(Binary, k) => JObject(map[BytesWord := JKey(k)])
    case Fault => JArray([])
  }

  function DecodeValue(j: Json): Result<Value, Malformed> {
    match j
    case JNull => Success(Null)
    case JBool(b) => Success(Bool(b))
    case JInt(i) => Success(Int(i))
    case JReal(r) => Success(Float(r))
    case JString(s) => Success(Text(s))
    case JObject(fields) =>
      if DecimalWord in fields then
        if fields[DecimalWord].JNumeral? then Success(Decimal(fields[DecimalWord].unscaled, fields[DecimalWord].scale))
        else Failure(Malformed)
      else if DatetimeWord in fields then Payload(Timestamp, fields[DatetimeWord])
      else if DateWord in fields then Payload(Date, fields[DateWord])
      else if BytesWord in fields then Payload(Binary, fields[BytesWord])
      else Failure(Malformed)
    case _ => Failure(Malformed)
  }

  function Payload(kind: OpaqueKind, j: Json): Result<Value, Malformed> {
    if j.JKey? then Success(Opaque(kind, j.key)) else Failure(Malformed)
  }

  function ExprToJson(e: Expr): Json
    decreases e, 1
  {
    var node := JWord(ExprTag(KindOf(e)));
    match e
    case Column(n) => JObject(map[NodeWord := node, NameWord := JString(n)])
    case Literal(l) => JObject(map[NodeWord := node, ValueWord := EncodeValue(l.value), TypeWord := TypeToJson(l.dataType)])
    case Parameter(n) => JObject(map[NodeWord := node, NameWord := JString(n)])
    case Comparison(op, l, r) =>
      JObject(map[NodeWord := node, OpWord := JWord(ComparisonTag(op)), LeftWord := ExprToJson(l), RightWord := ExprToJson(r)])
    case And(os) => JObject(map[NodeWord := node, OperandsWord := JArray(ExprsToJson(os))])
    case Or(os) => JObject(map[NodeWord := node, OperandsWord := JArray(ExprsToJson(os))])
    case Not(o) => JObject(map[NodeWord := node, OperandWord := ExprToJson(o)])
    case IsNull(o, negated) => JObject(map[NodeWord := node, OperandWord := ExprToJson(o), NegatedWord := JBool(negated)])
    case In(o, vs, negated) =>
      JObject(map[NodeWord := node, OperandWord := ExprToJson(o), ValuesWord := JArray(ExprsToJson(vs)), NegatedWord := JBool(negated)])
    case Like(o, p, negated) =>
      JObject(map[NodeWord := node, OperandWord := ExprToJson(o), PatternWord := ExprToJson(p), NegatedWord := JBool(negated)])
    case Arithmetic(op, l, r) =>
      JObject(map[NodeWord := node, OpWord := JWord(ArithmeticTag(op)), LeftWord := ExprToJson(l), RightWord := ExprToJson(r)])
    case Alias(i, n) => JObject(map[NodeWord := node, ExpressionWord := ExprToJson(i), NameWord := JString(n)])
  }

  function ExprsToJson(es: seq<Expr>): seq<Json>
    decreases es, 0
  {
    if es == [] then [] else [ExprToJson(es[0])] + ExprsToJson(es[1..])
  }

  /** What a node's own constructor checks. */
  function Built(e: Expr): Result<Expr, Malformed> {
    var accepts := match e
      case Column(n) => n != []
      case Literal(l) => l.dataType.Valid() && l.Valid()
      case And(os) => |os| >= 2
      case Or(os) => |os| >= 2
      case In(_, vs, _) => vs != [] && forall v | v in vs :: Constant(v)
      case Like(_, p, _) => Constant(p)
      case Alias(i, n) => n != [] && !i.Alias?
      case _ => true;
    if accepts then Success(e) else Failure(Malformed)
  }

  function ExprFromJson(j: Json): Result<Expr, Malformed>
    decreases j, 1
  {
    if !HasWord(j, NodeWord) || !j.fields[NodeWord].word.ExprTag? then Failure(Malformed)
    else match j.fields[NodeWord].word.node
      case ColumnKind => if HasText(j, NameWord) then Built(Column(j.fields[NameWord].s)) else Failure(Malformed)
      case ParameterKind => if HasText(j, NameWord) then Built(Parameter(j.fields[NameWord].s)) else Failure(Malformed)
      case LiteralKind =>
        if !Has(j, ValueWord) || !Has(j, TypeWord) then Failure(Malformed)
        else
          var v :- DecodeValue(j.fields[ValueWord]);
          var t :- TypeFromJson(j.fields[TypeWord]);
          Built(Literal(Lit(v, t)))
      case ComparisonKind =>
        if !HasWord(j, OpWord) || !j.fields[OpWord].word.ComparisonTag? || !Has(j, LeftWord) || !Has(j, RightWord) then Failure(Malformed)
        else
          var l :- ExprFromJson(j.fields[LeftWord]);
          var r :- ExprFromJson(j.fields[RightWord]);
          Built(Comparison(j.fields[OpWord].word.comparison, l, r))
      case ArithmeticKind =>
        if !HasWord(j, OpWord) || !j.fields[OpWord].word.ArithmeticTag? || !Has(j, LeftWord) || !Has(j, RightWord) then Failure(Malformed)
        else
          var l :- ExprFromJson(j.fields[LeftWord]);
          var r :- ExprFromJson(j.fields[RightWord]);
          Built(Arithmetic(j.fields[OpWord].word.arithmetic, l, r))
      case AndKind =>
        if !HasArray(j, OperandsWord) then Failure(Malformed)
        else
          var os :- ExprsFromJson(j.fields[OperandsWord].items);
          Built(And(os))
      case OrKind =>
        if !HasArray(j, OperandsWord) then Failure(Malformed)
        else
          var os :- ExprsFromJson(j.fields[OperandsWord].items);
          Built(Or(os))
      case NotKind =>
        if !Has(j, OperandWord) then Failure(Malformed)
        else
          var o :- ExprFromJson(j.fields[OperandWord]);
          Built(Not(o))
      case IsNullKind =>
        if !Has(j, OperandWord) then Failure(Malformed)
        else
          var o :- ExprFromJson(j.fields[OperandWord]);
          Built(IsNull(o, Negated(j)))
      case InKind =>
        if !Has(j, OperandWord) || !HasArray(j, ValuesWord) then Failure(Malformed)
        else
          var o :- ExprFromJson(j.fields[OperandWord]);
          var vs :- ExprsFromJson(j.fields[ValuesWord].items);
          Built(In(o, vs, Negated(j)))
      case LikeKind =>
        if !Has(j, OperandWord) || !Has(j, PatternWord) then Failure(Malformed)
        else
          var o :- ExprFromJson(j.fields[OperandWord]);
          var p :- ExprFromJson(j.fields[PatternWord]);
          Built(Like(o, p, Negated(j)))
      case AliasKind =>
        if !Has(j, ExpressionWord) || !HasText(j, NameWord) then Failure(Malformed)
        else
          var i :- ExprFromJson(j.fields[ExpressionWord]);
          Built(Alias(i, j.fields[NameWord].s))
  }

  function ExprsFromJson(items: seq<Json>): Result<seq<Expr>, Malformed>
    decreases items, 0
  {
    if items == [] then Success([])
    else
      var e :- ExprFromJson(items[0]);
      var rest :- ExprsFromJson(items[1..]);
      Success([e] + rest)
  }

  /** Whatever JSON is read, the expression that comes out is one the constructors accept at every node. */
  lemma {:induction false} ReadExpressionsAreWellFormed(j: Json)
    requires ExprFromJson(j).Success?
    ensures WellFormed(ExprFromJson(j).value)
    decreases j, 1
  {
    match j.fields[NodeWord].word.node
    case ColumnKind =>
    case ParameterKind =>
    case LiteralKind =>
    case ComparisonKind =>
      ReadExpressionsAreWellFormed(j.fields[LeftWord]);
      ReadExpressionsAreWellFormed(j.fields[RightWord]);
    case ArithmeticKind =>
      ReadExpressionsAreWellFormed(j.fields[LeftWord]);
      ReadExpressionsAreWellFormed(j.fields[RightWord]);
    case AndKind => ReadListsAreWellFormed(j.fields[OperandsWord].items);
    case OrKind => ReadListsAreWellFormed(j.fields[OperandsWord].items);
    case NotKind => ReadExpressionsAreWellFormed(j.fields[OperandWord]);
    case IsNullKind => ReadExpressionsAreWellFormed(j.fields[OperandWord]);
    case InKind =>
      ReadExpressionsAreWellFormed(j.fields[OperandWord]);
      ReadListsAreWellFormed(j.fields[ValuesWord].items);
    case LikeKind =>
      ReadExpressionsAreWellFormed(j.fields[OperandWord]);
      ReadExpressionsAreWellFormed(j.fields[PatternWord]);
    case AliasKind => ReadExpressionsAreWellFormed(j.fields[ExpressionWord]);
  }

  lemma {:induction false} ReadListsAreWellFormed(items: seq<Json>)
    requires ExprsFromJson(items).Success?
    ensures AllWellFormed(ExprsFromJson(items).value)
    decreases items, 0
  {
    if items != [] {
      ReadExpressionsAreWellFormed(items[0]);
      ReadListsAreWellFormed(items[1..]);
      var es := ExprsFromJson(items).value;
      assert es[1..] == ExprsFromJson(items[1..]).value;
    }
  }

  lemma ValueRoundTrip(v: Value)
    requires !v.Fault?
    ensures DecodeValue(EncodeValue(v)) == Success(v)
  {
  }

  predicate Reads(e: Expr) {
    ExprFromJson(ExprToJson(e)) == Success(e)
  }

  predicate ReadsAll(es: seq<Expr>) {
    ExprsFromJson(ExprsToJson(es)) == Success(es)
  }

  lemma LeafReads(e: Expr)
    requires WellFormed(e) && (e.Column? || e.Literal? || e.Parameter?)
    ensures Reads(e)
  {
    var j := ExprToJson(e);
    assert HasWord(j, NodeWord) && j.fields[NodeWord].word == ExprTag(KindOf(e));
    if e.Literal? {
      ValueRoundTrip(e.lit.value);
      TypeRoundTrip(e.lit.dataType);
      assert Has(j, ValueWord) && j.fields[ValueWord] == EncodeValue(e.lit.value);
      assert Has(j, TypeWord) && j.fields[TypeWord] == TypeToJson(e.lit.dataType);
    } else {
      assert HasText(j, NameWord);
    }
  }

  lemma OperationReads(e: Expr)
    requires WellFormed(e) && (e.Comparison? || e.Arithmetic?) && Reads(e.left) && Reads(e.right)
    ensures Reads(e)
  {
    var j := ExprToJson(e);
    assert HasWord(j, NodeWord) && j.fields[NodeWord].word == ExprTag(KindOf(e));
    assert HasWord(j, OpWord) && Has(j, LeftWord) && Has(j, RightWord);
    assert j.fields[LeftWord] == ExprToJson(e.left) && j.fields[RightWord] == ExprToJson(e.right);
  }

  lemma JunctionReads(e: Expr)
    requires WellFormed(e) && (e.And? || e.Or?) && ReadsAll(e.operands)
    ensures Reads(e)
  {
    var j := ExprToJson(e);
    assert HasWord(j, NodeWord) && j.fields[NodeWord].word == ExprTag(KindOf(e));
    assert HasArray(j, OperandsWord) && j.fields[OperandsWord].items == ExprsToJson(e.operands);
  }

  lemma UnaryReads(e: Expr)
    requires WellFormed(e) && (e.Not? || e.IsNull?) && Reads(e.operand)
    ensures Reads(e)
  {
    var j := ExprToJson(e);
    assert HasWord(j, NodeWord) && j.fields[NodeWord].word == ExprTag(KindOf(e));
    assert Has(j, OperandWord) && j.fields[OperandWord] == ExprToJson(e.operand);
    assert e.IsNull? ==> Negated(j) == e.negated;
  }

  lemma InReads(e: Expr)
    requires WellFormed(e) && e.In? && Reads(e.operand) && ReadsAll(e.values)
    ensures Reads(e)
  {
    var j := ExprToJson(e);
    assert HasWord(j, NodeWord) && j.fields[NodeWord].word == ExprTag(InKind);
    assert Has(j, OperandWord) && j.fields[OperandWord] == ExprToJson(e.operand) && Negated(j) == e.negated;
    assert HasArray(j, ValuesWord) && j.fields[ValuesWord].items == ExprsToJson(e.values);
  }

  lemma LikeStep(j: Json, o: Expr, p: Expr)
    requires HasWord(j, NodeWord) && j.fields[NodeWord].word == ExprTag(LikeKind) && Has(j, OperandWord) && Has(j, PatternWord)
    requires ExprFromJson(j.fields[OperandWord]) == Success(o) && ExprFromJson(j.fields[PatternWord]) == Success(p)
    ensures ExprFromJson(j) == Built(Like(o, p, Negated(j)))
  {
  }

  lemma LikeReads(e: Expr)
    requires WellFormed(e) && e.Like? && Reads(e.operand) && Reads(e.pattern)
    ensures Reads(e)
  {
    hide ExprFromJson;
    var j := ExprToJson(e);
    assert HasWord(j, NodeWord) && j.fields[NodeWord].word == ExprTag(LikeKind);
    assert Has(j, OperandWord) && j.fields[OperandWord] == ExprToJson(e.operand) && Negated(j) == e.negated;
    assert Has(j, PatternWord) && j.fields[PatternWord] == ExprToJson(e.pattern);
    LikeStep(j, e.operand, e.pattern);
  }

  lemma AliasReads(e: Expr)
    requires WellFormed(e) && e.Alias? && Reads(e.expression)
    ensures Reads(e)
  {
    var j := ExprToJson(e);
    assert HasWord(j, NodeWord) && j.fields[NodeWord].word == ExprTag(KindOf(e));
    assert Has(j, ExpressionWord) && j.fields[ExpressionWord] == ExprToJson(e.expression) && HasText(j, NameWord);
  }

  /** A well-formed expression reads back as written. */
  lemma {:induction false} ExpressionRoundTrip(e: Expr)
    requires WellFormed(e)
    ensures Reads(e)
    decreases e, 1
  {
    hide Reads, ReadsAll;
    match e
    case Column(_) => LeafReads(e);
    case Literal(_) => LeafReads(e);
    case Parameter(_) => LeafReads(e);
    case Comparison(_, l, r) => ExpressionRoundTrip(l); ExpressionRoundTrip(r); OperationReads(e);
    case Arithmetic(_, l, r) => ExpressionRoundTrip(l); ExpressionRoundTrip(r); OperationReads(e);
    case And(os) => ListRoundTrips(os); JunctionReads(e);
    case Or(os) => ListRoundTrips(os); JunctionReads(e);
    case Not(o) => ExpressionRoundTrip(o); UnaryReads(e);
    case IsNull(o, _) => ExpressionRoundTrip(o); UnaryReads(e);
    case In(o, vs, _) => ExpressionRoundTrip(o); ListRoundTrips(vs); InReads(e);
    case Like(o, p, _) => ExpressionRoundTrip(o); ExpressionRoundTrip(p); LikeReads(e);
    case Alias(i, _) => ExpressionRoundTrip(i); AliasReads(e);
  }

  lemma {:induction false} ListRoundTrips(es: seq<Expr>)
    requires AllWellFormed(es)
    ensures ReadsAll(es)
    decreases es, 0
  {
    if es != [] {
      ExpressionRoundTrip(es[0]);
      ListRoundTrips(es[1..]);
      hide ExprFromJson, ExprToJson;
      assert ExprsToJson(es)[1..] == ExprsToJson(es[1..]);
      assert [es[0]] + es[1..] == es;
    }
  }

  // ---- plans ------------------------------------------------------------------------------------------------

  function NodeToJson(n: PlanNode): Json {
    match n
    case Scan(source) => JObject(map[OpWord := JWord(ScanTag), SourceWord := JString(source)])
    case Filter(c, p) => JObject(map[OpWord := JWord(FilterTag), InputWord := NodeToJson(c), PredicateWord := ExprToJson(p)])
    case Project(c, es) =>
      JObject(map[OpWord := JWord(ProjectTag), InputWord := NodeToJson(c), ExpressionsWord := JArray(ExprsToJson(es))])
    case Limit(c, count) => JObject(map[OpWord := JWord(LimitTag), InputWord := NodeToJson(c), CountWord := JInt(count)])
  }

  function PlanToJson(root: PlanNode): Json {
    JObject(map[VersionWord := JWord(VersionTag), RootWord := NodeToJson(root)])
  }

  function BuiltNode(n: PlanNode): Result<PlanNode, Malformed> {
    if ValidNode(n) then Success(n) else Failure(Malformed)
  }

  function NodeFromJson(j: Json): Result<PlanNode, Malformed> {
    if !HasWord(j, OpWord) then Failure(Malformed)
    else if j.fields[OpWord].word == ScanTag then
      if HasText(j, SourceWord) then BuiltNode(Scan(j.fields[SourceWord].s)) else Failure(Malformed)
    else if !Has(j, InputWord) then Failure(Malformed)
    else
      var child :- NodeFromJson(j.fields[InputWord]);
      match j.fields[OpWord].word
      case FilterTag =>
        if !Has(j, PredicateWord) then Failure(Malformed)
        else
          var p :- ExprFromJson(j.fields[PredicateWord]);
          BuiltNode(Filter(child, p))
      case ProjectTag =>
        if !HasArray(j, ExpressionsWord) then Failure(Malformed)
        else
          var es :- ExprsFromJson(j.fields[ExpressionsWord].items);
          BuiltNode(Project(child, es))
      case LimitTag =>
        if !Has(j, CountWord) || !j.fields[CountWord].JInt? || j.fields[CountWord].i < 0 then Failure(Malformed)
        else BuiltNode(Limit(child, j.fields[CountWord].i))
      case _ => Failure(Malformed)
  }

  function PlanFromJson(j: Json): Result<PlanNode, Malformed> {
    if !Has(j, VersionWord) || (j.fields[VersionWord] != JWord(VersionTag) && j.fields[VersionWord] != JInt(1)) then Failure(Malformed)
    else if !Has(j, RootWord) then Failure(Malformed)
    else
      var root :- NodeFromJson(j.fields[RootWord]);
      if InOrder(Nodes(root)) then Success(root) else Failure(Malformed)
  }

  lemma {:induction false} ReadNodesAreValid(j: Json)
    requires NodeFromJson(j).Success?
    ensures forall n | n in Nodes(NodeFromJson(j).value) :: ValidNode(n)
    decreases j
  {
    hide ExprFromJson, ExprsFromJson, ValidNode;
    if j.fields[OpWord].word != ScanTag {
      ReadNodesAreValid(j.fields[InputWord]);
    }
  }

  /** Whatever JSON is read, the plan that comes out is a valid chain. */
  lemma ReadPlansAreValid(j: Json)
    requires PlanFromJson(j).Success?
    ensures ValidPlan(PlanFromJson(j).value)
  {
    ReadNodesAreValid(j.fields[RootWord]);
  }

  lemma ScanReads(n: PlanNode)
    requires ValidNode(n) && n.Scan?
    ensures NodeFromJson(NodeToJson(n)) == Success(n)
  {
    var j := NodeToJson(n);
    assert HasWord(j, OpWord) && HasText(j, SourceWord);
  }

  lemma FilterReads(n: PlanNode)
    requires n.Filter? && ValidNode(n) && NodeFromJson(NodeToJson(n.child)) == Success(n.child) && Reads(n.condition)
    ensures NodeFromJson(NodeToJson(n)) == Success(n)
  {
    hide ExprFromJson, ExprToJson, ValidNode;
    var j := NodeToJson(n);
    assert HasWord(j, OpWord) && Has(j, InputWord) && j.fields[InputWord] == NodeToJson(n.child);
    assert Has(j, PredicateWord) && j.fields[PredicateWord] == ExprToJson(n.condition);
  }

  lemma ProjectReads(n: PlanNode)
    requires n.Project? && ValidNode(n) && NodeFromJson(NodeToJson(n.child)) == Success(n.child) && ReadsAll(n.expressions)
    ensures NodeFromJson(NodeToJson(n)) == Success(n)
  {
    hide ExprsFromJson, ExprsToJson, ValidNode;
    var j := NodeToJson(n);
    assert HasWord(j, OpWord) && Has(j, InputWord) && j.fields[InputWord] == NodeToJson(n.child);
    assert HasArray(j, ExpressionsWord) && j.fields[ExpressionsWord].items == ExprsToJson(n.expressions);
  }

  lemma LimitReads(n: PlanNode)
    requires n.Limit? && ValidNode(n) && NodeFromJson(NodeToJson(n.child)) == Success(n.child)
    ensures NodeFromJson(NodeToJson(n)) == Success(n)
  {
    hide ValidNode;
    var j := NodeToJson(n);
    assert HasWord(j, OpWord) && Has(j, InputWord) && j.fields[InputWord] == NodeToJson(n.child) && Has(j, CountWord);
  }

  lemma {:induction false} NodeRoundTrip(n: PlanNode)
    requires forall m | m in Nodes(n) :: ValidNode(m)
    ensures NodeFromJson(NodeToJson(n)) == Success(n)
  {
    hide NodeFromJson, NodeToJson, Reads, ReadsAll;
    assert n in Nodes(n);
    match n
    case Scan(_) => ScanReads(n);
    case Filter(c, p) =>
      NodeRoundTrip(c);
      ExpressionRoundTrip(p);
      FilterReads(n);
    case Project(c, es) =>
      NodeRoundTrip(c);
      ListRoundTrips(es);
      ProjectReads(n);
    case Limit(c, _) =>
      NodeRoundTrip(c);
      LimitReads(n);
  }

  /** A valid plan reads back as written. */
  lemma PlanRoundTrip(root: PlanNode)
    requires ValidPlan(root)
    ensures PlanFromJson(PlanToJson(root)) == Success(root)
  {
    hide NodeFromJson, NodeToJson;
    NodeRoundTrip(root);
    var j := PlanToJson(root);
    assert Has(j, VersionWord) && Has(j, RootWord) && j.fields[RootWord] == NodeToJson(root);
  }
}
