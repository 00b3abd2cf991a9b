/**
 Column types inferred from raw XML values, and the conversion of raw values to a type. How a text
 parses as a number, date or timestamp is abstract; that inference and conversion agree is not.
 */
module XmlInference {
  import opened Wrappers
  import opened Values
  import opened Types

  /** A raw record value: nothing, text, a repeated tag, or a nested or attributed element. */
  datatype Raw = Missing | Scalar(text: string) | Items(values: seq<Raw>) | Dict(entries: seq<(string, Raw)>)

  /** A converted value. */
  datatype Cell = NoCell | Leaf(value: Value) | List(cells: seq<Cell>) | Struct(fields: seq<(string, Cell)>)

  /** How text parses: each function gives None for text that is not of its form. */
  datatype Lexer = Lexer(
    integer: string -> Option<int>,
    finite: string -> Option<real>,
    boolean: string -> Option<bool>,
    date: string -> Option<int>,
    timestamp: (string, Option<string>) -> Option<int>,
    decimal: (string, nat, nat) -> Option<int>,
    binary: string -> int)

  function Find<T>(entries: seq<(string, T)>, key: string, default: T): T {
    if entries == [] then default
    else if entries[0].0 == key then entries[0].1
    else Find(entries[1..], key, default)
  }

  // ---- inference ----------------------------------------------------------------------------------------

  function Size(v: Raw): nat
    decreases v, 1
  {
    match v
    case Missing => 0
    case Scalar(_) => 1
    case Items(vs) => 1 + SizeAll(vs)
    case Dict(_) => 1 + SizeFrom(v, 0)
  }

  function SizeAll(vs: seq<Raw>): nat
    decreases vs, 0
  {
    if vs == [] then 0 else Size(vs[0]) + SizeAll(vs[1..])
  }

  function SizeFrom(v: Raw, i: nat): nat
    requires v.Dict? && i <= |v.entries|
    decreases v, 0, |v.entries| - i
  {
    if i == |v.entries| then 0 else Size(v.entries[i].1) + SizeFrom(v, i + 1)
  }

  function Present(vs: seq<Raw>): (r: seq<Raw>)
    ensures forall v :: v in r <==> v in vs && !v.Missing?
    ensures SizeAll(r) == SizeAll(vs)
  {
    if vs == [] then []
    else if vs[0].Missing? then Present(vs[1..])
    else
      var rest := Present(vs[1..]);
      assert ([vs[0]] + rest)[1..] == rest;
      [vs[0]] + rest
  }

  predicate SomeItems(vs: seq<Raw>) {
    exists v :: v in vs && v.Items?
  }

  predicate SomeDict(vs: seq<Raw>) {
    exists v :: v in vs && v.Dict?
  }

  function ItemsOf(v: Raw): seq<Raw> {
    if v.Items? then v.values else [v]
  }

  lemma {:induction false} SizeAllConcat(xs: seq<Raw>, ys: seq<Raw>)
    ensures SizeAll(xs + ys) == SizeAll(xs) + SizeAll(ys)
  {
    if xs == [] {
      assert xs + ys == ys;
    } else {
      assert (xs + ys)[1..] == xs[1..] + ys;
      SizeAllConcat(xs[1..], ys);
    }
  }

  /** Every value as a list, one after the other. */
  function Flat(vs: seq<Raw>): (r: seq<Raw>)
    ensures SizeAll(r) <= SizeAll(vs)
    ensures SomeItems(vs) ==> SizeAll(r) < SizeAll(vs)
  {
    if vs == [] then []
    else
      var first, rest := ItemsOf(vs[0]), Flat(vs[1..]);
      SizeAllConcat(first, rest);
      assert vs[0].Items? || SizeAll([vs[0]]) == Size(vs[0]) + SizeAll([vs[0]][1..]);
      first + rest
  }

  lemma {:induction false} FlatHas(vs: seq<Raw>, v: Raw, item: Raw)
    requires v in vs && item in ItemsOf(v)
    ensures item in Flat(vs)
  {
    if v != vs[0] {
      FlatHas(vs[1..], v, item);
    }
  }

  /** A value seen as a struct: text stands under the value tag. */
  function Get(v: Raw, key: string, tag: string): Raw {
    if v.Dict? then Find(v.entries, key, Missing) else if key == tag then v else Missing
  }

  lemma {:induction false} FoundIsSmaller(v: Raw, i: nat, key: string)
    requires v.Dict? && i <= |v.entries|
    ensures Size(Find(v.entries[i..], key, Missing)) <= SizeFrom(v, i)
    decreases |v.entries| - i
  {
    if i < |v.entries| {
      assert v.entries[i..][0] == v.entries[i] && v.entries[i..][1..] == v.entries[i + 1..];
      FoundIsSmaller(v, i + 1, key);
    }
  }

  lemma GotIsSmaller(v: Raw, key: string, tag: string)
    ensures Size(Get(v, key, tag)) <= Size(v)
    ensures v.Dict? ==> Size(Get(v, key, tag)) < Size(v)
  {
    if v.Dict? {
      FoundIsSmaller(v, 0, key);
      assert v.entries[0..] == v.entries;
    }
  }

  function ColumnOf(vs: seq<Raw>, key: string, tag: string): (r: seq<Raw>)
    ensures |r| == |vs| && forall i | 0 <= i < |vs| :: r[i] == Get(vs[i], key, tag)
    ensures SizeAll(r) <= SizeAll(vs)
    ensures SomeDict(vs) ==> SizeAll(r) < SizeAll(vs)
  {
    if vs == [] then []
    else
      var first, rest := Get(vs[0], key, tag), ColumnOf(vs[1..], key, tag);
      GotIsSmaller(vs[0], key, tag);
      assert ([first] + rest)[1..] == rest;
      [first] + rest
  }

  function KeysOf(entries: seq<(string, Raw)>): (keys: seq<string>)
    ensures |keys| == |entries|
  {
    if entries == [] then [] else [entries[0].0] + KeysOf(entries[1..])
  }

  /** Keys in first-seen order, each once; a value that is not a dict has just the value tag. */
  function FirstSeen(seen: seq<string>, keys: seq<string>): (r: seq<string>)
    ensures forall k :: k in r <==> k in seen || k in keys
    decreases |keys|
  {
    if keys == [] then seen
    else FirstSeen(if keys[0] in seen then seen else seen + [keys[0]], keys[1..])
  }

  function AllKeys(vs: seq<Raw>, tag: string): seq<string> {
    if vs == [] then []
    else NamesOf(vs[0], tag) + AllKeys(vs[1..], tag)
  }

  predicate AllMatch(vs: seq<Raw>, matches: string -> bool) {
    forall v | v in vs :: v.Scalar? && matches(v.text)
  }

  function ScalarType(vs: seq<Raw>, lex: Lexer): DataType {
    if AllMatch(vs, t => lex.integer(t).Some? && FitsBits(lex.integer(t).value, 64)) then IntegerType(64)
    else if AllMatch(vs, t => lex.finite(t).Some?) then FloatType(64)
    else if AllMatch(vs, t => lex.boolean(t).Some?) then BooleanType
    else if AllMatch(vs, t => lex.date(t).Some?) then DateType
    else StringType
  }

  function Infer(vs: seq<Raw>, tag: string, lex: Lexer): DataType
    decreases SizeAll(vs), 1
  {
    var present := Present(vs);
    if present == [] then NullType
    else if SomeItems(present) then ListType(Infer(Flat(present), tag, lex))
    else if SomeDict(present) then StructType(InferFields(present, FirstSeen([], AllKeys(present, tag)), tag, lex))
    else ScalarType(present, lex)
  }

  function InferFields(vs: seq<Raw>, keys: seq<string>, tag: string, lex: Lexer): (fields: seq<(string, DataType)>)
    requires SomeDict(vs)
    ensures |fields| == |keys|
    ensures forall i | 0 <= i < |keys| :: fields[i] == (keys[i], Infer(ColumnOf(vs, keys[i], tag), tag, lex))
    decreases SizeAll(vs), 0, |keys|
  {
    if keys == [] then []
    else [(keys[0], Infer(ColumnOf(vs, keys[0], tag), tag, lex))] + InferFields(vs, keys[1..], tag, lex)
  }

  // ---- conversion -----------------------------------------------------------------------------------------

  function LeafOf(v: Option<Value>): Cell {
    if v.Some? then Leaf(v.value) else NoCell
  }

  function ConvertText(text: string, t: DataType, lex: Lexer): Cell {
    match t
    case IntegerType(bits) =>
      var i := lex.integer(text);
      if i.Some? && bits in {8, 16, 32, 64} && FitsBits(i.value, bits) then Leaf(Int(i.value)) else NoCell
    case FloatType(_) => var r := lex.finite(text); LeafOf(if r.Some? then Some(Float(r.value)) else None)
    case BooleanType => var b := lex.boolean(text); LeafOf(if b.Some? then Some(Bool(b.value)) else None)
    case DateType => var d := lex.date(text); LeafOf(if d.Some? then Some(Opaque(Date, d.value)) else None)
    case TimestampType(zone) =>
      var k := lex.timestamp(text, zone); LeafOf(if k.Some? then Some(Opaque(Timestamp, k.value)) else None)
    case DecimalType(p, s) =>
      var u := lex.decimal(text, p, s); LeafOf(if u.Some? then Some(Decimal(u.value, s)) else None)
    case BinaryType => Leaf(Opaque(Binary, lex.binary(text)))
    case NullType => NoCell
    case _ => Leaf(Text(text))
  }

  /** A raw value coerced to a type; what does not fit is null. */
  function Convert(v: Raw, t: DataType, tag: string, lex: Lexer): Cell
    decreases t, 1
  {
    if v.Missing? then NoCell
    else if t.ListType? then List(ConvertAll(ItemsOf(v), t.element, tag, lex))
    else if v.Items? then NoCell
    else if t.StructType? then Struct(ConvertFields(v, t, 0, tag, lex))
    else if v.Dict? then
      var inner := Find(v.entries, tag, Missing);
      if inner.Scalar? then ConvertText(inner.text, t, lex) else NoCell
    else ConvertText(v.text, t, lex)
  }

  function ConvertAll(vs: seq<Raw>, t: DataType, tag: string, lex: Lexer): (cells: seq<Cell>)
    ensures |cells| == |vs|
    ensures forall i | 0 <= i < |vs| :: cells[i] == Convert(vs[i], t, tag, lex)
    decreases t, 2, |vs|
  {
    if vs == [] then [] else [Convert(vs[0], t, tag, lex)] + ConvertAll(vs[1..], t, tag, lex)
  }

  function ConvertFields(v: Raw, t: DataType, i: nat, tag: string, lex: Lexer): (cells: seq<(string, Cell)>)
    requires t.StructType? && i <= |t.fields|
    ensures |cells| == |t.fields| - i
    decreases t, 0, |t.fields| - i
  {
    if i == |t.fields| then []
    else
      var f := t.fields[i];
      [(f.0, Convert(Get(v, f.0, tag), f.1, tag, lex))] + ConvertFields(v, t, i + 1, tag, lex)
  }

  lemma {:induction false} ConvertedField(v: Raw, t: DataType, i: nat, j: nat, tag: string, lex: Lexer)
    requires t.StructType? && i <= j < |t.fields|
    ensures var f := t.fields[j];
            ConvertFields(v, t, i, tag, lex)[j - i] == (f.0, Convert(Get(v, f.0, tag), f.1, tag, lex))
    decreases j - i
  {
    if i < j {
      ConvertedField(v, t, i + 1, j, tag, lex);
    }
  }

  // ---- nothing in the sample is lost ------------------------------------------------------------------------

  /** The names under which a value's parts stand in a struct. */
  function NamesOf(v: Raw, tag: string): seq<string> {
    if v.Dict? then KeysOf(v.entries) else [tag]
  }

  /** The value is what the text says, read as an integer, number, boolean, date or plain text. */
  predicate Reads(text: string, v: Value, lex: Lexer) {
    match v
    case Int(i) => lex.integer(text) == Some(i)
    case Float(r) => lex.finite(text) == Some(r)
    case Bool(b) => lex.boolean(text) == Some(b)
    case Opaque(Date, k) => lex.date(text) == Some(k)
    case Text(s) => s == text
    case _ => false
  }

  /** Every non-null leaf of the raw value is read into the cell, at the place its shape gives it. */
  predicate Kept(v: Raw, c: Cell, tag: string, lex: Lexer)
    decreases c
  {
    v.Missing?
    || match c
       case NoCell => false
       case Leaf(x) => v.Scalar? && Reads(v.text, x, lex)
       case List(cells) => |cells| == |ItemsOf(v)| && forall i | 0 <= i < |cells| :: Kept(ItemsOf(v)[i], cells[i], tag, lex)
       case Struct(fields) =>
         && !v.Items?
         && (forall i | 0 <= i < |fields| :: Kept(Get(v, fields[i].0, tag), fields[i].1, tag, lex))
         && (forall k | k in NamesOf(v, tag) :: exists f :: f in fields && f.0 == k)
  }

  lemma {:induction false} AllKeysHas(vs: seq<Raw>, v: Raw, key: string, tag: string)
    requires v in vs && key in NamesOf(v, tag)
    ensures key in AllKeys(vs, tag)
  {
    if v != vs[0] {
      AllKeysHas(vs[1..], v, key, tag);
    }
  }

  /** Scalars convert under the type inferred from them. */
  lemma ScalarsConvert(vs: seq<Raw>, v: Raw, lex: Lexer)
    requires v in vs && v.Scalar?
    ensures var c := ConvertText(v.text, ScalarType(vs, lex), lex); c.Leaf? && Reads(v.text, c.value, lex)
  {
  }

  /** Converting a sampled value with the type inferred from the sample loses nothing. */
  lemma {:induction false} InferenceIsLossless(vs: seq<Raw>, v: Raw, tag: string, lex: Lexer)
    requires v in vs
    ensures Kept(v, Convert(v, Infer(vs, tag, lex), tag, lex), tag, lex)
    decreases SizeAll(vs)
  {
    var present := Present(vs);
    if v.Missing? {
    } else if SomeItems(present) {
      ListKeeps(vs, v, tag, lex);
    } else if SomeDict(present) {
      StructKeeps(vs, v, tag, lex);
    } else {
      ScalarsConvert(present, v, lex);
    }
  }

  lemma ListKeeps(vs: seq<Raw>, v: Raw, tag: string, lex: Lexer)
    requires v in Present(vs) && SomeItems(Present(vs))
    ensures Kept(v, Convert(v, Infer(vs, tag, lex), tag, lex), tag, lex)
    decreases SizeAll(vs), 0
  {
    var present := Present(vs);
    var flat := Flat(present);
    var items, element := ItemsOf(v), Infer(flat, tag, lex);
    forall i | 0 <= i < |items|
      ensures Kept(items[i], Convert(items[i], element, tag, lex), tag, lex)
    {
      FlatHas(present, v, items[i]);
      InferenceIsLossless(flat, items[i], tag, lex);
    }
    assert Infer(vs, tag, lex) == ListType(element);
  }

  lemma StructKeeps(vs: seq<Raw>, v: Raw, tag: string, lex: Lexer)
    requires v in Present(vs) && !SomeItems(Present(vs)) && SomeDict(Present(vs))
    ensures Kept(v, Convert(v, Infer(vs, tag, lex), tag, lex), tag, lex)
    decreases SizeAll(vs), 1
  {
    assert !v.Items?;
    hide *;
    var present := Present(vs);
    var keys := FirstSeen([], AllKeys(present, tag));
    var t := StructType(InferFields(present, keys, tag, lex));
    var cells := ConvertFields(v, t, 0, tag, lex);
    StructInferred(vs, tag, lex);
    StructConverted(v, t, tag, lex);
    forall i | 0 <= i < |cells|
      ensures cells[i].0 == keys[i] && Kept(Get(v, cells[i].0, tag), cells[i].1, tag, lex)
    {
      FieldKeeps(vs, v, keys, i, tag, lex);
    }
    forall k | k in NamesOf(v, tag)
      ensures exists f :: f in cells && f.0 == k
    {
      AllKeysHas(present, v, k, tag);
      var i :| 0 <= i < |keys| && keys[i] == k;
      assert cells[i] in cells && cells[i].0 == k;
    }
    StructIsKept(v, cells, tag, lex);
  }

  lemma FieldKeeps(vs: seq<Raw>, v: Raw, keys: seq<string>, i: nat, tag: string, lex: Lexer)
    requires v in Present(vs) && SomeDict(Present(vs)) && i < |keys|
    ensures var t := StructType(InferFields(Present(vs), keys, tag, lex));
            var cell := ConvertFields(v, t, 0, tag, lex)[i];
            cell.0 == keys[i] && Kept(Get(v, keys[i], tag), cell.1, tag, lex)
    decreases SizeAll(vs), 0
  {
    hide *;
    var present := Present(vs);
    var at :| 0 <= at < |present| && present[at] == v;
    var column := ColumnOf(present, keys[i], tag);
    assert column[at] == Get(v, keys[i], tag);
    InferenceIsLossless(column, column[at], tag, lex);
    ConvertedField(v, StructType(InferFields(present, keys, tag, lex)), 0, i, tag, lex);
  }

  lemma StructInferred(vs: seq<Raw>, tag: string, lex: Lexer)
    requires !SomeItems(Present(vs)) && SomeDict(Present(vs))
    ensures var present := Present(vs);
            Infer(vs, tag, lex) == StructType(InferFields(present, FirstSeen([], AllKeys(present, tag)), tag, lex))
  {
  }

  lemma StructConverted(v: Raw, t: DataType, tag: string, lex: Lexer)
    requires t.StructType? && !v.Missing? && !v.Items?
    ensures Convert(v, t, tag, lex) == Struct(ConvertFields(v, t, 0, tag, lex))
  {
  }

  lemma StructIsKept(v: Raw, cells: seq<(string, Cell)>, tag: string, lex: Lexer)
    requires !v.Items? && forall i | 0 <= i < |cells| :: Kept(Get(v, cells[i].0, tag), cells[i].1, tag, lex)
    requires forall k | k in NamesOf(v, tag) :: exists f :: f in cells && f.0 == k
    ensures Kept(v, Struct(cells), tag, lex)
  {
  }

  /** A record read back under the schema inferred from a sample that contains it keeps every column. */
  lemma SampledRecordSurvives(sample: seq<Raw>, record: Raw, column: string, tag: string, lex: Lexer)
    requires record in sample && forall r | r in sample :: r.Dict?
    ensures var t := Infer(ColumnOf(sample, column, tag), tag, lex); var v := Find(record.entries, column, Missing);
            Kept(v, Convert(v, t, tag, lex), tag, lex)
  {
    var values := ColumnOf(sample, column, tag);
    var at :| 0 <= at < |sample| && sample[at] == record;
    assert values[at] == Get(record, column, tag);
    InferenceIsLossless(values, values[at], tag, lex);
  }
}
