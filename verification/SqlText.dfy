/**
 SQL text with every value bound through a placeholder, rendered by a generator that threads one
 mutable list of values: a placeholder must meet its own value when text and list are paired.
 */
module SqlText {
  import opened Wrappers
  import opened Values
  import opened Expressions

  // ---- text -----------------------------------------------------------------------------------------

  /** `Slot(i)` is the placeholder made for `values[i]`; `Spliced` is a value standing in the text. */
  datatype Token = Sql(text: string) | Slot(index: nat) | Spliced(value: Value)

  type Tokens = seq<Token>

  /** Text put around rendered text. */
  datatype Frame = Frame(open: string, close: string)

  const PLAIN := Frame("", "")

  /** What a generator puts around the two operands of a comparison, LIKE or arithmetic, and around the whole. */
  datatype PairFrames = PairFrames(left: Frame, right: Frame, whole: Frame)

  /**
   `pairs` and `constants` are a generator's casts, which depend on types only, and its ESCAPE clause.
   `operandFirst`: IN renders its operand before its values, as the MySQL generator does.
   */
  datatype Dialect = Dialect(
    quote: char, likeOperator: string, pairs: (Expr, Params) -> PairFrames, constants: Types.DataType -> Frame, operandFirst: bool)

  /** The frames of the shared generator: parentheses, and a cast of the dividend. */
  function SharedFrames(e: Expr, divisionCast: Option<string>): PairFrames {
    var casts := e.Arithmetic? && e.arithmetic.DIV? && divisionCast.Some?;
    PairFrames(if casts then Frame("CAST(", " AS " + divisionCast.value + ")") else PLAIN, PLAIN, Frame("(", ")"))
  }

  /** The PostgreSQL generator on what is pushed to it: LIKE has no escape character. */
  function PostgresFrames(e: Expr): PairFrames {
    if e.Like? then PairFrames(PLAIN, PLAIN, Frame("(", " ESCAPE '')")) else SharedFrames(e, Some("DOUBLE PRECISION"))
  }

  const POSTGRES := Dialect('\"', "LIKE", (e, params) => PostgresFrames(e), t => PLAIN, false)

  datatype RenderError = MissingParameter(name: string) | MisplacedAlias

  function Doubled(identifier: string, quote: char): string {
    if identifier == [] then []
    else (if identifier[0] == quote then [quote, quote] else [identifier[0]]) + Doubled(identifier[1..], quote)
  }

  function Quote(identifier: string, quote: char): string {
    [quote] + Doubled(identifier, quote) + [quote]
  }

  /** Reads an identifier up to its closing quote, undoing doubled quotes; also what follows it. */
  function ReadQuoted(text: string, quote: char): Option<(string, string)> {
    if text == [] then None
    else if text[0] != quote then
      var rest := ReadQuoted(text[1..], quote);
      if rest.None? then None else Some(([text[0]] + rest.value.0, rest.value.1))
    else if |text| > 1 && text[1] == quote then
      var rest := ReadQuoted(text[2..], quote);
      if rest.None? then None else Some(([quote] + rest.value.0, rest.value.1))
    else Some(([], text[1..]))
  }

  /** No identifier can end its quotation early: whatever follows it, it reads back whole. */
  lemma {:induction false} QuotedReadsBack(identifier: string, quote: char, rest: string)
    requires rest == [] || rest[0] != quote
    ensures ReadQuoted(Doubled(identifier, quote) + [quote] + rest, quote) == Some((identifier, rest))
  {
    var text := Doubled(identifier, quote) + [quote] + rest;
    if identifier == [] {
      assert text == [quote] + rest && text[1..] == rest;
    } else {
      QuotedReadsBack(identifier[1..], quote, rest);
      var tail := Doubled(identifier[1..], quote) + [quote] + rest;
      assert identifier == [identifier[0]] + identifier[1..];
      if identifier[0] == quote {
        assert text == [quote, quote] + tail && text[2..] == tail;
      } else {
        assert text == [identifier[0]] + tail && text[1..] == tail;
      }
    }
  }

  // ---- layouts: what stands where, and what is rendered when -------------------------------------------

  /**
   The layout of a rendered fragment. `Then(a, b)` is `a` followed by `b`, rendered in that order;
   in `After(a, b)` the text is the same but `b` was rendered first.
   */
  datatype Layout =
    | Raw(text: string)
    | Bound(value: Value)
    | Then(first: Layout, second: Layout)
    | After(first: Layout, second: Layout)

  /** The text of a fragment, and the values it appended to the list. */
  datatype Emitted = Emitted(tokens: Tokens, values: seq<Value>)

  /** Rendering a layout when the list already holds `base` values. */
  function Emit(l: Layout, base: nat): Emitted {
    match l
    case Raw(t) => Emitted([Sql(t)], [])
    case Bound(v) => Emitted([Slot(base)], [v])
    case Then(a, b) =>
      var x := Emit(a, base);
      var y := Emit(b, base + |x.values|);
      Emitted(x.tokens + y.tokens, x.values + y.values)
    case After(a, b) =>
      var y := Emit(b, base);
      var x := Emit(a, base + |y.values|);
      Emitted(x.tokens + y.tokens, y.values + x.values)
  }

  /** The intended text: every value standing in its place. */
  function Inline(l: Layout): Tokens {
    match l
    case Raw(t) => [Sql(t)]
    case Bound(v) => [Spliced(v)]
    case Then(a, b) => Inline(a) + Inline(b)
    case After(a, b) => Inline(a) + Inline(b)
  }

  predicate Bindless(l: Layout) {
    match l
    case Raw(_) => true
    case Bound(_) => false
    case Then(a, b) => Bindless(a) && Bindless(b)
    case After(a, b) => Bindless(a) && Bindless(b)
  }

  /** Values are appended in text order: no binding text is rendered ahead of binding text before it. */
  predicate InOrder(l: Layout) {
    match l
    case Raw(_) => true
    case Bound(_) => true
    case Then(a, b) => InOrder(a) && InOrder(b)
    case After(a, b) => InOrder(a) && InOrder(b) && (Bindless(a) || Bindless(b))
  }

  // ---- pairing placeholders with values --------------------------------------------------------------------

  /** A driver that numbers its placeholders: `$n` is `values[n - 1]`. */
  function FillNumbered(ts: Tokens, values: seq<Value>): Tokens {
    if ts == [] then []
    else [if ts[0].Slot? && ts[0].index < |values| then Spliced(values[ts[0].index]) else ts[0]] + FillNumbered(ts[1..], values)
  }

  /** A driver that reads `%s` from left to right, starting at `values[next]`. */
  function FillPositional(ts: Tokens, values: seq<Value>, next: nat): Tokens {
    if ts == [] then []
    else if ts[0].Slot? then
      [if next < |values| then Spliced(values[next]) else ts[0]] + FillPositional(ts[1..], values, next + 1)
    else [ts[0]] + FillPositional(ts[1..], values, next)
  }

  /** Which value each placeholder was made for, in text order. */
  function Slots(ts: Tokens): seq<nat> {
    if ts == [] then [] else (if ts[0].Slot? then [ts[0].index] else []) + Slots(ts[1..])
  }

  function Range(base: nat, n: nat): (r: seq<nat>)
    ensures |r| == n && forall i | 0 <= i < n :: r[i] == base + i
    decreases n
  {
    if n == 0 then [] else [base] + Range(base + 1, n - 1)
  }

  lemma RangeConcat(base: nat, m: nat, n: nat)
    ensures Range(base, m + n) == Range(base, m) + Range(base + m, n)
  {
  }

  lemma {:induction false} FillConcat(xs: Tokens, ys: Tokens, values: seq<Value>)
    ensures FillNumbered(xs + ys, values) == FillNumbered(xs, values) + FillNumbered(ys, values)
  {
    if xs == [] {
      assert xs + ys == ys;
    } else {
      assert (xs + ys)[1..] == xs[1..] + ys;
      FillConcat(xs[1..], ys, values);
    }
  }

  lemma {:induction false} SlotsConcat(xs: Tokens, ys: Tokens)
    ensures Slots(xs + ys) == Slots(xs) + Slots(ys)
  {
    if xs == [] {
      assert xs + ys == ys;
    } else {
      assert (xs + ys)[1..] == xs[1..] + ys;
      SlotsConcat(xs[1..], ys);
      Associates(if xs[0].Slot? then [xs[0].index] else [], Slots(xs[1..]), Slots(ys));
    }
  }

  // ---- numbered placeholders always meet their values -------------------------------------------------------

  /** The list holds the fragment's values from position `base` on. */
  predicate HeldAt(values: seq<Value>, base: nat, all: seq<Value>) {
    base + |values| <= |all| && all[base..base + |values|] == values
  }

  lemma HeldParts(a: seq<Value>, b: seq<Value>, base: nat, all: seq<Value>)
    requires HeldAt(a + b, base, all)
    ensures HeldAt(a, base, all) && HeldAt(b, base + |a|, all)
  {
    var both := all[base..base + |a + b|];
    assert all[base..base + |a|] == both[..|a|] == a;
    assert all[base + |a|..base + |a| + |b|] == both[|a|..] == b;
  }

  /**
   `$n` always names its value: however many values come before or after, and whatever statement the
   fragment ends up in, filling the placeholders gives the intended text.
   */
  lemma {:induction false} NumberedIsInline(l: Layout, base: nat, all: seq<Value>)
    requires HeldAt(Emit(l, base).values, base, all)
    ensures FillNumbered(Emit(l, base).tokens, all) == Inline(l)
  {
    hide FillNumbered, HeldAt;
    match l
    case Raw(_) => LeafFills(l, base, all);
    case Bound(_) => LeafFills(l, base, all);
    case Then(a, b) =>
      var x := Emit(a, base);
      var y := Emit(b, base + |x.values|);
      HeldParts(x.values, y.values, base, all);
      NumberedIsInline(a, base, all);
      NumberedIsInline(b, base + |x.values|, all);
      FillConcat(x.tokens, y.tokens, all);
    case After(a, b) =>
      var y := Emit(b, base);
      var x := Emit(a, base + |y.values|);
      HeldParts(y.values, x.values, base, all);
      NumberedIsInline(a, base + |y.values|, all);
      NumberedIsInline(b, base, all);
      FillConcat(x.tokens, y.tokens, all);
  }

  lemma LeafFills(l: Layout, base: nat, all: seq<Value>)
    requires (l.Raw? || l.Bound?) && HeldAt(Emit(l, base).values, base, all)
    ensures FillNumbered(Emit(l, base).tokens, all) == Inline(l)
  {
    assert Emit(l, base).tokens[1..] == [];
    assert l.Bound? ==> all[base..base + 1][0] == l.value;
  }

  // ---- positional placeholders meet their values when order agrees ------------------------------------------

  /** The placeholders are, in some order, those of the values just appended. */
  predicate Splices(tokens: Tokens, base: nat, n: nat) {
    |Slots(tokens)| == n && multiset(Slots(tokens)) == multiset(Range(base, n))
  }

  lemma SplicesBoth(xs: Tokens, ys: Tokens, m: nat, n: nat, base: nat)
    requires (Splices(xs, base, m) && Splices(ys, base + m, n)) || (Splices(ys, base, n) && Splices(xs, base + n, m))
    ensures Splices(xs + ys, base, m + n)
  {
    SlotsConcat(xs, ys);
    RangeConcat(base, m, n);
    RangeConcat(base, n, m);
    hide Slots, Range;
    assert multiset(Range(base, m) + Range(base + m, n)) == multiset(Range(base, m)) + multiset(Range(base + m, n));
    assert multiset(Range(base, n) + Range(base + n, m)) == multiset(Range(base, n)) + multiset(Range(base + n, m));
  }

  /** Each value is spliced exactly once. */
  lemma {:induction false} EachValueOnce(l: Layout, base: nat)
    ensures Splices(Emit(l, base).tokens, base, |Emit(l, base).values|)
  {
    hide Splices;
    match l
    case Raw(_) => LeafSplices(l, base);
    case Bound(_) => LeafSplices(l, base);
    case Then(a, b) =>
      var x := Emit(a, base);
      var y := Emit(b, base + |x.values|);
      EachValueOnce(a, base);
      EachValueOnce(b, base + |x.values|);
      SplicesBoth(x.tokens, y.tokens, |x.values|, |y.values|, base);
    case After(a, b) =>
      var y := Emit(b, base);
      var x := Emit(a, base + |y.values|);
      EachValueOnce(b, base);
      EachValueOnce(a, base + |y.values|);
      SplicesBoth(x.tokens, y.tokens, |x.values|, |y.values|, base);
  }

  lemma LeafSplices(l: Layout, base: nat)
    requires l.Raw? || l.Bound?
    ensures Splices(Emit(l, base).tokens, base, |Emit(l, base).values|)
    ensures Slots(Emit(l, base).tokens) == Range(base, |Emit(l, base).values|)
  {
    assert Emit(l, base).tokens[1..] == [];
    assert Range(base, 1) == [base];
  }

  lemma {:induction false} BindlessIff(l: Layout, base: nat)
    ensures Bindless(l) <==> Emit(l, base).values == []
  {
    match l
    case Then(a, b) =>
      BindlessIff(a, base);
      BindlessIff(b, base + |Emit(a, base).values|);
    case After(a, b) =>
      BindlessIff(b, base);
      BindlessIff(a, base + |Emit(b, base).values|);
    case _ =>
  }

  predicate Ordered(tokens: Tokens, base: nat, n: nat) {
    Slots(tokens) == Range(base, n)
  }

  lemma OrderedBoth(xs: Tokens, ys: Tokens, m: nat, n: nat, base: nat)
    requires |Slots(xs)| == m && |Slots(ys)| == n
    ensures Ordered(xs + ys, base, m + n) <==> Ordered(xs, base, m) && Ordered(ys, base + m, n)
  {
    var s, t := Slots(xs), Slots(ys);
    SlotsConcat(xs, ys);
    RangeConcat(base, m, n);
    hide Slots, Range;
    assert s == (s + t)[..m] && t == (s + t)[m..];
    assert Range(base, m) == (Range(base, m) + Range(base + m, n))[..m];
    assert Range(base + m, n) == (Range(base, m) + Range(base + m, n))[m..];
  }

  /** Text whose second half was rendered first, both halves binding, is out of order. */
  lemma OrderedSwapped(xs: Tokens, ys: Tokens, m: nat, n: nat, base: nat)
    requires Splices(ys, base, n) && Splices(xs, base + n, m)
    ensures Ordered(xs + ys, base, n + m)
            <==> (m == 0 || n == 0) && Ordered(ys, base, n) && Ordered(xs, base + n, m)
  {
    SlotsConcat(xs, ys);
    hide Slots, Range;
    SwappedRanges(Slots(xs), Slots(ys), base);
  }

  lemma SwappedRanges(s: seq<nat>, t: seq<nat>, base: nat)
    requires multiset(s) == multiset(Range(base + |t|, |s|))
    ensures s + t == Range(base, |t| + |s|)
            <==> (s == [] || t == []) && t == Range(base, |t|) && s == Range(base + |t|, |s|)
  {
    if s != [] && t != [] {
      FirstInRange(s, base + |t|, |s|);
      FirstTooLate(s, t, base);
    } else {
      OneEmpty(s, t, base);
    }
  }

  lemma OneEmpty(s: seq<nat>, t: seq<nat>, base: nat)
    requires s == [] || t == []
    ensures s + t == Range(base, |t| + |s|) <==> t == Range(base, |t|) && s == Range(base + |t|, |s|)
  {
    hide Range;
    if s == [] {
      assert s + t == t && |Range(base + |t|, 0)| == 0;
    } else {
      assert s + t == s && |Range(base, 0)| == 0;
    }
  }

  lemma FirstTooLate(s: seq<nat>, t: seq<nat>, base: nat)
    requires s != [] && t != [] && s[0] >= base + |t|
    ensures s + t != Range(base, |t| + |s|)
  {
    assert (s + t)[0] == s[0];
    assert Range(base, |t| + |s|)[0] == base;
  }

  lemma FirstInRange(s: seq<nat>, base: nat, n: nat)
    requires s != [] && multiset(s) == multiset(Range(base, n))
    ensures s[0] >= base
  {
    assert s[0] in multiset(Range(base, n));
    assert s[0] in Range(base, n);
  }

  /** The k-th placeholder stands for the k-th value exactly when the layout is in order. */
  lemma {:induction false} TextOrderIff(l: Layout, base: nat)
    ensures Ordered(Emit(l, base).tokens, base, |Emit(l, base).values|) <==> InOrder(l)
  {
    hide Slots, Range, Splices, Ordered, Emit, Bindless;
    match l
    case Raw(_) => LeafOrdered(l, base);
    case Bound(_) => LeafOrdered(l, base);
    case Then(a, b) =>
      var n := |Emit(a, base).values|;
      TextOrderIff(a, base);
      TextOrderIff(b, base + n);
      ThenOrdered(a, b, base);
    case After(a, b) =>
      var n := |Emit(b, base).values|;
      TextOrderIff(b, base);
      TextOrderIff(a, base + n);
      AfterOrdered(a, b, base);
  }

  lemma ThenEmits(a: Layout, b: Layout, base: nat)
    ensures var x := Emit(a, base); var y := Emit(b, base + |x.values|); var e := Emit(Then(a, b), base);
            e.tokens == x.tokens + y.tokens && |e.values| == |x.values| + |y.values|
  {
  }

  lemma ThenOrdered(a: Layout, b: Layout, base: nat)
    ensures var x := Emit(a, base); var y := Emit(b, base + |x.values|); var e := Emit(Then(a, b), base);
            Ordered(e.tokens, base, |e.values|)
            <==> Ordered(x.tokens, base, |x.values|) && Ordered(y.tokens, base + |x.values|, |y.values|)
  {
    hide *;
    var x := Emit(a, base);
    var y := Emit(b, base + |x.values|);
    ThenEmits(a, b, base);
    SlotCount(a, base);
    SlotCount(b, base + |x.values|);
    OrderedBoth(x.tokens, y.tokens, |x.values|, |y.values|, base);
  }

  lemma AfterOrdered(a: Layout, b: Layout, base: nat)
    ensures var y := Emit(b, base); var x := Emit(a, base + |y.values|); var e := Emit(After(a, b), base);
            Ordered(e.tokens, base, |e.values|)
            <==> (Bindless(a) || Bindless(b)) && Ordered(y.tokens, base, |y.values|) && Ordered(x.tokens, base + |y.values|, |x.values|)
  {
    hide Slots, Range, Splices, Ordered, Bindless;
    var y := Emit(b, base);
    var x := Emit(a, base + |y.values|);
    EachValueOnce(b, base);
    EachValueOnce(a, base + |y.values|);
    BindlessIff(a, base + |y.values|);
    BindlessIff(b, base);
    OrderedSwapped(x.tokens, y.tokens, |x.values|, |y.values|, base);
  }

  lemma LeafOrdered(l: Layout, base: nat)
    requires l.Raw? || l.Bound?
    ensures Ordered(Emit(l, base).tokens, base, |Emit(l, base).values|)
  {
    LeafSplices(l, base);
  }

  lemma SlotCount(l: Layout, base: nat)
    ensures |Slots(Emit(l, base).tokens)| == |Emit(l, base).values|
  {
    EachValueOnce(l, base);
  }

  lemma {:induction false} PositionalIsNumbered(ts: Tokens, all: seq<Value>, next: nat)
    requires Slots(ts) == Range(next, |Slots(ts)|)
    ensures FillPositional(ts, all, next) == FillNumbered(ts, all)
  {
    if ts != [] {
      var slots := Slots(ts);
      if ts[0].Slot? {
        assert slots[0] == ts[0].index && slots[1..] == Slots(ts[1..]);
        assert Range(next, |slots|)[1..] == Range(next + 1, |slots| - 1);
        PositionalIsNumbered(ts[1..], all, next + 1);
      } else {
        assert slots == Slots(ts[1..]);
        PositionalIsNumbered(ts[1..], all, next);
      }
    }
  }

  /** Read by position, an in-order statement is the intended text. */
  lemma PositionalIsInline(l: Layout)
    requires InOrder(l)
    ensures FillPositional(Emit(l, 0).tokens, Emit(l, 0).values, 0) == Inline(l)
  {
    var e := Emit(l, 0);
    TextOrderIff(l, 0);
    EachValueOnce(l, 0);
    PositionalIsNumbered(e.tokens, e.values, 0);
    assert e.values[0..|e.values|] == e.values;
    NumberedIsInline(l, 0, e.values);
  }

  predicate Distinct(values: seq<Value>) {
    forall i, j | 0 <= i < j < |values| :: values[i] != values[j]
  }

  /** With distinct values, reading by position agrees with reading by number only in text order. */
  lemma {:induction false} AgreementFixesSlots(ts: Tokens, all: seq<Value>, next: nat)
    requires Distinct(all) && next + |Slots(ts)| <= |all| && forall i | i in Slots(ts) :: i < |all|
    requires FillPositional(ts, all, next) == FillNumbered(ts, all)
    ensures Slots(ts) == Range(next, |Slots(ts)|)
  {
    if ts != [] {
      var positional, numbered := FillPositional(ts, all, next), FillNumbered(ts, all);
      var slots := Slots(ts);
      assert numbered[1..] == FillNumbered(ts[1..], all);
      if ts[0].Slot? {
        assert slots[0] == ts[0].index && slots[1..] == Slots(ts[1..]);
        assert positional[0] == Spliced(all[next]) && numbered[0] == Spliced(all[ts[0].index]);
        assert positional[1..] == FillPositional(ts[1..], all, next + 1);
        assert forall i | i in slots[1..] :: i in slots;
        AgreementFixesSlots(ts[1..], all, next + 1);
        assert Range(next, |slots|) == [next] + Range(next + 1, |slots| - 1);
      } else {
        assert slots == Slots(ts[1..]);
        assert positional[1..] == FillPositional(ts[1..], all, next);
        AgreementFixesSlots(ts[1..], all, next);
      }
    }
  }

  /** Over distinct values, reading by position gives the intended text exactly when the layout is in order. */
  lemma PositionalIsInlineIff(l: Layout)
    requires Distinct(Emit(l, 0).values)
    ensures FillPositional(Emit(l, 0).tokens, Emit(l, 0).values, 0) == Inline(l) <==> InOrder(l)
  {
    var e := Emit(l, 0);
    if InOrder(l) {
      PositionalIsInline(l);
    }
    if FillPositional(e.tokens, e.values, 0) == Inline(l) {
      assert e.values[0..|e.values|] == e.values;
      NumberedIsInline(l, 0, e.values);
      EachValueOnce(l, 0);
      SlotsWithin(e.tokens, |e.values|);
      hide Emit, Inline, FillPositional, FillNumbered, Slots, Range, InOrder;
      AgreementFixesSlots(e.tokens, e.values, 0);
      TextOrderIff(l, 0);
    }
  }

  lemma SlotsWithin(ts: Tokens, n: nat)
    requires Splices(ts, 0, n)
    ensures forall i | i in Slots(ts) :: i < n
  {
    forall i | i in Slots(ts)
      ensures i < n
    {
      assert i in multiset(Slots(ts)) && i in multiset(Range(0, n));
      assert i in Range(0, n);
    }
  }

  // ---- expressions --------------------------------------------------------------------------------------------

  function ComparisonText(op: ComparisonOp): string {
    match op
    case EQ => " = "
    case NE => " <> "
    case LT => " < "
    case LE => " <= "
    case GT => " > "
    case GE => " >= "
  }

  function ArithmeticText(op: ArithmeticOp): string {
    match op
    case ADD => " + "
    case SUB => " - "
    case MUL => " * "
    case DIV => " / "
  }

  function NotText(negated: bool): string {
    if negated then "NOT " else ""
  }

  function InText(negated: bool): string {
    " " + NotText(negated) + "IN ("
  }

  predicate Binds(v: Value) {
    !v.Null? && !v.Bool?
  }

  function LayValue(v: Value): Layout {
    if v.Null? then Raw("NULL") else if v.Bool? then Raw(if v.b then "TRUE" else "FALSE") else Bound(v)
  }

  function Framed(open: string, a: Layout, close: string): Layout {
    Then(Raw(open), Then(a, Raw(close)))
  }

  function Between(a: Layout, text: string, b: Layout): Layout {
    Then(a, Then(Raw(text), b))
  }

  function Around(f: Frame, a: Layout): Layout {
    if f == PLAIN then a else Framed(f.open, a, f.close)
  }

  function LayConstant(l: Lit, d: Dialect): Layout {
    Around(d.constants(l.dataType), LayValue(l.value))
  }

  /** Two operands with their text between them, each and all in their frames. */
  function LayPair(f: PairFrames, a: Layout, text: string, b: Layout): Layout {
    Around(f.whole, Between(Around(f.left, a), text, Around(f.right, b)))
  }

  /** The layout of an expression; `top` is where a projection may carry an alias. */
  function Lay(e: Expr, top: bool, params: Params, d: Dialect): Result<Layout, RenderError>
    decreases e, 1
  {
    match e
    case Column(n) => Success(Raw(Quote(n, d.quote)))
    case Literal(l) => Success(LayConstant(l, d))
    case Parameter(n) => if n in params then Success(LayConstant(params[n], d)) else Failure(MissingParameter(n))
    case Comparison(op, l, r) =>
      var a :- Lay(l, false, params, d);
      var b :- Lay(r, false, params, d);
      Success(LayPair(d.pairs(e, params), a, ComparisonText(op), b))
    case And(os) =>
      var all :- LayAll(os, " AND ", false, params, d);
      Success(Framed("(", all, ")"))
    case Or(os) =>
      var all :- LayAll(os, " OR ", false, params, d);
      Success(Framed("(", all, ")"))
    case Not(o) =>
      var a :- Lay(o, false, params, d);
      Success(Framed("(NOT ", a, ")"))
    case IsNull(o, negated) =>
      var a :- Lay(o, false, params, d);
      Success(Framed("(", a, " IS " + NotText(negated) + "NULL)"))
    case In(o, vs, negated) =>
      if d.operandFirst then
        var a :- Lay(o, false, params, d);
        var b :- LayAll(vs, ", ", false, params, d);
        Success(Framed("(", Between(a, InText(negated), b), "))"))
      else
        var b :- LayAll(vs, ", ", false, params, d);
        var a :- Lay(o, false, params, d);
        Success(Framed("(", After(Then(a, Raw(InText(negated))), b), "))"))
    case Like(o, p, negated) =>
      var a :- Lay(o, false, params, d);
      var b :- Lay(p, false, params, d);
      Success(LayPair(d.pairs(e, params), a, " " + NotText(negated) + d.likeOperator + " ", b))
    case Arithmetic(op, l, r) =>
      var a :- Lay(l, false, params, d);
      var b :- Lay(r, false, params, d);
      Success(LayPair(d.pairs(e, params), a, ArithmeticText(op), b))
    case Alias(i, n) =>
      if !top then Failure(MisplacedAlias)
      else
        var a :- Lay(i, false, params, d);
        Success(Then(a, Raw(" AS " + Quote(n, d.quote))))
  }

  function LayAll(es: seq<Expr>, separator: string, top: bool, params: Params, d: Dialect): Result<Layout, RenderError>
    decreases es, 0
  {
    if es == [] then Success(Raw(""))
    else
      var a :- Lay(es[0], top, params, d);
      if |es| == 1 then Success(a)
      else
        var rest :- LayAll(es[1..], separator, top, params, d);
        Success(Between(a, separator, rest))
  }

  predicate BindsNothing(nodes: seq<Expr>, params: Params) {
    forall n | n in nodes ::
      (n.Literal? ==> !Binds(n.lit.value)) && (n.Parameter? && n.name in params ==> !Binds(params[n.name].value))
  }

  lemma BindsNothingConcat(xs: seq<Expr>, ys: seq<Expr>, params: Params)
    ensures BindsNothing(xs + ys, params) <==> BindsNothing(xs, params) && BindsNothing(ys, params)
  {
    assert forall n :: n in xs + ys <==> n in xs || n in ys;
  }

  lemma NodeBindsNothing(e: Expr, params: Params)
    requires !e.Literal? && !e.Parameter?
    ensures BindsNothing([e], params)
  {
  }

  /** The nodes below the root. */
  function Below(e: Expr): (nodes: seq<Expr>)
    ensures Walk(e) == [e] + nodes
  {
    Walk(e)[1..]
  }

  lemma BindsBelow(e: Expr, params: Params)
    requires !e.Literal? && !e.Parameter?
    ensures BindsNothing(Walk(e), params) <==> BindsNothing(Below(e), params)
  {
    BindsNothingConcat([e], Below(e), params);
    NodeBindsNothing(e, params);
  }

  lemma FramedKeeps(open: string, a: Layout, close: string)
    ensures Bindless(Framed(open, a, close)) <==> Bindless(a)
    ensures InOrder(Framed(open, a, close)) <==> InOrder(a)
  {
    assert Bindless(Then(a, Raw(close))) <==> Bindless(a);
    assert InOrder(Then(a, Raw(close))) <==> InOrder(a);
  }

  lemma BetweenKeeps(a: Layout, text: string, b: Layout)
    ensures Bindless(Between(a, text, b)) <==> Bindless(a) && Bindless(b)
    ensures InOrder(Between(a, text, b)) <==> InOrder(a) && InOrder(b)
  {
    assert Bindless(Then(Raw(text), b)) <==> Bindless(b);
    assert InOrder(Then(Raw(text), b)) <==> InOrder(b);
  }

  lemma AroundKeeps(f: Frame, a: Layout)
    ensures Bindless(Around(f, a)) <==> Bindless(a)
    ensures InOrder(Around(f, a)) <==> InOrder(a)
  {
    FramedKeeps(f.open, a, f.close);
  }

  lemma PairKeeps(f: PairFrames, a: Layout, text: string, b: Layout)
    ensures Bindless(LayPair(f, a, text, b)) <==> Bindless(a) && Bindless(b)
    ensures InOrder(LayPair(f, a, text, b)) <==> InOrder(a) && InOrder(b)
  {
    hide Bindless, InOrder, Around, Between;
    AroundKeeps(f.left, a);
    AroundKeeps(f.right, b);
    BetweenKeeps(Around(f.left, a), text, Around(f.right, b));
    AroundKeeps(f.whole, Between(Around(f.left, a), text, Around(f.right, b)));
  }

  lemma ConstantKeeps(l: Lit, d: Dialect)
    ensures Bindless(LayConstant(l, d)) <==> !Binds(l.value)
    ensures InOrder(LayConstant(l, d))
  {
    AroundKeeps(d.constants(l.dataType), LayValue(l.value));
  }

  lemma AfterKeeps(a: Layout, text: string, b: Layout)
    ensures Bindless(After(Then(a, Raw(text)), b)) <==> Bindless(a) && Bindless(b)
    ensures InOrder(After(Then(a, Raw(text)), b)) <==> InOrder(a) && InOrder(b) && (Bindless(a) || Bindless(b))
  {
    assert Bindless(Then(a, Raw(text))) <==> Bindless(a);
    assert InOrder(Then(a, Raw(text))) <==> InOrder(a);
  }

  /** The operands of a pair node, and how its layout joins theirs. */
  predicate IsPair(e: Expr, l: Expr, r: Expr) {
    match e
    case Comparison(_, x, y) => l == x && r == y
    case Like(x, y, _) => l == x && r == y
    case Arithmetic(_, x, y) => l == x && r == y
    case _ => false
  }

  lemma PairLayout(e: Expr, l: Expr, r: Expr, top: bool, params: Params, d: Dialect)
    requires IsPair(e, l, r) && Lay(e, top, params, d).Success?
    ensures Lay(l, false, params, d).Success? && Lay(r, false, params, d).Success?
    ensures var x, a, b := Lay(e, top, params, d).value, Lay(l, false, params, d).value, Lay(r, false, params, d).value;
            && (Bindless(x) <==> Bindless(a) && Bindless(b))
            && (InOrder(x) <==> InOrder(a) && InOrder(b))
    ensures Below(e) == Walk(l) + Walk(r)
  {
    hide Bindless, InOrder, LayPair, Lay, Walk;
    PairStep(e, l, r, top, params, d);
    PairKeeps(d.pairs(e, params), Lay(l, false, params, d).value, PairText(e, d), Lay(r, false, params, d).value);
  }

  function PairText(e: Expr, d: Dialect): string
    requires e.Comparison? || e.Like? || e.Arithmetic?
  {
    match e
    case Comparison(op, _, _) => ComparisonText(op)
    case Like(_, _, negated) => " " + NotText(negated) + d.likeOperator + " "
    case Arithmetic(op, _, _) => ArithmeticText(op)
  }

  lemma PairStep(e: Expr, l: Expr, r: Expr, top: bool, params: Params, d: Dialect)
    requires IsPair(e, l, r)
    ensures var a, b := Lay(l, false, params, d), Lay(r, false, params, d);
            Lay(e, top, params, d)
            == if a.Failure? then a else if b.Failure? then b
               else Success(LayPair(d.pairs(e, params), a.value, PairText(e, d), b.value))
    ensures Below(e) == Walk(l) + Walk(r)
  {
    hide LayPair, ComparisonText, ArithmeticText, NotText;
  }

  lemma InLayout(e: Expr, top: bool, params: Params, d: Dialect)
    requires e.In? && Lay(e, top, params, d).Success?
    ensures Lay(e.operand, false, params, d).Success? && LayAll(e.values, ", ", false, params, d).Success?
    ensures var x, a := Lay(e, top, params, d).value, Lay(e.operand, false, params, d).value;
            var b := LayAll(e.values, ", ", false, params, d).value;
            && (Bindless(x) <==> Bindless(a) && Bindless(b))
            && (InOrder(x) <==> InOrder(a) && InOrder(b) && (d.operandFirst || Bindless(a) || Bindless(b)))
    ensures Below(e) == Walk(e.operand) + WalkAll(e.values)
  {
    hide Bindless, InOrder, Framed, Between, Quote;
    var a, b := Lay(e.operand, false, params, d).value, LayAll(e.values, ", ", false, params, d).value;
    var middle := InText(e.negated);
    BetweenKeeps(a, middle, b);
    AfterKeeps(a, middle, b);
    var body := if d.operandFirst then Between(a, middle, b) else After(Then(a, Raw(middle)), b);
    FramedKeeps("(", body, "))");
    assert Lay(e, top, params, d).value == Framed("(", body, "))");
  }

  lemma ListLayout(e: Expr, top: bool, params: Params, d: Dialect)
    requires (e.And? || e.Or?) && Lay(e, top, params, d).Success?
    ensures var separator := if e.And? then " AND " else " OR ";
            && LayAll(e.operands, separator, false, params, d).Success?
            && var x, all := Lay(e, top, params, d).value, LayAll(e.operands, separator, false, params, d).value;
            && (Bindless(x) <==> Bindless(all))
            && (InOrder(x) <==> InOrder(all))
    ensures Below(e) == WalkAll(e.operands)
  {
    hide Bindless, InOrder, Framed;
    FramedKeeps("(", LayAll(e.operands, if e.And? then " AND " else " OR ", false, params, d).value, ")");
  }

  predicate IsUnary(e: Expr, o: Expr) {
    match e
    case Not(x) => o == x
    case IsNull(x, _) => o == x
    case Alias(x, _) => o == x
    case _ => false
  }

  lemma UnaryLayout(e: Expr, o: Expr, top: bool, params: Params, d: Dialect)
    requires IsUnary(e, o) && Lay(e, top, params, d).Success?
    ensures Lay(o, false, params, d).Success?
    ensures var x, a := Lay(e, top, params, d).value, Lay(o, false, params, d).value;
            (Bindless(x) <==> Bindless(a)) && (InOrder(x) <==> InOrder(a))
    ensures Below(e) == Walk(o)
  {
    hide Framed, Quote;
    var a := Lay(o, false, params, d).value;
    match e
    case Not(_) => FramedKeeps("(NOT ", a, ")");
    case IsNull(_, negated) => FramedKeeps("(", a, " IS " + NotText(negated) + "NULL)");
    case Alias(_, n) => assert Bindless(Raw(" AS " + Quote(n, d.quote))) && InOrder(Raw(" AS " + Quote(n, d.quote)));
  }

  lemma BindlessConstant(e: Expr, top: bool, params: Params, d: Dialect)
    requires Constant(e) && Lay(e, top, params, d).Success?
    ensures Bindless(Lay(e, top, params, d).value) <==> BindsNothing(Walk(e), params)
    ensures InOrder(Lay(e, top, params, d).value) && MembersOrdered(Walk(e), params)
  {
    assert Walk(e) == [e] && e in [e];
    ConstantKeeps(if e.Literal? then e.lit else params[e.name], d);
    hide LayConstant, Bindless, InOrder;
  }

  lemma {:induction false} BindlessExpression(e: Expr, top: bool, params: Params, d: Dialect)
    requires Lay(e, top, params, d).Success?
    ensures Bindless(Lay(e, top, params, d).value) <==> BindsNothing(Walk(e), params)
    decreases e, 1
  {
    match e
    case Column(_) => assert Walk(e) == [e];
    case Literal(_) => BindlessConstant(e, top, params, d);
    case Parameter(_) => BindlessConstant(e, top, params, d);
    case Comparison(_, l, r) => BindlessPair(e, l, r, top, params, d);
    case Like(l, r, _) => BindlessPair(e, l, r, top, params, d);
    case Arithmetic(_, l, r) => BindlessPair(e, l, r, top, params, d);
    case And(os) => BindlessList(e, top, params, d);
    case Or(os) => BindlessList(e, top, params, d);
    case Not(o) => BindlessUnary(e, o, top, params, d);
    case IsNull(o, _) => BindlessUnary(e, o, top, params, d);
    case Alias(o, _) => BindlessUnary(e, o, top, params, d);
    case In(o, vs, _) =>
      hide BindsNothing, Bindless, Lay, LayAll, Walk, WalkAll;
      InLayout(e, top, params, d);
      BindsBelow(e, params);
      BindsNothingConcat(Walk(o), WalkAll(vs), params);
      BindlessExpression(o, false, params, d);
      BindlessExpressions(vs, ", ", false, params, d);
  }

  lemma BindlessPair(e: Expr, l: Expr, r: Expr, top: bool, params: Params, d: Dialect)
    requires IsPair(e, l, r) && Lay(e, top, params, d).Success?
    ensures Bindless(Lay(e, top, params, d).value) <==> BindsNothing(Walk(e), params)
    decreases e, 0
  {
    hide BindsNothing, Bindless, Lay, LayAll, Walk, WalkAll;
    PairLayout(e, l, r, top, params, d);
    BindsBelow(e, params);
    BindsNothingConcat(Walk(l), Walk(r), params);
    BindlessExpression(l, false, params, d);
    BindlessExpression(r, false, params, d);
  }

  lemma BindlessUnary(e: Expr, o: Expr, top: bool, params: Params, d: Dialect)
    requires IsUnary(e, o) && Lay(e, top, params, d).Success?
    ensures Bindless(Lay(e, top, params, d).value) <==> BindsNothing(Walk(e), params)
    decreases e, 0
  {
    hide BindsNothing, Bindless, Lay, LayAll, Walk, WalkAll;
    UnaryLayout(e, o, top, params, d);
    BindsBelow(e, params);
    BindlessExpression(o, false, params, d);
  }

  lemma BindlessList(e: Expr, top: bool, params: Params, d: Dialect)
    requires (e.And? || e.Or?) && Lay(e, top, params, d).Success?
    ensures Bindless(Lay(e, top, params, d).value) <==> BindsNothing(Walk(e), params)
    decreases e, 0
  {
    hide BindsNothing, Bindless, Lay, LayAll, Walk, WalkAll;
    ListLayout(e, top, params, d);
    BindsBelow(e, params);
    BindlessExpressions(e.operands, if e.And? then " AND " else " OR ", false, params, d);
  }

  lemma {:induction false} BindlessExpressions(es: seq<Expr>, separator: string, top: bool, params: Params, d: Dialect)
    requires LayAll(es, separator, top, params, d).Success?
    ensures Bindless(LayAll(es, separator, top, params, d).value) <==> BindsNothing(WalkAll(es), params)
    decreases es, 0
  {
    if es != [] {
      hide BindsNothing, Bindless, Lay, Walk, Between;
      assert WalkAll(es) == Walk(es[0]) + WalkAll(es[1..]);
      BindsNothingConcat(Walk(es[0]), WalkAll(es[1..]), params);
      BindlessExpression(es[0], top, params, d);
      if |es| > 1 {
        BetweenKeeps(Lay(es[0], top, params, d).value, separator, LayAll(es[1..], separator, top, params, d).value);
        BindlessExpressions(es[1..], separator, top, params, d);
      } else {
        assert WalkAll(es[1..]) == [];
        NoNodesBindNothing(params);
      }
    }
  }

  lemma NoNodesBindNothing(params: Params)
    ensures BindsNothing([], params) && MembersOrdered([], params)
  {
  }

  /** No IN among the nodes binds a value in its operand and another in its list. */
  predicate MembersOrdered(nodes: seq<Expr>, params: Params) {
    forall n | n in nodes && n.In? :: BindsNothing(Walk(n.operand), params) || BindsNothing(WalkAll(n.values), params)
  }

  lemma MembersOrderedConcat(xs: seq<Expr>, ys: seq<Expr>, params: Params)
    ensures MembersOrdered(xs + ys, params) <==> MembersOrdered(xs, params) && MembersOrdered(ys, params)
  {
    hide BindsNothing;
    assert forall n :: n in xs + ys <==> n in xs || n in ys;
  }

  lemma MembersBelow(e: Expr, params: Params)
    ensures MembersOrdered(Walk(e), params)
            <==> MembersOrdered(Below(e), params)
                 && (e.In? ==> BindsNothing(Walk(e.operand), params) || BindsNothing(WalkAll(e.values), params))
  {
    hide BindsNothing;
    MembersOrderedConcat([e], Below(e), params);
  }

  /** An expression's values are appended in text order exactly when every IN is well placed. */
  lemma {:induction false} ExpressionInOrderIff(e: Expr, top: bool, params: Params, d: Dialect)
    requires Lay(e, top, params, d).Success?
    ensures InOrder(Lay(e, top, params, d).value) <==> d.operandFirst || MembersOrdered(Walk(e), params)
    decreases e, 1
  {
    match e
    case Column(_) => assert Walk(e) == [e];
    case Literal(_) => BindlessConstant(e, top, params, d);
    case Parameter(_) => BindlessConstant(e, top, params, d);
    case Comparison(_, l, r) => PairInOrderIff(e, l, r, top, params, d);
    case Like(l, r, _) => PairInOrderIff(e, l, r, top, params, d);
    case Arithmetic(_, l, r) => PairInOrderIff(e, l, r, top, params, d);
    case And(os) => ListInOrderIff(e, top, params, d);
    case Or(os) => ListInOrderIff(e, top, params, d);
    case Not(o) => UnaryInOrderIff(e, o, top, params, d);
    case IsNull(o, _) => UnaryInOrderIff(e, o, top, params, d);
    case Alias(o, _) => UnaryInOrderIff(e, o, top, params, d);
    case In(o, vs, _) =>
      hide MembersOrdered, BindsNothing, Bindless, InOrder, Lay, LayAll, Walk, WalkAll;
      InLayout(e, top, params, d);
      MembersBelow(e, params);
      MembersOrderedConcat(Walk(o), WalkAll(vs), params);
      BindlessExpression(o, false, params, d);
      BindlessExpressions(vs, ", ", false, params, d);
      ExpressionInOrderIff(o, false, params, d);
      ExpressionsInOrderIff(vs, ", ", false, params, d);
  }

  lemma PairInOrderIff(e: Expr, l: Expr, r: Expr, top: bool, params: Params, d: Dialect)
    requires IsPair(e, l, r) && Lay(e, top, params, d).Success?
    ensures InOrder(Lay(e, top, params, d).value) <==> d.operandFirst || MembersOrdered(Walk(e), params)
    decreases e, 0
  {
    hide MembersOrdered, BindsNothing, Bindless, InOrder, Lay, LayAll, Walk, WalkAll;
    PairLayout(e, l, r, top, params, d);
    MembersBelow(e, params);
    MembersOrderedConcat(Walk(l), Walk(r), params);
    ExpressionInOrderIff(l, false, params, d);
    ExpressionInOrderIff(r, false, params, d);
  }

  lemma UnaryInOrderIff(e: Expr, o: Expr, top: bool, params: Params, d: Dialect)
    requires IsUnary(e, o) && Lay(e, top, params, d).Success?
    ensures InOrder(Lay(e, top, params, d).value) <==> d.operandFirst || MembersOrdered(Walk(e), params)
    decreases e, 0
  {
    hide MembersOrdered, BindsNothing, Bindless, InOrder, Lay, LayAll, Walk, WalkAll;
    UnaryLayout(e, o, top, params, d);
    MembersBelow(e, params);
    ExpressionInOrderIff(o, false, params, d);
  }

  lemma ListInOrderIff(e: Expr, top: bool, params: Params, d: Dialect)
    requires (e.And? || e.Or?) && Lay(e, top, params, d).Success?
    ensures InOrder(Lay(e, top, params, d).value) <==> d.operandFirst || MembersOrdered(Walk(e), params)
    decreases e, 0
  {
    hide MembersOrdered, BindsNothing, Bindless, InOrder, Lay, LayAll, Walk, WalkAll;
    ListLayout(e, top, params, d);
    MembersBelow(e, params);
    ExpressionsInOrderIff(e.operands, if e.And? then " AND " else " OR ", false, params, d);
  }

  lemma {:induction false} ExpressionsInOrderIff(es: seq<Expr>, separator: string, top: bool, params: Params, d: Dialect)
    requires LayAll(es, separator, top, params, d).Success?
    ensures InOrder(LayAll(es, separator, top, params, d).value) <==> d.operandFirst || MembersOrdered(WalkAll(es), params)
    decreases es, 0
  {
    if es == [] {
      NoNodesBindNothing(params);
    } else {
      hide MembersOrdered, BindsNothing, Bindless, InOrder, Lay, Walk, Between;
      assert WalkAll(es) == Walk(es[0]) + WalkAll(es[1..]);
      MembersOrderedConcat(Walk(es[0]), WalkAll(es[1..]), params);
      ExpressionInOrderIff(es[0], top, params, d);
      if |es| > 1 {
        BetweenKeeps(Lay(es[0], top, params, d).value, separator, LayAll(es[1..], separator, top, params, d).value);
        ExpressionsInOrderIff(es[1..], separator, top, params, d);
      } else {
        assert WalkAll(es[1..]) == [];
        NoNodesBindNothing(params);
      }
    }
  }

  /** The layout of `x IN (y, z)` over three bound constants, its list rendered first. */
  function ListFirst(x: Value, y: Value, z: Value): Layout {
    Framed("(", After(Then(Bound(x), Raw(" IN (")), Between(Bound(y), ", ", Bound(z))), "))")
  }

  lemma ListFirstTokens(x: Value, y: Value, z: Value)
    ensures Emit(ListFirst(x, y, z), 0).values == [y, z, x]
    ensures Emit(ListFirst(x, y, z), 0).tokens
            == [Sql("("), Slot(2), Sql(" IN ("), Slot(0), Sql(", "), Slot(1), Sql("))")]
    ensures Inline(ListFirst(x, y, z))
            == [Sql("("), Spliced(x), Sql(" IN ("), Spliced(y), Sql(", "), Spliced(z), Sql("))")]
  {
    var list, test := Between(Bound(y), ", ", Bound(z)), Then(Bound(x), Raw(" IN ("));
    ListTokens(y, z);
    TestTokens(x);
    FramedEmits("(", After(test, list), "))");
    assert Emit(After(test, list), 0)
        == Emitted(Emit(test, 2).tokens + Emit(list, 0).tokens, Emit(list, 0).values + Emit(test, 2).values);
    assert Inline(After(test, list)) == Inline(test) + Inline(list);
    hide Emit, Inline;
  }

  lemma ListTokens(y: Value, z: Value)
    ensures Emit(Between(Bound(y), ", ", Bound(z)), 0) == Emitted([Slot(0), Sql(", "), Slot(1)], [y, z])
    ensures Inline(Between(Bound(y), ", ", Bound(z))) == [Spliced(y), Sql(", "), Spliced(z)]
  {
    var tail := Then(Raw(", "), Bound(z));
    assert Emit(tail, 1) == Emitted([Sql(", ")] + [Slot(1)], [] + [z]);
    assert Inline(tail) == [Sql(", ")] + [Spliced(z)];
    assert Emit(Then(Bound(y), tail), 0) == Emitted([Slot(0)] + Emit(tail, 1).tokens, [y] + Emit(tail, 1).values);
    assert Inline(Then(Bound(y), tail)) == [Spliced(y)] + Inline(tail);
    hide Emit, Inline;
  }

  lemma TestTokens(x: Value)
    ensures Emit(Then(Bound(x), Raw(" IN (")), 2) == Emitted([Slot(2), Sql(" IN (")], [x])
    ensures Inline(Then(Bound(x), Raw(" IN ("))) == [Spliced(x), Sql(" IN (")]
  {
    assert [x] + [] == [x];
  }

  lemma FramedEmits(open: string, a: Layout, close: string)
    ensures Emit(Framed(open, a, close), 0).values == Emit(a, 0).values
    ensures Emit(Framed(open, a, close), 0).tokens == [Sql(open)] + Emit(a, 0).tokens + [Sql(close)]
    ensures Inline(Framed(open, a, close)) == [Sql(open)] + Inline(a) + [Sql(close)]
  {
    var inner, e := Then(a, Raw(close)), Emit(a, 0);
    assert Emit(inner, 0) == Emitted(e.tokens + [Sql(close)], e.values + []);
    assert Emit(Then(Raw(open), inner), 0) == Emitted([Sql(open)] + Emit(inner, 0).tokens, [] + Emit(inner, 0).values);
    assert Inline(inner) == Inline(a) + [Sql(close)];
    assert Inline(Then(Raw(open), inner)) == [Sql(open)] + Inline(inner);
    hide Emit, Inline;
    Associates([Sql(open)], e.tokens, [Sql(close)]);
    Associates([Sql(open)], Inline(a), [Sql(close)]);
    assert [] + (e.values + []) == e.values;
  }

  /** Read by position, `x IN (y, z)` so rendered is the statement of `y IN (z, x)`. */
  lemma MembersTradePlaces(x: Value, y: Value, z: Value)
    ensures var e := Emit(ListFirst(x, y, z), 0);
            FillPositional(e.tokens, e.values, 0) == Inline(ListFirst(y, z, x))
  {
    hide Emit, Inline, ListFirst, FillPositional;
    ListFirstTokens(x, y, z);
    ListFirstTokens(y, z, x);
    ThreeFilled(Sql("("), 2, Sql(" IN ("), 0, Sql(", "), 1, Sql("))"), y, z, x);
  }

  lemma ThreeFilled(a: Token, i: nat, b: Token, j: nat, c: Token, k: nat, d: Token, x: Value, y: Value, z: Value)
    requires !a.Slot? && !b.Slot? && !c.Slot? && !d.Slot?
    ensures FillPositional([a, Slot(i), b, Slot(j), c, Slot(k), d], [x, y, z], 0)
            == [a, Spliced(x), b, Spliced(y), c, Spliced(z), d]
  {
    hide FillPositional;
    var values := [x, y, z];
    TextFilled(d, values, 3);
    TextSlotFilled(c, k, [d], values, 2);
    TextSlotFilled(b, j, [c, Slot(k), d], values, 1);
    TextSlotFilled(a, i, [b, Slot(j), c, Slot(k), d], values, 0);
    assert [c, Slot(k)] + [d] == [c, Slot(k), d];
    assert [b, Slot(j)] + [c, Slot(k), d] == [b, Slot(j), c, Slot(k), d];
    assert [a, Slot(i)] + [b, Slot(j), c, Slot(k), d] == [a, Slot(i), b, Slot(j), c, Slot(k), d];
  }

  lemma TextFilled(t: Token, values: seq<Value>, next: nat)
    requires !t.Slot?
    ensures FillPositional([t], values, next) == [t]
  {
    assert [t][1..] == [];
  }

  lemma TextSlotFilled(t: Token, i: nat, rest: Tokens, values: seq<Value>, next: nat)
    requires !t.Slot? && next < |values|
    ensures FillPositional([t, Slot(i)] + rest, values, next)
            == [t, Spliced(values[next])] + FillPositional(rest, values, next + 1)
  {
    var ts := [t, Slot(i)] + rest;
    assert ts[1..] == [Slot(i)] + rest && ts[1..][1..] == rest;
  }

  function Whole(i: int): Expr {
    Literal(Lit(Int(i), Types.IntegerType(64)))
  }

  lemma SwappedIsMembership(x: int, y: int, z: int, d: Dialect)
    requires !d.operandFirst && d.constants(Types.IntegerType(64)) == PLAIN
    ensures Lay(In(Whole(x), [Whole(y), Whole(z)], false), false, map[], d) == Success(ListFirst(Int(x), Int(y), Int(z)))
  {
    var members := [Whole(y), Whole(z)];
    assert Lay(Whole(x), false, map[], d) == Success(Bound(Int(x)));
    assert members[1..] == [Whole(z)];
    assert LayAll([Whole(z)], ", ", false, map[], d) == Success(Bound(Int(z)));
    assert LayAll(members, ", ", false, map[], d) == Success(Between(Bound(Int(y)), ", ", Bound(Int(z))));
    assert InText(false) == " IN (";
    hide Lay, LayAll;
    InStep(In(Whole(x), members, false), false, map[], d);
  }

  /**
   Without arithmetic, so of the kinds pushed to PostgreSQL: `5 IN (6, 5)` is TRUE, yet what its driver
   reads is the statement of `6 IN (5, 5)`, which is FALSE.
   */
  lemma SwapChangesTheAnswer(row: Row)
    ensures var d := POSTGRES;
            var asked, read := In(Whole(5), [Whole(6), Whole(5)], false), In(Whole(6), [Whole(5), Whole(5)], false);
            && WellFormed(asked) && (forall n | n in Walk(asked) :: KindOf(n) in {InKind, LiteralKind})
            && Lay(asked, false, map[], d).Success? && Lay(read, false, map[], d).Success?
            && var e := Emit(Lay(asked, false, map[], d).value, 0);
            && FillPositional(e.tokens, e.values, 0) == Inline(Lay(read, false, map[], d).value)
            && Eval(asked, row, map[]) == TRUE && Eval(read, row, map[]) == FALSE
  {
    SwappedIsMembership(5, 6, 5, POSTGRES);
    SwappedIsMembership(6, 5, 5, POSTGRES);
    MembersTradePlaces(Int(5), Int(6), Int(5));
    hide Lay, Emit, Inline, FillPositional;
    WholeMembership(5, 6, 5, row);
    WholeMembership(6, 5, 5, row);
  }

  lemma WholeMembership(x: int, y: int, z: int, row: Row)
    requires FitsInt64(x) && FitsInt64(y) && FitsInt64(z)
    ensures var e := In(Whole(x), [Whole(y), Whole(z)], false);
            && Eval(e, row, map[]) == Bool(x == y || x == z)
            && WellFormed(e) && forall n | n in Walk(e) :: KindOf(n) in {InKind, LiteralKind}
  {
    var members := [Whole(y), Whole(z)];
    var e := In(Whole(x), members, false);
    assert members[1..] == [Whole(z)] && [Whole(z)][1..] == [];
    assert EvalAll([Whole(z)], row, map[]) == [Int(z)];
    assert EvalAll(members, row, map[]) == [Int(y), Int(z)];
    assert Member3(Int(x), [Int(z)]) == Bool(x == z);
    assert Member3(Int(x), [Int(y), Int(z)]) == Bool(x == y || x == z);
    WholeIsWellFormed(x);
    WholeIsWellFormed(y);
    WholeIsWellFormed(z);
    assert AllWellFormed([]) && AllWellFormed([Whole(z)]) && AllWellFormed(members);
    assert WalkAll([]) == [] && WalkAll([Whole(z)]) == [Whole(z)] + [] && WalkAll(members) == [Whole(y)] + WalkAll([Whole(z)]);
    assert Walk(e) == [e] + (Walk(Whole(x)) + WalkAll(members));
  }

  lemma WholeIsWellFormed(i: int)
    requires FitsInt64(i)
    ensures WellFormed(Whole(i)) && Walk(Whole(i)) == [Whole(i)]
  {
    Types.Pow2Widths();
  }

  // ---- statements ------------------------------------------------------------------------------------------------

  function Opened(text: string, rest: Option<Layout>): Layout {
    if rest.None? then Raw(text) else Then(Raw(text), rest.value)
  }

  function LayColumns(columns: seq<string>, d: Dialect): Layout {
    if columns == [] then Raw("*")
    else if |columns| == 1 then Raw(Quote(columns[0], d.quote))
    else Between(Raw(Quote(columns[0], d.quote)), ", ", LayColumns(columns[1..], d))
  }

  /** The operations of one SELECT: a projection wins over plain columns; neither selects everything. */
  datatype Selection = Selection(
    columns: Option<seq<string>>, projection: Option<seq<Expr>>, condition: Option<Expr>, limit: Option<nat>)

  function LayList(q: Selection, params: Params, d: Dialect): Result<Layout, RenderError> {
    if q.projection.Some? then LayAll(q.projection.value, ", ", true, params, d)
    else Success(if q.columns.Some? then LayColumns(q.columns.value, d) else Raw("*"))
  }

  function LayWhere(q: Selection, params: Params, d: Dialect): Result<Layout, RenderError> {
    if q.condition.None? then Success(Raw(""))
    else
      var a :- Lay(q.condition.value, false, params, d);
      Success(Then(Raw(" WHERE "), a))
  }

  function LayLimit(q: Selection): Layout {
    if q.limit.None? then Raw("") else Then(Raw(" LIMIT "), Bound(Int(q.limit.value)))
  }

  /** `SELECT list FROM relation WHERE ... LIMIT ...`, the relation having been rendered first. */
  function LaySelect(q: Selection, relation: Layout, params: Params, d: Dialect): Result<Layout, RenderError> {
    var items :- LayList(q, params, d);
    var condition :- LayWhere(q, params, d);
    Success(Then(After(Framed("SELECT ", items, " FROM "), relation), Then(condition, LayLimit(q))))
  }

  predicate ExpressionsOrdered(q: Selection, params: Params) {
    && (q.projection.Some? ==> MembersOrdered(WalkAll(q.projection.value), params))
    && (q.condition.Some? ==> MembersOrdered(Walk(q.condition.value), params))
  }

  lemma {:induction false} ColumnsBindNothing(columns: seq<string>, d: Dialect)
    ensures Bindless(LayColumns(columns, d)) && InOrder(LayColumns(columns, d))
  {
    if |columns| > 1 {
      ColumnsBindNothing(columns[1..], d);
      BetweenKeeps(Raw(Quote(columns[0], d.quote)), ", ", LayColumns(columns[1..], d));
    }
  }

  lemma SelectParts(items: Layout, relation: Layout, condition: Layout, limit: Layout)
    ensures InOrder(Then(After(Framed("SELECT ", items, " FROM "), relation), Then(condition, limit)))
            <==> InOrder(items) && InOrder(relation) && (Bindless(items) || Bindless(relation)) && InOrder(condition) && InOrder(limit)
  {
    FramedKeeps("SELECT ", items, " FROM ");
    hide Framed;
    assert InOrder(Then(condition, limit)) <==> InOrder(condition) && InOrder(limit);
    var source := After(Framed("SELECT ", items, " FROM "), relation);
    assert InOrder(source) <==> InOrder(items) && InOrder(relation) && (Bindless(items) || Bindless(relation));
  }

  /** A statement over a named relation is in text order exactly when its IN tests are well placed. */
  lemma StatementInOrderIff(q: Selection, relation: string, params: Params, d: Dialect)
    requires LaySelect(q, Raw(relation), params, d).Success?
    ensures InOrder(LaySelect(q, Raw(relation), params, d).value) <==> d.operandFirst || ExpressionsOrdered(q, params)
  {
    hide InOrder, Bindless, Lay, LayAll, MembersOrdered;
    var items, condition := LayList(q, params, d).value, LayWhere(q, params, d).value;
    SelectParts(items, Raw(relation), condition, LayLimit(q));
    RawInOrder(relation);
    RawInOrder("");
    RawInOrder("*");
    LimitInOrder(q);
    if q.projection.Some? {
      ExpressionsInOrderIff(q.projection.value, ", ", true, params, d);
    } else if q.columns.Some? {
      ColumnsBindNothing(q.columns.value, d);
    }
    if q.condition.Some? {
      var a := Lay(q.condition.value, false, params, d).value;
      ExpressionInOrderIff(q.condition.value, false, params, d);
      InOrderThen(Raw(" WHERE "), a);
      RawInOrder(" WHERE ");
    }
  }

  lemma RawInOrder(text: string)
    ensures InOrder(Raw(text)) && Bindless(Raw(text))
  {
  }

  lemma InOrderThen(a: Layout, b: Layout)
    ensures InOrder(Then(a, b)) <==> InOrder(a) && InOrder(b)
  {
  }

  lemma LimitInOrder(q: Selection)
    ensures InOrder(LayLimit(q))
  {
  }

  /**
   The engine's statement: the scan's SELECT as a subquery of the residual one, on one generator, and the
   whole inside a SELECT that casts a projection to its output types.
   */
  function LayNested(
    inner: Selection, relation: string, outer: Selection, outputs: Frame, params: Params, d: Dialect): Result<Layout, RenderError>
  {
    var scan :- LaySelect(inner, Raw(relation), params, d);
    var sql :- LaySelect(outer, Framed("(", scan, ")"), params, d);
    Success(if outer.projection.Some? then Around(outputs, sql) else sql)
  }

  // ---- the generator --------------------------------------------------------------------------------------------

  /** Rendering a layout turned the list from `before` to `after` and gave this text, or failed. */
  predicate Renders(before: seq<Value>, after: seq<Value>, r: Result<Tokens, RenderError>, layout: Result<Layout, RenderError>) {
    && before <= after
    && (r.Success? <==> layout.Success?)
    && (r.Success? ==> r.value == Emit(layout.value, |before|).tokens && after == before + Emit(layout.value, |before|).values)
    && (r.Failure? ==> r.error == layout.error)
  }

  lemma RendersRaw(values: seq<Value>, text: string)
    ensures Renders(values, values, Success([Sql(text)]), Success(Raw(text)))
  {
  }

  lemma RendersThen(v0: seq<Value>, v1: seq<Value>, v2: seq<Value>, x: Tokens, y: Tokens, a: Layout, b: Layout)
    requires Renders(v0, v1, Success(x), Success(a)) && Renders(v1, v2, Success(y), Success(b))
    ensures Renders(v0, v2, Success(x + y), Success(Then(a, b)))
  {
  }

  lemma RendersAfter(v0: seq<Value>, v1: seq<Value>, v2: seq<Value>, x: Tokens, y: Tokens, a: Layout, b: Layout)
    requires Renders(v0, v1, Success(y), Success(b)) && Renders(v1, v2, Success(x), Success(a))
    ensures Renders(v0, v2, Success(x + y), Success(After(a, b)))
  {
  }

  lemma RendersFramed(v0: seq<Value>, v1: seq<Value>, open: string, x: Tokens, close: string, a: Layout)
    requires Renders(v0, v1, Success(x), Success(a))
    ensures Renders(v0, v1, Success([Sql(open)] + (x + [Sql(close)])), Success(Framed(open, a, close)))
  {
    hide Renders;
    RendersRaw(v0, open);
    RendersRaw(v1, close);
    RendersThen(v0, v1, v1, x, [Sql(close)], a, Raw(close));
    RendersThen(v0, v0, v1, [Sql(open)], x + [Sql(close)], Raw(open), Then(a, Raw(close)));
  }

  lemma RendersBetween(v0: seq<Value>, v1: seq<Value>, v2: seq<Value>, x: Tokens, text: string, y: Tokens, a: Layout, b: Layout)
    requires Renders(v0, v1, Success(x), Success(a)) && Renders(v1, v2, Success(y), Success(b))
    ensures Renders(v0, v2, Success(x + ([Sql(text)] + y)), Success(Between(a, text, b)))
  {
    hide Renders;
    RendersRaw(v1, text);
    RendersThen(v1, v1, v2, [Sql(text)], y, Raw(text), b);
    RendersThen(v0, v1, v2, x, [Sql(text)] + y, a, Then(Raw(text), b));
  }

  function InFrame(f: Frame, x: Tokens): Tokens {
    if f == PLAIN then x else [Sql(f.open)] + (x + [Sql(f.close)])
  }

  lemma RendersAround(v0: seq<Value>, v1: seq<Value>, f: Frame, x: Tokens, a: Layout)
    requires Renders(v0, v1, Success(x), Success(a))
    ensures Renders(v0, v1, Success(InFrame(f, x)), Success(Around(f, a)))
  {
    RendersFramed(v0, v1, f.open, x, f.close, a);
    hide Renders, Framed;
  }

  lemma RendersPair(
    v0: seq<Value>, v1: seq<Value>, v2: seq<Value>, f: PairFrames, x: Tokens, text: string, y: Tokens, a: Layout, b: Layout)
    requires Renders(v0, v1, Success(x), Success(a)) && Renders(v1, v2, Success(y), Success(b))
    ensures Renders(
              v0, v2, Success(InFrame(f.whole, InFrame(f.left, x) + ([Sql(text)] + InFrame(f.right, y)))),
              Success(LayPair(f, a, text, b)))
  {
    hide Renders, InFrame, Around, Between;
    var left, right := InFrame(f.left, x), InFrame(f.right, y);
    RendersAround(v0, v1, f.left, x, a);
    RendersAround(v1, v2, f.right, y, b);
    RendersBetween(v0, v1, v2, left, text, right, Around(f.left, a), Around(f.right, b));
    RendersAround(v0, v2, f.whole, left + ([Sql(text)] + right), Between(Around(f.left, a), text, Around(f.right, b)));
  }

  lemma RenderingFails(v0: seq<Value>, v1: seq<Value>, v2: seq<Value>, x: Result<Tokens, RenderError>, a: Result<Layout, RenderError>,
    error: RenderError, b: Result<Layout, RenderError>)
    requires Renders(v0, v1, x, a) && Renders(v1, v2, Failure(error), b)
    ensures Renders(v0, v2, Failure(error), b) && b == Failure(error)
  {
  }

  lemma RenderingStops(values: seq<Value>, error: RenderError)
    ensures Renders(values, values, Failure(error), Failure(error))
  {
  }

  lemma RenderedTogether(before: seq<Value>, after: seq<Value>, r: Result<Tokens, RenderError>, layout: Result<Layout, RenderError>)
    requires Renders(before, after, r, layout)
    ensures r.Success? <==> layout.Success?
    ensures r.Failure? ==> r.error == layout.error
  {
  }

  lemma UnaryStep(e: Expr, o: Expr, top: bool, params: Params, d: Dialect)
    requires e.Not? || e.IsNull?
    requires o == e.operand
    ensures var a := Lay(o, false, params, d);
            Lay(e, top, params, d) == if a.Failure? then a else Success(Framed(UnaryOpen(e), a.value, UnaryClose(e)))
  {
    hide Framed;
  }

  function UnaryOpen(e: Expr): string {
    if e.Not? then "(NOT " else "("
  }

  function UnaryClose(e: Expr): string {
    if e.IsNull? then " IS " + NotText(e.negated) + "NULL)" else ")"
  }

  lemma InStep(e: Expr, top: bool, params: Params, d: Dialect)
    requires e.In?
    ensures var a, b := Lay(e.operand, false, params, d), LayAll(e.values, ", ", false, params, d);
            Lay(e, top, params, d)
            == if d.operandFirst then
                 if a.Failure? then a else if b.Failure? then b
                 else Success(Framed("(", Between(a.value, InText(e.negated), b.value), "))"))
               else
                 if b.Failure? then b else if a.Failure? then a
                 else Success(Framed("(", After(Then(a.value, Raw(InText(e.negated))), b.value), "))"))
  {
    hide Framed, Between, InText;
  }

  lemma ListStep(es: seq<Expr>, separator: string, top: bool, params: Params, d: Dialect)
    requires |es| > 1
    ensures var a, b := Lay(es[0], top, params, d), LayAll(es[1..], separator, top, params, d);
            LayAll(es, separator, top, params, d)
            == if a.Failure? then a else if b.Failure? then b else Success(Between(a.value, separator, b.value))
  {
    hide Between, Lay;
  }

  class SqlGenerator {
    const dialect: Dialect
    const parameters: Params
    var values: seq<Value>

    constructor (dialect: Dialect, parameters: Params)
      ensures this.dialect == dialect && this.parameters == parameters && values == []
    {
      this.dialect, this.parameters, values := dialect, parameters, [];
    }

    method Bind(value: Value) returns (r: Tokens)
      modifies this`values
      ensures r == [Slot(|old(values)|)] && values == old(values) + [value]
    {
      r := [Slot(|values|)];
      values := values + [value];
    }

    method ValueText(value: Value) returns (r: Tokens)
      modifies this`values
      ensures Renders(old(values), values, Success(r), Success(LayValue(value)))
    {
      if value.Null? {
        r := [Sql("NULL")];
      } else if value.Bool? {
        r := [Sql(if value.b then "TRUE" else "FALSE")];
      } else {
        r := Bind(value);
      }
    }

    method LiteralText(l: Lit) returns (r: Result<Tokens, RenderError>)
      modifies this`values
      ensures Renders(old(values), values, r, Success(LayConstant(l, dialect)))
    {
      hide Renders, LayValue, Around;
      ghost var v0 := values;
      var value := ValueText(l.value);
      RendersAround(v0, values, dialect.constants(l.dataType), value, LayValue(l.value));
      r := Success(InFrame(dialect.constants(l.dataType), value));
    }

    method PairExpression(e: Expr, l: Expr, r: Expr) returns (out: Result<Tokens, RenderError>)
      requires IsPair(e, l, r)
      modifies this`values
      ensures Renders(old(values), values, out, Lay(e, false, parameters, dialect))
      decreases e, 0
    {
      hide Renders, LayPair, Quote, Lay, PairText, InFrame;
      PairStep(e, l, r, false, parameters, dialect);
      ghost var a, b, v0 := Lay(l, false, parameters, dialect), Lay(r, false, parameters, dialect), values;
      var first := Expression(l, false);
      ghost var v1 := values;
      RenderedTogether(v0, v1, first, a);
      if first.Failure? {
        return first;
      }
      var second := Expression(r, false);
      RenderedTogether(v1, values, second, b);
      if second.Failure? {
        RenderingFails(v0, v1, values, first, a, second.error, b);
        return second;
      }
      var f, text := dialect.pairs(e, parameters), PairText(e, dialect);
      RendersPair(v0, v1, values, f, first.value, text, second.value, a.value, b.value);
      out := Success(InFrame(f.whole, InFrame(f.left, first.value) + ([Sql(text)] + InFrame(f.right, second.value))));
    }

    method Membership(e: Expr) returns (out: Result<Tokens, RenderError>)
      requires e.In?
      modifies this`values
      ensures Renders(old(values), values, out, Lay(e, false, parameters, dialect))
      decreases e, 0
    {
      hide Renders, Framed, Between, Quote, Lay, LayAll, InText;
      InStep(e, false, parameters, dialect);
      ghost var a, b := Lay(e.operand, false, parameters, dialect), LayAll(e.values, ", ", false, parameters, dialect);
      ghost var v0 := values;
      var operand, members, text := Success([]), Success([]), InText(e.negated);
      if dialect.operandFirst {
        operand := Expression(e.operand, false);
        ghost var v1 := values;
        RenderedTogether(v0, v1, operand, a);
        if operand.Failure? {
          return operand;
        }
        members := Joined(e.values, ", ", false);
        RenderedTogether(v1, values, members, b);
        if members.Failure? {
          RenderingFails(v0, v1, values, operand, a, members.error, b);
          return members;
        }
        var body := operand.value + ([Sql(text)] + members.value);
        RendersBetween(v0, v1, values, operand.value, text, members.value, a.value, b.value);
        RendersFramed(v0, values, "(", body, "))", Between(a.value, text, b.value));
        out := Success([Sql("(")] + (body + [Sql("))")]));
      } else {
        members := Joined(e.values, ", ", false);
        ghost var v1 := values;
        RenderedTogether(v0, v1, members, b);
        if members.Failure? {
          return members;
        }
        operand := Expression(e.operand, false);
        RenderedTogether(v1, values, operand, a);
        if operand.Failure? {
          RenderingFails(v0, v1, values, members, b, operand.error, a);
          return operand;
        }
        var body := operand.value + [Sql(text)] + members.value;
        RendersRaw(values, text);
        RendersThen(v1, values, values, operand.value, [Sql(text)], a.value, Raw(text));
        RendersAfter(v0, v1, values, operand.value + [Sql(text)], members.value, Then(a.value, Raw(text)), b.value);
        RendersFramed(v0, values, "(", body, "))", After(Then(a.value, Raw(text)), b.value));
        out := Success([Sql("(")] + (body + [Sql("))")]));
      }
    }

    /** The rendered expressions with a separator between them. */
    method Joined(es: seq<Expr>, separator: string, top: bool) returns (out: Result<Tokens, RenderError>)
      modifies this`values
      ensures Renders(old(values), values, out, LayAll(es, separator, top, parameters, dialect))
      decreases es, 0
    {
      if es == [] {
        RendersRaw(values, "");
        return Success([Sql("")]);
      }
      hide Renders, Framed, Between, Quote, Lay;
      if |es| == 1 {
        out := Expression(es[0], top);
        RenderedTogether(old(values), values, out, Lay(es[0], top, parameters, dialect));
        return;
      }
      hide LayAll;
      ListStep(es, separator, top, parameters, dialect);
      ghost var a, b := Lay(es[0], top, parameters, dialect), LayAll(es[1..], separator, top, parameters, dialect);
      ghost var v0 := values;
      var first := Expression(es[0], top);
      ghost var v1 := values;
      RenderedTogether(v0, v1, first, a);
      if first.Failure? {
        return first;
      }
      var rest := Joined(es[1..], separator, top);
      RenderedTogether(v1, values, rest, b);
      if rest.Failure? {
        RenderingFails(v0, v1, values, first, a, rest.error, b);
        return rest;
      }
      RendersBetween(v0, v1, values, first.value, separator, rest.value, a.value, b.value);
      out := Success(first.value + ([Sql(separator)] + rest.value));
    }

    method Unary(e: Expr, o: Expr) returns (out: Result<Tokens, RenderError>)
      requires (e.Not? || e.IsNull?) && o == e.operand
      modifies this`values
      ensures Renders(old(values), values, out, Lay(e, false, parameters, dialect))
      decreases e, 0
    {
      hide Renders, Framed, Lay, UnaryOpen, UnaryClose;
      UnaryStep(e, o, false, parameters, dialect);
      ghost var a, v0 := Lay(o, false, parameters, dialect), values;
      var operand := Expression(o, false);
      RenderedTogether(v0, values, operand, a);
      if operand.Failure? {
        return operand;
      }
      RendersFramed(v0, values, UnaryOpen(e), operand.value, UnaryClose(e), a.value);
      out := Success([Sql(UnaryOpen(e))] + (operand.value + [Sql(UnaryClose(e))]));
    }

    method Junction(e: Expr) returns (out: Result<Tokens, RenderError>)
      requires e.And? || e.Or?
      modifies this`values
      ensures Renders(old(values), values, out, Lay(e, false, parameters, dialect))
      decreases e, 0
    {
      hide Renders, Framed, LayAll;
      var separator := if e.And? then " AND " else " OR ";
      ghost var a, v0 := LayAll(e.operands, separator, false, parameters, dialect), values;
      var all := Joined(e.operands, separator, false);
      RenderedTogether(v0, values, all, a);
      if all.Failure? {
        return all;
      }
      RendersFramed(v0, values, "(", all.value, ")", a.value);
      out := Success([Sql("(")] + (all.value + [Sql(")")]));
    }

    method Aliased(e: Expr) returns (out: Result<Tokens, RenderError>)
      requires e.Alias?
      modifies this`values
      ensures Renders(old(values), values, out, Lay(e, true, parameters, dialect))
      decreases e, 0
    {
      hide Renders, Quote;
      ghost var a, v0 := Lay(e.expression, false, parameters, dialect), values;
      var text := " AS " + Quote(e.alias, dialect.quote);
      var inner := Expression(e.expression, false);
      RenderedTogether(v0, values, inner, a);
      if inner.Failure? {
        return inner;
      }
      RendersRaw(values, text);
      RendersThen(v0, values, values, inner.value, [Sql(text)], a.value, Raw(text));
      out := Success(inner.value + [Sql(text)]);
    }

    method Expression(e: Expr, top: bool) returns (out: Result<Tokens, RenderError>)
      modifies this`values
      ensures Renders(old(values), values, out, Lay(e, top, parameters, dialect))
      decreases e, 1
    {
      hide Renders, Quote;
      if !e.Alias? {
        TopOnlyMattersToAlias(e, top, parameters, dialect);
      }
      hide Lay;
      match e
      case Column(n) =>
        ColumnLayout(e, parameters, dialect);
        RendersRaw(values, Quote(n, dialect.quote));
        out := Success([Sql(Quote(n, dialect.quote))]);
      case Literal(l) =>
        ConstantLayout(e, parameters, dialect);
        out := LiteralText(l);
      case Parameter(n) =>
        ConstantLayout(e, parameters, dialect);
        if n !in parameters {
          RenderingStops(values, MissingParameter(n));
          return Failure(MissingParameter(n));
        }
        out := LiteralText(parameters[n]);
      case Comparison(_, l, r) => out := PairExpression(e, l, r);
      case Like(l, r, _) => out := PairExpression(e, l, r);
      case Arithmetic(_, l, r) => out := PairExpression(e, l, r);
      case And(_) => out := Junction(e);
      case Or(_) => out := Junction(e);
      case Not(o) => out := Unary(e, o);
      case IsNull(o, _) => out := Unary(e, o);
      case In(_, _, _) => out := Membership(e);
      case Alias(_, _) =>
        if !top {
          ConstantLayout(e, parameters, dialect);
          RenderingStops(values, MisplacedAlias);
          return Failure(MisplacedAlias);
        }
        out := Aliased(e);
    }

    method ColumnList(columns: seq<string>) returns (out: Tokens)
      ensures Renders(values, values, Success(out), Success(LayColumns(columns, dialect)))
    {
      hide Renders, Between, Quote;
      if columns == [] {
        RendersRaw(values, "*");
        return [Sql("*")];
      }
      var first := Quote(columns[0], dialect.quote);
      RendersRaw(values, first);
      if |columns| == 1 {
        return [Sql(first)];
      }
      var rest := ColumnList(columns[1..]);
      RendersBetween(values, values, values, [Sql(first)], ", ", rest, Raw(first), LayColumns(columns[1..], dialect));
      out := [Sql(first)] + ([Sql(", ")] + rest);
    }

    method SelectList(q: Selection) returns (out: Result<Tokens, RenderError>)
      modifies this`values
      ensures Renders(old(values), values, out, LayList(q, parameters, dialect))
    {
      hide Renders;
      if q.projection.Some? {
        out := Joined(q.projection.value, ", ", true);
      } else if q.columns.Some? {
        var columns := ColumnList(q.columns.value);
        out := Success(columns);
      } else {
        RendersRaw(values, "*");
        out := Success([Sql("*")]);
      }
    }

    method Where(q: Selection) returns (out: Result<Tokens, RenderError>)
      modifies this`values
      ensures Renders(old(values), values, out, LayWhere(q, parameters, dialect))
    {
      hide Renders, Lay;
      if q.condition.None? {
        RendersRaw(values, "");
        return Success([Sql("")]);
      }
      ghost var a, v0 := Lay(q.condition.value, false, parameters, dialect), values;
      var text := Expression(q.condition.value, false);
      RenderedTogether(v0, values, text, a);
      if text.Failure? {
        return text;
      }
      RendersRaw(v0, " WHERE ");
      RendersThen(v0, v0, values, [Sql(" WHERE ")], text.value, Raw(" WHERE "), a.value);
      out := Success([Sql(" WHERE ")] + text.value);
    }

    method Limit(q: Selection) returns (out: Tokens)
      modifies this`values
      ensures Renders(old(values), values, Success(out), Success(LayLimit(q)))
    {
      if q.limit.None? {
        return [Sql("")];
      }
      var placeholder := Bind(Int(q.limit.value));
      out := [Sql(" LIMIT ")] + placeholder;
    }

    /** The statement over a relation whose text, with its own placeholders, is already rendered. */
    method Select(relation: Tokens, q: Selection, ghost start: seq<Value>, ghost layout: Layout) returns (out: Result<Tokens, RenderError>)
      requires Renders(start, values, Success(relation), Success(layout))
      modifies this`values
      ensures Renders(start, values, out, LaySelect(q, layout, parameters, dialect))
    {
      hide Renders, Framed, LayList, LayWhere, LayLimit, LaySelect;
      SelectStep(q, layout, parameters, dialect);
      ghost var a, b, v0 := LayList(q, parameters, dialect), LayWhere(q, parameters, dialect), values;
      var items := SelectList(q);
      ghost var v1 := values;
      RenderedTogether(v0, v1, items, a);
      if items.Failure? {
        RenderingFails(start, v0, v1, Success(relation), Success(layout), items.error, a);
        return items;
      }
      RendersFramed(v0, v1, "SELECT ", items.value, " FROM ", a.value);
      var head := [Sql("SELECT ")] + (items.value + [Sql(" FROM ")]);
      ghost var source := After(Framed("SELECT ", a.value, " FROM "), layout);
      RendersAfter(start, v0, v1, head, relation, Framed("SELECT ", a.value, " FROM "), layout);
      var condition := Where(q);
      ghost var v2 := values;
      RenderedTogether(v1, v2, condition, b);
      if condition.Failure? {
        RenderingFails(start, v1, v2, Success(head + relation), Success(source), condition.error, b);
        return condition;
      }
      var limit := Limit(q);
      RendersThen(v1, v2, values, condition.value, limit, b.value, LayLimit(q));
      RendersThen(start, v1, values, head + relation, condition.value + limit, source, Then(b.value, LayLimit(q)));
      out := Success((head + relation) + (condition.value + limit));
    }
  }

  lemma SelectStep(q: Selection, relation: Layout, params: Params, d: Dialect)
    ensures var a, b := LayList(q, params, d), LayWhere(q, params, d);
            LaySelect(q, relation, params, d)
            == if a.Failure? then a else if b.Failure? then b
               else Success(Then(After(Framed("SELECT ", a.value, " FROM "), relation), Then(b.value, LayLimit(q))))
  {
  }

  lemma TopOnlyMattersToAlias(e: Expr, top: bool, params: Params, d: Dialect)
    requires !e.Alias?
    ensures Lay(e, top, params, d) == Lay(e, false, params, d)
  {
  }

  lemma ColumnLayout(e: Expr, params: Params, d: Dialect)
    requires e.Column?
    ensures Lay(e, false, params, d) == Success(Raw(Quote(e.name, d.quote)))
  {
  }

  lemma ConstantLayout(e: Expr, params: Params, d: Dialect)
    ensures e.Literal? ==> Lay(e, false, params, d) == Success(LayConstant(e.lit, d))
    ensures e.Parameter? ==>
              Lay(e, false, params, d)
              == if e.name in params then Success(LayConstant(params[e.name], d)) else Failure(MissingParameter(e.name))
    ensures e.Alias? ==> Lay(e, false, params, d) == Failure(MisplacedAlias)
  {
  }

  lemma NumberedStatement(sql: Tokens, values: seq<Value>, layout: Layout)
    requires Renders([], values, Success(sql), Success(layout))
    ensures FillNumbered(sql, values) == Inline(layout)
  {
    assert values[0..|values|] == values;
    NumberedIsInline(layout, 0, values);
  }

  lemma PositionalStatement(sql: Tokens, values: seq<Value>, layout: Layout)
    requires Renders([], values, Success(sql), Success(layout)) && InOrder(layout)
    ensures FillPositional(sql, values, 0) == Inline(layout)
  {
    assert [] + Emit(layout, 0).values == Emit(layout, 0).values;
    PositionalIsInline(layout);
  }

  /** One statement over a named relation, as the `%s` sources send it with its list of values. */
  method Statement(q: Selection, relation: string, params: Params, d: Dialect)
    returns (r: Result<(Tokens, seq<Value>), RenderError>)
    ensures r.Success? <==> LaySelect(q, Raw(relation), params, d).Success?
    ensures r.Success? ==> Renders([], r.value.1, Success(r.value.0), LaySelect(q, Raw(relation), params, d))
    ensures r.Success? && (d.operandFirst || ExpressionsOrdered(q, params)) ==>
              FillPositional(r.value.0, r.value.1, 0) == Inline(LaySelect(q, Raw(relation), params, d).value)
  {
    hide Renders, LaySelect, ExpressionsOrdered;
    var generator := new SqlGenerator(d, params);
    RendersRaw([], relation);
    var sql := generator.Select([Sql(relation)], q, [], Raw(relation));
    RenderedTogether([], generator.values, sql, LaySelect(q, Raw(relation), params, d));
    if sql.Failure? {
      return Failure(sql.error);
    }
    StatementInOrderIff(q, relation, params, d);
    if d.operandFirst || ExpressionsOrdered(q, params) {
      PositionalStatement(sql.value, generator.values, LaySelect(q, Raw(relation), params, d).value);
    }
    r := Success((sql.value, generator.values));
  }

  /** The engine's nested statement on one generator: every `$n` is its own value, inner and outer. */
  method NestedStatement(inner: Selection, relation: string, outer: Selection, outputs: Frame, params: Params, d: Dialect)
    returns (r: Result<(Tokens, seq<Value>), RenderError>)
    ensures r.Success? <==> LayNested(inner, relation, outer, outputs, params, d).Success?
    ensures r.Success? ==>
              FillNumbered(r.value.0, r.value.1) == Inline(LayNested(inner, relation, outer, outputs, params, d).value)
  {
    hide Renders, LaySelect, Framed, Around, InFrame, Emit, Inline;
    var generator := new SqlGenerator(d, params);
    RendersRaw([], relation);
    var scan := generator.Select([Sql(relation)], inner, [], Raw(relation));
    ghost var scanned := LaySelect(inner, Raw(relation), params, d);
    RenderedTogether([], generator.values, scan, scanned);
    if scan.Failure? {
      return Failure(scan.error);
    }
    RendersFramed([], generator.values, "(", scan.value, ")", scanned.value);
    ghost var source := Framed("(", scanned.value, ")");
    var sql := generator.Select([Sql("(")] + (scan.value + [Sql(")")]), outer, [], source);
    RenderedTogether([], generator.values, sql, LaySelect(outer, source, params, d));
    if sql.Failure? {
      return Failure(sql.error);
    }
    ghost var layout := LaySelect(outer, source, params, d).value;
    var text := sql.value;
    if outer.projection.Some? {
      RendersAround([], generator.values, outputs, text, layout);
      text, layout := InFrame(outputs, text), Around(outputs, layout);
    }
    NumberedStatement(text, generator.values, layout);
    r := Success((text, generator.values));
  }
}
