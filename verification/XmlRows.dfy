/**
 Streaming rows out of an XML document: each row element is yielded when it ends, and everything
 else is dropped as soon as it is closed.
 */
module XmlRows {
  import opened Wrappers
  import opened XmlInference

  // Text that follows a child is never read and is left out, so an element's text arrives with its
  // start event; the parser's read-ahead is left out too.

  datatype Element = Element(tag: string, attributes: seq<(string, string)>, text: string, children: seq<Element>)

  datatype Event = Start(tag: string, attributes: seq<(string, string)>, text: string) | End

  function Events(e: Element): seq<Event>
    decreases e, 1
  {
    [Start(e.tag, e.attributes, e.text)] + EventsAll(e.children) + [End]
  }

  function EventsAll(es: seq<Element>): seq<Event>
    decreases es, 0
  {
    if es == [] then [] else Events(es[0]) + EventsAll(es[1..])
  }

  // ---- names ----------------------------------------------------------------------------------------

  /** The text after the last closing brace. */
  function AfterBrace(tag: string): string {
    if '}' !in tag then tag else AfterBrace(tag[1..])
  }

  /** A name without its `{namespace}` prefix. */
  function LocalName(tag: string): string {
    if tag != [] && tag[0] == '{' then AfterBrace(tag) else tag
  }

  lemma {:induction false} NamespacesAreStripped(namespace: string, name: string)
    requires '}' !in name && (name == [] || name[0] != '{')
    ensures LocalName("{" + namespace + "}" + name) == name == LocalName(name)
  {
    AfterLastBrace("{" + namespace, name);
  }

  lemma {:induction false} AfterLastBrace(prefix: string, name: string)
    requires '}' !in name
    ensures AfterBrace(prefix + "}" + name) == name
  {
    var tag := prefix + "}" + name;
    assert tag[|prefix|] == '}';
    if prefix == [] {
      assert tag[1..] == name;
    } else {
      assert tag[1..] == prefix[1..] + "}" + name;
      AfterLastBrace(prefix[1..], name);
    }
  }

  // ---- the rows of a document -------------------------------------------------------------------------

  /** The outermost row elements, in document order. */
  function Rows(e: Element, rowTag: string): seq<Element>
    decreases e, 1
  {
    if LocalName(e.tag) == rowTag then [e] else RowsAll(e.children, rowTag)
  }

  function RowsAll(es: seq<Element>, rowTag: string): seq<Element>
    decreases es, 0
  {
    if es == [] then [] else Rows(es[0], rowTag) + RowsAll(es[1..], rowTag)
  }

  // ---- the event machine ---------------------------------------------------------------------------------

  /** An element that has started and not ended, with the children still attached to it. */
  datatype Frame = Frame(tag: string, attributes: seq<(string, string)>, text: string, children: seq<Element>)

  /** The open elements, the depth of the row being read, and the rows yielded so far. */
  datatype Machine = Machine(stack: seq<Frame>, rowDepth: Option<nat>, rows: seq<Element>)

  const INITIAL := Machine([], None, [])

  function Closed(f: Frame): Element {
    Element(f.tag, f.attributes, f.text, f.children)
  }

  function Attach(stack: seq<Frame>, children: seq<Element>): seq<Frame> {
    if stack == [] then []
    else
      var top := stack[|stack| - 1];
      stack[..|stack| - 1] + [top.(children := top.children + children)]
  }

  /** One event; an end event with nothing open would be malformed and changes nothing. */
  function Step(m: Machine, event: Event, rowTag: string): Machine {
    match event
    case Start(tag, attributes, text) =>
      var stack := m.stack + [Frame(tag, attributes, text, [])];
      Machine(stack, if m.rowDepth.None? && LocalName(tag) == rowTag then Some(|stack|) else m.rowDepth, m.rows)
    case End =>
      if m.stack == [] then m
      else
        var stack, element := m.stack[..|m.stack| - 1], Closed(m.stack[|m.stack| - 1]);
        if m.rowDepth.None? then Machine(stack, None, m.rows)
        else if |stack| + 1 != m.rowDepth.value then Machine(Attach(stack, [element]), m.rowDepth, m.rows)
        else Machine(stack, None, m.rows + [element])
  }

  function Feed(m: Machine, events: seq<Event>, rowTag: string): Machine
    decreases |events|
  {
    if events == [] then m else Feed(Step(m, events[0], rowTag), events[1..], rowTag)
  }

  lemma {:induction false} FeedConcat(m: Machine, xs: seq<Event>, ys: seq<Event>, rowTag: string)
    ensures Feed(m, xs + ys, rowTag) == Feed(Feed(m, xs, rowTag), ys, rowTag)
    decreases |xs|
  {
    hide Step;
    if xs == [] {
      assert xs + ys == ys;
    } else {
      assert (xs + ys)[1..] == xs[1..] + ys;
      FeedConcat(Step(m, xs[0], rowTag), xs[1..], ys, rowTag);
    }
  }

  lemma FeedOne(m: Machine, event: Event, rowTag: string)
    ensures Feed(m, [event], rowTag) == Step(m, event, rowTag)
  {
    hide Step;
    assert [event][1..] == [];
  }

  lemma FeedElement(m: Machine, e: Element, rowTag: string)
    ensures Feed(m, Events(e), rowTag)
            == Step(Feed(Step(m, Start(e.tag, e.attributes, e.text), rowTag), EventsAll(e.children), rowTag), End, rowTag)
  {
    hide Step, Feed;
    var start := [Start(e.tag, e.attributes, e.text)];
    FeedConcat(m, start + EventsAll(e.children), [End], rowTag);
    FeedConcat(m, start, EventsAll(e.children), rowTag);
    FeedOne(m, start[0], rowTag);
    FeedOne(Feed(m, start + EventsAll(e.children), rowTag), End, rowTag);
  }

  // ---- inside a row everything is kept ------------------------------------------------------------------------

  predicate Inside(m: Machine) {
    m.rowDepth.Some? && m.rowDepth.value <= |m.stack| && m.stack != []
  }

  lemma {:induction false} FeedInside(m: Machine, e: Element, rowTag: string)
    requires Inside(m)
    ensures Feed(m, Events(e), rowTag) == m.(stack := Attach(m.stack, [e]))
    decreases e, 1
  {
    FeedElement(m, e, rowTag);
    hide Events, EventsAll, Feed, LocalName;
    var started := Step(m, Start(e.tag, e.attributes, e.text), rowTag);
    var frame := Frame(e.tag, e.attributes, e.text, []);
    assert started == m.(stack := m.stack + [frame]);
    FeedInsideAll(started, e.children, rowTag);
    assert [] + e.children == e.children;
    assert Attach(started.stack, e.children) == m.stack + [frame.(children := e.children)];
    assert (m.stack + [frame.(children := e.children)])[..|m.stack|] == m.stack;
  }

  lemma {:induction false} FeedInsideAll(m: Machine, es: seq<Element>, rowTag: string)
    requires Inside(m)
    ensures Feed(m, EventsAll(es), rowTag) == m.(stack := Attach(m.stack, es))
    decreases es, 0
  {
    if es == [] {
      AttachNothing(m.stack);
    } else {
      var next := m.(stack := Attach(m.stack, [es[0]]));
      FeedConcat(m, Events(es[0]), EventsAll(es[1..]), rowTag);
      FeedInside(m, es[0], rowTag);
      hide Events, Feed;
      FeedInsideAll(next, es[1..], rowTag);
      AttachTwice(m.stack, es[0], es[1..]);
      assert [es[0]] + es[1..] == es;
    }
  }

  lemma AttachNothing(stack: seq<Frame>)
    ensures Attach(stack, []) == stack
  {
    if stack != [] {
      var top := stack[|stack| - 1];
      assert top.children + [] == top.children;
      assert stack == stack[..|stack| - 1] + [top];
    }
  }

  lemma AttachTwice(stack: seq<Frame>, e: Element, es: seq<Element>)
    ensures Attach(Attach(stack, [e]), es) == Attach(stack, [e] + es)
  {
    if stack != [] {
      var top := stack[|stack| - 1];
      assert (top.children + [e]) + es == top.children + ([e] + es);
      assert Attach(stack, [e])[..|stack| - 1] == stack[..|stack| - 1];
    }
  }

  // ---- outside a row only the rows are kept --------------------------------------------------------------------

  /** A whole element read outside a row adds exactly its outermost rows and leaves nothing else behind. */
  lemma {:induction false} FeedOutside(m: Machine, e: Element, rowTag: string)
    requires m.rowDepth.None?
    ensures Feed(m, Events(e), rowTag) == m.(rows := m.rows + Rows(e, rowTag))
    decreases e, 1
  {
    FeedElement(m, e, rowTag);
    hide Events, EventsAll, Feed, LocalName;
    var started := Step(m, Start(e.tag, e.attributes, e.text), rowTag);
    var frame := Frame(e.tag, e.attributes, e.text, []);
    assert (m.stack + [frame])[..|m.stack|] == m.stack;
    if LocalName(e.tag) == rowTag {
      FeedInsideAll(started, e.children, rowTag);
      assert [] + e.children == e.children;
      assert Attach(started.stack, e.children) == m.stack + [frame.(children := e.children)];
      assert (m.stack + [frame.(children := e.children)])[..|m.stack|] == m.stack;
    } else {
      FeedOutsideAll(started, e.children, rowTag);
    }
  }

  lemma {:induction false} FeedOutsideAll(m: Machine, es: seq<Element>, rowTag: string)
    requires m.rowDepth.None?
    ensures Feed(m, EventsAll(es), rowTag) == m.(rows := m.rows + RowsAll(es, rowTag))
    decreases es, 0
  {
    if es == [] {
      assert m.rows + [] == m.rows;
    } else {
      var next := m.(rows := m.rows + Rows(es[0], rowTag));
      FeedConcat(m, Events(es[0]), EventsAll(es[1..]), rowTag);
      FeedOutside(m, es[0], rowTag);
      hide Events, Feed, Rows;
      FeedOutsideAll(next, es[1..], rowTag);
      Associates(m.rows, Rows(es[0], rowTag), RowsAll(es[1..], rowTag));
    }
  }

  lemma {:induction false} FeedOnlyAdds(m: Machine, events: seq<Event>, rowTag: string)
    ensures m.rows <= Feed(m, events, rowTag).rows
    decreases |events|
  {
    if events != [] {
      assert m.rows <= Step(m, events[0], rowTag).rows;
      hide Step;
      FeedOnlyAdds(Step(m, events[0], rowTag), events[1..], rowTag);
    }
  }

  /** The events of a document, or of the part before it breaks off, give rows of the document in order. */
  lemma DocumentRows(document: Element, read: seq<Event>, rest: seq<Event>, rowTag: string)
    requires Events(document) == read + rest
    ensures Feed(INITIAL, read, rowTag).rows <= Rows(document, rowTag)
    ensures rest == [] ==> Feed(INITIAL, read, rowTag).rows == Rows(document, rowTag)
  {
    FeedOutside(INITIAL, document, rowTag);
    FeedConcat(INITIAL, read, rest, rowTag);
    FeedOnlyAdds(Feed(INITIAL, read, rowTag), rest, rowTag);
    assert INITIAL.rows + Rows(document, rowTag) == Rows(document, rowTag);
    assert rest == [] ==> read + rest == read;
  }

  // ---- what stays in memory --------------------------------------------------------------------------------------

  /** Outside a row no open element keeps a child; inside one, no proper ancestor of the row does. */
  ghost predicate Lean(m: Machine) {
    && (m.rowDepth.Some? ==> 1 <= m.rowDepth.value <= |m.stack|)
    && forall i | 0 <= i < (if m.rowDepth.Some? then m.rowDepth.value - 1 else |m.stack|) :: m.stack[i].children == []
  }

  lemma StepStaysLean(m: Machine, event: Event, rowTag: string)
    requires Lean(m)
    ensures Lean(Step(m, event, rowTag))
  {
    hide LocalName;
  }

  /** After every event of any stream, only the path of open elements and the current row are held. */
  lemma {:induction false} FeedStaysLean(m: Machine, events: seq<Event>, rowTag: string)
    requires Lean(m)
    ensures Lean(Feed(m, events, rowTag))
    decreases |events|
  {
    hide Lean, Step;
    if events != [] {
      StepStaysLean(m, events[0], rowTag);
      FeedStaysLean(Step(m, events[0], rowTag), events[1..], rowTag);
    }
  }

  // ---- the loop ------------------------------------------------------------------------------------------------------

  /** Yields each completed row element; on a whole document, exactly its outermost rows in order. */
  method IterRowElements(events: seq<Event>, rowTag: string) returns (rows: seq<Element>)
    ensures rows == Feed(INITIAL, events, rowTag).rows
    ensures forall document | events == Events(document) :: rows == Rows(document, rowTag)
  {
    rows := [];
    var stack: seq<Frame>, rowDepth: Option<nat> := [], None;
    assert events[..0] == [];
    for i := 0 to |events|
      invariant Machine(stack, rowDepth, rows) == Feed(INITIAL, events[..i], rowTag)
      invariant Lean(Machine(stack, rowDepth, rows))
    {
      ghost var before := Machine(stack, rowDepth, rows);
      assert events[..i + 1] == events[..i] + [events[i]];
      FeedConcat(INITIAL, events[..i], [events[i]], rowTag);
      FeedOne(before, events[i], rowTag);
      StepStaysLean(before, events[i], rowTag);
      match events[i] {
        case Start(tag, attributes, text) =>
          stack := stack + [Frame(tag, attributes, text, [])];
          if rowDepth.None? && LocalName(tag) == rowTag {
            rowDepth := Some(|stack|);
          }
        case End =>
          if stack != [] {
            var element := Closed(stack[|stack| - 1]);
            stack := stack[..|stack| - 1];
            if rowDepth.Some? && |stack| + 1 != rowDepth.value {
              stack := Attach(stack, [element]);
            } else {
              if rowDepth.Some? {
                rowDepth := None;
                rows := rows + [element];
              }
            }
          }
      }
    }
    assert events[..|events|] == events;
    forall document | events == Events(document)
      ensures rows == Rows(document, rowTag)
    {
      assert events + [] == events;
      DocumentRows(document, events, [], rowTag);
    }
  }

  // ---- records ----------------------------------------------------------------------------------------------------------

  datatype Format = Format(rowTag: string, attributePrefix: string, valueTag: string)

  type Record = seq<(string, Raw)>

  predicate Space(c: char) {
    c == ' ' || c == '\t' || c == '\n' || c == '\r'
  }

  function Strip(text: string): string
    decreases |text|
  {
    if text == [] then []
    else if Space(text[0]) then Strip(text[1..])
    else if Space(text[|text| - 1]) then Strip(text[..|text| - 1])
    else text
  }

  /** Surrounding whitespace removed; blank text is null. */
  function TextValue(text: string): Raw {
    if Strip(text) == [] then Missing else Raw.Scalar(Strip(text))
  }

  predicate Has(record: Record, key: string) {
    exists entry :: entry in record && entry.0 == key
  }

  /** Assigns a key: in place when it is there, at the end when it is new. */
  function Put(record: Record, key: string, value: Raw): Record {
    if record == [] then [(key, value)]
    else if record[0].0 == key then [(key, value)] + record[1..]
    else [record[0]] + Put(record[1..], key, value)
  }

  lemma {:induction false} PutThenFind(record: Record, key: string, value: Raw, other: string)
    ensures Find(Put(record, key, value), other, Missing) == if other == key then value else Find(record, other, Missing)
    ensures Has(Put(record, key, value), other) <==> other == key || Has(record, other)
  {
    var put := Put(record, key, value);
    if record == [] {
      assert put[1..] == [];
    } else if record[0].0 == key {
      assert put[1..] == record[1..];
      assert forall entry :: entry in put <==> entry == (key, value) || entry in record[1..];
      assert forall entry :: entry in record <==> entry == record[0] || entry in record[1..];
    } else {
      PutThenFind(record[1..], key, value, other);
      assert put[1..] == Put(record[1..], key, value);
      assert forall entry :: entry in put <==> entry == record[0] || entry in put[1..];
      assert forall entry :: entry in record <==> entry == record[0] || entry in record[1..];
    }
  }

  /** A child's value joins what its name already holds: a second value makes a list, more extend it. */
  function Add(record: Record, name: string, value: Raw): Record {
    if !Has(record, name) then Put(record, name, value)
    else
      var held := Find(record, name, Missing);
      Put(record, name, if held.Items? then Items(held.values + [value]) else Items([held, value]))
  }

  function AttributesOf(attributes: seq<(string, string)>, record: Record, fmt: Format): Record
    decreases |attributes|
  {
    if attributes == [] then record
    else
      var name := fmt.attributePrefix + LocalName(attributes[0].0);
      AttributesOf(attributes[1..], Put(record, name, TextValue(attributes[0].1)), fmt)
  }

  /** Attributes, then the element's own text where it has attributes or no children. */
  function Own(e: Element, fmt: Format): Record {
    var record := AttributesOf(e.attributes, [], fmt);
    var text := TextValue(e.text);
    if !text.Missing? && (e.attributes != [] || e.children == []) then Put(record, fmt.valueTag, text) else record
  }

  function RecordOf(e: Element, fmt: Format): Record
    decreases e, 2
  {
    AddChildren(e.children, Own(e, fmt), fmt)
  }

  function AddChildren(children: seq<Element>, record: Record, fmt: Format): Record
    decreases children, 1, |children|
  {
    if children == [] then record
    else AddChildren(children[1..], Add(record, LocalName(children[0].tag), ValueOf(children[0], fmt)), fmt)
  }

  function ValueOf(e: Element, fmt: Format): (v: Raw)
    ensures !v.Items?
    decreases e, 3
  {
    if e.attributes != [] || e.children != [] then Dict(RecordOf(e, fmt)) else TextValue(e.text)
  }

  /** The values of the children of one name, in document order. */
  function Named(children: seq<Element>, name: string, fmt: Format): seq<Raw> {
    if children == [] then []
    else (if LocalName(children[0].tag) == name then [ValueOf(children[0], fmt)] else []) + Named(children[1..], name, fmt)
  }

  /** One value stands alone, several stand as a list. */
  function Gathered(values: seq<Raw>): Raw {
    if values == [] then Missing else if |values| == 1 then values[0] else Items(values)
  }

  /** What a name holds after the children: what it held before, then their values, in order. */
  ghost predicate Gathers(record: Record, name: string, sofar: seq<Raw>) {
    && (Has(record, name) <==> sofar != [])
    && Find(record, name, Missing) == Gathered(sofar)
    && (forall v | v in sofar :: !v.Items?)
  }

  lemma {:induction false} ChildrenGather(children: seq<Element>, record: Record, name: string, sofar: seq<Raw>, fmt: Format)
    requires Gathers(record, name, sofar)
    ensures Gathers(AddChildren(children, record, fmt), name, sofar + Named(children, name, fmt))
    decreases |children|
  {
    if children == [] {
      assert sofar + Named([], name, fmt) == sofar;
    } else {
      hide Gathers, Add, AddChildren, Named, LocalName, ValueOf;
      var first, value, rest := LocalName(children[0].tag), ValueOf(children[0], fmt), Named(children[1..], name, fmt);
      AddGathers(record, first, value, name, sofar);
      ChildrenGather(children[1..], Add(record, first, value), name, if first == name then sofar + [value] else sofar, fmt);
      NamedStep(children, name, fmt);
      AddStep(children, record, fmt);
      Associates(sofar, [value], rest);
      assert [] + rest == rest;
    }
  }

  lemma AddStep(children: seq<Element>, record: Record, fmt: Format)
    requires children != []
    ensures AddChildren(children, record, fmt)
            == AddChildren(children[1..], Add(record, LocalName(children[0].tag), ValueOf(children[0], fmt)), fmt)
  {
  }

  lemma NamedStep(children: seq<Element>, name: string, fmt: Format)
    requires children != []
    ensures Named(children, name, fmt)
            == (if LocalName(children[0].tag) == name then [ValueOf(children[0], fmt)] else []) + Named(children[1..], name, fmt)
  {
  }

  lemma AddGathers(record: Record, first: string, value: Raw, name: string, sofar: seq<Raw>)
    requires Gathers(record, name, sofar) && !value.Items?
    ensures Gathers(Add(record, first, value), name, if first == name then sofar + [value] else sofar)
  {
    var held := Find(record, first, Missing);
    PutThenFind(record, first, value, name);
    PutThenFind(record, first, if held.Items? then Items(held.values + [value]) else Items([held, value]), name);
    hide Find, Put, Has;
    if first == name && |sofar| == 1 {
      assert sofar + [value] == [held, value];
    }
  }

  lemma {:induction false} AttributesHoldNoLists(attributes: seq<(string, string)>, record: Record, fmt: Format, name: string)
    requires (Has(record, name) || Find(record, name, Missing).Missing?) && !Find(record, name, Missing).Items?
    ensures var r := AttributesOf(attributes, record, fmt);
            (Has(r, name) || Find(r, name, Missing).Missing?) && !Find(r, name, Missing).Items?
    decreases |attributes|
  {
    if attributes != [] {
      var key, value := fmt.attributePrefix + LocalName(attributes[0].0), TextValue(attributes[0].1);
      PutThenFind(record, key, value, name);
      hide Find, Put, Has, Strip, LocalName;
      AttributesHoldNoLists(attributes[1..], Put(record, key, value), fmt, name);
    }
  }

  /**
   Under each name a record holds, in order, what the element's own attribute or text put there and
   then the values of its children of that name: one value alone, several as a list, none dropped.
   */
  lemma RecordHoldsChildren(e: Element, fmt: Format, name: string)
    ensures var own := Own(e, fmt);
            Find(RecordOf(e, fmt), name, Missing)
            == Gathered((if Has(own, name) then [Find(own, name, Missing)] else []) + Named(e.children, name, fmt))
  {
    var attributes, own := AttributesOf(e.attributes, [], fmt), Own(e, fmt);
    AttributesHoldNoLists(e.attributes, [], fmt, name);
    PutThenFind(attributes, fmt.valueTag, TextValue(e.text), name);
    var sofar := if Has(own, name) then [Find(own, name, Missing)] else [];
    ChildrenGather(e.children, own, name, sofar, fmt);
  }

  method ElementToRecord(e: Element, fmt: Format) returns (record: Record)
    ensures record == RecordOf(e, fmt)
    decreases e, 0
  {
    hide LocalName, TextValue, ValueOf, Put, Add;
    record := [];
    assert e.attributes[0..] == e.attributes;
    for i := 0 to |e.attributes|
      invariant AttributesOf(e.attributes[i..], record, fmt) == AttributesOf(e.attributes, [], fmt)
    {
      var attribute := e.attributes[i];
      assert e.attributes[i..][0] == attribute && e.attributes[i..][1..] == e.attributes[i + 1..];
      record := Put(record, fmt.attributePrefix + LocalName(attribute.0), TextValue(attribute.1));
    }
    var text := TextValue(e.text);
    if !text.Missing? && (e.attributes != [] || e.children == []) {
      record := Put(record, fmt.valueTag, text);
    }
    assert record == Own(e, fmt);
    assert e.children[0..] == e.children;
    for i := 0 to |e.children|
      invariant AddChildren(e.children[i..], record, fmt) == RecordOf(e, fmt)
    {
      var child := e.children[i];
      assert e.children[i..][0] == child && e.children[i..][1..] == e.children[i + 1..];
      var value := ElementToValue(child, fmt);
      record := Add(record, LocalName(child.tag), value);
    }
  }

  method ElementToValue(e: Element, fmt: Format) returns (value: Raw)
    ensures value == ValueOf(e, fmt)
    decreases e, 1
  {
    if e.attributes != [] || e.children != [] {
      var record := ElementToRecord(e, fmt);
      value := Dict(record);
    } else {
      value := TextValue(e.text);
    }
  }

  function RecordsOf(rows: seq<Element>, fmt: Format): (records: seq<Record>)
    ensures |records| == |rows| && forall i | 0 <= i < |rows| :: records[i] == RecordOf(rows[i], fmt)
  {
    if rows == [] then [] else [RecordOf(rows[0], fmt)] + RecordsOf(rows[1..], fmt)
  }

  function AtMost<T>(limit: Option<int>, s: seq<T>): seq<T> {
    if limit.None? || limit.value >= |s| then s else if limit.value <= 0 then [] else s[..limit.value]
  }

  /** The records of a document's rows, stopping after `limit` of them; a limit of zero or less yields none. */
  method IterRecords(events: seq<Event>, fmt: Format, limit: Option<int>) returns (records: seq<Record>)
    ensures forall document | events == Events(document) ::
              records == AtMost(limit, RecordsOf(Rows(document, fmt.rowTag), fmt))
  {
    hide Rows, RecordOf, Events;
    records := [];
    if limit.Some? && limit.value <= 0 {
      return;
    }
    var rows := IterRowElements(events, fmt.rowTag);
    ghost var all := RecordsOf(rows, fmt);
    hide RecordsOf;
    var emitted := 0;
    for i := 0 to |rows|
      invariant records == all[..i] && emitted == i
      invariant limit.Some? ==> emitted < limit.value
    {
      var record := ElementToRecord(rows[i], fmt);
      assert all[..i + 1] == all[..i] + [all[i]];
      records, emitted := records + [record], emitted + 1;
      if limit.Some? && emitted >= limit.value {
        assert records == AtMost(limit, all);
        return;
      }
    }
    assert records == AtMost(limit, all);
  }
}
