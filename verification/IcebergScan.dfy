/**
 The Iceberg scan: batches read under the row filter are rechecked under three-valued logic,
 trimmed to the projection and limited while they stream.
 */
module IcebergScan {
  import opened Wrappers
  import opened Values
  import opened Types
  import opened Expressions
  import opened Plans
  import opened Execution
  import opened Streams
  import opened IcebergFilter

  // ---- the Arrow recheck ------------------------------------------------------------------------------------

  /** What a vectorised evaluation yields: one value for the batch, or one per row. */
  datatype Datum = Scalar(value: Value) | Vector(values: seq<Value>) {
    predicate Fits(n: nat) {
      Vector? ==> |values| == n
    }

    function At(i: nat): Value
      requires Vector? ==> i < |values|
    {
      if Scalar? then value else values[i]
    }

    predicate NullScalar() {
      Scalar? && value.Null?
    }
  }

  datatype Kernel = Compared(op: ComparisonOp) | AndKleene | OrKleene

  function Combine(k: Kernel, a: Value, b: Value): Value {
    match k
    case Compared(op) => Relate(op, a, b)
    case AndKleene => And3(a, b)
    case OrKleene => Or3(a, b)
  }

  /** A binary kernel: a scalar only when both inputs are. */
  function Apply2(k: Kernel, a: Datum, b: Datum, n: nat): (d: Datum)
    requires a.Fits(n) && b.Fits(n)
    ensures d.Fits(n) && forall i | 0 <= i < n :: d.At(i) == Combine(k, a.At(i), b.At(i))
  {
    if a.Scalar? && b.Scalar? then Scalar(Combine(k, a.value, b.value))
    else Vector(seq(n, i requires 0 <= i < n => Combine(k, a.At(i), b.At(i))))
  }

  function Invert(a: Datum, n: nat): (d: Datum)
    requires a.Fits(n)
    ensures d.Fits(n) && forall i | 0 <= i < n :: d.At(i) == Not3(a.At(i))
  {
    if a.Scalar? then Scalar(Not3(a.value)) else Vector(seq(n, i requires 0 <= i < n => Not3(a.At(i))))
  }

  function NullCheck(a: Datum, negated: bool, n: nat): (d: Datum)
    requires a.Fits(n)
    ensures d.Fits(n)
    ensures forall i | 0 <= i < n && !a.At(i).Fault? :: d.At(i) == Bool(a.At(i).Null? != negated)
  {
    if a.Scalar? then Scalar(Bool(a.value.Null? != negated))
    else Vector(seq(n, i requires 0 <= i < n => Bool(a.At(i).Null? != negated)))
  }

  function Unknown(n: nat): (d: Datum)
    ensures d.Fits(n) && forall i | 0 <= i < n :: d.At(i).Null?
  {
    Vector(seq(n, i => Null))
  }

  function Equalities(operand: Datum, candidates: seq<Value>, n: nat): (d: Datum)
    requires operand.Fits(n)
    ensures d.Fits(n)
  {
    if candidates == [] then Scalar(FALSE)
    else
      var mask := if candidates[0].Null? then Unknown(n) else Apply2(Compared(EQ), operand, Scalar(candidates[0]), n);
      Apply2(OrKleene, mask, Equalities(operand, candidates[1..], n), n)
  }

  predicate Evaluable(e: Expr)
    decreases e, 1
  {
    match e
    case And(os) => AllEvaluable(os)
    case Or(os) => AllEvaluable(os)
    case Not(o) => Evaluable(o)
    case IsNull(o, _) => Evaluable(o)
    case In(o, _, _) => Evaluable(o)
    case Comparison(_, l, r) => Evaluable(l) && Evaluable(r)
    case Like(_, _, _) => false
    case Arithmetic(_, _, _) => false
    case Alias(_, _) => false
    case _ => true
  }

  predicate AllEvaluable(es: seq<Expr>)
    decreases es, 0
  {
    es == [] || (Evaluable(es[0]) && AllEvaluable(es[1..]))
  }

  /** The recheck of a predicate over one batch, with scalars kept apart from columns. */
  function Evaluate(e: Expr, batch: seq<Row>, params: Params): (d: Datum)
    requires Evaluable(e)
    ensures d.Fits(|batch|)
    decreases e, 1
  {
    var n := |batch|;
    match e
    case Column(c) => Vector(seq(n, i requires 0 <= i < n => Lookup(batch[i], c)))
    case Literal(l) => Scalar(l.value)
    case Parameter(_) => Scalar(ConstantValue(e, params))
    case Comparison(op, l, r) =>
      var left, right := Evaluate(l, batch, params), Evaluate(r, batch, params);
      if left.NullScalar() || right.NullScalar() then Unknown(n) else Apply2(Compared(op), left, right, n)
    case And(os) => EvaluateAll(os, AndKleene, batch, params)
    case Or(os) => EvaluateAll(os, OrKleene, batch, params)
    case Not(o) => Invert(Evaluate(o, batch, params), n)
    case IsNull(o, negated) => NullCheck(Evaluate(o, batch, params), negated, n)
    case In(o, vs, negated) =>
      var operand := Evaluate(o, batch, params);
      if operand.NullScalar() then Unknown(n)
      else
        var mask := Equalities(operand, EvalAll(vs, map[], params), n);
        if negated then Invert(mask, n) else mask
  }

  function EvaluateAll(es: seq<Expr>, k: Kernel, batch: seq<Row>, params: Params): (d: Datum)
    requires AllEvaluable(es) && !k.Compared?
    ensures d.Fits(|batch|)
    decreases es, 0
  {
    if es == [] then Scalar(Bool(k.AndKleene?))
    else Apply2(k, Evaluate(es[0], batch, params), EvaluateAll(es[1..], k, batch, params), |batch|)
  }

  lemma {:induction false} EqualitiesAreMembership(operand: Datum, candidates: seq<Value>, n: nat, i: nat)
    requires operand.Fits(n) && i < n && !operand.At(i).Fault?
    ensures Equalities(operand, candidates, n).At(i) == Member3(operand.At(i), candidates)
  {
    if candidates != [] {
      EqualitiesAreMembership(operand, candidates[1..], n, i);
    }
  }

  lemma MemberOfFault(x: Value, vs: seq<Value>)
    requires x.Fault? && vs != []
    ensures Member3(x, vs).Fault?
  {
  }

  /** Row by row, the vectorised recheck is the three-valued meaning of the predicate. */
  lemma {:induction false} EvaluateIsEval(e: Expr, batch: seq<Row>, params: Params, i: nat)
    requires Evaluable(e) && WellFormed(e) && i < |batch| && !Eval(e, batch[i], params).Fault?
    ensures Evaluate(e, batch, params).At(i) == Eval(e, batch[i], params)
    decreases e, 1
  {
    hide Relate, Equalities, Member3;
    var row := batch[i];
    match e
    case Comparison(op, l, r) => ComparisonEvaluates(e, batch, params, i);
    case And(os) => EvaluateAllIsEval(os, AndKleene, batch, params, i);
    case Or(os) => EvaluateAllIsEval(os, OrKleene, batch, params, i);
    case Not(o) => EvaluateIsEval(o, batch, params, i);
    case IsNull(o, _) => EvaluateIsEval(o, batch, params, i);
    case In(o, vs, negated) => InEvaluates(e, batch, params, i);
    case _ =>
  }

  lemma {:induction false} ComparisonEvaluates(e: Expr, batch: seq<Row>, params: Params, i: nat)
    requires e.Comparison? && Evaluable(e) && WellFormed(e) && i < |batch| && !Eval(e, batch[i], params).Fault?
    ensures Evaluate(e, batch, params).At(i) == Eval(e, batch[i], params)
    decreases e, 0
  {
    assert Eval(e, batch[i], params)
        == Relate(e.comparison, Eval(e.left, batch[i], params), Eval(e.right, batch[i], params));
    EvaluateIsEval(e.left, batch, params, i);
    EvaluateIsEval(e.right, batch, params, i);
  }

  lemma {:induction false} InEvaluates(e: Expr, batch: seq<Row>, params: Params, i: nat)
    requires e.In? && Evaluable(e) && WellFormed(e) && i < |batch| && !Eval(e, batch[i], params).Fault?
    ensures Evaluate(e, batch, params).At(i) == Eval(e, batch[i], params)
    decreases e, 0
  {
    hide Relate, Equalities, Member3;
    var x, vs := Eval(e.operand, batch[i], params), EvalAll(e.values, map[], params);
    ConstantMembers(e.values, batch[i], params);
    assert Eval(e, batch[i], params) == Negate(Member3(x, vs), e.negated);
    if x.Fault? {
      MemberOfFault(x, vs);
    }
    EvaluateIsEval(e.operand, batch, params, i);
    var operand := Evaluate(e.operand, batch, params);
    if operand.NullScalar() {
      MemberOfNull(vs);
    } else {
      EqualitiesAreMembership(operand, vs, |batch|, i);
    }
  }

  lemma {:induction false} EvaluateAllIsEval(es: seq<Expr>, k: Kernel, batch: seq<Row>, params: Params, i: nat)
    requires AllEvaluable(es) && AllWellFormed(es) && i < |batch| && !k.Compared?
    requires var vs := EvalAll(es, batch[i], params); !(if k.AndKleene? then AllOf(vs) else AnyOf(vs)).Fault?
    ensures var vs := EvalAll(es, batch[i], params);
            EvaluateAll(es, k, batch, params).At(i) == if k.AndKleene? then AllOf(vs) else AnyOf(vs)
    decreases es, 0
  {
    if es != [] {
      var vs := EvalAll(es, batch[i], params);
      assert vs[0] == Eval(es[0], batch[i], params) && vs[1..] == EvalAll(es[1..], batch[i], params);
      EvaluateIsEval(es[0], batch, params, i);
      EvaluateAllIsEval(es[1..], k, batch, params, i);
    }
  }

  /** Keeps the rows whose mask is TRUE; a scalar mask keeps all or none. */
  function FilterBatch(e: Expr, batch: seq<Row>, params: Params): seq<Row>
    requires Evaluable(e)
  {
    var mask := Evaluate(e, batch, params);
    if mask.Scalar? then if mask.value == TRUE then batch else []
    else KeepMasked(batch, mask.values)
  }

  function KeepMasked(batch: seq<Row>, mask: seq<Value>): seq<Row>
    requires |mask| == |batch|
  {
    if batch == [] then []
    else (if mask[0] == TRUE then [batch[0]] else []) + KeepMasked(batch[1..], mask[1..])
  }

  lemma {:induction false} MaskedIsFiltered(e: Expr, batch: seq<Row>, mask: seq<Value>, params: Params)
    requires |mask| == |batch| && forall i | 0 <= i < |batch| :: mask[i] == Eval(e, batch[i], params)
    ensures KeepMasked(batch, mask) == FilterRows(e, batch, params)
  {
    if batch != [] {
      MaskedIsFiltered(e, batch[1..], mask[1..], params);
    }
  }

  /** The recheck filters a batch exactly as SQL does. */
  lemma RecheckIsFilter(e: Expr, batch: seq<Row>, params: Params)
    requires Evaluable(e) && WellFormed(e) && NeverStuck(e, batch, params)
    ensures FilterBatch(e, batch, params) == FilterRows(e, batch, params)
  {
    var mask := Evaluate(e, batch, params);
    forall i | 0 <= i < |batch|
      ensures mask.At(i) == Eval(e, batch[i], params)
    {
      EvaluateIsEval(e, batch, params, i);
    }
    if mask.Vector? {
      MaskedIsFiltered(e, batch, mask.values, params);
    } else {
      ScalarMask(e, batch, mask.value, params);
    }
  }

  lemma {:induction false} ScalarMask(e: Expr, batch: seq<Row>, v: Value, params: Params)
    requires forall i | 0 <= i < |batch| :: v == Eval(e, batch[i], params)
    ensures FilterRows(e, batch, params) == if v == TRUE then batch else []
  {
    if batch != [] {
      ScalarMask(e, batch[1..], v, params);
    }
  }

  // ---- streaming ---------------------------------------------------------------------------------------------

  /** Yields one batch in slices of at most the requested size. */
  method Slices(rows: seq<Row>, batchSize: nat) returns (out: seq<seq<Row>>)
    requires batchSize > 0
    ensures Flatten(out) == rows && Sized(out, batchSize)
  {
    out := [];
    var offset := 0;
    while offset < |rows|
      invariant 0 <= offset <= |rows|
      invariant Flatten(out) == rows[..offset] && Sized(out, batchSize)
    {
      var end := Min(offset + batchSize, |rows|);
      var slice := rows[offset..end];
      FlattenSnoc(out, slice);
      assert rows[..end] == rows[..offset] + slice;
      out := out + [slice];
      offset := end;
    }
    assert rows[..|rows|] == rows;
  }

  lemma FilterByConcat(checker: Option<Expr>, xs: seq<Row>, ys: seq<Row>, params: Params)
    ensures FilterBy(checker, xs + ys, params) == FilterBy(checker, xs, params) + FilterBy(checker, ys, params)
  {
    if checker.Some? {
      FilterRowsConcat(checker.value, xs, ys, params);
    }
  }

  /** One batch of the stream: rechecked, cut to what the limit leaves, trimmed and sliced. */
  method Deliver(
    batch: seq<Row>, names: seq<string>, checker: Option<Expr>, remaining: Option<int>, batchSize: nat, params: Params,
    ghost limit: Option<nat>, ghost produced: nat) returns (out: seq<seq<Row>>, rest: Option<int>, ghost admitted: seq<Row>)
    requires batchSize > 0 && remaining == Remaining(limit, produced) && (remaining.Some? ==> remaining.value > 0)
    requires checker.Some? ==> Evaluable(checker.value) && WellFormed(checker.value) && NeverStuck(checker.value, batch, params)
    ensures limit.Some? ==> produced <= limit.value
    ensures admitted == Admitted(limit, produced, FilterBy(checker, batch, params))
    ensures Flatten(out) == PruneAll(admitted, names) && Sized(out, batchSize)
    ensures rest == Remaining(limit, produced + |admitted|)
  {
    hide Evaluable, WellFormed, NeverStuck, PruneAll, FilterRows;
    var kept := batch;
    if checker.Some? {
      RecheckIsFilter(checker.value, batch, params);
      kept := FilterBatch(checker.value, batch, params);
    }
    rest := remaining;
    if |kept| == 0 {
      return [], rest, [];
    }
    if remaining.Some? {
      if |kept| > remaining.value {
        kept := kept[..remaining.value];
      }
      rest := Some(remaining.value - |kept|);
    }
    admitted := kept;
    out := Slices(PruneAll(kept, names), batchSize);
  }

  /** The rows the first `i` batches contribute: rechecked and limited. */
  function Taken(reader: seq<seq<Row>>, i: nat, checker: Option<Expr>, limit: Option<nat>, params: Params): seq<Row>
    requires i <= |reader|
  {
    TakeBy(limit, FilterBy(checker, Flatten(reader[..i]), params))
  }

  /** The batches yielded so far carry exactly those rows, and the limit counts them. */
  ghost predicate Streamed(
    reader: seq<seq<Row>>, i: nat, names: seq<string>, checker: Option<Expr>, limit: Option<nat>, batchSize: nat,
    params: Params, out: seq<seq<Row>>, remaining: Option<int>)
    requires i <= |reader|
  {
    var taken := Taken(reader, i, checker, limit, params);
    Flatten(out) == PruneAll(taken, names) && Sized(out, batchSize) && remaining == Remaining(limit, |taken|)
  }

  lemma StreamStarts(
    reader: seq<seq<Row>>, names: seq<string>, checker: Option<Expr>, limit: Option<nat>, batchSize: nat, params: Params)
    ensures Streamed(reader, 0, names, checker, limit, batchSize, params, [], Remaining(limit, 0))
  {
    assert reader[..0] == [];
    assert FilterBy(checker, [], params) == [];
  }

  lemma StreamContinues(
    reader: seq<seq<Row>>, i: nat, names: seq<string>, checker: Option<Expr>, limit: Option<nat>, batchSize: nat,
    params: Params, out: seq<seq<Row>>, slices: seq<seq<Row>>, admitted: seq<Row>, left: Option<int>)
    requires i < |reader| && Sized(out, batchSize) && Sized(slices, batchSize)
    requires Flatten(out) == PruneAll(Taken(reader, i, checker, limit, params), names)
    requires limit.Some? ==> |Taken(reader, i, checker, limit, params)| <= limit.value
    requires admitted == Admitted(limit, |Taken(reader, i, checker, limit, params)|, FilterBy(checker, reader[i], params))
    requires Flatten(slices) == PruneAll(admitted, names)
    requires left == Remaining(limit, |Taken(reader, i, checker, limit, params)| + |admitted|)
    ensures Streamed(reader, i + 1, names, checker, limit, batchSize, params, out + slices, left)
  {
    hide Flatten, PruneAll, FilterBy, TakeBy, Take, Admitted;
    var seen := FilterBy(checker, Flatten(reader[..i]), params);
    ReadBatch(reader, i);
    FilterByConcat(checker, Flatten(reader[..i]), reader[i], params);
    AdmitMore(limit, seen, FilterBy(checker, reader[i], params));
    PruneAllConcat(TakeBy(limit, seen), admitted, names);
    FlattenConcat(out, slices);
  }

  /**
   The streaming loop: for any input batching the output is the rechecked rows, limited and trimmed,
   in batches of one to `batchSize` rows.
   */
  method Batches(reader: seq<seq<Row>>, names: seq<string>, checker: Option<Expr>, limit: Option<nat>, batchSize: nat, params: Params)
    returns (out: seq<seq<Row>>)
    requires batchSize > 0
    requires checker.Some? ==>
               Evaluable(checker.value) && WellFormed(checker.value) && NeverStuck(checker.value, Flatten(reader), params)
    ensures Flatten(out) == PruneAll(TakeBy(limit, FilterBy(checker, Flatten(reader), params)), names)
    ensures Sized(out, batchSize)
  {
    hide Evaluable, WellFormed, NeverStuck, Flatten, PruneAll, FilterBy, TakeBy, Take;
    out := [];
    var remaining := Remaining(limit, 0);
    StreamStarts(reader, names, checker, limit, batchSize, params);
    for i := 0 to |reader|
      invariant Streamed(reader, i, names, checker, limit, batchSize, params, out, remaining)
    {
      ghost var taken := Taken(reader, i, checker, limit, params);
      if remaining.Some? && remaining.value <= 0 {
        LimitReached(reader, i, checker, limit, params);
        return;
      }
      NeverStuckBatch(checker, reader, i, params);
      ghost var admitted;
      var slices, left;
      slices, left, admitted := Deliver(reader[i], names, checker, remaining, batchSize, params, limit, |taken|);
      StreamContinues(reader, i, names, checker, limit, batchSize, params, out, slices, admitted, left);
      out, remaining := out + slices, left;
    }
    assert reader[..|reader|] == reader;
  }

  /** Once the limit is used up the batches still to come add nothing. */
  lemma LimitReached(reader: seq<seq<Row>>, i: nat, checker: Option<Expr>, limit: Option<nat>, params: Params)
    requires i <= |reader| && limit.Some?
    requires limit.value <= |Taken(reader, i, checker, limit, params)|
    ensures TakeBy(limit, FilterBy(checker, Flatten(reader), params)) == Taken(reader, i, checker, limit, params)
  {
    SplitStream(reader, i);
    FilterByConcat(checker, Flatten(reader[..i]), Flatten(reader[i..]), params);
    AdmitMore(limit, FilterBy(checker, Flatten(reader[..i]), params), FilterBy(checker, Flatten(reader[i..]), params));
  }

  lemma NeverStuckBatch(checker: Option<Expr>, reader: seq<seq<Row>>, i: nat, params: Params)
    requires i < |reader| && (checker.Some? ==> NeverStuck(checker.value, Flatten(reader), params))
    ensures checker.Some? ==> NeverStuck(checker.value, reader[i], params)
  {
    BatchWithin(reader, i);
  }

  // ---- the whole scan ------------------------------------------------------------------------------------------

  /** What the Iceberg reader returns under a row filter: the passing rows in table order. */
  function PassingRows(f: RowFilter, rows: seq<Row>): seq<Row> {
    if rows == [] then []
    else (if Passes(f, rows[0]) then [rows[0]] else []) + PassingRows(f, rows[1..])
  }

  function FilterColumns(filter: Option<Expr>): seq<string> {
    if filter.Some? then ReferencedColumns([filter.value]) else []
  }

  /**
   The columns asked for: all of them without a projection; otherwise the projection, then the predicate
   columns it lacks in first-seen order, and the first column of the table when that names none.
   */
  function ReadColumns(schema: seq<string>, projection: Option<seq<string>>, filter: Option<Expr>): (r: Option<seq<string>>)
    ensures r.Some? <==> projection.Some?
    ensures r.Some? ==> projection.value <= r.value && (schema != [] ==> r.value != [])
    ensures r.Some? && (projection.value != [] || FilterColumns(filter) != []) ==>
              var added := r.value[|projection.value|..];
              && (forall c :: c in added <==> c in FilterColumns(filter) && c !in projection.value)
              && (filter.Some? ==> FirstSeenOrder(added, ColumnNames(WalkAll([filter.value]))))
    ensures r.Some? && projection.value == [] && FilterColumns(filter) == [] ==> r.value == Take(1, schema)
  {
    if projection.None? then None
    else
      var names := FilterColumns(filter);
      var added := Lacking(names, projection.value);
      NamesStayOrdered(filter, projection.value);
      assert (projection.value + added)[|projection.value|..] == added;
      assert projection.value == [] && names != [] ==> names[0] in added;
      Some(if projection.value + added == [] then Take(1, schema) else projection.value + added)
  }

  function Lacking(names: seq<string>, present: seq<string>): (r: seq<string>)
    ensures forall n :: n in r <==> n in names && n !in present
  {
    if names == [] then []
    else (if names[0] in present then [] else [names[0]]) + Lacking(names[1..], present)
  }

  lemma {:induction false} LackingKeepsOrder(names: seq<string>, present: seq<string>, all: seq<string>)
    requires FirstSeenOrder(names, all)
    ensures FirstSeenOrder(Lacking(names, present), all)
  {
    if names != [] {
      LackingKeepsOrder(names[1..], present, all);
      assert forall n | n in names[1..] :: FirstAt(all, names[0]) < FirstAt(all, n);
    }
  }

  lemma NamesStayOrdered(filter: Option<Expr>, present: seq<string>)
    ensures filter.Some? ==>
              FirstSeenOrder(Lacking(FilterColumns(filter), present), ColumnNames(WalkAll([filter.value])))
  {
    if filter.Some? {
      LackingKeepsOrder(FilterColumns(filter), present, ColumnNames(WalkAll([filter.value])));
    }
  }

  /** The columns of the table, in its order, that are among the names. */
  function Among(schema: seq<string>, names: seq<string>): (r: seq<string>)
    ensures forall c :: c in r <==> c in schema && c in names
  {
    if schema == [] then [] else (if schema[0] in names then [schema[0]] else []) + Among(schema[1..], names)
  }

  /** The columns the reader delivers, in table order. */
  function ReaderColumns(schema: seq<string>, projection: Option<seq<string>>, filter: Option<Expr>): seq<string> {
    var read := ReadColumns(schema, projection, filter);
    if read.None? then schema else Among(schema, read.value)
  }

  /** The columns of the output: the projection, or what was read when it is missing or empty. */
  function OutputColumns(schema: seq<string>, projection: Option<seq<string>>, filter: Option<Expr>): seq<string> {
    if projection.Some? && projection.value != [] then projection.value else ReaderColumns(schema, projection, filter)
  }

  /** A column asked for that the table does not have. */
  predicate AsksUnknown(schema: seq<string>, projection: Option<seq<string>>, filter: Option<Expr>) {
    var read := ReadColumns(schema, projection, filter);
    read.Some? && exists c :: c in read.value && c !in schema
  }

  /** The rows of a table have none but its columns. */
  predicate RowsWithin(table: seq<Row>, schema: seq<string>) {
    forall row, c | row in table && c in row :: c in schema
  }

  lemma {:induction false} RecheckOfPassing(f: RowFilter, e: Expr, table: seq<Row>, params: Params)
    requires forall row | row in table :: IsTrue(e, row, params) ==> Passes(f, row)
    ensures FilterRows(e, PassingRows(f, table), params) == FilterRows(e, table, params)
  {
    hide IsTrue, Passes;
    if table != [] {
      var rest := PassingRows(f, table[1..]);
      RecheckOfPassing(f, e, table[1..], params);
      if Passes(f, table[0]) {
        assert ([table[0]] + rest)[1..] == rest;
      } else {
        assert [] + rest == rest && [] + FilterRows(e, rest, params) == FilterRows(e, rest, params);
      }
    }
  }

  lemma {:induction false} ExactPassing(f: RowFilter, e: Expr, table: seq<Row>, params: Params)
    requires forall row | row in table :: IsTrue(e, row, params) <==> Passes(f, row)
    ensures PassingRows(f, table) == FilterRows(e, table, params)
  {
    hide IsTrue, Passes;
    if table != [] {
      ExactPassing(f, e, table[1..], params);
    }
  }

  lemma {:induction false} FilteredTwice(e: Expr, rows: seq<Row>, params: Params)
    ensures FilterRows(e, FilterRows(e, rows, params), params) == FilterRows(e, rows, params)
    ensures forall row | row in FilterRows(e, rows, params) :: IsTrue(e, row, params)
  {
    hide IsTrue;
    if rows != [] {
      var rest := FilterRows(e, rows[1..], params);
      FilteredTwice(e, rows[1..], params);
      assert ([rows[0]] + rest)[1..] == rest && [] + rest == rest;
    }
  }

  lemma {:induction false} AllTrueKept(e: Expr, rows: seq<Row>, params: Params)
    requires forall row | row in rows :: IsTrue(e, row, params)
    ensures FilterRows(e, rows, params) == rows
  {
    hide IsTrue;
    if rows != [] {
      AllTrueKept(e, rows[1..], params);
    }
  }

  /** The rows read: under an exact filter the limit is pushed, otherwise it is withheld. */
  function RowsRead(f: RowFilter, exact: bool, limit: Option<nat>, table: seq<Row>): seq<Row> {
    TakeBy(if exact then limit else None, PassingRows(f, table))
  }

  /** Pushed under an exact filter or withheld under an inexact one, the limit gives the same rows. */
  lemma LimitPlacementIsInvisible(e: Expr, limit: Option<nat>, table: seq<Row>, params: Params, icebergTable: Table)
    requires WellFormed(e) && NeverStuck(e, table, params)
    ensures var (f, exact) := Translate(e, params, false, icebergTable);
            TakeBy(limit, FilterRows(e, RowsRead(f, exact, limit, table), params))
            == TakeBy(limit, FilterRows(e, table, params))
  {
    var (f, exact) := Translate(e, params, false, icebergTable);
    forall row | row in table
      ensures IsTrue(e, row, params) ==> Passes(f, row)
      ensures exact ==> (IsTrue(e, row, params) <==> Passes(f, row))
    {
      TranslationIsFaithful(e, params, false, icebergTable, row);
    }
    RecheckOfPassing(f, e, table, params);
    if exact {
      ExactPassing(f, e, table, params);
      FilteredTwice(e, table, params);
      AllTrueKept(e, TakeBy(limit, FilterRows(e, table, params)), params);
    }
  }

  lemma {:induction false} PrunedTwice(rows: seq<Row>, wide: seq<string>, narrow: seq<string>)
    requires forall c | c in narrow :: c in wide
    ensures PruneAll(PruneAll(rows, wide), narrow) == PruneAll(rows, narrow)
  {
    if rows != [] {
      PrunedTwice(rows[1..], wide, narrow);
      assert Prune(Prune(rows[0], wide), narrow) == Prune(rows[0], narrow);
      assert PruneAll(rows, wide)[1..] == PruneAll(rows[1..], wide);
    }
  }

  /** Every column of the predicate that a row has is read. */
  lemma PredicateColumnsRead(e: Expr, schema: seq<string>, projection: Option<seq<string>>, rows: seq<Row>)
    requires RowsWithin(rows, schema)
    ensures PruningSpares(e, ReaderColumns(schema, projection, Some(e)), rows)
  {
    assert WalkAll([e]) == Walk(e) + WalkAll([]);
    forall row, n | row in rows && n in Walk(e) && n.Column?
      ensures n.name in ReaderColumns(schema, projection, Some(e)) || n.name !in row
    {
      assert n == Column(n.name);
      ColumnNamesHas(WalkAll([e]), n.name);
      assert n.name in FilterColumns(Some(e));
    }
  }

  lemma {:induction false} NeverStuckPruned(e: Expr, columns: seq<string>, rows: seq<Row>, params: Params)
    requires NeverStuck(e, rows, params) && PruningSpares(e, columns, rows)
    ensures NeverStuck(e, PruneAll(rows, columns), params)
  {
    if rows != [] {
      PruningSparesStep(e, columns, rows, params);
      hide PruningSpares, Eval;
      NeverStuckPruned(e, columns, rows[1..], params);
    }
  }

  lemma {:induction false} PassingRowsSubset(f: RowFilter, rows: seq<Row>)
    ensures forall row | row in PassingRows(f, rows) :: row in rows
  {
    if rows != [] {
      PassingRowsSubset(f, rows[1..]);
    }
  }

  datatype ScanError = UntranslatableTest | UnknownColumn

  /** The row filter of the scan, and whether it is exact. */
  function RowFilterOf(filter: Option<Expr>, params: Params, icebergTable: Table): (RowFilter, bool) {
    if filter.Some? then Translate(filter.value, params, false, icebergTable) else (AlwaysTrue, true)
  }

  /**
   The scan of a pushed predicate, projection and limit, for any batching the reader chooses: exactly
   what a fully capable scan owes. It fails exactly when it asks for a column the table lacks or some
   test of the predicate cannot be bound to its column.
   */
  method Scan(
    table: seq<Row>, schema: seq<string>, reader: seq<seq<Row>>, projection: Option<seq<string>>, filter: Option<Expr>,
    limit: Option<nat>, batchSize: nat, params: Params, icebergTable: Table) returns (r: Result<seq<seq<Row>>, ScanError>)
    requires batchSize > 0 && RowsWithin(table, schema) && ValidParams(params)
    requires filter.Some? ==> Evaluable(filter.value) && WellFormed(filter.value)
    requires filter.Some? && !RefusesTest(filter.value, params, icebergTable) ==> NeverStuck(filter.value, table, params)
    requires var (f, exact) := RowFilterOf(filter, params, icebergTable);
             Flatten(reader) == PruneAll(RowsRead(f, exact, limit, table), ReaderColumns(schema, projection, filter))
    ensures r.Failure? <==>
              || AsksUnknown(schema, projection, filter)
              || (filter.Some? && RefusesTest(filter.value, params, icebergTable))
    ensures r.Success? ==>
              && Flatten(r.value)
                 == PruneAll(TakeBy(limit, FilterBy(filter, table, params)), OutputColumns(schema, projection, filter))
              && Sized(r.value, batchSize)
  {
    hide Evaluable, WellFormed, NeverStuck, RowsWithin, PruneAll, FilterBy, Flatten, RefusesTest, Translate;
    var (rowFilter, exact) := RowFilterOf(filter, params, icebergTable);
    if filter.Some? {
      AbortsIff(filter.value, params, false, icebergTable);
      if Aborts(rowFilter) {
        return Failure(UntranslatableTest);
      }
    }
    var read := ReadColumns(schema, projection, filter);
    if read.Some? && exists c :: c in read.value && c !in schema {
      return Failure(UnknownColumn);
    }
    RecheckIsNeverStuck(table, schema, projection, filter, limit, params, icebergTable);
    var names := OutputColumns(schema, projection, filter);
    var batches := Batches(reader, names, filter, limit, batchSize, params);
    ScanDelivers(table, schema, projection, filter, limit, params, icebergTable);
    r := Success(batches);
  }

  lemma RowsReadSubset(f: RowFilter, exact: bool, limit: Option<nat>, table: seq<Row>)
    ensures forall row | row in RowsRead(f, exact, limit, table) :: row in table
  {
    PassingRowsSubset(f, table);
  }

  lemma RecheckIsNeverStuck(
    table: seq<Row>, schema: seq<string>, projection: Option<seq<string>>, filter: Option<Expr>, limit: Option<nat>,
    params: Params, icebergTable: Table)
    requires RowsWithin(table, schema) && (filter.Some? ==> NeverStuck(filter.value, table, params))
    ensures var (f, exact) := RowFilterOf(filter, params, icebergTable);
            filter.Some? ==>
              NeverStuck(filter.value, PruneAll(RowsRead(f, exact, limit, table), ReaderColumns(schema, projection, filter)), params)
  {
    if filter.Some? {
      var (f, exact) := RowFilterOf(filter, params, icebergTable);
      var rows := RowsRead(f, exact, limit, table);
      RowsReadSubset(f, exact, limit, table);
      PredicateColumnsRead(filter.value, schema, projection, rows);
      NeverStuckPruned(filter.value, ReaderColumns(schema, projection, filter), rows, params);
    }
  }

  lemma {:induction false} AllPass'(table: seq<Row>)
    ensures PassingRows(AlwaysTrue, table) == table
  {
    if table != [] {
      AllPass'(table[1..]);
    }
  }

  lemma ScanDelivers(
    table: seq<Row>, schema: seq<string>, projection: Option<seq<string>>, filter: Option<Expr>, limit: Option<nat>,
    params: Params, icebergTable: Table)
    requires RowsWithin(table, schema) && !AsksUnknown(schema, projection, filter)
    requires filter.Some? ==> WellFormed(filter.value) && NeverStuck(filter.value, table, params)
    ensures var (f, exact) := RowFilterOf(filter, params, icebergTable);
            var read := PruneAll(RowsRead(f, exact, limit, table), ReaderColumns(schema, projection, filter));
            var names := OutputColumns(schema, projection, filter);
            PruneAll(TakeBy(limit, FilterBy(filter, read, params)), names)
            == PruneAll(TakeBy(limit, FilterBy(filter, table, params)), names)
  {
    var (f, exact) := RowFilterOf(filter, params, icebergTable);
    var rows, wide := RowsRead(f, exact, limit, table), ReaderColumns(schema, projection, filter);
    if filter.Some? {
      RowsReadSubset(f, exact, limit, table);
      PredicateColumnsRead(filter.value, schema, projection, rows);
      FilterOfPruned(filter.value, wide, rows, params);
      LimitPlacementIsInvisible(filter.value, limit, table, params, icebergTable);
    } else {
      AllPass'(table);
    }
    var kept := FilterBy(filter, rows, params);
    TakeOfPruned(limit, kept, wide);
    OutputIsRead(schema, projection, filter);
    PrunedTwice(TakeBy(limit, kept), wide, OutputColumns(schema, projection, filter));
  }

  lemma OutputIsRead(schema: seq<string>, projection: Option<seq<string>>, filter: Option<Expr>)
    requires !AsksUnknown(schema, projection, filter)
    ensures forall c | c in OutputColumns(schema, projection, filter) :: c in ReaderColumns(schema, projection, filter)
  {
    if projection.Some? {
      var read := ReadColumns(schema, projection, filter).value;
      assert forall c | c in projection.value :: c in read;
    }
  }
}
