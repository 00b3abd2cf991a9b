/**
 Row streams cut into batches, as every scan delivers them: what concatenating, filtering, trimming
 and limiting batches preserves. A limit is counted down while batches arrive, so the central fact
 is `AdmitMore`: what a limit keeps of the rows seen so far and of the batch that arrives next is
 what it keeps of both together, whatever the sizes of the batches.
 */
module Streams {
  import opened Wrappers
  import opened Values
  import opened Expressions
  import opened Plans
  import opened Execution

  function Flatten<T>(batches: seq<seq<T>>): seq<T> {
    if batches == [] then [] else batches[0] + Flatten(batches[1..])
  }

  lemma {:induction false} FlattenConcat<T>(xs: seq<seq<T>>, ys: seq<seq<T>>)
    ensures Flatten(xs + ys) == Flatten(xs) + Flatten(ys)
  {
    if xs == [] {
      assert xs + ys == ys;
    } else {
      assert (xs + ys)[1..] == xs[1..] + ys;
      FlattenConcat(xs[1..], ys);
    }
  }

  lemma FlattenSnoc<T>(xs: seq<seq<T>>, y: seq<T>)
    ensures Flatten(xs + [y]) == Flatten(xs) + y
  {
    FlattenConcat(xs, [y]);
    assert [y][1..] == [];
    assert Flatten([y]) == y + Flatten<T>([]);
  }

  lemma {:induction false} FilterRowsConcat(e: Expr, xs: seq<Row>, ys: seq<Row>, params: Params)
    ensures FilterRows(e, xs + ys, params) == FilterRows(e, xs, params) + FilterRows(e, ys, params)
  {
    hide IsTrue;
    if xs == [] {
      assert xs + ys == ys;
    } else {
      assert (xs + ys)[1..] == xs[1..] + ys;
      FilterRowsConcat(e, xs[1..], ys, params);
    }
  }

  lemma {:induction false} PruneAllConcat(xs: seq<Row>, ys: seq<Row>, columns: seq<string>)
    ensures PruneAll(xs + ys, columns) == PruneAll(xs, columns) + PruneAll(ys, columns)
  {
    if xs == [] {
      assert xs + ys == ys;
    } else {
      assert (xs + ys)[1..] == xs[1..] + ys;
      PruneAllConcat(xs[1..], ys, columns);
    }
  }

  /** Reading one more batch of a stream. */
  lemma ReadBatch<T>(batches: seq<seq<T>>, i: nat)
    requires i < |batches|
    ensures Flatten(batches[..i + 1]) == Flatten(batches[..i]) + batches[i]
  {
    assert batches[..i + 1] == batches[..i] + [batches[i]];
    FlattenSnoc(batches[..i], batches[i]);
  }

  lemma SplitStream<T>(batches: seq<seq<T>>, i: nat)
    requires i <= |batches|
    ensures Flatten(batches) == Flatten(batches[..i]) + Flatten(batches[i..])
  {
    assert batches == batches[..i] + batches[i..];
    FlattenConcat(batches[..i], batches[i..]);
  }

  lemma {:induction false} BatchWithin<T>(batches: seq<seq<T>>, i: nat)
    requires i < |batches|
    ensures forall x | x in batches[i] :: x in Flatten(batches)
  {
    if i > 0 {
      BatchWithin(batches[1..], i - 1);
    }
  }

  predicate NeverStuck(e: Expr, rows: seq<Row>, params: Params) {
    forall row | row in rows :: !Eval(e, row, params).Fault?
  }

  /** The rows trimmed to the columns asked for, or whole. */
  function PruneBy(columns: Option<seq<string>>, rows: seq<Row>): seq<Row> {
    if columns.Some? then PruneAll(rows, columns.value) else rows
  }

  /** How much of the limit is left after `produced` rows. */
  function Remaining(limit: Option<nat>, produced: nat): Option<int> {
    if limit.None? then None else Some(limit.value - produced)
  }

  /** What a limit leaves of newly arrived rows, and what is left of the limit afterwards. */
  function Admitted<T>(limit: Option<nat>, produced: nat, added: seq<T>): seq<T>
    requires limit.Some? ==> produced <= limit.value
  {
    if limit.Some? then Take(limit.value - produced, added) else added
  }

  lemma AdmitMore<T>(limit: Option<nat>, seen: seq<T>, added: seq<T>)
    ensures var admitted := Admitted(limit, |TakeBy(limit, seen)|, added);
            TakeBy(limit, seen + added) == TakeBy(limit, seen) + admitted
  {
  }

  predicate Sized<T(==)>(batches: seq<seq<T>>, batchSize: nat) {
    forall b | b in batches :: 1 <= |b| <= batchSize
  }

  /** Cuts a row stream into batches: a full buffer is yielded at once, the rest at the end. */
  method BatchRows<T(==)>(rows: seq<T>, batchSize: nat) returns (out: seq<seq<T>>)
    requires batchSize > 0
    ensures Flatten(out) == rows && Sized(out, batchSize)
    ensures forall i | 0 <= i < |out| - 1 :: |out[i]| == batchSize
  {
    out := [];
    var buffer: seq<T> := [];
    for i := 0 to |rows|
      invariant Flatten(out) + buffer == rows[..i] && |buffer| < batchSize
      invariant forall b | b in out :: |b| == batchSize
    {
      var grown := buffer + [rows[i]];
      assert rows[..i + 1] == rows[..i] + [rows[i]];
      assert Flatten(out) + grown == (Flatten(out) + buffer) + [rows[i]];
      buffer := grown;
      if |buffer| >= batchSize {
        FlattenSnoc(out, buffer);
        out := out + [buffer];
        buffer := [];
      }
    }
    assert rows[..|rows|] == rows;
    if buffer != [] {
      FlattenSnoc(out, buffer);
      out := out + [buffer];
    }
  }

  lemma {:induction false} TakeOfPruned(limit: Option<nat>, rows: seq<Row>, columns: seq<string>)
    ensures PruneAll(TakeBy(limit, rows), columns) == TakeBy(limit, PruneAll(rows, columns))
  {
    assert limit.Some? && limit.value < |rows| ==>
        PruneAll(rows[..limit.value], columns) == PruneAll(rows, columns)[..limit.value];
  }
}
