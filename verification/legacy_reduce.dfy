/** The earlier short-circuiting `reduce` of addon/utils/reduce.js: one
    combined stop check (the `CANCEL` object or a destroyed context), no
    reason, no performed marks, and a plain object as the cancelled result. */
module LegacyReduce {
  import opened Wrappers
  import opened Values
  import Liveness
  import ShortCircuit
  import opened Folds

  /** The own key of the `IS_CANCELLED` object. */
  const CancelledKey: string := "@@ember-pipeline/is-cancelled"

  /** The one `CANCEL` object of this revision; the loop compares with `===`. */
  const Cancel: Val := Token(Undefined)

  /** `context && (context.isDestroyed || context.isDestroying)`. */
  predicate ContextFlagged(el: Val) {
    var context := Get(el, "context");
    Truthy(context) && (Truthy(Get(context, "isDestroyed")) || Truthy(Get(context, "isDestroying")))
  }

  /** The loop leaves at this element: `get` raises on a none element; otherwise
      the single combined check. */
  predicate Ends(el: Val, val: Val) {
    IsNone(el) || val == Cancel || ContextFlagged(el)
  }

  /** `pureAssign(IS_CANCELLED, { result: acc }, { fnName: step.fnName })`. */
  function Record(acc: Val, el: Val): Val {
    Obj(Object("[object Object]", map[CancelledKey := Bool(true), "result" := acc, "fnName" := Get(el, "fnName")]))
  }

  /** What the loop returns at an ending element: the error `get` raises on a
      none element, or the cancelled record. */
  function Halt(acc: Val, el: Val): Result<Val, Error> {
    if IsNone(el) then Err(TypeError) else Ok(Record(acc, el))
  }

  /** What the loop returns when element `k` ends it: the halt at `k`, after
      `k + 1` calls of the combining function and `k` completed elements. */
  function StoppedAt(values: seq<Val>, combine: Combine, seed: Val, k: nat): Result<Fold, Error>
    requires k < |values|
  {
    match Halt(Acc(values, combine, seed, k), values[k])
    case Ok(c) => Ok(Fold(c, Trace(values, combine, seed, k + 1), k))
    case Err(e) => Err(e)
  }

  /** The meaning of the loop: the plain fold up to the first ending element,
      then the cancelled record of the accumulator before it. */
  function Reduction(values: seq<Val>, combine: Combine, seed: Val): Result<Fold, Error> {
    var k := FirstStop(values, combine, seed, Ends, 0);
    if k == |values| then
      Ok(Fold(Acc(values, combine, seed, k), Trace(values, combine, seed, k), k))
    else
      StoppedAt(values, combine, seed, k)
  }

  /** Unfolds `Reduction` when element `k` is the first to end the loop. */
  lemma StopsAt(values: seq<Val>, combine: Combine, seed: Val, k: nat)
    requires k < |values|
    requires forall j :: 0 <= j < k ==> !Ends(values[j], Produced(values, combine, seed, j))
    requires Ends(values[k], Produced(values, combine, seed, k))
    ensures Reduction(values, combine, seed)
         == StoppedAt(values, combine, seed, k)
  {
    FirstStopIs(values, combine, seed, Ends, k);
  }

  /** Unfolds `Reduction` when no element ends the loop. */
  lemma RunsToEnd(values: seq<Val>, combine: Combine, seed: Val)
    requires forall j :: 0 <= j < |values| ==> !Ends(values[j], Produced(values, combine, seed, j))
    ensures Reduction(values, combine, seed)
         == Ok(Fold(Acc(values, combine, seed, |values|), Trace(values, combine, seed, |values|), |values|))
  {
    FirstStopIs(values, combine, seed, Ends, |values|);
  }

  /** `reduce(values, fn, acc)`, the loop as written. */
  method Reduce(values: seq<Val>, combine: Combine, seed: Val) returns (r: Result<Fold, Error>)
    ensures r == Reduction(values, combine, seed)
  {
    var acc := seed;
    var seen: seq<Val> := [];
    var i := 0;
    while i < |values|
      invariant 0 <= i <= |values|
      invariant acc == Acc(values, combine, seed, i)
      invariant seen == Trace(values, combine, seed, i)
      invariant forall j :: 0 <= j < i ==> !Ends(values[j], Produced(values, combine, seed, j))
    {
      var el := values[i];
      var val := combine(acc, el, i, values);
      TraceGrows(values, combine, seed, i);
      seen := seen + [acc];
      assert val == Produced(values, combine, seed, i);
      if IsNone(el) {
        StopsAt(values, combine, seed, i);
        return Err(TypeError);
      }
      if val == Cancel || ContextFlagged(el) {
        StopsAt(values, combine, seed, i);
        assert Halt(acc, el) == Ok(Record(acc, el));
        return Ok(Fold(Record(acc, el), seen, i));
      }
      NoStopYet(values, combine, seed, Ends, i);
      acc := val;
      i := i + 1;
    }
    RunsToEnd(values, combine, seed);
    return Ok(Fold(acc, seen, i));
  }

  /** An empty list returns the seed. */
  lemma EmptyReturnsSeed(combine: Combine, seed: Val)
    ensures Reduction([], combine, seed) == Ok(Fold(seed, [], 0))
  {
  }

  /** With no `CANCEL` and no flagged context, it is `Array.prototype.reduce`. */
  lemma UnstoppedIsLeftFold(values: seq<Val>, combine: Combine, seed: Val)
    requires forall i :: 0 <= i < |values| ==> !Ends(values[i], Produced(values, combine, seed, i))
    ensures Reduction(values, combine, seed)
         == Ok(Fold(FoldLeft(values, combine, seed, 0), Trace(values, combine, seed, |values|), |values|))
  {
    RunsToEnd(values, combine, seed);
    AccIsFoldLeft(values, combine, seed);
  }

  /** The combined check is "the `CANCEL` object, or a context the liveness
      predicate calls destroyed", with nothing deciding between the two. */
  lemma OneCombinedCheck(el: Val, val: Val)
    requires !IsNone(el)
    ensures Ends(el, val) <==> val == Cancel || Liveness.IsDestroyed(Get(el, "context"))
  {
    Liveness.DestroyedMeansFlagged(Get(el, "context"));
  }

  /** When every token the steps produce is the `CANCEL` object, this loop and
      the current one stop at the same element, after passing the same
      accumulators; when neither stops they return the same value. */
  lemma AgreesWithCurrent(values: seq<Val>, combine: Combine, seed: Val)
    requires forall i :: 0 <= i < |values| ==>
      Produced(values, combine, seed, i).Token? ==> Produced(values, combine, seed, i) == Cancel
    ensures FirstStop(values, combine, seed, Ends, 0) == FirstStop(values, combine, seed, ShortCircuit.Ends, 0)
    ensures Reduction(values, combine, seed).Ok? && ShortCircuit.Reduction(values, combine, seed).Ok? ==>
      && Reduction(values, combine, seed).value.completed == ShortCircuit.Reduction(values, combine, seed).value.completed
      && Reduction(values, combine, seed).value.seen == ShortCircuit.Reduction(values, combine, seed).value.seen
    ensures FirstStop(values, combine, seed, Ends, 0) == |values| ==>
      Reduction(values, combine, seed) == ShortCircuit.Reduction(values, combine, seed)
  {
    SameStop(values, combine, seed);
    var k := FirstStop(values, combine, seed, Ends, 0);
    if k < |values| {
      assert Reduction(values, combine, seed) == StoppedAt(values, combine, seed, k);
      assert ShortCircuit.Reduction(values, combine, seed) == ShortCircuit.StoppedAt(values, combine, seed, k);
    }
  }

  /** Under the same assumption both loops stop at the same element. */
  lemma SameStop(values: seq<Val>, combine: Combine, seed: Val)
    requires forall i :: 0 <= i < |values| ==>
      Produced(values, combine, seed, i).Token? ==> Produced(values, combine, seed, i) == Cancel
    ensures FirstStop(values, combine, seed, Ends, 0) == FirstStop(values, combine, seed, ShortCircuit.Ends, 0)
  {
    forall i | 0 <= i < |values|
      ensures Ends(values[i], Produced(values, combine, seed, i))
           == ShortCircuit.Ends(values[i], Produced(values, combine, seed, i))
    {
      Liveness.DestroyedMeansFlagged(Get(values[i], "context"));
    }
    FirstStopAgrees(values, combine, seed, Ends, ShortCircuit.Ends);
  }
}
