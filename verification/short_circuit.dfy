/** The short-circuiting `reduce` of addon/-reduce.js: a left fold that stops
    at the first element whose context is destroyed or whose produced value is
    the cancel token, and then returns a Cancellation wrapping the accumulator
    from before that element. */
module ShortCircuit {
  import opened Wrappers
  import opened Values
  import opened Liveness
  import Cancellations
  import opened Folds

  /** `isDestroyed(get(step, 'context'))`. */
  predicate ContextDestroyed(el: Val) {
    IsDestroyed(Get(el, "context"))
  }

  /** The loop leaves at this element: Ember's `get` raises on a none element,
      a destroyed context stops it, and so does the cancel token. */
  predicate Ends(el: Val, val: Val) {
    IsNone(el) || ContextDestroyed(el) || val.Token?
  }

  /** The reason a stop records: the destroyed-context check runs first, so its
      message wins over the token's own reason. */
  function StopReason(el: Val, val: Val): Val {
    if ContextDestroyed(el) then Str(DisplayName(Get(el, "context")) + " destroyed")
    else if val.Token? then val.reason
    else Undefined
  }

  /** What the loop returns at an ending element: the raised error, or the
      Cancellation holding the pre-step accumulator. */
  function Halt(acc: Val, el: Val, val: Val): Result<Val, Error> {
    if IsNone(el) then Err(TypeError)
    else
      match Cancellations.New(acc, el, StopReason(el, val))
      case Ok(c) => Ok(CancellationObj(c))
      case Err(e) => Err(e)
  }

  /** `markPerformed(step)`: only `Step` instances take the mark. */
  predicate MarkPerformed(el: Val) {
    el.StepObj?
  }

  /** The performed flags of `values` once the first `completed` elements were marked. */
  function Marks(values: seq<Val>, completed: nat): (m: seq<bool>)
    ensures |m| == |values|
    ensures forall i :: 0 <= i < |values| ==> m[i] == (i < completed && MarkPerformed(values[i]))
  {
    seq(|values|, i requires 0 <= i < |values| => i < completed && MarkPerformed(values[i]))
  }

  /** What the loop returns when element `k` ends it: the halt at `k`, after
      `k + 1` calls of the combining function and `k` completed elements. */
  function StoppedAt(values: seq<Val>, combine: Combine, seed: Val, k: nat): Result<Fold, Error>
    requires k < |values|
  {
    match Halt(Acc(values, combine, seed, k), values[k], Produced(values, combine, seed, k))
    case Ok(c) => Ok(Fold(c, Trace(values, combine, seed, k + 1), k))
    case Err(e) => Err(e)
  }

  /** The meaning of the loop: the plain fold up to the first ending element,
      then that element's halt; without one, the fold of the whole list. */
  function Reduction(values: seq<Val>, combine: Combine, seed: Val): Result<Fold, Error> {
    var k := FirstStop(values, combine, seed, Ends, 0);
    if k == |values| then
      Ok(Fold(Acc(values, combine, seed, k), Trace(values, combine, seed, k), k))
    else
      StoppedAt(values, combine, seed, k)
  }

  /** Unfolds `Reduction` when element `k` is the first to end the loop. */
  lemma StopsAt(values: seq<Val>, combine: Combine, seed: Val, k: nat)
    requires k < |values|
    requires forall j :: 0 <= j < k ==> !Ends(values[j], Produced(values, combine, seed, j))
    requires Ends(values[k], Produced(values, combine, seed, k))
    ensures Reduction(values, combine, seed)
         == StoppedAt(values, combine, seed, k)
  {
    FirstStopIs(values, combine, seed, Ends, k);
  }

  /** Unfolds `Reduction` when no element ends the loop. */
  lemma RunsToEnd(values: seq<Val>, combine: Combine, seed: Val)
    requires forall j :: 0 <= j < |values| ==> !Ends(values[j], Produced(values, combine, seed, j))
    ensures Reduction(values, combine, seed)
         == Ok(Fold(Acc(values, combine, seed, |values|), Trace(values, combine, seed, |values|), |values|))
  {
    FirstStopIs(values, combine, seed, Ends, |values|);
  }

  /** `reduce(values, fn, acc)`, the loop as written. */
  method Reduce(values: seq<Val>, combine: Combine, seed: Val) returns (r: Result<Fold, Error>)
    ensures r == Reduction(values, combine, seed)
  {
    var acc := seed;
    var seen: seq<Val> := [];
    var i := 0;
    while i < |values|
      invariant 0 <= i <= |values|
      invariant acc == Acc(values, combine, seed, i)
      invariant seen == Trace(values, combine, seed, i)
      invariant forall j :: 0 <= j < i ==> !Ends(values[j], Produced(values, combine, seed, j))
    {
      var el := values[i];
      var val := combine(acc, el, i, values);
      TraceGrows(values, combine, seed, i);
      seen := seen + [acc];
      assert val == Produced(values, combine, seed, i);
      if IsNone(el) {
        StopsAt(values, combine, seed, i);
        return Err(TypeError);
      }
      var context := Get(el, "context");
      if IsDestroyed(context) {
        StopsAt(values, combine, seed, i);
        var c := Cancellations.New(acc, el, Str(DisplayName(context) + " destroyed"));
        assert StopReason(el, val) == Str(DisplayName(context) + " destroyed");
        if c.Err? {
          return Err(c.error);
        }
        return Ok(Fold(CancellationObj(c.value), seen, i));
      }
      if val.Token? {
        StopsAt(values, combine, seed, i);
        var c := Cancellations.New(acc, el, val.reason);
        assert StopReason(el, val) == val.reason;
        if c.Err? {
          return Err(c.error);
        }
        return Ok(Fold(CancellationObj(c.value), seen, i));
      }
      NoStopYet(values, combine, seed, Ends, i);
      acc := val;
      i := i + 1;
    }
    RunsToEnd(values, combine, seed);
    return Ok(Fold(acc, seen, i));
  }

  /** An empty list returns the seed untouched, calling nothing. */
  lemma EmptyReturnsSeed(combine: Combine, seed: Val)
    ensures Reduction([], combine, seed) == Ok(Fold(seed, [], 0))
  {
  }

  /** When no element ends the loop it is `Array.prototype.reduce`: every
      element is combined once, in order, and every element completes. */
  lemma UnstoppedIsLeftFold(values: seq<Val>, combine: Combine, seed: Val)
    requires forall i :: 0 <= i < |values| ==> !Ends(values[i], Produced(values, combine, seed, i))
    ensures Reduction(values, combine, seed)
         == Ok(Fold(FoldLeft(values, combine, seed, 0), Trace(values, combine, seed, |values|), |values|))
  {
    RunsToEnd(values, combine, seed);
    AccIsFoldLeft(values, combine, seed);
  }

  /** A step producing the token at index `k` (its context alive) stops the
      loop: the Cancellation holds the accumulator from before step `k`, names
      step `k`, carries the token's reason; step `k` was the last one combined
      and only the steps before it completed. */
  lemma TokenCancels(values: seq<Val>, combine: Combine, seed: Val, k: nat)
    requires k < |values|
    requires forall j :: 0 <= j < k ==> !Ends(values[j], Produced(values, combine, seed, j))
    requires IsPresent(values[k]) && !ContextDestroyed(values[k])
    requires Produced(values, combine, seed, k).Token?
    ensures Reduction(values, combine, seed) == Ok(Fold(
      CancellationObj(Cancellation(true, Acc(values, combine, seed, k), values[k], Produced(values, combine, seed, k).reason)),
      Trace(values, combine, seed, k + 1),
      k))
  {
    StopsAt(values, combine, seed, k);
  }

  /** A destroyed context at index `k` stops the loop whatever step `k`
      produced, even the token: the reason names the destroyed context. Step
      `k` was still combined; its value is dropped. */
  lemma DestroyedContextWins(values: seq<Val>, combine: Combine, seed: Val, k: nat)
    requires k < |values|
    requires forall j :: 0 <= j < k ==> !Ends(values[j], Produced(values, combine, seed, j))
    requires IsPresent(values[k]) && ContextDestroyed(values[k])
    ensures Reduction(values, combine, seed) == Ok(Fold(
      CancellationObj(Cancellation(true, Acc(values, combine, seed, k), values[k],
        Str(DisplayName(Get(values[k], "context")) + " destroyed"))),
      Trace(values, combine, seed, k + 1),
      k))
  {
    StopsAt(values, combine, seed, k);
  }

  /** A run never passes the combining function anything past the stopping
      element, and the flags mark exactly the `Step` instances before it. */
  lemma NothingPastTheStop(values: seq<Val>, combine: Combine, seed: Val)
    requires Reduction(values, combine, seed).Ok?
    ensures var f := Reduction(values, combine, seed).value;
      && f.completed == FirstStop(values, combine, seed, Ends, 0)
      && |f.seen| == (if f.completed < |values| then f.completed + 1 else |values|)
      && (forall i :: 0 <= i < |f.seen| ==> f.seen[i] == Acc(values, combine, seed, i))
      && (forall i :: 0 <= i < |values| ==>
            Marks(values, f.completed)[i] == (i < FirstStop(values, combine, seed, Ends, 0) && values[i].StepObj?))
  {
  }
}
