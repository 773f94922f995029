/** Left folds over a list of values with a JavaScript-style combining
    function `(acc, value, index, values)`, the reference against which both
    short-circuiting reduce loops are stated. */
module Folds {
  import opened Values

  /** A combining function receives the accumulator, the element, its index and the whole list. */
  type Combine = (Val, Val, nat, seq<Val>) -> Val

  /** What a reduce loop leaves behind: its return value, the accumulator it
      passed to each call of the combining function (in call order), and how
      many elements completed without stopping the loop. */
  datatype Fold = Fold(value: Val, seen: seq<Val>, completed: nat)

  /** The accumulator an unstopped fold holds before index `i`. */
  function Acc(values: seq<Val>, combine: Combine, seed: Val, i: nat): Val
    requires i <= |values|
  {
    if i == 0 then seed else combine(Acc(values, combine, seed, i - 1), values[i - 1], i - 1, values)
  }

  /** What the combining function returns at index `i` of an unstopped fold. */
  function Produced(values: seq<Val>, combine: Combine, seed: Val, i: nat): Val
    requires i < |values|
  {
    combine(Acc(values, combine, seed, i), values[i], i, values)
  }

  /** The accumulators handed to the first `m` calls of the combining function. */
  function Trace(values: seq<Val>, combine: Combine, seed: Val, m: nat): (t: seq<Val>)
    requires m <= |values|
    ensures |t| == m
    ensures forall i :: 0 <= i < m ==> t[i] == Acc(values, combine, seed, i)
  {
    seq(m, i requires 0 <= i < m => Acc(values, combine, seed, i))
  }

  /** One more call of the combining function appends the accumulator it was given. */
  lemma TraceGrows(values: seq<Val>, combine: Combine, seed: Val, m: nat)
    requires m < |values|
    ensures Trace(values, combine, seed, m + 1) == Trace(values, combine, seed, m) + [Acc(values, combine, seed, m)]
  {
    var a := Trace(values, combine, seed, m + 1);
    var b := Trace(values, combine, seed, m) + [Acc(values, combine, seed, m)];
    assert forall i :: 0 <= i < m + 1 ==> a[i] == b[i];
  }

  /** The first index at or after `from` whose element and produced value
      satisfy `stops`, or `|values|` when there is none. */
  function FirstStop(values: seq<Val>, combine: Combine, seed: Val, stops: (Val, Val) -> bool, from: nat): (k: nat)
    requires from <= |values|
    ensures from <= k <= |values|
    ensures k < |values| ==> stops(values[k], Produced(values, combine, seed, k))
    ensures forall j :: from <= j < k ==> !stops(values[j], Produced(values, combine, seed, j))
    decreases |values| - from
  {
    if from == |values| then from
    else if stops(values[from], Produced(values, combine, seed, from)) then from
    else FirstStop(values, combine, seed, stops, from + 1)
  }

  /** An index is the first stop exactly when it stops (or is the end) and nothing before it does. */
  lemma FirstStopIs(values: seq<Val>, combine: Combine, seed: Val, stops: (Val, Val) -> bool, k: nat)
    requires k <= |values|
    requires k < |values| ==> stops(values[k], Produced(values, combine, seed, k))
    requires forall j :: 0 <= j < k ==> !stops(values[j], Produced(values, combine, seed, j))
    ensures FirstStop(values, combine, seed, stops, 0) == k
  {
  }

  /** "Nothing before `i` stopped", carried one index further. */
  lemma NoStopYet(values: seq<Val>, combine: Combine, seed: Val, stops: (Val, Val) -> bool, i: nat)
    requires i < |values|
    requires forall j :: 0 <= j < i ==> !stops(values[j], Produced(values, combine, seed, j))
    requires !stops(values[i], Produced(values, combine, seed, i))
    ensures forall j :: 0 <= j < i + 1 ==> !stops(values[j], Produced(values, combine, seed, j))
  {
  }

  /** Two stop tests that agree on every element and produced value find the same first stop. */
  lemma FirstStopAgrees(values: seq<Val>, combine: Combine, seed: Val, s1: (Val, Val) -> bool, s2: (Val, Val) -> bool)
    requires forall i :: 0 <= i < |values| ==>
      s1(values[i], Produced(values, combine, seed, i)) == s2(values[i], Produced(values, combine, seed, i))
    ensures FirstStop(values, combine, seed, s1, 0) == FirstStop(values, combine, seed, s2, 0)
  {
    var k := FirstStop(values, combine, seed, s1, 0);
    FirstStopIs(values, combine, seed, s2, k);
  }

  /** `Array.prototype.reduce` from index `i` with accumulator `acc`. */
  function FoldLeft(values: seq<Val>, combine: Combine, acc: Val, i: nat): Val
    requires i <= |values|
    decreases |values| - i
  {
    if i == |values| then acc else FoldLeft(values, combine, combine(acc, values[i], i, values), i + 1)
  }

  /** The accumulator after the last element is the ordinary left fold. */
  lemma {:induction false} AccIsFoldLeft(values: seq<Val>, combine: Combine, seed: Val)
    ensures Acc(values, combine, seed, |values|) == FoldLeft(values, combine, seed, 0)
  {
    var i := |values|;
    while i > 0
      invariant 0 <= i <= |values|
      invariant FoldLeft(values, combine, Acc(values, combine, seed, i), i) == Acc(values, combine, seed, |values|)
    {
      i := i - 1;
    }
  }
}
