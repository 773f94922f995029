/** The reduce test cases of tests/unit/reduce-test.js and
    tests/unit/utils/reduce-test.js, with their functions given as a host. */
module ReduceScenarios {
  import opened Wrappers
  import opened Values
  import opened Folds
  import ShortCircuit
  import LegacyReduce
  import Cancellations

  /** `(acc, curr) => acc + curr` on numbers. */
  function Sum(acc: Val, el: Val, i: nat, values: seq<Val>): Val {
    if acc.Num? && el.Num? then Num(acc.n + el.n) else Undefined
  }

  /** The three functions of the cancel test: `x => x + 1`, `() => CANCEL()`
      and `x => x * x` as references 0, 1 and 2. */
  function CancelTestHost(id: nat, args: seq<Val>): Val {
    var x := if |args| > 0 && args[0].Num? then args[0].n else 0;
    if id == 0 then Num(x + 1)
    else if id == 1 then Token(Undefined)
    else Num(x * x)
  }

  /** `(acc, fn) => fn(acc)`. */
  function CallEach(acc: Val, el: Val, i: nat, values: seq<Val>): Val {
    if el.Func? then CancelTestHost(el.id, [acc]) else Undefined
  }

  /** `reduce([1, 2, 3], (acc, curr) => acc + curr, 0) == 6`: every element
      completes and the combining function saw the running sums. */
  lemma SumsOneTwoThree()
    ensures ShortCircuit.Reduction([Num(1), Num(2), Num(3)], Sum, Num(0))
         == Ok(Fold(Num(6), [Num(0), Num(1), Num(3)], 3))
  {
    var vs := [Num(1), Num(2), Num(3)];
    assert Acc(vs, Sum, Num(0), 1) == Num(1);
    assert Acc(vs, Sum, Num(0), 2) == Num(3);
    assert Acc(vs, Sum, Num(0), 3) == Num(6);
    ShortCircuit.RunsToEnd(vs, Sum, Num(0));
    assert Trace(vs, Sum, Num(0), 3) == [Num(0), Num(1), Num(3)];
  }

  /** The earlier loop sums the same list to the same value. */
  lemma LegacySumsOneTwoThree()
    ensures LegacyReduce.Reduction([Num(1), Num(2), Num(3)], Sum, Num(0)).Ok?
    ensures LegacyReduce.Reduction([Num(1), Num(2), Num(3)], Sum, Num(0)).value.value == Num(6)
  {
    var vs := [Num(1), Num(2), Num(3)];
    assert Acc(vs, Sum, Num(0), 1) == Num(1);
    assert Acc(vs, Sum, Num(0), 2) == Num(3);
    assert Acc(vs, Sum, Num(0), 3) == Num(6);
    assert forall j :: 0 <= j < 3 ==> Produced(vs, Sum, Num(0), j) == Acc(vs, Sum, Num(0), j + 1);
    assert forall j :: 0 <= j < 3 ==> !LegacyReduce.ContextFlagged(vs[j]);
    LegacyReduce.RunsToEnd(vs, Sum, Num(0));
  }

  /** `(acc, curr) => [...acc, curr * 2]` on an array and a number. */
  function AppendDouble(acc: Val, el: Val, i: nat, values: seq<Val>): Val {
    if acc.Arr? && el.Num? then Arr(acc.items + [Num(el.n * 2)]) else Undefined
  }

  /** `reduce([1, 2, 3], (acc, curr) => [...acc, curr * 2], []) == [2, 4, 6]`, in both loops. */
  lemma DoublesOneTwoThree()
    ensures ShortCircuit.Reduction([Num(1), Num(2), Num(3)], AppendDouble, Arr([])).Ok?
    ensures ShortCircuit.Reduction([Num(1), Num(2), Num(3)], AppendDouble, Arr([])).value.value
         == Arr([Num(2), Num(4), Num(6)])
    ensures LegacyReduce.Reduction([Num(1), Num(2), Num(3)], AppendDouble, Arr([])).Ok?
    ensures LegacyReduce.Reduction([Num(1), Num(2), Num(3)], AppendDouble, Arr([])).value.value
         == Arr([Num(2), Num(4), Num(6)])
  {
    var vs := [Num(1), Num(2), Num(3)];
    assert Acc(vs, AppendDouble, Arr([]), 1) == Arr([Num(2)]);
    assert Acc(vs, AppendDouble, Arr([]), 2) == Arr([Num(2), Num(4)]);
    assert Acc(vs, AppendDouble, Arr([]), 3) == Arr([Num(2), Num(4), Num(6)]);
    assert forall j :: 0 <= j < 3 ==> Produced(vs, AppendDouble, Arr([]), j) == Acc(vs, AppendDouble, Arr([]), j + 1);
    assert forall j :: 0 <= j < 3 ==> !LegacyReduce.ContextFlagged(vs[j]) && !ShortCircuit.ContextDestroyed(vs[j]);
    ShortCircuit.RunsToEnd(vs, AppendDouble, Arr([]));
    LegacyReduce.RunsToEnd(vs, AppendDouble, Arr([]));
  }

  /** `[x => x + 1, () => CANCEL(), x => x * x]` from 9: cancelled at the
      second function, holding 10, with no reason, reporting the second
      function's source text as its name; the third is never called. */
  lemma CancelKeepsTen()
    ensures var r := ShortCircuit.Reduction([Func(0), Func(1), Func(2)], CallEach, Num(9));
      && r.Ok?
      && Cancellations.IsCancelled(r.value.value)
      && r.value.value.cancellation.result == Num(10)
      && r.value.value.cancellation.reason == Undefined
      && Cancellations.FnName(r.value.value.cancellation) == Cancellations.SourceText(Func(1))
      && r.value.seen == [Num(9), Num(10)]
  {
    var vs := [Func(0), Func(1), Func(2)];
    assert Acc(vs, CallEach, Num(9), 1) == Num(10);
    assert Produced(vs, CallEach, Num(9), 1) == Token(Undefined);
    ShortCircuit.TokenCancels(vs, CallEach, Num(9), 1);
    assert Trace(vs, CallEach, Num(9), 2) == [Num(9), Num(10)];
  }

  /** The earlier loop on the same functions: the cancelled record holds 10
      and the function's `fnName`, which is `undefined`. */
  lemma LegacyCancelKeepsTen()
    ensures LegacyReduce.Reduction([Func(0), Func(1), Func(2)], CallEach, Num(9))
         == Ok(Fold(Obj(Object("[object Object]", map[LegacyReduce.CancelledKey := Bool(true), "result" := Num(10), "fnName" := Undefined])),
                    [Num(9), Num(10)], 1))
  {
    var vs := [Func(0), Func(1), Func(2)];
    assert Acc(vs, CallEach, Num(9), 1) == Num(10);
    assert Produced(vs, CallEach, Num(9), 1) == LegacyReduce.Cancel;
    LegacyReduce.StopsAt(vs, CallEach, Num(9), 1);
    assert Trace(vs, CallEach, Num(9), 2) == [Num(9), Num(10)];
  }
}
