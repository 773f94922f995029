/** How both pipes thread values through their steps, stated against two
    reference definitions: plain function composition for runs that stay
    synchronous, and composition under `await` for runs that go asynchronous.
    A promise is settled abstractly: its continuations run in order, with no
    scheduling. */
module Threading {
  import opened Values
  import opened Wrappers
  import opened Promises
  import opened Folds
  import Pipe
  import LegacyPipe
  import ShortCircuit
  import LegacyReduce

  /** The `applyFn` of the pipe that chained a continuation. */
  function Apply(fl: Flavour, maybeFn: Val, args: seq<Val>, host: Host): (r: Val)
    ensures ThenFree(r) || r in args || r == maybeFn
  {
    match fl
    case Current => Pipe.ApplyFn(maybeFn, args, host)
    case Legacy => LegacyPipe.ApplyFn(maybeFn, args, host)
  }

  /** The reducer of the pipe of flavour `fl`. */
  function CombinerOf(fl: Flavour, args: seq<Val>, host: Host): Combine {
    match fl
    case Current => Pipe.Combiner(args, host)
    case Legacy => LegacyPipe.Combiner(args, host)
  }

  /** The value a promise eventually fulfils with: a resolved promise yields
      its value, a chained one runs its continuation on its source's value.
      A value that is not promise-like is its own value; a foreign thenable,
      whose behaviour is not visible here, yields `None`. */
  function Settle(v: Val, host: Host): (r: Option<Val>)
    ensures r.Some? ==> !IsPromise(r.value)
    ensures !IsPromise(v) ==> r == Some(v)
    decreases if ThenFree(v) then 0 else 1, v
  {
    match v
    case Promise(Resolved(w)) => Settle(w, host)
    case Promise(Then(src, next, fl)) =>
      (match Settle(src, host)
       case None => None
       case Some(x) =>
         NotPromiseIsThenFree(x);
         Settle(Apply(fl, next, [x], host), host))
    case _ => if IsPromise(v) then None else Some(v)
  }

  /** Plain composition: the first step applied to the arguments, each later
      one to the previous result. */
  function Composed(fl: Flavour, steps: seq<Val>, args: seq<Val>, host: Host, i: nat): Val
    requires i < |steps|
  {
    if i == 0 then Apply(fl, steps[0], args, host)
    else Apply(fl, steps[i], [Composed(fl, steps, args, host, i - 1)], host)
  }

  /** Composition under `await`: each step receives the settled value of the
      previous one. */
  function Awaited(fl: Flavour, steps: seq<Val>, args: seq<Val>, host: Host, i: nat): Option<Val>
    requires i < |steps|
  {
    if i == 0 then Settle(Apply(fl, steps[0], args, host), host)
    else
      match Awaited(fl, steps, args, host, i - 1)
      case None => None
      case Some(x) => Settle(Apply(fl, steps[i], [x], host), host)
  }

  /** Step `i` of a pipe is given every argument of the runner when it is the
      first, otherwise the previous result, attached with `.then` exactly when
      that result is promise-like. */
  lemma ThreadsPreviousResult(fl: Flavour, steps: seq<Val>, args: seq<Val>, host: Host, i: nat)
    requires i < |steps|
    ensures var combine := CombinerOf(fl, args, host);
      var prev := Acc(steps, combine, Undefined, i);
      && Acc(steps, combine, Undefined, i + 1) == Produced(steps, combine, Undefined, i)
      && (i == 0 ==> Produced(steps, combine, Undefined, i) == Apply(fl, steps[0], args, host))
      && (i > 0 && IsPromise(prev) ==> Produced(steps, combine, Undefined, i) == Promise(Then(prev, steps[i], fl)))
      && (i > 0 && !IsPromise(prev) ==> Produced(steps, combine, Undefined, i) == Apply(fl, steps[i], [prev], host))
  {
    match fl
    case Current =>
      var prev := Acc(steps, Pipe.Combiner(args, host), Undefined, i);
      assert Produced(steps, Pipe.Combiner(args, host), Undefined, i)
          == if i == 0 then Pipe.ApplyFn(steps[0], args, host) else Pipe.Invoke(prev, steps[i], host);
    case Legacy =>
      var prev := Acc(steps, LegacyPipe.Combiner(args, host), Undefined, i);
      assert Produced(steps, LegacyPipe.Combiner(args, host), Undefined, i)
          == if i == 0 then LegacyPipe.ApplyFn(steps[0], args, host) else LegacyPipe.Invoke(prev, steps[i], host);
  }

  /** While no earlier result is promise-like, the accumulator after step `i`
      is the plain composition of the first `i + 1` steps. */
  lemma {:induction false} SyncPrefixIsComposition(fl: Flavour, steps: seq<Val>, args: seq<Val>, host: Host, i: nat)
    requires i < |steps|
    requires forall j :: 0 <= j < i ==> !IsPromise(Composed(fl, steps, args, host, j))
    ensures Acc(steps, CombinerOf(fl, args, host), Undefined, i + 1) == Composed(fl, steps, args, host, i)
  {
    ThreadsPreviousResult(fl, steps, args, host, i);
    if i > 0 {
      SyncPrefixIsComposition(fl, steps, args, host, i - 1);
    }
  }

  /** Whatever mix of synchronous and promise-returning steps, the accumulator
      after step `i` settles to the awaited composition of the first `i + 1`
      steps. */
  lemma {:induction false} SettledIsAwaited(fl: Flavour, steps: seq<Val>, args: seq<Val>, host: Host, i: nat)
    requires i < |steps|
    ensures Settle(Acc(steps, CombinerOf(fl, args, host), Undefined, i + 1), host) == Awaited(fl, steps, args, host, i)
  {
    ThreadsPreviousResult(fl, steps, args, host, i);
    if i > 0 {
      SettledIsAwaited(fl, steps, args, host, i - 1);
    }
  }

  /** Once the accumulator is promise-like, every later step is attached as a
      continuation: what the reducer hands back is a pending promise, never a
      token, so nothing a later step returns can stop the loop. */
  lemma {:induction false} OnceChainedStaysChained(fl: Flavour, steps: seq<Val>, args: seq<Val>, host: Host, i: nat, j: nat)
    requires 0 < i <= j < |steps|
    requires IsPromise(Acc(steps, CombinerOf(fl, args, host), Undefined, i))
    ensures var combine := CombinerOf(fl, args, host);
      && Produced(steps, combine, Undefined, j) == Promise(Then(Acc(steps, combine, Undefined, j), steps[j], fl))
      && IsPromise(Acc(steps, combine, Undefined, j + 1))
  {
    if j > i {
      OnceChainedStaysChained(fl, steps, args, host, i, j - 1);
    }
    ThreadsPreviousResult(fl, steps, args, host, j);
  }

  /** In a synchronous prefix the reducer produces the composition at every index up to `k`. */
  lemma ProducedIsComposed(fl: Flavour, steps: seq<Val>, args: seq<Val>, host: Host, k: nat)
    requires k < |steps|
    requires forall j :: 0 <= j < k ==> !IsPromise(Composed(fl, steps, args, host, j))
    ensures forall j :: 0 <= j <= k ==>
      Produced(steps, CombinerOf(fl, args, host), Undefined, j) == Composed(fl, steps, args, host, j)
    ensures Acc(steps, CombinerOf(fl, args, host), Undefined, k)
         == if k == 0 then Undefined else Composed(fl, steps, args, host, k - 1)
  {
    forall j | 0 <= j <= k
      ensures Produced(steps, CombinerOf(fl, args, host), Undefined, j) == Composed(fl, steps, args, host, j)
    {
      ThreadsPreviousResult(fl, steps, args, host, j);
      SyncPrefixIsComposition(fl, steps, args, host, j);
    }
    if k > 0 {
      SyncPrefixIsComposition(fl, steps, args, host, k - 1);
    }
  }

  /** `pipe([])` yields `undefined` whatever the arguments, calling nothing. */
  lemma EmptyPipeYieldsUndefined(args: seq<Val>, host: Host)
    ensures Pipe.Run([], args, host) == Ok(Fold(Undefined, [], 0))
  {
    ShortCircuit.EmptyReturnsSeed(Pipe.Combiner(args, host), Undefined);
  }

  /** A run whose steps all return synchronously, none ending the loop, is the
      plain composition of the steps, and every step completes. */
  lemma SyncRunComposes(steps: seq<Val>, args: seq<Val>, host: Host)
    requires |steps| > 0
    requires forall j :: 0 <= j < |steps| - 1 ==> !IsPromise(Composed(Current, steps, args, host, j))
    requires forall j :: 0 <= j < |steps| ==> !ShortCircuit.Ends(steps[j], Composed(Current, steps, args, host, j))
    ensures Pipe.Run(steps, args, host).Ok?
    ensures Pipe.Run(steps, args, host).value.value == Composed(Current, steps, args, host, |steps| - 1)
    ensures Pipe.Run(steps, args, host).value.completed == |steps|
  {
    var n := |steps|;
    ProducedIsComposed(Current, steps, args, host, n - 1);
    ThreadsPreviousResult(Current, steps, args, host, n - 1);
    ShortCircuit.RunsToEnd(steps, Pipe.Combiner(args, host), Undefined);
  }

  /** A synchronous run in which step `k` (live and present) returns the token
      is cancelled there: the Cancellation holds the composition of the steps
      before `k` (for `k == 0` the seed `undefined`, not the runner's
      arguments), names step `k` and carries the token's reason. */
  lemma SyncCancelAt(steps: seq<Val>, args: seq<Val>, host: Host, k: nat)
    requires k < |steps|
    requires forall j :: 0 <= j < k ==> !IsPromise(Composed(Current, steps, args, host, j))
    requires forall j :: 0 <= j < k ==> !ShortCircuit.Ends(steps[j], Composed(Current, steps, args, host, j))
    requires IsPresent(steps[k]) && !ShortCircuit.ContextDestroyed(steps[k])
    requires Composed(Current, steps, args, host, k).Token?
    ensures Pipe.Run(steps, args, host) == Ok(Fold(
      CancellationObj(Cancellation(true,
        if k == 0 then Undefined else Composed(Current, steps, args, host, k - 1),
        steps[k],
        Composed(Current, steps, args, host, k).reason)),
      Trace(steps, Pipe.Combiner(args, host), Undefined, k + 1),
      k))
  {
    ProducedIsComposed(Current, steps, args, host, k);
    ShortCircuit.TokenCancels(steps, Pipe.Combiner(args, host), Undefined, k);
  }

  /** The accumulator after the last step settles to the awaited composition of all steps. */
  lemma WholeRunSettles(fl: Flavour, steps: seq<Val>, args: seq<Val>, host: Host)
    requires |steps| > 0
    ensures Settle(Acc(steps, CombinerOf(fl, args, host), Undefined, |steps|), host) == Awaited(fl, steps, args, host, |steps| - 1)
  {
    var last := |steps| - 1;
    SettledIsAwaited(fl, steps, args, host, last);
    assert last + 1 == |steps|;
  }

  /** A run of the pipe that no step ends hands back the accumulator after the last step. */
  lemma RunReachesEnd(steps: seq<Val>, args: seq<Val>, host: Host)
    requires forall j :: 0 <= j < |steps| ==>
      !ShortCircuit.Ends(steps[j], Produced(steps, Pipe.Combiner(args, host), Undefined, j))
    ensures Pipe.Run(steps, args, host).Ok?
    ensures Pipe.Run(steps, args, host).value.value == Acc(steps, CombinerOf(Current, args, host), Undefined, |steps|)
  {
    ShortCircuit.RunsToEnd(steps, Pipe.Combiner(args, host), Undefined);
  }

  /** A run of the earlier pipe that nothing ends hands back the accumulator after the last element. */
  lemma LegacyRunReachesEnd(steps: seq<Val>, args: seq<Val>, host: Host)
    requires forall j :: 0 <= j < |steps| ==>
      !LegacyReduce.Ends(steps[j], Produced(steps, LegacyPipe.Combiner(args, host), Undefined, j))
    ensures LegacyPipe.Run(steps, args, host).Ok?
    ensures LegacyPipe.Run(steps, args, host).value.value == Acc(steps, CombinerOf(Legacy, args, host), Undefined, |steps|)
  {
    LegacyReduce.RunsToEnd(steps, LegacyPipe.Combiner(args, host), Undefined);
  }

  /** A run that no step ends, synchronous or not, settles to the awaited
      composition of its steps. */
  lemma AsyncRunSettles(steps: seq<Val>, args: seq<Val>, host: Host)
    requires |steps| > 0
    requires forall j :: 0 <= j < |steps| ==>
      !ShortCircuit.Ends(steps[j], Produced(steps, Pipe.Combiner(args, host), Undefined, j))
    ensures Pipe.Run(steps, args, host).Ok?
    ensures Settle(Pipe.Run(steps, args, host).value.value, host) == Awaited(Current, steps, args, host, |steps| - 1)
  {
    RunReachesEnd(steps, args, host);
    WholeRunSettles(Current, steps, args, host);
  }

  /** Once a step returns a promise, no later step can cancel the run: with
      every later element present and live, the loop reaches the end, marks
      every `Step` as performed, and hands back a pending promise. */
  lemma TokenAfterPromiseGoesUnseen(steps: seq<Val>, args: seq<Val>, host: Host, i: nat)
    requires 0 < i < |steps|
    requires forall j :: 0 <= j < i ==>
      !ShortCircuit.Ends(steps[j], Produced(steps, Pipe.Combiner(args, host), Undefined, j))
    requires IsPromise(Acc(steps, Pipe.Combiner(args, host), Undefined, i))
    requires forall j :: i <= j < |steps| ==> !IsNone(steps[j]) && !ShortCircuit.ContextDestroyed(steps[j])
    ensures Pipe.Run(steps, args, host).Ok?
    ensures Pipe.Run(steps, args, host).value.completed == |steps|
    ensures IsPromise(Pipe.Run(steps, args, host).value.value)
  {
    var combine := Pipe.Combiner(args, host);
    forall j | i <= j < |steps|
      ensures !ShortCircuit.Ends(steps[j], Produced(steps, combine, Undefined, j))
    {
      OnceChainedStaysChained(Current, steps, args, host, i, j);
    }
    OnceChainedStaysChained(Current, steps, args, host, i, |steps| - 1);
    ShortCircuit.RunsToEnd(steps, combine, Undefined);
  }

  /** The earlier `pipe([])` also yields `undefined`. */
  lemma LegacyEmptyPipeYieldsUndefined(args: seq<Val>, host: Host)
    ensures LegacyPipe.Run([], args, host) == Ok(Fold(Undefined, [], 0))
  {
    LegacyReduce.EmptyReturnsSeed(LegacyPipe.Combiner(args, host), Undefined);
  }

  /** A synchronous run of the earlier pipe that nothing ends is the plain
      composition of its elements. */
  lemma LegacySyncRunComposes(steps: seq<Val>, args: seq<Val>, host: Host)
    requires |steps| > 0
    requires forall j :: 0 <= j < |steps| - 1 ==> !IsPromise(Composed(Legacy, steps, args, host, j))
    requires forall j :: 0 <= j < |steps| ==> !LegacyReduce.Ends(steps[j], Composed(Legacy, steps, args, host, j))
    ensures LegacyPipe.Run(steps, args, host).Ok?
    ensures LegacyPipe.Run(steps, args, host).value.value == Composed(Legacy, steps, args, host, |steps| - 1)
  {
    var n := |steps|;
    ProducedIsComposed(Legacy, steps, args, host, n - 1);
    ThreadsPreviousResult(Legacy, steps, args, host, n - 1);
    LegacyReduce.RunsToEnd(steps, LegacyPipe.Combiner(args, host), Undefined);
  }

  /** A synchronous run of the earlier pipe in which element `k` returns
      `CANCEL` ends with the cancelled record of the composition before `k`
      and element `k`'s `fnName`. */
  lemma LegacySyncCancelAt(steps: seq<Val>, args: seq<Val>, host: Host, k: nat)
    requires k < |steps|
    requires forall j :: 0 <= j < k ==> !IsPromise(Composed(Legacy, steps, args, host, j))
    requires forall j :: 0 <= j < k ==> !LegacyReduce.Ends(steps[j], Composed(Legacy, steps, args, host, j))
    requires !IsNone(steps[k])
    requires Composed(Legacy, steps, args, host, k) == LegacyReduce.Cancel
    ensures LegacyPipe.Run(steps, args, host).Ok?
    ensures LegacyPipe.Run(steps, args, host).value.value
         == LegacyReduce.Record(if k == 0 then Undefined else Composed(Legacy, steps, args, host, k - 1), steps[k])
    ensures LegacyPipe.Run(steps, args, host).value.completed == k
  {
    ProducedIsComposed(Legacy, steps, args, host, k);
    LegacyReduce.StopsAt(steps, LegacyPipe.Combiner(args, host), Undefined, k);
  }

  /** A run of the earlier pipe that nothing ends settles to the awaited composition. */
  lemma LegacyAsyncRunSettles(steps: seq<Val>, args: seq<Val>, host: Host)
    requires |steps| > 0
    requires forall j :: 0 <= j < |steps| ==>
      !LegacyReduce.Ends(steps[j], Produced(steps, LegacyPipe.Combiner(args, host), Undefined, j))
    ensures LegacyPipe.Run(steps, args, host).Ok?
    ensures Settle(LegacyPipe.Run(steps, args, host).value.value, host) == Awaited(Legacy, steps, args, host, |steps| - 1)
  {
    LegacyRunReachesEnd(steps, args, host);
    WholeRunSettles(Legacy, steps, args, host);
  }
}
