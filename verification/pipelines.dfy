/** The `Pipeline` of addon/pipeline.js: a context object, the steps bound to
    it once at construction, the runner composed from them, and what the last
    run left behind. Ember's observable object becomes an immutable record;
    each method returns the updated record. */
module Pipelines {
  import opened Wrappers
  import opened Values
  import Steps
  import opened Cancellations
  import opened Folds
  import ShortCircuit
  import Pipe
  import Liveness

  /** A pipeline instance. `performed[i]` is the performed flag of `steps[i]`;
      the runner is `pipe(steps)`, so it is not stored separately. */
  datatype Pipeline = Pipeline(
    context: Val,
    steps: seq<Step>,
    performed: seq<bool>,
    isPerformed: bool,
    result: Val,
    cancelHandler: Val)

  /** What `perform` leaves: the updated pipeline and the value it returned. */
  datatype Performance = Performance(pipeline: Pipeline, returned: Val)

  /** The steps as the values the runner folds over. */
  function StepValues(steps: seq<Step>): (vs: seq<Val>)
    ensures |vs| == |steps|
    ensures forall i :: 0 <= i < |steps| ==> vs[i] == StepObj(steps[i])
  {
    seq(|steps|, i requires 0 <= i < |steps| => StepObj(steps[i]))
  }

  /** The `steps` property as a list: missing means `[]`, an array is its
      elements, and anything else has no `forEach` / `map`. */
  function StepList(steps: Val): Result<seq<Val>, Error> {
    match steps
    case Undefined => Ok([])
    case Arr(xs) => Ok(xs)
    case _ => Err(TypeError)
  }

  /** `_validateSteps(steps)`: every element must be an instance of `Step`. */
  function ValidateSteps(xs: seq<Val>): (r: Result<seq<Step>, Error>)
    ensures r.Ok? <==> forall i :: 0 <= i < |xs| ==> xs[i].StepObj?
    ensures r.Err? ==> r.error == NotAStep
    ensures r.Ok? ==> StepValues(r.value) == xs
  {
    if |xs| == 0 then Ok([])
    else if !xs[0].StepObj? then Err(NotAStep)
    else
      match ValidateSteps(xs[1..])
      case Ok(rest) =>
        assert StepValues([xs[0].step] + rest) == [xs[0]] + xs[1..];
        Ok([xs[0].step] + rest)
      case Err(e) => Err(e)
  }

  /** `steps.map((s) => s.bindTo(context))`: the first step that fails to bind
      raises. */
  function BindAll(steps: seq<Step>, context: Val): (r: Result<seq<Step>, Error>)
    ensures r.Ok? <==> forall i :: 0 <= i < |steps| ==> Steps.BindTo(steps[i], context).Ok?
    ensures r.Err? ==> r.error == (if context == Null then TypeError else UnresolvedStep)
    ensures r.Ok? ==> |r.value| == |steps|
    ensures r.Ok? ==> forall i :: 0 <= i < |steps| ==> r.value[i] == Steps.BindTo(steps[i], context).value
  {
    if |steps| == 0 then Ok([])
    else
      match Steps.BindTo(steps[0], context)
      case Err(e) => Err(e)
      case Ok(s) =>
        match BindAll(steps[1..], context)
        case Err(e) => Err(e)
        case Ok(rest) => Ok([s] + rest)
  }

  /** `isPresent(context) && isObject(context)`, the check both `init` and the
      `pipeline` factory assert. */
  predicate AcceptsContext(context: Val) {
    IsPresent(context) && IsObject(context)
  }

  /** What construction guarantees and every method keeps: one flag per step,
      every step bound to the pipeline's context with a function resolved, and
      a handler that is absent or a function. */
  predicate Valid(p: Pipeline) {
    && AcceptsContext(p.context)
    && |p.performed| == |p.steps|
    && (forall i :: 0 <= i < |p.steps| ==>
          p.steps[i].isBound && p.steps[i].fn.Func? && p.steps[i].context == p.context)
    && (p.cancelHandler == Undefined || p.cancelHandler.Func?)
  }

  /** `Pipeline.create({ context, steps })`: `init` asserts the context,
      validates the steps, then `createPipeline` binds each of them to the
      context. Nothing has run yet. */
  function Create(context: Val, steps: Val): (r: Result<Pipeline, Error>)
    ensures !AcceptsContext(context) ==> r == Err(MissingContext)
    ensures r.Ok? ==> Valid(r.value)
    ensures r.Ok? ==>
      && r.value.context == context
      && !r.value.isPerformed
      && r.value.result == Undefined
      && r.value.cancelHandler == Undefined
  {
    if !AcceptsContext(context) then Err(MissingContext)
    else
      var xs :- StepList(steps);
      var ss :- ValidateSteps(xs);
      var bound :- BindAll(ss, context);
      Ok(Pipeline(context, bound, Cleared(|bound|), false, Undefined, Undefined))
  }

  /** With an accepted context and an array of steps, construction rejects
      any element that is not a `Step`, then any step whose function does not
      resolve on the context; otherwise the pipeline holds each step bound to
      the context, in order, all flags clear. */
  lemma CreateOutcome(context: Val, xs: seq<Val>)
    requires AcceptsContext(context)
    ensures (exists i :: 0 <= i < |xs| && !xs[i].StepObj?) ==> Create(context, Arr(xs)) == Err(NotAStep)
    ensures (forall i :: 0 <= i < |xs| ==> xs[i].StepObj?) ==>
      if forall i :: 0 <= i < |xs| ==> Steps.BindTo(xs[i].step, context).Ok? then
        && Create(context, Arr(xs)).Ok?
        && |Create(context, Arr(xs)).value.steps| == |xs|
        && (forall i :: 0 <= i < |xs| ==>
              Create(context, Arr(xs)).value.steps[i] == Steps.BindTo(xs[i].step, context).value)
        && (forall i :: 0 <= i < |xs| ==> !Create(context, Arr(xs)).value.performed[i])
      else Create(context, Arr(xs)) == Err(UnresolvedStep)
  {
    if forall i :: 0 <= i < |xs| ==> xs[i].StepObj? {
      var ss := ValidateSteps(xs).value;
      assert forall i :: 0 <= i < |xs| ==> ss[i] == xs[i].step by {
        assert StepValues(ss) == xs;
      }
      assert context != Null;
      var bound := BindAll(ss, context);
      assert Create(context, Arr(xs)) == if bound.Ok? then Ok(Pipeline(context, bound.value, Cleared(|ss|), false, Undefined, Undefined)) else Err(UnresolvedStep);
    } else {
      assert ValidateSteps(xs) == Err(NotAStep);
    }
  }

  /** The exported `pipeline(context, steps = [])` factory: the same context
      assertion, then `Pipeline.create`. Since `init` asserts the same thing,
      the factory behaves exactly as `Pipeline.create` on every context. */
  function Factory(context: Val, steps: Val): (r: Result<Pipeline, Error>)
    ensures !AcceptsContext(context) ==> r == Err(MissingContext)
    ensures r == Create(context, steps)
  {
    if !AcceptsContext(context) then Err(MissingContext) else Create(context, steps)
  }

  /** `n` flags, none of them set. */
  function Cleared(n: nat): (f: seq<bool>)
    ensures |f| == n
    ensures forall i :: 0 <= i < n ==> !f[i]
  {
    seq(n, i => false)
  }

  /** `_unmarkPerformed()`: every flag cleared. */
  function Unmark(p: Pipeline): (q: Pipeline)
    ensures |q.performed| == |p.performed|
    ensures forall i :: 0 <= i < |q.performed| ==> !q.performed[i]
    ensures q == p.(performed := q.performed)
  {
    p.(performed := Cleared(|p.performed|))
  }

  /** `_executePipeline(...args)`: clear the flags and `isPerformed`, run the
      steps (which marks those that complete), then set `isPerformed` and store
      the raw result. */
  function Execute(p: Pipeline, args: seq<Val>, host: Host): Result<Pipeline, Error> {
    var cleared := Unmark(p).(isPerformed := false);
    var values := StepValues(p.steps);
    var run :- Pipe.Run(values, args, host);
    Ok(cleared.(performed := ShortCircuit.Marks(values, run.completed), isPerformed := true, result := run.value))
  }

  /** `perform(...args)`: a cancelled run goes to the cancel handler, when one
      is set, and the handler's value is returned; anything else is returned
      as the run produced it. */
  function Perform(p: Pipeline, args: seq<Val>, host: Host): Result<Performance, Error> {
    var q :- Execute(p, args, host);
    var v := q.result;
    if IsCancelled(v) && IsPresent(p.cancelHandler) then
      if p.cancelHandler.Func? then Ok(Performance(q, host(p.cancelHandler.id, [v])))
      else Err(TypeError)
    else Ok(Performance(q, v))
  }

  /** `onCancel(handlerFn)`: only a function is accepted; the same pipeline
      comes back with the handler stored. */
  function OnCancel(p: Pipeline, handler: Val): (r: Result<Pipeline, Error>)
    ensures r.Ok? <==> handler.Func?
    ensures r.Err? ==> r.error == InvalidHandler
    ensures r.Ok? ==> r.value == p.(cancelHandler := handler)
    ensures r.Ok? && Valid(p) ==> Valid(r.value)
  {
    if handler.Func? then Ok(p.(cancelHandler := handler)) else Err(InvalidHandler)
  }

  /** The steps whose flag equals `keep`, in order: Ember's `filter` for
      `true`, its `reject` for `false`. */
  function Select(steps: seq<Step>, flags: seq<bool>, keep: bool): seq<Step>
    requires |flags| == |steps|
  {
    if |steps| == 0 then []
    else (if flags[0] == keep then [steps[0]] else []) + Select(steps[1..], flags[1..], keep)
  }

  /** The `successfulSteps` property: empty until the pipeline has run. */
  function SuccessfulSteps(p: Pipeline): seq<Step>
    requires |p.performed| == |p.steps|
  {
    if p.isPerformed then Select(p.steps, p.performed, true) else []
  }

  /** The `cancelledSteps` property: empty until the pipeline has run. */
  function CancelledSteps(p: Pipeline): seq<Step>
    requires |p.performed| == |p.steps|
  {
    if p.isPerformed then Select(p.steps, p.performed, false) else []
  }

  /** `filter` and `reject` on the same flags split the list: together they
      hold every step exactly once. */
  lemma {:induction false} SelectPartitions(steps: seq<Step>, flags: seq<bool>)
    requires |flags| == |steps|
    ensures |Select(steps, flags, true)| + |Select(steps, flags, false)| == |steps|
    ensures multiset(Select(steps, flags, true)) + multiset(Select(steps, flags, false)) == multiset(steps)
  {
    if |steps| > 0 {
      SelectPartitions(steps[1..], flags[1..]);
      assert steps == [steps[0]] + steps[1..];
    }
  }

  /** With the first `k` flags set and the rest clear, `filter` keeps the
      first `k` steps and `reject` the rest. */
  lemma {:induction false} SelectPrefix(steps: seq<Step>, flags: seq<bool>, k: nat)
    requires |flags| == |steps| && k <= |steps|
    requires forall i :: 0 <= i < |flags| ==> flags[i] == (i < k)
    ensures Select(steps, flags, true) == steps[..k]
    ensures Select(steps, flags, false) == steps[k..]
  {
    if |steps| > 0 {
      var k' := if k == 0 then 0 else k - 1;
      SelectPrefix(steps[1..], flags[1..], k');
      if k > 0 {
        assert steps[..k] == [steps[0]] + steps[1..][..k'];
        assert steps[k..] == steps[1..][k'..];
      } else {
        assert steps[k..] == [steps[0]] + steps[1..];
      }
    }
  }

  /** Before any run both partitions are empty. */
  lemma FreshPartitionsEmpty(context: Val, steps: Val)
    requires Create(context, steps).Ok?
    ensures SuccessfulSteps(Create(context, steps).value) == []
    ensures CancelledSteps(Create(context, steps).value) == []
  {
  }

  /** Whatever the flags, the two partitions of a pipeline together hold each
      of its steps exactly once. */
  lemma PartitionsCoverSteps(p: Pipeline)
    requires |p.performed| == |p.steps|
    requires p.isPerformed
    ensures |SuccessfulSteps(p)| + |CancelledSteps(p)| == |p.steps|
    ensures multiset(SuccessfulSteps(p)) + multiset(CancelledSteps(p)) == multiset(p.steps)
  {
    SelectPartitions(p.steps, p.performed);
  }

  /** No step of a pipeline over a live context stops the loop by itself:
      every element is present and its context, the pipeline's, is not
      destroyed; only a token can stop such a run. */
  lemma LiveStepsGoOn(p: Pipeline)
    requires Valid(p)
    requires !Liveness.IsDestroyed(p.context)
    ensures forall i :: 0 <= i < |p.steps| ==>
      !IsNone(StepValues(p.steps)[i]) && !ShortCircuit.ContextDestroyed(StepValues(p.steps)[i])
  {
    forall i | 0 <= i < |p.steps|
      ensures !IsNone(StepValues(p.steps)[i]) && !ShortCircuit.ContextDestroyed(StepValues(p.steps)[i])
    {
      assert Get(StepObj(p.steps[i]), "context") == p.steps[i].context;
    }
  }

  /** A run over `Step` instances never raises: every element is present, so
      `get` succeeds and the Cancellation constructor's assertion holds. */
  lemma RunOfStepsIsOk(steps: seq<Step>, args: seq<Val>, host: Host)
    ensures Pipe.Run(StepValues(steps), args, host).Ok?
  {
    var values := StepValues(steps);
    var combine := Pipe.Combiner(args, host);
    var k := FirstStop(values, combine, Undefined, ShortCircuit.Ends, 0);
    if k < |values| {
      ShortCircuit.StopsAt(values, combine, Undefined, k);
    } else {
      ShortCircuit.RunsToEnd(values, combine, Undefined);
    }
  }

  /** The first `k` of `n` flags set. */
  function FirstFlags(n: nat, k: nat): (f: seq<bool>)
    ensures |f| == n
    ensures forall i :: 0 <= i < n ==> f[i] == (i < k)
  {
    seq(n, i => i < k)
  }

  /** `_executePipeline` on a constructed pipeline: the run over its steps
      succeeds, and the pipeline comes back performed, holding the raw
      result, with exactly the steps before the stopping one flagged. */
  lemma ExecuteOutcome(p: Pipeline, args: seq<Val>, host: Host)
    requires Valid(p)
    ensures Pipe.Run(StepValues(p.steps), args, host).Ok?
    ensures var run := Pipe.Run(StepValues(p.steps), args, host).value;
      && run.completed == FirstStop(StepValues(p.steps), Pipe.Combiner(args, host), Undefined, ShortCircuit.Ends, 0)
      && run.completed <= |p.steps|
      && Execute(p, args, host)
         == Ok(p.(performed := FirstFlags(|p.steps|, run.completed), isPerformed := true, result := run.value))
  {
    var values := StepValues(p.steps);
    RunOfStepsIsOk(p.steps, args, host);
    ShortCircuit.NothingPastTheStop(values, Pipe.Combiner(args, host), Undefined);
    var run := Pipe.Run(values, args, host).value;
    assert ShortCircuit.Marks(values, run.completed) == FirstFlags(|p.steps|, run.completed);
  }

  /** `perform` on a constructed pipeline always returns: afterwards the
      pipeline counts as performed, stores the raw result of the run, keeps
      its steps, context and handler, marks exactly the steps before the one
      that stopped the run, and its partitions are the steps before and from
      that point. */
  lemma PerformOutcome(p: Pipeline, args: seq<Val>, host: Host)
    requires Valid(p)
    ensures Perform(p, args, host).Ok?
    ensures var run := Pipe.Run(StepValues(p.steps), args, host).value;
      var q := Perform(p, args, host).value.pipeline;
      && Valid(q)
      && q.isPerformed
      && q.result == run.value
      && q.steps == p.steps && q.context == p.context && q.cancelHandler == p.cancelHandler
      && run.completed == FirstStop(StepValues(p.steps), Pipe.Combiner(args, host), Undefined, ShortCircuit.Ends, 0)
      && (forall i :: 0 <= i < |q.performed| ==> q.performed[i] == (i < run.completed))
      && SuccessfulSteps(q) == p.steps[..run.completed]
      && CancelledSteps(q) == p.steps[run.completed..]
  {
    ExecuteOutcome(p, args, host);
    PerformOfRun(p, args, host, Pipe.Run(StepValues(p.steps), args, host).value);
  }

  /** The value `perform` returns: the cancel handler's value for a
      Cancellation when a handler is set, otherwise the stored raw result. */
  lemma PerformReturns(p: Pipeline, args: seq<Val>, host: Host)
    requires Valid(p)
    ensures Perform(p, args, host).Ok?
    ensures var perf := Perform(p, args, host).value;
      var v := perf.pipeline.result;
      && (IsCancelled(v) && p.cancelHandler.Func? ==> perf.returned == host(p.cancelHandler.id, [v]))
      && (!IsCancelled(v) || p.cancelHandler == Undefined ==> perf.returned == v)
  {
    RunOfStepsIsOk(p.steps, args, host);
    PerformOfRun(p, args, host, Pipe.Run(StepValues(p.steps), args, host).value);
  }

  /** `perform` once the run over the steps is known: the pipeline comes back
      performed, holding the run's result, with exactly the completed steps
      successful; a Cancellation goes to the handler when one is set. */
  lemma PerformOfRun(p: Pipeline, args: seq<Val>, host: Host, run: Fold)
    requires Valid(p)
    requires Pipe.Run(StepValues(p.steps), args, host) == Ok(run)
    ensures Perform(p, args, host).Ok?
    ensures var perf := Perform(p, args, host).value;
      && perf.pipeline == p.(performed := FirstFlags(|p.steps|, run.completed), isPerformed := true, result := run.value)
      && run.completed <= |p.steps|
      && SuccessfulSteps(perf.pipeline) == p.steps[..run.completed]
      && CancelledSteps(perf.pipeline) == p.steps[run.completed..]
      && perf.returned == if IsCancelled(run.value) && p.cancelHandler.Func? then host(p.cancelHandler.id, [run.value]) else run.value
  {
    ExecuteOfRun(p, args, host, run);
    SelectPrefix(p.steps, FirstFlags(|p.steps|, run.completed), run.completed);
  }

  /** `_executePipeline` once the run over the steps is known. */
  lemma ExecuteOfRun(p: Pipeline, args: seq<Val>, host: Host, run: Fold)
    requires Valid(p)
    requires Pipe.Run(StepValues(p.steps), args, host) == Ok(run)
    ensures run.completed <= |p.steps|
    ensures Execute(p, args, host)
         == Ok(p.(performed := FirstFlags(|p.steps|, run.completed), isPerformed := true, result := run.value))
  {
    ExecuteOutcome(p, args, host);
  }

  /** A run does not depend on what earlier runs left behind: two pipelines
      that differ only in flags, `isPerformed` and stored result perform
      identically. */
  lemma RerunIsFresh(p: Pipeline, flags: seq<bool>, wasPerformed: bool, oldResult: Val, args: seq<Val>, host: Host)
    requires |flags| == |p.performed|
    ensures Perform(p.(performed := flags, isPerformed := wasPerformed, result := oldResult), args, host)
         == Perform(p, args, host)
  {
    ExecuteForgets(p, flags, wasPerformed, oldResult, args, host);
    var stale := p.(performed := flags, isPerformed := wasPerformed, result := oldResult);
    match Execute(p, args, host)
    case Err(e) =>
      assert Perform(stale, args, host) == Err(e);
    case Ok(q) =>
      assert stale.cancelHandler == p.cancelHandler;
  }

  /** `_executePipeline` clears every trace of an earlier run before running. */
  lemma ExecuteForgets(p: Pipeline, flags: seq<bool>, wasPerformed: bool, oldResult: Val, args: seq<Val>, host: Host)
    requires |flags| == |p.performed|
    ensures Execute(p.(performed := flags, isPerformed := wasPerformed, result := oldResult), args, host)
         == Execute(p, args, host)
  {
    var stale := p.(performed := flags, isPerformed := wasPerformed, result := oldResult);
    var values := StepValues(p.steps);
    assert Unmark(stale) == stale.(performed := Cleared(|p.performed|));
    match Pipe.Run(values, args, host)
    case Err(e) =>
    case Ok(run) =>
      var q := p.(performed := ShortCircuit.Marks(values, run.completed), isPerformed := true, result := run.value);
      assert Execute(stale, args, host) == Ok(q);
  }

  /** A pipeline whose context is already destroyed runs only its first step:
      the run is cancelled at step 0 with the seed `undefined` as result and
      the reason naming the context, no step counts as successful, and every
      step as cancelled. */
  lemma DestroyedContextCancelsFirstStep(p: Pipeline, args: seq<Val>, host: Host)
    requires Valid(p) && |p.steps| > 0
    requires Liveness.IsDestroyed(p.context)
    ensures Perform(p, args, host).Ok?
    ensures var q := Perform(p, args, host).value.pipeline;
      && q.result == CancellationObj(Cancellation(true, Undefined, StepObj(p.steps[0]),
           Str(DisplayName(p.context) + " destroyed")))
      && SuccessfulSteps(q) == []
      && CancelledSteps(q) == p.steps
  {
    var values := StepValues(p.steps);
    var combine := Pipe.Combiner(args, host);
    assert ShortCircuit.ContextDestroyed(values[0]);
    ShortCircuit.DestroyedContextWins(values, combine, Undefined, 0);
    PerformOutcome(p, args, host);
  }
}
