/** The pipeline test cases of tests/unit/pipeline-test.js, run on `Step`
    instances, with the context objects' methods given as one host. */
module PipelineScenarios {
  import opened Wrappers
  import opened Values
  import opened Folds
  import Steps
  import Cancellations
  import ShortCircuit
  import Pipe
  import Threading
  import Pipelines
  import Index
  import Liveness

  /** The first argument of a call, or `undefined`. */
  function First(args: seq<Val>): (v: Val)
    ensures v in args || v == Undefined
  {
    if |args| > 0 then args[0] else Undefined
  }

  /** The number or string in the first argument (0 or "" otherwise). */
  function N(args: seq<Val>): int {
    if First(args).Num? then First(args).n else 0
  }

  function S(args: seq<Val>): string {
    if First(args).Str? then First(args).s else ""
  }

  /** `step1`–`step3` of the calculation dummy, by reference 0–2. */
  function DummyMethods(id: nat, args: seq<Val>): (r: Val)
    ensures ThenFree(r) || r in args
  {
    if id == 0 then First(args)
    else if id == 1 then
      (if N(args) + N(args) > 10 then Token(Str("Cannot be greater than 5")) else Num(N(args) + N(args)))
    else if id == 2 then Num(N(args) * N(args))
    else Undefined
  }

  const H: Host := DummyMethods

  /** `step(name)` from addon/step.js. */
  function NamedStep(name: string): Val {
    StepObj(Steps.NewStep(Str(name), Undefined).value)
  }

  /** `names.map((n) => step(n))`. */
  function NamedSteps(names: seq<string>): seq<Val> {
    seq(|names|, i requires 0 <= i < |names| => NamedStep(names[i]))
  }

  /** The step named `name` once bound to `context`. */
  function BoundStep(name: string, context: Val): Step {
    Step(Get(context, name), Str(name), EmptyObject, true, context)
  }

  /** The named steps once bound to `context`. */
  function BoundSteps(names: seq<string>, context: Val): seq<Step> {
    seq(|names|, i requires 0 <= i < |names| => BoundStep(names[i], context))
  }

  /** Building a pipeline from named steps whose methods the context defines
      binds each of them, in order. */
  lemma CreateFromNames(context: Val, names: seq<string>)
    requires Pipelines.AcceptsContext(context)
    requires forall i :: 0 <= i < |names| ==> Get(context, names[i]).Func?
    ensures Pipelines.Create(context, Arr(NamedSteps(names)))
         == Ok(Pipelines.Pipeline(context, BoundSteps(names, context), Pipelines.Cleared(|names|), false, Undefined, Undefined))
  {
    var xs := NamedSteps(names);
    Pipelines.CreateOutcome(context, xs);
    var p := Pipelines.Create(context, Arr(xs)).value;
    assert p.steps == BoundSteps(names, context);
  }

  /** The calculation dummy: `step1`–`step3` and the cancel handler. */
  const Dummy: Val := Obj(Object("[object Object]",
    map["step1" := Func(0), "step2" := Func(1), "step3" := Func(2), "handleCancel" := Func(3)]))

  const DummyNames: seq<string> := ["step1", "step2", "step3"]

  /** `[step('step1'), step('step2'), step('step3')]`. */
  function DummySteps(): Val {
    Arr(NamedSteps(DummyNames))
  }

  /** `dummy.calculate(...args)`: a fresh pipeline with the cancel handler, performed. */
  function Calculate(args: seq<Val>): Result<Pipelines.Performance, Error> {
    var p :- Pipelines.Create(Dummy, DummySteps());
    var q :- Pipelines.OnCancel(p, Func(3));
    Pipelines.Perform(q, args, H)
  }

  /** Step `i` of the dummy pipeline once bound: `step1`–`step3` resolve to references 0–2. */
  function DummyStep(i: nat): Step
    requires i < 3
  {
    Step(Func(i), Str(DummyNames[i]), EmptyObject, true, Dummy)
  }

  /** The pipeline `calculate` performs. */
  function DummyPipeline(): Pipelines.Pipeline {
    Pipelines.Pipeline(Dummy, [DummyStep(0), DummyStep(1), DummyStep(2)], [false, false, false], false, Undefined, Func(3))
  }

  /** The dummy is a live object. */
  lemma DummyAlive()
    ensures !Liveness.IsDestroyed(Dummy)
    ensures Pipelines.AcceptsContext(Dummy)
  {
    Liveness.LiveObjectsAreNotDestroyed(Dummy.obj);
  }

  /** The dummy's methods by name. */
  lemma DummyLookups()
    ensures Get(Dummy, "step1") == Func(0)
    ensures Get(Dummy, "step2") == Func(1)
    ensures Get(Dummy, "step3") == Func(2)
  {
  }

  /** Constructing from `[step('step1'), step('step2'), step('step3')]` binds the three methods. */
  lemma DummyCreated()
    ensures Pipelines.Create(Dummy, DummySteps()) == Ok(DummyPipeline().(cancelHandler := Undefined))
  {
    DummyAlive();
    DummyLookups();
    CreateFromNames(Dummy, DummyNames);
    assert BoundSteps(DummyNames, Dummy) == [DummyStep(0), DummyStep(1), DummyStep(2)];
    assert Pipelines.Cleared(3) == [false, false, false];
  }

  /** `calculate` performs the dummy pipeline, which is well formed. */
  lemma CalculateUnfolds(args: seq<Val>)
    ensures Calculate(args) == Pipelines.Perform(DummyPipeline(), args, H)
    ensures Pipelines.Valid(DummyPipeline())
  {
    DummyAlive();
    DummyCreated();
  }

  /** The values the dummy pipeline folds over: live, present `Step`s calling
      the dummy's methods. */
  lemma DummyValues(args: seq<Val>)
    ensures var values := Pipelines.StepValues(DummyPipeline().steps);
      && values == [StepObj(DummyStep(0)), StepObj(DummyStep(1)), StepObj(DummyStep(2))]
      && (forall i :: 0 <= i < 3 ==> !IsNone(values[i]) && !ShortCircuit.ContextDestroyed(values[i]))
      && (forall i :: 0 <= i < 3 ==> Pipe.ApplyFn(values[i], args, H) == DummyMethods(i, args))
  {
    DummyAlive();
    assert Pipelines.Valid(DummyPipeline());
    Pipelines.LiveStepsGoOn(DummyPipeline());
  }

  /** For an input whose double is at most 10 the steps compose synchronously
      to `x`, `x + x` and `(x + x) * (x + x)`. */
  lemma DummyComposes(x: int)
    requires x + x <= 10
    ensures var values := Pipelines.StepValues(DummyPipeline().steps);
      && Threading.Composed(Current, values, [Num(x)], H, 0) == Num(x)
      && Threading.Composed(Current, values, [Num(x)], H, 1) == Num(x + x)
      && Threading.Composed(Current, values, [Num(x)], H, 2) == Num((x + x) * (x + x))
  {
    DummyValues([Num(x)]);
    DummyValues([Num(x + x)]);
  }

  /** For an input whose double is at most 10 the run composes the three
      steps and completes all of them. */
  lemma HappyRun(x: int)
    requires x + x <= 10
    ensures var run := Pipe.Run(Pipelines.StepValues(DummyPipeline().steps), [Num(x)], H);
      run.Ok? && run.value.value == Num((x + x) * (x + x)) && run.value.completed == 3
  {
    var values := Pipelines.StepValues(DummyPipeline().steps);
    DummyValues([Num(x)]);
    DummyComposes(x);
    Threading.SyncRunComposes(values, [Num(x)], H);
  }

  /** The happy path: for an input whose double is at most 10 the three steps
      compose to `(x + x) * (x + x)` (1 gives 4, 5 gives 100), every step is
      successful, and the handler is not called. */
  lemma HappyPath(x: int)
    requires x + x <= 10
    ensures Calculate([Num(x)]).Ok?
    ensures Calculate([Num(x)]).value.returned == Num((x + x) * (x + x))
    ensures |Pipelines.SuccessfulSteps(Calculate([Num(x)]).value.pipeline)| == 3
  {
    CalculateUnfolds([Num(x)]);
    HappyRun(x);
    var p := DummyPipeline();
    Pipelines.PerformOfRun(p, [Num(x)], H, Pipe.Run(Pipelines.StepValues(p.steps), [Num(x)], H).value);
  }

  /** The Cancellation `step2` leaves for an input whose double exceeds 10. */
  function StepTwoCancel(x: int): Val {
    CancellationObj(Cancellation(true, Num(x), StepObj(DummyStep(1)), Str("Cannot be greater than 5")))
  }

  /** For an input whose double exceeds 10 the run stops at `step2`, with
      `step1`'s value kept: the combining function runs twice, so `step3` is
      never called. */
  lemma UnhappyRun(x: int)
    requires x + x > 10
    ensures var run := Pipe.Run(Pipelines.StepValues(DummyPipeline().steps), [Num(x)], H);
      run.Ok? && run.value.value == StepTwoCancel(x) && run.value.completed == 1 && |run.value.seen| == 2
  {
    var values := Pipelines.StepValues(DummyPipeline().steps);
    DummyValues([Num(x)]);
    assert Threading.Composed(Current, values, [Num(x)], H, 0) == Num(x);
    assert Threading.Composed(Current, values, [Num(x)], H, 1) == Token(Str("Cannot be greater than 5"));
    Threading.SyncCancelAt(values, [Num(x)], H, 1);
  }

  /** The unhappy path: for an input whose double exceeds 10, `step2` returns
      `CANCEL('Cannot be greater than 5')` and the handler receives a
      Cancellation holding `step1`'s value, naming `step2` and giving the
      reason; only `step1` counts as successful. */
  lemma UnhappyPath(x: int)
    requires x + x > 10
    ensures Calculate([Num(x)]).Ok?
    ensures var perf := Calculate([Num(x)]).value;
      var v := perf.pipeline.result;
      && v.CancellationObj?
      && v.cancellation.result == Num(x)
      && Cancellations.FnName(v.cancellation) == Cancellations.Named(Str("step2"))
      && Cancellations.Reason(v.cancellation, H) == Str("Cannot be greater than 5")
      && perf.returned == DummyMethods(3, [v])
      && |Pipelines.SuccessfulSteps(perf.pipeline)| == 1
      && |Pipelines.CancelledSteps(perf.pipeline)| == 2
  {
    CalculateUnfolds([Num(x)]);
    UnhappyRun(x);
    var p := DummyPipeline();
    Pipelines.PerformOfRun(p, [Num(x)], H, Pipe.Run(Pipelines.StepValues(p.steps), [Num(x)], H).value);
    Cancellations.FnNameOfStep(DummyStep(1), Num(x), Str("Cannot be greater than 5"));
  }

  /** Performing the same pipeline again after a cancelled run behaves like a
      fresh run: input 1 gives 4 and all three steps succeed. */
  lemma RerunAfterCancel()
    ensures Calculate([Num(10)]).Ok?
    ensures var again := Pipelines.Perform(Calculate([Num(10)]).value.pipeline, [Num(1)], H);
      && again.Ok?
      && again.value.returned == Num(4)
      && |Pipelines.SuccessfulSteps(again.value.pipeline)| == 3
  {
    UnhappyPath(10);
    HappyPath(1);
    CalculateUnfolds([Num(10)]);
    CalculateUnfolds([Num(1)]);
    var q := Calculate([Num(10)]).value.pipeline;
    Pipelines.PerformOutcome(DummyPipeline(), [Num(10)], H);
    Pipelines.RerunIsFresh(DummyPipeline(), q.performed, q.isPerformed, q.result, [Num(1)], H);
    assert q == DummyPipeline().(performed := q.performed, isPerformed := q.isPerformed, result := q.result);
  }

  /** `step1`–`step4` of the tracking test, by reference 0–3: each cancels on
      its own number, `step3` otherwise resolves a promise (RSVP's `resolve`
      hands a promise back as it is). */
  function TrackingMethods(id: nat, args: seq<Val>): (r: Val)
    ensures ThenFree(r) || r in args
  {
    var v := First(args);
    if id == 0 then (if v == Num(1) then Token(Undefined) else v)
    else if id == 1 then (if v == Num(2) then Token(Undefined) else v)
    else if id == 2 then (if v == Num(3) then Token(Undefined) else if v.Promise? then v else Promise(Resolved(v)))
    else v
  }

  const TH: Host := TrackingMethods

  const Tracker: Val := Obj(Object("[object Object]",
    map["step1" := Func(0), "step2" := Func(1), "step3" := Func(2), "step4" := Func(3)]))

  const TrackerNames: seq<string> := ["step1", "step2", "step3", "step4"]

  function TrackerStep(i: nat): Step
    requires i < 4
  {
    Step(Func(i), Str(TrackerNames[i]), EmptyObject, true, Tracker)
  }

  function TrackerPipeline(): Pipelines.Pipeline {
    Pipelines.Pipeline(Tracker, [TrackerStep(0), TrackerStep(1), TrackerStep(2), TrackerStep(3)],
                       [false, false, false, false], false, Undefined, Undefined)
  }

  /** A fresh tracking pipeline performed with `input`. */
  function Track(input: int): Result<Pipelines.Performance, Error> {
    var p :- Pipelines.Create(Tracker, Arr(NamedSteps(TrackerNames)));
    Pipelines.Perform(p, [Num(input)], TH)
  }

  lemma TrackerLookups()
    ensures !Liveness.IsDestroyed(Tracker)
    ensures Pipelines.AcceptsContext(Tracker)
    ensures Get(Tracker, "step1") == Func(0)
    ensures Get(Tracker, "step2") == Func(1)
    ensures Get(Tracker, "step3") == Func(2)
    ensures Get(Tracker, "step4") == Func(3)
  {
    Liveness.LiveObjectsAreNotDestroyed(Tracker.obj);
  }

  lemma TrackUnfolds(input: int)
    ensures Track(input) == Pipelines.Perform(TrackerPipeline(), [Num(input)], TH)
    ensures Pipelines.Valid(TrackerPipeline())
  {
    TrackerLookups();
    CreateFromNames(Tracker, TrackerNames);
    assert BoundSteps(TrackerNames, Tracker) == TrackerPipeline().steps;
    assert Pipelines.Cleared(4) == [false, false, false, false];
  }

  lemma TrackerValues(args: seq<Val>)
    ensures var values := Pipelines.StepValues(TrackerPipeline().steps);
      && |values| == 4
      && (forall i :: 0 <= i < 4 ==> values[i] == StepObj(TrackerStep(i)))
      && (forall i :: 0 <= i < 4 ==> !IsNone(values[i]) && !ShortCircuit.ContextDestroyed(values[i]))
      && (forall i :: 0 <= i < 4 ==> IsPresent(values[i]))
      && (forall i :: 0 <= i < 4 ==> Pipe.ApplyFn(values[i], args, TH) == TrackingMethods(i, args))
  {
    TrackerLookups();
    assert Pipelines.Valid(TrackerPipeline());
    Pipelines.LiveStepsGoOn(TrackerPipeline());
  }

  /** With input `n` in 1..3, the steps before `step<n>` pass `n` through and
      `step<n>` returns `CANCEL()`. */
  lemma TrackingComposes(n: int)
    requires 1 <= n <= 3
    ensures var values := Pipelines.StepValues(TrackerPipeline().steps);
      && (forall j :: 0 <= j < n - 1 ==> Threading.Composed(Current, values, [Num(n)], TH, j) == Num(n))
      && Threading.Composed(Current, values, [Num(n)], TH, n - 1) == Token(Undefined)
  {
    var values := Pipelines.StepValues(TrackerPipeline().steps);
    TrackerValues([Num(n)]);
    assert Threading.Composed(Current, values, [Num(n)], TH, 0) == TrackingMethods(0, [Num(n)]);
    if n > 1 {
      assert Threading.Composed(Current, values, [Num(n)], TH, 1) == TrackingMethods(1, [Num(n)]);
    }
    if n > 2 {
      assert Threading.Composed(Current, values, [Num(n)], TH, 2) == TrackingMethods(2, [Num(n)]);
    }
  }

  /** The run with input `n` in 1..3 is cancelled at index `n - 1`. */
  lemma TrackingRunCancels(n: int)
    requires 1 <= n <= 3
    ensures var run := Pipe.Run(Pipelines.StepValues(TrackerPipeline().steps), [Num(n)], TH);
      run.Ok? && run.value.completed == n - 1
  {
    var values := Pipelines.StepValues(TrackerPipeline().steps);
    TrackerValues([Num(n)]);
    TrackingComposes(n);
    Threading.SyncCancelAt(values, [Num(n)], TH, n - 1);
  }

  /** Inputs 1, 2 and 3 cancel at `step1`, `step2` and `step3`: 0/4, 1/3 and
      2/2 successful and cancelled steps. */
  lemma TrackingCancels(n: int)
    requires 1 <= n <= 3
    ensures Track(n).Ok?
    ensures |Pipelines.SuccessfulSteps(Track(n).value.pipeline)| == n - 1
    ensures |Pipelines.CancelledSteps(Track(n).value.pipeline)| == 5 - n
  {
    TrackUnfolds(n);
    TrackingRunCancels(n);
    var p := TrackerPipeline();
    Pipelines.PerformOfRun(p, [Num(n)], TH, Pipe.Run(Pipelines.StepValues(p.steps), [Num(n)], TH).value);
  }

  /** With input 4 the first two steps pass 4 through, `step3` resolves it and
      `step4` is attached as that promise's continuation. */
  lemma TrackingChains()
    ensures var values := Pipelines.StepValues(TrackerPipeline().steps);
      var combine := Pipe.Combiner([Num(4)], TH);
      && (forall j :: 0 <= j < 3 ==> !ShortCircuit.Ends(values[j], Produced(values, combine, Undefined, j)))
      && Acc(values, combine, Undefined, 3) == Promise(Resolved(Num(4)))
  {
    var values := Pipelines.StepValues(TrackerPipeline().steps);
    var args := [Num(4)];
    TrackerValues(args);
    assert Threading.Composed(Current, values, args, TH, 0) == Num(4);
    assert Threading.Composed(Current, values, args, TH, 1) == Num(4);
    assert Threading.Composed(Current, values, args, TH, 2) == Promise(Resolved(Num(4)));
    Threading.ProducedIsComposed(Current, values, args, TH, 2);
    Threading.ThreadsPreviousResult(Current, values, args, TH, 2);
  }

  /** The run with input 4 completes every step and settles to 4. */
  lemma TrackingRunCompletes()
    ensures var run := Pipe.Run(Pipelines.StepValues(TrackerPipeline().steps), [Num(4)], TH);
      && run.Ok? && run.value.completed == 4
      && Threading.Settle(run.value.value, TH) == Some(Num(4))
  {
    var values := Pipelines.StepValues(TrackerPipeline().steps);
    var args := [Num(4)];
    TrackerValues(args);
    TrackingChains();
    Threading.TokenAfterPromiseGoesUnseen(values, args, TH, 3);
    Threading.ThreadsPreviousResult(Current, values, args, TH, 3);
    Threading.AsyncRunSettles(values, args, TH);
    TrackingAwaited();
  }

  /** Awaited step by step, input 4 passes through all four steps. */
  lemma TrackingAwaited()
    ensures Threading.Awaited(Current, Pipelines.StepValues(TrackerPipeline().steps), [Num(4)], TH, 3) == Some(Num(4))
  {
    var values := Pipelines.StepValues(TrackerPipeline().steps);
    var args := [Num(4)];
    TrackerValues(args);
    assert Threading.Awaited(Current, values, args, TH, 0) == Some(Num(4));
    assert Threading.Awaited(Current, values, args, TH, 1) == Some(Num(4));
    assert Threading.Awaited(Current, values, args, TH, 2) == Some(Num(4));
  }

  /** Input 4 runs every step: `step3` returns a promise, `step4` is chained
      onto it, all four steps count as successful, and the result settles to 4. */
  lemma TrackingCompletes()
    ensures Track(4).Ok?
    ensures |Pipelines.SuccessfulSteps(Track(4).value.pipeline)| == 4
    ensures |Pipelines.CancelledSteps(Track(4).value.pipeline)| == 0
    ensures Threading.Settle(Track(4).value.pipeline.result, TH) == Some(Num(4))
  {
    TrackUnfolds(4);
    TrackingRunCompletes();
    var p := TrackerPipeline();
    Pipelines.PerformOfRun(p, [Num(4)], TH, Pipe.Run(Pipelines.StepValues(p.steps), [Num(4)], TH).value);
  }

  /** `foo`, `baz` and `halt` of the promise test's object, by reference 0–2:
      `foo` resolves a promise of `'Foo' + val`, `baz` appends `'Baz'`, and
      `halt` returns `CANCEL()`. */
  function ShopMethods(id: nat, args: seq<Val>): (r: Val)
    ensures ThenFree(r) || r in args
  {
    if id == 0 then Promise(Resolved(Str("Foo" + S(args))))
    else if id == 1 then Str(S(args) + "Baz")
    else if id == 2 then Token(Undefined)
    else Undefined
  }

  const SH: Host := ShopMethods

  const Shop: Val := Obj(Object("[object Object]", map["foo" := Func(0), "baz" := Func(1), "halt" := Func(2)]))

  function ShopStep(name: string, id: nat): Step {
    Step(Func(id), Str(name), EmptyObject, true, Shop)
  }

  lemma ShopLookups()
    ensures !Liveness.IsDestroyed(Shop)
    ensures Pipelines.AcceptsContext(Shop)
    ensures Get(Shop, "foo") == Func(0)
    ensures Get(Shop, "baz") == Func(1)
    ensures Get(Shop, "halt") == Func(2)
  {
    Liveness.LiveObjectsAreNotDestroyed(Shop.obj);
  }

  /** `pipeline(obj, [step('foo'), step(second)])` for `second` one of `baz` / `halt`. */
  lemma ShopCreated(second: string, id: nat)
    requires (second, id) == ("baz", 1) || (second, id) == ("halt", 2)
    ensures Pipelines.Create(Shop, Arr(NamedSteps(["foo", second]))) == Ok(ShopPipeline(second, id))
  {
    ShopLookups();
    CreateFromNames(Shop, ["foo", second]);
    assert BoundSteps(["foo", second], Shop) == [ShopStep("foo", 0), ShopStep(second, id)];
    assert Pipelines.Cleared(2) == [false, false];
  }

  /** The pipeline `[foo, second]` builds. */
  function ShopPipeline(second: string, id: nat): Pipelines.Pipeline {
    Pipelines.Pipeline(Shop, [ShopStep("foo", 0), ShopStep(second, id)], [false, false], false, Undefined, Undefined)
  }

  /** `foo` is called with `'Bar'` and returns a promise of `'FooBar'`. */
  lemma ShopFirstStep(second: string, id: nat)
    ensures var values := Pipelines.StepValues(ShopPipeline(second, id).steps);
      && values == [StepObj(ShopStep("foo", 0)), StepObj(ShopStep(second, id))]
      && Produced(values, Pipe.Combiner([Str("Bar")], SH), Undefined, 0) == Promise(Resolved(Str("FooBar")))
  {
    var values := Pipelines.StepValues(ShopPipeline(second, id).steps);
    var args := [Str("Bar")];
    assert values == [StepObj(ShopStep("foo", 0)), StepObj(ShopStep(second, id))];
    Threading.ThreadsPreviousResult(Current, values, args, SH, 0);
    assert S(args) == "Bar";
    assert "Foo" + "Bar" == "FooBar";
    assert ShopMethods(0, args) == Promise(Resolved(Str("FooBar")));
    assert Pipe.ApplyFn(values[0], args, SH) == SH(0, args);
  }

  /** Neither step of `[foo, second]` ends the loop on `'Bar'`: `foo` returns
      a promise, and `second` is attached to it rather than called. */
  lemma ShopNeverEnds(second: string, id: nat)
    requires (second, id) == ("baz", 1) || (second, id) == ("halt", 2)
    ensures var values := Pipelines.StepValues(ShopPipeline(second, id).steps);
      forall j :: 0 <= j < 2 ==>
        !ShortCircuit.Ends(values[j], Produced(values, Pipe.Combiner([Str("Bar")], SH), Undefined, j))
  {
    var values := Pipelines.StepValues(ShopPipeline(second, id).steps);
    var args := [Str("Bar")];
    ShopLookups();
    Pipelines.LiveStepsGoOn(ShopPipeline(second, id));
    ShopFirstStep(second, id);
    ShopSecondChained(second, id);
  }

  /** `second` is attached to `foo`'s promise with `.then`. */
  lemma ShopSecondChained(second: string, id: nat)
    ensures var values := Pipelines.StepValues(ShopPipeline(second, id).steps);
      Produced(values, Pipe.Combiner([Str("Bar")], SH), Undefined, 1).Promise?
  {
    var values := Pipelines.StepValues(ShopPipeline(second, id).steps);
    var args := [Str("Bar")];
    ShopFirstStep(second, id);
    assert Threading.CombinerOf(Current, args, SH) == Pipe.Combiner(args, SH);
    Threading.ThreadsPreviousResult(Current, values, args, SH, 0);
    Threading.ThreadsPreviousResult(Current, values, args, SH, 1);
  }

  /** Awaiting `foo('Bar')` gives `'FooBar'`, which `second` then receives. */
  lemma ShopAwaited(second: string, id: nat)
    requires (second, id) == ("baz", 1) || (second, id) == ("halt", 2)
    ensures var values := Pipelines.StepValues(ShopPipeline(second, id).steps);
      Threading.Awaited(Current, values, [Str("Bar")], SH, 1) == Some(ShopMethods(id, [Str("FooBar")]))
  {
    var values := Pipelines.StepValues(ShopPipeline(second, id).steps);
    var args := [Str("Bar")];
    ShopLookups();
    assert values == [StepObj(ShopStep("foo", 0)), StepObj(ShopStep(second, id))];
    assert S(args) == "Bar";
    assert "Foo" + "Bar" == "FooBar";
    assert Threading.Apply(Current, values[0], args, SH) == Promise(Resolved(Str("FooBar")));
    assert Threading.Awaited(Current, values, args, SH, 0) == Some(Str("FooBar"));
    assert Threading.Apply(Current, values[1], [Str("FooBar")], SH) == ShopMethods(id, [Str("FooBar")]);
  }

  /** The run of `[foo, second]` on `'Bar'`: `foo`'s promise is not cancelled
      by anything, so the loop runs to the end and `second` is attached with
      `.then`. */
  lemma ShopRunCompletes(second: string, id: nat)
    requires (second, id) == ("baz", 1) || (second, id) == ("halt", 2)
    ensures var values := Pipelines.StepValues(ShopPipeline(second, id).steps);
      var run := Pipe.Run(values, [Str("Bar")], SH);
      && run.Ok? && run.value.completed == 2
      && Threading.Settle(run.value.value, SH) == Some(ShopMethods(id, [Str("FooBar")]))
  {
    var values := Pipelines.StepValues(ShopPipeline(second, id).steps);
    var args := [Str("Bar")];
    ShopNeverEnds(second, id);
    ShortCircuit.RunsToEnd(values, Pipe.Combiner(args, SH), Undefined);
    Threading.AsyncRunSettles(values, args, SH);
    ShopAwaited(second, id);
  }

  /** Performing `[foo, second]` with `'Bar'` counts both steps as successful
      and stores a value settling to `second('FooBar')`. */
  lemma ShopPerformSettles(second: string, id: nat)
    requires (second, id) == ("baz", 1) || (second, id) == ("halt", 2)
    ensures var perf := Pipelines.Perform(ShopPipeline(second, id), [Str("Bar")], SH);
      && perf.Ok?
      && perf.value.returned == perf.value.pipeline.result
      && |Pipelines.SuccessfulSteps(perf.value.pipeline)| == 2
      && Threading.Settle(perf.value.pipeline.result, SH) == Some(ShopMethods(id, [Str("FooBar")]))
  {
    ShopLookups();
    ShopRunCompletes(second, id);
    var p := ShopPipeline(second, id);
    Pipelines.PerformOfRun(p, [Str("Bar")], SH, Pipe.Run(Pipelines.StepValues(p.steps), [Str("Bar")], SH).value);
  }

  /** A promise-returning step followed by a synchronous one: performing with
      `'Bar'` settles to `'FooBarBaz'`. */
  lemma PromiseStepSettles()
    ensures var r := Pipelines.Factory(Shop, Arr(NamedSteps(["foo", "baz"])));
      && r.Ok?
      && Pipelines.Perform(r.value, [Str("Bar")], SH).Ok?
      && Threading.Settle(Pipelines.Perform(r.value, [Str("Bar")], SH).value.returned, SH) == Some(Str("FooBarBaz"))
  {
    ShopLookups();
    ShopCreated("baz", 1);
    ShopPerformSettles("baz", 1);
    BazAppends();
  }

  /** `baz('FooBar')` is `'FooBarBaz'`. */
  lemma BazAppends()
    ensures ShopMethods(1, [Str("FooBar")]) == Str("FooBarBaz")
  {
    assert "FooBar" + "Baz" == "FooBarBaz";
  }

  /** After a promise-returning step, a step returning `CANCEL()` cancels
      nothing: the run counts both steps as successful, no Cancellation is
      built, and the run settles to the token itself. */
  lemma TokenAfterPromiseSettlesToToken()
    ensures var r := Pipelines.Factory(Shop, Arr(NamedSteps(["foo", "halt"])));
      && r.Ok?
      && Pipelines.Perform(r.value, [Str("Bar")], SH).Ok?
      && var q := Pipelines.Perform(r.value, [Str("Bar")], SH).value.pipeline;
      && |Pipelines.SuccessfulSteps(q)| == 2
      && !Cancellations.IsCancelled(q.result)
      && Threading.Settle(q.result, SH) == Some(Token(Undefined))
  {
    ShopLookups();
    ShopCreated("halt", 2);
    ShopPerformSettles("halt", 2);
  }

  /** The function steps `x => 'Foo' + x`, `x => x + 'Baz'` and the object's
      `qux`, by reference 0–2. */
  function FnMethods(id: nat, args: seq<Val>): (r: Val)
    ensures ThenFree(r) || r in args
  {
    if id == 0 then Str("Foo" + S(args))
    else if id == 1 then Str(S(args) + "Baz")
    else if id == 2 then Str(S(args) + "Qux")
    else Undefined
  }

  const FH: Host := FnMethods

  const Quxer: Val := Obj(Object("[object Object]", map["qux" := Func(2)]))

  /** `[step(x => 'Foo' + x), step(x => x + 'Baz'), step('qux')]`. */
  function FnSteps(): seq<Val> {
    [StepObj(Steps.NewStep(Func(0), Undefined).value),
     StepObj(Steps.NewStep(Func(1), Undefined).value),
     NamedStep("qux")]
  }

  /** The same steps once bound to the object. */
  function FnBound(): seq<Step> {
    [Step(Func(0), Undefined, EmptyObject, true, Quxer),
     Step(Func(1), Undefined, EmptyObject, true, Quxer),
     Step(Func(2), Str("qux"), EmptyObject, true, Quxer)]
  }

  /** The three steps as constructed, and each bound to the object. */
  lemma FnStepsBind()
    ensures FnSteps() == [StepObj(Step(Func(0), Undefined, EmptyObject, false, Undefined)),
                          StepObj(Step(Func(1), Undefined, EmptyObject, false, Undefined)),
                          StepObj(Step(Undefined, Str("qux"), EmptyObject, false, Undefined))]
    ensures forall i :: 0 <= i < 3 ==> Steps.BindTo(FnSteps()[i].step, Quxer) == Ok(FnBound()[i])
  {
    assert Get(Quxer, "qux") == Func(2);
  }

  lemma QuxerCreated()
    ensures !Liveness.IsDestroyed(Quxer)
    ensures Pipelines.Create(Quxer, Arr(FnSteps()))
         == Ok(FnPipeline())
  {
    Liveness.LiveObjectsAreNotDestroyed(Quxer.obj);
    FnStepsBind();
    Pipelines.CreateOutcome(Quxer, FnSteps());
    var p := Pipelines.Create(Quxer, Arr(FnSteps())).value;
    assert p.steps == FnBound();
    assert p.performed == [false, false, false];
  }

  /** The bound function steps compose to `'FooBar'`, `'FooBarBaz'` and `'FooBarBazQux'`. */
  lemma FnComposes()
    ensures var values := Pipelines.StepValues(FnBound());
      && (forall i :: 0 <= i < 3 ==> !IsNone(values[i]) && !ShortCircuit.ContextDestroyed(values[i]))
      && Threading.Composed(Current, values, [Str("Bar")], FH, 0) == Str("FooBar")
      && Threading.Composed(Current, values, [Str("Bar")], FH, 1) == Str("FooBarBaz")
      && Threading.Composed(Current, values, [Str("Bar")], FH, 2) == Str("FooBarBazQux")
  {
    Liveness.LiveObjectsAreNotDestroyed(Quxer.obj);
    var values := Pipelines.StepValues(FnBound());
    var args := [Str("Bar")];
    assert values == [StepObj(FnBound()[0]), StepObj(FnBound()[1]), StepObj(FnBound()[2])];
    assert "Foo" + "Bar" == "FooBar";
    assert "FooBar" + "Baz" == "FooBarBaz";
    assert "FooBarBaz" + "Qux" == "FooBarBazQux";
    assert Threading.Composed(Current, values, args, FH, 0) == FnMethods(0, args);
    assert Threading.Composed(Current, values, args, FH, 1) == FnMethods(1, [Str("FooBar")]);
    assert Threading.Composed(Current, values, args, FH, 2) == FnMethods(2, [Str("FooBarBaz")]);
  }

  /** The pipeline built from the function steps. */
  function FnPipeline(): Pipelines.Pipeline {
    Pipelines.Pipeline(Quxer, FnBound(), [false, false, false], false, Undefined, Undefined)
  }

  lemma FnPipelineValid()
    ensures Pipelines.Valid(FnPipeline())
  {
    Liveness.LiveObjectsAreNotDestroyed(Quxer.obj);
  }

  /** Performing the bound function steps with `'Bar'` returns `'FooBarBazQux'`. */
  lemma FnPerformComposes()
    ensures var perf := Pipelines.Perform(FnPipeline(), [Str("Bar")], FH);
      perf.Ok? && perf.value.returned == Str("FooBarBazQux")
  {
    var p := FnPipeline();
    FnPipelineValid();
    FnComposes();
    Threading.SyncRunComposes(Pipelines.StepValues(FnBound()), [Str("Bar")], FH);
    Pipelines.PerformOfRun(p, [Str("Bar")], FH, Pipe.Run(Pipelines.StepValues(p.steps), [Str("Bar")], FH).value);
  }

  /** Function steps and a named method compose synchronously: `'Bar'` gives
      `'FooBarBazQux'`. */
  lemma FunctionStepsCompose()
    ensures var r := Pipelines.Factory(Quxer, Arr(FnSteps()));
      && r.Ok?
      && Pipelines.Perform(r.value, [Str("Bar")], FH).Ok?
      && Pipelines.Perform(r.value, [Str("Bar")], FH).value.returned == Str("FooBarBazQux")
  {
    Liveness.LiveObjectsAreNotDestroyed(Quxer.obj);
    QuxerCreated();
    FnPerformComposes();
  }

  /** `foo` of the single-step test, as reference 0: `val => 'foo' + val`. */
  function FooMethods(id: nat, args: seq<Val>): (r: Val)
    ensures ThenFree(r)
  {
    if id == 0 then Str("foo" + S(args)) else Undefined
  }

  const Fooer: Val := Obj(Object("[object Object]", map["foo" := Func(0)]))

  /** `pipeline(obj, [step('foo')])`. */
  function FooPipeline(): Pipelines.Pipeline {
    Pipelines.Pipeline(Fooer, [Step(Func(0), Str("foo"), EmptyObject, true, Fooer)], [false], false, Undefined, Undefined)
  }

  lemma FooCreated()
    ensures Pipelines.Valid(FooPipeline())
    ensures !Liveness.IsDestroyed(Fooer)
    ensures Pipelines.Factory(Fooer, Arr(NamedSteps(["foo"]))) == Ok(FooPipeline())
  {
    assert Get(Fooer, "foo") == Func(0);
    Liveness.LiveObjectsAreNotDestroyed(Fooer.obj);
    CreateFromNames(Fooer, ["foo"]);
    assert BoundSteps(["foo"], Fooer) == FooPipeline().steps;
    assert Pipelines.Cleared(1) == [false];
  }

  /** The one step turns `'bar'` into `'foobar'`. */
  lemma FooRun()
    ensures var run := Pipe.Run(Pipelines.StepValues(FooPipeline().steps), [Str("bar")], FooMethods);
      run.Ok? && run.value.value == Str("foobar")
  {
    var values := Pipelines.StepValues(FooPipeline().steps);
    assert values == [StepObj(Step(Func(0), Str("foo"), EmptyObject, true, Fooer))];
    Liveness.LiveObjectsAreNotDestroyed(Fooer.obj);
    assert !ShortCircuit.ContextDestroyed(values[0]);
    assert S([Str("bar")]) == "bar";
    assert "foo" + "bar" == "foobar";
    assert Threading.Composed(Current, values, [Str("bar")], FooMethods, 0) == Str("foobar");
    Threading.SyncRunComposes(values, [Str("bar")], FooMethods);
  }

  /** `pipeline(obj, [step('foo')]).perform('bar')` is `'foobar'`. */
  lemma SingleStepPerforms()
    ensures var r := Pipelines.Factory(Fooer, Arr(NamedSteps(["foo"])));
      && r.Ok?
      && Pipelines.Perform(r.value, [Str("bar")], FooMethods).Ok?
      && Pipelines.Perform(r.value, [Str("bar")], FooMethods).value.returned == Str("foobar")
  {
    FooCreated();
    FooPerforms();
  }

  /** Performing the built pipeline with `'bar'` returns `'foobar'`. */
  lemma FooPerforms()
    ensures var perf := Pipelines.Perform(FooPipeline(), [Str("bar")], FooMethods);
      perf.Ok? && perf.value.returned == Str("foobar")
  {
    assert Pipelines.Valid(FooPipeline());
    FooRun();
    var p := FooPipeline();
    Pipelines.PerformOfRun(p, [Str("bar")], FooMethods, Pipe.Run(Pipelines.StepValues(p.steps), [Str("bar")], FooMethods).value);
  }

  /** An Ember object printing as `<dummy>`, with a `foo` method, after
      `destroy()`: `isDestroying` is set at once, `isDestroyed` only later. */
  const Destroyed: Val := Obj(Object("<dummy>", map["foo" := Func(40), "isDestroying" := Bool(true)]))

  /** `step('foo')` bound to the destroyed object. */
  const DestroyedStep: Step := Step(Func(40), Str("foo"), EmptyObject, true, Destroyed)

  /** The pipeline `[foo]` builds on the destroyed object. */
  function DestroyedPipeline(): Pipelines.Pipeline {
    Pipelines.Pipeline(Destroyed, [DestroyedStep], [false], false, Undefined, Undefined)
  }

  /** Construction does not look at the flags: `[step('foo')]` binds as usual. */
  lemma DestroyedCreated()
    ensures Liveness.IsDestroyed(Destroyed)
    ensures Pipelines.Valid(DestroyedPipeline())
    ensures Pipelines.Factory(Destroyed, Arr(NamedSteps(["foo"]))) == Ok(DestroyedPipeline())
  {
    assert Get(Destroyed, "foo") == Func(40);
    Liveness.EitherFlagDestroys(Destroyed.obj);
    CreateFromNames(Destroyed, ["foo"]);
    assert BoundSteps(["foo"], Destroyed) == [DestroyedStep];
    assert Pipelines.Cleared(1) == [false];
  }

  /** The run calls `foo`, then finds the context destroyed and stops there
      on the seed `undefined`, dropping `foo`'s value. */
  lemma DestroyedRun(host: Host)
    ensures var run := Pipe.Run(Pipelines.StepValues(DestroyedPipeline().steps), [Str("bar")], host);
      && run.Ok?
      && run.value.value == CancellationObj(Cancellation(true, Undefined, StepObj(DestroyedStep), Str("<dummy> destroyed")))
      && run.value.completed == 0
  {
    Liveness.EitherFlagDestroys(Destroyed.obj);
    var values := Pipelines.StepValues(DestroyedPipeline().steps);
    assert values == [StepObj(DestroyedStep)];
    assert Get(values[0], "context") == Destroyed;
    assert DisplayName(Destroyed) + " destroyed" == "<dummy> destroyed";
    assert ShortCircuit.ContextDestroyed(values[0]);
    ShortCircuit.DestroyedContextWins(values, Pipe.Combiner([Str("bar")], host), Undefined, 0);
  }

  /** A pipeline whose context is destroyed before it performs: the result is
      a Cancellation at `foo` with reason `'<dummy> destroyed'` and an
      `undefined` result; the step never counts as successful. */
  lemma DestroyedContextHalts(host: Host)
    ensures var r := Pipelines.Factory(Destroyed, Arr(NamedSteps(["foo"])));
      && r.Ok?
      && Pipelines.Perform(r.value, [Str("bar")], host).Ok?
      && var v := Pipelines.Perform(r.value, [Str("bar")], host).value.returned;
      && Cancellations.IsCancelled(v)
      && Cancellations.FnName(v.cancellation) == Cancellations.Named(Str("foo"))
      && Cancellations.Reason(v.cancellation, host) == Str("<dummy> destroyed")
      && Cancellations.ResultOf(v.cancellation) == Undefined
  {
    DestroyedCreated();
    DestroyedRun(host);
    var p := DestroyedPipeline();
    Pipelines.PerformOfRun(p, [Str("bar")], host, Pipe.Run(Pipelines.StepValues(p.steps), [Str("bar")], host).value);
    Cancellations.FnNameOfStep(DestroyedStep, Undefined, Str("<dummy> destroyed"));
  }

  /** `pipeline(undefined, [])`, `pipeline(null, [])`, `pipeline([])` and
      `pipeline(1, [])` all fail on the context, in both factories. */
  lemma MissingContextsFail()
    ensures Pipelines.Factory(Undefined, Arr([])) == Err(MissingContext)
    ensures Pipelines.Factory(Null, Arr([])) == Err(MissingContext)
    ensures Pipelines.Factory(Arr([]), Undefined) == Err(MissingContext)
    ensures Pipelines.Factory(Num(1), Arr([])) == Err(MissingContext)
    ensures Index.MakePipeline(Undefined, Arr([])) == Err(MissingContext)
    ensures Index.MakePipeline(Null, Arr([])) == Err(MissingContext)
    ensures Index.MakePipeline(Arr([]), Undefined) == Err(MissingContext)
    ensures Index.MakePipeline(Num(1), Arr([])) == Err(MissingContext)
  {
  }

  /** `step(x => x * x).fn(2) == 4` and `step('foo').fnName == 'foo'` for the
      descriptors of the index factory. */
  lemma IndexStepFields(square: Host)
    requires forall args: seq<Val> :: square(0, args) == Num(N(args) * N(args))
    ensures Get(Index.MakeStep(Func(0), Undefined), "fn") == Func(0)
    ensures square(Get(Index.MakeStep(Func(0), Undefined), "fn").id, [Num(2)]) == Num(4)
    ensures Get(Index.MakeStep(Str("foo"), Undefined), "fnName") == Str("foo")
  {
  }
}
