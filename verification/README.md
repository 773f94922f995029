# ember-pipeline, modelled in Dafny

This project models the core of ember-pipeline, a small Ember addon. The
addon composes a list of steps into a pipeline that threads one value through
the steps and can cancel part-way through.

- A **step** is a `Step` instance (addon/step.js). It refers to a function
  either directly or by a method name. The name is resolved when the step is
  bound to the pipeline's context object.
- A **pipeline** (addon/pipeline.js) binds its steps to the context once, at
  construction.
- `perform(...args)` runs the steps through `pipe` (addon/-pipe.js):
  - the first step receives the call's arguments;
  - each later step receives the previous result;
  - a later step is attached with `.then` once a result is a promise.
- The loop underneath is a short-circuiting `reduce` (addon/-reduce.js). It
  stops at the first step whose context is destroyed or that returns the
  cancel token. It then returns a `Cancellation` (addon/cancellation.js)
  holding the last accumulator before that step, the step itself and a
  reason.
- The pipeline keeps a record of its last run:
  - which steps completed (`successfulSteps`) and which did not
    (`cancelledSteps`);
  - the raw result;
  - whether the run was cancelled, in which case an optional cancel handler
    receives the `Cancellation`.
- The earlier revision of the runner (addon/utils/pipe.js,
  addon/utils/reduce.js) and the exported factories of addon/index.js are
  modelled next to it. So are the predicates `isDestroyed` and `isPromise`.

## How the model is organised

| module | what it models |
|---|---|
| `Values` | JavaScript values as one datatype `Val`. Functions are opaque references `Func(id)`. A `Host` maps a reference and arguments to the value the call returns. Ember `get`, `isNone`, `isPresent` and `isObject` are modelled as functions on `Val`. |
| `Liveness`, `Promises` | `isDestroyed` and `isPromise`. |
| `Cancellations`, `Steps` | The `Cancellation` and `Step` classes, as immutable records plus functions. |
| `Folds` | The plain left fold: the accumulator before element `i` (`Acc`), the value element `i` produces (`Produced`), the list of accumulators the combining function has seen (`Trace`), and the first element at which a stop predicate holds (`FirstStop`). |
| `ShortCircuit`, `LegacyReduce` | The two `reduce` loops. Each is written as the loop method `Reduce` and as a declarative reference `Reduction` (a plain fold up to the first stop, then the stop's result). The method is proved equal to the reference on every input. |
| `Pipe`, `LegacyPipe`, `Threading` | The two `pipe` runners. `Threading` gives two reference definitions: `Composed` (the plain composition of the steps) and `Awaited` (the value the run settles to once every promise resolves). It proves the runners agree with them. |
| `Pipelines`, `Index` | `Pipeline` as an immutable record. Each method returns the updated record. |
| `ReduceScenarios`, `PipelineScenarios` | The repository's unit tests, restated as lemmas about concrete inputs. |

A method of the source that mutates `this` becomes a function from the old
record to the new one. A step's behaviour is a `Host` parameter. A result
that the source exposes as a promise is described by `Settle`: it follows a
resolved promise, or a promise chained with `.then`, to the plain value it
settles to.

## Model

| member | source | states |
|---|---|---|
| Liveness.DestroyedMeansFlagged | addon/utils/is-destroyed.js:12-14 | A context counts as destroyed exactly when it is truthy and one of its `isDestroyed` / `isDestroying` flags is truthy. The `isNone` disjunct never decides, and a falsy context is never destroyed. |
| Liveness.LiveObjectsAreNotDestroyed | tests/unit/utils/is-destroyed-test.js:3-26 | An object whose flags are absent or `false` is not destroyed. |
| Liveness.EitherFlagDestroys | tests/unit/utils/is-destroyed-test.js:3-26 | An object with either flag truthy is destroyed. |
| Promises.PromiseClassification | addon/utils/is-promise.js:6-14 | A value is a promise exactly when it is an RSVP promise or an object whose `then` and `catch` are both functions. A primitive never is. |
| Promises.NotPromiseIsThenFree | addon/utils/is-promise.js:11-14 | A value `isPromise` rejects carries no pending `.then` chain, so the pipe calls the next step on it directly. |
| Cancellations.New | addon/cancellation.js:14-23 | Construction succeeds exactly when the step is present. Otherwise it fails with the missing-step assertion. A constructed value is always flagged cancelled. |
| Cancellations.ReadBack | addon/cancellation.js:25-40 | The `result` getter returns the accumulator it was given. The `reason` getter returns the reason, or the value of calling it when it is a function. |
| Cancellations.FnNameOfStep | addon/cancellation.js:29-33 | For a `Step`, `fnName` is the step's method name when it has a non-empty one. Otherwise it is the source text of its function. |
| Steps.NewStep | addon/step.js:16-29 | The constructor accepts exactly functions and strings and rejects anything else with the step-kind assertion. A function sets `fn` and a string sets `fnName`, never both. Missing options default to `{}`, and the step starts unbound. |
| Steps.MakeStep | addon/step.js:51-53 | The `step(...)` factory accepts exactly functions and strings. It yields a fresh, unbound step that holds the function, or the name, it was given, together with the options (`{}` when missing). |
| Steps.FactoryIsConstructor | addon/step.js:51-53 | `step(...args)` is `new Step(...args)` on every argument, errors included. |
| Steps.BindFreshStep | addon/step.js:31-41 | Binding a fresh step succeeds exactly when the step holds a function or the context has a function under the step's name. The bound step then calls that function, records the context, is bound, and keeps its name and options. |
| Steps.NullContextRaises | addon/step.js:31-35 | Binding any step to `null` raises. A named step hands `null` to Ember's `get`, whose assertion rejects it. A step holding a function skips `get`, but the eagerly built assertion message calls `context.toString()` on `null`. |
| Steps.RebindKeepsFunction | addon/step.js:31-41 | Once bound, a step binds to any other non-null context and keeps the same function, because `this.fn` now wins over the name. |
| Steps.Perform | addon/-pipe.js:9-11 | Performing a step returns what its bound function returns for the arguments: a value with no pending chain, or one of the arguments. |
| Folds.TraceGrows | addon/-reduce.js:23-46 | One more iteration appends exactly the current accumulator to the trace. |
| Folds.FirstStop | addon/-reduce.js:23-43 | The index returned is the first element at which the stop predicate holds, or the length when there is none. No earlier element satisfies it. |
| Folds.FirstStopIs | addon/-reduce.js:23-43 | Any index that satisfies the stop predicate, with no earlier index satisfying it, is the first stop. |
| Folds.NoStopYet | addon/-reduce.js:23-46 | Passing one more non-stopping element extends the stop-free prefix by one. |
| Folds.FirstStopAgrees | addon/utils/reduce.js:13 | Two stop predicates that agree pointwise on every element and produced value give the same first stop. |
| Folds.AccIsFoldLeft | addon/-reduce.js:22-48 | The accumulator after every element equals the ordinary `Array.prototype.reduce` left fold from the seed. |
| ShortCircuit.StopsAt | addon/-reduce.js:28-43 | When element `k` is the first to end the loop, the result is that element's halt. The combining function was called `k + 1` times, and `k` elements completed. |
| ShortCircuit.RunsToEnd | addon/-reduce.js:22-48 | When no element ends the loop, the result is the fold over the whole list, and every element completed. |
| ShortCircuit.Reduce | addon/-reduce.js:22-48 | The loop as written returns exactly the declarative reduction for every list, combining function and seed, including the error and cancellation cases. |
| ShortCircuit.EmptyReturnsSeed | addon/-reduce.js:22-23 | An empty list returns the seed and calls nothing. |
| ShortCircuit.UnstoppedIsLeftFold | tests/unit/reduce-test.js:8-11 | Without a stop the loop is `Array.prototype.reduce`: it combines every element once, in order. |
| ShortCircuit.TokenCancels | addon/-reduce.js:36-43 | A token produced at index `k` over a live context gives a Cancellation holding the accumulator from before `k`, naming element `k` and carrying the token's reason. Only the elements before `k` complete. |
| ShortCircuit.DestroyedContextWins | addon/-reduce.js:26-35 | A destroyed context at index `k` stops the loop whatever step `k` produced. The reason reads `<context> destroyed`, and step `k` had already been called. |
| ShortCircuit.NothingPastTheStop | addon/-reduce.js:9-47 | The combining function sees only the accumulators up to the stopping element, and entry `i` of what it saw is the accumulator before element `i`. The completed count is the first stop. Performed flag `i` is set exactly when element `i` is a `Step` instance before the stop (`markPerformed`). |
| LegacyReduce.StopsAt | addon/utils/reduce.js:13-16 | When element `k` is the first to meet the combined check, the result is the cancelled record of the accumulator before `k`. |
| LegacyReduce.RunsToEnd | addon/utils/reduce.js:7-20 | Without a stop, the earlier loop returns the fold over the whole list. |
| LegacyReduce.Reduce | addon/utils/reduce.js:7-20 | The earlier loop as written returns exactly its declarative reduction on every input. |
| LegacyReduce.EmptyReturnsSeed | addon/utils/reduce.js:7-8 | An empty list returns the seed. |
| LegacyReduce.UnstoppedIsLeftFold | tests/unit/utils/reduce-test.js:8-11 | Without a stop, the earlier loop is the ordinary left fold. |
| LegacyReduce.OneCombinedCheck | addon/utils/reduce.js:13 | For a present element, the combined check holds exactly when the value is the `CANCEL` object or the context is one `isDestroyed` calls destroyed. |
| LegacyReduce.AgreesWithCurrent | addon/utils/reduce.js:7-20 | When every token produced is the `CANCEL` object, both loops stop at the same element after the same accumulators. Without a stop they return the same value. |
| LegacyReduce.SameStop | addon/utils/reduce.js:13 | Under that assumption, the two loops' stop predicates pick the same first element. |
| Pipe.ApplyFn | addon/-pipe.js:8-16 | A `Step` is performed and a function is called. Anything else is returned unchanged. The result is a value with no pending chain, an argument, or the input itself. |
| LegacyPipe.ApplyFn | addon/utils/pipe.js:7-15 | A function is called, and a truthy value whose `fn` is a function has that called. Anything else is returned unchanged. |
| Threading.Apply | addon/-pipe.js:8-16 | Applying a step in either runner returns a value with no pending chain, an argument, or the step itself. |
| Threading.Settle | addon/-pipe.js:18-20 | A settled value is never a promise, and a non-promise settles to itself. |
| Threading.ThreadsPreviousResult | addon/-pipe.js:29-37 | Step 0 receives the call's arguments. Each later step receives the previous accumulator, or is attached to it with `.then` when that is a promise. |
| Threading.SyncPrefixIsComposition | addon/-pipe.js:29-37 | While no step has returned a promise, the accumulator is the plain composition of the steps so far. |
| Threading.SettledIsAwaited | addon/-pipe.js:17-20 | Settling the accumulator after step `i` gives the value obtained by awaiting each step's result before calling the next. |
| Threading.OnceChainedStaysChained | addon/-pipe.js:18-20 | Once the accumulator is a promise, every later accumulator is a promise too. |
| Threading.ProducedIsComposed | addon/-pipe.js:29-37 | Before any promise, the value each step produces is the plain composition up to that step. |
| Threading.EmptyPipeYieldsUndefined | addon/-pipe.js:29-36 | A pipe without steps returns the seed `undefined`. |
| Threading.SyncRunComposes | addon/-pipe.js:29-37 | A synchronous, uncancelled run returns the composition of all steps and completes every one of them. |
| Threading.SyncCancelAt | addon/-pipe.js:29-37 | A synchronous run that meets a token at step `k` returns a Cancellation holding the composition up to `k - 1`, which is the seed `undefined` when `k = 0`. |
| Threading.WholeRunSettles | addon/-pipe.js:29-37 | Settling the final accumulator gives the awaited value of the last step. |
| Threading.RunReachesEnd | addon/-pipe.js:29-37 | Without a stop, the current runner returns the final accumulator. |
| Threading.LegacyRunReachesEnd | addon/utils/pipe.js:21-29 | Without a stop, the earlier runner returns the final accumulator. |
| Threading.AsyncRunSettles | addon/-pipe.js:29-37 | An uncancelled run, with or without promises, settles to the awaited composition of all steps. |
| Threading.TokenAfterPromiseGoesUnseen | addon/-pipe.js:18-20 | Once the accumulator is a promise, a later token is not seen by the loop. Every step completes and the run returns a promise. |
| Threading.LegacyEmptyPipeYieldsUndefined | addon/utils/pipe.js:21-28 | The earlier pipe without steps returns `undefined`. |
| Threading.LegacySyncRunComposes | addon/utils/pipe.js:21-29 | The earlier synchronous, uncancelled run returns the composition of all steps. |
| Threading.LegacySyncCancelAt | addon/utils/pipe.js:21-29 | The earlier run returning `CANCEL` at step `k` gives the cancelled record of the composition before `k`. |
| Threading.LegacyAsyncRunSettles | addon/utils/pipe.js:21-29 | The earlier uncancelled run settles to the awaited composition. |
| Pipelines.ValidateSteps | addon/pipeline.js:145-152 | The steps are accepted exactly when every element is a `Step` instance. Otherwise they are rejected with the step assertion, and acceptance keeps the elements. |
| Pipelines.BindAll | addon/pipeline.js:91-93 | Binding succeeds exactly when every step binds. The bound list has the same length, and entry `i` is step `i` bound to the context. |
| Pipelines.Create | addon/pipeline.js:78-96 | A missing or non-object context is rejected. A created pipeline is well formed, holds the given context, and has not run, with no result and no handler. |
| Pipelines.CreateOutcome | addon/pipeline.js:78-96 | Construction from an array rejects a non-`Step` element first, then an unresolvable step. Otherwise it holds every step bound to the context, in order, with all flags clear. |
| Pipelines.Factory | addon/pipeline.js:176-180 | On every context the exported factory behaves exactly as `Pipeline.create`, because `init` makes the same context assertion (addon/pipeline.js:80). A missing or non-object context is rejected. |
| Pipelines.Unmark | addon/pipeline.js:160-162 | Unmarking clears every flag, keeps their number, and changes nothing else. |
| Pipelines.OnCancel | addon/pipeline.js:129-136 | A function handler is accepted and set, and only the handler changes. Anything else is rejected. |
| Pipelines.SelectPartitions | addon/pipeline.js:66-76 | `filter` and `reject` on the same flags hold every step exactly once between them. |
| Pipelines.SelectPrefix | addon/pipeline.js:66-76 | With the first `k` flags set, `filter` keeps the first `k` steps and `reject` keeps the rest. |
| Pipelines.FreshPartitionsEmpty | addon/pipeline.js:66-76 | Before any run, both partitions are empty. |
| Pipelines.PartitionsCoverSteps | addon/pipeline.js:66-76 | After a run, the two partitions together hold each step exactly once. |
| Pipelines.LiveStepsGoOn | addon/-reduce.js:26-35 | In a pipeline over a live context, no step stops the loop by itself; only a token can. |
| Pipelines.RunOfStepsIsOk | addon/-reduce.js:22-48 | A run over `Step` instances never raises. |
| Pipelines.ExecuteOutcome | addon/pipeline.js:113-119 | Executing a well-formed pipeline folds over exactly its steps, in order. It stores the raw result, sets `isPerformed`, and leaves one flag per step, set exactly for the steps before the first stop. |
| Pipelines.PerformOutcome | addon/pipeline.js:105-119 | `perform` always returns. The pipeline stays well formed, keeps its steps, context and handler, and counts as performed. Its partitions are the steps before and from the first stop. |
| Pipelines.PerformReturns | addon/pipeline.js:105-111 | A cancelled result goes to the handler when one is set, and the handler's value is returned. Otherwise the result is returned as the run produced it. |
| Pipelines.PerformOfRun | addon/pipeline.js:105-119 | Given the run's fold, `perform` leaves exactly that result and those flags and partitions, and returns the run's value or the handler's. |
| Pipelines.ExecuteOfRun | addon/pipeline.js:113-119 | Given the run's fold, `_executePipeline` leaves exactly that result and those flags. |
| Pipelines.RerunIsFresh | addon/pipeline.js:105-119 | A run does not depend on earlier runs: stale flags, `isPerformed` and result do not change what `perform` leaves or returns. |
| Pipelines.ExecuteForgets | addon/pipeline.js:113-119 | `_executePipeline` forgets every trace of an earlier run before running. |
| Pipelines.DestroyedContextCancelsFirstStep | addon/-reduce.js:26-35 | A pipeline whose context is already destroyed cancels at step 0. The result is `undefined` and the reason names the context. No step is successful and every step is cancelled. |
| Index.MakeStep | addon/index.js:42-48 | The earlier `step` builds `{ fn }` for a function and `{ fnName }` otherwise. Every own option is copied over it. |
| Index.MakePipeline | addon/index.js:28-32 | The exported `pipeline` is `Pipeline.create` with the given context and step list, on every input. A missing or non-object context is rejected, and a created pipeline is well formed, on that context, and unperformed. |
| Index.LegacyPipeCallsDescriptor | addon/utils/pipe.js:7-15 | The earlier pipe calls a `{ fn }` descriptor's function and passes a `{ fnName }` descriptor through unresolved. |
| Index.DescriptorsAreNotSteps | addon/pipeline.js:145-152 | A pipeline built from `index.js` descriptors is rejected, because they are not `Step` instances. |
| ReduceScenarios.SumsOneTwoThree | tests/unit/reduce-test.js:9 | Summing 1, 2, 3 from 0 gives 6 and completes all three elements. |
| ReduceScenarios.LegacySumsOneTwoThree | tests/unit/utils/reduce-test.js:9 | The earlier loop sums 1, 2, 3 from 0 to 6. |
| ReduceScenarios.DoublesOneTwoThree | tests/unit/reduce-test.js:10 | Appending doubles of 1, 2, 3 to `[]` gives `[2, 4, 6]` in both loops. |
| ReduceScenarios.CancelKeepsTen | tests/unit/reduce-test.js:13-23 | The cancel test returns a Cancellation with result 10 and reason `undefined`, named by the second function's source text. The third function is never called. |
| ReduceScenarios.LegacyCancelKeepsTen | tests/unit/utils/reduce-test.js:13-24 | The earlier loop returns the cancelled record holding 10. |
| PipelineScenarios.First | tests/unit/pipeline-test.js:20-32 | The first argument, or `undefined`. |
| PipelineScenarios.DummyMethods | tests/unit/pipeline-test.js:20-32 | The dummy's `step1`–`step3` return a plain value or an argument. |
| PipelineScenarios.CreateFromNames | tests/unit/pipeline-test.js:13-19 | Named steps whose methods the context defines build a pipeline holding each step bound to its method. |
| PipelineScenarios.DummyAlive | tests/unit/pipeline-test.js:12 | The dummy is an acceptable, live context. |
| PipelineScenarios.DummyLookups | tests/unit/pipeline-test.js:20-32 | The dummy's method names resolve to its three methods. |
| PipelineScenarios.DummyCreated | tests/unit/pipeline-test.js:13-19 | The calculation pipeline builds with the three bound steps. |
| PipelineScenarios.CalculateUnfolds | tests/unit/pipeline-test.js:49-51 | `calculate` performs the well-formed calculation pipeline with the handler set. |
| PipelineScenarios.DummyValues | tests/unit/pipeline-test.js:13-19 | The calculation steps are live, present `Step`s. |
| PipelineScenarios.DummyComposes | tests/unit/pipeline-test.js:64-72 | For `2x <= 10` the steps produce `x`, `2x` and `(2x)^2`. |
| PipelineScenarios.HappyRun | tests/unit/pipeline-test.js:64-72 | For `2x <= 10` the run completes all three steps with value `(2x)^2`. |
| PipelineScenarios.HappyPath | tests/unit/pipeline-test.js:64-72 | `calculate(x)` returns `(2x)^2`, counts three successful steps, and does not call the handler. |
| PipelineScenarios.UnhappyRun | tests/unit/pipeline-test.js:74-87 | For `2x > 10` the run stops at `step2` holding `x`, and only `step1` completes. The combining function runs exactly twice, so `step3` is never called, which is the spy count the test checks. |
| PipelineScenarios.UnhappyPath | tests/unit/pipeline-test.js:74-87 | For `2x > 10` the handler receives a Cancellation from `step2` with last value `x` and the step's reason. Only `step1` is successful and the other two are cancelled. |
| PipelineScenarios.RerunAfterCancel | tests/unit/pipeline-test.js:84-86 | Performing again after a cancelled run gives the fresh result 4 with every step successful. |
| PipelineScenarios.TrackingMethods | tests/unit/pipeline-test.js:141-179 | The tracking steps return a plain value, an argument, or a promise of an argument. |
| PipelineScenarios.TrackerLookups | tests/unit/pipeline-test.js:141-179 | The tracking object is live, and its names resolve to the four steps. |
| PipelineScenarios.TrackUnfolds | tests/unit/pipeline-test.js:141-179 | Tracking performs the well-formed four-step pipeline. |
| PipelineScenarios.TrackerValues | tests/unit/pipeline-test.js:141-179 | The tracking steps are live, present `Step`s. |
| PipelineScenarios.TrackingComposes | tests/unit/pipeline-test.js:141-179 | For input `n` in 1..3, the steps before `step<n>` pass `n` through and `step<n>` returns the token. |
| PipelineScenarios.TrackingRunCancels | tests/unit/pipeline-test.js:141-179 | For input `n` in 1..3, the run cancels at index `n - 1`. |
| PipelineScenarios.TrackingCancels | tests/unit/pipeline-test.js:141-179 | For input `n` in 1..3, `n - 1` steps are successful and `5 - n` are cancelled. |
| PipelineScenarios.TrackingChains | tests/unit/pipeline-test.js:141-179 | With input 4, `step3` returns a promise and `step4` is attached with `.then`. |
| PipelineScenarios.TrackingRunCompletes | tests/unit/pipeline-test.js:141-179 | With input 4, the run completes every step and settles to 4. |
| PipelineScenarios.TrackingAwaited | tests/unit/pipeline-test.js:141-179 | Input 4, awaited step by step, passes through all four steps. |
| PipelineScenarios.TrackingCompletes | tests/unit/pipeline-test.js:141-179 | Input 4 counts all four steps successful and none cancelled, and the result settles to 4. |
| PipelineScenarios.ShopMethods | tests/unit/pipeline-test.js:100-118 | The promise test's `foo`, `baz` and `halt` return a plain value, an argument, or a resolved promise. |
| PipelineScenarios.ShopLookups | tests/unit/pipeline-test.js:100-118 | The object is live, and its names resolve to the three methods. |
| PipelineScenarios.ShopCreated | tests/unit/pipeline-test.js:100-118 | `[foo, second]` builds with both steps bound. |
| PipelineScenarios.ShopFirstStep | tests/unit/pipeline-test.js:100-118 | `foo('Bar')` produces a promise of `'FooBar'`. |
| PipelineScenarios.ShopNeverEnds | tests/unit/pipeline-test.js:100-118 | Neither step ends the loop on `'Bar'`. |
| PipelineScenarios.ShopSecondChained | tests/unit/pipeline-test.js:100-118 | The second step is attached to `foo`'s promise. |
| PipelineScenarios.ShopAwaited | tests/unit/pipeline-test.js:100-118 | Awaited, the second step receives `'FooBar'`. |
| PipelineScenarios.ShopRunCompletes | tests/unit/pipeline-test.js:100-118 | The run completes both steps and settles to the second step's value on `'FooBar'`. |
| PipelineScenarios.ShopPerformSettles | tests/unit/pipeline-test.js:100-118 | Performing counts both steps successful and returns a promise that settles to the second step's value. |
| PipelineScenarios.PromiseStepSettles | tests/unit/pipeline-test.js:100-118 | `[foo, baz]` performed with `'Bar'` settles to `'FooBarBaz'`. |
| PipelineScenarios.BazAppends | tests/unit/pipeline-test.js:100-118 | `baz('FooBar')` is `'FooBarBaz'`. |
| PipelineScenarios.TokenAfterPromiseSettlesToToken | tests/unit/pipeline-test.js:100-118 | With `[foo, halt]`, the token arrives inside the promise, so the loop does not cancel. The result settles to the token and both steps count as successful. |
| PipelineScenarios.FnMethods | tests/unit/pipeline-test.js:127-139 | The function steps and `qux` return plain strings. |
| PipelineScenarios.FnStepsBind | tests/unit/pipeline-test.js:127-139 | Function steps and a named step are built as expected, and each binds to the object. |
| PipelineScenarios.QuxerCreated | tests/unit/pipeline-test.js:127-139 | The object is live, and the pipeline builds from the three steps. |
| PipelineScenarios.FnComposes | tests/unit/pipeline-test.js:127-139 | The steps produce `'FooBar'`, `'FooBarBaz'` and `'FooBarBazQux'`. |
| PipelineScenarios.FnPipelineValid | tests/unit/pipeline-test.js:127-139 | The built pipeline is well formed. |
| PipelineScenarios.FnPerformComposes | tests/unit/pipeline-test.js:127-139 | Performing with `'Bar'` returns `'FooBarBazQux'`, and all steps are successful. |
| PipelineScenarios.FunctionStepsCompose | tests/unit/pipeline-test.js:127-139 | Built by the factory and performed, the steps return `'FooBarBazQux'`. |
| PipelineScenarios.FooMethods | tests/unit/pipeline-test.js:89-98 | `foo` prefixes its argument with `'foo'`. |
| PipelineScenarios.FooCreated | tests/unit/pipeline-test.js:89-98 | `pipeline(obj, [step('foo')])` builds a well-formed pipeline on a live object. |
| PipelineScenarios.FooRun | tests/unit/pipeline-test.js:89-98 | The single step turns `'bar'` into `'foobar'`. |
| PipelineScenarios.FooPerforms | tests/unit/pipeline-test.js:89-98 | Performing with `'bar'` returns `'foobar'`. |
| PipelineScenarios.SingleStepPerforms | tests/unit/pipeline-test.js:89-98 | The factory's pipeline, performed with `'bar'`, returns `'foobar'`. |
| PipelineScenarios.DestroyedCreated | tests/unit/pipeline-test.js:186-206 | Construction ignores the destroyed flag, so the pipeline builds as usual. |
| PipelineScenarios.DestroyedRun | tests/unit/pipeline-test.js:186-206 | The run calls `foo`, then stops at it on the seed `undefined`, with reason `<dummy> destroyed`. |
| PipelineScenarios.DestroyedContextHalts | tests/unit/pipeline-test.js:186-206 | Performing returns a Cancellation naming `foo`, with reason `<dummy> destroyed` and result `undefined`. No step is successful. |
| PipelineScenarios.MissingContextsFail | tests/unit/pipeline-test.js:120-125 | `undefined`, `null`, an array and a number are all rejected as contexts, by both factories. |
| PipelineScenarios.IndexStepFields | tests/unit/pipeline-test.js:181-184 | `step(fn).fn` is the function, and `step('foo').fnName` is `'foo'`. |

## Left out

- Receiver binding: `fn.bind(context)` is modelled as the same function reference; the bound receiver is not modelled.
- Function stringification: a function's source text is an opaque `SourceText` label.
- Floating point: numbers are integers, and NaN and -0 are absent.
- RSVP scheduling, rejection and `catch`: a promise is modelled by the value it settles to. A thenable that is not an RSVP promise settles to nothing (`None`).
- Pipe.Invoke, LegacyPipe.Invoke: for a foreign thenable, an object that passes `isPromise` through its own `then` and `catch`, `acc.then(fn)` calls that object's `then`. The loop then checks whatever it returns. The model instead always builds an RSVP `.then` chain, so that return value is not modelled.
- Exceptions thrown inside steps, and concurrency, are not modelled.
- Threading.Settle: a `Host` call must return a value with no pending `.then` chain, or one of its arguments. Settling therefore terminates, but steps that build deeper promise chains are outside the model.
- Context destroyed during a run: the flags are read from the object the steps were bound to. The destroyed-context scenario builds with an already flagged object, which is what the loop sees.
- Ember `get`'s assertions on key types, and `pureAssign` of non-object options: options are copied only when they are plain objects.
- The `IS_CANCELLED` object used as a property key: `perform` reads the cancelled flag of a Cancellation directly.
- Debug-only assertions (`runInDebug`, `assert`) are modelled as `Err` results, as in a development build.
- `Step.perform`, `markPerformed`, `unmarkPerformed` and `CANCEL_REASON` are used but not defined in addon/. They are modelled as follows:
  - performing calls the bound function;
  - the per-step flags are a list in the pipeline;
  - the token is a `Token(reason)` value whose reason is carried into the Cancellation.
- The `CANCEL` of addon/-symbols.js is a plain object, yet the tests call it as a function. The earlier loop compares with the single `Cancel` value.
- The caching of the `successfulSteps` / `cancelledSteps` computed properties is not modelled; they are recomputed from the flags.
- The `IS_PIPELINE` marker is not modelled.
- TypeError: the model's `TypeError` stands both for the JavaScript TypeError of `context.toString()` on `null` and for the assertion Ember's `get` raises on a none receiver (addon/step.js:32, addon/-reduce.js:26). The two are not told apart.
- Mutable Ember object state: every method returns the updated immutable record.
- Step identity: a `Step` instance listed twice, or shared between pipelines, has one performed flag and one bound context in the source. The model gives each list entry its own copy and flag, so such lists can partition differently.
- Property lookup: Ember `get` also finds inherited properties (the prototype chain, for example methods of an `EmberObject.extend` class or `toString`) and follows dotted paths. Objects in the model carry only their own properties, and a key is a single name, so a step named after an inherited method does not resolve.

## Where the code and its description differ

- A cancel at step 0 of the pipe holds the seed `undefined` as its result, not the call's arguments (Threading.SyncCancelAt).
- After a step returns a promise, a later token is not seen by the loop, and every step counts as successful (Threading.TokenAfterPromiseGoesUnseen).
- The steps built by `index.js`'s `step` are plain descriptors, which `_validateSteps` rejects (Index.DescriptorsAreNotSteps). The pipeline scenarios therefore use `Step` instances.
- The earlier pipe passes a `{ fnName }` descriptor through without resolving it (Index.LegacyPipeCallsDescriptor).
- `RSVP.resolve` of a promise returns that promise itself.
- tests/unit/pipeline-test.js:203 reads `result.reult`, a misspelt property that is always `undefined`. The model states the intended `result`.
