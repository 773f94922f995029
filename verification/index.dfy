/** The public entry points of addon/index.js: the `pipeline` factory and the
    earlier `step` factory, which builds plain `{ fn }` / `{ fnName }`
    descriptors rather than `Step` instances. */
module Index {
  import opened Wrappers
  import opened Values
  import Pipelines
  import LegacyPipe

  /** The own enumerable properties `Object.assign` copies from a source. */
  function OwnProps(v: Val): map<string, Val> {
    if v.Obj? then v.obj.props else map[]
  }

  /** `step(fnName, opts = {})`: `{ fn }` for a function, `{ fnName }` for
      anything else, with the options' own properties assigned over it. */
  function MakeStep(fnName: Val, opts: Val): (r: Val)
    ensures r.Obj?
    ensures forall k :: k in OwnProps(opts) ==> Get(r, k) == OwnProps(opts)[k]
    ensures "fn" !in OwnProps(opts) ==> Get(r, "fn") == (if fnName.Func? then fnName else Undefined)
    ensures "fnName" !in OwnProps(opts) ==> Get(r, "fnName") == (if fnName.Func? then Undefined else fnName)
  {
    var own := if fnName.Func? then map["fn" := fnName] else map["fnName" := fnName];
    Obj(Object("[object Object]", own + OwnProps(if opts == Undefined then EmptyObject else opts)))
  }

  /** `pipeline(context, steps = [])`: the context assertion, then
      `Pipeline.create` with that context and step list. */
  function MakePipeline(context: Val, steps: Val): (r: Result<Pipelines.Pipeline, Error>)
    ensures !Pipelines.AcceptsContext(context) ==> r == Err(MissingContext)
    ensures r.Ok? ==> Pipelines.Valid(r.value) && r.value.context == context && !r.value.isPerformed
    ensures r == Pipelines.Create(context, steps)
  {
    Pipelines.Factory(context, if steps == Undefined then Arr([]) else steps)
  }

  /** The earlier pipe calls the function of a `{ fn }` descriptor with the
      runner's arguments; a `{ fnName }` descriptor has no function and is
      passed through as its own result, unresolved. */
  lemma LegacyPipeCallsDescriptor(f: Val, opts: Val, args: seq<Val>, host: Host)
    requires "fn" !in OwnProps(opts)
    ensures f.Func? ==> LegacyPipe.ApplyFn(MakeStep(f, opts), args, host) == host(f.id, args)
    ensures !f.Func? ==> LegacyPipe.ApplyFn(MakeStep(f, opts), args, host) == MakeStep(f, opts)
  {
  }

  /** The descriptors this factory builds are not `Step` instances, so a
      `Pipeline` built from them is rejected when it validates its steps. */
  lemma DescriptorsAreNotSteps(context: Val, names: seq<Val>, opts: Val)
    requires Pipelines.AcceptsContext(context)
    requires |names| > 0
    ensures MakePipeline(context, Arr(seq(|names|, i requires 0 <= i < |names| => MakeStep(names[i], opts))))
         == Err(NotAStep)
  {
    var xs := seq(|names|, i requires 0 <= i < |names| => MakeStep(names[i], opts));
    Pipelines.CreateOutcome(context, xs);
    assert !xs[0].StepObj?;
  }
}
