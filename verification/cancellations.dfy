/** The `Cancellation` value of addon/cancellation.js: what a short-circuited
    run hands back, holding the last good result, the step that stopped the
    run, and a reason that may be computed when read. The class has getters
    only, so a datatype value captures its immutability. */
module Cancellations {
  import opened Wrappers
  import opened Values

  /** `new Cancellation({ result, step, reason })`: asserts that `step` is present. */
  function New(result: Val, step: Val, reason: Val): (r: Result<Cancellation, Error>)
    ensures r.Ok? <==> IsPresent(step)
    ensures r.Err? ==> r.error == MissingStep
    ensures r.Ok? ==> r.value.cancelled
  {
    if IsPresent(step) then Ok(Cancellation(true, result, step, reason)) else Err(MissingStep)
  }

  /** `v && v[IS_CANCELLED]`: the marker a pipeline tests before calling its handler. */
  predicate IsCancelled(v: Val) {
    v.CancellationObj? && v.cancellation.cancelled
  }

  /** The `result` getter. */
  function ResultOf(c: Cancellation): Val {
    c.result
  }

  /** What the `fnName` getter returns: a name stored on the step, or the
      source text of a function (stringification itself is not modelled). */
  datatype Label = Named(name: Val) | SourceText(of: Val)

  /** The `fnName` getter: `step.fnName || (step.fn || step).toString()`. */
  function FnName(c: Cancellation): Label {
    var step := c.step;
    var fn := if Truthy(Get(step, "fn")) then Get(step, "fn") else step;
    if Truthy(Get(step, "fnName")) then Named(Get(step, "fnName")) else SourceText(fn)
  }

  /** The `reason` getter: a stored function is called, anything else returned. */
  function Reason(c: Cancellation, host: Host): Val {
    if c.reason.Func? then host(c.reason.id, []) else c.reason
  }

  /** Reading a constructed Cancellation gives back what it was built from:
      the accumulator, the step, and the reason (a thunk evaluated on read). */
  lemma ReadBack(result: Val, step: Val, reason: Val, host: Host)
    requires IsPresent(step)
    ensures New(result, step, reason).Ok?
    ensures var c := New(result, step, reason).value;
      && IsCancelled(CancellationObj(c))
      && ResultOf(c) == result
      && c.step == step
      && Reason(c, host) == (if reason.Func? then host(reason.id, []) else reason)
  {
  }

  /** The name a step was created with wins; a step created from a function,
      having no name, reports that function's source text. */
  lemma FnNameOfStep(s: Step, result: Val, reason: Val)
    requires s.fnName.Str? ==> s.fnName.s != ""
    requires s.fnName.Str? || (s.fnName == Undefined && s.fn.Func?)
    ensures New(result, StepObj(s), reason).Ok?
    ensures FnName(New(result, StepObj(s), reason).value)
         == (if s.fnName.Str? then Named(s.fnName) else SourceText(s.fn))
  {
  }
}
