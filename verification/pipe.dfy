/** The `pipe` of addon/-pipe.js: threads the runner's arguments into the first
    step and each result into the next, chaining with `.then` once a result is
    promise-like, all on top of the short-circuiting reduce. */
module Pipe {
  import opened Values
  import opened Wrappers
  import Steps
  import opened Promises
  import opened Folds
  import ShortCircuit

  /** `applyFn(maybeFn, ...args)`: a `Step` performs, a function is called,
      anything else is its own result. Whatever is called hands back a value
      with no pending continuation or one of the arguments. */
  function ApplyFn(maybeFn: Val, args: seq<Val>, host: Host): (r: Val)
    ensures ThenFree(r) || r in args || r == maybeFn
    ensures !maybeFn.StepObj? && !maybeFn.Func? ==> r == maybeFn
  {
    match maybeFn
    case StepObj(s) => Steps.Perform(s, args, host)
    case Func(id) => host(id, args)
    case _ => maybeFn
  }

  /** `invokeFunction(acc, makeFn(fn))`: a promise-like accumulator gets the
      step attached as its continuation; anything else is passed to it now. */
  function Invoke(acc: Val, fn: Val, host: Host): Val {
    if IsPromise(acc) then Promise(Then(acc, fn, Current)) else ApplyFn(fn, [acc], host)
  }

  /** The reducer `pipe` hands to `reduce`: index 0 receives every argument of
      the runner, each later step the accumulator. */
  function Combiner(args: seq<Val>, host: Host): Combine {
    (acc: Val, curr: Val, idx: nat, values: seq<Val>) =>
      if idx == 0 then ApplyFn(curr, args, host) else Invoke(acc, curr, host)
  }

  /** `pipe(steps)(...args)`: the reduce over the steps from the seed `undefined`. */
  function Run(steps: seq<Val>, args: seq<Val>, host: Host): Result<Fold, Error> {
    ShortCircuit.Reduction(steps, Combiner(args, host), Undefined)
  }
}
