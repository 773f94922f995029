/** The earlier `pipe` of addon/utils/pipe.js: the same threading over the
    legacy reduce, accepting functions or plain `{ fn }` descriptors. */
module LegacyPipe {
  import opened Values
  import opened Wrappers
  import opened Promises
  import opened Folds
  import LegacyReduce

  /** `applyFn(maybeFn, ...args)`: a function is called, a truthy value whose
      `fn` is a function has that called, anything else is its own result. */
  function ApplyFn(maybeFn: Val, args: seq<Val>, host: Host): (r: Val)
    ensures ThenFree(r) || r in args || r == maybeFn
    ensures !maybeFn.Func? && !(Truthy(maybeFn) && Get(maybeFn, "fn").Func?) ==> r == maybeFn
  {
    if maybeFn.Func? then host(maybeFn.id, args)
    else if Truthy(maybeFn) && Get(maybeFn, "fn").Func? then host(Get(maybeFn, "fn").id, args)
    else maybeFn
  }

  /** `invokeFunction(acc, makeFn(fn))`. */
  function Invoke(acc: Val, fn: Val, host: Host): Val {
    if IsPromise(acc) then Promise(Then(acc, fn, Legacy)) else ApplyFn(fn, [acc], host)
  }

  /** The reducer this `pipe` hands to the legacy `reduce`. */
  function Combiner(args: seq<Val>, host: Host): Combine {
    (acc: Val, curr: Val, idx: nat, values: seq<Val>) =>
      if idx == 0 then ApplyFn(curr, args, host) else Invoke(acc, curr, host)
  }

  /** `pipe(fns)(...args)`. */
  function Run(steps: seq<Val>, args: seq<Val>, host: Host): Result<Fold, Error> {
    LegacyReduce.Reduction(steps, Combiner(args, host), Undefined)
  }
}
