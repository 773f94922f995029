/** The `Step` class of addon/step.js: a reference to a function, either
    directly or by a name resolved against a context when the step is bound. */
module Steps {
  import opened Wrappers
  import opened Values

  /** A step as the constructor leaves it: not bound, no context, and exactly
      one of `fn` / `fnName` set. */
  predicate IsFresh(s: Step) {
    !s.isBound && s.context == Undefined && (s.fn == Undefined) != (s.fnName == Undefined)
  }

  /** `new Step(fn, opts = {})`: a function sets `fn`, a string sets `fnName`,
      anything else fails the constructor's assertion. */
  function NewStep(fn: Val, opts: Val): (r: Result<Step, Error>)
    ensures r.Ok? <==> fn.Func? || fn.Str?
    ensures r.Err? ==> r.error == InvalidStepKind
    ensures r.Ok? ==> IsFresh(r.value)
    ensures r.Ok? ==> (r.value.fn == fn <==> fn.Func?) && (r.value.fnName == fn <==> fn.Str?)
    ensures r.Ok? ==> r.value.opts == (if opts == Undefined then EmptyObject else opts)
  {
    if !(fn.Func? || fn.Str?) then Err(InvalidStepKind)
    else
      Ok(Step(
        if fn.Func? then fn else Undefined,
        if fn.Str? then fn else Undefined,
        if opts == Undefined then EmptyObject else opts,
        false,
        Undefined))
  }

  /** The `step(...)` factory: a fresh, unbound step over a function or a
      name, and the constructor's error for anything else. */
  function MakeStep(fn: Val, opts: Val): (r: Result<Step, Error>)
    ensures r.Ok? <==> fn.Func? || fn.Str?
    ensures r.Err? ==> r.error == InvalidStepKind
    ensures r.Ok? ==> IsFresh(r.value) && (r.value.fn == fn <==> fn.Func?)
    ensures r.Ok? ==> (r.value.fnName == fn <==> fn.Str?)
    ensures r.Ok? ==> r.value.opts == (if opts == Undefined then EmptyObject else opts)
  {
    NewStep(fn, opts)
  }

  /** `step(...args)` is `new Step(...args)`: the factory and the constructor
      agree on every argument, errors included. */
  lemma FactoryIsConstructor(fn: Val, opts: Val)
    ensures MakeStep(fn, opts) == NewStep(fn, opts)
  {
  }

  /** `this.fn || get(context, this.fnName)`. */
  function Resolve(s: Step, context: Val): Val {
    if Truthy(s.fn) then s.fn
    else if s.fnName.Str? then Get(context, s.fnName.s)
    else Undefined
  }

  /** `bindTo(context = {})`: resolves the function, asserts it is one, and
      records the context. A `null` context always raises: a named step hands
      it to Ember's `get`, whose assertion rejects it; a step holding a
      function reaches the assertion message, which calls `context.toString()`. */
  function BindTo(s: Step, context: Val): (r: Result<Step, Error>)
  {
    var ctx := if context == Undefined then EmptyObject else context;
    if ctx == Null then Err(TypeError)
    else
      var fn := Resolve(s, ctx);
      if fn.Func? then Ok(s.(fn := fn, context := ctx, isBound := true))
      else Err(UnresolvedStep)
  }

  /** Binding a step fresh from the constructor: it succeeds exactly when the
      step holds a function or the context has a function under the step's
      name; the bound step then calls that function, records the context, is
      marked bound, and keeps its name and options. */
  lemma BindFreshStep(fn: Val, opts: Val, context: Val)
    requires NewStep(fn, opts).Ok?
    requires context != Null && context != Undefined
    ensures var s := NewStep(fn, opts).value;
      && (BindTo(s, context).Ok? <==> fn.Func? || Get(context, fn.s).Func?)
      && (BindTo(s, context).Err? ==> BindTo(s, context).error == UnresolvedStep)
      && (BindTo(s, context).Ok? ==>
            var b := BindTo(s, context).value;
            && b.isBound
            && b.context == context
            && b.fn == (if fn.Func? then fn else Get(context, fn.s))
            && b.fnName == s.fnName
            && b.opts == s.opts)
  {
  }

  /** A `null` context can never be bound to, whatever the step: `get`'s
      none-receiver assertion or `context.toString()` raises first. */
  lemma NullContextRaises(s: Step)
    ensures BindTo(s, Null) == Err(TypeError)
  {
  }

  /** A bound step keeps its function when bound again: only the context moves. */
  lemma RebindKeepsFunction(s: Step, c1: Val, c2: Val)
    requires BindTo(s, c1).Ok?
    requires c2 != Null
    ensures BindTo(BindTo(s, c1).value, c2).Ok?
    ensures BindTo(BindTo(s, c1).value, c2).value.fn == BindTo(s, c1).value.fn
  {
  }

  /** `Step#perform(...args)`, which addon/step.js does not define: the minimal
      behaviour its call site implies, calling the bound function with the
      arguments (an unbound named step has no function and yields `undefined`). */
  function Perform(s: Step, args: seq<Val>, host: Host): (r: Val)
    ensures ThenFree(r) || r in args
  {
    if s.fn.Func? then host(s.fn.id, args) else Undefined
  }
}
