/** JavaScript values as the step runner observes them, and the few host
    operations its decisions rest on: truthiness, property reads, and Ember's
    `isNone` / `isPresent` / `typeOf` checks. */
module Values {

  /** A JavaScript value. Functions are opaque references whose behaviour a
      `Host` supplies; `Step`, `Cancellation` and RSVP promises are objects
      with their own constructors so the runner can recognise them. */
  datatype Val =
    | Undefined
    | Null
    | Bool(b: bool)
    | Num(n: int)
    | Str(s: string)
    | Arr(items: seq<Val>)
    | Func(id: nat)
    | Obj(obj: Object)
    | StepObj(step: Step)
    | Promise(deferred: Deferred)
    | Token(reason: Val)
    | CancellationObj(cancellation: Cancellation)

  /** An object: the text its `toString()` yields, and its own properties.
      Nothing is inherited: `get` reads this map and nothing else. */
  datatype Object = Object(tag: string, props: map<string, Val>)

  /** Which pipe chained a promise, and therefore which `applyFn` runs its continuation. */
  datatype Flavour = Current | Legacy

  /** An RSVP promise: `resolve(value)`, or `source.then(makeFn(next))`. */
  datatype Deferred =
    | Resolved(value: Val)
    | Then(source: Val, next: Val, flavour: Flavour)

  /** An instance of the `Step` class; a property never assigned reads as `Undefined`. */
  datatype Step = Step(fn: Val, fnName: Val, opts: Val, isBound: bool, context: Val)

  /** An instance of the `Cancellation` class: the cancelled marker and the stored
      result, triggering step and reason. */
  datatype Cancellation = Cancellation(cancelled: bool, result: Val, step: Val, reason: Val)

  /** What the core raises: Ember assertion failures, and `TypeError` for a
      read on `null` / `undefined` — either the JavaScript TypeError of
      `context.toString()` or the assertion of Ember's `get` on a none
      receiver, which the model does not tell apart. */
  datatype Error =
    | MissingContext
    | InvalidStepKind
    | UnresolvedStep
    | InvalidHandler
    | NotAStep
    | MissingStep
    | TypeError

  /** The literal `{}`. */
  const EmptyObject: Val := Obj(Object("[object Object]", map[]))

  /** JavaScript truthiness (NaN and -0 are not modelled). */
  predicate Truthy(v: Val) {
    match v
    case Undefined => false
    case Null => false
    case Bool(b) => b
    case Num(n) => n != 0
    case Str(s) => s != ""
    case _ => true
  }

  /** Ember's `isNone`. */
  predicate IsNone(v: Val) {
    v.Undefined? || v.Null?
  }

  /** `isObject`: Ember's `typeOf` says 'object' or 'instance'; arrays and functions are not objects. */
  predicate IsObject(v: Val) {
    v.Obj? || v.StepObj? || v.Promise? || v.Token? || v.CancellationObj?
  }

  predicate IsWhitespace(c: char) {
    c == ' ' || 9 <= c as int <= 13
  }

  /** Ember's `isEmpty` on an object: a numeric `size`, else a numeric `length`, equal to zero. */
  predicate EmptyBySize(o: Object) {
    if "size" in o.props && o.props["size"].Num? then o.props["size"].n == 0
    else "length" in o.props && o.props["length"].Num? && o.props["length"].n == 0
  }

  /** Ember's `isBlank`: none, empty, or a string of whitespace only. */
  predicate IsBlank(v: Val) {
    match v
    case Undefined => true
    case Null => true
    case Str(s) => forall i :: 0 <= i < |s| ==> IsWhitespace(s[i])
    case Arr(items) => |items| == 0
    case Obj(o) => EmptyBySize(o)
    case _ => false
  }

  /** Ember's `isPresent`. */
  predicate IsPresent(v: Val) {
    !IsBlank(v)
  }

  /** Ember's `get(v, key)` for a receiver that is not none, with `key` a single
      property name read from the object itself. */
  function Get(v: Val, key: string): Val {
    match v
    case Obj(o) => if key in o.props then o.props[key] else Undefined
    case StepObj(s) =>
      if key == "fn" then s.fn
      else if key == "fnName" then s.fnName
      else if key == "opts" then s.opts
      else if key == "isBound" then Bool(s.isBound)
      else if key == "context" then s.context
      else Undefined
    case _ => Undefined
  }

  /** `v.toString()` as far as the runner prints it (the destroyed-context reason). */
  function DisplayName(v: Val): string {
    match v
    case Obj(o) => o.tag
    case Str(s) => s
    case _ => "[object Object]"
  }

  /** A promise-like value with no pending `.then` continuation anywhere along
      its resolution chain. */
  predicate ThenFree(v: Val) {
    match v
    case Promise(Resolved(w)) => ThenFree(w)
    case Promise(Then(_, _, _)) => false
    case _ => true
  }

  /** The behaviour of every JavaScript function the runner calls, by reference.
      A call either builds a value with no pending `.then` chain or hands back
      one of its arguments. */
  type Host = h: (nat, seq<Val>) -> Val | forall id: nat, args: seq<Val> :: ThenFree(h(id, args)) || h(id, args) in args
    witness (id: nat, args: seq<Val>) => Undefined
}
