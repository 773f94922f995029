/** The thenable classifier of addon/utils/is-promise.js: the pipe chains the
    next step with `.then` exactly when the previous result passes it. */
module Promises {
  import opened Values

  /** `typeOf(v[name]) === 'function'`; an RSVP promise inherits `then`,
      `catch` and `finally` from its prototype. */
  predicate HasMethod(v: Val, name: string) {
    match v
    case Promise(_) => name == "then" || name == "catch" || name == "finally"
    case _ => Get(v, name).Func?
  }

  /** `isPromiseLike(obj = {})`. */
  predicate IsPromiseLike(obj: Val) {
    var o := if obj == Undefined then EmptyObject else obj;
    HasMethod(o, "then") && HasMethod(o, "catch")
  }

  /** `isPromise(obj)`: an object with both continuation methods. */
  predicate IsPromise(v: Val) {
    IsObject(v) && IsPromiseLike(v)
  }

  /** The classifier accepts exactly RSVP promises and plain objects whose own
      `then` and `catch` are both functions; a non-object is never promise-like,
      and an object with only one of the two methods is not either. */
  lemma PromiseClassification(v: Val)
    ensures IsPromise(v) <==> v.Promise? || (v.Obj? && Get(v, "then").Func? && Get(v, "catch").Func?)
    ensures !IsObject(v) ==> !IsPromise(v)
  {
  }

  /** Whatever is not promise-like carries no pending continuation. */
  lemma NotPromiseIsThenFree(v: Val)
    requires !IsPromise(v)
    ensures ThenFree(v) && !v.Promise?
  {
  }
}
