/** The context-liveness predicate of addon/utils/is-destroyed.js: the reduce
    loop stops as soon as a step's context reports destruction. */
module Liveness {
  import opened Values

  /** `!!context && (context.isDestroyed || context.isDestroying || isNone(context))`. */
  predicate IsDestroyed(context: Val) {
    Truthy(context)
    && (Truthy(Get(context, "isDestroyed")) || Truthy(Get(context, "isDestroying")) || IsNone(context))
  }

  /** The predicate answers exactly "truthy and flagged": the `isNone` disjunct,
      guarded by `!!context`, never contributes, and a falsy context is never destroyed. */
  lemma DestroyedMeansFlagged(context: Val)
    ensures IsDestroyed(context)
        <==> Truthy(context) && (Truthy(Get(context, "isDestroyed")) || Truthy(Get(context, "isDestroying")))
    ensures !Truthy(context) ==> !IsDestroyed(context)
  {
  }

  /** A plain object, a live Ember object or a proxy carries neither flag, or
      carries both as false, and is reported alive. */
  lemma LiveObjectsAreNotDestroyed(o: Object)
    requires "isDestroyed" !in o.props || o.props["isDestroyed"] == Bool(false)
    requires "isDestroying" !in o.props || o.props["isDestroying"] == Bool(false)
    ensures !IsDestroyed(Obj(o))
  {
  }

  /** Either flag alone marks an object destroyed. */
  lemma EitherFlagDestroys(o: Object)
    requires ("isDestroyed" in o.props && Truthy(o.props["isDestroyed"]))
          || ("isDestroying" in o.props && Truthy(o.props["isDestroying"]))
    ensures IsDestroyed(Obj(o))
  {
  }
}
