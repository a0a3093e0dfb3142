/**
 * How the two shipped pickers relate. Their `getRandom` differ only in the guard of the push:
 * dist/no-repeat.js pushes whenever no reset is due, norepeat.ts skips the push when exactly one
 * item remains after the splice and nothing was chosen.
 */
module Variants {
  import Js = NoRepeatJs
  import Ts = NoRepeatTs

  /** The fields the TypeScript variant shares with the compiled one. */
  function Shared<T>(p: Js.Picker<T>): Ts.Picker<T>
  {
    Ts.Picker(p.items, p.chosen, p.resetAt)
  }

  /** The one case where the two variants part ways: two items, nothing chosen, no reset due. */
  predicate Divergent<T>(p: Js.Picker<T>)
  {
    |p.items| == 2 && p.chosen == [] && !(p.resetAt.Some? && 0 >= p.resetAt.value)
  }

  /**
   * Both variants return the same element, and they leave the same pool and the same chosen items
   * exactly when the picker is not in the divergent case; in that case the compiled variant keeps
   * the element in `chosen` and the TypeScript variant loses it.
   */
  lemma PickAgreesUnlessDivergent<T>(p: Js.Picker<T>, i: nat)
    requires i < |p.items|
    ensures Ts.Pick(Shared(p), i).element == Js.Pick(p, i).element
    ensures Ts.Pick(Shared(p), i).after == Shared(Js.Pick(p, i).after) <==> !Divergent(p)
    ensures Divergent(p) ==>
      Js.Pick(p, i).after.chosen == [p.items[i]] && Ts.Pick(Shared(p), i).after.chosen == []
  {
  }

  /** Manual reset moves the same items in both variants; only the counters differ. */
  lemma ResetAgrees<T>(p: Js.Picker<T>)
    ensures Ts.Restore(Shared(p)) == Shared(Js.Restore(p, false))
    ensures Js.Restore(p, false).resetCount == p.resetCount + 1
  {
  }
}
