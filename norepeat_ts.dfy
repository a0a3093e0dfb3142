/**
 * The TypeScript picker of norepeat.ts: the same `items`, `chosen` and `resetAt` as the compiled
 * variant, without its counters, and with a different guard on pushing the drawn element: it is
 * not pushed when exactly one item remains and nothing was chosen.
 *
 * The random index of `getRandom` is a parameter: every property below holds for every index
 * in range.
 */
module NoRepeatTs {
  import opened Pool

  /** The observable state of a picker: its three fields. */
  datatype Picker<T> = Picker(items: seq<T>, chosen: seq<T>, resetAt: Option<int>)

  /** What one call of `getRandom` returns, and the state it leaves. */
  datatype Draw<T> = Draw(element: T, after: Picker<T>)

  /** What a sequence of calls of `getRandom` returned, in order, and the state they leave. */
  datatype Trace<T> = Trace(returned: seq<T>, final: Picker<T>)

  /** The state the constructor builds. */
  function Init<T>(items: seq<T>, resetAt: Option<int>, used: Option<seq<T>>): Picker<T>
  {
    Picker(items, if used.Some? then used.value else [], resetAt)
  }

  /** The guard of the reset branch of `getRandom`, evaluated after the element was spliced out. */
  predicate ResetDue<T>(remaining: seq<T>, chosen: seq<T>, resetAt: Option<int>)
  {
    |remaining| == 0 || (resetAt.Some? && |chosen| >= resetAt.value)
  }

  /** `reset()`: the chosen items go back at the end of the pool. */
  function Restore<T>(p: Picker<T>): (r: Picker<T>)
    ensures r.chosen == [] && |r.items| == |p.items| + |p.chosen|
  {
    p.(items := p.items + p.chosen, chosen := [])
  }

  /** `getRandom` when the random index is `i`. */
  function Pick<T>(p: Picker<T>, i: nat): (d: Draw<T>)
    requires i < |p.items|
    ensures d.element == p.items[i]
    ensures |p.items| + |p.chosen| - 1 <= |d.after.items| + |d.after.chosen| <= |p.items| + |p.chosen|
    ensures d.after.resetAt == p.resetAt
  {
    var element := p.items[i];
    var remaining := RemoveAt(p.items, i);
    if ResetDue(remaining, p.chosen, p.resetAt) then
      var chosen := if |remaining| == 0 && |p.chosen| == 0 then p.chosen + [element] else p.chosen;
      Draw(element, Restore(p.(items := remaining, chosen := chosen)))
    else if !(|remaining| == 1 && |p.chosen| == 0) then
      Draw(element, p.(items := remaining, chosen := p.chosen + [element]))
    else
      Draw(element, p.(items := remaining))
  }

  /** The indices can be drawn one after the other: each is in range for the pool it meets. */
  predicate Drawable<T>(p: Picker<T>, indices: seq<nat>)
    decreases |indices|
  {
    indices == [] ||
    (indices[0] < |p.items| && Drawable(Pick(p, indices[0]).after, indices[1..]))
  }

  /** Successive calls of `getRandom` with the given random indices. */
  function Run<T>(p: Picker<T>, indices: seq<nat>): (t: Trace<T>)
    requires Drawable(p, indices)
    ensures |t.returned| == |indices|
    decreases |indices|
  {
    if indices == [] then Trace([], p)
    else
      var d := Pick(p, indices[0]);
      var rest := Run(d.after, indices[1..]);
      Trace([d.element] + rest.returned, rest.final)
  }

  /** Outside the reset branch and the divergent case, the element moves from the pool to `chosen`. */
  lemma PickKeeps<T>(p: Picker<T>, i: nat)
    requires i < |p.items|
    requires |p.items| > 1 && !(p.resetAt.Some? && |p.chosen| >= p.resetAt.value)
    requires !(|p.items| == 2 && |p.chosen| == 0)
    ensures Pick(p, i).element == p.items[i]
    ensures Pick(p, i).after.items == RemoveAt(p.items, i)
    ensures Pick(p, i).after.chosen == p.chosen + [p.items[i]]
    ensures |Pick(p, i).after.items| + |Pick(p, i).after.chosen| == |p.items| + |p.chosen|
    ensures multiset(Pick(p, i).after.items + Pick(p, i).after.chosen) == multiset(p.items + p.chosen)
    ensures Pick(p, i).after.resetAt == p.resetAt
  {
    RemoveAtMultiset(p.items, i);
  }

  /**
   * The divergent case: two items, nothing chosen, no reset due. The element is taken out of the
   * pool but not pushed to `chosen`, so it is lost and the pool shrinks by one.
   */
  lemma PickDrops<T>(p: Picker<T>, i: nat)
    requires i < |p.items|
    requires |p.items| == 2 && p.chosen == []
    requires !(p.resetAt.Some? && 0 >= p.resetAt.value)
    ensures Pick(p, i).element == p.items[i]
    ensures Pick(p, i).after.items == RemoveAt(p.items, i)
    ensures Pick(p, i).after.chosen == []
    ensures |Pick(p, i).after.items| + |Pick(p, i).after.chosen| == |p.items| + |p.chosen| - 1
    ensures multiset(Pick(p, i).after.items) + multiset{p.items[i]} == multiset(p.items)
    ensures Pick(p, i).after.resetAt == p.resetAt
  {
    RemoveAtMultiset(p.items, i);
  }

  /**
   * The reset branch outside the one-item case: the rest of the pool and the chosen items form
   * the new pool, and the returned element is dropped, so the pool shrinks by exactly one.
   */
  lemma PickResets<T>(p: Picker<T>, i: nat)
    requires i < |p.items|
    requires |p.items| == 1 || (p.resetAt.Some? && |p.chosen| >= p.resetAt.value)
    requires !(|p.items| == 1 && |p.chosen| == 0)
    ensures Pick(p, i).element == p.items[i]
    ensures Pick(p, i).after.items == RemoveAt(p.items, i) + p.chosen
    ensures Pick(p, i).after.chosen == []
    ensures |Pick(p, i).after.items| + |Pick(p, i).after.chosen| == |p.items| + |p.chosen| - 1
    ensures multiset(Pick(p, i).after.items) + multiset{p.items[i]}
         == multiset(p.items) + multiset(p.chosen)
    ensures Pick(p, i).after.resetAt == p.resetAt
  {
    RemoveAtMultiset(p.items, i);
  }

  /** A one-item pool with nothing chosen returns its item and is left exactly as it was. */
  lemma PickSingleItem<T>(p: Picker<T>, i: nat)
    requires |p.items| == 1 && p.chosen == [] && i < 1
    ensures Pick(p, i).element == p.items[0]
    ensures Pick(p, i).after == p
  {
  }

  /** Both `getRandom` and `reset` keep a non-empty pool non-empty. */
  lemma PoolStaysNonEmpty<T>(p: Picker<T>, i: nat)
    requires i < |p.items|
    ensures |Pick(p, i).after.items| > 0
    ensures |Restore(p).items| > 0
  {
  }

  /** `reset()` puts every chosen item back and keeps the multiset of all items. */
  lemma ResetRestores<T>(p: Picker<T>)
    ensures Restore(p).items == p.items + p.chosen
    ensures Restore(p).chosen == []
    ensures multiset(Restore(p).items) == multiset(p.items) + multiset(p.chosen)
    ensures Restore(p).resetAt == p.resetAt
  {
  }

  /** A second `reset()` changes nothing. */
  lemma ResetIdempotent<T>(p: Picker<T>)
    ensures Restore(Restore(p)) == Restore(p)
  {
  }

  /** A one-item pool returns its item forever and never changes. */
  lemma {:induction false} SingleItemForever<T>(p: Picker<T>, indices: seq<nat>)
    requires |p.items| == 1 && p.chosen == []
    requires Drawable(p, indices)
    ensures forall k :: 0 <= k < |indices| ==> Run(p, indices).returned[k] == p.items[0]
    ensures Run(p, indices).final == p
    decreases |indices|
  {
    if indices == [] {
      assert Run(p, indices) == Trace([], p);
    } else {
      PickSingleItem(p, indices[0]);
      SingleItemForever(p, indices[1..]);
    }
  }

  /** One step of `Run`: the first draw, then the run of the remaining indices. */
  lemma RunCons<T>(p: Picker<T>, indices: seq<nat>)
    requires indices != [] && Drawable(p, indices)
    ensures Drawable(Pick(p, indices[0]).after, indices[1..])
    ensures Run(p, indices).returned
         == [Pick(p, indices[0]).element] + Run(Pick(p, indices[0]).after, indices[1..]).returned
    ensures Run(p, indices).final == Run(Pick(p, indices[0]).after, indices[1..]).final
  {
  }

  /**
   * A pool of two distinct items with nothing chosen and no reset due collapses: the first draw
   * loses its element, and every later draw returns the one item left, the other one.
   */
  lemma TwoItemPoolCollapses<T>(p: Picker<T>, indices: seq<nat>)
    requires |p.items| == 2 && p.items[0] != p.items[1] && p.chosen == []
    requires !(p.resetAt.Some? && 0 >= p.resetAt.value)
    requires |indices| >= 1 && Drawable(p, indices)
    ensures |Run(p, indices).final.items| == 1
    ensures multiset{Run(p, indices).returned[0], Run(p, indices).final.items[0]} == multiset(p.items)
    ensures Run(p, indices).final.chosen == []
    ensures forall k :: 1 <= k < |indices| ==> Run(p, indices).returned[k] == Run(p, indices).final.items[0]
    ensures forall k :: 1 <= k < |indices| ==> Run(p, indices).returned[k] != Run(p, indices).returned[0]
  {
    RunCons(p, indices);
    var d := Pick(p, indices[0]);
    PickDrops(p, indices[0]);
    SingleItemForever(d.after, indices[1..]);
    var rest := Run(d.after, indices[1..]);
    assert p.items == [p.items[0], p.items[1]];
    assert multiset(p.items) == multiset{d.element, d.after.items[0]};
  }

  /** The picker object; its methods change the fields as the source's methods do. */
  class NoRepeat<T> {
    var items: seq<T>
    var chosen: seq<T>
    var resetAt: Option<int>

    /** The fields, as a value. */
    function State(): Picker<T>
      reads this
    {
      Picker(items, chosen, resetAt)
    }

    constructor (items: seq<T>, resetAt: Option<int>, used: Option<seq<T>>)
      ensures this.items == items
      ensures chosen == (if used.Some? then used.value else [])
      ensures this.resetAt == resetAt
      ensures State() == Init(items, resetAt, used)
    {
      this.items := items;
      this.chosen := if used.Some? then used.value else [];
      this.resetAt := resetAt;
    }

    /** `getRandom`, where `index` is the index the random source produced. */
    method GetRandom(index: nat) returns (element: T)
      requires index < |items|
      modifies this
      ensures element == old(items[index])
      ensures Draw(element, State()) == Pick(old(State()), index)
    {
      element := items[index];
      items := RemoveAt(items, index);
      if |items| == 0 || (resetAt.Some? && |chosen| >= resetAt.value) {
        if |items| == 0 && |chosen| == 0 {
          chosen := chosen + [element];
        }
        Reset();
      } else if !(|items| == 1 && |chosen| == 0) {
        chosen := chosen + [element];
      }
    }

    /** `reset()`. */
    method Reset()
      modifies this
      ensures items == old(items) + old(chosen) && chosen == [] && resetAt == old(resetAt)
      ensures State() == Restore(old(State()))
    {
      items := items + chosen;
      chosen := [];
    }
  }
}
