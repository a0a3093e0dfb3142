/**
 * The compiled picker of dist/no-repeat.js: a pool of `items` still available, the `chosen`
 * items drawn since the last reset, an optional threshold `resetAt`, and the counters
 * `resetCount` and `lastResetWasAutomatic`.
 *
 * The random index of `getRandom` is a parameter: every property below holds for every index
 * in range, so it holds whatever the random source picks.
 */
module NoRepeatJs {
  import opened Pool

  /** The observable state of a picker: its five fields. */
  datatype Picker<T> = Picker(
    items: seq<T>,
    chosen: seq<T>,
    resetAt: Option<int>,
    resetCount: nat,
    lastResetWasAutomatic: bool)

  /** What one call of `getRandom` returns, and the state it leaves. */
  datatype Draw<T> = Draw(element: T, after: Picker<T>)

  /** What a sequence of calls of `getRandom` returned, in order, and the state they leave. */
  datatype Trace<T> = Trace(returned: seq<T>, final: Picker<T>)

  /** The state the constructor builds. */
  function Init<T>(items: seq<T>, resetAt: Option<int>, used: Option<seq<T>>): Picker<T>
  {
    Picker(items, if used.Some? then used.value else [], resetAt, 0, true)
  }

  /** The guard of the reset branch of `getRandom`, evaluated after the element was spliced out. */
  predicate ResetDue<T>(remaining: seq<T>, chosen: seq<T>, resetAt: Option<int>)
  {
    |remaining| == 0 || (resetAt.Some? && |chosen| >= resetAt.value)
  }

  /** `privReset(auto)`: the chosen items go back at the end of the pool. */
  function Restore<T>(p: Picker<T>, auto: bool): (r: Picker<T>)
    ensures r.chosen == [] && |r.items| == |p.items| + |p.chosen|
  {
    p.(items := p.items + p.chosen, chosen := [], lastResetWasAutomatic := auto,
       resetCount := p.resetCount + 1)
  }

  /** `getRandom` when the random index is `i`. */
  function Pick<T>(p: Picker<T>, i: nat): (d: Draw<T>)
    requires i < |p.items|
    ensures d.element == p.items[i]
    ensures |p.items| + |p.chosen| - 1 <= |d.after.items| + |d.after.chosen| <= |p.items| + |p.chosen|
    ensures d.after.resetAt == p.resetAt
  {
    var element := p.items[i];
    var remaining := RemoveAt(p.items, i);
    if ResetDue(remaining, p.chosen, p.resetAt) then
      var chosen := if |remaining| == 0 && |p.chosen| == 0 then p.chosen + [element] else p.chosen;
      Draw(element, Restore(p.(items := remaining, chosen := chosen), true))
    else if !(|remaining| == 0 && |p.chosen| == 0) then
      Draw(element, p.(items := remaining, chosen := p.chosen + [element]))
    else
      Draw(element, p.(items := remaining))
  }

  /** The indices can be drawn one after the other: each is in range for the pool it meets. */
  predicate Drawable<T>(p: Picker<T>, indices: seq<nat>)
    decreases |indices|
  {
    indices == [] ||
    (indices[0] < |p.items| && Drawable(Pick(p, indices[0]).after, indices[1..]))
  }

  /** Successive calls of `getRandom` with the given random indices. */
  function Run<T>(p: Picker<T>, indices: seq<nat>): (t: Trace<T>)
    requires Drawable(p, indices)
    ensures |t.returned| == |indices|
    decreases |indices|
  {
    if indices == [] then Trace([], p)
    else
      var d := Pick(p, indices[0]);
      var rest := Run(d.after, indices[1..]);
      Trace([d.element] + rest.returned, rest.final)
  }

  /** A draw without reset moves the element from the pool to `chosen` and keeps the counters. */
  lemma PickKeeps<T>(p: Picker<T>, i: nat)
    requires i < |p.items|
    requires |p.items| > 1 && !(p.resetAt.Some? && |p.chosen| >= p.resetAt.value)
    ensures Pick(p, i).element == p.items[i]
    ensures Pick(p, i).after.items == RemoveAt(p.items, i)
    ensures Pick(p, i).after.chosen == p.chosen + [p.items[i]]
    ensures |Pick(p, i).after.items| + |Pick(p, i).after.chosen| == |p.items| + |p.chosen|
    ensures multiset(Pick(p, i).after.items) + multiset{p.items[i]} == multiset(p.items)
    ensures multiset(Pick(p, i).after.items + Pick(p, i).after.chosen) == multiset(p.items + p.chosen)
    ensures Pick(p, i).after.resetAt == p.resetAt
    ensures Pick(p, i).after.resetCount == p.resetCount
    ensures Pick(p, i).after.lastResetWasAutomatic == p.lastResetWasAutomatic
  {
    RemoveAtMultiset(p.items, i);
  }

  /**
   * An automatic reset outside the one-item case: the rest of the pool and the chosen items form
   * the new pool, and the returned element is in neither, so the pool shrinks by exactly one.
   */
  lemma PickResets<T>(p: Picker<T>, i: nat)
    requires i < |p.items|
    requires |p.items| == 1 || (p.resetAt.Some? && |p.chosen| >= p.resetAt.value)
    requires !(|p.items| == 1 && |p.chosen| == 0)
    ensures Pick(p, i).element == p.items[i]
    ensures Pick(p, i).after.items == RemoveAt(p.items, i) + p.chosen
    ensures Pick(p, i).after.chosen == []
    ensures |Pick(p, i).after.items| + |Pick(p, i).after.chosen| == |p.items| + |p.chosen| - 1
    ensures multiset(Pick(p, i).after.items) + multiset{p.items[i]}
         == multiset(p.items) + multiset(p.chosen)
    ensures Pick(p, i).after.resetAt == p.resetAt
    ensures Pick(p, i).after.resetCount == p.resetCount + 1
    ensures Pick(p, i).after.lastResetWasAutomatic
  {
    RemoveAtMultiset(p.items, i);
  }

  /** A one-item pool with nothing chosen returns its item and is left as it was, one reset on. */
  lemma PickSingleItem<T>(p: Picker<T>, i: nat)
    requires |p.items| == 1 && p.chosen == [] && i < 1
    ensures Pick(p, i).element == p.items[0]
    ensures Pick(p, i).after == p.(resetCount := p.resetCount + 1, lastResetWasAutomatic := true)
  {
  }

  /**
   * No immediate repeat: when the element drawn occurs once in the pool and is not among the chosen
   * items, it is not in the pool the next draw chooses from, whichever branch was taken.
   */
  lemma NoImmediateRepeat<T>(p: Picker<T>, i: nat)
    requires i < |p.items|
    requires !(|p.items| == 1 && |p.chosen| == 0)
    requires multiset(p.items)[p.items[i]] == 1 && p.items[i] !in p.chosen
    ensures Pick(p, i).element !in Pick(p, i).after.items
  {
    var e := p.items[i];
    RemoveAtMultiset(p.items, i);
    assert multiset(RemoveAt(p.items, i))[e] == 0;
    if ResetDue(RemoveAt(p.items, i), p.chosen, p.resetAt) {
      assert multiset(Pick(p, i).after.items) == multiset(RemoveAt(p.items, i)) + multiset(p.chosen);
    }
  }

  /** Both `getRandom` and `reset` keep a non-empty pool non-empty. */
  lemma PoolStaysNonEmpty<T>(p: Picker<T>, i: nat, auto: bool)
    requires i < |p.items|
    ensures |Pick(p, i).after.items| > 0
    ensures |Restore(p, auto).items| > 0
  {
  }

  /**
   * `reset()` puts every chosen item back, keeps the multiset of all items, records a manual reset
   * and counts it, also when nothing was chosen.
   */
  lemma ResetRestores<T>(p: Picker<T>)
    ensures Restore(p, false).items == p.items + p.chosen
    ensures Restore(p, false).chosen == []
    ensures multiset(Restore(p, false).items) == multiset(p.items) + multiset(p.chosen)
    ensures !Restore(p, false).lastResetWasAutomatic
    ensures Restore(p, false).resetCount == p.resetCount + 1
    ensures Restore(p, false).resetAt == p.resetAt
  {
  }

  /**
   * `q` is `p` after draws that returned `returned` without any reset: the returned elements were
   * appended to `chosen` and taken out of the pool, one occurrence each, and the threshold and
   * counters are unchanged.
   */
  ghost predicate KeptBetween<T>(p: Picker<T>, returned: seq<T>, q: Picker<T>)
  {
    q.chosen == p.chosen + returned &&
    multiset(q.items) + multiset(returned) == multiset(p.items) &&
    |q.items| == |p.items| - |returned| &&
    q.resetAt == p.resetAt && q.resetCount == p.resetCount &&
    q.lastResetWasAutomatic == p.lastResetWasAutomatic
  }

  /** A draw without reset followed by more draws without reset is a run without reset. */
  lemma KeptCompose<T>(p: Picker<T>, e: T, q: Picker<T>, returned: seq<T>, r: Picker<T>)
    requires KeptBetween(p, [e], q) && KeptBetween(q, returned, r)
    ensures KeptBetween(p, [e] + returned, r)
  {
  }

  /**
   * Between resets every draw returns a different occurrence of the pool: while no reset is due,
   * the returned elements are appended to `chosen` and taken out of the pool, one occurrence each,
   * so no element is returned more often than it occurs in the pool.
   */
  lemma {:induction false} RunBetweenResets<T>(p: Picker<T>, indices: seq<nat>)
    requires Drawable(p, indices)
    requires |indices| < |p.items|
    requires p.resetAt.Some? ==> |p.chosen| + |indices| <= p.resetAt.value
    ensures KeptBetween(p, Run(p, indices).returned, Run(p, indices).final)
    ensures multiset(Run(p, indices).returned) <= multiset(p.items)
    decreases |indices|
  {
    var t := Run(p, indices);
    if indices == [] {
      assert t == Trace([], p);
    } else {
      RunCons(p, indices);
      var d := Pick(p, indices[0]);
      PickKeeps(p, indices[0]);
      assert KeptBetween(p, [d.element], d.after);
      RunBetweenResets(d.after, indices[1..]);
      var rest := Run(d.after, indices[1..]);
      KeptCompose(p, d.element, d.after, rest.returned, rest.final);
    }
    assert multiset(t.returned) <= multiset(t.final.items) + multiset(t.returned);
  }

  /** One step of `Run`: the first draw, then the run of the remaining indices. */
  lemma RunCons<T>(p: Picker<T>, indices: seq<nat>)
    requires indices != [] && Drawable(p, indices)
    ensures Drawable(Pick(p, indices[0]).after, indices[1..])
    ensures Run(p, indices).returned
         == [Pick(p, indices[0]).element] + Run(Pick(p, indices[0]).after, indices[1..]).returned
    ensures Run(p, indices).final == Run(Pick(p, indices[0]).after, indices[1..]).final
  {
  }

  /**
   * Each item is picked once before the pool resets: from a pool of `n >= 2` items with nothing
   * chosen and no earlier threshold, `n - 1` draws and the one after them return exactly the
   * pool's items, that last draw resets automatically, and the new pool is the first `n - 1`
   * elements returned (the last one is dropped).
   */
  lemma FullCycle<T>(p: Picker<T>, first: seq<nat>, last: nat)
    requires p.chosen == [] && |p.items| >= 2
    requires p.resetAt.Some? ==> |p.items| - 1 <= p.resetAt.value
    requires |first| == |p.items| - 1 && Drawable(p, first)
    requires last < |Run(p, first).final.items|
    ensures multiset(Run(p, first).returned + [Pick(Run(p, first).final, last).element])
         == multiset(p.items)
    ensures Pick(Run(p, first).final, last).after.items == Run(p, first).returned
    ensures Pick(Run(p, first).final, last).after.chosen == []
    ensures Pick(Run(p, first).final, last).after.resetCount == p.resetCount + 1
    ensures Pick(Run(p, first).final, last).after.lastResetWasAutomatic
  {
    var t := Run(p, first);
    RunBetweenResets(p, first);
    assert |t.final.items| == 1 && |t.final.chosen| >= 1;
    PickResets(t.final, last);
    assert last == 0 && RemoveAt(t.final.items, last) == [];
    assert t.final.items == [Pick(t.final, last).element];
  }

  /**
   * The threshold is compared before the push: with `resetAt = k` and nothing chosen, the first
   * `k` draws do not reset and leave exactly the returned elements in `chosen`, and draw `k + 1`
   * resets automatically.
   */
  lemma ThresholdFiresOnDrawAfterK<T>(p: Picker<T>, first: seq<nat>, last: nat, k: nat)
    requires p.chosen == [] && p.resetAt == Some(k) && k < |p.items|
    requires |first| == k && Drawable(p, first)
    requires last < |Run(p, first).final.items|
    ensures Run(p, first).final.resetCount == p.resetCount
    ensures Run(p, first).final.chosen == Run(p, first).returned
    ensures Pick(Run(p, first).final, last).after.resetCount == p.resetCount + 1
    ensures Pick(Run(p, first).final, last).after.lastResetWasAutomatic
    ensures Pick(Run(p, first).final, last).after.chosen == []
  {
    var t := Run(p, first);
    RunBetweenResets(p, first);
    if |t.final.items| == 1 && t.final.chosen == [] {
      PickSingleItem(t.final, last);
    } else {
      PickResets(t.final, last);
    }
  }

  /** A one-item pool returns its item forever, and every call counts an automatic reset. */
  lemma {:induction false} SingleItemForever<T>(p: Picker<T>, indices: seq<nat>)
    requires |p.items| == 1 && p.chosen == []
    requires Drawable(p, indices)
    ensures forall k :: 0 <= k < |indices| ==> Run(p, indices).returned[k] == p.items[0]
    ensures Run(p, indices).final.items == p.items
    ensures Run(p, indices).final.chosen == []
    ensures Run(p, indices).final.resetCount == p.resetCount + |indices|
    decreases |indices|
  {
    if indices != [] {
      PickSingleItem(p, indices[0]);
      SingleItemForever(Pick(p, indices[0]).after, indices[1..]);
    }
  }

  /**
   * Two distinct items, no threshold: the two draws (the second can only draw index 0) return
   * both items, the second one resets automatically, and the pool is left holding only the first
   * item drawn.
   */
  lemma TwoItemCycle<T>(p: Picker<T>, i: nat)
    requires |p.items| == 2 && p.items[0] != p.items[1] && p.chosen == [] && p.resetAt == None
    requires i < 2
    ensures |Pick(p, i).after.items| == 1
    ensures Pick(p, i).element != Pick(Pick(p, i).after, 0).element
    ensures multiset{Pick(p, i).element, Pick(Pick(p, i).after, 0).element} == multiset(p.items)
    ensures Pick(Pick(p, i).after, 0).after.items == [Pick(p, i).element]
    ensures Pick(Pick(p, i).after, 0).after.chosen == []
    ensures Pick(Pick(p, i).after, 0).after.resetCount == p.resetCount + 1
    ensures Pick(Pick(p, i).after, 0).after.lastResetWasAutomatic
  {
    var d := Pick(p, i);
    PickKeeps(p, i);
    PickResets(d.after, 0);
    var e := Pick(d.after, 0);
    assert d.after.items == [e.element];
    assert p.items == [p.items[0], p.items[1]];
  }

  /** The picker object; its methods change the fields as the source's methods do. */
  class NoRepeat<T> {
    var items: seq<T>
    var chosen: seq<T>
    var resetAt: Option<int>
    var resetCount: nat
    var lastResetWasAutomatic: bool

    /** The fields, as a value. */
    function State(): Picker<T>
      reads this
    {
      Picker(items, chosen, resetAt, resetCount, lastResetWasAutomatic)
    }

    constructor (items: seq<T>, resetAt: Option<int>, used: Option<seq<T>>)
      ensures this.items == items
      ensures chosen == (if used.Some? then used.value else [])
      ensures this.resetAt == resetAt
      ensures resetCount == 0 && lastResetWasAutomatic
      ensures State() == Init(items, resetAt, used)
    {
      this.items := items;
      this.chosen := if used.Some? then used.value else [];
      this.resetAt := resetAt;
      this.resetCount := 0;
      this.lastResetWasAutomatic := true;
    }

    /** `getRandom`, where `index` is the index the random source produced. */
    method GetRandom(index: nat) returns (element: T)
      requires index < |items|
      modifies this
      ensures element == old(items[index])
      ensures Draw(element, State()) == Pick(old(State()), index)
    {
      element := items[index];
      items := RemoveAt(items, index);
      if |items| == 0 || (resetAt.Some? && |chosen| >= resetAt.value) {
        if |items| == 0 && |chosen| == 0 {
          chosen := chosen + [element];
        }
        PrivReset(true);
      } else if !(|items| == 0 && |chosen| == 0) {
        chosen := chosen + [element];
      }
    }

    /** `reset`: a manual reset. */
    method Reset()
      modifies this
      ensures items == old(items) + old(chosen) && chosen == []
      ensures !lastResetWasAutomatic && resetCount == old(resetCount) + 1
      ensures State() == Restore(old(State()), false)
    {
      PrivReset(false);
    }

    /** `privReset(auto)`. */
    method PrivReset(auto: bool)
      modifies this
      ensures State() == Restore(old(State()), auto)
    {
      items := items + chosen;
      chosen := [];
      lastResetWasAutomatic := auto;
      resetCount := resetCount + 1;
    }
  }
}
