# NoRepeat in Dafny

A model of `NoRepeat`, a small utility that hands out random items of an array without
repeating one until the pool has been cycled through. The repository ships it twice:

- `dist/no-repeat.js`, the compiled class: fields `items` (the pool still available), `chosen`
  (the items drawn since the last reset), the optional threshold `resetAt`, and the counters
  `resetCount` and `lastResetWasAutomatic`; methods `getRandom`, `reset` and `privReset`.
  It is modelled in `no_repeat_js.dfy`, module `NoRepeatJs`.
- `norepeat.ts`, the TypeScript class: the same `items`, `chosen` and `resetAt` without the
  counters, whose `getRandom` guards the push of the drawn element differently. It is modelled in
  `norepeat_ts.dfy`, module `NoRepeatTs`.

`pool.dfy` (module `Pool`) holds `RemoveAt`, the sequence `splice(i, 1)` leaves behind, and
`variants.dfy` (module `Variants`) relates the two `getRandom`s.

Each variant is modelled twice over. A class `NoRepeat` has the source's fields as `seq` fields
and its methods assign them step by step as the source does (`splice`, `push`, `concat`, the
counters). A datatype `Picker` holds the same fields as a value, and the functions `Pick`
(`getRandom` with random index `i`) and `Restore` (`privReset` / `reset`) say what one call does.
Every method's postcondition ties its new state to `Pick` or `Restore` of the old state, and the
lemmas prove what those functions do: one lemma per branch, and lemmas over `Run`, a sequence of
draws with any in-range random indices.

The random index is a parameter `index < |items|` of `GetRandom`. Every property holds for every
index, so it holds whatever `Math.random` produces.

What the code does, and the model with it:

- The pool is not conserved. On an automatic reset the drawn element is neither pushed to
  `chosen` nor put back, so `|items| + |chosen|` drops by one (`PickResets`). The one exception
  is a one-item pool, which returns its item forever (`SingleItemForever`). A full cycle still
  returns every item of the pool once (`FullCycle`), but the last one is not in the new pool. Two distinct items
  therefore end, after two draws, with a pool of one (`TwoItemCycle`), not of two.
- The threshold is compared before the push (`chosen.length >= resetAt`). With `resetAt = k` and
  nothing chosen, the first automatic reset comes on draw `k + 1`, not on draw `k`
  (`ThresholdFiresOnDrawAfterK`).
- The doc comment at `dist/no-repeat.d.ts:28` says a manual reset sets `lastResetWasAutomatic` to
  true. The code does the opposite: `reset` calls `privReset(false)` and the automatic reset calls
  `privReset(true)`. The model follows the code (`ResetRestores`, `PickResets`).
- In `norepeat.ts` the push is skipped when one item remains after the splice and nothing was
  chosen. A pool of two items with nothing chosen loses its first drawn item, and every later
  draw returns the other one (`PickDrops`, `TwoItemPoolCollapses`). The compiled variant's guard
  at the same place always holds, so it always pushes (`PickAgreesUnlessDivergent`).

## Model

| member | source | states |
|---|---|---|
| `Pool.RemoveAt` | dist/no-repeat.js:50 | `splice(i, 1)` leaves a sequence one shorter whose elements before `i` are unchanged and whose later elements are shifted down by one |
| `Pool.RemoveAtUndo` | dist/no-repeat.js:50 | inserting the removed element back at index `i` gives the original array |
| `Pool.RemoveAtMultiset` | dist/no-repeat.js:50 | the splice removes exactly one occurrence of the removed element |
| `NoRepeatJs.Run` | dist/no-repeat.js:47-62 | successive `getRandom` calls return one element per random index |
| `NoRepeatJs.Pick` | dist/no-repeat.js:47-62 | one `getRandom` returns `items[i]`, leaves `resetAt` alone, and keeps the total length of `items` and `chosen` or lowers it by one |
| `NoRepeatJs.Restore` | dist/no-repeat.js:69-75 | `privReset` empties `chosen` and leaves a pool as long as the old pool and `chosen` together |
| `NoRepeatJs.PickKeeps` | dist/no-repeat.js:49-60 | with more than one item and no threshold due, `getRandom` returns `items[i]`, removes that occurrence from `items`, appends it to `chosen`, keeps `|items| + |chosen|`, the multiset of both, `resetAt` and both counters |
| `NoRepeatJs.PickResets` | dist/no-repeat.js:49-57 | when the splice empties `items` or `chosen.length >= resetAt`, outside the one-item case: new `items` is the rest of the pool followed by the old `chosen`, `chosen` is empty, the returned element is dropped so the total shrinks by exactly one (in multisets: new pool plus the element is old pool plus old chosen), `resetCount` goes up by one and `lastResetWasAutomatic` is true |
| `NoRepeatJs.PickSingleItem` | dist/no-repeat.js:51-56 | a one-item pool with nothing chosen returns its item and is left as it was, with `resetCount` one higher and `lastResetWasAutomatic` true |
| `NoRepeatJs.NoImmediateRepeat` | dist/no-repeat.js:49-60 | outside the one-item case, an element that occurs once in the pool and not in `chosen` is not in the pool the next draw picks from |
| `NoRepeatJs.PoolStaysNonEmpty` | dist/no-repeat.js:51-73 | a non-empty pool stays non-empty after `getRandom` and after a reset |
| `NoRepeatJs.ResetRestores` | dist/no-repeat.js:66-73 | `reset()` makes `items` the old `items` followed by `chosen`, empties `chosen`, keeps the multiset of all items, sets `lastResetWasAutomatic` to false and increments `resetCount`, also when `chosen` was empty |
| `NoRepeatJs.RunCons` | dist/no-repeat.js:47-62 | a run of calls is the first `getRandom` followed by the run of the remaining indices from the state it leaves |
| `NoRepeatJs.KeptCompose` | dist/no-repeat.js:58-60 | a draw that pushes its element followed by more such draws is again a run without reset: `chosen` grows by all returned elements, the pool loses one occurrence of each, threshold and counters unchanged |
| `NoRepeatJs.RunBetweenResets` | dist/no-repeat.js:49-60 | while no reset is due, `chosen` grows by exactly the returned elements, the pool loses exactly them, no element is returned more often than it occurs in the pool, and the counters do not change |
| `NoRepeatJs.FullCycle` | dist/no-repeat.js:49-60 | each item is picked once before resetting: from `n >= 2` items with nothing chosen and no earlier threshold, `n - 1` draws and the next one return exactly the multiset of the pool, that draw resets automatically (`resetCount` one higher), and the new pool is the first `n - 1` elements returned, the last one being dropped |
| `NoRepeatJs.ThresholdFiresOnDrawAfterK` | dist/no-repeat.js:51 | with `resetAt = k`, nothing chosen and more than `k` items, the first `k` draws do not reset and the next one does, automatically, emptying `chosen` |
| `NoRepeatJs.SingleItemForever` | dist/no-repeat.js:53-56 | a one-item pool returns its item on every call, keeps `items == [x]` and `chosen == []`, and counts one reset per call |
| `NoRepeatJs.TwoItemCycle` | dist/no-repeat.js:49-60 | from two distinct items, nothing chosen and no threshold, the two draws (the second can only draw index 0) return both items, the second resets automatically (`resetCount` one higher, flag true, `chosen` empty), and the pool is left with only the first element drawn (the two-item instance of `FullCycle`) |
| `NoRepeatJs.NoRepeat.constructor` | dist/no-repeat.js:29-42 | `items` is the given array, `chosen` is `used` or empty, `resetAt` is stored, `resetCount` is 0 and `lastResetWasAutomatic` is true |
| `NoRepeatJs.NoRepeat.GetRandom` | dist/no-repeat.js:47-62 | returns `items[index]` and leaves the fields as `Pick` of the old fields says |
| `NoRepeatJs.NoRepeat.Reset` | dist/no-repeat.js:66-68 | appends `chosen` to `items`, empties `chosen`, records a manual reset and counts it |
| `NoRepeatJs.NoRepeat.PrivReset` | dist/no-repeat.js:69-75 | leaves the fields as `Restore` of the old fields with the given flag |
| `NoRepeatTs.Run` | norepeat.ts:50-63 | successive `getRandom` calls return one element per random index |
| `NoRepeatTs.Pick` | norepeat.ts:50-63 | one `getRandom` returns `items[i]`, leaves `resetAt` alone, and keeps the total length of `items` and `chosen` or lowers it by one |
| `NoRepeatTs.Restore` | norepeat.ts:67-71 | `reset()` empties `chosen` and leaves a pool as long as the old pool and `chosen` together |
| `NoRepeatTs.PickKeeps` | norepeat.ts:59-61 | outside the reset branch and the divergent case, the element moves from the pool to the end of `chosen`, keeping the total and the multiset of both |
| `NoRepeatTs.PickDrops` | norepeat.ts:59 | with two items, nothing chosen and no reset due, the element leaves the pool without being pushed, so the total shrinks by one |
| `NoRepeatTs.PickResets` | norepeat.ts:53-58 | in the reset branch outside the one-item case, new `items` is the rest of the pool followed by the old `chosen`, `chosen` is empty and the returned element is dropped |
| `NoRepeatTs.PickSingleItem` | norepeat.ts:55-58 | a one-item pool with nothing chosen returns its item and is left exactly as it was |
| `NoRepeatTs.PoolStaysNonEmpty` | norepeat.ts:53-70 | a non-empty pool stays non-empty after `getRandom` and after `reset()` |
| `NoRepeatTs.ResetRestores` | norepeat.ts:67-70 | `reset()` makes `items` the old `items` followed by `chosen`, empties `chosen` and keeps the multiset of all items |
| `NoRepeatTs.ResetIdempotent` | norepeat.ts:67-70 | a second `reset()` changes nothing |
| `NoRepeatTs.SingleItemForever` | norepeat.ts:55-58 | a one-item pool returns its item on every call and never changes |
| `NoRepeatTs.RunCons` | norepeat.ts:50-63 | a run of calls is the first `getRandom` followed by the run of the remaining indices from the state it leaves |
| `NoRepeatTs.TwoItemPoolCollapses` | norepeat.ts:51-61 | from two distinct items with nothing chosen and no reset due, the first draw leaves one item and nothing chosen, the first element and the one left are the two items, and every later draw returns the one item left, never the first element |
| `NoRepeatTs.NoRepeat.constructor` | norepeat.ts:36-44 | `items` is the given array, `chosen` is `used` or empty, `resetAt` is stored |
| `NoRepeatTs.NoRepeat.GetRandom` | norepeat.ts:50-63 | returns `items[index]` and leaves the fields as `Pick` of the old fields says |
| `NoRepeatTs.NoRepeat.Reset` | norepeat.ts:67-71 | appends `chosen` to `items` and empties `chosen`, leaving `resetAt` alone |
| `Variants.PickAgreesUnlessDivergent` | norepeat.ts:59 | both variants return the same element, and leave the same `items` and `chosen` if and only if the picker is not in the case of two items, nothing chosen, no reset due; there the compiled variant pushes the element and the TypeScript one does not |
| `Variants.ResetAgrees` | norepeat.ts:67-70 | a manual reset moves the same items in both variants |

## Left out

- Random index generation (`Math.floor(Math.random() * items.length)`): floating point; replaced by the `index` parameter, and every property holds for every index in range.
- The runtime `Array.isArray` / `typeof` checks and the `TypeError` they throw: Dafny's static types already rule out those arguments.
- Drawing from an empty `items`: the source then returns `undefined` and may push `undefined` into the pool, which has no counterpart in a typed sequence; `GetRandom` requires `index < |items|`. In both variants a pool constructed non-empty never becomes empty (`NoRepeatJs.PoolStaysNonEmpty`, `NoRepeatTs.PoolStaysNonEmpty`).
- Aliasing: the source keeps the caller's `items` and `used` arrays and mutates them with `splice` and `push` until the first `concat` replaces them; the model's fields are values, so callers never see these mutations. Nor does the model capture the case where the caller passes the same array as `items` and `used` (`dist/no-repeat.js:36-37`, `norepeat.ts:40-41`): `items` and `chosen` are then one array, so the `splice` shrinks `chosen` too and the `push` puts the drawn element straight back into the pool.
- `resetAt` is an integer here; a fractional, `NaN` or `null` threshold follows JavaScript's number comparison rules, which are not modelled. `resetCount` is unbounded rather than a double.
- `dist/no-repeat.d.ts`: type declarations only; its doc comment on `lastResetWasAutomatic` contradicts the code, and the model follows the code.
- `module.exports` / `export =` and the `return this` of the constructor, `reset` and `privReset`, used only for chaining.
