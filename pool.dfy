/** Sequence helpers shared by both variants of the picker. */
module Pool {

  /** An optional value: `resetAt` and `used` may be left undefined by the caller. */
  datatype Option<T> = None | Some(value: T)

  /** The sequence that `s.splice(i, 1)` leaves behind: `s` without its element at index `i`. */
  function RemoveAt<T>(s: seq<T>, i: nat): (r: seq<T>)
    requires i < |s|
    ensures |r| == |s| - 1
    ensures forall j :: 0 <= j < i ==> r[j] == s[j]
    ensures forall j :: i <= j < |r| ==> r[j] == s[j + 1]
  {
    s[..i] + s[i + 1..]
  }

  /** Putting the removed element back at its index gives the original sequence. */
  lemma RemoveAtUndo<T>(s: seq<T>, i: nat)
    requires i < |s|
    ensures RemoveAt(s, i)[..i] + [s[i]] + RemoveAt(s, i)[i..] == s
  {
  }

  /** Removing by index takes away exactly one occurrence of the removed element. */
  lemma RemoveAtMultiset<T>(s: seq<T>, i: nat)
    requires i < |s|
    ensures multiset(RemoveAt(s, i)) + multiset{s[i]} == multiset(s)
  {
    RemoveAtUndo(s, i);
    var r := RemoveAt(s, i);
    calc {
      multiset(s);
      multiset(r[..i] + [s[i]] + r[i..]);
      multiset(r[..i]) + multiset{s[i]} + multiset(r[i..]);
      { assert r == r[..i] + r[i..]; }
      multiset(r) + multiset{s[i]};
    }
  }
}
