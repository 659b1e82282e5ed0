/** Generic sequence helpers: the first index satisfying a predicate
    (`Array.prototype.indexOf` and `for…of` with an early exit) and removal
    of one position (`Array.prototype.splice(i, 1)`). */
module Seqs {
  import opened Wrappers

  /** The first index of `s` whose element satisfies `p`, or `None` when no element does. */
  function FirstIndex<T>(s: seq<T>, p: T -> bool): (r: Option<nat>)
    ensures r.Some? ==> r.value < |s| && p(s[r.value])
    ensures r.Some? ==> forall j :: 0 <= j < r.value ==> !p(s[j])
    ensures r.None? ==> forall j :: 0 <= j < |s| ==> !p(s[j])
  {
    if |s| == 0 then None
    else if p(s[0]) then Some(0)
    else match FirstIndex(s[1..], p)
      case None => None
      case Some(i) => Some(i + 1)
  }

  /** `s` with position `k` taken out; everything else keeps its order. */
  function RemoveAt<T>(s: seq<T>, k: nat): (r: seq<T>)
    requires k < |s|
    ensures |r| == |s| - 1
    ensures forall j :: 0 <= j < k ==> r[j] == s[j]
    ensures forall j :: k <= j < |r| ==> r[j] == s[j + 1]
    ensures multiset(r) + multiset{s[k]} == multiset(s)
  {
    assert s == s[..k] + [s[k]] + s[k + 1..];
    s[..k] + s[k + 1..]
  }

  /** An element that is the only one satisfying `p` is the one found. */
  lemma FirstIndexOfOnly<T>(s: seq<T>, p: T -> bool, j: nat)
    requires j < |s| && p(s[j])
    requires forall i :: 0 <= i < |s| && i != j ==> !p(s[i])
    ensures FirstIndex(s, p) == Some(j)
  {
  }

  /** Whenever some element satisfies `p`, an index is found. */
  lemma FirstIndexFinds<T>(s: seq<T>, p: T -> bool, j: nat)
    requires j < |s| && p(s[j])
    ensures FirstIndex(s, p).Some? && FirstIndex(s, p).value <= j
  {
  }

  /** Two sequences that agree on `p` position by position have the same first index. */
  lemma FirstIndexCongruent<T>(s: seq<T>, s': seq<T>, p: T -> bool)
    requires |s| == |s'|
    requires forall j :: 0 <= j < |s| ==> p(s[j]) == p(s'[j])
    ensures FirstIndex(s, p) == FirstIndex(s', p)
  {
    var r, r' := FirstIndex(s, p), FirstIndex(s', p);
    if r.Some? {
      FirstIndexFinds(s', p, r.value);
    }
    if r'.Some? {
      FirstIndexFinds(s, p, r'.value);
    }
  }

  /** Appending an element never changes an index already found, and is the
      only candidate otherwise. */
  lemma FirstIndexAppend<T>(s: seq<T>, x: T, p: T -> bool)
    ensures FirstIndex(s + [x], p) ==
      if FirstIndex(s, p).Some? then FirstIndex(s, p)
      else if p(x) then Some(|s|)
      else None
  {
    var t := s + [x];
    assert forall j :: 0 <= j < |s| ==> t[j] == s[j];
    var r := FirstIndex(s, p);
    if r.Some? {
      FirstIndexFinds(t, p, r.value);
      assert FirstIndex(t, p).value == r.value;
    } else if p(x) {
      FirstIndexOfOnly(t, p, |s|);
    } else {
      assert forall j :: 0 <= j < |t| ==> !p(t[j]);
    }
  }
}
