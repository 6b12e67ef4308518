/** The Fisher-Yates shuffle of the `/names/random` handler, with
    `Math.random` replaced by a sequence of draws supplied by the caller. */
module FisherYates {

  /** The draws `Math.random` can return: reals in [0, 1). */
  predicate ValidDraws(draws: seq<real>) {
    forall k :: 0 <= k < |draws| ==> 0.0 <= draws[k] < 1.0
  }

  /** `Math.floor(x * (i + 1))`: the index at most `i` that a draw picks. */
  function Pick(i: nat, x: real): (j: nat)
    requires 0.0 <= x < 1.0
    ensures j <= i
  {
    var m := (i + 1) as real;
    assert 0.0 <= x * m < m;
    (x * m).Floor
  }

  function Swap<T>(s: seq<T>, i: nat, j: nat): (r: seq<T>)
    requires i < |s| && j < |s|
    ensures |r| == |s|
  {
    s[i := s[j]][j := s[i]]
  }

  /** The state after the loop has run its steps `i`, `i - 1`, ..., 1 on
      `s`; step `i` swaps position `i` with the position its draw picks, and
      takes the draw numbered `|s| - 1 - i`, the loop counting down from the
      last index. */
  function Steps<T>(s: seq<T>, i: int, draws: seq<real>): (r: seq<T>)
    requires i < |s| && |s| <= |draws| + 1 && ValidDraws(draws)
    ensures |r| == |s|
    decreases i
  {
    if i <= 0 then s else Steps(Swap(s, i, Pick(i, draws[|s| - 1 - i])), i - 1, draws)
  }

  /** Every run of the steps rearranges `s` without adding, losing or
      duplicating an element. */
  lemma {:induction false} StepsPermutes<T>(s: seq<T>, i: int, draws: seq<real>)
    requires i < |s| && |s| <= |draws| + 1 && ValidDraws(draws)
    ensures multiset(Steps(s, i, draws)) == multiset(s)
    decreases i
  {
    if i > 0 {
      var j := Pick(i, draws[|s| - 1 - i]);
      var t := Swap(s, i, j);
      assert multiset(t) == multiset(s);
      StepsPermutes(t, i - 1, draws);
    }
  }

  /** The whole shuffle: the steps from the last index down to 1. */
  function Shuffle<T>(s: seq<T>, draws: seq<real>): (r: seq<T>)
    requires |s| <= |draws| + 1 && ValidDraws(draws)
    ensures |r| == |s| && multiset(r) == multiset(s)
  {
    StepsPermutes(s, |s| - 1, draws);
    Steps(s, |s| - 1, draws)
  }

  /** `[...cachedNames]` followed by the in-place swap loop: the copy is
      shuffled, the input is left as it is. */
  method ShuffledCopy<T>(names: seq<T>, draws: seq<real>) returns (shuffled: seq<T>)
    requires |names| <= |draws| + 1 && ValidDraws(draws)
    ensures shuffled == Shuffle(names, draws)
    ensures |shuffled| == |names| && multiset(shuffled) == multiset(names)
  {
    var a := new T[|names|](k requires 0 <= k < |names| => names[k]);
    assert a[..] == names;
    ghost var target := Steps(names, |names| - 1, draws);
    var i := a.Length - 1;
    while i > 0
      invariant -1 <= i < a.Length == |names|
      invariant Steps(a[..], i, draws) == target
      decreases i
    {
      ghost var before := a[..];
      var j := Pick(i, draws[a.Length - 1 - i]);
      a[i], a[j] := a[j], a[i];
      assert a[..] == Swap(before, i, j);
      i := i - 1;
    }
    shuffled := a[..];
  }

  /** Taking the first `k` of a shuffle picks `k` distinct positions of the
      input: no record appears more often than it does in the input. */
  lemma SampleFromShuffle<T>(s: seq<T>, draws: seq<real>, k: nat)
    requires |s| <= |draws| + 1 && ValidDraws(draws) && k <= |s|
    ensures |Shuffle(s, draws)[..k]| == k
    ensures multiset(Shuffle(s, draws)[..k]) <= multiset(s)
  {
    var p := Shuffle(s, draws);
    assert p == p[..k] + p[k..];
    assert multiset(p) == multiset(p[..k]) + multiset(p[k..]);
  }
}
