/**
 * The sampling step of getSampleParticle: a partial Fisher-Yates shuffle of
 * the local particles driven by drawn indices, read out, then undone.
 */
module Sampling {

  /** number_of_sample_particle: the weighted share k0 raised to the lower limit, capped at nloc. */
  function SampleCount(k0: int, limit: int, nloc: int): (k: int)
    requires limit >= 0 && nloc >= 0
    ensures 0 <= k <= nloc
    ensures k == nloc || (k >= k0 && k >= limit)
    ensures k == nloc || k == k0 || k == limit
    ensures k <= k0 || k <= limit
  {
    var raised := if k0 > limit then k0 else limit;
    if raised < nloc then raised else nloc
  }

  /** Draws for the first k steps on n elements: step i picks an index in [i, n). */
  predicate ValidDraws(draws: seq<int>, n: int, k: int) {
    0 <= k <= |draws| && k <= n && forall i :: 0 <= i < k ==> i <= draws[i] < n
  }

  function Swap<T>(s: seq<T>, i: int, j: int): (r: seq<T>)
    requires 0 <= i < |s| && 0 <= j < |s|
    ensures |r| == |s|
    ensures r[i] == s[j] && r[j] == s[i]
    ensures forall m :: 0 <= m < |s| && m != i && m != j ==> r[m] == s[m]
  {
    s[i := s[j]][j := s[i]]
  }

  /** The order after the first k forward swaps of getSampleParticle. */
  function Shuffled<T>(s: seq<T>, draws: seq<int>, k: int): (r: seq<T>)
    requires ValidDraws(draws, |s|, k)
    ensures |r| == |s|
    decreases k
  {
    if k == 0 then s else Swap(Shuffled(s, draws, k - 1), k - 1, draws[k - 1])
  }

  /** Step i of the forward loop, written as the exchange through a held copy. */
  lemma ForwardStep<T>(s: seq<T>, draws: seq<int>, k: int, i: int)
    requires ValidDraws(draws, |s|, k) && 0 <= i < k
    ensures ValidDraws(draws, |s|, i) && ValidDraws(draws, |s|, i + 1) && i <= draws[i] < |s|
    ensures var t, j := Shuffled(s, draws, i), draws[i];
            Shuffled(s, draws, i + 1) == t[j := t[i]][i := t[j]]
  {
    assert ValidDraws(draws, |s|, i + 1);
    assert ValidDraws(draws, |s|, i);
  }

  /** A swap undone by the same swap. */
  lemma SwapTwice<T>(s: seq<T>, i: int, j: int)
    requires 0 <= i < |s| && 0 <= j < |s|
    ensures Swap(Swap(s, i, j), i, j) == s
  {
  }

  /** The record loop: swapping back from step k-1 down to step 0 restores the original order. */
  function Unshuffled<T>(s: seq<T>, draws: seq<int>, k: int): (r: seq<T>)
    requires ValidDraws(draws, |s|, k)
    ensures |r| == |s|
    decreases k
  {
    if k == 0 then s else Unshuffled(Swap(s, k - 1, draws[k - 1]), draws, k - 1)
  }

  /** Step i of the reverse loop, written as the exchange through a held copy, peels one swap off Unshuffled. */
  lemma UnshuffleStep<T>(t: seq<T>, draws: seq<int>, i: int)
    requires ValidDraws(draws, |t|, i + 1) && 0 <= i
    ensures ValidDraws(draws, |t|, i) && i <= draws[i] < |t|
    ensures var j := draws[i];
            Unshuffled(t[j := t[i]][i := t[j]], draws, i) == Unshuffled(t, draws, i + 1)
  {
    assert ValidDraws(draws, |t|, i);
    var j := draws[i];
    assert t[j := t[i]][i := t[j]] == Swap(t, i, j);
  }

  /** The reverse swaps undo the forward swaps: getSampleParticle leaves ptcl_ as it found it. */
  lemma {:induction false} UndoRestores<T>(s: seq<T>, draws: seq<int>, k: int)
    requires ValidDraws(draws, |s|, k)
    ensures Unshuffled(Shuffled(s, draws, k), draws, k) == s
    decreases k
  {
    if k > 0 {
      SwapTwice(Shuffled(s, draws, k - 1), k - 1, draws[k - 1]);
      assert ValidDraws(draws, |s|, k - 1);
      UndoRestores(s, draws, k - 1);
    }
  }

  /** The indices 0 .. n-1 in order. */
  function Iota(n: nat): (r: seq<int>)
    ensures |r| == n && forall i :: 0 <= i < n ==> r[i] == i
  {
    seq(n, i => i)
  }

  /** The original index that the first k forward swaps bring to each slot. */
  function Picks(draws: seq<int>, n: nat, k: int): (r: seq<int>)
    requires ValidDraws(draws, n, k)
    ensures |r| == n
    ensures forall i :: 0 <= i < n ==> 0 <= r[i] < n
  {
    ShuffledKeepsElements(Iota(n), draws, k);
    var r := Shuffled(Iota(n), draws, k);
    assert forall i :: 0 <= i < n ==> r[i] in r;
    assert forall x :: x in Iota(n) ==> 0 <= x < n;
    r
  }

  /** Swapping only moves elements around. */
  lemma {:induction false} ShuffledKeepsElements<T>(s: seq<T>, draws: seq<int>, k: int)
    requires ValidDraws(draws, |s|, k)
    ensures forall x :: x in Shuffled(s, draws, k) ==> x in s
    decreases k
  {
    if k > 0 {
      assert ValidDraws(draws, |s|, k - 1);
      ShuffledKeepsElements(s, draws, k - 1);
    }
  }

  /**
   * Slot i after the forward swaps holds the element of original index
   * Picks(...)[i], and those indices are distinct and in range.
   */
  lemma {:induction false} ShuffledIsPicked<T>(s: seq<T>, draws: seq<int>, k: int)
    requires ValidDraws(draws, |s|, k)
    ensures forall i :: 0 <= i < |s| ==> 0 <= Picks(draws, |s|, k)[i] < |s|
    ensures forall i :: 0 <= i < |s| ==> Shuffled(s, draws, k)[i] == s[Picks(draws, |s|, k)[i]]
    ensures forall i, j :: 0 <= i < j < |s| ==> Picks(draws, |s|, k)[i] != Picks(draws, |s|, k)[j]
    decreases k
  {
    if k > 0 {
      assert ValidDraws(draws, |s|, k - 1);
      ShuffledIsPicked(s, draws, k - 1);
    }
  }

  /** The forward swaps permute the elements. */
  lemma {:induction false} ShuffledIsPermutation<T>(s: seq<T>, draws: seq<int>, k: int)
    requires ValidDraws(draws, |s|, k)
    ensures multiset(Shuffled(s, draws, k)) == multiset(s)
    decreases k
  {
    if k > 0 {
      assert ValidDraws(draws, |s|, k - 1);
      ShuffledIsPermutation(s, draws, k - 1);
      SwapPermutes(Shuffled(s, draws, k - 1), k - 1, draws[k - 1]);
    }
  }

  /** A single swap keeps the elements. */
  lemma SwapPermutes<T>(t: seq<T>, i: int, j: int)
    requires 0 <= i < |t| && 0 <= j < |t|
    ensures multiset(Swap(t, i, j)) == multiset(t)
  {
    if i != j {
      var u := t[i := t[j]];
      assert multiset(u) == multiset(t) - multiset{t[i]} + multiset{t[j]};
      assert multiset(u[j := t[i]]) == multiset(u) - multiset{u[j]} + multiset{t[i]};
    }
  }

  /** Slots before step k are never touched again once step k has passed them. */
  lemma {:induction false} ShuffledPrefixSettles<T>(s: seq<T>, draws: seq<int>, k: int, m: int)
    requires ValidDraws(draws, |s|, m) && 0 <= k <= m
    ensures Shuffled(s, draws, m)[..k] == Shuffled(s, draws, k)[..k]
    decreases m - k
  {
    if k < m {
      assert ValidDraws(draws, |s|, m - 1);
      ShuffledPrefixSettles(s, draws, k, m - 1);
    }
  }
}
