/**
 * Count arithmetic around the container: how a particle count read on one
 * process is split among all processes, and the displacement arrays built
 * from per-process counts.
 */
module Layout {
  import opened Sums

  /** The split of n particles over nproc processes: n / nproc each, the remainder to rank 0. */
  function ReadSplit(n: int, nproc: int): (c: seq<int>)
    requires n >= 0 && nproc >= 1
    ensures |c| == nproc && NonNegative(c)
  {
    seq(nproc, i requires 0 <= i < nproc => if i == 0 then n / nproc + n % nproc else n / nproc)
  }

  /** The split hands out every particle once. */
  lemma SplitSumsToTotal(n: int, nproc: int)
    requires n >= 0 && nproc >= 1
    ensures Sum(ReadSplit(n, nproc)) == n
  {
    var c := ReadSplit(n, nproc);
    SumOfSplit(c, n / nproc, n % nproc, nproc);
  }

  /** Every process other than rank 0 gets the same share, and rank 0 at most nproc - 1 more. */
  lemma SplitIsBalanced(n: int, nproc: int, i: int)
    requires n >= 0 && nproc >= 1 && 0 < i < nproc
    ensures ReadSplit(n, nproc)[i] <= ReadSplit(n, nproc)[0] < ReadSplit(n, nproc)[i] + nproc
  {
  }

  lemma {:induction false} SumOfSplit(c: seq<int>, q: int, rem: int, m: int)
    requires |c| == m >= 1
    requires c[0] == q + rem && forall i :: 1 <= i < m ==> c[i] == q
    ensures Sum(c) == m * q + rem
    decreases m
  {
    if m > 1 {
      SumOfSplit(c[..m - 1], q, rem, m - 1);
    } else {
      assert c[..0] == [];
    }
  }

  /** The loop at the top of the read routine that fills n_ptcl. */
  method SplitReadCount(n: int, nproc: int) returns (counts: seq<int>)
    requires n >= 0 && nproc >= 1
    ensures counts == ReadSplit(n, nproc)
    ensures Sum(counts) == n
  {
    counts := [];
    var i := 0;
    while i < nproc
      invariant 0 <= i <= nproc && |counts| == i
      invariant forall m :: 0 <= m < i ==> counts[m] == n / nproc
    {
      counts := counts + [n / nproc];
      i := i + 1;
    }
    counts := counts[0 := counts[0] + n % nproc];
    SplitSumsToTotal(n, nproc);
  }

  /**
   * n_ptcl_displs: entry i is where process i's particles start in the
   * gathered array and the last entry is the global count.
   */
  method Displacements(counts: seq<int>) returns (displs: seq<int>)
    ensures displs == PrefixSums(counts)
    ensures displs[|counts|] == Sum(counts)
  {
    displs := [0];
    var i := 0;
    while i < |counts|
      invariant 0 <= i <= |counts|
      invariant displs == PrefixSums(counts)[..i + 1]
    {
      displs := displs + [displs[i] + counts[i]];
      i := i + 1;
    }
    assert PrefixSums(counts)[..|counts| + 1] == PrefixSums(counts);
  }

  /** nsend0 and nrecv0: where each rank's bucket starts, without the trailing total. */
  method Offsets(counts: seq<int>) returns (offs: seq<int>)
    ensures |offs| == |counts|
    ensures forall d :: 0 <= d < |counts| ==> offs[d] == PrefixSums(counts)[d]
  {
    if |counts| == 0 {
      return [];
    }
    offs := [0];
    var i := 1;
    while i < |counts|
      invariant 1 <= i <= |counts| && |offs| == i
      invariant forall d :: 0 <= d < i ==> offs[d] == PrefixSums(counts)[d]
    {
      offs := offs + [offs[i - 1] + counts[i - 1]];
      i := i + 1;
    }
  }

  /** getNumberOfParticleGlobal: the last displacement, which is the sum of the local counts. */
  method NumberOfParticleGlobal(counts: seq<int>) returns (total: int)
    ensures total == Sum(counts)
  {
    var displs := Displacements(counts);
    total := displs[|counts|];
  }
}
