/**
 * Counting arithmetic shared by the container: sums of counts, the
 * displacement (prefix-sum) arrays that lay buckets out back to back, and
 * the concatenation of buckets that those displacements describe.
 */
module Sums {

  function Sum(c: seq<int>): int
  {
    if c == [] then 0 else Sum(c[..|c| - 1]) + c[|c| - 1]
  }

  predicate NonNegative(c: seq<int>) {
    forall i :: 0 <= i < |c| ==> c[i] >= 0
  }

  lemma {:induction false} SumPrefixStep(c: seq<int>, i: int)
    requires 0 <= i < |c|
    ensures Sum(c[..i + 1]) == Sum(c[..i]) + c[i]
  {
    assert c[..i + 1][..i] == c[..i];
  }

  /**
   * Displacements of counts laid out back to back: entry i is where bucket i
   * starts and the last entry is the total (n_ptcl_displs, nsend0, nrecv0).
   */
  function PrefixSums(c: seq<int>): (r: seq<int>)
    ensures |r| == |c| + 1 && r[0] == 0 && r[|c|] == Sum(c)
    ensures forall i {:trigger c[i]} :: 0 <= i < |c| ==> r[i + 1] == r[i] + c[i]
  {
    assert c[..|c|] == c;
    assert forall i :: 0 <= i < |c| ==> Sum(c[..i + 1]) == Sum(c[..i]) + c[i] by {
      forall i | 0 <= i < |c| ensures Sum(c[..i + 1]) == Sum(c[..i]) + c[i] {
        SumPrefixStep(c, i);
      }
    }
    seq(|c| + 1, i requires 0 <= i <= |c| => Sum(c[..i]))
  }

  /** With non-negative counts, bucket d ends no later than every later bucket starts. */
  lemma {:induction false} PrefixSumsMonotone(c: seq<int>, a: int, b: int)
    requires NonNegative(c) && 0 <= a <= b <= |c|
    ensures PrefixSums(c)[a] <= PrefixSums(c)[b]
    decreases b - a
  {
    if a < b {
      PrefixSumsMonotone(c, a, b - 1);
    }
  }

  /** Bucket d of non-negative counts lies inside [0, total). */
  lemma BucketInside(c: seq<int>, d: int)
    requires NonNegative(c) && 0 <= d < |c|
    ensures 0 <= PrefixSums(c)[d]
    ensures PrefixSums(c)[d] + c[d] <= Sum(c)
  {
    PrefixSumsMonotone(c, 0, d);
    PrefixSumsMonotone(c, d + 1, |c|);
  }

  /** Buckets d < e of non-negative counts do not overlap. */
  lemma BucketsApart(c: seq<int>, d: int, e: int)
    requires NonNegative(c) && 0 <= d < e < |c|
    ensures PrefixSums(c)[d] + c[d] <= PrefixSums(c)[e]
  {
    PrefixSumsMonotone(c, d + 1, e);
  }

  /** The parts one after another, in index order. */
  function Concat<T>(parts: seq<seq<T>>): seq<T>
  {
    if parts == [] then [] else Concat(parts[..|parts| - 1]) + parts[|parts| - 1]
  }

  lemma {:induction false} ConcatAppend<T>(a: seq<seq<T>>, b: seq<seq<T>>)
    ensures Concat(a + b) == Concat(a) + Concat(b)
    decreases |b|
  {
    if b == [] {
      assert a + b == a;
    } else {
      var n := |b| - 1;
      assert (a + b)[..|a + b| - 1] == a + b[..n];
      ConcatAppend(a, b[..n]);
      calc {
        Concat(a + b);
        Concat(a + b[..n]) + b[n];
        Concat(a) + Concat(b[..n]) + b[n];
        Concat(a) + (Concat(b[..n]) + b[n]);
        Concat(a) + Concat(b);
      }
    }
  }

  /** Where part d starts in the concatenation: the length of everything before it. */
  function Offset<T>(parts: seq<seq<T>>, d: int): int
    requires 0 <= d <= |parts|
  {
    |Concat(parts[..d])|
  }

  /** Part d of a concatenation sits at its offset. */
  lemma ConcatSlice<T>(parts: seq<seq<T>>, d: int)
    requires 0 <= d < |parts|
    ensures Offset(parts, d) + |parts[d]| == Offset(parts, d + 1) <= |Concat(parts)|
    ensures Concat(parts)[Offset(parts, d) .. Offset(parts, d + 1)] == parts[d]
  {
    assert parts == parts[..d] + [parts[d]] + parts[d + 1..];
    ConcatAppend(parts[..d] + [parts[d]], parts[d + 1..]);
    ConcatAppend(parts[..d], [parts[d]]);
    assert parts[..d + 1] == parts[..d] + [parts[d]];
    assert Concat([parts[d]]) == parts[d] by {
      assert [parts[d]][..0] == [];
    }
  }

  /** Offsets only grow along the parts. */
  lemma OffsetMonotone<T>(parts: seq<seq<T>>, d: int, e: int)
    requires 0 <= d <= e <= |parts|
    ensures Offset(parts, d) <= Offset(parts, e)
  {
    assert parts[..e] == parts[..d] + parts[d..e];
    ConcatAppend(parts[..d], parts[d..e]);
  }

  /** Part d sits at its offset in s. */
  ghost predicate Placed<T>(s: seq<T>, parts: seq<seq<T>>, d: int)
    requires 0 <= d < |parts|
  {
    Offset(parts, d) <= Offset(parts, d + 1) <= |s| && s[Offset(parts, d) .. Offset(parts, d + 1)] == parts[d]
  }

  /** A part placed before the last one is placed in the prefix of s that ends where the last begins. */
  lemma PlacedInPrefix<T>(s: seq<T>, parts: seq<seq<T>>, d: int)
    requires 0 <= d < |parts| - 1 && Placed(s, parts, d) && Offset(parts, |parts| - 1) <= |s|
    ensures Placed(s[..Offset(parts, |parts| - 1)], parts[..|parts| - 1], d)
  {
    var n := |parts| - 1;
    var init := parts[..n];
    var o := Offset(parts, n);
    assert init[..d] == parts[..d] && init[..d + 1] == parts[..d + 1];
    ConcatSlice(parts, d);
    OffsetMonotone(parts, d + 1, n);
    assert s[..o][Offset(init, d) .. Offset(init, d + 1)] == s[Offset(parts, d) .. Offset(parts, d + 1)];
  }

  /**
   * A sequence as long as the concatenation whose slice at each part's offset
   * is that part is the concatenation.
   */
  lemma {:induction false} SlicesDetermine<T>(s: seq<T>, parts: seq<seq<T>>)
    requires |s| == |Concat(parts)|
    requires forall d :: 0 <= d < |parts| ==> Placed(s, parts, d)
    ensures s == Concat(parts)
    decreases |parts|
  {
    if parts != [] {
      var n := |parts| - 1;
      var init := parts[..n];
      var o := Offset(parts, n);
      assert Placed(s, parts, n);
      assert parts[..n + 1] == parts;
      forall d | 0 <= d < n
        ensures Placed(s[..o], init, d)
      {
        PlacedInPrefix(s, parts, d);
      }
      assert Concat(parts) == Concat(init) + parts[n];
      SlicesDetermine(s[..o], init);
      assert s == s[..o] + s[o..];
    }
  }

  /** The displacements of the part lengths are the part offsets. */
  lemma {:induction false} PrefixSumsAreOffsets<T>(parts: seq<seq<T>>, d: int)
    requires 0 <= d <= |parts|
    ensures PrefixSums(Lengths(parts))[d] == Offset(parts, d)
  {
    if d > 0 {
      PrefixSumsAreOffsets(parts, d - 1);
      ConcatSlice(parts, d - 1);
    }
  }

  /** Part d of a concatenation starts at the prefix sum of the lengths before it. */
  lemma PartAt<T>(parts: seq<seq<T>>, d: int)
    requires 0 <= d < |parts|
    ensures 0 <= PrefixSums(Lengths(parts))[d]
    ensures PrefixSums(Lengths(parts))[d] + |parts[d]| <= |Concat(parts)|
    ensures Concat(parts)[PrefixSums(Lengths(parts))[d] .. PrefixSums(Lengths(parts))[d] + |parts[d]|] == parts[d]
  {
    PrefixSumsAreOffsets(parts, d);
    ConcatSlice(parts, d);
  }

  function Lengths<T>(parts: seq<seq<T>>): (r: seq<int>)
    ensures |r| == |parts| && NonNegative(r)
    ensures forall i :: 0 <= i < |parts| ==> r[i] == |parts[i]|
  {
    seq(|parts|, i requires 0 <= i < |parts| => |parts[i]|)
  }

  lemma ConcatLength<T>(parts: seq<seq<T>>)
    ensures |Concat(parts)| == Sum(Lengths(parts))
  {
    PrefixSumsAreOffsets(parts, |parts|);
    assert parts[..|parts|] == parts;
  }

  // ---------------------------------------------------------------------------
  // Buffers filled bucket by bucket

  /**
   * Bucket e of buf starts at offs[e] and its first |parts[e]| slots hold
   * parts[e]: the state of ptcl_send_ part-way through pass 2.
   */
  ghost predicate Filled<T>(buf: seq<T>, offs: seq<int>, parts: seq<seq<T>>)
    requires |offs| == |parts|
  {
    forall e :: 0 <= e < |parts| ==>
      0 <= offs[e] && offs[e] + |parts[e]| <= |buf| && buf[offs[e] .. offs[e] + |parts[e]|] == parts[e]
  }

  /** Buckets of sizes cap laid out from offs lie apart inside [0, total). */
  ghost predicate LaidOut(offs: seq<int>, cap: seq<int>, total: int)
    requires |offs| == |cap|
  {
    && (forall e :: 0 <= e < |offs| ==> 0 <= offs[e] && 0 <= cap[e] && offs[e] + cap[e] <= total)
    && (forall e, f :: 0 <= e < f < |offs| ==> offs[e] + cap[e] <= offs[f])
  }

  /** Offsets taken from the prefix sums of non-negative counts lay the buckets out. */
  lemma PrefixSumsLayOut(offs: seq<int>, cap: seq<int>)
    requires NonNegative(cap) && |offs| == |cap|
    requires forall e :: 0 <= e < |cap| ==> offs[e] == PrefixSums(cap)[e]
    ensures LaidOut(offs, cap, Sum(cap))
  {
    forall e | 0 <= e < |cap|
      ensures 0 <= offs[e] && offs[e] + cap[e] <= Sum(cap)
    {
      BucketInside(cap, e);
    }
    forall e, f | 0 <= e < f < |cap|
      ensures offs[e] + cap[e] <= offs[f]
    {
      BucketsApart(cap, e, f);
    }
  }

  /** Writing x into the next free slot of bucket d appends x to part d and disturbs no other part. */
  lemma ScatterStep<T>(buf: seq<T>, offs: seq<int>, cap: seq<int>, parts: seq<seq<T>>, d: int, x: T)
    requires |offs| == |cap| == |parts| && 0 <= d < |parts|
    requires Filled(buf, offs, parts) && LaidOut(offs, cap, |buf|)
    requires forall e :: 0 <= e < |parts| ==> |parts[e]| <= cap[e]
    requires |parts[d]| < cap[d]
    ensures offs[d] + |parts[d]| < |buf|
    ensures Filled(buf[offs[d] + |parts[d]| := x], offs, parts[d := parts[d] + [x]])
  {
    var j := offs[d] + |parts[d]|;
    var buf' := buf[j := x];
    var parts' := parts[d := parts[d] + [x]];
    forall e | 0 <= e < |parts'|
      ensures 0 <= offs[e] && offs[e] + |parts'[e]| <= |buf'|
      ensures buf'[offs[e] .. offs[e] + |parts'[e]|] == parts'[e]
    {
      if e == d {
        assert buf'[offs[e] .. j + 1] == buf[offs[e] .. j] + [x];
      } else if e < d {
        assert offs[e] + cap[e] <= offs[d];
        assert buf'[offs[e] .. offs[e] + |parts[e]|] == buf[offs[e] .. offs[e] + |parts[e]|];
      } else {
        assert offs[d] + cap[d] <= offs[e];
        assert buf'[offs[e] .. offs[e] + |parts[e]|] == buf[offs[e] .. offs[e] + |parts[e]|];
      }
    }
  }

  /**
   * The counted form of ScatterStep: with cnt holding the part lengths, x
   * goes to offs[d] + cnt[d] and cnt[d] grows by one.
   */
  lemma ScatterCounted<T>(buf: seq<T>, offs: seq<int>, cap: seq<int>, cnt: seq<int>,
                          parts: seq<seq<T>>, parts': seq<seq<T>>, d: int, x: T)
    requires |offs| == |cap| == |parts| && 0 <= d < |parts|
    requires Filled(buf, offs, parts) && LaidOut(offs, cap, |buf|)
    requires forall e :: 0 <= e < |parts| ==> |parts[e]| <= cap[e]
    requires |parts[d]| < cap[d]
    requires cnt == Lengths(parts) && parts' == parts[d := parts[d] + [x]]
    ensures 0 <= offs[d] + cnt[d] < |buf|
    ensures Filled(buf[offs[d] + cnt[d] := x], offs, parts')
    ensures cnt[d := cnt[d] + 1] == Lengths(parts')
  {
    ScatterStep(buf, offs, cap, parts, d, x);
  }

  /**
   * A buffer as long as the concatenation, whose bucket d starts at the
   * prefix sum of the part lengths and holds part d, is the concatenation.
   */
  lemma FilledIsConcat<T>(buf: seq<T>, offs: seq<int>, parts: seq<seq<T>>)
    requires |offs| == |parts| && Filled(buf, offs, parts)
    requires |buf| == |Concat(parts)|
    requires forall d :: 0 <= d < |parts| ==> offs[d] == PrefixSums(Lengths(parts))[d]
    ensures buf == Concat(parts)
  {
    forall d | 0 <= d < |parts|
      ensures Placed(buf, parts, d)
    {
      PrefixSumsAreOffsets(parts, d);
      ConcatSlice(parts, d);
    }
    SlicesDetermine(buf, parts);
  }

  /** buf with v written over the slots from a on. */
  function Splice<T>(buf: seq<T>, a: int, v: seq<T>): (r: seq<T>)
    requires 0 <= a && a + |v| <= |buf|
    ensures |r| == |buf|
    ensures r[a .. a + |v|] == v
  {
    var r := buf[..a] + v + buf[a + |v|..];
    assert r[a .. a + |v|] == v;
    r
  }

  /** A splice leaves every region it does not overlap as it was. */
  lemma SpliceKeeps<T>(buf: seq<T>, a: int, v: seq<T>, lo: int, hi: int)
    requires 0 <= a && a + |v| <= |buf| && 0 <= lo <= hi <= |buf|
    requires hi <= a || a + |v| <= lo
    ensures Splice(buf, a, v)[lo..hi] == buf[lo..hi]
  {
    var r := Splice(buf, a, v);
    assert r == buf[..a] + v + buf[a + |v|..];
    forall i | lo <= i < hi
      ensures r[i] == buf[i]
    {
      if i < a {
        assert r[i] == buf[..a][i];
      } else {
        assert r[i] == buf[a + |v|..][i - a - |v|];
      }
    }
  }
}
