/**
 * exchangeParticle seen from all processes at once. Each process keeps the
 * particles inside its own domain, in their original order, and sends every
 * other particle to the process its position routes to. Process r ends with
 * what it kept followed by what it received, ordered by sender rank.
 */
module Exchange {
  import opened Domain
  import opened Sums
  import opened Particles

  /** The particles of ps inside home, in their original order (pass 2's compaction). */
  function Kept(ps: seq<Particle>, home: Box): (r: seq<Particle>)
    ensures |r| <= |ps|
  {
    if ps == [] then []
    else
      var last := ps[|ps| - 1];
      Kept(ps[..|ps| - 1], home) + (if InDomain(last.pos, home) then [last] else [])
  }

  /** The particles of ps that leave home for process d, in their original order. */
  function Outgoing(ps: seq<Particle>, home: Box, g: Grid, boxes: seq<Box>, d: int): (r: seq<Particle>)
    requires g.Valid()
    ensures |r| <= |ps|
  {
    if ps == [] then []
    else
      var last := ps[|ps| - 1];
      Outgoing(ps[..|ps| - 1], home, g, boxes, d)
        + (if !InDomain(last.pos, home) && Route(last.pos, g, boxes) == d then [last] else [])
  }

  /** One bucket per destination rank 0 .. n-1. */
  function Buckets(ps: seq<Particle>, home: Box, g: Grid, boxes: seq<Box>, n: nat): (r: seq<seq<Particle>>)
    requires g.Valid()
    ensures |r| == n
  {
    seq(n, d requires 0 <= d < n => Outgoing(ps, home, g, boxes, d))
  }

  /** Bucket d is what leaves for d. */
  lemma BucketAt(ps: seq<Particle>, home: Box, g: Grid, boxes: seq<Box>, n: nat, d: int)
    requires g.Valid() && 0 <= d < n
    ensures Buckets(ps, home, g, boxes, n)[d] == Outgoing(ps, home, g, boxes, d)
  {
  }

  /** What is kept comes from ps and lies inside home. */
  lemma {:induction false} KeptMembers(ps: seq<Particle>, home: Box)
    ensures forall p :: p in Kept(ps, home) ==> p in ps && InDomain(p.pos, home)
  {
    if ps != [] {
      KeptMembers(ps[..|ps| - 1], home);
      assert forall p :: p in ps[..|ps| - 1] ==> p in ps;
    }
  }

  /** What leaves for d comes from ps, lies outside home and routes to d. */
  lemma {:induction false} OutgoingMembers(ps: seq<Particle>, home: Box, g: Grid, boxes: seq<Box>, d: int)
    requires g.Valid()
    ensures forall p :: p in Outgoing(ps, home, g, boxes, d) ==>
              p in ps && !InDomain(p.pos, home) && Route(p.pos, g, boxes) == d
  {
    if ps != [] {
      OutgoingMembers(ps[..|ps| - 1], home, g, boxes, d);
      assert forall p :: p in ps[..|ps| - 1] ==> p in ps;
    }
  }

  /** The send buffer ptcl_send_: the buckets laid out one after another. */
  function SendBuffer(ps: seq<Particle>, home: Box, g: Grid, boxes: seq<Box>, n: nat): seq<Particle>
    requires g.Valid()
  {
    Concat(Buckets(ps, home, g, boxes, n))
  }

  /** Extending a prefix by one particle extends either what is kept or exactly one bucket. */
  lemma PrefixStep(ps: seq<Particle>, i: int, home: Box, g: Grid, boxes: seq<Box>)
    requires g.Valid() && 0 <= i < |ps|
    ensures Kept(ps[..i + 1], home) == Kept(ps[..i], home) + (if InDomain(ps[i].pos, home) then [ps[i]] else [])
    ensures forall d :: Outgoing(ps[..i + 1], home, g, boxes, d)
                        == Outgoing(ps[..i], home, g, boxes, d)
                           + (if !InDomain(ps[i].pos, home) && Route(ps[i].pos, g, boxes) == d then [ps[i]] else [])
  {
    assert ps[..i + 1][..i] == ps[..i];
  }

  /** Extending a prefix by one particle that stays appends it to what is kept. */
  lemma KeptStep(ps: seq<Particle>, i: int, home: Box)
    requires 0 <= i < |ps|
    ensures Kept(ps[..i + 1], home) == Kept(ps[..i], home) + (if InDomain(ps[i].pos, home) then [ps[i]] else [])
  {
    assert ps[..i + 1][..i] == ps[..i];
  }

  /** One more particle inside the box keeps the prefix inside the box. */
  lemma AllInsideStep(ps: seq<Particle>, i: int, box: Box)
    requires 0 <= i < |ps| && AllInside(ps[..i], box) && InDomain(ps[i].pos, box)
    ensures AllInside(ps[..i + 1], box)
  {
    var longer := ps[..i + 1];
    forall m | 0 <= m <= i
      ensures InDomain(longer[m].pos, box)
    {
      if m < i {
        assert longer[m] == ps[..i][m];
      }
    }
  }

  /** A particle that stays leaves every bucket as it was. */
  lemma BucketsStay(ps: seq<Particle>, i: int, home: Box, g: Grid, boxes: seq<Box>, n: nat)
    requires g.Valid() && 0 <= i < |ps| && InDomain(ps[i].pos, home)
    ensures Buckets(ps[..i + 1], home, g, boxes, n) == Buckets(ps[..i], home, g, boxes, n)
  {
    var after, before := Buckets(ps[..i + 1], home, g, boxes, n), Buckets(ps[..i], home, g, boxes, n);
    PrefixStep(ps, i, home, g, boxes);
    forall d | 0 <= d < n
      ensures after[d] == before[d]
    {
      assert after[d] == Outgoing(ps[..i + 1], home, g, boxes, d);
    }
  }

  /** A particle that leaves for d joins the end of bucket d and no other. */
  lemma BucketsLeave(ps: seq<Particle>, i: int, home: Box, g: Grid, boxes: seq<Box>, n: nat, d: int)
    requires g.Valid() && 0 <= i < |ps| && !InDomain(ps[i].pos, home) && Route(ps[i].pos, g, boxes) == d
    requires 0 <= d < n
    ensures Buckets(ps[..i + 1], home, g, boxes, n)
            == Buckets(ps[..i], home, g, boxes, n)[d := Outgoing(ps[..i], home, g, boxes, d) + [ps[i]]]
  {
    var after, before := Buckets(ps[..i + 1], home, g, boxes, n), Buckets(ps[..i], home, g, boxes, n);
    var moved := before[d := Outgoing(ps[..i], home, g, boxes, d) + [ps[i]]];
    PrefixStep(ps, i, home, g, boxes);
    forall e | 0 <= e < n
      ensures after[e] == moved[e]
    {
      assert after[e] == Outgoing(ps[..i + 1], home, g, boxes, e);
    }
  }

  /** A bucket of a prefix is no longer than the bucket of the whole sequence. */
  lemma {:induction false} OutgoingGrows(ps: seq<Particle>, home: Box, g: Grid, boxes: seq<Box>, d: int, i: int)
    requires g.Valid() && 0 <= i <= |ps|
    ensures |Outgoing(ps[..i], home, g, boxes, d)| <= |Outgoing(ps, home, g, boxes, d)|
    decreases |ps| - i
  {
    if i < |ps| {
      PrefixStep(ps, i, home, g, boxes);
      OutgoingGrows(ps, home, g, boxes, d, i + 1);
    } else {
      assert ps[..i] == ps;
    }
  }

  /** Every particle that leaves home routes to one of the n ranks. */
  predicate RoutedWithin(ps: seq<Particle>, home: Box, g: Grid, boxes: seq<Box>, n: nat)
    requires g.Valid()
  {
    forall i :: 0 <= i < |ps| && !InDomain(ps[i].pos, home) ==> 0 <= Route(ps[i].pos, g, boxes) < n
  }

  /** Each position of ps lies in the box (the root domain, or a process's own domain). */
  predicate AllInside(ps: seq<Particle>, box: Box) {
    forall i :: 0 <= i < |ps| ==> InDomain(ps[i].pos, box)
  }

  // ---------------------------------------------------------------------------
  // Multisets of particles summed over a sequence

  function BagSum(bs: seq<multiset<Particle>>): multiset<Particle>
  {
    if bs == [] then multiset{} else BagSum(bs[..|bs| - 1]) + bs[|bs| - 1]
  }

  function Bags(parts: seq<seq<Particle>>): (r: seq<multiset<Particle>>)
    ensures |r| == |parts|
    ensures forall i :: 0 <= i < |parts| ==> r[i] == multiset(parts[i])
  {
    seq(|parts|, i requires 0 <= i < |parts| => multiset(parts[i]))
  }

  /** The multiset of a concatenation is the sum of the parts' multisets. */
  lemma {:induction false} BagOfConcat(parts: seq<seq<Particle>>)
    ensures multiset(Concat(parts)) == BagSum(Bags(parts))
    decreases |parts|
  {
    if parts != [] {
      var n := |parts| - 1;
      BagOfConcat(parts[..n]);
      assert Bags(parts)[..n] == Bags(parts[..n]);
    }
  }

  /** Summing a pointwise sum is summing each side. */
  lemma {:induction false} BagSumPointwise(a: seq<multiset<Particle>>, b: seq<multiset<Particle>>, c: seq<multiset<Particle>>)
    requires |a| == |b| == |c|
    requires forall i :: 0 <= i < |c| ==> c[i] == a[i] + b[i]
    ensures BagSum(c) == BagSum(a) + BagSum(b)
    decreases |c|
  {
    if c != [] {
      var n := |c| - 1;
      BagSumPointwise(a[..n], b[..n], c[..n]);
      var x, y := BagSum(a[..n]), BagSum(b[..n]);
      assert BagSum(c) == x + y + (a[n] + b[n]);
      assert x + y + (a[n] + b[n]) == (x + a[n]) + (y + b[n]);
    }
  }

  /** Column r of a matrix of multisets. */
  predicate Rect(m: seq<seq<multiset<Particle>>>, n: nat) {
    forall s :: 0 <= s < |m| ==> |m[s]| == n
  }

  function Column(m: seq<seq<multiset<Particle>>>, n: nat, r: int): (col: seq<multiset<Particle>>)
    requires Rect(m, n) && 0 <= r < n
    ensures |col| == |m|
    ensures forall s :: 0 <= s < |m| ==> col[s] == m[s][r]
  {
    seq(|m|, s requires 0 <= s < |m| => m[s][r])
  }

  function RowTotals(m: seq<seq<multiset<Particle>>>): (t: seq<multiset<Particle>>)
    ensures |t| == |m|
    ensures forall s :: 0 <= s < |m| ==> t[s] == BagSum(m[s])
  {
    seq(|m|, s requires 0 <= s < |m| => BagSum(m[s]))
  }

  function ColumnTotals(m: seq<seq<multiset<Particle>>>, n: nat): (t: seq<multiset<Particle>>)
    requires Rect(m, n)
    ensures |t| == n
    ensures forall r :: 0 <= r < n ==> t[r] == BagSum(Column(m, n, r))
  {
    seq(n, r requires 0 <= r < n => BagSum(Column(m, n, r)))
  }

  /** Adding up a rectangular matrix by rows or by columns gives the same total. */
  lemma {:induction false} RowsEqualColumns(m: seq<seq<multiset<Particle>>>, n: nat)
    requires Rect(m, n)
    ensures BagSum(RowTotals(m)) == BagSum(ColumnTotals(m, n))
    decreases |m|
  {
    if m == [] {
      BagSumPointwise(ColumnTotals(m, n), ColumnTotals(m, n), ColumnTotals(m, n));
    } else {
      var k := |m| - 1;
      var init := m[..k];
      RowsEqualColumns(init, n);
      assert RowTotals(m)[..k] == RowTotals(init);
      forall r | 0 <= r < n
        ensures ColumnTotals(m, n)[r] == ColumnTotals(init, n)[r] + m[k][r]
      {
        assert Column(m, n, r)[..k] == Column(init, n, r);
      }
      BagSumPointwise(ColumnTotals(init, n), m[k], ColumnTotals(m, n));
    }
  }

  // ---------------------------------------------------------------------------
  // One process

  /** A particle that stays adds nothing to the send buckets. */
  lemma BucketsIgnoreStaying(ps: seq<Particle>, home: Box, g: Grid, boxes: seq<Box>, n: nat)
    requires g.Valid() && ps != [] && InDomain(ps[|ps| - 1].pos, home)
    ensures Buckets(ps, home, g, boxes, n) == Buckets(ps[..|ps| - 1], home, g, boxes, n)
  {
    var bs := Buckets(ps, home, g, boxes, n);
    var bs0 := Buckets(ps[..|ps| - 1], home, g, boxes, n);
    forall e | 0 <= e < n
      ensures bs[e] == bs0[e]
    {
      assert bs[e] == bs0[e] + [];
    }
  }

  /** A particle that leaves for d adds itself to the multiset of the send buffer. */
  lemma BucketsTakeLeaving(ps: seq<Particle>, home: Box, g: Grid, boxes: seq<Box>, n: nat)
    requires g.Valid() && ps != []
    requires !InDomain(ps[|ps| - 1].pos, home) && 0 <= Route(ps[|ps| - 1].pos, g, boxes) < n
    ensures BagSum(Bags(Buckets(ps, home, g, boxes, n)))
            == BagSum(Bags(Buckets(ps[..|ps| - 1], home, g, boxes, n))) + multiset{ps[|ps| - 1]}
  {
    var last := ps[|ps| - 1];
    var bags := Bags(Buckets(ps, home, g, boxes, n));
    var bags0 := Bags(Buckets(ps[..|ps| - 1], home, g, boxes, n));
    var d := Route(last.pos, g, boxes);
    var single := seq(n, e requires 0 <= e < n => if e == d then multiset{last} else multiset{});
    forall e | 0 <= e < n
      ensures bags[e] == bags0[e] + single[e]
    {
    }
    BagSumPointwise(bags0, single, bags);
    SingleBag(single, d, last);
  }

  /** Adding one more particle to ps adds it to at most one send bucket. */
  lemma SendBufferStep(ps: seq<Particle>, home: Box, g: Grid, boxes: seq<Box>, n: nat)
    requires g.Valid() && ps != []
    requires !InDomain(ps[|ps| - 1].pos, home) ==> 0 <= Route(ps[|ps| - 1].pos, g, boxes) < n
    ensures multiset(SendBuffer(ps, home, g, boxes, n))
            == multiset(SendBuffer(ps[..|ps| - 1], home, g, boxes, n))
               + (if InDomain(ps[|ps| - 1].pos, home) then multiset{} else multiset{ps[|ps| - 1]})
  {
    BagOfConcat(Buckets(ps, home, g, boxes, n));
    BagOfConcat(Buckets(ps[..|ps| - 1], home, g, boxes, n));
    if InDomain(ps[|ps| - 1].pos, home) {
      BucketsIgnoreStaying(ps, home, g, boxes, n);
    } else {
      BucketsTakeLeaving(ps, home, g, boxes, n);
    }
  }

  /**
   * Pass 2 loses nothing: the particles of a process are what it keeps plus
   * what it sends, provided every leaving particle has a destination rank.
   */
  lemma {:induction false} KeptAndSentPartition(ps: seq<Particle>, home: Box, g: Grid, boxes: seq<Box>, n: nat)
    requires g.Valid() && RoutedWithin(ps, home, g, boxes, n)
    ensures multiset(ps) == multiset(Kept(ps, home)) + multiset(SendBuffer(ps, home, g, boxes, n))
    decreases |ps|
  {
    if ps == [] {
      var bs := Buckets(ps, home, g, boxes, n);
      ConcatOfEmpties(bs);
    } else {
      var k := |ps| - 1;
      var init := ps[..k];
      var last := ps[k];
      assert ps == init + [last];
      assert RoutedWithin(init, home, g, boxes, n) by {
        forall i | 0 <= i < |init| && !InDomain(init[i].pos, home)
          ensures 0 <= Route(init[i].pos, g, boxes) < n
        {
          assert init[i] == ps[i];
        }
      }
      KeptAndSentPartition(init, home, g, boxes, n);
      SendBufferStep(ps, home, g, boxes, n);
    }
  }

  /** Counted: kept plus sent is the local count before the exchange (iloc = nloc - nsendtot). */
  lemma KeptAndSentCount(ps: seq<Particle>, home: Box, g: Grid, boxes: seq<Box>, n: nat)
    requires g.Valid() && RoutedWithin(ps, home, g, boxes, n)
    ensures |Kept(ps, home)| + |SendBuffer(ps, home, g, boxes, n)| == |ps|
  {
    KeptAndSentPartition(ps, home, g, boxes, n);
    assert |multiset(ps)| == |ps|;
  }

  /** A sequence of multisets empty except for {x} at d sums to {x}. */
  lemma {:induction false} SingleBag(single: seq<multiset<Particle>>, d: int, x: Particle)
    requires 0 <= d < |single|
    requires forall e :: 0 <= e < |single| ==> single[e] == if e == d then multiset{x} else multiset{}
    ensures BagSum(single) == multiset{x}
    decreases |single|
  {
    var k := |single| - 1;
    if k == d {
      AllEmptyBags(single[..k]);
    } else {
      SingleBag(single[..k], d, x);
    }
  }

  lemma {:induction false} AllEmptyBags(bs: seq<multiset<Particle>>)
    requires forall e :: 0 <= e < |bs| ==> bs[e] == multiset{}
    ensures BagSum(bs) == multiset{}
    decreases |bs|
  {
    if bs != [] {
      AllEmptyBags(bs[..|bs| - 1]);
    }
  }

  /**
   * Each particle routes to a rank whose box holds it: what a tiling
   * guarantees for every position inside the root (see TilingOwns).
   */
  predicate Owned(ps: seq<Particle>, g: Grid, boxes: seq<Box>)
    requires g.Valid()
  {
    forall i :: 0 <= i < |ps| ==>
      0 <= Route(ps[i].pos, g, boxes) < |boxes| && InDomain(ps[i].pos, boxes[Route(ps[i].pos, g, boxes)])
  }

  lemma TilingOwnsOne(ps: seq<Particle>, root: Box, g: Grid, boxes: seq<Box>, c: Cuts)
    requires Tiling(root, g, boxes, c) && AllInside(ps, root)
    ensures Owned(ps, g, boxes)
  {
    forall i | 0 <= i < |ps|
      ensures 0 <= Route(ps[i].pos, g, boxes) < |boxes| && InDomain(ps[i].pos, boxes[Route(ps[i].pos, g, boxes)])
    {
      var _, _, _ := RouteFindsOwner(ps[i].pos, root, g, boxes, c);
    }
  }

  /** An owned particle leaves its process only for another rank: nsend1[rank] stays 0. */
  lemma NoSelfSend(ps: seq<Particle>, g: Grid, boxes: seq<Box>, s: int)
    requires g.Valid() && Owned(ps, g, boxes) && 0 <= s < |boxes|
    ensures Outgoing(ps, boxes[s], g, boxes, s) == []
  {
    var out := Outgoing(ps, boxes[s], g, boxes, s);
    if out != [] {
      OutgoingMembers(ps, boxes[s], g, boxes, s);
      assert out[0] in out;
      OwnedStaysHome(ps, g, boxes, s, out[0]);
      assert false;
    }
  }

  lemma OwnedStaysHome(ps: seq<Particle>, g: Grid, boxes: seq<Box>, s: int, p: Particle)
    requires g.Valid() && Owned(ps, g, boxes) && 0 <= s < |boxes|
    requires p in ps && Route(p.pos, g, boxes) == s
    ensures InDomain(p.pos, boxes[s])
  {
    var i :| 0 <= i < |ps| && ps[i] == p;
  }

  lemma OwnedRoutesWithin(ps: seq<Particle>, home: Box, g: Grid, boxes: seq<Box>)
    requires g.Valid() && Owned(ps, g, boxes)
    ensures RoutedWithin(ps, home, g, boxes, |boxes|)
  {
  }

  // ---------------------------------------------------------------------------
  // All processes

  /** What process r receives: the bucket for r of every sender, in sender-rank order. */
  function Inbox(stores: seq<seq<Particle>>, g: Grid, boxes: seq<Box>, r: int): (in_: seq<seq<Particle>>)
    requires g.Valid() && |stores| <= |boxes|
    ensures |in_| == |stores|
    ensures forall s :: 0 <= s < |stores| ==> in_[s] == Outgoing(stores[s], boxes[s], g, boxes, r)
  {
    seq(|stores|, s requires 0 <= s < |stores| => Outgoing(stores[s], boxes[s], g, boxes, r))
  }

  /** The local stores of all processes after exchangeParticle. */
  function Exchanged(stores: seq<seq<Particle>>, g: Grid, boxes: seq<Box>): (after: seq<seq<Particle>>)
    requires g.Valid() && |stores| == |boxes|
    ensures |after| == |stores|
    ensures forall r :: 0 <= r < |stores| ==>
              after[r] == Kept(stores[r], boxes[r]) + Concat(Inbox(stores, g, boxes, r))
  {
    seq(|stores|, r requires 0 <= r < |stores| => Kept(stores[r], boxes[r]) + Concat(Inbox(stores, g, boxes, r)))
  }

  /** Every process's particles lie in the root. */
  predicate EveryInside(stores: seq<seq<Particle>>, root: Box) {
    forall r :: 0 <= r < |stores| ==> AllInside(stores[r], root)
  }

  predicate EveryOwned(stores: seq<seq<Particle>>, g: Grid, boxes: seq<Box>)
    requires g.Valid()
  {
    forall r :: 0 <= r < |stores| ==> Owned(stores[r], g, boxes)
  }

  /** Under a tiling, particles inside the root are owned by the box that holds them. */
  lemma TilingOwns(stores: seq<seq<Particle>>, root: Box, g: Grid, boxes: seq<Box>, c: Cuts)
    requires Tiling(root, g, boxes, c) && EveryInside(stores, root)
    ensures EveryOwned(stores, g, boxes)
  {
    forall r | 0 <= r < |stores|
      ensures Owned(stores[r], g, boxes)
    {
      TilingOwnsOne(stores[r], root, g, boxes, c);
    }
  }

  /** The count matrix: entry [s][r] is the multiset process s sends to process r. */
  function SendMatrix(stores: seq<seq<Particle>>, g: Grid, boxes: seq<Box>): (m: seq<seq<multiset<Particle>>>)
    requires g.Valid() && |stores| == |boxes|
    ensures |m| == |stores|
    ensures Rect(m, |boxes|)
    ensures forall s, r :: 0 <= s < |m| && 0 <= r < |boxes| ==>
              m[s][r] == multiset(Outgoing(stores[s], boxes[s], g, boxes, r))
  {
    seq(|stores|, s requires 0 <= s < |stores| => Bags(Buckets(stores[s], boxes[s], g, boxes, |boxes|)))
  }

  /** Column r of the send matrix is what process r receives. */
  lemma ColumnIsInbox(stores: seq<seq<Particle>>, g: Grid, boxes: seq<Box>, r: int)
    requires g.Valid() && |stores| == |boxes| && 0 <= r < |boxes|
    ensures multiset(Concat(Inbox(stores, g, boxes, r))) == BagSum(Column(SendMatrix(stores, g, boxes), |boxes|, r))
  {
    var in_ := Inbox(stores, g, boxes, r);
    BagOfConcat(in_);
    assert Bags(in_) == Column(SendMatrix(stores, g, boxes), |boxes|, r);
  }

  /** Row s of the send matrix, with what s keeps, is everything s held. */
  lemma RowIsStore(stores: seq<seq<Particle>>, g: Grid, boxes: seq<Box>, s: int)
    requires g.Valid() && |stores| == |boxes| && 0 <= s < |boxes|
    requires RoutedWithin(stores[s], boxes[s], g, boxes, |boxes|)
    ensures multiset(stores[s]) == multiset(Kept(stores[s], boxes[s])) + BagSum(SendMatrix(stores, g, boxes)[s])
  {
    var bs := Buckets(stores[s], boxes[s], g, boxes, |boxes|);
    KeptAndSentPartition(stores[s], boxes[s], g, boxes, |boxes|);
    BagOfConcat(bs);
    assert Bags(bs) == SendMatrix(stores, g, boxes)[s];
  }

  /** What each process keeps, as multisets. */
  function KeptBags(stores: seq<seq<Particle>>, boxes: seq<Box>): (k: seq<multiset<Particle>>)
    requires |stores| == |boxes|
    ensures |k| == |stores|
    ensures forall r :: 0 <= r < |stores| ==> k[r] == multiset(Kept(stores[r], boxes[r]))
  {
    seq(|stores|, r requires 0 <= r < |stores| => multiset(Kept(stores[r], boxes[r])))
  }

  /** After the exchange, process r holds what it kept plus column r of the send matrix. */
  lemma ExchangedBag(stores: seq<seq<Particle>>, g: Grid, boxes: seq<Box>, r: int)
    requires g.Valid() && |stores| == |boxes| && 0 <= r < |boxes|
    ensures multiset(Exchanged(stores, g, boxes)[r])
            == KeptBags(stores, boxes)[r] + ColumnTotals(SendMatrix(stores, g, boxes), |boxes|)[r]
  {
    ColumnIsInbox(stores, g, boxes, r);
  }

  /** Summed over processes: after = kept + columns of the send matrix. */
  lemma AfterTotal(stores: seq<seq<Particle>>, g: Grid, boxes: seq<Box>)
    requires g.Valid() && |stores| == |boxes|
    ensures BagSum(Bags(Exchanged(stores, g, boxes)))
            == BagSum(KeptBags(stores, boxes)) + BagSum(ColumnTotals(SendMatrix(stores, g, boxes), |boxes|))
  {
    var after := Exchanged(stores, g, boxes);
    var m := SendMatrix(stores, g, boxes);
    var kept := KeptBags(stores, boxes);
    forall r | 0 <= r < |boxes|
      ensures Bags(after)[r] == kept[r] + ColumnTotals(m, |boxes|)[r]
    {
      ExchangedBag(stores, g, boxes, r);
    }
    BagSumPointwise(kept, ColumnTotals(m, |boxes|), Bags(after));
  }

  /** Summed over processes: before = kept + rows of the send matrix. */
  lemma BeforeTotal(stores: seq<seq<Particle>>, g: Grid, boxes: seq<Box>)
    requires g.Valid() && |stores| == |boxes| && EveryOwned(stores, g, boxes)
    ensures BagSum(Bags(stores))
            == BagSum(KeptBags(stores, boxes)) + BagSum(RowTotals(SendMatrix(stores, g, boxes)))
  {
    var m := SendMatrix(stores, g, boxes);
    var kept := KeptBags(stores, boxes);
    forall s | 0 <= s < |boxes|
      ensures Bags(stores)[s] == kept[s] + RowTotals(m)[s]
    {
      OwnedRoutesWithin(stores[s], boxes[s], g, boxes);
      RowIsStore(stores, g, boxes, s);
    }
    BagSumPointwise(kept, RowTotals(m), Bags(stores));
  }

  /** No particle is lost or duplicated: the exchange permutes the union of all stores. */
  lemma Conservation(stores: seq<seq<Particle>>, g: Grid, boxes: seq<Box>)
    requires g.Valid() && |stores| == |boxes| && EveryOwned(stores, g, boxes)
    ensures multiset(Concat(Exchanged(stores, g, boxes))) == multiset(Concat(stores))
    ensures |Concat(Exchanged(stores, g, boxes))| == |Concat(stores)|
  {
    var after := Exchanged(stores, g, boxes);
    RowsEqualColumns(SendMatrix(stores, g, boxes), |boxes|);
    AfterTotal(stores, g, boxes);
    BeforeTotal(stores, g, boxes);
    BagOfConcat(after);
    BagOfConcat(stores);
    assert |multiset(Concat(after))| == |Concat(after)|;
    assert |multiset(Concat(stores))| == |Concat(stores)|;
  }

  /** Some part of a concatenation holds each of its elements. */
  lemma {:induction false} InConcat(parts: seq<seq<Particle>>, p: Particle) returns (s: int)
    requires p in Concat(parts)
    ensures 0 <= s < |parts| && p in parts[s]
    decreases |parts|
  {
    var k := |parts| - 1;
    if p in parts[k] {
      s := k;
    } else {
      s := InConcat(parts[..k], p);
    }
  }

  /** A particle received by r is owned by r. */
  lemma ReceivedIsOwned(stores: seq<seq<Particle>>, g: Grid, boxes: seq<Box>, r: int, p: Particle)
    requires g.Valid() && |stores| == |boxes| && EveryOwned(stores, g, boxes) && 0 <= r < |boxes|
    requires p in Concat(Inbox(stores, g, boxes, r))
    ensures InDomain(p.pos, boxes[r])
  {
    var s := InConcat(Inbox(stores, g, boxes, r), p);
    OutgoingMembers(stores[s], boxes[s], g, boxes, r);
    assert p in stores[s];
    var i :| 0 <= i < |stores[s]| && stores[s][i] == p;
    assert Owned(stores[s], g, boxes);
  }

  lemma KeptIsHome(ps: seq<Particle>, home: Box)
    ensures AllInside(Kept(ps, home), home)
  {
    var kept := Kept(ps, home);
    KeptMembers(ps, home);
    forall i | 0 <= i < |kept|
      ensures InDomain(kept[i].pos, home)
    {
      assert kept[i] in kept;
    }
  }

  lemma ReceivedIsHome(stores: seq<seq<Particle>>, g: Grid, boxes: seq<Box>, r: int)
    requires g.Valid() && |stores| == |boxes| && EveryOwned(stores, g, boxes) && 0 <= r < |boxes|
    ensures AllInside(Concat(Inbox(stores, g, boxes, r)), boxes[r])
  {
    var recv := Concat(Inbox(stores, g, boxes, r));
    forall i | 0 <= i < |recv|
      ensures InDomain(recv[i].pos, boxes[r])
    {
      ReceivedIsOwned(stores, g, boxes, r, recv[i]);
    }
  }

  /** After the exchange every particle on process r lies in r's domain. */
  lemma OwnershipAt(stores: seq<seq<Particle>>, g: Grid, boxes: seq<Box>, r: int)
    requires g.Valid() && |stores| == |boxes| && EveryOwned(stores, g, boxes) && 0 <= r < |boxes|
    ensures AllInside(Exchanged(stores, g, boxes)[r], boxes[r])
  {
    var kept := Kept(stores[r], boxes[r]);
    var recv := Concat(Inbox(stores, g, boxes, r));
    KeptIsHome(stores[r], boxes[r]);
    ReceivedIsHome(stores, g, boxes, r);
    assert Exchanged(stores, g, boxes)[r] == kept + recv;
    AllInsideAppend(kept, recv, boxes[r]);
  }

  lemma AllInsideAppend(a: seq<Particle>, b: seq<Particle>, home: Box)
    requires AllInside(a, home) && AllInside(b, home)
    ensures AllInside(a + b, home)
  {
    forall i | 0 <= i < |a + b|
      ensures InDomain((a + b)[i].pos, home)
    {
      if i >= |a| {
        assert (a + b)[i] == b[i - |a|];
      }
    }
  }

  /** After the exchange every particle sits on the process whose domain holds it. */
  lemma Ownership(stores: seq<seq<Particle>>, g: Grid, boxes: seq<Box>)
    requires g.Valid() && |stores| == |boxes| && EveryOwned(stores, g, boxes)
    ensures forall r :: 0 <= r < |stores| ==> AllInside(Exchanged(stores, g, boxes)[r], boxes[r])
  {
    forall r | 0 <= r < |stores|
      ensures AllInside(Exchanged(stores, g, boxes)[r], boxes[r])
    {
      OwnershipAt(stores, g, boxes, r);
    }
  }

  lemma {:induction false} KeepAll(ps: seq<Particle>, home: Box, g: Grid, boxes: seq<Box>, d: int)
    requires g.Valid() && AllInside(ps, home)
    ensures Kept(ps, home) == ps
    ensures Outgoing(ps, home, g, boxes, d) == []
    decreases |ps|
  {
    if ps != [] {
      var k := |ps| - 1;
      KeepAll(ps[..k], home, g, boxes, d);
      assert ps == ps[..k] + [ps[k]];
    }
  }

  lemma {:induction false} ConcatOfEmpties(parts: seq<seq<Particle>>)
    requires forall s :: 0 <= s < |parts| ==> parts[s] == []
    ensures Concat(parts) == []
    decreases |parts|
  {
    if parts != [] {
      ConcatOfEmpties(parts[..|parts| - 1]);
    }
  }

  /** Exchanging again right after an exchange moves nothing. */
  lemma ExchangeIdempotent(stores: seq<seq<Particle>>, g: Grid, boxes: seq<Box>)
    requires g.Valid() && |stores| == |boxes| && EveryOwned(stores, g, boxes)
    ensures Exchanged(Exchanged(stores, g, boxes), g, boxes) == Exchanged(stores, g, boxes)
  {
    var after: seq<seq<Particle>> := Exchanged(stores, g, boxes);
    Ownership(stores, g, boxes);
    forall r | 0 <= r < |after|
      ensures Exchanged(after, g, boxes)[r] == after[r]
    {
      var in_ := Inbox(after, g, boxes, r);
      forall s | 0 <= s < |after|
        ensures in_[s] == []
      {
        KeepAll(after[s], boxes[s], g, boxes, r);
      }
      ConcatOfEmpties(in_);
      KeepAll(after[r], boxes[r], g, boxes, r);
    }
  }
}
