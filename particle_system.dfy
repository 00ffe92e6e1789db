/**
 * The particle container of one process: its local particles, the send and
 * receive buffers of the exchange, and the one-shot configuration flags.
 * The collective step that runs exchangeParticle on every process at once
 * sits after the class.
 */
module ParticleSystems {
  import opened Domain
  import opened Sums
  import opened Particles
  import opened Exchange
  import opened Wrap
  import opened Sampling
  import opened Ring
  import opened Layout

  /** Every particle moved to its periodic image in the root domain. */
  function Adjusted(ps: seq<Particle>, root: Box): (r: seq<Particle>)
    requires PositiveLengths(root)
    ensures |r| == |ps|
    ensures forall i :: 0 <= i < |ps| ==> r[i].attrs == ps[i].attrs
  {
    seq(|ps|, i requires 0 <= i < |ps| => ps[i].(pos := WrapPosition(ps[i].pos, root)))
  }

  /** After adjustPositionIntoRootDomain every particle lies in the root, and particles already there have not moved. */
  lemma AdjustedInside(ps: seq<Particle>, root: Box)
    requires PositiveLengths(root)
    ensures AllInside(Adjusted(ps, root), root)
    ensures forall i :: 0 <= i < |ps| && InDomain(ps[i].pos, root) ==> Adjusted(ps, root)[i] == ps[i]
  {
  }

  /** Adjusting twice is adjusting once. */
  lemma AdjustedIdempotent(ps: seq<Particle>, root: Box)
    requires PositiveLengths(root)
    ensures Adjusted(Adjusted(ps, root), root) == Adjusted(ps, root)
  {
    var once := Adjusted(ps, root);
    forall i | 0 <= i < |ps|
      ensures Adjusted(once, root)[i] == once[i]
    {
      WrapIdempotent(ps[i].pos, root);
    }
  }

  /** The receive request post has completed: the message of its peer sits at its address in buf. */
  ghost predicate Delivered(buf: seq<Particle>, post: Post, incoming: seq<seq<Particle>>) {
    && 0 <= post.peer < |incoming|
    && 0 <= post.addr && post.addr + |incoming[post.peer]| <= |buf|
    && buf[post.addr .. post.addr + |incoming[post.peer]|] == incoming[post.peer]
  }

  /**
   * Completing receive t writes its message over its own bucket of
   * ptcl_recv_, which no earlier receive of the schedule shares.
   */
  lemma DeliverStep(buf: seq<Particle>, rank: int, nproc: int, nrecv0: seq<int>, nrecv1: seq<int>,
                    recvs: seq<Post>, t: int, incoming: seq<seq<Particle>>)
    requires 0 <= rank < nproc && |nrecv0| == |nrecv1| == |incoming| == nproc
    requires forall s :: 0 <= s < nproc ==> |incoming[s]| == nrecv1[s]
    requires forall d :: 0 <= d < nproc ==> nrecv0[d] == PrefixSums(nrecv1)[d]
    requires |buf| == Sum(nrecv1)
    requires Schedule(recvs, rank, nproc, nproc, false, nrecv0, nrecv1) && 0 <= t < |recvs|
    requires forall u :: 0 <= u < t ==> Delivered(buf, recvs[u], incoming)
    ensures 0 <= recvs[t].addr && recvs[t].addr + |incoming[recvs[t].peer]| <= |buf|
    ensures forall u :: 0 <= u <= t ==> Delivered(Splice(buf, recvs[t].addr, incoming[recvs[t].peer]), recvs[u], incoming)
  {
    var p := recvs[t].peer;
    BucketInside(nrecv1, p);
    assert 0 <= recvs[t].addr && recvs[t].addr + |incoming[p]| <= |buf|;
    assert Delivered(Splice(buf, recvs[t].addr, incoming[p]), recvs[t], incoming);
    forall u | 0 <= u < t
      ensures Delivered(Splice(buf, recvs[t].addr, incoming[p]), recvs[u], incoming)
    {
      EarlierStaysDelivered(buf, rank, nproc, nrecv0, nrecv1, recvs, t, u, incoming);
    }
  }

  /** Receive u before t has a different peer, hence a bucket apart from the one receive t writes. */
  lemma EarlierStaysDelivered(buf: seq<Particle>, rank: int, nproc: int, nrecv0: seq<int>, nrecv1: seq<int>,
                              recvs: seq<Post>, t: int, u: int, incoming: seq<seq<Particle>>)
    requires 0 <= rank < nproc && |nrecv0| == |nrecv1| == |incoming| == nproc
    requires forall s :: 0 <= s < nproc ==> |incoming[s]| == nrecv1[s]
    requires forall d :: 0 <= d < nproc ==> nrecv0[d] == PrefixSums(nrecv1)[d]
    requires |buf| == Sum(nrecv1)
    requires Schedule(recvs, rank, nproc, nproc, false, nrecv0, nrecv1) && 0 <= u < t < |recvs|
    requires Delivered(buf, recvs[u], incoming)
    ensures 0 <= recvs[t].addr && recvs[t].addr + |incoming[recvs[t].peer]| <= |buf|
    ensures Delivered(Splice(buf, recvs[t].addr, incoming[recvs[t].peer]), recvs[u], incoming)
  {
    assert NonNegative(nrecv1);
    var p, q := recvs[t].peer, recvs[u].peer;
    BucketInside(nrecv1, p);
    PeersDistinct(recvs, rank, nproc, false, nrecv0, nrecv1, u, t);
    if q < p {
      BucketsApart(nrecv1, q, p);
    } else {
      BucketsApart(nrecv1, p, q);
    }
    DeliveredKept(buf, recvs[t].addr, incoming[p], recvs[u], incoming);
  }

  /** A splice that misses the bucket of a completed receive leaves it completed. */
  lemma DeliveredKept(buf: seq<Particle>, a: int, v: seq<Particle>, post: Post, incoming: seq<seq<Particle>>)
    requires 0 <= a && a + |v| <= |buf| && Delivered(buf, post, incoming)
    requires post.addr + |incoming[post.peer]| <= a || a + |v| <= post.addr
    ensures Delivered(Splice(buf, a, v), post, incoming)
  {
    SpliceKeeps(buf, a, v, post.addr, post.addr + |incoming[post.peer]|);
  }

  /**
   * Once every receive of the schedule has completed, ptcl_recv_ holds the
   * messages one after another in source-rank order: ranks with nothing to
   * send here have empty buckets and are skipped.
   */
  lemma AllDelivered(buf: seq<Particle>, rank: int, nproc: int, nrecv0: seq<int>, nrecv1: seq<int>,
                     recvs: seq<Post>, incoming: seq<seq<Particle>>)
    requires 0 <= rank < nproc && |nrecv0| == |nrecv1| == |incoming| == nproc
    requires forall s :: 0 <= s < nproc ==> |incoming[s]| == nrecv1[s]
    requires forall d :: 0 <= d < nproc ==> nrecv0[d] == PrefixSums(nrecv1)[d]
    requires nrecv1[rank] == 0 && |buf| == Sum(nrecv1)
    requires Schedule(recvs, rank, nproc, nproc, false, nrecv0, nrecv1)
    requires forall u :: 0 <= u < |recvs| ==> Delivered(buf, recvs[u], incoming)
    ensures buf == Concat(incoming)
  {
    assert Lengths(incoming) == nrecv1;
    ConcatLength(incoming);
    forall s | 0 <= s < nproc
      ensures Placed(buf, incoming, s)
    {
      PlacedFromSchedule(buf, rank, nproc, nrecv0, nrecv1, recvs, incoming, s);
    }
    SlicesDetermine(buf, incoming);
  }

  /** The message from s is in place: through its receive if it is not empty, trivially if it is. */
  lemma PlacedFromSchedule(buf: seq<Particle>, rank: int, nproc: int, nrecv0: seq<int>, nrecv1: seq<int>,
                           recvs: seq<Post>, incoming: seq<seq<Particle>>, s: int)
    requires 0 <= rank < nproc && |nrecv0| == |nrecv1| == |incoming| == nproc
    requires Lengths(incoming) == nrecv1 && nrecv1[rank] == 0 && 0 <= s < nproc
    requires forall d :: 0 <= d < nproc ==> nrecv0[d] == PrefixSums(nrecv1)[d]
    requires |buf| == |Concat(incoming)|
    requires Schedule(recvs, rank, nproc, nproc, false, nrecv0, nrecv1)
    requires forall u :: 0 <= u < |recvs| ==> Delivered(buf, recvs[u], incoming)
    ensures Placed(buf, incoming, s)
  {
    PrefixSumsAreOffsets(incoming, s);
    ConcatSlice(incoming, s);
    if nrecv1[s] > 0 {
      var u := PeerIsPosted(recvs, rank, nproc, false, nrecv0, nrecv1, s);
      assert nrecv0[s] == Offset(incoming, s);
      PlacedByPost(buf, incoming, s, recvs[u]);
    } else {
      assert incoming[s] == [];
    }
  }

  /** A completed receive from s at the offset of part s places that part. */
  lemma PlacedByPost(buf: seq<Particle>, incoming: seq<seq<Particle>>, s: int, post: Post)
    requires 0 <= s < |incoming| && Delivered(buf, post, incoming)
    requires post.peer == s && post.addr == Offset(incoming, s)
    requires Offset(incoming, s) + |incoming[s]| == Offset(incoming, s + 1)
    ensures Placed(buf, incoming, s)
  {
  }

  /** Before pass 2 every bucket is empty and the buckets are laid out inside ptcl_send_. */
  lemma PassTwoStart(original: seq<Particle>, home: Box, g: Grid, boxes: seq<Box>, n: nat,
                     nsend0: seq<int>, counted: seq<int>, send: seq<Particle>, zeros: seq<int>)
    requires g.Valid() && counted == Lengths(Buckets(original, home, g, boxes, n))
    requires |send| == |SendBuffer(original, home, g, boxes, n)|
    requires |nsend0| == n && forall d :: 0 <= d < n ==> nsend0[d] == PrefixSums(counted)[d]
    requires |zeros| == n && forall d :: 0 <= d < n ==> zeros[d] == 0
    ensures LaidOut(nsend0, counted, |send|)
    ensures zeros == Lengths(Buckets(original[..0], home, g, boxes, n))
    ensures Filled(send, nsend0, Buckets(original[..0], home, g, boxes, n))
  {
    ConcatLength(Buckets(original, home, g, boxes, n));
    PrefixSumsLayOut(nsend0, counted);
    assert Lengths(Buckets(original[..0], home, g, boxes, n)) == zeros;
  }

  /** After pass 2 the front of ptcl_ is what is kept and ptcl_send_ is the send buffer. */
  lemma PassTwoEnd(original: seq<Particle>, home: Box, g: Grid, boxes: seq<Box>, n: nat, nsend0: seq<int>,
                   counted: seq<int>, local: seq<Particle>, send: seq<Particle>, nsend1: seq<int>, iloc: int)
    requires g.Valid() && counted == Lengths(Buckets(original, home, g, boxes, n))
    requires |send| == |SendBuffer(original, home, g, boxes, n)|
    requires |nsend0| == n && forall d :: 0 <= d < n ==> nsend0[d] == PrefixSums(counted)[d]
    requires PassTwo(original, home, g, boxes, n, nsend0, local, send, nsend1, iloc, |original|)
    ensures 0 <= iloc <= |local| && local[..iloc] == Kept(original, home)
    ensures send == SendBuffer(original, home, g, boxes, n)
    ensures nsend1 == counted
  {
    assert original[..|original|] == original;
    FilledIsConcat(send, nsend0, Buckets(original, home, g, boxes, n));
  }

  /**
   * Pass 2 of exchangeParticle on a copy of ptcl_: every particle that stays
   * is moved down to the next free front slot, every other one is written to
   * the next free slot of its bucket in send, whose buckets start at nsend0.
   */
  method CompactAndScatter(original: seq<Particle>, home: Box, g: Grid, boxes: seq<Box>, nsend0: seq<int>,
                           counted: seq<int>, send0: seq<Particle>)
    returns (local: seq<Particle>, send: seq<Particle>, iloc: int, nsend1: seq<int>)
    requires g.Valid() && Owned(original, g, boxes)
    requires counted == Lengths(Buckets(original, home, g, boxes, |boxes|))
    requires |send0| == |SendBuffer(original, home, g, boxes, |boxes|)|
    requires |nsend0| == |boxes| && forall d :: 0 <= d < |boxes| ==> nsend0[d] == PrefixSums(counted)[d]
    ensures 0 <= iloc <= |local| == |original| && local[..iloc] == Kept(original, home)
    ensures send == SendBuffer(original, home, g, boxes, |boxes|)
    ensures nsend1 == counted
  {
    var n := |boxes|;
    local, send := original, send0;
    nsend1 := seq(n, _ => 0);
    PassTwoStart(original, home, g, boxes, n, nsend0, counted, send, nsend1);
    iloc := 0;
    var ip := 0;
    while ip < |original|
      invariant PassTwo(original, home, g, boxes, n, nsend0, local, send, nsend1, iloc, ip)
      invariant |send| == |send0|
    {
      var x := local[ip];
      if InDomain(x.pos, home) {
        PassTwoKeep(original, home, g, boxes, n, nsend0, local, send, nsend1, iloc, ip);
        local := local[iloc := x];
        iloc := iloc + 1;
      } else {
        var srank := Route(x.pos, g, boxes);
        PassTwoSend(original, home, g, boxes, n, nsend0, counted, local, send, nsend1, iloc, ip, srank);
        var jloc := nsend0[srank] + nsend1[srank];
        send := send[jloc := x];
        nsend1 := nsend1[srank := nsend1[srank] + 1];
      }
      ip := ip + 1;
    }
    PassTwoEnd(original, home, g, boxes, n, nsend0, counted, local, send, nsend1, iloc);
  }

  /**
   * What pass 1 has counted over all the particles is the size of every
   * bucket and of the whole send buffer, with nothing for the process itself.
   */
  lemma CountsCoverBuckets(ps: seq<Particle>, rank: int, root: Box, g: Grid, boxes: seq<Box>, c: Cuts,
                           nsend1: seq<int>, nsendtot: int)
    requires Tiling(root, g, boxes, c) && AllInside(ps, root) && 0 <= rank < |boxes|
    requires |nsend1| == |boxes|
    requires forall d :: 0 <= d < |boxes| ==> nsend1[d] == |Outgoing(ps, boxes[rank], g, boxes, d)|
    requires nsendtot == |ps| - |Kept(ps, boxes[rank])|
    ensures nsend1 == Lengths(Buckets(ps, boxes[rank], g, boxes, |boxes|))
    ensures nsendtot == |SendBuffer(ps, boxes[rank], g, boxes, |boxes|)|
    ensures nsend1[rank] == 0
  {
    TilingOwnsOne(ps, root, g, boxes, c);
    OwnedRoutesWithin(ps, boxes[rank], g, boxes);
    KeptAndSentCount(ps, boxes[rank], g, boxes, |boxes|);
    NoSelfSend(ps, g, boxes, rank);
  }

  /**
   * The state of pass 2 after ip particles: the kept ones among them fill
   * local[..iloc] in order, the rest of local is untouched, and each of
   * their buckets is in place in send with nsend1 counting it.
   */
  ghost predicate PassTwo(original: seq<Particle>, home: Box, g: Grid, boxes: seq<Box>, n: nat, nsend0: seq<int>,
                          local: seq<Particle>, send: seq<Particle>, nsend1: seq<int>, iloc: int, ip: int)
    requires g.Valid()
  {
    && 0 <= iloc <= ip <= |original| == |local|
    && local[..iloc] == Kept(original[..ip], home)
    && local[ip..] == original[ip..]
    && nsend1 == Lengths(Buckets(original[..ip], home, g, boxes, n))
    && |nsend0| == n
    && Filled(send, nsend0, Buckets(original[..ip], home, g, boxes, n))
  }

  /** One iteration of pass 2 for a particle that stays: it moves down to slot iloc. */
  lemma PassTwoKeep(original: seq<Particle>, home: Box, g: Grid, boxes: seq<Box>, n: nat, nsend0: seq<int>,
                    local: seq<Particle>, send: seq<Particle>, nsend1: seq<int>, iloc: int, ip: int)
    requires g.Valid() && n == |boxes| && Owned(original, g, boxes)
    requires PassTwo(original, home, g, boxes, n, nsend0, local, send, nsend1, iloc, ip) && ip < |original|
    requires InDomain(local[ip].pos, home)
    ensures PassTwo(original, home, g, boxes, n, nsend0, local[iloc := local[ip]], send, nsend1, iloc + 1, ip + 1)
  {
    CompactStep(local, original, iloc, ip, home);
    BucketsStay(original, ip, home, g, boxes, n);
  }

  /** One iteration of pass 2 for a particle that leaves: it goes to the next free slot of bucket d. */
  lemma PassTwoSend(original: seq<Particle>, home: Box, g: Grid, boxes: seq<Box>, n: nat, nsend0: seq<int>,
                    counted: seq<int>, local: seq<Particle>, send: seq<Particle>, nsend1: seq<int>, iloc: int, ip: int,
                    d: int)
    requires g.Valid() && n == |boxes| && Owned(original, g, boxes)
    requires counted == Lengths(Buckets(original, home, g, boxes, n))
    requires |nsend0| == n && LaidOut(nsend0, counted, |send|)
    requires PassTwo(original, home, g, boxes, n, nsend0, local, send, nsend1, iloc, ip) && ip < |original|
    requires !InDomain(local[ip].pos, home) && d == Route(local[ip].pos, g, boxes)
    ensures 0 <= d < n && 0 <= nsend0[d] + nsend1[d] < |send|
    ensures PassTwo(original, home, g, boxes, n, nsend0, local, send[nsend0[d] + nsend1[d] := local[ip]],
                    nsend1[d := nsend1[d] + 1], iloc, ip + 1)
  {
    CompactStep(local, original, iloc, ip, home);
    ScatterParticle(send, nsend0, nsend1, original, ip, home, g, boxes, n);
  }

  /** The pass 2 step for one particle: one that stays moves down to iloc, one that leaves is skipped. */
  lemma CompactStep(buf: seq<Particle>, original: seq<Particle>, iloc: int, ip: int, home: Box)
    requires 0 <= iloc <= ip < |buf| == |original|
    requires buf[..iloc] == Kept(original[..ip], home) && buf[ip..] == original[ip..]
    ensures buf[ip] == original[ip]
    ensures InDomain(original[ip].pos, home) ==>
              buf[iloc := original[ip]][..iloc + 1] == Kept(original[..ip + 1], home)
              && buf[iloc := original[ip]][ip + 1..] == original[ip + 1..]
    ensures !InDomain(original[ip].pos, home) ==>
              buf[..iloc] == Kept(original[..ip + 1], home) && buf[ip + 1..] == original[ip + 1..]
  {
    assert buf[ip] == buf[ip..][0];
    KeptStep(original, ip, home);
    assert buf[ip + 1..] == buf[ip..][1..];
    assert original[ip + 1..] == original[ip..][1..];
    var moved := buf[iloc := original[ip]];
    assert moved[..iloc + 1] == buf[..iloc] + [original[ip]];
    assert moved[ip + 1..] == buf[ip + 1..];
  }

  /**
   * The pass 2 step for a particle that leaves: writing it at
   * nsend0[d] + nsend1[d] appends it to bucket d of the send buffer.
   */
  lemma ScatterParticle(buf: seq<Particle>, offs: seq<int>, cnt: seq<int>, original: seq<Particle>, ip: int,
                        home: Box, g: Grid, boxes: seq<Box>, n: nat)
    requires g.Valid() && 0 <= ip < |original| && !InDomain(original[ip].pos, home)
    requires 0 <= Route(original[ip].pos, g, boxes) < n
    requires |offs| == n && LaidOut(offs, Lengths(Buckets(original, home, g, boxes, n)), |buf|)
    requires cnt == Lengths(Buckets(original[..ip], home, g, boxes, n))
    requires Filled(buf, offs, Buckets(original[..ip], home, g, boxes, n))
    ensures var d := Route(original[ip].pos, g, boxes);
            && 0 <= offs[d] + cnt[d] < |buf|
            && Filled(buf[offs[d] + cnt[d] := original[ip]], offs, Buckets(original[..ip + 1], home, g, boxes, n))
            && cnt[d := cnt[d] + 1] == Lengths(Buckets(original[..ip + 1], home, g, boxes, n))
  {
    var d := Route(original[ip].pos, g, boxes);
    var cap := Lengths(Buckets(original, home, g, boxes, n));
    var parts := Buckets(original[..ip], home, g, boxes, n);
    var parts' := Buckets(original[..ip + 1], home, g, boxes, n);
    assert forall e :: 0 <= e < n ==> |parts[e]| <= cap[e] by {
      forall e | 0 <= e < n
        ensures |parts[e]| <= cap[e]
      {
        OutgoingGrows(original, home, g, boxes, e, ip);
      }
    }
    assert |parts[d]| < cap[d] by {
      PrefixStep(original, ip, home, g, boxes);
      OutgoingGrows(original, home, g, boxes, d, ip + 1);
    }
    assert parts' == parts[d := parts[d] + [original[ip]]] by {
      BucketsLeave(original, ip, home, g, boxes, n, d);
    }
    ScatterCounted(buf, offs, cap, cnt, parts, parts', d, original[ip]);
  }

  /** Sample slot i holds the position of the local particle of original index Picks(...)[i]. */
  lemma SampleIsPicked(original: seq<Particle>, draws: seq<int>, k: int)
    requires ValidDraws(draws, |original|, k)
    ensures forall i :: 0 <= i < k ==>
              0 <= Picks(draws, |original|, k)[i] < |original|
              && Positions(Shuffled(original, draws, k)[..k])[i] == original[Picks(draws, |original|, k)[i]].pos
  {
    ShuffledIsPicked(original, draws, k);
  }

  class ParticleSystem {
    /** ptcl_: the local particles. */
    var ptcl: seq<Particle>
    /** ptcl_send_: outgoing particles, bucket by destination rank. */
    var ptclSend: seq<Particle>
    /** ptcl_recv_: incoming particles, bucket by source rank. */
    var ptclRecv: seq<Particle>
    /** The slots reserved for ptcl_; reserve never shrinks it. */
    ghost var capacity: nat
    /** n_smp_ptcl_tot_: the target number of sample particles over all processes. */
    var nSmpPtclTot: int
    var firstCallBySetAverageTarget: bool
    var firstCallByInitialize: bool
    var firstCallByCollectSampleParticle: bool
    /** The number of processes. */
    const nProc: int

    ghost predicate Valid()
      reads this
    {
      nProc >= 1 && |ptcl| <= capacity
    }

    /** A fresh container: every one-shot flag set and 30 sample particles per process as the target. */
    constructor (nproc: int)
      requires nproc >= 1
      ensures Valid() && nProc == nproc
      ensures firstCallBySetAverageTarget && firstCallByInitialize && firstCallByCollectSampleParticle
      ensures nSmpPtclTot == 30 * nproc
      ensures ptcl == [] && ptclSend == [] && ptclRecv == []
    {
      nProc := nproc;
      ptcl, ptclSend, ptclRecv := [], [], [];
      capacity := 0;
      firstCallBySetAverageTarget := true;
      firstCallByInitialize := true;
      firstCallByCollectSampleParticle := true;
      nSmpPtclTot := 30 * nproc;
    }

    /** initialize may run once. */
    method Initialize()
      requires firstCallByInitialize
      modifies this`firstCallByInitialize
      ensures !firstCallByInitialize
    {
      firstCallByInitialize := false;
    }

    /** May run once: the sample target becomes nsample per process. */
    method SetAverageTargetNumberOfSampleParticlePerProcess(nsample: int)
      requires firstCallBySetAverageTarget
      modifies this`firstCallBySetAverageTarget, this`nSmpPtclTot
      ensures !firstCallBySetAverageTarget
      ensures nSmpPtclTot == nsample * nProc
    {
      firstCallBySetAverageTarget := false;
      nSmpPtclTot := nsample * nProc;
    }

    /** True on the first call and false on every later one: the flag never comes back. */
    method GetFirstCallByDomainInfoCollectSampleParticle() returns (first: bool)
      modifies this`firstCallByCollectSampleParticle
      ensures first == old(firstCallByCollectSampleParticle)
      ensures !firstCallByCollectSampleParticle
    {
      if firstCallByCollectSampleParticle {
        firstCallByCollectSampleParticle := false;
        return true;
      } else {
        return false;
      }
    }

    /** Reserve room for nLimit particles and empty the store. */
    method CreateParticle(nLimit: int)
      requires Valid()
      modifies this`ptcl, this`capacity
      ensures Valid()
      ensures ptcl == []
      ensures capacity >= old(capacity) && capacity >= nLimit
    {
      Reserve(nLimit);
      ptcl := Resized(ptcl, 0);
    }

    /** Reserve 3n + 1000 slots, then make the store n particles long, keeping the common prefix. */
    method SetNumberOfParticleLocal(n: nat)
      requires Valid()
      modifies this`ptcl, this`capacity
      ensures Valid()
      ensures |ptcl| == n
      ensures forall i :: 0 <= i < n && i < |old(ptcl)| ==> ptcl[i] == old(ptcl)[i]
      ensures capacity >= old(capacity) && capacity >= 3 * n + 1000
    {
      Reserve(3 * n + 1000);
      ptcl := Resized(ptcl, n);
    }

    /** reserve: grow the reserved slots to at least n. */
    method Reserve(n: int)
      requires Valid()
      modifies this`capacity
      ensures Valid()
      ensures capacity >= old(capacity) && capacity >= n
    {
      if n > capacity {
        capacity := n;
      }
    }

    /**
     * getSampleParticle: swap a drawn particle into each of the first k
     * slots, copy out their positions, and swap back in reverse order.
     * k0 is the weighted share of the sample target and limit its lower
     * bound; draws[i] is the index drawn at step i.
     */
    method GetSampleParticle(k0: int, limit: nat, draws: seq<int>) returns (k: int, posSample: seq<Vec>)
      requires ValidDraws(draws, |ptcl|, SampleCount(k0, limit, |ptcl|))
      modifies this`ptcl
      ensures ptcl == old(ptcl)
      ensures k == SampleCount(k0, limit, |ptcl|)
      ensures |posSample| == k
      ensures posSample == Positions(Shuffled(ptcl, draws, k)[..k])
      ensures forall i :: 0 <= i < k ==> posSample[i] == ptcl[Picks(draws, |ptcl|, k)[i]].pos
    {
      ghost var original := ptcl;
      var nloc := |ptcl|;
      k := if k0 > limit then k0 else limit;
      k := if k < nloc then k else nloc;
      assert k == SampleCount(k0, limit, nloc);
      var record := SwapForward(k, draws);
      posSample := [];
      var i := 0;
      while i < k
        invariant 0 <= i <= k && ptcl == Shuffled(original, draws, k)
        invariant posSample == Positions(ptcl[..i])
      {
        posSample := posSample + [ptcl[i].pos];
        i := i + 1;
      }
      SwapBack(record, k, draws, original);
      SampleIsPicked(original, draws, k);
    }

    /** The first loop of getSampleParticle: swap slot i with the drawn slot, noting the draw in record. */
    method SwapForward(k: int, draws: seq<int>) returns (record: array<int>)
      requires ValidDraws(draws, |ptcl|, k)
      modifies this`ptcl
      ensures fresh(record) && record.Length == k
      ensures ptcl == Shuffled(old(ptcl), draws, k)
      ensures forall m :: 0 <= m < k ==> record[m] == draws[m]
    {
      ghost var original := ptcl;
      record := new int[k];
      var i := 0;
      while i < k
        invariant 0 <= i <= k
        invariant ptcl == Shuffled(original, draws, i)
        invariant forall m :: 0 <= m < i ==> record[m] == draws[m]
      {
        var j := draws[i];
        ForwardStep(original, draws, k, i);
        var hold := ptcl[j];
        ptcl := ptcl[j := ptcl[i]][i := hold];
        record[i] := j;
        i := i + 1;
      }
    }

    /** The last loop of getSampleParticle: replay the recorded swaps backwards, restoring ptcl_. */
    method SwapBack(record: array<int>, k: int, draws: seq<int>, ghost original: seq<Particle>)
      requires ValidDraws(draws, |original|, k) && record.Length == k
      requires forall m :: 0 <= m < k ==> record[m] == draws[m]
      requires ptcl == Shuffled(original, draws, k)
      modifies this`ptcl
      ensures ptcl == Unshuffled(old(ptcl), draws, k)
      ensures ptcl == original
    {
      var i := k - 1;
      while i >= 0
        invariant -1 <= i < k && |ptcl| == |original|
        invariant ValidDraws(draws, |ptcl|, i + 1)
        invariant Unshuffled(ptcl, draws, i + 1) == Unshuffled(old(ptcl), draws, k)
      {
        var j := record[i];
        UnshuffleStep(ptcl, draws, i);
        var hold := ptcl[j];
        ptcl := ptcl[j := ptcl[i]][i := hold];
        i := i - 1;
      }
      UndoRestores(original, draws, k);
    }

    /**
     * adjustPositionIntoRootDomain: a particle outside the root has each
     * axis folded back by the root length; one inside keeps its position.
     */
    method AdjustPositionIntoRootDomain(root: Box)
      requires PositiveLengths(root)
      modifies this`ptcl
      ensures ptcl == Adjusted(old(ptcl), root)
    {
      ghost var original := ptcl;
      var i := 0;
      while i < |ptcl|
        invariant 0 <= i <= |ptcl| == |original|
        invariant ptcl[..i] == Adjusted(original, root)[..i]
        invariant ptcl[i..] == original[i..]
      {
        var posNew := ptcl[i].pos;
        if !InDomain(posNew, root) {
          var x := WrapCoordinateX(posNew.x, root.low.x, root.high.x);
          var y := WrapCoordinateYZ(posNew.y, root.low.y, root.high.y);
          var z := WrapCoordinateYZ(posNew.z, root.low.z, root.high.z);
          posNew := Vec(x, y, z);
        }
        assert ptcl[i] == original[i];
        ptcl := ptcl[i := ptcl[i].(pos := posNew)];
        i := i + 1;
      }
    }
    /**
     * Pass 1 of exchangeParticle: stop (the source aborts) at the first
     * particle outside the root; otherwise count, per destination, the
     * particles that leave this process's domain.
     */
    method CountOutgoing(rank: int, g: Grid, boxes: seq<Box>, root: Box, ghost c: Cuts)
      returns (aborted: bool, nsend1: seq<int>, nsendtot: int)
      requires Valid() && 0 <= rank < nProc == |boxes|
      requires Tiling(root, g, boxes, c)
      ensures aborted <==> !AllInside(ptcl, root)
      ensures !aborted ==> nsend1 == Lengths(Buckets(ptcl, boxes[rank], g, boxes, nProc))
      ensures !aborted ==> nsendtot == |SendBuffer(ptcl, boxes[rank], g, boxes, nProc)|
      ensures !aborted ==> nsend1[rank] == 0
    {
      var home := boxes[rank];
      var nloc := |ptcl|;
      nsend1 := seq(nProc, _ => 0);
      nsendtot := 0;
      var ip := 0;
      while ip < nloc
        invariant 0 <= ip <= nloc
        invariant AllInside(ptcl[..ip], root)
        invariant |nsend1| == nProc
        invariant forall d :: 0 <= d < nProc ==> nsend1[d] == |Outgoing(ptcl[..ip], home, g, boxes, d)|
        invariant nsendtot == ip - |Kept(ptcl[..ip], home)|
      {
        var p := ptcl[ip];
        if !InDomain(p.pos, root) {
          return true, nsend1, nsendtot;
        }
        PrefixStep(ptcl, ip, home, g, boxes);
        AllInsideStep(ptcl, ip, root);
        if !InDomain(p.pos, home) {
          ghost var i0, j0, k0 := RouteFindsOwner(p.pos, root, g, boxes, c);
          var srank := Route(p.pos, g, boxes);
          nsend1 := nsend1[srank := nsend1[srank] + 1];
          nsendtot := nsendtot + 1;
        }
        ip := ip + 1;
      }
      assert ptcl[..nloc] == ptcl;
      CountsCoverBuckets(ptcl, rank, root, g, boxes, c, nsend1, nsendtot);
      aborted := false;
    }

    /**
     * Pass 2 of exchangeParticle: compact the particles that stay to the
     * front of ptcl_ in their order, and write each leaving particle into
     * the next free slot of its destination's bucket of ptcl_send_.
     */
    method AlignSendParticles(rank: int, g: Grid, boxes: seq<Box>, nsend0: seq<int>, counted: seq<int>, nsendtot: int)
      returns (nsend1: seq<int>)
      requires Valid() && g.Valid() && 0 <= rank < nProc == |boxes|
      requires Owned(ptcl, g, boxes)
      requires counted == Lengths(Buckets(ptcl, boxes[rank], g, boxes, nProc))
      requires nsendtot == |SendBuffer(ptcl, boxes[rank], g, boxes, nProc)|
      requires |nsend0| == nProc && forall d :: 0 <= d < nProc ==> nsend0[d] == PrefixSums(counted)[d]
      modifies this`ptcl, this`ptclSend
      ensures Valid()
      ensures ptcl == Kept(old(ptcl), boxes[rank])
      ensures ptclSend == SendBuffer(old(ptcl), boxes[rank], g, boxes, nProc)
      ensures nsend1 == counted
    {
      var local, send, iloc;
      local, send, iloc, nsend1 := CompactAndScatter(ptcl, boxes[rank], g, boxes, nsend0, counted,
                                                     Resized(ptclSend, nsendtot));
      ptcl := local[..iloc];
      ptclSend := send;
    }

    /**
     * The rest of exchangeParticle once the counts are known: size
     * ptcl_recv_, post the ring of requests, let every receive complete
     * with the message of its source (incoming[s] is what rank s sent
     * here), and append the received particles to ptcl_.
     */
    method ReceiveParticles(rank: int, nsend0: seq<int>, nsend1: seq<int>, nrecv1: seq<int>, incoming: seq<seq<Particle>>)
      requires Valid() && 0 <= rank < nProc
      requires |nsend0| == |nsend1| == |nrecv1| == |incoming| == nProc
      requires forall s :: 0 <= s < nProc ==> |incoming[s]| == nrecv1[s]
      requires nrecv1[rank] == 0
      modifies this`ptcl, this`ptclRecv, this`capacity
      ensures Valid()
      ensures ptclRecv == Concat(incoming)
      ensures ptcl == old(ptcl) + Concat(incoming)
    {
      var nrecvtot := 0;
      var i := 0;
      while i < nProc
        invariant 0 <= i <= nProc && nrecvtot == Sum(nrecv1[..i])
        invariant ptcl == old(ptcl) && capacity == old(capacity)
      {
        SumPrefixStep(nrecv1, i);
        nrecvtot := nrecvtot + nrecv1[i];
        i := i + 1;
      }
      assert nrecv1[..nProc] == nrecv1;
      assert Lengths(incoming) == nrecv1;
      ConcatLength(incoming);
      ptclRecv := Resized(ptclRecv, nrecvtot);
      var nrecv0 := Offsets(nrecv1);
      var sends, recvs := PostRequests(rank, nProc, nsend0, nsend1, nrecv0, nrecv1);
      WaitReceives(rank, nrecv0, nrecv1, recvs, incoming);
      AppendReceived();
    }

    /**
     * MPI_Waitall over the posted receives: each completed receive writes its
     * message at its offset in ptcl_recv_, which then holds every message in
     * source-rank order.
     */
    method WaitReceives(rank: int, nrecv0: seq<int>, nrecv1: seq<int>, recvs: seq<Post>, incoming: seq<seq<Particle>>)
      requires 0 <= rank < nProc && |nrecv0| == |nrecv1| == |incoming| == nProc
      requires forall s :: 0 <= s < nProc ==> |incoming[s]| == nrecv1[s]
      requires forall d :: 0 <= d < nProc ==> nrecv0[d] == PrefixSums(nrecv1)[d]
      requires nrecv1[rank] == 0 && |ptclRecv| == Sum(nrecv1)
      requires Schedule(recvs, rank, nProc, nProc, false, nrecv0, nrecv1)
      modifies this`ptclRecv
      ensures ptclRecv == Concat(incoming)
    {
      var t := 0;
      while t < |recvs|
        invariant 0 <= t <= |recvs| && |ptclRecv| == Sum(nrecv1)
        invariant forall u :: 0 <= u < t ==> Delivered(ptclRecv, recvs[u], incoming)
      {
        DeliverStep(ptclRecv, rank, nProc, nrecv0, nrecv1, recvs, t, incoming);
        ptclRecv := Splice(ptclRecv, recvs[t].addr, incoming[recvs[t].peer]);
        t := t + 1;
      }
      AllDelivered(ptclRecv, rank, nProc, nrecv0, nrecv1, recvs, incoming);
    }

    /** The copy loop at the end of exchangeParticle: ptcl_recv_ is appended to ptcl_ one particle at a time. */
    method AppendReceived()
      requires Valid()
      modifies this`ptcl, this`capacity
      ensures Valid()
      ensures ptcl == old(ptcl) + ptclRecv
    {
      Reserve(|ptcl| + |ptclRecv|);
      var ip := 0;
      while ip < |ptclRecv|
        invariant 0 <= ip <= |ptclRecv| && ptcl == old(ptcl) + ptclRecv[..ip]
        invariant capacity >= |old(ptcl)| + |ptclRecv|
      {
        ptcl := ptcl + [ptclRecv[ip]];
        ip := ip + 1;
      }
      assert ptclRecv[..|ptclRecv|] == ptclRecv;
    }
  }
}
