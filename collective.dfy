/**
 * exchangeParticle run by every process at once. Each element of procs is the
 * ParticleSystem of one rank; the collective steps (the abort on a particle
 * outside the root domain, MPI_Alltoall of the send counts, the matched
 * Isend/Irecv pairs) are carried out here across all of them, and the whole
 * exchange is shown to end in the global view of the Exchange module.
 */
module Collective {
  import opened Domain
  import opened Sums
  import opened Particles
  import opened Exchange
  import opened Layout
  import opened ParticleSystems

  /** The local particle stores ptcl_ of all ranks, in rank order. */
  function Stores(procs: seq<ParticleSystem>): (stores: seq<seq<Particle>>)
    reads procs
    ensures |stores| == |procs|
    ensures forall r :: 0 <= r < |procs| ==> stores[r] == procs[r].ptcl
  {
    seq(|procs|, r reads procs requires 0 <= r < |procs| => procs[r].ptcl)
  }

  /** One container per rank, each a valid one that knows the number of processes. */
  ghost predicate Ready(procs: seq<ParticleSystem>)
    reads procs
  {
    && (forall r :: 0 <= r < |procs| ==> procs[r].Valid() && procs[r].nProc == |procs|)
    && (forall r, s :: 0 <= r < s < |procs| ==> procs[r] != procs[s])
  }

  /** The count table of pass 1 on rank r: nsend1 per destination, their total, and nothing for r itself. */
  ghost predicate CountedAt(ps: seq<Particle>, g: Grid, boxes: seq<Box>, r: int, nsend1: seq<int>, nsendtot: int)
    requires g.Valid() && 0 <= r < |boxes|
  {
    && nsend1 == Lengths(Buckets(ps, boxes[r], g, boxes, |boxes|))
    && nsendtot == |SendBuffer(ps, boxes[r], g, boxes, |boxes|)|
    && nsend1[r] == 0
  }

  /** The count tables of pass 1 for every rank. */
  ghost predicate Counted(stores: seq<seq<Particle>>, g: Grid, boxes: seq<Box>,
                          nsend1s: seq<seq<int>>, nsendtots: seq<int>)
    requires g.Valid() && |stores| == |boxes|
  {
    && |nsend1s| == |nsendtots| == |stores|
    && forall r {:trigger nsendtots[r]} :: 0 <= r < |stores| ==> CountedAt(stores[r], g, boxes, r, nsend1s[r], nsendtots[r])
  }

  /**
   * exchangeParticle on all ranks. It aborts exactly when some particle lies
   * outside the root domain, and then nothing has changed; otherwise every
   * rank ends with what it kept followed by what it received.
   */
  method ExchangeParticle(procs: seq<ParticleSystem>, g: Grid, boxes: seq<Box>, root: Box, ghost c: Cuts)
    returns (aborted: bool)
    requires Ready(procs) && |procs| == |boxes| && Tiling(root, g, boxes, c)
    modifies procs`ptcl, procs`ptclSend, procs`ptclRecv, procs`capacity
    ensures Ready(procs)
    ensures aborted <==> !EveryInside(old(Stores(procs)), root)
    ensures aborted ==> Stores(procs) == old(Stores(procs))
    ensures !aborted ==> Stores(procs) == Exchanged(old(Stores(procs)), g, boxes)
    ensures !aborted ==> multiset(Concat(Stores(procs))) == multiset(Concat(old(Stores(procs))))
    ensures !aborted ==> forall r :: 0 <= r < |procs| ==> AllInside(procs[r].ptcl, boxes[r])
  {
    ghost var stores := Stores(procs);
    var nsend1s, nsendtots;
    aborted, nsend1s, nsendtots := CountAll(procs, g, boxes, root, c);
    if aborted {
      return;
    }
    TilingOwns(stores, root, g, boxes, c);
    Redistribute(procs, g, boxes, stores, nsend1s, nsendtots);
    Settled(stores, g, boxes, Stores(procs));
  }

  /** Everything after pass 1 on all ranks: pass 2, the count exchange, the receives and the append. */
  method Redistribute(procs: seq<ParticleSystem>, g: Grid, boxes: seq<Box>, ghost stores: seq<seq<Particle>>,
                      nsend1s: seq<seq<int>>, nsendtots: seq<int>)
    requires Ready(procs) && |procs| == |boxes| && g.Valid() && stores == Stores(procs)
    requires EveryOwned(stores, g, boxes) && Counted(stores, g, boxes, nsend1s, nsendtots)
    modifies procs`ptcl, procs`ptclSend, procs`ptclRecv, procs`capacity
    ensures Ready(procs) && Stores(procs) == Exchanged(stores, g, boxes)
  {
    assert Countable(stores, g, boxes, nsend1s, nsendtots) by {
      forall r | 0 <= r < |stores|
        ensures Owned(stores[r], g, boxes)
      {
        assert CountedAt(stores[r], g, boxes, r, nsend1s[r], nsendtots[r]);
      }
    }
    var nsend0s := AlignAll(procs, g, boxes, stores, nsend1s, nsendtots);
    ghost var parts, kept := BucketMatrix(stores, g, boxes), KeptAll(stores, boxes);
    DeliverAll(procs, Sends(procs), parts, kept, nsend0s, nsend1s);
    DeliveredIsExchanged(stores, g, boxes, parts, kept, Stores(procs));
  }

  /** Keeping and receiving on every rank is the global exchange, which conserves particles and gives each to its owner. */
  lemma DeliveredIsExchanged(stores: seq<seq<Particle>>, g: Grid, boxes: seq<Box>, parts: seq<seq<seq<Particle>>>,
                             kept: seq<seq<Particle>>, after: seq<seq<Particle>>)
    requires g.Valid() && |stores| == |boxes| == |after|
    requires parts == BucketMatrix(stores, g, boxes) && kept == KeptAll(stores, boxes)
    requires forall r :: 0 <= r < |after| ==> after[r] == kept[r] + Concat(Addressed(parts, |boxes|, r))
    ensures after == Exchanged(stores, g, boxes)
  {
    var ex := Exchanged(stores, g, boxes);
    forall r | 0 <= r < |after|
      ensures after[r] == ex[r]
    {
      AddressedIsInbox(stores, g, boxes, parts, r);
    }
    assert |after| == |ex|;
  }

  /** The exchange conserves the particles and leaves every one with the rank whose domain holds it. */
  lemma Settled(stores: seq<seq<Particle>>, g: Grid, boxes: seq<Box>, after: seq<seq<Particle>>)
    requires g.Valid() && |stores| == |boxes| == |after| && EveryOwned(stores, g, boxes)
    requires after == Exchanged(stores, g, boxes)
    ensures multiset(Concat(after)) == multiset(Concat(stores))
    ensures forall r :: 0 <= r < |after| ==> AllInside(after[r], boxes[r])
  {
    Conservation(stores, g, boxes);
    Ownership(stores, g, boxes);
  }

  /** Pass 1 on every rank; any rank that meets a particle outside the root domain aborts the run. */
  method CountAll(procs: seq<ParticleSystem>, g: Grid, boxes: seq<Box>, root: Box, ghost c: Cuts)
    returns (aborted: bool, nsend1s: seq<seq<int>>, nsendtots: seq<int>)
    requires Ready(procs) && |procs| == |boxes| && Tiling(root, g, boxes, c)
    ensures aborted <==> !EveryInside(Stores(procs), root)
    ensures !aborted ==> Counted(Stores(procs), g, boxes, nsend1s, nsendtots)
  {
    ghost var stores := Stores(procs);
    nsend1s, nsendtots := [], [];
    var r := 0;
    while r < |procs|
      invariant 0 <= r <= |procs| && |nsend1s| == |nsendtots| == r
      invariant forall s :: 0 <= s < r ==> AllInside(stores[s], root)
      invariant forall s {:trigger nsendtots[s]} :: 0 <= s < r ==> CountedAt(stores[s], g, boxes, s, nsend1s[s], nsendtots[s])
    {
      var failed, nsend1, nsendtot := CountOne(procs[r], r, g, boxes, root, c, stores[r]);
      if failed {
        return true, nsend1s, nsendtots;
      }
      nsend1s, nsendtots := nsend1s + [nsend1], nsendtots + [nsendtot];
      r := r + 1;
    }
    aborted := false;
  }

  /** Pass 1 on rank r, its outcome stated as the count table of its store. */
  method CountOne(p: ParticleSystem, r: int, g: Grid, boxes: seq<Box>, root: Box, ghost c: Cuts, ghost store: seq<Particle>)
    returns (failed: bool, nsend1: seq<int>, nsendtot: int)
    requires p.Valid() && 0 <= r < p.nProc == |boxes| && Tiling(root, g, boxes, c) && p.ptcl == store
    ensures failed <==> !AllInside(store, root)
    ensures !failed ==> CountedAt(store, g, boxes, r, nsend1, nsendtot)
  {
    failed, nsend1, nsendtot := p.CountOutgoing(r, g, boxes, root, c);
  }

  /** nsend0: the start of every bucket in the send buffer, the prefix sums of nsend1. */
  predicate OffsetsOf(nsend0: seq<int>, nsend1: seq<int>) {
    |nsend0| == |nsend1| && forall d :: 0 <= d < |nsend1| ==> nsend0[d] == PrefixSums(nsend1)[d]
  }

  /** What pass 2 needs on every rank: its particles are owned by some rank, and pass 1 counted them. */
  ghost predicate Countable(stores: seq<seq<Particle>>, g: Grid, boxes: seq<Box>,
                            nsend1s: seq<seq<int>>, nsendtots: seq<int>)
    requires g.Valid() && |stores| == |boxes|
  {
    && |nsend1s| == |nsendtots| == |stores|
    && forall r {:trigger nsendtots[r]} :: 0 <= r < |stores| ==>
         Owned(stores[r], g, boxes) && CountedAt(stores[r], g, boxes, r, nsend1s[r], nsendtots[r])
  }

  /** The prefix sums nsend0 and pass 2 on every rank. */
  method AlignAll(procs: seq<ParticleSystem>, g: Grid, boxes: seq<Box>, ghost stores: seq<seq<Particle>>,
                  nsend1s: seq<seq<int>>, nsendtots: seq<int>)
    returns (nsend0s: seq<seq<int>>)
    requires Ready(procs) && |procs| == |boxes| && g.Valid() && stores == Stores(procs)
    requires Countable(stores, g, boxes, nsend1s, nsendtots)
    modifies procs`ptcl, procs`ptclSend
    ensures Ready(procs) && Posted(Sends(procs), BucketMatrix(stores, g, boxes), nsend0s, nsend1s)
    ensures Stores(procs) == KeptAll(stores, boxes)
  {
    ghost var parts, kept := BucketMatrix(stores, g, boxes), KeptAll(stores, boxes);
    ghost var sends := seq(|parts|, s requires 0 <= s < |parts| => Concat(parts[s]));
    nsend0s := OffsetsAll(nsend1s);
    forall r | 0 <= r < |procs|
      ensures AlignableAt(stores[r], g, boxes, r, parts[r], kept[r], sends[r], nsend0s[r], nsend1s[r], nsendtots[r])
    {
      assert OffsetsOf(nsend0s[r], nsend1s[r]);
    }
    AlignEach(procs, g, boxes, stores, parts, kept, sends, nsend0s, nsend1s, nsendtots);
    RowsPosted(stores, g, boxes, parts, Sends(procs), nsend0s, nsend1s, nsendtots);
    assert Stores(procs) == kept;
  }

  /** What pass 2 on rank r starts from, and what it is to produce: the kept particles and the send buffer. */
  ghost predicate AlignableAt(store: seq<Particle>, g: Grid, boxes: seq<Box>, r: int, part: seq<seq<Particle>>,
                              keep: seq<Particle>, send: seq<Particle>, nsend0: seq<int>, nsend1: seq<int>, nsendtot: int)
  {
    && g.Valid() && 0 <= r < |boxes|
    && Owned(store, g, boxes) && CountedAt(store, g, boxes, r, nsend1, nsendtot) && OffsetsOf(nsend0, nsend1)
    && part == Buckets(store, boxes[r], g, boxes, |boxes|) && keep == Kept(store, boxes[r]) && send == Concat(part)
  }

  /** Pass 2 on every rank in turn. */
  method AlignEach(procs: seq<ParticleSystem>, g: Grid, boxes: seq<Box>, ghost stores: seq<seq<Particle>>,
                   ghost parts: seq<seq<seq<Particle>>>, ghost kept: seq<seq<Particle>>, ghost sends: seq<seq<Particle>>,
                   nsend0s: seq<seq<int>>, nsend1s: seq<seq<int>>, nsendtots: seq<int>)
    requires Ready(procs) && |procs| == |boxes| && stores == Stores(procs)
    requires |parts| == |kept| == |sends| == |nsend0s| == |nsend1s| == |nsendtots| == |procs|
    requires forall r {:trigger nsendtots[r]} :: 0 <= r < |procs| ==>
               AlignableAt(stores[r], g, boxes, r, parts[r], kept[r], sends[r], nsend0s[r], nsend1s[r], nsendtots[r])
    modifies procs`ptcl, procs`ptclSend
    ensures Ready(procs)
    ensures forall s :: 0 <= s < |procs| ==> procs[s].ptcl == kept[s] && procs[s].ptclSend == sends[s]
  {
    var r := 0;
    while r < |procs|
      invariant 0 <= r <= |procs| && Ready(procs)
      invariant forall s :: r <= s < |procs| ==> procs[s].ptcl == stores[s]
      invariant forall s :: 0 <= s < r ==> procs[s].ptcl == kept[s] && procs[s].ptclSend == sends[s]
    {
      AlignOne(procs[r], r, g, boxes, stores[r], parts[r], kept[r], sends[r], nsend0s[r], nsend1s[r], nsendtots[r]);
      r := r + 1;
    }
  }

  /** Every rank's nsend0 is the prefix sums of its nsend1. */
  ghost predicate AllOffsets(nsend0s: seq<seq<int>>, nsend1s: seq<seq<int>>) {
    |nsend0s| == |nsend1s| && forall r {:trigger nsend0s[r]} :: 0 <= r < |nsend1s| ==> OffsetsOf(nsend0s[r], nsend1s[r])
  }

  /** The prefix sums nsend0 of every rank. */
  method OffsetsAll(nsend1s: seq<seq<int>>) returns (nsend0s: seq<seq<int>>)
    ensures AllOffsets(nsend0s, nsend1s)
  {
    nsend0s := [];
    var r := 0;
    while r < |nsend1s|
      invariant 0 <= r <= |nsend1s| && |nsend0s| == r
      invariant forall q :: 0 <= q < r ==> OffsetsOf(nsend0s[q], nsend1s[q])
    {
      var nsend0 := Offsets(nsend1s[r]);
      nsend0s := nsend0s + [nsend0];
      r := r + 1;
    }
  }

  /** Pass 2 on rank r: it keeps what lies in its own domain and lays out its buckets. */
  method AlignOne(p: ParticleSystem, r: int, g: Grid, boxes: seq<Box>, ghost store: seq<Particle>,
                  ghost part: seq<seq<Particle>>, ghost keep: seq<Particle>, ghost send: seq<Particle>,
                  nsend0: seq<int>, nsend1: seq<int>, nsendtot: int)
    requires p.Valid() && p.nProc == |boxes| && p.ptcl == store
    requires AlignableAt(store, g, boxes, r, part, keep, send, nsend0, nsend1, nsendtot)
    modifies p`ptcl, p`ptclSend
    ensures p.Valid() && p.ptcl == keep && p.ptclSend == send
  {
    var _ := p.AlignSendParticles(r, g, boxes, nsend0, nsend1, nsendtot);
  }

  /** After pass 2 on every rank the send side is posted: each rank's buffer is its row of the send matrix. */
  lemma RowsPosted(stores: seq<seq<Particle>>, g: Grid, boxes: seq<Box>, parts: seq<seq<seq<Particle>>>,
                   sends: seq<seq<Particle>>, nsend0s: seq<seq<int>>, nsend1s: seq<seq<int>>, nsendtots: seq<int>)
    requires g.Valid() && |stores| == |boxes| == |sends| && parts == BucketMatrix(stores, g, boxes)
    requires Countable(stores, g, boxes, nsend1s, nsendtots) && AllOffsets(nsend0s, nsend1s)
    requires forall s :: 0 <= s < |sends| ==> sends[s] == Concat(parts[s])
    ensures Posted(sends, parts, nsend0s, nsend1s)
  {
    forall s | 0 <= s < |sends|
      ensures PostedAt(sends[s], parts[s], nsend0s[s], nsend1s[s], s, |sends|)
    {
      assert CountedAt(stores[s], g, boxes, s, nsend1s[s], nsendtots[s]);
      assert OffsetsOf(nsend0s[s], nsend1s[s]);
      assert |parts[s][s]| == nsend1s[s][s];
    }
  }

  /** A send matrix whose every row has one entry per rank. */
  predicate Rows(parts: seq<seq<seq<Particle>>>, n: nat) {
    forall s :: 0 <= s < |parts| ==> |parts[s]| == n
  }

  /** What every rank has for rank r, in rank order: column r of the send matrix. */
  function Addressed(parts: seq<seq<seq<Particle>>>, n: nat, r: int): (col: seq<seq<Particle>>)
    requires Rows(parts, n) && 0 <= r < n
    ensures |col| == |parts| && forall s :: 0 <= s < |parts| ==> col[s] == parts[s][r]
  {
    seq(|parts|, s requires 0 <= s < |parts| => parts[s][r])
  }

  /** The send buffers ptcl_send_ of all ranks, in rank order. */
  function Sends(procs: seq<ParticleSystem>): (sends: seq<seq<Particle>>)
    reads procs
    ensures |sends| == |procs|
    ensures forall r :: 0 <= r < |procs| ==> sends[r] == procs[r].ptclSend
  {
    seq(|procs|, r reads procs requires 0 <= r < |procs| => procs[r].ptclSend)
  }

  /**
   * The send side of rank s after pass 2: the buckets part are laid out in
   * its send buffer, with nothing for s itself; nsend1 counts them and nsend0
   * says where each starts.
   */
  ghost predicate PostedAt(send: seq<Particle>, part: seq<seq<Particle>>, nsend0: seq<int>, nsend1: seq<int>, s: int, n: int)
  {
    && |part| == n && 0 <= s < n && part[s] == []
    && send == Concat(part)
    && nsend1 == Lengths(part) && OffsetsOf(nsend0, nsend1)
  }

  /** The send side of every rank after pass 2; parts is the send matrix. */
  ghost predicate Posted(sends: seq<seq<Particle>>, parts: seq<seq<seq<Particle>>>,
                         nsend0s: seq<seq<int>>, nsend1s: seq<seq<int>>)
  {
    && |parts| == |nsend0s| == |nsend1s| == |sends| && Rows(parts, |sends|)
    && forall s :: 0 <= s < |sends| ==> PostedAt(sends[s], parts[s], nsend0s[s], nsend1s[s], s, |sends|)
  }

  /** The send matrix of the exchange: row s holds the buckets of rank s. */
  ghost function BucketMatrix(stores: seq<seq<Particle>>, g: Grid, boxes: seq<Box>): (parts: seq<seq<seq<Particle>>>)
    requires g.Valid() && |stores| == |boxes|
    ensures |parts| == |stores| && Rows(parts, |boxes|)
    ensures forall s :: 0 <= s < |stores| ==> parts[s] == Buckets(stores[s], boxes[s], g, boxes, |boxes|)
  {
    seq(|stores|, s requires 0 <= s < |stores| => Buckets(stores[s], boxes[s], g, boxes, |boxes|))
  }

  /** What every rank keeps of its store. */
  function KeptAll(stores: seq<seq<Particle>>, boxes: seq<Box>): (kept: seq<seq<Particle>>)
    requires |stores| == |boxes|
    ensures |kept| == |stores|
    ensures forall r :: 0 <= r < |stores| ==> kept[r] == Kept(stores[r], boxes[r])
  {
    seq(|stores|, r requires 0 <= r < |stores| => Kept(stores[r], boxes[r]))
  }

  /** Column r of the send matrix is the inbox of r. */
  lemma AddressedIsInbox(stores: seq<seq<Particle>>, g: Grid, boxes: seq<Box>, parts: seq<seq<seq<Particle>>>, r: int)
    requires g.Valid() && |stores| == |boxes| && 0 <= r < |boxes| && parts == BucketMatrix(stores, g, boxes)
    ensures Addressed(parts, |boxes|, r) == Inbox(stores, g, boxes, r)
  {
    forall s | 0 <= s < |stores|
      ensures parts[s][r] == Inbox(stores, g, boxes, r)[s]
    {
      BucketAt(stores[s], boxes[s], g, boxes, |boxes|, r);
    }
  }

  /**
   * MPI_Alltoall of the counts, then on every rank the matched receives and
   * the append of ptcl_recv_ to ptcl_: every rank ends with what it kept
   * followed by column r of the send matrix.
   */
  method DeliverAll(procs: seq<ParticleSystem>, ghost sends: seq<seq<Particle>>, ghost parts: seq<seq<seq<Particle>>>,
                    ghost kept: seq<seq<Particle>>, nsend0s: seq<seq<int>>, nsend1s: seq<seq<int>>)
    requires Ready(procs) && sends == Sends(procs) && Posted(sends, parts, nsend0s, nsend1s) && |kept| == |procs|
    requires forall r :: 0 <= r < |procs| ==> procs[r].ptcl == kept[r]
    modifies procs`ptcl, procs`ptclRecv, procs`capacity
    ensures Ready(procs)
    ensures forall r :: 0 <= r < |procs| ==> procs[r].ptcl == kept[r] + Concat(Addressed(parts, |procs|, r))
  {
    forall r | 0 <= r < |procs|
      ensures Slices(sends, parts, nsend0s, nsend1s, r)
    {
      PostedSlices(sends, parts, nsend0s, nsend1s, r);
    }
    var inboxes, nrecv1s := Gather(procs, sends, parts, nsend0s, nsend1s);
    ReceiveAll(procs, kept, nsend0s, nsend1s, nrecv1s, inboxes);
  }

  /** The messages every rank r is sent, with their counts: column r of the send matrix, for every r. */
  method Gather(procs: seq<ParticleSystem>, ghost sends: seq<seq<Particle>>, ghost parts: seq<seq<seq<Particle>>>,
                nsend0s: seq<seq<int>>, nsend1s: seq<seq<int>>)
    returns (inboxes: seq<seq<seq<Particle>>>, nrecv1s: seq<seq<int>>)
    requires sends == Sends(procs) && Rows(parts, |procs|) && |parts| == |nsend0s| == |nsend1s| == |procs|
    requires forall r :: 0 <= r < |procs| ==> Slices(sends, parts, nsend0s, nsend1s, r)
    ensures Receivable(|procs|, nsend0s, nsend1s, nrecv1s, inboxes)
    ensures forall r :: 0 <= r < |procs| ==> inboxes[r] == Addressed(parts, |procs|, r)
  {
    inboxes, nrecv1s := [], [];
    var r := 0;
    while r < |procs|
      invariant 0 <= r <= |procs| && |inboxes| == |nrecv1s| == r
      invariant forall q :: 0 <= q < r ==> inboxes[q] == Addressed(parts, |procs|, q)
      invariant forall q :: 0 <= q < r ==> ReceivableAt(|procs|, q, nsend0s[q], nsend1s[q], nrecv1s[q], inboxes[q])
    {
      var incoming, nrecv1 := Messages(procs, sends, parts, nsend0s, nsend1s, r);
      inboxes, nrecv1s := inboxes + [incoming], nrecv1s + [nrecv1];
      r := r + 1;
    }
  }

  /** What ReceiveParticles asks of the counts and messages of rank r. */
  predicate ReceivableAt(n: int, r: int, nsend0: seq<int>, nsend1: seq<int>, nrecv1: seq<int>, incoming: seq<seq<Particle>>) {
    && 0 <= r < n && |nsend0| == |nsend1| == |nrecv1| == |incoming| == n
    && nrecv1[r] == 0
    && forall s :: 0 <= s < n ==> |incoming[s]| == nrecv1[s]
  }

  /** What ReceiveParticles asks of the counts and messages of every rank. */
  predicate Receivable(n: int, nsend0s: seq<seq<int>>, nsend1s: seq<seq<int>>, nrecv1s: seq<seq<int>>,
                       inboxes: seq<seq<seq<Particle>>>) {
    && |nsend0s| == |nsend1s| == |nrecv1s| == |inboxes| == n
    && forall r :: 0 <= r < n ==> ReceivableAt(n, r, nsend0s[r], nsend1s[r], nrecv1s[r], inboxes[r])
  }

  /** The receives and the append on every rank: each ends with what it kept followed by its inbox. */
  method ReceiveAll(procs: seq<ParticleSystem>, ghost kept: seq<seq<Particle>>, nsend0s: seq<seq<int>>,
                    nsend1s: seq<seq<int>>, nrecv1s: seq<seq<int>>, inboxes: seq<seq<seq<Particle>>>)
    requires Ready(procs) && Receivable(|procs|, nsend0s, nsend1s, nrecv1s, inboxes) && |kept| == |procs|
    requires forall r :: 0 <= r < |procs| ==> procs[r].ptcl == kept[r]
    modifies procs`ptcl, procs`ptclRecv, procs`capacity
    ensures Ready(procs)
    ensures forall r :: 0 <= r < |procs| ==> procs[r].ptcl == kept[r] + Concat(inboxes[r])
  {
    var r := 0;
    while r < |procs|
      invariant 0 <= r <= |procs| && Ready(procs)
      invariant forall s :: r <= s < |procs| ==> procs[s].ptcl == kept[s]
      invariant forall s :: 0 <= s < r ==> procs[s].ptcl == kept[s] + Concat(inboxes[s])
    {
      assert ReceivableAt(|procs|, r, nsend0s[r], nsend1s[r], nrecv1s[r], inboxes[r]);
      procs[r].ReceiveParticles(r, nsend0s[r], nsend1s[r], nrecv1s[r], inboxes[r]);
      r := r + 1;
    }
  }

  /** The message of rank s for rank r lies at nsend0[r] in the send buffer of s and is bucket r of s. */
  ghost predicate SliceAt(send: seq<Particle>, part: seq<seq<Particle>>, nsend0: seq<int>, nsend1: seq<int>, r: int) {
    && 0 <= r < |part| && r < |nsend0| && r < |nsend1| && nsend1[r] == |part[r]|
    && 0 <= nsend0[r] && nsend0[r] + nsend1[r] <= |send|
    && send[nsend0[r] .. nsend0[r] + nsend1[r]] == part[r]
  }

  /** Where every message for rank r lies, and that r sends nothing to itself. */
  ghost predicate Slices(sends: seq<seq<Particle>>, parts: seq<seq<seq<Particle>>>,
                         nsend0s: seq<seq<int>>, nsend1s: seq<seq<int>>, r: int)
  {
    && |parts| == |nsend0s| == |nsend1s| == |sends| && 0 <= r < |sends| && Rows(parts, |sends|)
    && |nsend0s[r]| == |nsend1s[r]| == |sends| && nsend1s[r][r] == 0
    && forall s :: 0 <= s < |sends| ==> SliceAt(sends[s], parts[s], nsend0s[s], nsend1s[s], r)
  }

  /** A posted send side locates every message for r. */
  lemma PostedSlices(sends: seq<seq<Particle>>, parts: seq<seq<seq<Particle>>>,
                     nsend0s: seq<seq<int>>, nsend1s: seq<seq<int>>, r: int)
    requires Posted(sends, parts, nsend0s, nsend1s) && 0 <= r < |sends|
    ensures Slices(sends, parts, nsend0s, nsend1s, r)
  {
    forall s | 0 <= s < |sends|
      ensures SliceAt(sends[s], parts[s], nsend0s[s], nsend1s[s], r)
    {
      assert PostedAt(sends[s], parts[s], nsend0s[s], nsend1s[s], s, |sends|);
      PartAt(parts[s], r);
    }
    assert PostedAt(sends[r], parts[r], nsend0s[r], nsend1s[r], r, |sends|);
  }

  /**
   * What rank r receives from every rank s, and how many (the count of
   * MPI_Alltoall): the nsend1 particles of s for r, read from the send buffer
   * of s at nsend0 of s for r. They are column r of the send matrix.
   */
  method Messages(procs: seq<ParticleSystem>, ghost sends: seq<seq<Particle>>, ghost parts: seq<seq<seq<Particle>>>,
                  nsend0s: seq<seq<int>>, nsend1s: seq<seq<int>>, r: int)
    returns (incoming: seq<seq<Particle>>, nrecv1: seq<int>)
    requires sends == Sends(procs) && Slices(sends, parts, nsend0s, nsend1s, r)
    ensures incoming == Addressed(parts, |procs|, r)
    ensures ReceivableAt(|procs|, r, nsend0s[r], nsend1s[r], nrecv1, incoming)
  {
    incoming, nrecv1 := [], [];
    var s := 0;
    while s < |procs|
      invariant 0 <= s <= |procs| && |incoming| == |nrecv1| == s
      invariant forall q :: 0 <= q < s ==> incoming[q] == parts[q][r] && |parts[q][r]| == nrecv1[q]
    {
      assert SliceAt(sends[s], parts[s], nsend0s[s], nsend1s[s], r);
      var start, count := nsend0s[s][r], nsend1s[s][r];
      incoming, nrecv1 := incoming + [procs[s].ptclSend[start .. start + count]], nrecv1 + [count];
      s := s + 1;
    }
  }
}
