/**
 * The point-to-point schedule of exchangeParticle: at step ib (1 .. nproc-1)
 * process rank posts a send to (rank + ib) % nproc and a receive from
 * (nproc + rank - ib) % nproc, both tagged with the smaller of the two ranks.
 */
module Ring {

  /** The process rank sends to at step ib. */
  function SendPeer(rank: int, ib: int, nproc: int): (d: int)
    requires 0 <= rank < nproc && 1 <= ib < nproc
    ensures 0 <= d < nproc && d != rank
  {
    StepMod(rank, ib, nproc);
    (ib + rank) % nproc
  }

  /** The process rank receives from at step ib. */
  function RecvPeer(rank: int, ib: int, nproc: int): (s: int)
    requires 0 <= rank < nproc && 1 <= ib < nproc
    ensures 0 <= s < nproc && s != rank
  {
    StepMod(rank, nproc - ib, nproc);
    (nproc + rank - ib) % nproc
  }

  /** The message tag of the pair (a, b): the smaller rank. */
  function Tag(a: int, b: int): (t: int)
    ensures t <= a && t <= b && (t == a || t == b)
  {
    if a < b then a else b
  }

  /** One step around the ring, as a plain case split. */
  lemma StepMod(rank: int, ib: int, nproc: int)
    requires 0 <= rank < nproc && 1 <= ib < nproc
    ensures (ib + rank) % nproc == if ib + rank < nproc then ib + rank else ib + rank - nproc
  {
    var x := ib + rank;
    if x >= nproc {
      assert x - nproc == x % nproc by {
        assert x == 1 * nproc + (x - nproc);
      }
    }
  }

  /** Every other process is the send peer of exactly one step. */
  lemma SendReachesEveryOther(rank: int, d: int, nproc: int) returns (ib: int)
    requires 0 <= rank < nproc && 0 <= d < nproc && d != rank
    ensures 1 <= ib < nproc && SendPeer(rank, ib, nproc) == d
    ensures forall jb :: 1 <= jb < nproc && SendPeer(rank, jb, nproc) == d ==> jb == ib
  {
    ib := if d > rank then d - rank else nproc + d - rank;
    StepMod(rank, ib, nproc);
    forall jb | 1 <= jb < nproc && SendPeer(rank, jb, nproc) == d
      ensures jb == ib
    {
      StepMod(rank, jb, nproc);
    }
  }

  /** Every other process is the receive peer of exactly one step. */
  lemma RecvReachesEveryOther(rank: int, s: int, nproc: int) returns (ib: int)
    requires 0 <= rank < nproc && 0 <= s < nproc && s != rank
    ensures 1 <= ib < nproc && RecvPeer(rank, ib, nproc) == s
    ensures forall jb :: 1 <= jb < nproc && RecvPeer(rank, jb, nproc) == s ==> jb == ib
  {
    ib := if rank > s then rank - s else nproc + rank - s;
    StepMod(rank, nproc - ib, nproc);
    forall jb | 1 <= jb < nproc && RecvPeer(rank, jb, nproc) == s
      ensures jb == ib
    {
      StepMod(rank, nproc - jb, nproc);
    }
  }

  /**
   * Sends and receives pair up: r sends to d at step ib exactly when d
   * receives from r at step ib, and both sides use the same tag.
   */
  lemma StepsMatch(r: int, d: int, ib: int, nproc: int)
    requires 0 <= r < nproc && 0 <= d < nproc && 1 <= ib < nproc
    ensures SendPeer(r, ib, nproc) == d <==> RecvPeer(d, ib, nproc) == r
    ensures Tag(r, d) == Tag(d, r)
  {
    StepMod(r, ib, nproc);
    StepMod(d, nproc - ib, nproc);
  }

  /** A posted Isend or Irecv: the step, the peer, the buffer offset, the count and the tag. */
  datatype Post = Post(step: int, peer: int, addr: int, count: int, tag: int)

  /** The peer of rank at step ib, on the sending or the receiving side. */
  function Peer(rank: int, ib: int, nproc: int, sending: bool): (p: int)
    requires 0 <= rank < nproc && 1 <= ib < nproc
    ensures 0 <= p < nproc && p != rank
  {
    if sending then SendPeer(rank, ib, nproc) else RecvPeer(rank, ib, nproc)
  }

  /** Post t carries the peer of its step, with that peer's offset, count and tag. */
  ghost predicate WellPosted(posts: seq<Post>, rank: int, nproc: int, upto: int, sending: bool, offs: seq<int>, cnts: seq<int>)
    requires 0 <= rank < nproc && |offs| == |cnts| == nproc
  {
    forall t :: 0 <= t < |posts| ==>
      && 1 <= posts[t].step < upto && posts[t].step < nproc
      && posts[t].peer == Peer(rank, posts[t].step, nproc, sending)
      && cnts[posts[t].peer] > 0
      && posts[t].addr == offs[posts[t].peer]
      && posts[t].count == cnts[posts[t].peer]
      && posts[t].tag == Tag(rank, posts[t].peer)
  }

  /** Posts are in step order. */
  ghost predicate InStepOrder(posts: seq<Post>) {
    forall t, u :: 0 <= t < u < |posts| ==> posts[t].step < posts[u].step
  }

  /** Every step before upto whose peer has a positive count has its post. */
  ghost predicate Complete(posts: seq<Post>, rank: int, nproc: int, upto: int, sending: bool, cnts: seq<int>)
    requires 0 <= rank < nproc && |cnts| == nproc
  {
    forall ib :: 1 <= ib < upto && ib < nproc && cnts[Peer(rank, ib, nproc, sending)] > 0 ==>
      exists t :: 0 <= t < |posts| && posts[t].step == ib
  }

  /**
   * posts is what the loop over ib in 1 .. upto-1 posts on one side: in step
   * order, one request per step whose peer has a positive count, carrying
   * that peer's offset and count and the pair's tag, and no other.
   */
  ghost predicate Schedule(posts: seq<Post>, rank: int, nproc: int, upto: int, sending: bool, offs: seq<int>, cnts: seq<int>)
    requires 0 <= rank < nproc && |offs| == |cnts| == nproc
  {
    WellPosted(posts, rank, nproc, upto, sending, offs, cnts)
    && InStepOrder(posts)
    && Complete(posts, rank, nproc, upto, sending, cnts)
  }

  /**
   * The posting loop of exchangeParticle for one process: at each step a
   * send when there is something for the send peer and a receive when
   * something is due from the receive peer.
   */
  method PostRequests(rank: int, nproc: int, nsend0: seq<int>, nsend1: seq<int>, nrecv0: seq<int>, nrecv1: seq<int>)
    returns (sends: seq<Post>, recvs: seq<Post>)
    requires 0 <= rank < nproc
    requires |nsend0| == |nsend1| == |nrecv0| == |nrecv1| == nproc
    ensures Schedule(sends, rank, nproc, nproc, true, nsend0, nsend1)
    ensures Schedule(recvs, rank, nproc, nproc, false, nrecv0, nrecv1)
  {
    sends := [];
    recvs := [];
    var ib := 1;
    while ib < nproc
      invariant 1 <= ib <= nproc
      invariant Schedule(sends, rank, nproc, ib, true, nsend0, nsend1)
      invariant Schedule(recvs, rank, nproc, ib, false, nrecv0, nrecv1)
    {
      ghost var sends0, recvs0 := sends, recvs;
      var idsend := SendPeer(rank, ib, nproc);
      if nsend1[idsend] > 0 {
        sends := sends + [Post(ib, idsend, nsend0[idsend], nsend1[idsend], Tag(rank, idsend))];
      }
      ScheduleStep(sends0, sends, rank, nproc, ib, true, nsend0, nsend1);
      var idrecv := RecvPeer(rank, ib, nproc);
      if nrecv1[idrecv] > 0 {
        recvs := recvs + [Post(ib, idrecv, nrecv0[idrecv], nrecv1[idrecv], Tag(rank, idrecv))];
      }
      ScheduleStep(recvs0, recvs, rank, nproc, ib, false, nrecv0, nrecv1);
      ib := ib + 1;
    }
  }

  /** One step of the posting loop keeps the schedule. */
  lemma ScheduleStep(posts: seq<Post>, posts': seq<Post>, rank: int, nproc: int, ib: int, sending: bool,
                     offs: seq<int>, cnts: seq<int>)
    requires 0 <= rank < nproc && 1 <= ib < nproc && |offs| == |cnts| == nproc
    requires Schedule(posts, rank, nproc, ib, sending, offs, cnts)
    requires var p := Peer(rank, ib, nproc, sending);
             posts' == if cnts[p] > 0 then posts + [Post(ib, p, offs[p], cnts[p], Tag(rank, p))] else posts
    ensures Schedule(posts', rank, nproc, ib + 1, sending, offs, cnts)
  {
    var p := Peer(rank, ib, nproc, sending);
    if cnts[p] > 0 {
      AppendPost(posts, rank, nproc, ib, sending, offs, cnts);
    } else {
      SkipStep(posts, rank, nproc, ib, sending, offs, cnts);
    }
  }

  lemma SkipStep(posts: seq<Post>, rank: int, nproc: int, ib: int, sending: bool, offs: seq<int>, cnts: seq<int>)
    requires 0 <= rank < nproc && 1 <= ib < nproc && |offs| == |cnts| == nproc
    requires Schedule(posts, rank, nproc, ib, sending, offs, cnts)
    requires cnts[Peer(rank, ib, nproc, sending)] <= 0
    ensures Schedule(posts, rank, nproc, ib + 1, sending, offs, cnts)
  {
    assert Complete(posts, rank, nproc, ib + 1, sending, cnts) by {
      forall jb | 1 <= jb < ib + 1 && jb < nproc && cnts[Peer(rank, jb, nproc, sending)] > 0
        ensures exists t :: 0 <= t < |posts| && posts[t].step == jb
      {
        assert jb < ib;
      }
    }
  }

  lemma AppendPost(posts: seq<Post>, rank: int, nproc: int, ib: int, sending: bool, offs: seq<int>, cnts: seq<int>)
    requires 0 <= rank < nproc && 1 <= ib < nproc && |offs| == |cnts| == nproc
    requires Schedule(posts, rank, nproc, ib, sending, offs, cnts)
    requires cnts[Peer(rank, ib, nproc, sending)] > 0
    ensures var p := Peer(rank, ib, nproc, sending);
            Schedule(posts + [Post(ib, p, offs[p], cnts[p], Tag(rank, p))], rank, nproc, ib + 1, sending, offs, cnts)
  {
    var p := Peer(rank, ib, nproc, sending);
    var posts' := posts + [Post(ib, p, offs[p], cnts[p], Tag(rank, p))];
    assert WellPosted(posts', rank, nproc, ib + 1, sending, offs, cnts);
    assert InStepOrder(posts');
    assert Complete(posts', rank, nproc, ib + 1, sending, cnts) by {
      forall jb | 1 <= jb < ib + 1 && jb < nproc && cnts[Peer(rank, jb, nproc, sending)] > 0
        ensures exists t :: 0 <= t < |posts'| && posts'[t].step == jb
      {
        if jb < ib {
          var t :| 0 <= t < |posts| && posts[t].step == jb;
          assert posts'[t] == posts[t];
        } else {
          assert posts'[|posts|].step == jb;
        }
      }
    }
  }

  /**
   * With receive counts transposed from send counts (Alltoall), every send r
   * posts toward d meets a receive d posts from r at the same step, with the
   * same count and tag.
   */
  lemma SendIsReceived(r: int, d: int, nproc: int, sends: seq<Post>, nsend0: seq<int>, nsend1: seq<int>,
                       recvs: seq<Post>, nrecv0: seq<int>, nrecv1: seq<int>, t: int)
    requires 0 <= r < nproc && 0 <= d < nproc
    requires |nsend0| == |nsend1| == |nrecv0| == |nrecv1| == nproc
    requires Schedule(sends, r, nproc, nproc, true, nsend0, nsend1)
    requires Schedule(recvs, d, nproc, nproc, false, nrecv0, nrecv1)
    requires nrecv1[r] == nsend1[d]
    requires 0 <= t < |sends| && sends[t].peer == d
    ensures exists u :: 0 <= u < |recvs| && recvs[u].step == sends[t].step && recvs[u].peer == r
                        && recvs[u].count == sends[t].count && recvs[u].tag == sends[t].tag
  {
    var ib := sends[t].step;
    StepsMatch(r, d, ib, nproc);
    assert Peer(d, ib, nproc, false) == r;
  }

  /** And every receive d posts from r meets a send r posts toward d. */
  lemma ReceiveIsSent(r: int, d: int, nproc: int, sends: seq<Post>, nsend0: seq<int>, nsend1: seq<int>,
                      recvs: seq<Post>, nrecv0: seq<int>, nrecv1: seq<int>, u: int)
    requires 0 <= r < nproc && 0 <= d < nproc
    requires |nsend0| == |nsend1| == |nrecv0| == |nrecv1| == nproc
    requires Schedule(sends, r, nproc, nproc, true, nsend0, nsend1)
    requires Schedule(recvs, d, nproc, nproc, false, nrecv0, nrecv1)
    requires nrecv1[r] == nsend1[d]
    requires 0 <= u < |recvs| && recvs[u].peer == r
    ensures exists t :: 0 <= t < |sends| && sends[t].step == recvs[u].step && sends[t].peer == d
                        && sends[t].count == recvs[u].count && sends[t].tag == recvs[u].tag
  {
    var ib := recvs[u].step;
    StepsMatch(r, d, ib, nproc);
    assert Peer(r, ib, nproc, true) == d;
  }

  /** The requests of one side go to pairwise distinct peers. */
  lemma PeersDistinct(posts: seq<Post>, rank: int, nproc: int, sending: bool, offs: seq<int>, cnts: seq<int>, t: int, u: int)
    requires 0 <= rank < nproc && |offs| == |cnts| == nproc
    requires Schedule(posts, rank, nproc, nproc, sending, offs, cnts)
    requires 0 <= t < u < |posts|
    ensures posts[t].peer != posts[u].peer
  {
    var p := posts[t].peer;
    var ib;
    if sending {
      ib := SendReachesEveryOther(rank, p, nproc);
    } else {
      ib := RecvReachesEveryOther(rank, p, nproc);
    }
    assert posts[t].step == ib;
  }

  /** Every peer with a positive count has a request. */
  lemma PeerIsPosted(posts: seq<Post>, rank: int, nproc: int, sending: bool, offs: seq<int>, cnts: seq<int>, p: int)
    returns (t: int)
    requires 0 <= rank < nproc && |offs| == |cnts| == nproc
    requires Schedule(posts, rank, nproc, nproc, sending, offs, cnts)
    requires 0 <= p < nproc && p != rank && cnts[p] > 0
    ensures 0 <= t < |posts| && posts[t].peer == p && posts[t].addr == offs[p]
  {
    var ib;
    if sending {
      ib := SendReachesEveryOther(rank, p, nproc);
    } else {
      ib := RecvReachesEveryOther(rank, p, nproc);
    }
    assert Peer(rank, ib, nproc, sending) == p;
    t :| 0 <= t < |posts| && posts[t].step == ib;
  }
}
