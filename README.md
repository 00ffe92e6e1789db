# ParticleSystem: particle container and domain exchange (FDPS)

This project is a Dafny model of `ParticleSystem`, the per-process particle container of
the FDPS particle-simulation framework (`src/particle_system.hpp`). It models:

- the half-open box test, `determineWhetherParticleIsInDomain`;
- the router `searchWhichDomainParticleGoTo`, which walks the x, y and z slabs of an
  `nx × ny × nz` domain decomposition;
- the store lifecycle (`createParticle`, `setNumberOfParticleLocal`, `reserve`);
- the one-shot configuration flags;
- `getSampleParticle`, which uses a partial Fisher–Yates shuffle that it undoes afterwards;
- `adjustPositionIntoRootDomain`, the periodic wrap into the root domain;
- the collective `exchangeParticle`, whose steps are:
  - count the particles that leave;
  - lay them out by destination with prefix sums;
  - exchange the counts (`MPI_Alltoall`);
  - post the ring of non-blocking sends and receives;
  - append what arrived.

Modules:

- `Domain`: positions (`Vec`), boxes, the decomposition grid and a ghost description of
  the cuts that make the domains tile the root box. It holds `InDomain` and `Route` and
  proves that the router returns the one domain that contains a particle.
- `Sums`: sums, prefix sums (the `nsend0`/`nrecv0`/displacement arrays), concatenation of
  buckets, and the lemmas that relate an offset array to the bucket slices.
- `Particles`: the particle record (a position plus user fields the container never
  inspects) and `resizeNoInitialize`.
- `Layout`: the read-split of particle counts over processes, displacement arrays and
  the global particle count.
- `Sampling`: the swap sequence of `getSampleParticle` as functions on sequences. It
  proves that the shuffle is a permutation, that undoing it restores the store, and that
  the samples are distinct particles.
- `Wrap`: the periodic wrap of one coordinate, written as the source's while loops
  (x with `>` plus an equality fix-up, y and z with `>=`). Each loop is proved equal to
  the unique periodic image in `[low, high)`.
- `Exchange`: the global, value-level meaning of one exchange, with these parts:
  - which particles stay (`Kept`);
  - the per-destination buckets (`Buckets`, `SendBuffer`);
  - what each rank receives (`Inbox`);
  - the resulting stores (`Exchanged`);
  - proofs that an exchange conserves the multiset of particles, leaves every particle
    inside its owner's domain, and is idempotent.
- `Ring`: the partner, tag and request-posting schedule of the send/receive ring. It
  proves that every send is matched by a receive posted at the same step, and the
  reverse.
- `ParticleSystems`: the `ParticleSystem` class, whose fields are the local store, the
  send and receive buffers, the reserved capacity, the sample target and the flags. Its
  methods follow the source's loops.
- `Collective`: `exchangeParticle` run by every process. The processes are a sequence of
  `ParticleSystem` objects, and each MPI collective becomes the exchange of values it
  performs. The run is proved to leave the stores equal to `Exchange.Exchanged`, or to
  abort without change when some particle is outside the root domain.

## Model

| member | source | states |
|---|---|---|
| Domain.InDomain | src/particle_system.hpp:27-33 | true exactly when every coordinate lies in `[low, high)` of the box |
| Domain.Walk | src/particle_system.hpp:56-62 | one router loop never moves below its start index |
| Domain.Route | src/particle_system.hpp:54-63 | the three router loops chained from index 0 with strides ny·nz, nz and 1 give an index that is never negative; RouteFindsOwner and RouteIsUniqueOwner state which domain it is |
| Domain.WalkLands | src/particle_system.hpp:56-62 | one router loop stops at the slab whose cut interval contains the coordinate |
| Domain.RouteFindsOwner | src/particle_system.hpp:42-65 | for a position in the root of a tiling, the router returns grid index (i,j,k) whose x, y and z cut intervals hold the position, and that box contains it |
| Domain.RouteIsUniqueOwner | src/particle_system.hpp:42-65 | a domain contains a position in the root if and only if it is the one the router returns |
| Domain.BoxInsideRoot | src/particle_system.hpp:517-518 | a position inside any domain of the tiling is inside the root domain |
| Layout.ReadSplit | src/particle_system.hpp:225-228 | one non-negative count per process; SplitSumsToTotal and SplitIsBalanced state the split |
| Layout.SplitReadCount | src/particle_system.hpp:225-228 | the per-process counts of the read split are `ReadSplit` and sum to the total read |
| Layout.SplitSumsToTotal | src/particle_system.hpp:225-228 | the split counts sum to the number of particles |
| Layout.SplitIsBalanced | src/particle_system.hpp:225-228 | rank 0 gets at least as many as any other rank and fewer than nproc more |
| Layout.Displacements | src/particle_system.hpp:147-152 | the displacement array is the prefix sums of the counts, ending in their total |
| Layout.NumberOfParticleGlobal | src/particle_system.hpp:327-346 | the global count is the sum of the per-process counts |
| Layout.Offsets | src/particle_system.hpp:523-526 | `nsend0[d]` is the sum of the counts of the ranks before d |
| Sums.PrefixSums | src/particle_system.hpp:523-526 | starts at 0, ends at the sum, and each entry adds the previous count to the previous entry |
| Sums.PrefixSumsAreOffsets | src/particle_system.hpp:523-526 | the prefix sum of bucket lengths at d is where bucket d starts in the concatenation |
| Sums.PartAt | src/particle_system.hpp:622-625 | the slice of the concatenation at a bucket's prefix-sum offset is that bucket |
| Sums.FilledIsConcat | src/particle_system.hpp:532-548 | a buffer in which every bucket sits at its prefix-sum offset, and which has the total length, is the concatenation of the buckets |
| Sums.SlicesDetermine | src/particle_system.hpp:612-638 | a buffer of the right length with every part placed at its offset equals the concatenation |
| Particles.Resized | src/particle_system.hpp:107 | resizing gives exactly n slots and keeps the common prefix |
| Sampling.SampleCount | src/particle_system.hpp:447-449 | k is min(max(k0, limit), nloc): between 0 and nloc, at least both k0 and limit unless it is nloc, equal to one of the three, and at most one of k0 and limit |
| Sampling.Shuffled | src/particle_system.hpp:451-458 | the store after the first k forward swaps has the same length; ShuffledIsPermutation and ShuffledIsPicked state its contents |
| Sampling.Picks | src/particle_system.hpp:451-458 | for each slot, the index in range of the original particle the swaps bring there |
| Sampling.Unshuffled | src/particle_system.hpp:463-468 | the reverse swaps keep the length; UndoRestores states that they undo Shuffled |
| Sampling.UndoRestores | src/particle_system.hpp:463-468 | replaying the recorded swaps backwards restores the original order |
| Sampling.ShuffledIsPermutation | src/particle_system.hpp:452-458 | the forward swaps only permute the store |
| Sampling.ShuffledIsPicked | src/particle_system.hpp:452-461 | after the swaps, slot i holds original particle `Picks[i]`, and distinct slots hold distinct originals |
| Sampling.ShuffledPrefixSettles | src/particle_system.hpp:452-458 | swaps after step k never touch the first k slots |
| Sampling.SwapTwice | src/particle_system.hpp:454-456 | swapping two slots twice is the identity |
| Wrap.Wrapped | src/particle_system.hpp:692-719 | the wrapped coordinate lies in `[low, high)` and equals the input when already there |
| Wrap.ImageIsUnique | src/particle_system.hpp:692-719 | a periodic image of a coordinate that lies in `[low, high)` is the wrapped coordinate |
| Wrap.WrapCoordinateX | src/particle_system.hpp:692-700 | the x loops (`<`, `>`, then high mapped to low) compute the wrapped coordinate |
| Wrap.WrapCoordinateYZ | src/particle_system.hpp:701-719 | the y/z loops (`<`, `>=`, and the fix-up) compute the wrapped coordinate |
| Wrap.WrapPosition | src/particle_system.hpp:690-721 | the wrapped position is inside the root, and a position already inside is unchanged |
| Wrap.WrapIdempotent | src/particle_system.hpp:684-724 | wrapping twice is wrapping once |
| Wrap.WrapPeriodic | src/particle_system.hpp:684-724 | shifting a position by whole root lengths on any axis does not change its wrap |
| Wrap.WrapEveryAxis | src/particle_system.hpp:690-721 | each axis is wrapped independently, whatever the boundary condition |
| Exchange.Kept | src/particle_system.hpp:535-538 | the staying particles, in order, never more than the store; KeptMembers and KeptAndSentPartition state its contents |
| Exchange.Outgoing | src/particle_system.hpp:539-543 | the leaving particles routed to d, in order, never more than the store; OutgoingMembers states its contents |
| Exchange.Buckets | src/particle_system.hpp:517-521 | one bucket per rank; BucketAt makes bucket d the outgoing particles for d |
| Exchange.SendBuffer | src/particle_system.hpp:532-548 | the buckets concatenated in rank order; KeptAndSentPartition and KeptAndSentCount relate it to the store |
| Exchange.Inbox | src/particle_system.hpp:578-652 | one entry per sender s, each being what s routes to r |
| Exchange.Exchanged | src/particle_system.hpp:477-665 | every rank's store after the exchange is its kept particles followed by its inbox in sender order; Conservation, Ownership and ExchangeIdempotent state its meaning |
| Exchange.KeptMembers | src/particle_system.hpp:536-538 | every particle kept by pass 2 came from the store and lies in the home domain |
| Exchange.OutgoingMembers | src/particle_system.hpp:540-543 | every particle in bucket d came from the store, lies outside home and routes to d |
| Exchange.KeptAndSentPartition | src/particle_system.hpp:532-548 | the kept particles and the send buffer together are the original store as a multiset |
| Exchange.KeptAndSentCount | src/particle_system.hpp:532-548 | `iloc + nsendtot` equals the original local count |
| Exchange.TilingOwns | src/particle_system.hpp:507-518 | when every particle is inside the root, every particle has a domain that contains it |
| Exchange.NoSelfSend | src/particle_system.hpp:517-519 | a rank's bucket addressed to itself is empty |
| Exchange.RowsEqualColumns | src/particle_system.hpp:578 | what all ranks send in total equals what all ranks receive in total, as the count exchange transposes the send matrix |
| Exchange.ColumnIsInbox | src/particle_system.hpp:578-581 | the particles sent to rank r from all ranks are exactly rank r's inbox |
| Exchange.RowIsStore | src/particle_system.hpp:532-548 | a rank's store is its kept particles plus everything it sends |
| Exchange.Conservation | src/particle_system.hpp:477-665 | an exchange preserves the global multiset of particles and the global count |
| Exchange.ReceivedIsOwned | src/particle_system.hpp:517-521 | every received particle lies in the receiving rank's domain |
| Exchange.OwnershipAt | src/particle_system.hpp:477-665 | after the exchange, every particle at rank r is inside r's domain |
| Exchange.Ownership | src/particle_system.hpp:477-665 | after the exchange, every rank holds only particles inside its domain |
| Exchange.KeepAll | src/particle_system.hpp:535-545 | a store already inside its domain keeps everything and sends nothing |
| Exchange.ExchangeIdempotent | src/particle_system.hpp:477-665 | exchanging again right after an exchange changes nothing |
| Ring.SendPeer | src/particle_system.hpp:620 | the ring's send partner is another rank |
| Ring.RecvPeer | src/particle_system.hpp:628 | the ring's receive partner is another rank |
| Ring.Tag | src/particle_system.hpp:623 | the tag is the smaller of the two ranks |
| Ring.SendReachesEveryOther | src/particle_system.hpp:619-627 | every other rank is the send partner at exactly one step |
| Ring.RecvReachesEveryOther | src/particle_system.hpp:628-635 | every other rank is the receive partner at exactly one step |
| Ring.StepsMatch | src/particle_system.hpp:619-636 | r sends to d at step ib if and only if d receives from r at step ib, and both use the same tag |
| Ring.PostRequests | src/particle_system.hpp:619-636 | the posted sends and receives follow the ring schedule: one per partner with a nonzero count, at its offset, in step order |
| Ring.SendIsReceived | src/particle_system.hpp:619-636 | every posted send has a matching receive posted by its destination at the same step |
| Ring.ReceiveIsSent | src/particle_system.hpp:619-636 | every posted receive has a matching send posted by its source at the same step |
| Ring.PeersDistinct | src/particle_system.hpp:619-636 | no partner gets two requests |
| Ring.PeerIsPosted | src/particle_system.hpp:619-636 | every partner with a nonzero count gets a request at its offset |
| ParticleSystems.Adjusted | src/particle_system.hpp:684-724 | the same number of particles, each keeping its user fields; AdjustedInside and AdjustedIdempotent state the positions |
| ParticleSystems.AdjustedInside | src/particle_system.hpp:684-724 | after the adjustment every particle is inside the root, and a particle already inside is untouched |
| ParticleSystems.AdjustedIdempotent | src/particle_system.hpp:684-724 | adjusting twice is adjusting once |
| ParticleSystems.AllDelivered | src/particle_system.hpp:612-638 | once every posted receive has completed, `ptcl_recv_` is the messages in source-rank order |
| ParticleSystems.SampleIsPicked | src/particle_system.hpp:452-461 | the i-th sample is the position of the particle picked at step i |
| ParticleSystems.CountsCoverBuckets | src/particle_system.hpp:517-522 | the pass-1 counts are the bucket lengths, their total is the send-buffer length, and the own-rank count is 0 |
| ParticleSystems.PassTwoEnd | src/particle_system.hpp:532-548 | at the end of pass 2, the compacted prefix is the kept particles, the send buffer is the buckets in rank order, and the counts were rebuilt |
| ParticleSystems.CompactAndScatter | src/particle_system.hpp:532-548 | pass 2 compacts the staying particles in order and lays out the leaving ones by destination |
| ParticleSystems.ParticleSystem.constructor | src/particle_system.hpp:71-76 | all flags are set and the sample target is 30 per process |
| ParticleSystems.ParticleSystem.Initialize | src/particle_system.hpp:78-82 | allowed once; clears its flag |
| ParticleSystems.ParticleSystem.SetAverageTargetNumberOfSampleParticlePerProcess | src/particle_system.hpp:84-88 | allowed once; the target becomes the per-process number times the process count |
| ParticleSystems.ParticleSystem.GetFirstCallByDomainInfoCollectSampleParticle | src/particle_system.hpp:94-101 | true on the first call only |
| ParticleSystems.ParticleSystem.Reserve | src/particle_system.hpp:106 | the reserved capacity never shrinks and reaches at least n |
| ParticleSystems.ParticleSystem.CreateParticle | src/particle_system.hpp:103-108 | the store is empty and at least `n_limit` slots are reserved |
| ParticleSystems.ParticleSystem.SetNumberOfParticleLocal | src/particle_system.hpp:112-116 | the store has n particles, the common prefix is kept, and at least 3n+1000 slots are reserved |
| ParticleSystems.ParticleSystem.GetSampleParticle | src/particle_system.hpp:419-474 | the store is unchanged, k is the clamped sample count, and the samples are the positions of the k picked particles |
| ParticleSystems.ParticleSystem.SwapForward | src/particle_system.hpp:451-458 | the store is the shuffled store and the record holds the draws |
| ParticleSystems.ParticleSystem.SwapBack | src/particle_system.hpp:463-468 | the store becomes Unshuffled of the shuffled store, which is the original store |
| ParticleSystems.ParticleSystem.AdjustPositionIntoRootDomain | src/particle_system.hpp:684-724 | the store becomes `Adjusted` of the old store |
| ParticleSystems.ParticleSystem.CountOutgoing | src/particle_system.hpp:507-522 | aborts exactly when some particle is outside the root; otherwise the counts are the bucket lengths |
| ParticleSystems.ParticleSystem.AlignSendParticles | src/particle_system.hpp:523-548 | the store becomes the kept particles and the send buffer the buckets in rank order |
| ParticleSystems.ParticleSystem.ReceiveParticles | src/particle_system.hpp:578-652 | the receive buffer is the messages in source order, and the store is the old store followed by them |
| ParticleSystems.ParticleSystem.WaitReceives | src/particle_system.hpp:637-638 | after all posted receives complete, the receive buffer is the concatenated messages |
| ParticleSystems.ParticleSystem.AppendReceived | src/particle_system.hpp:648-652 | the store is the old store followed by the receive buffer |
| Collective.ExchangeParticle | src/particle_system.hpp:477-665 | aborts, changing nothing, exactly when some rank holds a particle outside the root; otherwise every store becomes `Exchanged`, the global multiset is conserved, and each rank holds only its own particles; only the store, buffer and capacity fields are framed, so the flags and sample target of every rank stay as they were |
| Collective.CountAll | src/particle_system.hpp:507-522 | pass 1 on every rank: the run aborts exactly when some particle is outside the root; otherwise each rank's counts are its bucket lengths |
| Collective.OffsetsAll | src/particle_system.hpp:523-526 | every rank's `nsend0` is the prefix sums of its counts |
| Collective.AlignAll | src/particle_system.hpp:523-548 | every rank keeps its staying particles and posts its buckets at their offsets; only the store and send-buffer fields are framed, so the flags and sample target of every rank stay as they were |
| Collective.Redistribute | src/particle_system.hpp:523-652 | from pass 2 on, the stores end as `Exchanged` of the stores before; only the store, buffer and capacity fields are framed, so the flags and sample target of every rank stay as they were |
| Collective.Messages | src/particle_system.hpp:619-636 | the message from s to r is s's bucket for r, read at its offset, and has the count r received |
| Collective.Gather | src/particle_system.hpp:578-636 | every rank's incoming messages are the buckets addressed to it |
| Collective.ReceiveAll | src/particle_system.hpp:640-652 | every rank's store is its kept particles followed by its incoming messages; only the store, buffer and capacity fields are framed, so the flags and sample target of every rank stay as they were |
| Collective.DeliverAll | src/particle_system.hpp:578-652 | every rank ends with its kept particles followed by the buckets addressed to it, in sender order; only the store, buffer and capacity fields are framed, so the flags and sample target of every rank stay as they were |
| Collective.AddressedIsInbox | src/particle_system.hpp:578-652 | the buckets addressed to r are r's inbox |
| Collective.DeliveredIsExchanged | src/particle_system.hpp:640-652 | kept plus addressed buckets, per rank, is the exchanged store |
| Collective.Settled | src/particle_system.hpp:477-665 | the exchanged stores conserve the particles and sit inside their domains |

## Left out

- MPI itself is replaced by a global view. `Collective` runs the ranks' local steps one
  after another over a sequence of `ParticleSystem` objects. The two collectives become
  value exchanges:
  - `Alltoall` of the counts;
  - the completed `Isend`/`Irecv`/`Waitall` ring, in which each receive gets the
    sender's bucket slice.

  Message timing, request handles, deadlock and failure are not modelled.
- Send completion has no local effect on the sender, so the model does not represent it.
- `Abort(-1)` in pass 1 becomes an `aborted` result, with every store left unchanged. The
  error messages are not modelled.
- `notOverlapped` of the root orthotope comes from a file that is not part of this model.
  It is modelled as the complement of the half-open `InDomain` test.
- Coordinates are `real`. Floating-point rounding is not modelled (F64 positions; the
  `F32` weight in sampling).
- `adjustPositionIntoRootDomain` wraps all three axes and never reads the boundary
  condition set through `setBoundaryCondition` (`sample/sph/main.cpp:271` sets it to
  periodic in x, y and z). The model follows the code.
- Only the MPI build (`PARTICLE_SIMULATOR_MPI_PARALLEL`) is modelled. The serial build
  differs in three places:
  - `getSampleParticle` compiles to an empty body and sets no sample count;
  - `exchangeParticle` compiles to an empty body, with no abort and no exchange;
  - `getNumberOfParticleGlobal` returns `ptcl_.size()`.
- The ring-matching lemmas (Ring.SendIsReceived, Ring.ReceiveIsSent) are proved about the
  schedule that Ring.PostRequests posts. Collective.Messages instead takes each message as
  the sender's bucket slice at its offset, so the collective proof does not go through the
  posted send requests.
- `getSampleParticle`:
  - the weighted share `k0` and the lower limit, which the source computes in floating
    point from an `Allreduce` and a global sum, are integer inputs;
  - the random draws are an input sequence with `i <= draws[i] < nloc`.
- Domain.Walk: it carries an index guard `idomain < |boxes|` where the source reads past
  the array without checking. Under a tiling the guard never decides (`RouteFindsOwner`).
- The two-dimensional branches (`PARTICLE_SIMULATOR_TWO_DIMENSION`) are not modelled.
  OpenMP parallelism in `adjustPositionIntoRootDomain` is not modelled either: its
  iterations are independent, and the model runs them in order.
- `resizeNoInitialize` fills new slots with a fixed `Blank` particle. The source leaves
  them uninitialised, but they are always written before being read.
- Reserved capacity is a ghost `capacity` that never shrinks. Memory sizes
  (`getMemSizeUsed`) are not modelled.
- Pass 2 works on value copies of `ptcl_` and `ptcl_send_` (CompactAndScatter) and
  writes them back. The source updates the vectors in place; the order of writes is the
  same.
- Some single source functions are split into several methods to keep each proof small:
  - `getSampleParticle` into SwapForward and SwapBack;
  - `exchangeParticle` into CountOutgoing, AlignSendParticles and ReceiveParticles, and
    ReceiveParticles further into WaitReceives and AppendReceived;
  - the collective driver into CountAll, AlignAll, Redistribute, Gather and ReceiveAll.
- ParticleSystems.ParticleSystem.ReceiveParticles: requires `nrecv1[rank] == 0`. The
  ring never posts a receive from the own rank, and ownership makes the own-rank count 0
  (CountsCoverBuckets).
- ParticleSystems.ParticleSystem.Initialize: the source's `assert` on the one-shot flag
  becomes a precondition. The same holds for
  `setAverageTargetNumberOfSampleParticlePerProcess`.
- The following are not modelled:
  - ASCII and binary particle file I/O (`readParticleAscii`, `writeParticleAscii` and their
    `DummyHeader`), beyond the count split and displacement arithmetic they contain;
  - `getHalfLength`, `getParticleDomain`, `calcCMDirect`, and the debug checks
    `checkExchangeParticleAllParticleInside` and
    `checkExchangeParticleSumOfNumberOfParticle` (only declared here);
  - the plain getters (`getTargetNumberOfSampleParticle`, `getNumberOfParticleLocal`,
    `operator[]`, `getParticle`, `getParticlePointer`), which only read a field;
  - the random-number helpers `frand` and `getUniformDistributionFromArg1ToArg2`, whose
    results are the `draws` input of GetSampleParticle;
  - the sample programs (`sample/sph/main.cpp`, `sample/nbody/OpenCLDevice.hpp`).
- Integers are unbounded. The source's `S32` counts and offsets could overflow past
  2^31 particles, and the model does not represent this.
