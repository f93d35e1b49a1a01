/**
 The virtio block driver and its device (sections 2.6 and 5.2 of Virtio 1.1):
 a table of descriptors, the ring of chains the driver makes available, the
 ring of chains the device has used, and 16-bit indices into both that run on
 without being reduced modulo the ring size.
 */
module Virtio {
  import Blocks
  import opened Collections

  const NUM := 8
  const U16 := 65536
  const STATUS_PENDING := 0xff

  datatype Addr = Null | Op(i: nat) | Data(buf: nat) | Status(i: nat)

  /** `write` and `more` are the flags VRING_DESC_F_WRITE and VRING_DESC_F_NEXT. */
  datatype Desc = Desc(addr: Addr, len: nat, write: bool, more: bool, next: nat)

  datatype Info = Info(buf: nat, status: nat)    // buffer 0 is none

  datatype Req = Req(write: bool, sector: nat)

  /** How far a request has come: in the available ring, with the device, in
      the used ring, seen by the interrupt handler. */
  datatype Phase = Submitted | Taken | Completed | Drained

  datatype Chain = Chain(data: nat, status: nat, buf: nat, req: Req, phase: Phase)

  type Chains = map<nat, Chain>

  // ----- what every step keeps -----

  /** Each chain has three descriptors of its own; the rest are free. */
  ghost predicate Owned(free: seq<bool>, owner: map<nat, nat>, chains: Chains) {
    && |free| == NUM
    && (forall i: nat :: i < NUM ==> (free[i] <==> i !in owner))
    && (forall i :: i in owner ==> i < NUM && owner[i] in chains && In(i, owner[i], chains[owner[i]]))
    && (forall h :: h in chains ==> Owns(owner, h, chains[h]))
  }

  predicate In(i: nat, h: nat, c: Chain) {
    i == h || i == c.data || i == c.status
  }

  predicate Owns(owner: map<nat, nat>, h: nat, c: Chain) {
    && Distinct3(h, c.data, c.status)
    && h in owner && owner[h] == h && c.data in owner && owner[c.data] == h && c.status in owner && owner[c.status] == h
  }

  predicate Distinct3(a: nat, b: nat, c: nat) {
    a != b && a != c && b != c
  }

  /** The descriptors say what the request is, and info whose it is. */
  ghost predicate ChainFormed(desc: seq<Desc>, info: seq<Info>, ops: seq<Req>, h: nat, c: Chain) {
    && |desc| == |info| == |ops| == NUM && h < NUM && c.data < NUM && c.status < NUM
    && desc[h] == Desc(Op(h), 16, false, true, c.data)
    && desc[c.data] == Desc(Data(c.buf), Blocks.BSIZE, !c.req.write, true, c.status)
    && desc[c.status] == Desc(Status(h), 1, true, false, 0)
    && info[h] == Info(c.buf, if c.phase == Completed || c.phase == Drained then 0 else STATUS_PENDING)
    && ops[h] == c.req && c.buf != 0
  }

  ghost predicate Formed(desc: seq<Desc>, info: seq<Info>, ops: seq<Req>, chains: Chains) {
    forall h :: h in chains ==> ChainFormed(desc, info, ops, h, chains[h])
  }

  /** Entries lo..hi of a ring are the heads in `at`, each at the place given there. */
  ghost predicate RingHolds(ring: seq<nat>, at: map<nat, nat>, lo: nat, hi: nat) {
    && |ring| == NUM && lo <= hi
    && (forall k: nat {:trigger ring[k % NUM]} :: lo <= k < hi ==> ring[k % NUM] in at && at[ring[k % NUM]] == k)
    && (forall h :: h in at ==> lo <= at[h] < hi && ring[at[h] % NUM] == h)
  }

  /** The heads in a ring are the chains in the phase that goes with it. */
  ghost predicate InPhase(at: map<nat, nat>, chains: Chains, phase: Phase) {
    forall h :: h in at <==> h in chains && chains[h].phase == phase
  }

  /** A buffer is marked as on the disk until its completion has been seen;
      no two requests share a buffer. */
  ghost predicate Buffers(onDisk: set<nat>, chains: Chains) {
    && (forall h :: h in chains ==> (chains[h].buf in onDisk <==> chains[h].phase != Drained))
    && (forall h, g :: h in chains && g in chains && h != g ==> chains[h].buf != chains[g].buf)
  }

  // ----- the rings -----

  /** Taking the oldest entry off. */
  lemma RingPop(ring: seq<nat>, at: map<nat, nat>, lo: nat, hi: nat)
    requires RingHolds(ring, at, lo, hi) && lo < hi
    ensures ring[lo % NUM] in at && RingHolds(ring, at - {ring[lo % NUM]}, lo + 1, hi)
  {
  }

  /** A ring of chains has a free entry for one more chain, so none is overwritten. */
  lemma RingPush(ring: seq<nat>, at: map<nat, nat>, lo: nat, hi: nat, h: nat)
    requires RingHolds(ring, at, lo, hi) && h < NUM && h !in at && forall g :: g in at ==> g < NUM
    ensures hi - lo < NUM && RingHolds(ring[hi % NUM := h], at[h := hi], lo, hi + 1)
  {
    RingSize(ring, at, lo, hi);
    BoundedSize(at.Keys + {h}, NUM);
    forall k: nat | lo <= k < hi ensures k % NUM != hi % NUM {
      SlotsDiffer(k, hi, NUM);
    }
    RingPushed(ring, at, lo, hi, h);
  }

  lemma RingPushed(ring: seq<nat>, at: map<nat, nat>, lo: nat, hi: nat, h: nat)
    requires RingHolds(ring, at, lo, hi) && h !in at && forall k: nat :: lo <= k < hi ==> k % NUM != hi % NUM
    ensures RingHolds(ring[hi % NUM := h], at[h := hi], lo, hi + 1)
  {
  }

  lemma {:induction false} RingSize(ring: seq<nat>, at: map<nat, nat>, lo: nat, hi: nat)
    requires RingHolds(ring, at, lo, hi)
    ensures hi - lo <= |at.Keys|
    decreases hi - lo
  {
    if lo < hi {
      RingPop(ring, at, lo, hi);
      RingSize(ring, at - {ring[lo % NUM]}, lo + 1, hi);
      assert (at - {ring[lo % NUM]}).Keys == at.Keys - {ring[lo % NUM]};
    }
  }

  /** 16-bit indices tell an empty ring from one that is not, and their
      remainders modulo NUM go on being right when they wrap. */
  lemma IndicesWrap(ring: seq<nat>, at: map<nat, nat>, lo: nat, hi: nat)
    requires RingHolds(ring, at, lo, hi) && forall g :: g in at ==> g < NUM
    ensures lo % U16 == hi % U16 <==> lo == hi
    ensures lo % U16 % NUM == lo % NUM && hi % U16 % NUM == hi % NUM && (hi % U16 + 1) % U16 == (hi + 1) % U16
    ensures (lo % U16 + 1) % U16 == (lo + 1) % U16
  {
    RingSize(ring, at, lo, hi);
    BoundedSize(at.Keys, NUM);
    hide RingHolds;
    WrapOne(lo);
    WrapOne(hi);
    WrapBoth(lo, hi);
  }

  lemma WrapOne(x: nat)
    ensures x % U16 % NUM == x % NUM && (x % U16 + 1) % U16 == (x + 1) % U16
  {
    assert x == x / U16 * U16 + x % U16;
  }

  lemma WrapBoth(lo: nat, hi: nat)
    requires 0 <= hi - lo <= NUM
    ensures lo % U16 == hi % U16 <==> lo == hi
  {
  }

  // ----- the steps, on the shared memory as a value -----

  /** The driver's and the device's memory, with what is in flight: `avail` and
      `used` entries taken..submitted and drained..completed are waiting. */
  datatype Disk = Disk(free: seq<bool>, desc: seq<Desc>, info: seq<Info>, ops: seq<Req>, avail: seq<nat>,
                       used: seq<nat>, onDisk: set<nat>,
                       chains: Chains, owner: map<nat, nat>, availAt: map<nat, nat>, usedAt: map<nat, nat>,
                       taken: nat, submitted: nat, drained: nat, completed: nat)

  ghost predicate Ok(d: Disk) {
    && |d.free| == |d.avail| == |d.used| == NUM && Owned(d.free, d.owner, d.chains)
    && |d.desc| == |d.info| == |d.ops| == NUM && Formed(d.desc, d.info, d.ops, d.chains)
    && RingHolds(d.avail, d.availAt, d.taken, d.submitted) && InPhase(d.availAt, d.chains, Submitted)
    && RingHolds(d.used, d.usedAt, d.drained, d.completed) && InPhase(d.usedAt, d.chains, Completed)
    && Buffers(d.onDisk, d.chains)
  }

  ghost predicate Unused(chains: Chains, buf: nat) {
    forall h :: h in chains ==> chains[h].buf != buf
  }

  function InPhaseNow(chains: Chains, h: nat, phase: Phase): Chains
    requires h in chains
  {
    chains[h := chains[h].(phase := phase)]
  }

  lemma HeadsBounded(d: Disk)
    requires Ok(d)
    ensures forall h :: h in d.chains ==> h < NUM && d.chains[h].data < NUM && d.chains[h].status < NUM
    ensures forall h :: h in d.availAt || h in d.usedAt ==> h < NUM
  {
  }

  /** The three descriptors of a request: its header, its data and its status byte. */
  function Linked3(desc: seq<Desc>, h: nat, m: nat, s: nat, buf: nat, req: Req): (r: seq<Desc>)
    requires h < |desc| && m < |desc| && s < |desc|
    ensures |r| == |desc|
  {
    desc[h := Desc(Op(h), 16, false, true, m)]
        [m := Desc(Data(buf), Blocks.BSIZE, !req.write, true, s)]
        [s := Desc(Status(h), 1, true, false, 0)]
  }

  /** virtio_disk_rw up to the notification, with descriptors h, m and s. */
  function Started(d: Disk, h: nat, m: nat, s: nat, buf: nat, req: Req): Disk
    requires |d.free| == |d.desc| == |d.info| == |d.ops| == |d.avail| == NUM && h < NUM && m < NUM && s < NUM
  {
    d.(free := d.free[h := false][m := false][s := false],
       ops := d.ops[h := req],
       desc := Linked3(d.desc, h, m, s, buf, req),
       info := d.info[h := Info(buf, STATUS_PENDING)],
       onDisk := d.onDisk + {buf},
       avail := d.avail[d.submitted % NUM := h],
       submitted := d.submitted + 1,
       availAt := d.availAt[h := d.submitted],
       owner := d.owner[h := h][m := h][s := h],
       chains := d.chains[h := Chain(m, s, buf, req, Submitted)])
  }

  lemma StartedOk(d: Disk, h: nat, m: nat, s: nat, buf: nat, req: Req)
    requires Ok(d) && h < NUM && m < NUM && s < NUM && Distinct3(h, m, s) && d.free[h] && d.free[m] && d.free[s]
    requires buf != 0 && Unused(d.chains, buf)
    ensures Ok(Started(d, h, m, s, buf, req))
  {
    hide RingHolds, Owned, Formed, InPhase, Buffers, Unused;
    HeadsBounded(d);
    var c := Chain(m, s, buf, req, Submitted);
    StartedOwned(d.free, d.owner, d.chains, h, m, s, c);
    StartedPhases(d, h, c);
    RingPush(d.avail, d.availAt, d.taken, d.submitted, h);
    StartedFormed(d, h, m, s, buf, req);
  }

  lemma StartedPhases(d: Disk, h: nat, c: Chain)
    requires InPhase(d.availAt, d.chains, Submitted) && InPhase(d.usedAt, d.chains, Completed)
    requires Buffers(d.onDisk, d.chains)
    requires h !in d.chains && c.phase == Submitted && Unused(d.chains, c.buf)
    ensures h !in d.availAt && InPhase(d.availAt[h := d.submitted], d.chains[h := c], Submitted)
    ensures InPhase(d.usedAt, d.chains[h := c], Completed) && Buffers(d.onDisk + {c.buf}, d.chains[h := c])
  {
  }

  lemma StartedOwned(free: seq<bool>, owner: map<nat, nat>, chains: Chains, h: nat, m: nat, s: nat, c: Chain)
    requires |free| == NUM && h < NUM && m < NUM && s < NUM
    requires Owned(free, owner, chains) && Distinct3(h, m, s) && free[h] && free[m] && free[s] && c.data == m
    requires c.status == s
    ensures h !in chains
    ensures Owned(free[h := false][m := false][s := false], owner[h := h][m := h][s := h], chains[h := c])
  {
    if h in chains {
      InUse(free, owner, chains, h);
    }
  }

  /** A chain's descriptors are not free, and not another chain's. */
  lemma InUse(free: seq<bool>, owner: map<nat, nat>, chains: Chains, h: nat)
    requires Owned(free, owner, chains) && h in chains
    ensures var c := chains[h]; h < NUM && c.data < NUM && c.status < NUM && Distinct3(h, c.data, c.status)
    ensures var c := chains[h]; |free| == NUM && !free[h] && !free[c.data] && !free[c.status]
    ensures forall g, i :: g in chains && g != h && In(i, g, chains[g]) ==> !In(i, h, chains[h])
  {
  }

  /** Changes to free descriptors do not matter to any chain. */
  lemma FormedKept(free: seq<bool>, owner: map<nat, nat>, chains: Chains, desc: seq<Desc>, info: seq<Info>,
                   ops: seq<Req>,
                   desc': seq<Desc>, info': seq<Info>, ops': seq<Req>)
    requires Owned(free, owner, chains) && Formed(desc, info, ops, chains) && |free| == NUM
    requires |desc| == |info| == |ops| == |desc'| == |info'| == |ops'| == NUM
    requires forall i :: 0 <= i < NUM && !free[i] ==> desc'[i] == desc[i] && info'[i] == info[i] && ops'[i] == ops[i]
    ensures Formed(desc', info', ops', chains)
  {
  }

  lemma StartedFormed(d: Disk, h: nat, m: nat, s: nat, buf: nat, req: Req)
    requires |d.free| == |d.desc| == |d.info| == |d.ops| == |d.avail| == NUM && h < NUM && m < NUM && s < NUM
    requires buf != 0
    requires Owned(d.free, d.owner, d.chains) && Formed(d.desc, d.info, d.ops, d.chains) && Distinct3(h, m, s)
    requires d.free[h] && d.free[m] && d.free[s]
    ensures var d' := Started(d, h, m, s, buf, req); Formed(d'.desc, d'.info, d'.ops, d'.chains)
  {
    hide Owned;
    var d' := Started(d, h, m, s, buf, req);
    FormedKept(d.free, d.owner, d.chains, d.desc, d.info, d.ops, d'.desc, d'.info, d'.ops);
    assert ChainFormed(d'.desc, d'.info, d'.ops, h, d'.chains[h]);
  }

  /** The device reads one entry of the available ring. */
  ghost function TakenOne(d: Disk): Disk
    requires |d.avail| == NUM && d.avail[d.taken % NUM] in d.chains
  {
    var h := d.avail[d.taken % NUM];
    d.(taken := d.taken + 1, availAt := d.availAt - {h}, chains := InPhaseNow(d.chains, h, Taken))
  }

  /** The device finishes a chain it has taken. */
  ghost function CompletedOne(d: Disk, h: nat): Disk
    requires |d.info| == |d.used| == NUM && h < NUM && h in d.chains
  {
    d.(info := d.info[h := d.info[h].(status := 0)], used := d.used[d.completed % NUM := h],
       completed := d.completed + 1,
       usedAt := d.usedAt[h := d.completed], chains := InPhaseNow(d.chains, h, Completed))
  }

  /** One round of virtio_disk_intr's loop. */
  ghost function DrainedOne(d: Disk): Disk
    requires |d.used| == NUM && d.used[d.drained % NUM] in d.chains
  {
    var h := d.used[d.drained % NUM];
    d.(drained := d.drained + 1, usedAt := d.usedAt - {h}, onDisk := d.onDisk - {d.chains[h].buf},
       chains := InPhaseNow(d.chains, h, Drained))
  }

  /** The end of virtio_disk_rw. */
  ghost function Finished(d: Disk, h: nat): Disk
    requires h in d.chains && |d.free| == |d.desc| == |d.info| == NUM && h < NUM && d.chains[h].data < NUM
    requires d.chains[h].status < NUM
  {
    var m, s := d.chains[h].data, d.chains[h].status;
    d.(free := d.free[h := true][m := true][s := true],
       desc := d.desc[h := ZERO_DESC][m := ZERO_DESC][s := ZERO_DESC],
       info := d.info[h := d.info[h].(buf := 0)],
       owner := d.owner - {h, m, s}, chains := d.chains - {h})
  }

  const ZERO_DESC := Desc(Null, 0, false, false, 0)

  lemma PhaseOwned(free: seq<bool>, owner: map<nat, nat>, chains: Chains, h: nat, phase: Phase)
    requires Owned(free, owner, chains) && h in chains
    ensures Owned(free, owner, InPhaseNow(chains, h, phase))
  {
  }

  lemma PhaseMoved(at: map<nat, nat>, chains: Chains, h: nat, to: Phase, q: Phase, k: nat)
    requires InPhase(at, chains, q) && h in chains && chains[h].phase != to
    ensures q == to ==> InPhase(at[h := k], InPhaseNow(chains, h, to), q)
    ensures q == chains[h].phase ==> h in at && InPhase(at - {h}, InPhaseNow(chains, h, to), q)
    ensures q != to && q != chains[h].phase ==> h !in at && InPhase(at, InPhaseNow(chains, h, to), q)
    ensures q == to ==> h !in at
  {
  }

  /** The status byte of a moved chain, if it changes, is its own. */
  lemma PhaseFormed(desc: seq<Desc>, info: seq<Info>, ops: seq<Req>, chains: Chains, h: nat, to: Phase)
    requires Formed(desc, info, ops, chains) && |desc| == |info| == |ops| == NUM && h < NUM && h in chains
    ensures to == Completed ==> Formed(desc, info[h := info[h].(status := 0)], ops, InPhaseNow(chains, h, to))
    ensures (to == Taken && chains[h].phase == Submitted) || (to == Drained && chains[h].phase == Completed) ==>
              Formed(desc, info, ops, InPhaseNow(chains, h, to))
  {
    assert ChainFormed(desc, info, ops, h, chains[h]);
  }

  lemma PhaseBuffers(onDisk: set<nat>, chains: Chains, h: nat, to: Phase)
    requires Buffers(onDisk, chains) && h in chains && chains[h].phase != Drained
    ensures Buffers(if to == Drained then onDisk - {chains[h].buf} else onDisk, InPhaseNow(chains, h, to))
  {
  }

  lemma TakenOk(d: Disk)
    requires Ok(d) && d.taken < d.submitted
    ensures d.avail[d.taken % NUM] in d.chains && d.chains[d.avail[d.taken % NUM]].phase == Submitted && Ok(TakenOne(d))
  {
    hide RingHolds, Owned, Formed, InPhase, Buffers, InPhaseNow;
    HeadsBounded(d);
    RingPop(d.avail, d.availAt, d.taken, d.submitted);
    var h := d.avail[d.taken % NUM];
    RingChain(d.availAt, d.chains, Submitted, h);
    PhaseOwned(d.free, d.owner, d.chains, h, Taken);
    PhaseMoved(d.availAt, d.chains, h, Taken, Submitted, 0);
    PhaseMoved(d.usedAt, d.chains, h, Taken, Completed, 0);
    PhaseFormed(d.desc, d.info, d.ops, d.chains, h, Taken);
    PhaseBuffers(d.onDisk, d.chains, h, Taken);
  }

  lemma RingChain(at: map<nat, nat>, chains: Chains, phase: Phase, h: nat)
    requires InPhase(at, chains, phase) && h in at
    ensures h in chains && chains[h].phase == phase
  {
  }

  lemma CompletedOk(d: Disk, h: nat)
    requires Ok(d) && h in d.chains && d.chains[h].phase == Taken
    ensures h < NUM && Ok(CompletedOne(d, h))
  {
    hide RingHolds, Owned, Formed, InPhase, Buffers, InPhaseNow;
    HeadsBounded(d);
    PhaseMoved(d.usedAt, d.chains, h, Completed, Completed, d.completed);
    PhaseMoved(d.availAt, d.chains, h, Completed, Submitted, 0);
    RingPush(d.used, d.usedAt, d.drained, d.completed, h);
    PhaseOwned(d.free, d.owner, d.chains, h, Completed);
    PhaseFormed(d.desc, d.info, d.ops, d.chains, h, Completed);
    PhaseBuffers(d.onDisk, d.chains, h, Completed);
  }

  lemma DrainedOk(d: Disk)
    requires Ok(d) && d.drained < d.completed
    ensures var h := d.used[d.drained % NUM];
      && h in d.chains && d.chains[h].phase == Completed && h < NUM && d.info[h] == Info(d.chains[h].buf, 0)
      && Ok(DrainedOne(d))
  {
    hide RingHolds, Owned, InPhase, Buffers, InPhaseNow;
    HeadsBounded(d);
    RingPop(d.used, d.usedAt, d.drained, d.completed);
    var h := d.used[d.drained % NUM];
    RingChain(d.usedAt, d.chains, Completed, h);
    assert ChainFormed(d.desc, d.info, d.ops, h, d.chains[h]);
    hide Formed;
    PhaseOwned(d.free, d.owner, d.chains, h, Drained);
    PhaseMoved(d.usedAt, d.chains, h, Drained, Completed, 0);
    PhaseMoved(d.availAt, d.chains, h, Drained, Submitted, 0);
    PhaseFormed(d.desc, d.info, d.ops, d.chains, h, Drained);
    PhaseBuffers(d.onDisk, d.chains, h, Drained);
  }

  lemma FinishedOk(d: Disk, h: nat)
    requires Ok(d) && h in d.chains && d.chains[h].phase == Drained
    ensures h < NUM && d.chains[h].data < NUM && d.chains[h].status < NUM && Ok(Finished(d, h))
  {
    hide RingHolds, Owned, Formed, InPhase, Buffers;
    HeadsBounded(d);
    FinishedOwned(d.free, d.owner, d.chains, h);
    FinishedFormed(d, h);
    FinishedPhases(d, h);
  }

  lemma FinishedPhases(d: Disk, h: nat)
    requires InPhase(d.availAt, d.chains, Submitted) && InPhase(d.usedAt, d.chains, Completed)
    requires Buffers(d.onDisk, d.chains)
    requires h in d.chains && d.chains[h].phase == Drained
    ensures InPhase(d.availAt, d.chains - {h}, Submitted) && InPhase(d.usedAt, d.chains - {h}, Completed)
    ensures Buffers(d.onDisk, d.chains - {h})
  {
  }

  lemma FinishedOwned(free: seq<bool>, owner: map<nat, nat>, chains: Chains, h: nat)
    requires Owned(free, owner, chains) && h in chains && |free| == NUM && h < NUM && chains[h].data < NUM
    requires chains[h].status < NUM
    ensures var m, s := chains[h].data, chains[h].status;
      Owned(free[h := true][m := true][s := true], owner - {h, m, s}, chains - {h})
  {
    InUse(free, owner, chains, h);
  }

  lemma FinishedFormed(d: Disk, h: nat)
    requires |d.free| == |d.desc| == |d.info| == |d.ops| == NUM && Owned(d.free, d.owner, d.chains)
    requires Formed(d.desc, d.info, d.ops, d.chains)
    requires h in d.chains && h < NUM && d.chains[h].data < NUM && d.chains[h].status < NUM
    ensures var d' := Finished(d, h); Formed(d'.desc, d'.info, d'.ops, d'.chains)
  {
    hide Owned, ChainFormed;
    var d' := Finished(d, h);
    FinishedOwned(d.free, d.owner, d.chains, h);
    FormedKept(d'.free, d'.owner, d'.chains, d.desc, d.info, d.ops, d'.desc, d'.info, d'.ops);
  }

  // ----- runs -----

  /** A request begun, the device taking or finishing one, the handler seeing
      one, a request ended: in any order. */
  datatype Step = Start(h: nat, m: nat, s: nat, buf: nat, req: Req) | Take | Complete(h: nat) | Drain | Finish(h: nat)

  /** A request is begun on free descriptors, for a buffer that has none under way,
      which its sleep lock sees to; it ends when the buffer is no longer marked. */
  ghost predicate Enabled(d: Disk, step: Step) {
    match step
    case Start(h, m, s, buf, req) =>
      && |d.free| == NUM && h < NUM && m < NUM && s < NUM && Distinct3(h, m, s) && d.free[h] && d.free[m] && d.free[s]
      && buf != 0 && buf !in d.onDisk && Unused(d.chains, buf)
    case Take => d.taken < d.submitted
    case Complete(h) => h in d.chains && d.chains[h].phase == Taken
    case Drain => d.drained < d.completed
    case Finish(h) => h in d.chains && d.chains[h].buf !in d.onDisk
  }

  ghost function Apply(d: Disk, step: Step): Disk
    requires Ok(d) && Enabled(d, step)
  {
    StepDefined(d, step);
    match step
    case Start(h, m, s, buf, req) => Started(d, h, m, s, buf, req)
    case Take => TakenOne(d)
    case Complete(h) => CompletedOne(d, h)
    case Drain => DrainedOne(d)
    case Finish(h) => Finished(d, h)
  }

  lemma StepDefined(d: Disk, step: Step)
    requires Ok(d) && Enabled(d, step)
    ensures step.Take? ==> d.avail[d.taken % NUM] in d.chains
    ensures step.Drain? ==> d.used[d.drained % NUM] in d.chains
    ensures step.Complete? || step.Finish? ==>
              step.h < NUM && d.chains[step.h].data < NUM && d.chains[step.h].status < NUM
    ensures step.Finish? ==> d.chains[step.h].phase == Drained
  {
    hide Owned, Formed;
    HeadsBounded(d);
    if step.Take? {
      TakenOk(d);
    } else if step.Drain? {
      DrainedOk(d);
    }
  }

  /** Every step keeps descriptors, chains and rings in order. */
  lemma StepOk(d: Disk, step: Step)
    requires Ok(d) && Enabled(d, step)
    ensures Ok(Apply(d, step))
  {
    StepDefined(d, step);
    hide Ok;
    match step
    case Start(h, m, s, buf, req) => StartedOk(d, h, m, s, buf, req);
    case Take => TakenOk(d);
    case Complete(h) => CompletedOk(d, h);
    case Drain => DrainedOk(d);
    case Finish(h) => FinishedOk(d, h);
  }

  lemma DrainIs(d: Disk)
    requires Ok(d) && Enabled(d, Step.Drain)
    ensures var h, d' := d.used[d.drained % NUM], Apply(d, Step.Drain);
      && h in d.chains && d.chains[h].phase == Completed && h < NUM && d.info[h] == Info(d.chains[h].buf, 0) && Ok(d')
      && d' == d.(drained := d.drained + 1, usedAt := d'.usedAt, onDisk := d.onDisk - {d.chains[h].buf},
                  chains := d'.chains)
  {
    hide Ok;
    DrainedOk(d);
  }

  ghost predicate Legal(d: Disk, run: seq<Step>)
    requires Ok(d)
    decreases |run|
  {
    run == [] || (Enabled(d, run[0]) && (StepOk(d, run[0]); Legal(Apply(d, run[0]), run[1..])))
  }

  ghost function Exec(d: Disk, run: seq<Step>): (d': Disk)
    requires Ok(d) && Legal(d, run)
    ensures Ok(d')
    decreases |run|
  {
    if run == [] then d else StepOk(d, run[0]); Exec(Apply(d, run[0]), run[1..])
  }

  /** The wakeups virtio_disk_intr does on `buf`. */
  ghost function Wakes(d: Disk, run: seq<Step>, buf: nat): nat
    requires Ok(d) && Legal(d, run)
    decreases |run|
  {
    if run == [] then 0 else
      StepOk(d, run[0]);
      StepWakes(d, run[0], buf) + Wakes(Apply(d, run[0]), run[1..], buf)
  }

  ghost function StepWakes(d: Disk, step: Step, buf: nat): nat
    requires Ok(d) && Enabled(d, step)
  {
    StepDefined(d, step);
    if step.Drain? && d.chains[d.used[d.drained % NUM]].buf == buf then 1 else 0
  }

  ghost function Starts(run: seq<Step>, buf: nat): nat {
    if run == [] then 0 else StepStarts(run[0], buf) + Starts(run[1..], buf)
  }

  ghost function StepStarts(step: Step, buf: nat): nat {
    if step.Start? && step.buf == buf then 1 else 0
  }

  ghost function UnderWay(d: Disk, buf: nat): nat {
    if buf in d.onDisk then 1 else 0
  }

  /** In every run, every request of a buffer is answered by one wakeup of that
      buffer, except one that may still be under way. */
  lemma {:induction false} WakesMatchStarts(d: Disk, run: seq<Step>, buf: nat)
    requires Ok(d) && Legal(d, run)
    ensures UnderWay(d, buf) + Starts(run, buf) == Wakes(d, run, buf) + UnderWay(Exec(d, run), buf)
    decreases |run|
  {
    hide Ok, Enabled, Apply, UnderWay, StepStarts, StepWakes;
    if run != [] {
      StepOk(d, run[0]);
      StepMatches(d, run[0], buf);
      WakesMatchStarts(Apply(d, run[0]), run[1..], buf);
    }
  }

  lemma StepMatches(d: Disk, step: Step, buf: nat)
    requires Ok(d) && Enabled(d, step)
    ensures UnderWay(d, buf) + StepStarts(step, buf) == StepWakes(d, step, buf) + UnderWay(Apply(d, step), buf)
  {
    hide Ok, Unused, Distinct3, InPhaseNow;
    StepDefined(d, step);
    if step.Drain? {
      DrainedMarked(d);
    }
  }

  lemma DrainedMarked(d: Disk)
    requires Ok(d) && d.drained < d.completed
    ensures d.used[d.drained % NUM] in d.chains && d.chains[d.used[d.drained % NUM]].buf in d.onDisk
  {
  }

  // ----- the driver and the device -----

  /** The handler seeing all completions there are. */
  ghost function DrainAll(d: Disk): (d': Disk)
    requires Ok(d)
    ensures Ok(d')
    decreases d.completed - d.drained
  {
    if d.drained < d.completed then StepOk(d, Step.Drain); DrainAll(Apply(d, Step.Drain)) else d
  }

  /** The buffers whose completions are waiting, oldest first. */
  ghost function Answers(d: Disk): seq<nat>
    requires Ok(d)
    decreases d.completed - d.drained
  {
    if d.drained < d.completed then
      StepOk(d, Step.Drain);
      StepDefined(d, Step.Drain);
      [d.chains[d.used[d.drained % NUM]].buf] + Answers(Apply(d, Step.Drain))
    else []
  }

  /** The `j`th completion waiting is that of a request for `buf`. */
  ghost predicate AnswerAt(d: Disk, j: nat, buf: nat) {
    && |d.used| == NUM
    && var h := d.used[(d.drained + j) % NUM]; h in d.chains && d.chains[h].phase == Completed && buf == d.chains[h].buf
  }

  lemma SomeLeft(d: Disk)
    requires Ok(d)
    ensures d.drained % U16 != d.completed % U16 <==> d.drained < d.completed
    ensures d.drained < d.completed <==> Enabled(d, Step.Drain)
    ensures d.drained <= d.completed
    ensures d.drained == d.completed ==> forall h :: h in d.chains ==> d.chains[h].phase != Completed
  {
    HeadsBounded(d);
    hide Owned, Formed;
    IndicesWrap(d.used, d.usedAt, d.drained, d.completed);
  }

  /** Seeing all completions marks exactly the completed chains, and answers them in ring order. */
  lemma {:induction false} DrainAllMeans(d: Disk)
    requires Ok(d)
    ensures var d' := DrainAll(d);
      && d'.drained == d'.completed == d.completed && d'.chains.Keys == d.chains.Keys
      && forall h :: h in d.chains ==>
           var c := d.chains[h];
           d'.chains[h] == if c.phase == Completed then c.(phase := Drained) else c
    ensures |Answers(d)| == d.completed - d.drained
    ensures forall j: nat :: j < |Answers(d)| ==> AnswerAt(d, j, Answers(d)[j])
    decreases d.completed - d.drained
  {
    hide Ok, Apply;
    SomeLeft(d);
    if d.drained < d.completed {
      StepOk(d, Step.Drain);
      DrainedNext(d);
      var d1 := Apply(d, Step.Drain);
      DrainAllMeans(d1);
      assert Answers(d) == [d.chains[d.used[d.drained % NUM]].buf] + Answers(d1);
      forall j: nat | j < |Answers(d)| ensures AnswerAt(d, j, Answers(d)[j]) {
        if j > 0 {
          assert AnswerAt(d1, j - 1, Answers(d1)[j - 1]) && d.drained + j == d1.drained + (j - 1);
        }
      }
    }
  }

  lemma DrainedNext(d: Disk)
    requires Ok(d) && d.drained < d.completed
    ensures Enabled(d, Step.Drain) && |d.used| == NUM
    ensures var h, d1 := d.used[d.drained % NUM], Apply(d, Step.Drain);
      && h in d.chains && d.chains[h].phase == Completed
      && d1.drained == d.drained + 1 && d1.completed == d.completed && d1.used == d.used
      && d1.chains == InPhaseNow(d.chains, h, Drained)
  {
  }

  lemma ChainThere(d: Disk, h: nat)
    requires Ok(d) && h in d.chains
    ensures var m, s := d.chains[h].data, d.chains[h].status;
      && h < NUM && m < NUM && s < NUM && Distinct3(h, m, s) && !d.free[h] && !d.free[m] && !d.free[s]
      && d.desc[h].more && d.desc[h].next == m && d.desc[m].more && d.desc[m].next == s && !d.desc[s].more
  {
    assert ChainFormed(d.desc, d.info, d.ops, h, d.chains[h]);
    InUse(d.free, d.owner, d.chains, h);
  }

  /** What the device finds at the head of a chain. */
  lemma Fetched(d: Disk, h: nat)
    requires Ok(d) && h in d.chains
    ensures h < NUM && d.desc[h].addr == Op(h) && d.ops[h] == d.chains[h].req
    ensures d.desc[h].next < NUM && d.desc[d.desc[h].next].addr == Data(d.chains[h].buf)
  {
    assert ChainFormed(d.desc, d.info, d.ops, h, d.chains[h]);
  }

  lemma UntakenOk(d: Disk, d': Disk)
    requires Ok(d) && d' == d.(desc := d'.desc) && |d'.desc| == NUM
    requires forall i :: 0 <= i < NUM && !d.free[i] ==> d'.desc[i] == d.desc[i]
    ensures Ok(d')
  {
  }

  class Driver {
    const free: array<bool>
    const desc: array<Desc>
    const info: array<Info>
    const ops: array<Req>
    const avail: array<nat>
    const used: array<nat>
    var availIdx: nat      // avail->idx
    var lastAvail: nat     // the device's place in the available ring
    var usedIdx: nat       // used->idx
    var seenIdx: nat       // disk.used_idx
    var onDisk: set<nat>   // the buffers with b->disk set
    ghost var chains: Chains
    ghost var owner: map<nat, nat>
    ghost var availAt: map<nat, nat>
    ghost var usedAt: map<nat, nat>
    ghost var taken: nat
    ghost var submitted: nat
    ghost var drained: nat
    ghost var completed: nat
    ghost var woken: seq<nat>   // the buffers virtio_disk_intr has woken

    ghost function Now(): Disk
      reads this, free, desc, info, ops, avail, used
    {
      Disk(free[..], desc[..], info[..], ops[..], avail[..], used[..], onDisk, chains, owner, availAt, usedAt, taken,
           submitted, drained, completed)
    }

    ghost predicate Sized() {
      free.Length == desc.Length == info.Length == ops.Length == avail.Length == used.Length == NUM && avail != used
    }

    ghost predicate Valid()
      reads this, free, desc, info, ops, avail, used
    {
      && Sized() && Ok(Now())
      && availIdx == submitted % U16 && lastAvail == taken % U16 && usedIdx == completed % U16
      && seenIdx == drained % U16
    }

    method AllocDesc() returns (i: int)
      requires Sized()
      modifies free
      ensures -1 <= i < NUM
      ensures i >= 0 ==> old(free[i]) && free[..] == old(free[..])[i := false]
      ensures i < 0 ==> free[..] == old(free[..]) && forall k :: 0 <= k < NUM ==> !free[k]
    {
      i := 0;
      while i < NUM
        invariant 0 <= i <= NUM && free[..] == old(free[..]) && forall k :: 0 <= k < i ==> !free[k]
      {
        if free[i] {
          free[i] := false;
          return;
        }
        i := i + 1;
      }
      return -1;
    }

    /** free_desc; its panics are the requires clause. */
    method FreeDesc(i: nat)
      requires Sized() && i < NUM && !free[i]
      modifies free, desc
      ensures free[..] == old(free[..])[i := true] && desc[..] == old(desc[..])[i := ZERO_DESC]
    {
      desc[i] := ZERO_DESC;
      free[i] := true;
    }

    /** alloc3_desc: three free descriptors, or none taken when there are not three. */
    method AllocThree() returns (ok: bool, h: nat, m: nat, s: nat)
      requires Sized()
      modifies free, desc
      ensures ok ==> h < NUM && m < NUM && s < NUM && Distinct3(h, m, s) && old(free[h]) && old(free[m]) && old(free[s])
      ensures ok ==> free[..] == old(free[..])[h := false][m := false][s := false] && desc[..] == old(desc[..])
      ensures !ok ==> free[..] == old(free[..]) && forall i :: 0 <= i < NUM && !free[i] ==> desc[i] == old(desc[i])
      ensures !ok ==> forall a, b, c :: 0 <= a < b < c < NUM ==> !(free[a] && free[b] && free[c])
    {
      var idx: seq<nat> := [];
      while |idx| < 3
        invariant |idx| <= 3 && desc[..] == old(desc[..])
        invariant forall j :: 0 <= j < |idx| ==> idx[j] < NUM && old(free[idx[j]])
        invariant forall j, k :: 0 <= j < k < |idx| ==> idx[j] != idx[k]
        invariant forall k: nat :: k < NUM ==> free[k] == (old(free[k]) && k !in idx)
      {
        var a := AllocDesc();
        if a < 0 {
          Undo(idx);
          return false, 0, 0, 0;
        }
        idx := idx + [a];
      }
      return true, idx[0], idx[1], idx[2];
    }

    /** alloc3_desc's loop for giving back what it has. */
    method Undo(idx: seq<nat>)
      requires Sized() && forall j :: 0 <= j < |idx| ==> idx[j] < NUM && !free[idx[j]]
      requires forall j, k :: 0 <= j < k < |idx| ==> idx[j] != idx[k]
      modifies free, desc
      ensures forall k: nat :: k < NUM ==> free[k] == (old(free[k]) || k in idx)
      ensures forall k: nat :: k < NUM && k !in idx ==> desc[k] == old(desc[k])
    {
      for j := 0 to |idx|
        invariant forall k: nat :: k < NUM ==> free[k] == (old(free[k]) || k in idx[..j])
        invariant forall k: nat :: k < NUM && k !in idx ==> desc[k] == old(desc[k])
      {
        FreeDesc(idx[j]);
      }
    }

    /** virtio_disk_rw up to its wait: false if it must sleep for descriptors first. */
    method Start(buf: nat, write: bool, blockno: nat) returns (ok: bool, h: nat)
      requires Valid() && buf != 0 && buf !in onDisk && Unused(chains, buf)
      modifies this, free, desc, info, ops, avail
      ensures Valid() && woken == old(woken)
      ensures ok ==> exists m: nat, s: nat {:trigger Step.Start(h, m, s, buf, Req(write, blockno * 2))} ::
                var step := Step.Start(h, m, s, buf, Req(write, blockno * 2));
                old(Enabled(Now(), step)) && Now() == old(Apply(Now(), step))
      ensures !ok ==>
                chains == old(chains) && free[..] == old(free[..])
                && forall a, b, c :: 0 <= a < b < c < NUM ==> !(free[a] && free[b] && free[c])
    {
      ghost var d := Now();
      hide Ok;
      var m, s;
      ok, h, m, s := AllocThree();
      if !ok {
        UntakenOk(d, Now());
        return;
      }
      StepOk(d, Step.Start(h, m, s, buf, Req(write, blockno * 2)));
      Format(h, m, s, buf, Req(write, blockno * 2), d);
    }

    /** Fill in three descriptors and make the chain available. */
    method Format(h: nat, m: nat, s: nat, buf: nat, req: Req, ghost d: Disk)
      requires Sized() && h < NUM && m < NUM && s < NUM
      requires |d.free| == |d.desc| == |d.info| == |d.ops| == |d.avail| == NUM
      requires availIdx == submitted % U16
      requires Now() == d.(free := d.free[h := false][m := false][s := false])
      modifies this`availIdx, this`onDisk, this`chains, this`owner, this`availAt, this`submitted, desc, info, ops, avail
      ensures Now() == Started(d, h, m, s, buf, req) && availIdx == submitted % U16
    {
      Describe(h, m, s, buf, req);
      Publish(h);
      onDisk := onDisk + {buf};
      chains, owner := chains[h := Chain(m, s, buf, req, Submitted)], owner[h := h][m := h][s := h];
    }

    method Describe(h: nat, m: nat, s: nat, buf: nat, req: Req)
      requires Sized() && h < NUM && m < NUM && s < NUM
      modifies desc, info, ops
      ensures ops[..] == old(ops[..])[h := req] && info[..] == old(info[..])[h := Info(buf, STATUS_PENDING)]
      ensures desc[..] == Linked3(old(desc[..]), h, m, s, buf, req)
    {
      ops[h] := req;
      desc[h] := Desc(Op(h), 16, false, true, m);
      desc[m] := Desc(Data(buf), Blocks.BSIZE, !req.write, true, s);
      desc[s] := Desc(Status(h), 1, true, false, 0);
      info[h] := Info(buf, STATUS_PENDING);
    }

    method Publish(h: nat)
      requires Sized() && availIdx == submitted % U16
      modifies this`availIdx, this`availAt, this`submitted, avail
      ensures avail[..] == old(avail[..])[old(submitted) % NUM := h] && submitted == old(submitted) + 1
      ensures availIdx == submitted % U16 && availAt == old(availAt)[h := old(submitted)]
    {
      WrapOne(submitted);
      avail[availIdx % NUM] := h;
      availIdx := (availIdx + 1) % U16;
      availAt, submitted := availAt[h := submitted], submitted + 1;
    }

    /** The device takes the next available chain and reads the request from its descriptors. */
    method TakeNext() returns (h: nat, req: Req, buf: nat)
      requires Valid() && Enabled(Now(), Step.Take)
      modifies this`lastAvail, this`chains, this`availAt, this`taken
      ensures Valid() && Now() == old(Apply(Now(), Step.Take))
      ensures h in chains && chains[h].phase == Taken && req == chains[h].req && buf == chains[h].buf
    {
      hide Ok;
      StepOk(Now(), Step.Take);
      StepDefined(Now(), Step.Take);
      WrapOne(taken);
      ghost var d' := Apply(Now(), Step.Take);
      h := avail[lastAvail % NUM];
      Fetched(Now(), h);
      req := ops[desc[h].addr.i];
      buf := desc[desc[h].next].addr.buf;
      lastAvail := (lastAvail + 1) % U16;
      chains, availAt, taken := d'.chains, d'.availAt, d'.taken;
    }

    /** The device finishes a chain it has taken, writes its status and adds it to the used ring. */
    method CompleteChain(h: nat)
      requires Valid() && Enabled(Now(), Step.Complete(h))
      modifies this`usedIdx, this`chains, this`usedAt, this`completed, info, used
      ensures Valid() && Now() == old(Apply(Now(), Step.Complete(h)))
    {
      hide Ok;
      StepOk(Now(), Step.Complete(h));
      WrapOne(completed);
      StepDefined(Now(), Step.Complete(h));
      ghost var d' := Apply(Now(), Step.Complete(h));
      info[h] := Info(info[h].buf, 0);
      used[usedIdx % NUM] := h;
      usedIdx := (usedIdx + 1) % U16;
      chains, usedAt, completed := d'.chains, d'.usedAt, d'.completed;
    }

    /** One round of virtio_disk_intr's loop; the status is never one that panics. */
    method SeeOne()
      requires Valid() && Enabled(Now(), Step.Drain)
      modifies this`seenIdx, this`onDisk, this`chains, this`usedAt, this`drained, this`woken
      ensures Valid() && Now() == old(Apply(Now(), Step.Drain))
      ensures old(used[drained % NUM] in chains && chains[used[drained % NUM]].phase == Completed)
      ensures woken == old(woken + [chains[used[drained % NUM]].buf])
    {
      hide Ok, Apply;
      DrainIs(Now());
      WrapOne(drained);
      ghost var d' := Apply(Now(), Step.Drain);
      var id := used[seenIdx % NUM];
      assert info[id].status == 0;    // where virtio_disk_intr would panic
      var b := info[id].buf;
      onDisk := onDisk - {b};
      woken := woken + [b];
      seenIdx := (seenIdx + 1) % U16;
      chains, usedAt, drained := d'.chains, d'.usedAt, d'.drained;
    }

    /** virtio_disk_intr: see every completion there is, in order. */
    method Intr()
      requires Valid()
      modifies this`seenIdx, this`onDisk, this`chains, this`usedAt, this`drained, this`woken
      ensures Valid() && Now() == old(DrainAll(Now())) && woken == old(woken) + old(Answers(Now()))
    {
      hide Ok, Apply, Enabled;
      while seenIdx != usedIdx
        invariant Valid() && DrainAll(Now()) == old(DrainAll(Now()))
        invariant woken + Answers(Now()) == old(woken) + old(Answers(Now()))
        decreases completed - drained
      {
        SomeLeft(Now());
        DrainedNext(Now());
        SeeOne();
      }
      SomeLeft(Now());
    }

    /** free_chain */
    method FreeChain(h: nat, ghost m: nat, ghost s: nat)
      requires Sized() && h < NUM && m < NUM && s < NUM && Distinct3(h, m, s) && !free[h] && !free[m] && !free[s]
      requires desc[h].more && desc[h].next == m && desc[m].more && desc[m].next == s && !desc[s].more
      modifies free, desc
      ensures free[..] == old(free[..])[h := true][m := true][s := true]
      ensures desc[..] == old(desc[..])[h := ZERO_DESC][m := ZERO_DESC][s := ZERO_DESC]
    {
      var i := h;
      ghost var f, d := free[..], desc[..];
      while true
        invariant i in {h, m, s}
        invariant i == h ==> free[..] == f && desc[..] == d
        invariant i == m ==> free[..] == f[h := true] && desc[..] == d[h := ZERO_DESC]
        invariant i == s ==> free[..] == f[h := true][m := true] && desc[..] == d[h := ZERO_DESC][m := ZERO_DESC]
        decreases if i == h then 2 else if i == m then 1 else 0
      {
        var more, next := desc[i].more, desc[i].next;
        FreeDesc(i);
        if !more {
          break;
        }
        i := next;
      }
    }

    /** The end of virtio_disk_rw, once the buffer is no longer marked. */
    method Finish(h: nat)
      requires Valid() && Enabled(Now(), Step.Finish(h))
      modifies this`chains, this`owner, free, desc, info
      ensures Valid() && Now() == old(Apply(Now(), Step.Finish(h)))
    {
      hide Ok;
      StepDefined(Now(), Step.Finish(h));
      StepOk(Now(), Step.Finish(h));
      ghost var d := Now();
      ChainThere(d, h);
      info[h] := info[h].(buf := 0);
      FreeChain(h, chains[h].data, chains[h].status);
      ghost var d' := Apply(d, Step.Finish(h));
      chains, owner := d'.chains, d'.owner;
    }

    constructor ()
      ensures Valid() && chains == map[] && onDisk == {} && woken == [] && forall i :: 0 <= i < NUM ==> free[i]
      ensures fresh(free) && fresh(desc) && fresh(info) && fresh(ops) && fresh(avail) && fresh(used)
    {
      free := new bool[NUM](i => true);
      desc := new Desc[NUM](i => ZERO_DESC);
      info := new Info[NUM](i => Info(0, 0));
      ops := new Req[NUM](i => Req(false, 0));
      avail := new nat[NUM](i => 0);
      used := new nat[NUM](i => 0);
      availIdx, lastAvail, usedIdx, seenIdx, onDisk := 0, 0, 0, 0, {};
      chains, owner, availAt, usedAt, woken := map[], map[], map[], map[], [];
      taken, submitted, drained, completed := 0, 0, 0, 0;
    }
  }
}
