/**
 The write-ahead log over the buffer cache.

 `logical` is the plain block array the log and cache together implement: the
 contents last passed to log_write for each block. `history` pairs every image
 the disk has held with the home blocks a reboot on that image brings back.
 */
module Log {
  import opened Blocks
  import opened Collections
  import opened DiskFormat
  import opened LogRecovery
  import opened BufferCache

  /** The blocks in the transaction: home blocks, fitting the log. */
  predicate EntriesOk(l: Layout, entries: seq<nat>, total: nat) {
    && |entries| <= LOGSIZE && |entries| < l.size
    && forall i :: 0 <= i < |entries| ==> entries[i] < total && !l.Holds(entries[i])
  }

  /** The cache shows `logical` wherever no buffer is being changed, and every
      block whose logical contents are not on the disk yet is logged and pinned. */
  ghost predicate Refines(l: Layout, entries: seq<nat>, logical: Image, v: View) {
    && LogClean(l, v) && |logical| == |v.disk|
    && (forall b: nat :: b < |v.disk| && !l.Holds(b) && v.mem[b] != logical[b] ==> v.locks[b])
    && (forall b: nat :: b < |v.disk| && !l.Holds(b) && logical[b] != v.disk[b] ==> b in entries)
    && (forall b: nat :: b < |v.disk| && b in entries ==> v.refs[b] >= if v.locks[b] then 2 else 1)
    && (forall b: nat :: b < |v.disk| && l.Holds(b) ==> !v.locks[b])
  }

  /** No buffer is locked, and only the logged blocks are referenced, once each. */
  ghost predicate Quiet(v: View, entries: seq<nat>) {
    && v.Sized()
    && (forall b: nat :: b < |v.locks| ==> !v.locks[b])
    && (forall b: nat :: b < |v.refs| ==> v.refs[b] == if b in entries then 1 else 0)
  }

  /** The blocks someone has a reference to. */
  ghost function Busy(v: View): set<nat> {
    set b: nat | b < |v.refs| && v.refs[b] > 0
  }

  /** What commit needs of the cache: no one has a block of the log region, the
      logged blocks are pinned and unlocked, and `busy`, which has every
      referenced block, leaves a buffer over. Others may hold other blocks. */
  ghost predicate Ready(l: Layout, v: View, entries: seq<nat>, busy: set<nat>) {
    && v.Sized() && |busy| < NBUF
    && (forall b: nat :: b < |v.refs| && v.refs[b] > 0 ==> b in busy)
    && (forall b: nat :: b < |v.refs| && l.Holds(b) ==> v.refs[b] == 0 && !v.locks[b])
    && (forall b: nat :: b < |v.refs| && b in entries ==> v.refs[b] > 0 && !v.locks[b])
  }

  /** References are down by one at each of `entries`; locks are as they were. */
  ghost predicate PinsDropped(v: View, w: View, entries: seq<nat>) {
    && v.Sized() && w.Sized() && |w.disk| == |v.disk| && w.locks == v.locks
    && forall b: nat :: b < |v.refs| ==> v.refs[b] == w.refs[b] + if b in entries then 1 else 0
  }

  ghost predicate LogClean(l: Layout, v: View) {
    v.Sized() && forall b: nat :: b < |v.disk| && l.Holds(b) ==> v.mem[b] == v.disk[b]
  }

  /** The header on the disk lists `entries`. */
  predicate HeaderIs(l: Layout, d: Image, entries: seq<nat>) {
    && l.FitsOn(d) && |entries| <= LOGSIZE
    && HeaderCount(l, d) == |entries|
    && forall i: nat :: i < |entries| ==> HeaderEntry(l, d, i) == entries[i]
  }

  predicate Recoverable(l: Layout, trace: seq<Image>, history: seq<Image>) {
    && |trace| == |history|
    && forall i :: 0 <= i < |trace| ==> RecoversTo(l, trace[i], history[i])
  }

  /** The images added since `base` all recover to `h`. */
  predicate AllRecoverTo(l: Layout, trace: seq<Image>, base: nat, h: Image) {
    base <= |trace| && forall i :: base <= i < |trace| ==> RecoversTo(l, trace[i], h)
  }

  /** The header block write_head builds over the old one. */
  function HeaderOf(was: Block, entries: seq<nat>, k: nat): (r: Block)
    requires k <= |entries| <= LOGSIZE && forall i :: 0 <= i < |entries| ==> entries[i] < UINT_RANGE
    ensures Word(r, 0) == |entries|
    ensures forall i: nat :: i < k ==> Word(r, 1 + i) == entries[i]
  {
    if k == 0 then PutWord(was, 0, |entries|) else PutWord(HeaderOf(was, entries, k - 1), k, entries[k - 1])
  }

  lemma HeaderFits(l: Layout, d: Image)
    requires ValidHeader(l, d)
    ensures l.FitsOn(d) && HeaderCount(l, d) <= LOGSIZE && EntriesOk(l, [], |d|)
  {
  }

  lemma HeaderRead(l: Layout, d: Image, entries: seq<nat>)
    requires ValidHeader(l, d) && |entries| == HeaderCount(l, d)
    requires forall i: nat :: i < |entries| ==> entries[i] == Word(d[l.start], 1 + i)
    ensures HeaderIs(l, d, entries) && EntriesOk(l, entries, |d|)
  {
  }

  lemma AcquiredReleased(v: View, b: nat)
    requires v.Sized() && b < |v.disk| && !v.locks[b]
    ensures v.Acquired(b).Released(b) == v
  {
    var w := v.Acquired(b).Released(b);
    assert w.refs == v.refs && w.locks == v.locks;
  }

  lemma QuietReady(l: Layout, v: View)
    requires Quiet(v, [])
    ensures Ready(l, v, [], {})
  {
  }

  lemma SameLocks(l: Layout, entries: seq<nat>, v0: View, v: View)
    requires HomesWritten(l, entries, v0, v, |entries|)
    ensures v.locks == v0.locks
  {
  }

  lemma RecoversItself(l: Layout, d: Image)
    requires ValidHeader(l, d)
    ensures RecoversTo(l, d, Recover(l, d))
  {
  }

  lemma LoggedRefines(l: Layout, entries: seq<nat>, logical: Image, v: View, b: nat)
    requires Refines(l, entries, logical, v) && b < |v.disk| && v.locks[b] && v.refs[b] > 0
    ensures v.Sized() && |logical| == |v.disk| && !l.Holds(b)
    ensures b in entries ==> Refines(l, entries, logical[b := v.mem[b]], v)
    ensures b !in entries ==> Refines(l, entries + [b], logical[b := v.mem[b]], v.Pinned(b))
  {
  }

  /** A change not logged is the one thing brelse may not leave behind. */
  lemma ReleaseRefinesIff(l: Layout, entries: seq<nat>, logical: Image, v: View, b: nat)
    requires Refines(l, entries, logical, v) && b < |v.disk| && !l.Holds(b) && v.locks[b] && v.refs[b] > 0
    ensures Refines(l, entries, logical, v.Released(b)) <==> v.mem[b] == logical[b]
  {
    assert v.mem[b] != logical[b] ==> !v.Released(b).locks[b];
  }

  lemma RefinesSized(l: Layout, entries: seq<nat>, logical: Image, v: View)
    requires Refines(l, entries, logical, v)
    ensures v.Sized() && |logical| == |v.disk|
  {
  }

  /** bread, a change, log_write with or without a new pin, and brelse. */
  lemma ChangeLogged(v: View, b: nat, data: Block)
    requires v.Sized() && b < |v.disk| && !v.locks[b]
    ensures var w := v.Acquired(b).Stored(b, data);
      w.Released(b) == v.Stored(b, data) && w.Pinned(b).Released(b) == v.Pinned(b).Stored(b, data)
  {
  }

  /** One iteration of write_log, seen through the cache. */
  lemma SlotLogged(v: View, slot: nat, home: nat)
    requires v.Sized() && slot < |v.disk| && home < |v.disk| && slot != home
    requires v.refs[slot] == 0 && !v.locks[slot] && !v.locks[home]
    ensures v.Acquired(slot).Acquired(home).Stored(slot, v.mem[home]).Written(slot).Released(home).Released(slot)
         == v.Stored(slot, v.mem[home]).Written(slot)
  {
  }

  /** One iteration of install_trans, with and without unpinning the home block. */
  lemma SlotInstalled(v: View, slot: nat, home: nat)
    requires v.Sized() && slot < |v.disk| && home < |v.disk| && slot != home
    requires v.refs[slot] == 0 && !v.locks[slot] && !v.locks[home]
    ensures var w := v.Acquired(slot).Acquired(home).Stored(home, v.mem[slot]).Written(home);
      && w.Released(slot).Released(home) == v.Stored(home, v.mem[slot]).Written(home)
      && (v.refs[home] >= 1 ==>
            w.Unpinned(home).Released(slot).Released(home) == v.Unpinned(home).Stored(home, v.mem[slot]).Written(home))
  {
  }

  /** After `k` iterations of write_log: slots 0..k hold the cached contents of
      the first k entries; nothing else has changed. */
  ghost predicate SlotsFilled(l: Layout, entries: seq<nat>, v0: View, v: View, k: nat) {
    && v0.Sized() && v.Sized() && l.FitsOn(v0.disk) && EntriesOk(l, entries, |v0.disk|) && k <= |entries|
    && v.refs == v0.refs && v.locks == v0.locks && |v.disk| == |v0.disk|
    && (forall b: nat :: b < |v.disk| && !(l.start < b <= l.start + k) ==>
          v.mem[b] == v0.mem[b] && v.disk[b] == v0.disk[b])
    && (forall s: nat :: l.start < s <= l.start + k ==> v.mem[s] == v.disk[s] == v0.mem[entries[s - l.start - 1]])
  }

  lemma SlotFilled(l: Layout, entries: seq<nat>, v0: View, v: View, k: nat)
    requires SlotsFilled(l, entries, v0, v, k) && k < |entries|
    ensures v.Sized() && v.refs == v0.refs && v.locks == v0.locks && |v.disk| == |v0.disk|
    ensures var s := l.start + 1 + k; SlotsFilled(l, entries, v0, v.Stored(s, v.mem[entries[k]]).Written(s), k + 1)
  {
    assert !l.Holds(entries[k]) && v.mem[entries[k]] == v0.mem[entries[k]];
  }

  /** Until the header is written, a crash loses the transaction as a whole. */
  lemma CrashBeforeHeader(l: Layout, entries: seq<nat>, v0: View, v: View, k: nat)
    requires SlotsFilled(l, entries, v0, v, k) && HeaderCount(l, v0.disk) == 0
    ensures RecoversTo(l, v.disk, v0.disk)
  {
  }

  /** After `k` iterations of install_trans. */
  ghost predicate HomesWritten(l: Layout, entries: seq<nat>, v0: View, v: View, k: nat) {
    && v0.Sized() && v.Sized() && HeaderIs(l, v0.disk, entries) && ValidHeader(l, v0.disk) && k <= |entries|
    && v.locks == v0.locks && v.disk == Installed(l, v0.disk, k)
    && forall b: nat :: b < |v.disk| ==> v.mem[b] == if b in entries[..k] then v.disk[b] else v0.mem[b]
  }

  lemma HomeWritten(l: Layout, entries: seq<nat>, v0: View, v: View, refs: seq<nat>, k: nat)
    requires HomesWritten(l, entries, v0, v, k) && k < |entries| && LogClean(l, v0) && |refs| == |v.refs|
    ensures var s, h := l.start + 1 + k, entries[k];
      && v.mem[s] == v.disk[s]
      && HomesWritten(l, entries, v0, v.(refs := refs).Stored(h, v.mem[s]).Written(h), k + 1)
  {
    var s, h := l.start + 1 + k, entries[k];
    assert HeaderEntry(l, v0.disk, k) == h;
    InstalledKeepsLog(l, v0.disk, k);
    assert l.Holds(s);
    assert forall i: nat :: i < |entries| ==> entries[i] == HeaderEntry(l, v0.disk, i);
    assert s !in entries[..k] && v.mem[s] == v0.mem[s] && v.disk[s] == v0.disk[s];
    assert entries[..k + 1] == entries[..k] + [h];
  }

  /** Once the header is written, a crash keeps the transaction as a whole. */
  lemma CrashAfterHeader(l: Layout, entries: seq<nat>, v0: View, v: View, k: nat)
    requires HomesWritten(l, entries, v0, v, k)
    ensures ValidHeader(l, v0.disk) && RecoversTo(l, v.disk, Recover(l, v0.disk))
  {
    ReinstallIdempotent(l, v0.disk, k);
  }

  /** References after `k` iterations of install_trans: those of `others`, and
      the pins of the entries still to come. */
  ghost predicate PinsLeft(l: Layout, v: View, entries: seq<nat>, others: seq<nat>, busy: set<nat>, recovering: bool,
                           k: nat) {
    && v.Sized() && k <= |entries| && EntriesOk(l, entries, |v.disk|) && |others| == |v.refs|
    && |busy| + (if recovering then 1 else 0) < NBUF
    && (forall b: nat :: b < |v.refs| && v.refs[b] > 0 ==> b in busy)
    && (forall b: nat :: b < |v.refs| ==> v.refs[b] == others[b] + if !recovering && b in entries[k..] then 1 else 0)
    && (forall b: nat :: b < |v.refs| && l.Holds(b) ==> others[b] == 0 && !v.locks[b])
    && (forall b: nat :: b < |v.refs| && b in entries ==> !v.locks[b])
  }

  lemma PinsBusy(l: Layout, v: View, entries: seq<nat>, others: seq<nat>, busy: set<nat>, recovering: bool, k: nat)
    requires PinsLeft(l, v, entries, others, busy, recovering, k) && k < |entries|
    ensures v.Sized() && !v.locks[entries[k]] && (!recovering ==> v.refs[entries[k]] > 0)
    ensures |busy| + (if recovering then 1 else 0) < NBUF
    ensures forall b: nat :: b < |v.disk| && v.refs[b] > 0 ==> b in busy
    ensures forall b: nat :: b < |v.disk| && l.Holds(b) ==> v.refs[b] == 0 && !v.locks[b]
  {
  }

  lemma PinDropped(l: Layout, v: View, entries: seq<nat>, others: seq<nat>, busy: set<nat>, recovering: bool, k: nat,
                   data: Block)
    requires PinsLeft(l, v, entries, others, busy, recovering, k) && k < |entries| && (recovering || Distinct(entries))
    ensures v.Sized() && (!recovering ==> v.refs[entries[k]] > 0)
    ensures var w := if recovering then v else v.Unpinned(entries[k]);
      PinsLeft(l, w.Stored(entries[k], data).Written(entries[k]), entries, others, busy, recovering, k + 1)
  {
    assert entries[k] in entries[k..];
  }

  lemma HeaderLies(l: Layout, d: Image, entries: seq<nat>)
    requires HeaderIs(l, d, entries)
    ensures HeaderBytes(d[l.start], entries)
  {
    forall i | 0 <= i < |entries| ensures Uint(d[l.start], 4 * (i + 1)) == entries[i] {
      assert HeaderEntry(l, d, i) == entries[i];
    }
  }

  lemma HeaderWritten(v: View, s: nat, hb: Block)
    requires v.Sized() && s < |v.disk| && v.refs[s] == 0 && !v.locks[s]
    ensures v.Acquired(s).Stored(s, hb).Written(s).Released(s) == v.Stored(s, hb).Written(s)
  {
  }

  /** The view once write_head has put `entries` on the disk. */
  function HeadWritten(l: Layout, entries: seq<nat>, v: View): (w: View)
    requires v.Sized() && l.FitsOn(v.disk) && EntriesOk(l, entries, |v.disk|) && |v.disk| < UINT_RANGE
    ensures w.Sized() && |w.disk| == |v.disk| && HeaderIs(l, w.disk, entries) && ValidHeader(l, w.disk)
  {
    v.Stored(l.start, HeaderOf(v.disk[l.start], entries, |entries|)).Written(l.start)
  }

  lemma SealedView(l: Layout, entries: seq<nat>, logical: Image, v0: View, v1: View, others: seq<nat>, busy: set<nat>)
    requires Refines(l, entries, logical, v0) && Ready(l, v0, entries, busy) && EntriesOk(l, entries, |v0.disk|)
    requires SlotsFilled(l, entries, v0, v1, |entries|) && |v0.disk| < UINT_RANGE && Others(v0, entries, others)
    ensures Ready(l, v1, entries, busy) && v1.mem[l.start] == v1.disk[l.start]
    ensures var v2 := HeadWritten(l, entries, v1);
      && LogClean(l, v2) && HomesWritten(l, entries, v2, v2, 0) && PinsLeft(l, v2, entries, others, busy, false, 0)
      && OnlyEntriesDirty(l, entries, v2) && v2.locks == v0.locks
  {
    hide HeaderOf, ValidHeader, HeaderIs;
    assert entries[0..] == entries && l.Holds(l.start);
  }

  /** The references to each block that are not the log's own pins. */
  ghost predicate Others(v: View, entries: seq<nat>, others: seq<nat>) {
    |others| == |v.refs| && forall b: nat :: b < |v.refs| ==> v.refs[b] == others[b] + if b in entries then 1 else 0
  }

  lemma OthersOf(l: Layout, v: View, entries: seq<nat>, busy: set<nat>) returns (others: seq<nat>)
    requires Ready(l, v, entries, busy)
    ensures Others(v, entries, others)
  {
    others := seq(|v.refs|, b requires 0 <= b < |v.refs| => if b in entries then v.refs[b] - 1 else v.refs[b]);
  }

  /** The header write is the commit point: the image it leaves recovers to the
      contents logged, every image before it to the contents then on the disk. */
  lemma Sealed(l: Layout, entries: seq<nat>, logical: Image, v0: View, v1: View)
    requires Refines(l, entries, logical, v0) && EntriesOk(l, entries, |v0.disk|)
    requires forall b: nat :: b < |v0.locks| && b in entries ==> !v0.locks[b]
    requires SlotsFilled(l, entries, v0, v1, |entries|) && |v0.disk| < UINT_RANGE
    ensures RecoversTo(l, HeadWritten(l, entries, v1).disk, logical)
  {
    hide HeaderOf, RecoversTo, ValidHeader;
    var d := HeadWritten(l, entries, v1).disk;
    forall i: nat | i < |entries| ensures d[l.start + 1 + i] == logical[HeaderEntry(l, d, i)] {
      assert v1.disk[l.start + 1 + i] == v0.mem[entries[i]];
    }
    forall b: nat | b < |d| && !l.Holds(b) && d[b] != logical[b]
      ensures exists i: nat :: i < |entries| && HeaderEntry(l, d, i) == b
    {
      var i :| 0 <= i < |entries| && entries[i] == b;
      assert HeaderEntry(l, d, i) == b;
    }
    SealedRecovers(l, d, logical);
  }

  /** Only logged blocks, and blocks someone has locked, differ from the disk. */
  ghost predicate OnlyEntriesDirty(l: Layout, entries: seq<nat>, v: View) {
    v.Sized() && forall b: nat :: b < |v.disk| && !l.Holds(b) && v.mem[b] != v.disk[b] ==> b in entries || v.locks[b]
  }

  lemma InstalledClean(l: Layout, entries: seq<nat>, logical: Image, v2: View, v3: View)
    requires HomesWritten(l, entries, v2, v3, |entries|)
    requires LogClean(l, v2) && OnlyEntriesDirty(l, entries, v2) && RecoversTo(l, v2.disk, logical)
    ensures l.FitsOn(v3.disk) && v3.Sized() && LogClean(l, v3) && OnlyEntriesDirty(l, [], v3)
    ensures SameHome(l, v3.disk, logical)
  {
    InstalledKeepsLog(l, v2.disk, |entries|);
    assert forall i: nat :: i < |entries| ==> entries[i] == HeaderEntry(l, v2.disk, i);
    assert entries[..|entries|] == entries;
    forall b: nat | b < |v3.disk| && b !in entries ensures v3.disk[b] == v2.disk[b] && v3.mem[b] == v2.mem[b] {
      InstalledFrame(l, v2.disk, |entries|, b);
    }
    forall b: nat | b < |v3.disk| && !l.Holds(b) ensures v3.disk[b] == logical[b] {
      assert Recover(l, v2.disk)[b] == v3.disk[b];
    }
  }

  /** Clearing the header after installation ends the transaction. */
  lemma Finished(l: Layout, entries: seq<nat>, others: seq<nat>, busy: set<nat>, recovering: bool, logical: Image,
                 v3: View)
    requires PinsLeft(l, v3, entries, others, busy, recovering, |entries|) && l.FitsOn(v3.disk)
    requires |v3.disk| < UINT_RANGE
    requires LogClean(l, v3) && OnlyEntriesDirty(l, [], v3) && SameHome(l, v3.disk, logical)
    ensures Ready(l, v3, [], busy) && v3.mem[l.start] == v3.disk[l.start]
    ensures var v4 := HeadWritten(l, [], v3);
      && RecoversTo(l, v4.disk, logical) && Refines(l, [], logical, v4) && SameHome(l, v4.disk, logical)
      && v4.refs == others && v4.locks == v3.locks
  {
    hide HeaderOf;
    assert l.Holds(l.start);
    EmptyLogRecovers(l, HeadWritten(l, [], v3).disk);
    assert v3.refs == others;
  }

  /** The history after a commit: `count` images that keep `before`, the rest `after`. */
  function Committed(history: seq<Image>, count: nat, before: Image, rest: nat, after: Image): seq<Image> {
    history + seq(count, i => before) + seq(rest, i => after)
  }

  lemma CommitRecoverable(l: Layout, trace: seq<Image>, t1: seq<Image>, t2: seq<Image>, history: seq<Image>,
                          before: Image, after: Image)
    requires Recoverable(l, trace, history) && trace <= t1 <= t2
    requires AllRecoverTo(l, t1, |trace|, before) && AllRecoverTo(l, t2, |t1|, after)
    ensures Recoverable(l, t2, Committed(history, |t1| - |trace|, before, |t2| - |t1|, after))
  {
  }

  lemma RecoversToTransitive(l: Layout, trace: seq<Image>, base: nat, d: Image, h: Image)
    requires RecoversTo(l, d, h) && AllRecoverTo(l, trace, base, Recover(l, d))
    ensures AllRecoverTo(l, trace, base, h)
  {
  }

  /** A freshly started cache is ready for installation. */
  lemma FreshView(l: Layout, entries: seq<nat>, v: View)
    requires v.Sized() && v.mem == v.disk && Quiet(v, []) && HeaderIs(l, v.disk, entries) && ValidHeader(l, v.disk)
    ensures LogClean(l, v) && OnlyEntriesDirty(l, entries, v)
    ensures HomesWritten(l, entries, v, v, 0) && EntriesOk(l, entries, |v.disk|)
    ensures PinsLeft(l, v, entries, v.refs, {}, true, 0)
  {
  }

  lemma RecoveryRecoverable(l: Layout, trace: seq<Image>, t: seq<Image>, h: Image)
    requires |trace| == 1 && RecoversTo(l, trace[0], h) && trace <= t && AllRecoverTo(l, t, 1, h)
    ensures Recoverable(l, t, seq(|t|, i => h))
  {
  }

  class WriteAheadLog {
    const layout: Layout
    const cache: Cache
    const block: array<nat>
    var n: nat
    var outstanding: nat
    var committing: bool
    ghost var logical: Image
    ghost var history: seq<Image>

    ghost function Entries(): seq<nat>
      requires n <= block.Length
      reads this, block
    {
      block[..n]
    }

    ghost predicate Wired()
      reads this, block, cache, cache.disk, cache.bufs, cache.next, cache.prev
    {
      && cache.Valid()
      && block.Length == LOGSIZE && n <= LOGSIZE
      && block != cache.next && block != cache.prev
      && layout.FitsOn(cache.disk.blocks) && |cache.disk.blocks| < UINT_RANGE
      && EntriesOk(layout, Entries(), |cache.disk.blocks|)
    }

    ghost predicate Valid()
      reads this, block, cache, cache.disk, cache.bufs, cache.next, cache.prev
    {
      && Wired() && Distinct(Entries())
      && Refines(layout, Entries(), logical, cache.View())
      && HeaderCount(layout, cache.disk.blocks) == 0
      && Recoverable(layout, cache.disk.trace, history)
      && (committing ==> outstanding == 0)
    }

    /** initlog: finish or drop the transaction a crash interrupted. */
    constructor (c: Cache, l: Layout)
      requires c.Valid() && ValidHeader(l, c.disk.blocks) && |c.disk.blocks| < UINT_RANGE
      requires c.View().mem == c.disk.blocks && Quiet(c.View(), []) && c.disk.trace == [c.disk.blocks]
      modifies c, c.disk, c.bufs, c.next, c.prev
      ensures Valid() && cache == c && layout == l && fresh(block)
      ensures n == 0 && outstanding == 0 && !committing && Quiet(c.View(), [])
      ensures logical == Recover(l, old(c.disk.blocks)) && SameHome(l, c.disk.blocks, logical)
      ensures forall i :: 0 <= i < |history| ==> history[i] == logical
    {
      layout, cache := l, c;
      block := new nat[LOGSIZE](i => 0);
      n, outstanding, committing := 0, 0, false;
      logical := Recover(l, c.disk.blocks);
      history := [];
      new;
      hide ViewOf, Linked, Coherent, Refines, RecoversTo, Recover, Installed, ValidHeader, Quiet;
      RecoverFromLog();
    }

    /** recover_from_log. A crash at any of its block writes leaves an image that
        recovers to the same home blocks. */
    method RecoverFromLog()
      requires cache.Valid() && block.Length == LOGSIZE && block != cache.next && block != cache.prev
      requires ValidHeader(layout, cache.disk.blocks) && |cache.disk.blocks| < UINT_RANGE
      requires cache.View().mem == cache.disk.blocks && Quiet(cache.View(), [])
      requires cache.disk.trace == [cache.disk.blocks]
      modifies this`n, this`history, block, cache, cache.disk, cache.bufs, cache.next, cache.prev
      ensures Wired() && n == 0 && Refines(layout, [], Recover(layout, old(cache.disk.blocks)), cache.View())
      ensures Quiet(cache.View(), []) && HeaderCount(layout, cache.disk.blocks) == 0
      ensures SameHome(layout, cache.disk.blocks, Recover(layout, old(cache.disk.blocks)))
      ensures Recoverable(layout, cache.disk.trace, history)
      ensures forall i :: 0 <= i < |history| ==> history[i] == Recover(layout, old(cache.disk.blocks))
    {
      hide ViewOf, Linked, Coherent, Refines, RecoversTo, Recover, Installed, LogClean, HomesWritten, PinsLeft;
      hide OnlyEntriesDirty;
      ghost var trace, h := cache.disk.trace, Recover(layout, cache.disk.blocks);
      RecoversItself(layout, cache.disk.blocks);
      ReadHead();
      FreshView(layout, Entries(), cache.View());
      InstallAndClear(true, h, cache.View().refs, {});
      assert Entries() == [];
      history := seq(|cache.disk.trace|, i => h);
      RecoveryRecoverable(layout, trace, cache.disk.trace, h);
    }

    /** bread a block no one refers to, copy it and brelse it. */
    method CopyBlock(b: nat) returns (data: Block)
      requires cache.Valid() && b < |cache.disk.blocks| && cache.CanGet(b)
      requires cache.View().refs[b] == 0 && !cache.View().locks[b] && cache.View().mem[b] == cache.disk.blocks[b]
      modifies cache, cache.bufs, cache.next, cache.prev
      ensures cache.Valid() && cache.View() == old(cache.View()) && data == cache.disk.blocks[b]
    {
      hide ViewOf, Linked, Coherent;
      AcquiredReleased(cache.View(), b);
      var buf := cache.Read(b);
      cache.HeldView(buf, b);
      data := cache.bufs[buf].data;
      cache.Release(buf, b);
    }

    /** read_head */
    method ReadHead()
      requires cache.Valid() && block.Length == LOGSIZE && block != cache.next && block != cache.prev
      requires ValidHeader(layout, cache.disk.blocks) && |cache.disk.blocks| < UINT_RANGE
      requires cache.View().mem == cache.disk.blocks && Quiet(cache.View(), [])
      modifies this`n, block, cache, cache.bufs, cache.next, cache.prev
      ensures Wired() && HeaderIs(layout, cache.disk.blocks, Entries())
      ensures cache.View() == old(cache.View())
    {
      hide ViewOf, Linked, Coherent, Word, ValidHeader, HeaderIs, EntriesOk, Quiet;
      HeaderFits(layout, cache.disk.blocks);
      QuietReady(layout, cache.View());
      HeadRoom([], {});
      var header := CopyBlock(layout.start);
      n := Word(header, 0);
      CopyEntries(header);
      HeaderRead(layout, cache.disk.blocks, Entries());
    }

    method CopyEntries(header: Block)
      requires n <= LOGSIZE == block.Length
      modifies block
      ensures forall j: nat :: j < n ==> block[j] == Word(header, 1 + j)
    {
      hide Word;
      for i := 0 to n
        invariant forall j: nat :: j < i ==> block[j] == Word(header, 1 + j)
      {
        block[i] := Word(header, 1 + i);
      }
    }

    /** One pass of begin_op's loop: join the transaction, or sleep until space is free. */
    method BeginOp() returns (admitted: bool)
      requires Valid()
      modifies this`outstanding
      ensures Valid()
      ensures admitted <==> !committing && n + (old(outstanding) + 1) * MAXOPBLOCKS <= LOGSIZE
      ensures outstanding == if admitted then old(outstanding) + 1 else old(outstanding)
    {
      admitted := false;
      if committing {
      } else if n + (outstanding + 1) * MAXOPBLOCKS > LOGSIZE {
      } else {
        outstanding := outstanding + 1;
        admitted := true;
      }
    }

    /** end_op: the last operation out commits for all of them. */
    method EndOp()
      requires Valid() && outstanding >= 1 && !committing
      requires outstanding == 1 ==> Ready(layout, cache.View(), Entries(), Busy(cache.View()))
      modifies this, cache, cache.disk, cache.bufs, cache.next, cache.prev
      ensures Valid() && outstanding == old(outstanding) - 1 && !committing && logical == old(logical)
      ensures outstanding > 0 ==> n == old(n) && history == old(history) && cache.disk.blocks == old(cache.disk.blocks)
      ensures outstanding == 0 ==> n == 0 && SameHome(layout, cache.disk.blocks, logical)
      ensures outstanding == 0 ==> PinsDropped(old(cache.View()), cache.View(), old(Entries()))
      ensures outstanding == 0 ==>
                && old(cache.disk.trace) <= cache.disk.trace
                && history == if old(n) == 0 then old(history)
                              else Committed(old(history), old(n), old(cache.disk.blocks), old(n) + 2, logical)
    {
      hide ViewOf, Linked, Coherent, Refines, RecoversTo;
      outstanding := outstanding - 1;
      if outstanding == 0 {
        committing := true;
        Commit();
        committing := false;
      }
    }

    /** bread of a home block returns what was last logged for it. */
    method ReadBlock(b: nat) returns (i: nat)
      requires Valid() && b < |logical| && !layout.Holds(b) && cache.CanGet(b) && !cache.View().locks[b]
      modifies cache.bufs
      ensures Valid() && cache.Holding(i, b) && cache.bufs[i].data == logical[b]
      ensures cache.View() == old(cache.View()).Acquired(b)
    {
      hide ViewOf, Linked, Coherent;
      i := cache.Read(b);
      cache.HeldView(i, b);
    }

    /** A change to a locked buffer, not yet logged. */
    method Change(i: nat, ghost b: nat, data: Block)
      requires Valid() && cache.Holding(i, b)
      modifies cache.bufs
      ensures Valid() && cache.bufs[i] == old(cache.bufs[i]).(data := data)
      ensures b < |cache.disk.blocks| && cache.View() == old(cache.View()).Stored(b, data)
    {
      hide ViewOf, Linked, Coherent;
      cache.HeldView(i, b);
      cache.Store(i, b, data);
    }

    /** log_write. Its two panics are the last two requires clauses. */
    method LogWrite(i: nat, ghost b: nat)
      requires Valid() && cache.Holding(i, b)
      requires n < LOGSIZE && n < layout.size - 1
      requires outstanding >= 1
      modifies this, block, cache.bufs
      ensures Valid() && outstanding == old(outstanding) && committing == old(committing) && history == old(history)
      ensures b < |old(logical)| && logical == old(logical)[b := old(cache.bufs[i].data)]
      ensures Entries() == if b in old(Entries()) then old(Entries()) else old(Entries()) + [b]
      ensures cache.bufs[i] == old(cache.bufs[i]).(refcnt := cache.bufs[i].refcnt)
      ensures cache.View() == if b in old(Entries()) then old(cache.View()) else old(cache.View()).Pinned(b)
    {
      hide ViewOf, Linked, Coherent, Refines, RecoversTo;
      cache.HeldView(i, b);
      LoggedRefines(layout, Entries(), logical, cache.View(), b);
      var k := 0;
      while k < n && block[k] != cache.bufs[i].blockno
        invariant k <= n && b !in block[..k]
      {
        k := k + 1;
      }
      block[k] := cache.bufs[i].blockno;
      assert block[..n] == old(block[..n]);
      if k == n {
        cache.Pin(i, b);
        n := n + 1;
        assert Entries() == old(Entries()) + [b];
      }
      logical := logical[b := cache.bufs[i].data];
    }

    /** brelse of a buffer whose changes, if any, have been logged. */
    method ReleaseBlock(i: nat, ghost b: nat)
      requires Valid() && cache.Holding(i, b) && b < |logical| && cache.bufs[i].data == logical[b]
      modifies cache, cache.bufs, cache.next, cache.prev
      ensures Valid() && old(cache.View()).refs[b] > 0 && cache.View() == old(cache.View()).Released(b)
    {
      hide ViewOf, Linked, Coherent;
      cache.HeldView(i, b);
      cache.Release(i, b);
    }

    /** The typical use of the log: bread, a change, log_write and brelse. The block
        array takes the new contents, and the block a pin if it had none. */
    method LogBlock(b: nat, data: Block)
      requires Valid() && b < |logical| && !layout.Holds(b) && cache.CanGet(b) && !cache.View().locks[b]
      requires n < LOGSIZE && n < layout.size - 1 && outstanding >= 1
      modifies this, block, cache, cache.bufs, cache.next, cache.prev
      ensures Valid() && outstanding == old(outstanding) && committing == old(committing) && history == old(history)
      ensures logical == old(logical)[b := data]
      ensures Entries() == if b in old(Entries()) then old(Entries()) else old(Entries()) + [b]
      ensures cache.View() ==
                var v := old(cache.View()); (if b in old(Entries()) then v else v.Pinned(b)).Stored(b, data)
    {
      hide ViewOf, Linked, Coherent, Refines, RecoversTo;
      RefinesSized(layout, Entries(), logical, cache.View());
      ChangeLogged(cache.View(), b, data);
      var i := ReadBlock(b);
      Change(i, b, data);
      LogWrite(i, b);
      ReleaseBlock(i, b);
    }

    // ----- commit -----

    /** The body of write_log's loop. */
    method CopyToSlot(slot: nat, home: nat)
      requires cache.Valid() && slot < |cache.disk.blocks| && home < |cache.disk.blocks| && slot != home
      requires cache.CanGet(slot) && cache.View().refs[slot] == 0 && cache.View().refs[home] > 0
      requires !cache.View().locks[slot] && !cache.View().locks[home]
      modifies cache, cache.disk, cache.bufs, cache.next, cache.prev
      ensures cache.Valid() && cache.View() == old(cache.View()).Stored(slot, old(cache.View()).mem[home]).Written(slot)
      ensures cache.disk.trace == old(cache.disk.trace) + [cache.disk.blocks]
    {
      hide ViewOf, Linked, Coherent;
      SlotLogged(cache.View(), slot, home);
      var to := cache.Read(slot);
      cache.HeldView(to, slot);
      cache.ReferencedIsCached(home);
      var from := cache.Read(home);
      cache.HeldView(from, home);
      cache.Store(to, slot, cache.bufs[from].data);
      cache.Write(to, slot);
      cache.Release(from, home);
      cache.Release(to, slot);
    }

    method ReadPair(slot: nat, home: nat, ghost busy: set<nat>) returns (lbuf: nat, dbuf: nat)
      requires cache.Valid() && slot < |cache.disk.blocks| && home < |cache.disk.blocks| && slot != home
      requires cache.CanGet(slot) && !cache.View().locks[slot] && !cache.View().locks[home]
      requires cache.View().refs[home] > 0 || |busy| + 1 < NBUF
      requires forall b: nat :: b < |cache.disk.blocks| && cache.View().refs[b] > 0 ==> b in busy
      modifies cache.bufs
      ensures cache.Valid() && cache.View() == old(cache.View()).Acquired(slot).Acquired(home)
      ensures lbuf != dbuf && cache.Holding(lbuf, slot) && cache.Holding(dbuf, home)
      ensures cache.bufs[lbuf].data == old(cache.View()).mem[slot]
    {
      hide ViewOf, Linked, Coherent;
      lbuf := cache.Read(slot);
      cache.HeldView(lbuf, slot);
      if cache.View().refs[home] > 0 {
        cache.ReferencedIsCached(home);
      } else {
        cache.Room(busy + {slot}, home);
      }
      dbuf := cache.Read(home);
    }

    /** The body of install_trans's loop. */
    method CopyHome(slot: nat, home: nat, recovering: bool, ghost busy: set<nat>)
      requires cache.Valid() && slot < |cache.disk.blocks| && home < |cache.disk.blocks| && slot != home
      requires cache.CanGet(slot) && cache.View().refs[slot] == 0 && cache.View().mem[slot] == cache.disk.blocks[slot]
      requires if recovering then |busy| + 1 < NBUF else cache.View().refs[home] > 0
      requires forall b: nat :: b < |cache.disk.blocks| && cache.View().refs[b] > 0 ==> b in busy
      requires !cache.View().locks[slot] && !cache.View().locks[home]
      modifies cache, cache.disk, cache.bufs, cache.next, cache.prev
      ensures cache.Valid()
      ensures cache.View() == var v := if recovering then old(cache.View()) else old(cache.View()).Unpinned(home);
                              v.Stored(home, v.mem[slot]).Written(home)
      ensures cache.disk.trace == old(cache.disk.trace) + [cache.disk.blocks]
    {
      hide ViewOf, Linked, Coherent;
      SlotInstalled(cache.View(), slot, home);
      var lbuf, dbuf := ReadPair(slot, home, busy);
      cache.Store(dbuf, home, cache.bufs[lbuf].data);
      cache.Write(dbuf, home);
      if !recovering {
        cache.Unpin(dbuf, home);
      }
      cache.Release(lbuf, slot);
      cache.Release(dbuf, home);
    }

    /** write_log's loop body */
    method LogOne(tail: nat, ghost v0: View, ghost busy: set<nat>)
      requires Wired() && tail < n && Ready(layout, v0, Entries(), busy)
      requires SlotsFilled(layout, Entries(), v0, cache.View(), tail) && HeaderCount(layout, v0.disk) == 0
      modifies cache, cache.disk, cache.bufs, cache.next, cache.prev
      ensures Wired() && SlotsFilled(layout, Entries(), v0, cache.View(), tail + 1)
      ensures cache.disk.trace == old(cache.disk.trace) + [cache.disk.blocks]
      ensures RecoversTo(layout, cache.disk.blocks, v0.disk)
    {
      hide ViewOf, Linked, Coherent, SlotsFilled, RecoversTo;
      var slot, home := layout.start + 1 + tail, block[tail];
      assert layout.Holds(slot) && home in Entries();
      SlotFilled(layout, Entries(), v0, cache.View(), tail);
      cache.Room(busy, slot);
      CopyToSlot(slot, home);
      CrashBeforeHeader(layout, Entries(), v0, cache.View(), tail + 1);
    }

    method WriteLog(ghost busy: set<nat>)
      requires Wired() && Ready(layout, cache.View(), Entries(), busy)
      requires HeaderCount(layout, cache.disk.blocks) == 0
      modifies cache, cache.disk, cache.bufs, cache.next, cache.prev
      ensures Wired() && SlotsFilled(layout, Entries(), old(cache.View()), cache.View(), n)
      ensures forall k :: 0 <= k < n ==> cache.disk.blocks[layout.start + 1 + k] == old(cache.View()).mem[block[k]]
      ensures old(cache.disk.trace) <= cache.disk.trace && |cache.disk.trace| == |old(cache.disk.trace)| + n
      ensures AllRecoverTo(layout, cache.disk.trace, |old(cache.disk.trace)|, old(cache.disk.blocks))
    {
      hide ViewOf, Linked, Coherent, RecoversTo, Ready;
      for tail := 0 to n
        invariant Wired() && SlotsFilled(layout, Entries(), old(cache.View()), cache.View(), tail)
        invariant old(cache.disk.trace) <= cache.disk.trace && |cache.disk.trace| == |old(cache.disk.trace)| + tail
        invariant AllRecoverTo(layout, cache.disk.trace, |old(cache.disk.trace)|, old(cache.disk.blocks))
      {
        hide SlotsFilled, EntriesOk;
        LogOne(tail, old(cache.View()), busy);
      }
    }

    /** write_head: one block write carries the count and all the entries. */
    method WriteHead()
      requires Wired() && cache.CanGet(layout.start)
      requires cache.View().mem[layout.start] == cache.disk.blocks[layout.start]
      requires cache.View().refs[layout.start] == 0 && !cache.View().locks[layout.start]
      modifies cache, cache.disk, cache.bufs, cache.next, cache.prev
      ensures Wired() && cache.View() == HeadWritten(layout, Entries(), old(cache.View()))
      ensures HeaderBytes(cache.disk.blocks[layout.start], Entries())
      ensures cache.disk.trace == old(cache.disk.trace) + [cache.disk.blocks]
    {
      hide ViewOf, Linked, Coherent, HeaderOf, EntriesOk, Word;
      var h := cache.Read(layout.start);
      cache.HeldView(h, layout.start);
      var hb := FillHeader(cache.bufs[h].data);
      HeaderWritten(old(cache.View()), layout.start, hb);
      cache.Store(h, layout.start, hb);
      cache.Write(h, layout.start);
      cache.Release(h, layout.start);
      HeaderLies(layout, cache.disk.blocks, Entries());
    }

    method FillHeader(was: Block) returns (hb: Block)
      requires Wired()
      ensures hb == HeaderOf(was, Entries(), n)
    {
      hide ViewOf, Linked, Coherent;
      hb := PutWord(was, 0, n);
      for i := 0 to n
        invariant hb == HeaderOf(was, Entries(), i)
      {
        hb := PutWord(hb, 1 + i, block[i]);
      }
    }

    /** install_trans's loop body */
    method InstallOne(tail: nat, recovering: bool, ghost v0: View, ghost others: seq<nat>, ghost busy: set<nat>)
      requires Wired() && tail < n && (recovering || Distinct(Entries()))
      requires LogClean(layout, v0) && HomesWritten(layout, Entries(), v0, cache.View(), tail)
      requires ValidHeader(layout, v0.disk)
      requires PinsLeft(layout, cache.View(), Entries(), others, busy, recovering, tail)
      modifies cache, cache.disk, cache.bufs, cache.next, cache.prev
      ensures Wired() && HomesWritten(layout, Entries(), v0, cache.View(), tail + 1)
      ensures RecoversTo(layout, cache.disk.blocks, Recover(layout, v0.disk))
      ensures PinsLeft(layout, cache.View(), Entries(), others, busy, recovering, tail + 1)
      ensures cache.disk.trace == old(cache.disk.trace) + [cache.disk.blocks]
    {
      hide ViewOf, Linked, Coherent, HomesWritten, PinsLeft, LogClean, ValidHeader, RecoversTo;
      var slot, home := layout.start + 1 + tail, block[tail];
      assert layout.Holds(slot);
      ghost var v := cache.View();
      PinsBusy(layout, v, Entries(), others, busy, recovering, tail);
      cache.Room(busy, slot);
      PinDropped(layout, v, Entries(), others, busy, recovering, tail, v.mem[slot]);
      HomeWritten(layout, Entries(), v0, v, if recovering then v.refs else v.Unpinned(home).refs, tail);
      CopyHome(slot, home, recovering, busy);
      CrashAfterHeader(layout, Entries(), v0, cache.View(), tail + 1);
    }

    method InstallTrans(recovering: bool, ghost others: seq<nat>, ghost busy: set<nat>)
      requires Wired() && (recovering || Distinct(Entries()))
      requires LogClean(layout, cache.View()) && HomesWritten(layout, Entries(), cache.View(), cache.View(), 0)
      requires ValidHeader(layout, cache.disk.blocks)
      requires PinsLeft(layout, cache.View(), Entries(), others, busy, recovering, 0)
      modifies cache, cache.disk, cache.bufs, cache.next, cache.prev
      ensures Wired() && HomesWritten(layout, Entries(), old(cache.View()), cache.View(), n)
      ensures PinsLeft(layout, cache.View(), Entries(), others, busy, recovering, n)
      ensures old(cache.disk.trace) <= cache.disk.trace && |cache.disk.trace| == |old(cache.disk.trace)| + n
      ensures AllRecoverTo(layout, cache.disk.trace, |old(cache.disk.trace)|, Recover(layout, old(cache.disk.blocks)))
    {
      hide ViewOf, Linked, Coherent, HomesWritten, PinsLeft, LogClean, ValidHeader, RecoversTo, EntriesOk, Recover;
      for tail := 0 to n
        invariant Wired() && HomesWritten(layout, Entries(), old(cache.View()), cache.View(), tail)
        invariant PinsLeft(layout, cache.View(), Entries(), others, busy, recovering, tail)
        invariant old(cache.disk.trace) <= cache.disk.trace && |cache.disk.trace| == |old(cache.disk.trace)| + tail
        invariant AllRecoverTo(layout, cache.disk.trace, |old(cache.disk.trace)|,
                               Recover(layout, old(cache.disk.blocks)))
      {
        InstallOne(tail, recovering, old(cache.View()), others, busy);
      }
    }

    lemma HeadRoom(entries: seq<nat>, busy: set<nat>)
      requires cache.Valid() && layout.FitsOn(cache.disk.blocks) && Ready(layout, cache.View(), entries, busy)
      ensures cache.CanGet(layout.start) && cache.View().refs[layout.start] == 0 && !cache.View().locks[layout.start]
    {
      hide ViewOf, Linked, Coherent;
      assert layout.Holds(layout.start);
      cache.Room(busy, layout.start);
    }

    /** Whoever else holds buffers, commit gets one for a block no one refers to
        exactly when fewer than NBUF blocks are referenced. */
    lemma CommitFits(b: nat)
      requires cache.Valid()
      ensures b < |cache.disk.blocks| && cache.View().refs[b] > 0 ==> cache.CanGet(b)
      ensures b < |cache.disk.blocks| && cache.View().refs[b] == 0 ==>
                (cache.CanGet(b) <==> |Busy(cache.View())| < NBUF)
    {
      hide ViewOf, Linked, Coherent;
      if b < |cache.disk.blocks| && cache.View().refs[b] > 0 {
        cache.ReferencedIsCached(b);
      } else {
        cache.RoomIff(Busy(cache.View()), b);
      }
    }

    /** With no other holder commit can run exactly when the entries leave a buffer over,
        which log_write's guard sees to for a region of NBUF blocks. */
    lemma CommitReadyIff()
      requires n <= block.Length && cache.Valid() && Quiet(cache.View(), Entries())
      requires EntriesOk(layout, Entries(), |cache.disk.blocks|) && Distinct(Entries())
      ensures Ready(layout, cache.View(), Entries(), Busy(cache.View())) <==> n < NBUF
      ensures layout.size <= NBUF ==> n < NBUF
    {
      hide ViewOf, Linked, Coherent;
      assert Busy(cache.View()) == Elements(Entries());
      ElementsCount(Entries());
    }

    /** The first half of commit: write_log, then the header. */
    method Seal(ghost others: seq<nat>, ghost busy: set<nat>)
      requires Wired() && Ready(layout, cache.View(), Entries(), busy) && Others(cache.View(), Entries(), others)
      requires Refines(layout, Entries(), logical, cache.View()) && HeaderCount(layout, cache.disk.blocks) == 0
      modifies cache, cache.disk, cache.bufs, cache.next, cache.prev
      ensures Wired() && LogClean(layout, cache.View()) && OnlyEntriesDirty(layout, Entries(), cache.View())
      ensures HomesWritten(layout, Entries(), cache.View(), cache.View(), 0)
      ensures cache.View().locks == old(cache.View()).locks
      ensures PinsLeft(layout, cache.View(), Entries(), others, busy, false, 0)
      ensures RecoversTo(layout, cache.disk.blocks, logical)
      ensures old(cache.disk.trace) <= cache.disk.trace && |cache.disk.trace| == |old(cache.disk.trace)| + n + 1
      ensures cache.disk.trace[|cache.disk.trace| - 1] == cache.disk.blocks
      ensures AllRecoverTo(layout, cache.disk.trace[..|cache.disk.trace| - 1], |old(cache.disk.trace)|,
                           old(cache.disk.blocks))
    {
      hide ViewOf, Linked, Coherent, Refines, RecoversTo, ValidHeader, HeaderOf, HeadWritten, LogClean, PinsLeft;
      hide HomesWritten, SlotsFilled;
      ghost var v0 := cache.View();
      WriteLog(busy);
      ghost var t1 := cache.disk.trace;
      SealedView(layout, Entries(), logical, v0, cache.View(), others, busy);
      Sealed(layout, Entries(), logical, v0, cache.View());
      HeadRoom(Entries(), busy);
      WriteHead();
      assert cache.disk.trace[..|cache.disk.trace| - 1] == t1;
    }

    /** The rest of commit, and of recovery: install, then clear the header. */
    method InstallAndClear(recovering: bool, ghost h: Image, ghost others: seq<nat>, ghost busy: set<nat>)
      requires Wired() && (recovering || Distinct(Entries()))
      requires LogClean(layout, cache.View()) && OnlyEntriesDirty(layout, Entries(), cache.View())
      requires HomesWritten(layout, Entries(), cache.View(), cache.View(), 0)
      requires PinsLeft(layout, cache.View(), Entries(), others, busy, recovering, 0)
      requires RecoversTo(layout, cache.disk.blocks, h)
      modifies this`n, cache, cache.disk, cache.bufs, cache.next, cache.prev
      ensures Wired() && n == 0 && Refines(layout, [], h, cache.View())
      ensures cache.View().refs == others && cache.View().locks == old(cache.View()).locks
      ensures SameHome(layout, cache.disk.blocks, h) && HeaderCount(layout, cache.disk.blocks) == 0
      ensures old(cache.disk.trace) <= cache.disk.trace && |cache.disk.trace| == |old(cache.disk.trace)| + old(n) + 1
      ensures AllRecoverTo(layout, cache.disk.trace, |old(cache.disk.trace)|, h)
    {
      hide ViewOf, Linked, Coherent, Refines, RecoversTo, ValidHeader, HeaderOf, HeadWritten, Recover, LogClean;
      hide PinsLeft, HomesWritten;
      ghost var entries, v2 := Entries(), cache.View();
      CrashAfterHeader(layout, entries, v2, v2, 0);
      InstallTrans(recovering, others, busy);
      RecoversToTransitive(layout, cache.disk.trace, |old(cache.disk.trace)|, v2.disk, h);
      SameLocks(layout, entries, v2, cache.View());
      InstalledClean(layout, entries, h, v2, cache.View());
      Finished(layout, entries, others, busy, recovering, h, cache.View());
      n := 0;
      assert Entries() == [];
      HeadRoom([], busy);
      WriteHead();
    }

    /** commit. A crash at any of its block writes loses all of the transaction
        before the header write and none of it from then on. Others may hold any
        unlogged blocks meanwhile, locked or not. */
    method Commit()
      requires Valid() && Ready(layout, cache.View(), Entries(), Busy(cache.View()))
      modifies this`n, this`history, cache, cache.disk, cache.bufs, cache.next, cache.prev
      ensures Valid() && n == 0 && SameHome(layout, cache.disk.blocks, logical)
      ensures PinsDropped(old(cache.View()), cache.View(), old(Entries()))
      ensures old(cache.disk.trace) <= cache.disk.trace
      ensures history == if old(n) == 0 then old(history)
                         else Committed(old(history), old(n), old(cache.disk.blocks), old(n) + 2, logical)
    {
      hide ViewOf, Linked, Coherent, RecoversTo, ValidHeader, LogClean, PinsLeft, HomesWritten, Ready;
      assert n == 0 ==> Entries() == [];
      if n > 0 {
        hide Refines;
        ghost var before, trace, busy := cache.disk.blocks, cache.disk.trace, Busy(cache.View());
        ghost var others := OthersOf(layout, cache.View(), Entries(), busy);
        Seal(others, busy);
        ghost var t2 := cache.disk.trace;
        InstallAndClear(false, logical, others, busy);
        assert Entries() == [];
        CommitRecoverable(layout, trace, t2[..|t2| - 1], cache.disk.trace, history, before, logical);
        history := Committed(history, old(n), before, old(n) + 2, logical);
      }
    }
  }
}
