/**
 The block buffer cache: NBUF buffers on a circular doubly linked list kept in
 order of last use, in front of a disk that writes one block at a time.

 What clients see of it, a `View`, is a function of the buffers and the disk.
 */
module BufferCache {
  import opened Blocks
  import opened Collections
  import opened LogRecovery

  const ROOTDEV := 1

  datatype Buf = Buf(valid: bool, dev: nat, blockno: nat, locked: bool, refcnt: nat, data: Block)

  predicate Caches(b: Buf, n: nat) {
    b.dev == ROOTDEV && b.blockno == n
  }

  // ----- the clients' view -----

  /** The buffer that caches block `n`, or -1. */
  ghost function Slot(bufs: seq<Buf>, n: nat): (r: int)
    ensures -1 <= r < |bufs|
    ensures r >= 0 ==> Caches(bufs[r], n)
    ensures r < 0 ==> forall i :: 0 <= i < |bufs| ==> !Caches(bufs[i], n)
  {
    if i :| 0 <= i < |bufs| && Caches(bufs[i], n) then i else -1
  }

  ghost function MemAt(bufs: seq<Buf>, disk: Image, n: nat): Block
    requires n < |disk|
  {
    var i := Slot(bufs, n);
    if i >= 0 && bufs[i].valid then bufs[i].data else disk[n]
  }

  ghost function RefsAt(bufs: seq<Buf>, n: nat): nat {
    var i := Slot(bufs, n);
    if i >= 0 then bufs[i].refcnt else 0
  }

  ghost predicate LockedAt(bufs: seq<Buf>, n: nat) {
    var i := Slot(bufs, n);
    i >= 0 && bufs[i].locked
  }

  /** What clients see: the contents bread hands out for each block, how many
      references its buffer has, whether that is sleep-locked, and the disk. */
  datatype View = View(mem: Image, refs: seq<nat>, locks: seq<bool>, disk: Image) {
    predicate Sized() {
      |mem| == |refs| == |locks| == |disk|
    }

    function Acquired(n: nat): View
      requires Sized() && n < |disk|
    {
      this.(refs := refs[n := refs[n] + 1], locks := locks[n := true])
    }

    function Stored(n: nat, data: Block): View
      requires Sized() && n < |disk|
    {
      this.(mem := mem[n := data])
    }

    function Written(n: nat): View
      requires Sized() && n < |disk|
    {
      this.(disk := disk[n := mem[n]])
    }

    function Pinned(n: nat): View
      requires Sized() && n < |disk|
    {
      this.(refs := refs[n := refs[n] + 1])
    }

    function Unpinned(n: nat): View
      requires Sized() && n < |disk| && refs[n] > 0
    {
      this.(refs := refs[n := refs[n] - 1])
    }

    function Released(n: nat): View
      requires Sized() && n < |disk| && refs[n] > 0
    {
      this.(refs := refs[n := refs[n] - 1], locks := locks[n := false])
    }
  }

  ghost function ViewOf(bufs: seq<Buf>, disk: Image): (v: View)
    ensures v.Sized() && v.disk == disk
  {
    View(seq(|disk|, n requires 0 <= n < |disk| => MemAt(bufs, disk, n)),
         seq(|disk|, n requires 0 <= n < |disk| => RefsAt(bufs, n)),
         seq(|disk|, n requires 0 <= n < |disk| => LockedAt(bufs, n)),
         disk)
  }

  // ----- what every operation keeps -----

  ghost predicate BufOk(b: Buf, disk: Image) {
    && (b.dev == 0 || b.dev == ROOTDEV)
    && (b.dev == 0 ==> b.refcnt == 0)
    && (b.dev == ROOTDEV ==> b.blockno < |disk|)
    && (b.locked ==> b.refcnt > 0)
    && (b.dev == ROOTDEV && b.refcnt == 0 && b.valid ==> b.data == disk[b.blockno])
  }

  /** At most one buffer caches a block, and a buffer nobody refers to may be
      recycled because it agrees with the disk. */
  ghost predicate Coherent(bufs: seq<Buf>, disk: Image) {
    && (forall i :: 0 <= i < |bufs| ==> BufOk(bufs[i], disk))
    && (forall i, j :: 0 <= i < j < |bufs| && bufs[i].dev == bufs[j].dev == ROOTDEV ==>
          bufs[i].blockno != bufs[j].blockno)
  }

  lemma SlotUnique(bufs: seq<Buf>, disk: Image, i: nat)
    requires Coherent(bufs, disk) && i < |bufs| && bufs[i].dev == ROOTDEV
    ensures Slot(bufs, bufs[i].blockno) == i
  {
  }

  /** Changing a buffer in place changes the view of its own block only. */
  lemma BufChanged(bufs: seq<Buf>, disk: Image, i: nat, b: Buf)
    requires Coherent(bufs, disk) && i < |bufs| && bufs[i].dev == ROOTDEV
    requires b.dev == ROOTDEV && b.blockno == bufs[i].blockno && BufOk(b, disk)
    ensures var bufs', n, v := bufs[i := b], b.blockno, ViewOf(bufs, disk);
      && Coherent(bufs', disk)
      && ViewOf(bufs', disk) == v.(mem := v.mem[n := if b.valid then b.data else disk[n]],
                                   refs := v.refs[n := b.refcnt], locks := v.locks[n := b.locked])
  {
    var bufs' := bufs[i := b];
    forall m: nat | m < |disk| ensures Slot(bufs', m) == Slot(bufs, m) {
      if Slot(bufs, m) >= 0 {
        SlotUnique(bufs', disk, Slot(bufs, m));
      }
    }
    SlotUnique(bufs, disk, i);
  }

  function Freed(b: Buf): Buf
    requires b.refcnt > 0
  {
    b.(locked := false, refcnt := b.refcnt - 1)
  }

  /** brelse checks nothing: it keeps the cache coherent exactly when the change
      is on the disk or someone else, such as the log, has a reference. */
  lemma ReleaseCoherentIff(bufs: seq<Buf>, disk: Image, i: nat)
    requires Coherent(bufs, disk) && i < |bufs| && bufs[i].dev == ROOTDEV && bufs[i].valid && bufs[i].refcnt > 0
    ensures Coherent(bufs[i := Freed(bufs[i])], disk) <==> bufs[i].data == disk[bufs[i].blockno] || bufs[i].refcnt > 1
  {
    var freed := bufs[i := Freed(bufs[i])];
    assert BufOk(freed[i], disk) ==> Coherent(freed, disk);
  }

  /** Otherwise the change is lost once bget takes the buffer for another block. */
  lemma ReleaseLosesIff(bufs: seq<Buf>, disk: Image, i: nat, b: Buf)
    requires Coherent(bufs, disk) && i < |bufs| && bufs[i].dev == ROOTDEV && bufs[i].valid && bufs[i].refcnt == 1
    requires b.dev == ROOTDEV && Slot(bufs, b.blockno) < 0
    ensures bufs[i].blockno < |disk|
    ensures var n := bufs[i].blockno;
      MemAt(bufs[i := Freed(bufs[i])][i := b], disk, n) == MemAt(bufs, disk, n) <==> bufs[i].data == disk[n]
  {
    SlotUnique(bufs, disk, i);
  }

  /** Recycling an unreferenced buffer for an uncached block hides no contents. */
  lemma BufRecycled(bufs: seq<Buf>, disk: Image, i: nat, b: Buf)
    requires Coherent(bufs, disk) && i < |bufs| && bufs[i].refcnt == 0
    requires b.dev == ROOTDEV && b.blockno < |disk| && Slot(bufs, b.blockno) < 0
    requires !b.valid && !b.locked && b.refcnt == 1
    ensures var bufs', n := bufs[i := b], b.blockno;
      && Coherent(bufs', disk) && Slot(bufs', n) == i
      && ViewOf(bufs', disk) == ViewOf(bufs, disk).Pinned(n)
  {
    var bufs' := bufs[i := b];
    SlotUnique(bufs', disk, i);
    forall m: nat | m < |disk| && m != b.blockno
      ensures MemAt(bufs', disk, m) == MemAt(bufs, disk, m)
      ensures RefsAt(bufs', m) == RefsAt(bufs, m) && LockedAt(bufs', m) == LockedAt(bufs, m)
    {
      var j := Slot(bufs, m);
      if j >= 0 && j != i {
        SlotUnique(bufs', disk, j);
      }
    }
  }

  /** Writing a valid buffer back changes the disk but not the view. */
  lemma BufWritten(bufs: seq<Buf>, disk: Image, i: nat)
    requires Coherent(bufs, disk) && i < |bufs| && bufs[i].dev == ROOTDEV && bufs[i].valid
    ensures var disk' := disk[bufs[i].blockno := bufs[i].data];
      && Coherent(bufs, disk')
      && ViewOf(bufs, disk') == ViewOf(bufs, disk).Written(bufs[i].blockno)
  {
  }

  /** With fewer blocks in use than buffers, some buffer is unreferenced. */
  lemma RoomLeft(bufs: seq<Buf>, disk: Image, busy: set<nat>)
    requires Coherent(bufs, disk) && |busy| < |bufs|
    requires forall n: nat :: n < |disk| && RefsAt(bufs, n) > 0 ==> n in busy
    ensures exists i :: 0 <= i < |bufs| && bufs[i].refcnt == 0
  {
    if forall i :: 0 <= i < |bufs| ==> bufs[i].refcnt > 0 {
      CachedBlocksDistinct(bufs, disk, |bufs|, busy);
    }
  }

  lemma {:induction false} CachedBlocksDistinct(bufs: seq<Buf>, disk: Image, k: nat, busy: set<nat>)
    requires Coherent(bufs, disk) && k <= |bufs| && forall i :: 0 <= i < |bufs| ==> bufs[i].refcnt > 0
    requires forall i :: 0 <= i < k ==> bufs[i].blockno in busy || RefsAt(bufs, bufs[i].blockno) == 0
    ensures |busy| >= k
  {
    if k > 0 {
      SlotUnique(bufs, disk, k - 1);
      var n := bufs[k - 1].blockno;
      forall i | 0 <= i < k - 1 ensures bufs[i].blockno in busy - {n} {
        SlotUnique(bufs, disk, i);
      }
      CachedBlocksDistinct(bufs, disk, k - 1, busy - {n});
    }
  }

  /** As many referenced blocks as buffers leave no buffer for another. */
  lemma NoRoom(bufs: seq<Buf>, busy: set<nat>, n: nat)
    requires |busy| >= |bufs| && n !in busy && forall m :: m in busy ==> RefsAt(bufs, m) > 0
    ensures Slot(bufs, n) < 0 && forall i :: 0 <= i < |bufs| ==> bufs[i].refcnt > 0
  {
    forall i | 0 <= i < |bufs| ensures bufs[i].refcnt > 0 && !Caches(bufs[i], n) {
      if bufs[i].refcnt == 0 || Caches(bufs[i], n) {
        BusyBound(bufs, busy, |bufs|, i);
      }
    }
  }

  lemma {:induction false} BusyBound(bufs: seq<Buf>, busy: set<nat>, k: nat, spare: nat)
    requires k <= |bufs| && forall m :: m in busy ==> 0 <= Slot(bufs, m) < k && Slot(bufs, m) != spare
    ensures |busy| <= if spare < k then k - 1 else k
  {
    hide Slot;
    if k == 0 {
      assert busy == {};
    } else if k - 1 == spare {
      BusyBound(bufs, busy, k - 1, spare);
    } else {
      BusyBound(bufs, busy - {bufs[k - 1].blockno}, k - 1, spare);
    }
  }

  // ----- the list -----

  /** Following `next` from ring[0] visits `ring` and returns; `prev` goes back. */
  ghost predicate Chain(ring: seq<nat>, next: seq<nat>, prev: seq<nat>) {
    && |ring| > 0 && |next| == |prev|
    && (forall i :: 0 <= i < |ring| ==> ring[i] < |next|)
    && (forall i, j :: 0 <= i < j < |ring| ==> ring[i] != ring[j])
    && (forall i {:trigger next[ring[i]]} :: 0 <= i < |ring| ==>
          next[ring[i]] == ring[if i + 1 < |ring| then i + 1 else 0])
    && (forall i {:trigger prev[ring[i]]} :: 0 <= i < |ring| ==>
          prev[ring[i]] == ring[if i > 0 then i - 1 else |ring| - 1])
  }

  /** `ring` lists the head (numbered NBUF) and every buffer, in `next` order. */
  ghost predicate Linked(ring: seq<nat>, next: seq<nat>, prev: seq<nat>) {
    && |ring| == |next| == |prev| == NBUF + 1
    && Chain(ring, next, prev)
    && ring[0] == NBUF
    && forall b: nat :: b <= NBUF ==> b in ring
  }

  function PushedFront(ring: seq<nat>, b: nat): (r: seq<nat>)
    requires |ring| > 0
    ensures |r| == |ring| + 1
    ensures forall i {:trigger r[i]} :: 0 <= i < |r| ==>
              r[i] == if i == 0 then ring[0] else if i == 1 then b else ring[i - 1]
  {
    [ring[0], b] + ring[1..]
  }

  lemma Unlink(ring: seq<nat>, next: seq<nat>, prev: seq<nat>, k: nat)
    requires Chain(ring, next, prev) && 1 <= k < |ring|
    ensures var b := ring[k];
      && next[b] < |prev| && prev[b] < |next|
      && Chain(Without(ring, k), next[prev[b] := next[b]], prev[next[b] := prev[b]])
  {
    hide Without;
    var before, after := ring[k - 1], ring[if k + 1 < |ring| then k + 1 else 0];
    assert next[ring[k]] == after && prev[ring[k]] == before;
  }

  lemma PushFront(ring: seq<nat>, next: seq<nat>, prev: seq<nat>, b: nat)
    requires Chain(ring, next, prev) && b < |next| && b !in ring
    ensures var h := ring[0];
      next[h] < |prev| && Chain(PushedFront(ring, b), next[b := next[h]][h := b], prev[b := h][next[h] := b])
  {
    hide PushedFront;
    assert next[ring[0]] == ring[if 1 < |ring| then 1 else 0];
  }

  /** The ring with the entry at position `k` moved next to the head. */
  function MovedToFront(ring: seq<nat>, k: nat): (r: seq<nat>)
    requires 1 <= k < |ring|
  {
    PushedFront(Without(ring, k), ring[k])
  }

  lemma MovedToFrontPermutes(ring: seq<nat>, k: nat)
    requires 1 <= k < |ring|
    ensures |MovedToFront(ring, k)| == |ring| && forall b: nat :: b in ring ==> b in MovedToFront(ring, k)
    ensures MovedToFront(ring, k)[0] == ring[0] && MovedToFront(ring, k)[1] == ring[k]
    ensures forall i :: 1 < i < |ring| ==> MovedToFront(ring, k)[i] == ring[if i <= k then i - 1 else i]
  {
    var r := MovedToFront(ring, k);
    forall b: nat | b in ring ensures b in r {
      var i :| 0 <= i < |ring| && ring[i] == b;
      assert b == if i == 0 then r[0] else if i < k then r[i + 1] else if i == k then r[1] else r[i];
    }
  }

  /** The six stores of brelse move the entry at position `k` and keep the list linked. */
  lemma MovedLinked(ring: seq<nat>, next: seq<nat>, prev: seq<nat>, k: nat)
    requires Linked(ring, next, prev) && 1 <= k <= NBUF
    ensures var b := ring[k];
      && b < NBUF && next[b] <= NBUF && prev[b] <= NBUF && next[prev[b] := next[b]][NBUF] <= NBUF
      && var n1, p1 := next[prev[b] := next[b]], prev[next[b] := prev[b]];
      Linked(MovedToFront(ring, k), n1[b := n1[NBUF]][NBUF := b], p1[b := NBUF][n1[NBUF] := b])
  {
    hide Without;
    var b := ring[k];
    Unlink(ring, next, prev, k);
    PushFront(Without(ring, k), next[prev[b] := next[b]], prev[next[b] := prev[b]], b);
    MovedToFrontPermutes(ring, k);
  }

  /** binit: each buffer is pushed at the front of the list. */
  method LinkAll() returns (nx: array<nat>, pv: array<nat>, ghost r: seq<nat>)
    ensures fresh(nx) && fresh(pv) && nx != pv && Linked(r, nx[..], pv[..])
    ensures forall i {:trigger r[i]} :: 1 <= i <= NBUF ==> r[i] == NBUF - i
  {
    nx := new nat[NBUF + 1](i => NBUF);
    pv := new nat[NBUF + 1](i => NBUF);
    r := [NBUF];
    for b := 0 to NBUF
      invariant |r| == b + 1 && r[0] == NBUF && Chain(r, nx[..], pv[..])
      invariant forall i {:trigger r[i]} :: 1 <= i <= b ==> r[i] == b - i
    {
      PushFront(r, nx[..], pv[..], b);
      nx[b] := nx[NBUF];
      pv[b] := NBUF;
      pv[nx[NBUF]] := b;
      nx[NBUF] := b;
      r := PushedFront(r, b);
    }
    forall b: nat | b <= NBUF ensures b in r {
      assert r[if b == NBUF then 0 else NBUF - b] == b;
    }
  }

  class Disk {
    var blocks: Image
    ghost var trace: seq<Image>  // every image the disk has held, latest last

    ghost predicate Valid()
      reads this
    {
      |trace| > 0 && trace[|trace| - 1] == blocks
    }

    constructor (image: Image)
      ensures Valid() && blocks == image && trace == [image]
    {
      blocks := image;
      trace := [image];
    }

    method Write(b: nat, data: Block)
      requires Valid() && b < |blocks|
      modifies this
      ensures Valid() && blocks == old(blocks)[b := data] && trace == old(trace) + [blocks]
    {
      blocks := blocks[b := data];
      trace := trace + [blocks];
    }
  }

  class Cache {
    const disk: Disk
    const bufs: array<Buf>
    const next: array<nat>
    const prev: array<nat>
    ghost var ring: seq<nat>  // head, then the buffers from most to least recently used

    ghost predicate Valid()
      reads this, disk, bufs, next, prev
    {
      && bufs.Length == NBUF && next != prev
      && Linked(ring, next[..], prev[..])
      && disk.Valid()
      && Coherent(bufs[..], disk.blocks)
    }

    ghost function View(): (v: View)
      reads disk, bufs
      ensures v.Sized() && v.disk == disk.blocks
    {
      ViewOf(bufs[..], disk.blocks)
    }

    /** Buffer `b` caches block `n`, with its contents, locked by the caller. */
    ghost predicate Holding(b: nat, n: nat)
      requires bufs.Length == NBUF
      reads bufs
    {
      b < NBUF && Caches(bufs[b], n) && bufs[b].locked && bufs[b].valid
    }

    /** bget finds the block cached or a buffer it may recycle. */
    ghost predicate CanGet(n: nat)
      reads bufs
    {
      Slot(bufs[..], n) >= 0 || exists i :: 0 <= i < bufs.Length && bufs[i].refcnt == 0
    }

    /** With fewer blocks in use than buffers, bget cannot fail. */
    lemma Room(busy: set<nat>, n: nat)
      requires Valid() && |busy| < NBUF
      requires forall m: nat :: m < |disk.blocks| && View().refs[m] > 0 ==> m in busy
      ensures CanGet(n)
    {
      assert forall m: nat :: m < |disk.blocks| ==> View().refs[m] == RefsAt(bufs[..], m);
      RoomLeft(bufs[..], disk.blocks, busy);
    }

    /** With `busy` the referenced blocks, bget of another succeeds iff they number less than NBUF. */
    lemma RoomIff(busy: set<nat>, n: nat)
      requires Valid() && n !in busy
      requires forall m: nat :: m in busy <==> m < |disk.blocks| && View().refs[m] > 0
      ensures CanGet(n) <==> |busy| < NBUF
    {
      assert forall m: nat :: m < |disk.blocks| ==> View().refs[m] == RefsAt(bufs[..], m);
      if |busy| < NBUF {
        Room(busy, n);
      } else {
        NoRoom(bufs[..], busy, n);
      }
    }

    lemma ReferencedIsCached(n: nat)
      requires Valid() && n < |disk.blocks| && View().refs[n] > 0
      ensures CanGet(n)
    {
    }

    lemma HeldView(b: nat, n: nat)
      requires Valid() && Holding(b, n)
      ensures n < |disk.blocks| && View().locks[n] && View().mem[n] == bufs[b].data
      ensures View().refs[n] == bufs[b].refcnt > 0
    {
    }

    /** binit: no buffer caches a block. */
    constructor (d: Disk)
      requires d.Valid()
      ensures Valid() && disk == d && fresh(bufs) && fresh(next) && fresh(prev)
      ensures View().mem == d.blocks
      ensures forall n: nat :: n < |d.blocks| ==> View().refs[n] == 0 && !View().locks[n]
      ensures forall i {:trigger ring[i]} :: 1 <= i <= NBUF ==> ring[i] == NBUF - i
    {
      disk := d;
      var bs := new Buf[NBUF](i => Buf(false, 0, 0, false, 0, ZeroBlock()));
      var nx, pv;
      ghost var r;
      nx, pv, r := LinkAll();
      hide Linked;
      bufs, next, prev, ring := bs, nx, pv, r;
    }

    /** The part of bget under the cache lock: find the block or recycle the least
        recently used unreferenced buffer. A negative result is the "no buffers" panic. */
    method Get(n: nat) returns (b: int)
      requires Valid() && n < |disk.blocks|
      modifies bufs
      ensures Valid() && -1 <= b < NBUF
      ensures b < 0 <==> !old(CanGet(n))
      ensures b >= 0 ==> Caches(bufs[b], n) && View() == old(View()).Pinned(n)
      ensures b >= 0 && old(Slot(bufs[..], n)) < 0 ==>
                exists k :: 1 <= k <= NBUF && ring[k] == b && old(bufs[b].refcnt) == 0
                         && forall j {:trigger ring[j]} :: k < j <= NBUF ==> old(bufs[ring[j]].refcnt) > 0
      ensures b >= 0 ==> old(Caches(bufs[b], n)) || old(bufs[b].refcnt) == 0
      ensures forall i :: 0 <= i < NBUF && i != b ==> bufs[i] == old(bufs[i])
    {
      hide ViewOf, Linked, Coherent;
      b := Find(n);
      if b >= 0 {
        Reuse(b, n);
      } else {
        b := Recycle(n);
      }
    }

    method Reuse(b: nat, ghost n: nat)
      requires Valid() && b < NBUF && Caches(bufs[b], n)
      modifies bufs
      ensures Valid() && bufs[b] == old(bufs[b]).(refcnt := old(bufs[b].refcnt) + 1)
      ensures n < |disk.blocks| && View() == old(View()).Pinned(n)
      ensures forall i :: 0 <= i < NBUF && i != b ==> bufs[i] == old(bufs[i])
    {
      hide Linked;
      SlotUnique(bufs[..], disk.blocks, b);
      BufChanged(bufs[..], disk.blocks, b, bufs[b].(refcnt := bufs[b].refcnt + 1));
      bufs[b] := bufs[b].(refcnt := bufs[b].refcnt + 1);
    }

    method Recycle(n: nat) returns (b: int)
      requires Valid() && n < |disk.blocks| && Slot(bufs[..], n) < 0
      modifies bufs
      ensures Valid() && -1 <= b < NBUF
      ensures b < 0 <==> !old(CanGet(n))
      ensures b >= 0 ==> Caches(bufs[b], n) && View() == old(View()).Pinned(n) && old(bufs[b].refcnt) == 0
      ensures b >= 0 ==>
                exists k :: 1 <= k <= NBUF && ring[k] == b
                         && forall j {:trigger ring[j]} :: k < j <= NBUF ==> old(bufs[ring[j]].refcnt) > 0
      ensures forall i :: 0 <= i < NBUF && i != b ==> bufs[i] == old(bufs[i])
    {
      ghost var k;
      b, k := LeastRecent();
      if b >= 0 {
        var recycled := bufs[b].(dev := ROOTDEV, blockno := n, valid := false, refcnt := 1);
        BufRecycled(bufs[..], disk.blocks, b, recycled);
        bufs[b] := recycled;
        assert ring[k] == b;
      }
    }

    /** First scan of bget, along `next`. */
    method Find(n: nat) returns (b: int)
      requires Valid()
      ensures b == Slot(bufs[..], n)
    {
      b := next[NBUF];
      ghost var i := 1;
      while b != NBUF
        invariant 1 <= i <= NBUF + 1
        invariant b == if i <= NBUF then ring[i] else NBUF
        invariant forall j {:trigger ring[j]} :: 1 <= j < i ==> !Caches(bufs[ring[j]], n)
        decreases NBUF + 1 - i
      {
        if bufs[b].dev == ROOTDEV && bufs[b].blockno == n {
          SlotUnique(bufs[..], disk.blocks, b);
          return;
        }
        b, i := next[b], i + 1;
      }
      forall c: nat | c < NBUF ensures !Caches(bufs[c], n) {
        assert c in ring;
      }
      b := -1;
    }

    /** Second scan of bget, along `prev`. */
    method LeastRecent() returns (b: int, ghost k: nat)
      requires Valid()
      ensures -1 <= b < NBUF
      ensures b >= 0 <==> exists i :: 0 <= i < NBUF && bufs[i].refcnt == 0
      ensures b >= 0 ==> bufs[b].refcnt == 0 && 1 <= k <= NBUF && ring[k] == b
      ensures b >= 0 ==> forall j {:trigger ring[j]} :: k < j <= NBUF ==> bufs[ring[j]].refcnt > 0
    {
      b, k := prev[NBUF], NBUF;
      while b != NBUF
        invariant 0 <= k <= NBUF && b == ring[k]
        invariant forall j {:trigger ring[j]} :: k < j <= NBUF ==> bufs[ring[j]].refcnt > 0
        decreases k
      {
        if bufs[b].refcnt == 0 {
          return;
        }
        b, k := prev[b], k - 1;
      }
      forall c: nat | c < NBUF ensures bufs[c].refcnt > 0 {
        assert c in ring;
      }
      b := -1;
    }

    /** bread: the block's buffer, locked, holding the contents the view has for it. */
    method Read(n: nat) returns (b: nat)
      requires Valid() && n < |disk.blocks| && CanGet(n) && !View().locks[n]
      modifies bufs
      ensures Valid() && Holding(b, n) && View() == old(View()).Acquired(n)
      ensures old(Caches(bufs[b], n)) || old(bufs[b].refcnt) == 0
      ensures forall i :: 0 <= i < NBUF && i != b ==> bufs[i] == old(bufs[i])
    {
      var i := Get(n);
      b := i;
      SlotUnique(bufs[..], disk.blocks, b);
      assert bufs[b].refcnt == View().refs[n];
      var filled := bufs[b].(locked := true);
      if !filled.valid {
        filled := filled.(data := disk.blocks[n], valid := true);
      }
      BufChanged(bufs[..], disk.blocks, b, filled);
      bufs[b] := filled;
    }

    /** The caller's own stores to a buffer it has locked. */
    method Store(b: nat, ghost n: nat, data: Block)
      requires Valid() && Holding(b, n)
      modifies bufs
      ensures Valid() && bufs[b] == old(bufs[b]).(data := data) && View() == old(View()).Stored(n, data)
      ensures forall i :: 0 <= i < NBUF && i != b ==> bufs[i] == old(bufs[i])
    {
      HeldView(b, n);
      BufChanged(bufs[..], disk.blocks, b, bufs[b].(data := data));
      bufs[b] := bufs[b].(data := data);
    }

    /** bwrite */
    method Write(b: nat, ghost n: nat)
      requires Valid() && Holding(b, n)
      modifies disk
      ensures Valid() && View() == old(View()).Written(n)
      ensures disk.trace == old(disk.trace) + [disk.blocks]
    {
      HeldView(b, n);
      BufWritten(bufs[..], disk.blocks, b);
      disk.Write(bufs[b].blockno, bufs[b].data);
    }

    /** brelse. By then the caller has written its changes or had the buffer pinned. */
    method Release(b: nat, ghost n: nat)
      requires Valid() && Holding(b, n)
      requires n < |disk.blocks| && (View().mem[n] == disk.blocks[n] || View().refs[n] > 1)
      modifies this, bufs, next, prev
      ensures Valid() && old(View()).refs[n] > 0 && View() == old(View()).Released(n)
      ensures forall i :: 0 <= i < NBUF && i != b ==> bufs[i] == old(bufs[i])
      ensures exists k :: 1 <= k <= NBUF && old(ring)[k] == b
                && ring == if old(View()).refs[n] == 1 then MovedToFront(old(ring), k) else old(ring)
    {
      HeldView(b, n);
      var freed := Freed(bufs[b]);
      BufChanged(bufs[..], disk.blocks, b, freed);
      bufs[b] := freed;
      if bufs[b].refcnt == 0 {
        MoveToFront(b);
      } else {
        assert b in ring;
      }
    }

    method MoveToFront(b: nat)
      requires Linked(ring, next[..], prev[..]) && b < NBUF && next != prev
      modifies this, next, prev
      ensures Linked(ring, next[..], prev[..])
      ensures exists k :: 1 <= k <= NBUF && old(ring)[k] == b && ring == MovedToFront(old(ring), k)
    {
      hide Chain, MovedToFront;
      assert b in ring;
      ghost var k :| 0 <= k <= NBUF && ring[k] == b;
      MovedLinked(ring, next[..], prev[..], k);
      prev[next[b]] := prev[b];
      next[prev[b]] := next[b];
      next[b] := next[NBUF];
      prev[b] := NBUF;
      prev[next[NBUF]] := b;
      next[NBUF] := b;
      ring := MovedToFront(ring, k);
      assert old(ring)[k] == b;
    }

    /** bpin */
    method Pin(b: nat, ghost n: nat)
      requires Valid() && Holding(b, n)
      modifies bufs
      ensures Valid() && bufs[b] == old(bufs[b]).(refcnt := old(bufs[b].refcnt) + 1) && View() == old(View()).Pinned(n)
      ensures forall i :: 0 <= i < NBUF && i != b ==> bufs[i] == old(bufs[i])
    {
      HeldView(b, n);
      BufChanged(bufs[..], disk.blocks, b, bufs[b].(refcnt := bufs[b].refcnt + 1));
      bufs[b] := bufs[b].(refcnt := bufs[b].refcnt + 1);
    }

    /** bunpin, of a buffer the caller still holds */
    method Unpin(b: nat, ghost n: nat)
      requires Valid() && Holding(b, n) && n < |disk.blocks| && View().refs[n] > 1
      modifies bufs
      ensures Valid() && bufs[b] == old(bufs[b]).(refcnt := old(bufs[b].refcnt) - 1)
      ensures View() == old(View()).Unpinned(n)
      ensures forall i :: 0 <= i < NBUF && i != b ==> bufs[i] == old(bufs[i])
    {
      HeldView(b, n);
      BufChanged(bufs[..], disk.blocks, b, bufs[b].(refcnt := bufs[b].refcnt - 1));
      bufs[b] := bufs[b].(refcnt := bufs[b].refcnt - 1);
    }
  }
}
