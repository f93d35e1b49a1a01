/**
 Files across crashes: the log's guarantee about disk images carried up to the
 files on them. Whatever block write of a commit the machine stops at, and
 however often recovery is cut short after that, the disk it ends up with is a
 sound file system on which every file reads as before the transaction, or on
 which every file reads as after it.
 */
module CrashSafety {
  import opened Blocks
  import opened Collections
  import opened DiskFormat
  import opened FileLayout
  import opened LogRecovery
  import opened WriteLogs
  import BC = BufferCache
  import FS = FileSystem
  import L = Log

  /** A file system as it stands: its blocks, the addresses of its inodes and
      who owns each data block. */
  datatype Snapshot = Snapshot(blocks: Disk, files: seq<Addrs>, own: map<nat, Slot>)

  /** The log region comes before the inodes, as mkfs lays it out. */
  predicate Below(l: Layout, sb: Super) {
    l.start + l.size <= sb.inodestart
  }

  /** Every block is marked and owned as the inodes say, and the inodes are on the disk. */
  ghost predicate Sound(sb: Super, v: Snapshot) {
    && Owned(sb, v.blocks, v.files, v.own) && Marked(sb, v.blocks, v.own, {})
    && OnDisk(sb, v.blocks, v.files)
  }

  /** `d` is a sound file system with the files and inodes of `v`. */
  ghost predicate Restores(sb: Super, d: Disk, v: Snapshot) {
    && Owned(sb, d, v.files, v.own) && Marked(sb, d, v.own, {}) && AllSame(v.blocks, v.files, d, v.files)
    && OnDisk(sb, d, v.files) && sb.Fits(|v.blocks|)
    && forall j, f :: 0 <= j < sb.ninodes && 0 <= f < 16 ==> InodeWord(sb, d, j, f) == InodeWord(sb, v.blocks, j, f)
  }

  /** Only the home blocks matter to the file system. */
  lemma HomeRestores(l: Layout, sb: Super, v: Snapshot, d: Disk)
    requires Below(l, sb) && Sound(sb, v) && SameHome(l, d, v.blocks)
    ensures Restores(sb, d, v)
  {
    hide Owned, BitAt, FileByte, AllSame, InodeWord;
    OwnedFits(sb, v.blocks, v.files, v.own);
    OwnedRange(sb, v.blocks, v.files, v.own);
    UnownedFrame(sb, v.blocks, v.files, v.own, d);
    BitmapSame(sb, v.blocks, d, v.own);
    InodesHome(l, sb, v.blocks, d);
    forall j | 0 <= j < sb.ninodes ensures DiskAddrs(sb, d, j) == v.files[j] {
      assert DiskAddrs(sb, v.blocks, j) == v.files[j];
    }
  }

  lemma InodesHome(l: Layout, sb: Super, b: Disk, d: Disk)
    requires Below(l, sb) && sb.Fits(|b|) && SameHome(l, d, b)
    ensures forall j, f :: 0 <= j < sb.ninodes && 0 <= f < 16 ==> InodeWord(sb, d, j, f) == InodeWord(sb, b, j, f)
  {
    forall j, f | 0 <= j < sb.ninodes && 0 <= f < 16 ensures InodeWord(sb, d, j, f) == InodeWord(sb, b, j, f) {
      assert sb.IBlock(j) >= sb.inodestart;
    }
  }

  lemma OwnedRange(sb: Super, blocks: Disk, files: seq<Addrs>, own: map<nat, Slot>)
    requires Owned(sb, blocks, files, own)
    ensures forall b :: b in own ==> sb.DataStart() <= b < sb.size
  {
  }

  /** A chain of reboots from `d`, each recovery but the last stopped short somewhere. */
  ghost predicate Reboots(l: Layout, d: Disk, reboots: seq<Disk>) {
    && |reboots| > 0 && reboots[0] == d
    && forall i: nat :: i + 1 < |reboots| ==> ValidHeader(l, reboots[i]) ==> StopsAt(l, reboots[i], reboots[i + 1])
  }

  /** However often recovery is cut short, the file system is `v` once it completes. */
  ghost predicate Survives(l: Layout, sb: Super, d: Disk, v: Snapshot) {
    forall reboots :: Reboots(l, d, reboots) ==>
      var last := reboots[|reboots| - 1];
      ValidHeader(l, last) && Restores(sb, Recover(l, last), v)
  }

  lemma RecoversSurvives(l: Layout, sb: Super, d: Disk, v: Snapshot, h: Disk)
    requires Below(l, sb) && Sound(sb, v) && RecoversTo(l, d, h) && SameHome(l, h, v.blocks)
    ensures Survives(l, sb, d, v)
  {
    forall reboots | Reboots(l, d, reboots)
      ensures var last := reboots[|reboots| - 1]; ValidHeader(l, last) && Restores(sb, Recover(l, last), v)
    {
      RepeatedCrashesRecover(l, reboots, h);
      HomeRestores(l, sb, v, Recover(l, reboots[|reboots| - 1]));
    }
  }

  // ----- what a reboot reads -----

  /** The addresses of all inodes, as the disk has them. */
  function DiskFiles(sb: Super, d: Disk): seq<Addrs>
    requires sb.Fits(|d|)
  {
    seq(sb.ninodes, j requires 0 <= j < sb.ninodes => DiskAddrs(sb, d, j))
  }

  lemma OnDiskIs(sb: Super, d: Disk, files: seq<Addrs>)
    requires OnDisk(sb, d, files)
    ensures DiskFiles(sb, d) == files
  {
    hide DiskAddrs;
  }

  /** From the disk alone, inode words and blocks: inode `i` has `size` bytes, `chunk[..tot]`
      at `off`, and every other byte of every file is as on `b`. */
  ghost predicate Shows(sb: Super, b: Disk, d: Disk, i: nat, off: nat, chunk: seq<byte>, tot: nat, size: nat) {
    && sb.Fits(|b|) && sb.Fits(|d|) && i < sb.ninodes && InodeWord(sb, d, i, 2) == size
    && Wrote(b, DiskFiles(sb, b), d, DiskFiles(sb, d), i, off, chunk, tot)
    && forall j :: 0 <= j < sb.ninodes && j != i ==> InodeWord(sb, d, j, 2) == InodeWord(sb, b, j, 2)
  }

  lemma SizeLies(sb: Super, d: Disk, j: nat)
    requires sb.Fits(|d|) && j < sb.ninodes
    ensures InodeWord(sb, d, j, 2) == Uint(d[sb.inodestart + j / 16], j % 16 * 64 + 8)
  {
  }

  /** In terms of the disk's bytes: the size of inode `i`, and every byte of every file. */
  lemma ShowsBytes(sb: Super, b: Disk, d: Disk, i: nat, off: nat, chunk: seq<byte>, tot: nat, size: nat, j: nat, k: nat)
    requires Shows(sb, b, d, i, off, chunk, tot, size) && j < sb.ninodes && k < MAXFILE * BSIZE
    ensures sb.inodestart + j / 16 < |d| && sb.inodestart + j / 16 < |b|
    ensures DiskByte(d, sb.inodestart, j, k) ==
              if j == i && off <= k < off + tot then chunk[k - off] else DiskByte(b, sb.inodestart, j, k)
    ensures Uint(d[sb.inodestart + j / 16], j % 16 * 64 + 8) ==
              if j == i then size else Uint(b[sb.inodestart + j / 16], j % 16 * 64 + 8)
  {
    hide FileByte, DiskByte, InodeAddrs, FileBlock, InodeWord, Uint, DiskAddrs;
    SizeLies(sb, d, j);
    SizeLies(sb, b, j);
    FileByteIs(sb, d, DiskFiles(sb, d), j, k);
    FileByteIs(sb, b, DiskFiles(sb, b), j, k);
    assert j != i ==> SameFile(b, DiskFiles(sb, b)[j], d, DiskFiles(sb, d)[j]);
  }

  /** What the disk shows once recovery is through, after a write that took `v0` to `v1`:
      none of it or all of it, size included. */
  lemma ChunkAllOrNothing(sb: Super, v0: Snapshot, v1: Snapshot, d: Disk, i: nat, off: nat, chunk: seq<byte>, r: nat,
                          size: nat)
    requires Sound(sb, v0) && Sound(sb, v1) && i < sb.ninodes && OtherInodesSame(sb, v0.blocks, v1.blocks, i)
    requires Wrote(v0.blocks, v0.files, v1.blocks, v1.files, i, off, chunk, r) && InodeWord(sb, v1.blocks, i, 2) == size
    ensures Restores(sb, d, v0) ==> Shows(sb, v0.blocks, d, i, off, chunk, 0, InodeWord(sb, v0.blocks, i, 2))
    ensures Restores(sb, d, v1) ==> Shows(sb, v0.blocks, d, i, off, chunk, r, size)
  {
    hide FileByte, Owned, Marked, DiskFiles, InodeWord, OnDisk;
    OnDiskIs(sb, v0.blocks, v0.files);
    if Restores(sb, d, v0) {
      OnDiskIs(sb, d, v0.files);
    }
    if Restores(sb, d, v1) {
      OnDiskIs(sb, d, v1.files);
      WroteSame(v0.blocks, v0.files, v1.blocks, v1.files, d, v1.files, i, off, chunk, r);
    }
  }

  // ----- commit -----

  /** The first `n` images added since `base` survive as `v0`, the others as `v1`. */
  ghost predicate Splits(l: Layout, sb: Super, trace: seq<Disk>, base: nat, n: nat, v0: Snapshot, v1: Snapshot) {
    && (forall i :: base <= i < base + n && i < |trace| ==> Survives(l, sb, trace[i], v0))
    && (forall i :: base + n <= i < |trace| ==> Survives(l, sb, trace[i], v1))
  }

  lemma TraceSplits(l: Layout, sb: Super, trace: seq<Disk>, h0: seq<Disk>, n: nat, before: Disk, after: Disk,
                    v0: Snapshot, v1: Snapshot)
    requires Below(l, sb) && Sound(sb, v0) && Sound(sb, v1) && SameHome(l, before, v0.blocks)
    requires SameHome(l, after, v1.blocks)
    requires L.Recoverable(l, trace, if n == 0 then h0 else L.Committed(h0, n, before, n + 2, after))
    ensures Splits(l, sb, trace, |h0|, n, v0, v1)
  {
    hide Survives, Sound, RecoversTo;
    forall i | |h0| <= i < |trace|
      ensures i < |h0| + n ==> Survives(l, sb, trace[i], v0)
      ensures i >= |h0| + n ==> Survives(l, sb, trace[i], v1)
    {
      if i < |h0| + n {
        RecoversSurvives(l, sb, trace[i], v0, before);
      } else {
        RecoversSurvives(l, sb, trace[i], v1, after);
      }
    }
  }

  ghost function Now(fs: FS.Volume): Snapshot
    reads fs
  {
    Snapshot(fs.blocks, fs.files, fs.own)
  }

  /** commit of the operations that took the file system from `v0`, the last one
      committed, to what it is now: a crash before the header write brings back
      `v0`, one from then on brings back the present files. */
  method CommitVolume(log: L.WriteAheadLog, fs: FS.Volume, ghost v0: Snapshot)
    requires log.Valid() && L.Ready(log.layout, log.cache.View(), log.Entries(), L.Busy(log.cache.View()))
    requires Below(log.layout, fs.sb) && Sound(fs.sb, v0) && SameHome(log.layout, log.cache.disk.blocks, v0.blocks)
    requires Sound(fs.sb, Now(fs)) && SameHome(log.layout, log.logical, fs.blocks)
    modifies log`n, log`history, log.cache, log.cache.disk, log.cache.bufs, log.cache.next, log.cache.prev
    ensures log.Valid() && old(log.cache.disk.trace) <= log.cache.disk.trace
    ensures Splits(log.layout, fs.sb, log.cache.disk.trace, |old(log.cache.disk.trace)|, old(log.n), v0, Now(fs))
    ensures Restores(fs.sb, log.cache.disk.blocks, Now(fs))
  {
    hide Survives, Restores, Sound, L.Refines, L.Ready, RecoversTo, BC.ViewOf, BC.Linked, BC.Coherent, Splits;
    ghost var before, n, h0 := log.cache.disk.blocks, log.n, log.history;
    log.Commit();
    HomeRestores(log.layout, fs.sb, Now(fs), log.cache.disk.blocks);
    TraceSplits(log.layout, fs.sb, log.cache.disk.trace, h0, n, before, log.logical, v0, Now(fs));
  }

  // ----- from filewrite to the disk -----

  /** The log once the contents `b` of the blocks `done` have been logged over `b0`. */
  ghost predicate Playing(l: Layout, v0: BC.View, e0: seq<nat>, b0: Disk, b: Disk, done: set<nat>,
                          v: BC.View, entries: seq<nat>, logical: Disk) {
    && v0.Sized() && v.Sized() && |v.disk| == |v0.disk| == |b0| == |b| == |logical|
    && v.locks == v0.locks && v.disk == v0.disk
    && (forall c: nat :: c < |v.refs| ==> v.refs[c] == v0.refs[c] + if c in done && c !in e0 then 1 else 0)
    && (forall c: nat :: c in entries <==> c in e0 || c in done) && |entries| <= |e0| + |done|
    && (forall c: nat :: c < |b| && !l.Holds(c) ==> logical[c] == if c in done then b[c] else b0[c])
  }

  lemma PlayNone(l: Layout, v: BC.View, entries: seq<nat>, b0: Disk, b: Disk, logical: Disk)
    requires v.Sized() && |v.disk| == |b0| == |b| && SameHome(l, logical, b0)
    ensures Playing(l, v, entries, b0, b, {}, v, entries, logical)
  {
  }

  lemma PlayStep(l: Layout, v0: BC.View, e0: seq<nat>, b0: Disk, b: Disk, done: set<nat>,
                 v: BC.View, entries: seq<nat>, logical: Disk, x: nat)
    requires Playing(l, v0, e0, b0, b, done, v, entries, logical) && x !in done && x < |b|
    ensures Playing(l, v0, e0, b0, b, done + {x}, (if x in entries then v else v.Pinned(x)).Stored(x, b[x]),
                    if x in entries then entries else entries + [x], logical[x := b[x]])
  {
  }

  lemma PlayDone(l: Layout, v0: BC.View, e0: seq<nat>, b0: Disk, b: Disk, done: set<nat>,
                 v: BC.View, entries: seq<nat>, logical: Disk)
    requires Playing(l, v0, e0, b0, b, done, v, entries, logical) && Covered(b0, b, done)
    requires L.Refines(l, entries, logical, v) && Playable(l, v0, e0, done)
    ensures SameHome(l, logical, b) && L.Ready(l, v, entries, L.Busy(v))
  {
    Busier(l, v0, e0, b0, b, done, v, entries, logical);
  }

  lemma PlayCount(l: Layout, v0: BC.View, e0: seq<nat>, b0: Disk, b: Disk, done: set<nat>,
                  v: BC.View, entries: seq<nat>, logical: Disk)
    requires Playing(l, v0, e0, b0, b, done, v, entries, logical) && Distinct(entries)
    ensures |entries| == |Elements(e0) + done|
  {
    ElementsCount(entries);
    assert Elements(entries) == Elements(e0) + done;
  }

  lemma Busier(l: Layout, v0: BC.View, e0: seq<nat>, b0: Disk, b: Disk, done: set<nat>,
               v: BC.View, entries: seq<nat>, logical: Disk)
    requires Playing(l, v0, e0, b0, b, done, v, entries, logical)
    ensures forall c: nat :: c < |v.refs| && v.refs[c] > 0 ==> c in L.Busy(v0) + done
    ensures |L.Busy(v)| <= |L.Busy(v0)| + |done| && |L.Busy(v0) + done| <= |L.Busy(v0)| + |done|
  {
    SubsetSize(L.Busy(v), L.Busy(v0) + done);
    assert L.Busy(v0) + done == L.Busy(v0) + (done - L.Busy(v0));
    SubsetSize(done - L.Busy(v0), done);
  }

  /** The cache has room to log the blocks `logged`, and no one else has locked them or
      an entry, or has a block of the log region. */
  ghost predicate Playable(l: Layout, v: BC.View, entries: seq<nat>, logged: set<nat>) {
    && v.Sized() && |L.Busy(v)| + |logged| < NBUF
    && (forall c: nat :: c < |v.refs| && l.Holds(c) ==> v.refs[c] == 0 && !v.locks[c])
    && (forall c: nat :: c < |v.refs| && (c in entries || c in logged) ==> !v.locks[c])
    && (forall c :: c in logged ==> c < |v.disk| && !l.Holds(c))
  }

  method LogNext(log: L.WriteAheadLog, blocks: Disk, b: nat, ghost v0: BC.View, ghost e0: seq<nat>, ghost b0: Disk,
                 ghost done: set<nat>)
    requires log.Valid() && log.outstanding >= 1 && |L.Busy(v0)| + |done| < NBUF
    requires Playing(log.layout, v0, e0, b0, blocks, done, log.cache.View(), log.Entries(), log.logical)
    requires b !in done && b < |v0.disk| && !log.layout.Holds(b) && b < |v0.locks| && !v0.locks[b]
    requires |e0| + |done| < LOGSIZE && |e0| + |done| < log.layout.size - 1
    modifies log, log.block, log.cache, log.cache.bufs, log.cache.next, log.cache.prev
    ensures log.Valid() && log.outstanding == old(log.outstanding) && log.committing == old(log.committing)
    ensures log.history == old(log.history)
    ensures Playing(log.layout, v0, e0, b0, blocks, done + {b}, log.cache.View(), log.Entries(), log.logical)
  {
    hide L.Refines, RecoversTo, BC.ViewOf, BC.Linked, BC.Coherent, Playing, L.Busy, L.Recoverable;
    PlayMeans(log.layout, v0, e0, b0, blocks, done, log.cache.View(), log.Entries(), log.logical);
    Busier(log.layout, v0, e0, b0, blocks, done, log.cache.View(), log.Entries(), log.logical);
    log.cache.Room(L.Busy(v0) + done, b);
    PlayStep(log.layout, v0, e0, b0, blocks, done, log.cache.View(), log.Entries(), log.logical, b);
    log.LogBlock(b, blocks[b]);
  }

  /** log_write of every block the operation has changed. */
  method LogAll(log: L.WriteAheadLog, fs: FS.Volume, ghost b0: Disk)
    requires log.Valid() && log.outstanding >= 1 && SameHome(log.layout, log.logical, b0)
    requires Covered(b0, fs.blocks, fs.logged) && Playable(log.layout, log.cache.View(), log.Entries(), fs.logged)
    requires log.n + |fs.logged| <= LOGSIZE && log.n + |fs.logged| < log.layout.size
    modifies log, log.block, log.cache, log.cache.bufs, log.cache.next, log.cache.prev
    ensures log.Valid() && log.outstanding == old(log.outstanding) && log.committing == old(log.committing)
    ensures log.history == old(log.history) && SameHome(log.layout, log.logical, fs.blocks)
    ensures log.n == |Elements(old(log.Entries())) + fs.logged|
    ensures L.Ready(log.layout, log.cache.View(), log.Entries(), L.Busy(log.cache.View()))
  {
    hide L.Refines, L.Ready, RecoversTo, BC.ViewOf, BC.Linked, BC.Coherent, Playing, L.Busy, Covered, L.Recoverable;
    ghost var v0, e0, l := log.cache.View(), log.Entries(), log.layout;
    var todo := fs.logged;
    ghost var done: set<nat> := {};
    L.RefinesSized(l, e0, log.logical, v0);
    CoveredSized(b0, fs.blocks, fs.logged);
    PlayNone(l, v0, e0, b0, fs.blocks, log.logical);
    while todo != {}
      invariant done + todo == fs.logged && done !! todo && fs.logged == old(fs.logged) && fs.blocks == old(fs.blocks)
      invariant log.Valid() && log.outstanding == old(log.outstanding) && log.committing == old(log.committing)
      invariant log.history == old(log.history) && log.cache.disk.blocks == v0.disk
      invariant Playing(l, v0, e0, b0, fs.blocks, done, log.cache.View(), log.Entries(), log.logical)
      decreases todo
    {
      var b: nat :| b in todo;
      assert |fs.logged| == |done| + |todo|;
      LogNext(log, fs.blocks, b, v0, e0, b0, done);
      todo, done := todo - {b}, done + {b};
    }
    assert done == fs.logged;
    PlayCount(l, v0, e0, b0, fs.blocks, done, log.cache.View(), log.Entries(), log.logical);
    PlayDone(l, v0, e0, b0, fs.blocks, done, log.cache.View(), log.Entries(), log.logical);
  }

  lemma CoveredSized(b0: Disk, b: Disk, l: set<nat>)
    requires Covered(b0, b, l)
    ensures |b| == |b0|
  {
  }

  lemma PlayMeans(l: Layout, v0: BC.View, e0: seq<nat>, b0: Disk, b: Disk, done: set<nat>,
                  v: BC.View, entries: seq<nat>, logical: Disk)
    requires Playing(l, v0, e0, b0, b, done, v, entries, logical)
    ensures v.Sized() && v.locks == v0.locks && |v.disk| == |b| == |logical| == |v0.disk| && |entries| <= |e0| + |done|
  {
  }

  /** However often recovery is cut short, the disk then shows this. */
  ghost predicate Showing(l: Layout, sb: Super, b: Disk, d: Disk, i: nat, off: nat, chunk: seq<byte>, tot: nat,
                          size: nat) {
    forall reboots :: Reboots(l, d, reboots) ==>
      var last := reboots[|reboots| - 1];
      ValidHeader(l, last) && Shows(sb, b, Recover(l, last), i, off, chunk, tot, size)
  }

  /** A crash at the first `n` of the images since `base` shows nothing of the write, at the others all of it. */
  ghost predicate AllOrNothing(l: Layout, sb: Super, trace: seq<Disk>, base: nat, n: nat, b: Disk, i: nat, off: nat,
                               chunk: seq<byte>, r: nat, size0: nat, size: nat) {
    && (forall k :: base <= k < base + n && k < |trace| ==> Showing(l, sb, b, trace[k], i, off, chunk, 0, size0))
    && (forall k :: base + n <= k < |trace| ==> Showing(l, sb, b, trace[k], i, off, chunk, r, size))
  }

  lemma SoundFits(sb: Super, v: Snapshot)
    requires Sound(sb, v)
    ensures sb.Fits(|v.blocks|)
  {
  }

  lemma SplitsShow(l: Layout, sb: Super, trace: seq<Disk>, base: nat, n: nat, v0: Snapshot, v1: Snapshot, i: nat,
                   off: nat, chunk: seq<byte>, r: nat, size: nat)
    requires Splits(l, sb, trace, base, n, v0, v1)
    requires Sound(sb, v0) && Sound(sb, v1) && i < sb.ninodes && OtherInodesSame(sb, v0.blocks, v1.blocks, i)
    requires Wrote(v0.blocks, v0.files, v1.blocks, v1.files, i, off, chunk, r) && InodeWord(sb, v1.blocks, i, 2) == size
    ensures AllOrNothing(l, sb, trace, base, n, v0.blocks, i, off, chunk, r, InodeWord(sb, v0.blocks, i, 2), size)
  {
    hide Sound, Restores, Shows, Wrote, OtherInodesSame, InodeWord, Reboots;
    SoundFits(sb, v0);
    forall d | Restores(sb, d, v0) || Restores(sb, d, v1)
      ensures Restores(sb, d, v0) ==> Shows(sb, v0.blocks, d, i, off, chunk, 0, InodeWord(sb, v0.blocks, i, 2))
      ensures Restores(sb, d, v1) ==> Shows(sb, v0.blocks, d, i, off, chunk, r, size)
    {
      ChunkAllOrNothing(sb, v0, v1, d, i, off, chunk, r, size);
    }
  }

  /** What an operation on inode `i` may find in the cache: room for what it reserves, the
      log region and the entries left alone, and locked, if any, only blocks of other files. */
  ghost predicate Calm(l: Layout, v: BC.View, entries: seq<nat>, own: map<nat, Slot>, i: nat) {
    && v.Sized() && |L.Busy(v)| + MAXOPBLOCKS < NBUF
    && (forall c: nat :: c < |v.refs| && l.Holds(c) ==> v.refs[c] == 0 && !v.locks[c])
    && (forall c: nat :: c < |v.refs| && c in entries ==> !v.locks[c])
    && (forall c: nat :: c < |v.refs| && v.locks[c] ==> c in own && own[c].inum != i)
  }

  /** A write logs no block of the log region and none of another file. */
  lemma LogsMine(sb: Super, f0: seq<Addrs>, files: seq<Addrs>, own0: map<nat, Slot>, own: map<nat, Slot>, b0: Disk,
                 b: Disk, i: nat, s: set<nat>, logged: set<nat>)
    requires Owned(sb, b0, f0, own0) && Owned(sb, b, files, own) && i < |files| && i < |f0| && i < sb.ninodes
    requires WriteDone(sb, own0, b0, f0[i], {}, own, b, files[i], logged, s, i)
    ensures forall x :: x in logged ==> sb.inodestart <= x < sb.size && (x in own0 ==> own0[x].inum == i)
  {
    hide BlockOf, Ref;
    MappedMeans(b0, f0[i], b, files[i], s);
    forall x | x in logged ensures sb.inodestart <= x < sb.size && (x in own0 ==> own0[x].inum == i) {
      if x in DataBlocks(b, files[i], s) {
        var c :| c in s && x == BlockOf(b, files[i], c);
        MineData(sb, files, own, b, i, c);
      } else if x == files[i][NDIRECT] && Listed(own0, own) {
        MineIndirect(sb, files, own, b, i);
      } else if x in Bitmaps(sb, Fresh(own0, own)) {
        var y :| y in Fresh(own0, own) && x == sb.BBlock(y);
      }
    }
  }

  lemma MineData(sb: Super, files: seq<Addrs>, own: map<nat, Slot>, b: Disk, i: nat, c: nat)
    requires Owned(sb, b, files, own) && i < |files| && c < MAXFILE && BlockOf(b, files[i], c) != 0
    ensures var x := BlockOf(b, files[i], c); x in own && own[x].inum == i && sb.DataStart() <= x < sb.size
  {
    assert Ref(b, files[i], Pos(c)) == BlockOf(b, files[i], c);
  }

  lemma MineIndirect(sb: Super, files: seq<Addrs>, own: map<nat, Slot>, b: Disk, i: nat)
    requires Owned(sb, b, files, own) && i < |files| && files[i][NDIRECT] != 0
    ensures var x := files[i][NDIRECT]; x in own && own[x].inum == i && sb.DataStart() <= x < sb.size
  {
    assert Ref(b, files[i], NDIRECT) == files[i][NDIRECT];
  }

  lemma CalmPlayable(l: Layout, sb: Super, v: BC.View, entries: seq<nat>, own: map<nat, Slot>, i: nat, logged: set<nat>)
    requires Calm(l, v, entries, own, i) && Below(l, sb) && sb.size <= |v.disk| && |logged| <= MAXOPBLOCKS
    requires forall x :: x in logged ==> sb.inodestart <= x < sb.size && (x in own ==> own[x].inum == i)
    ensures Playable(l, v, entries, logged)
  {
    hide L.Busy;
  }

  /** One chunk of filewrite, from writei through log_write to the end_op that commits it.
      `v0` is the file system last committed; `k` blocks are in the transaction, and
      as many block writes come before the header's. Where
      this is the transaction's only operation, a crash shows none of the chunk or all of it. */
  method CommitChunk(log: L.WriteAheadLog, fs: FS.Volume, ip: FS.Inode, chunk: seq<byte>, off: nat, ghost v0: Snapshot)
    returns (r: int, ghost k: nat)
    requires log.Valid() && log.outstanding == 1 && !log.committing
    requires log.n + MAXOPBLOCKS <= LOGSIZE && log.n + MAXOPBLOCKS < log.layout.size
    requires Below(log.layout, fs.sb) && Sound(fs.sb, Now(fs)) && SameHome(log.layout, log.logical, fs.blocks)
    requires Sound(fs.sb, v0) && SameHome(log.layout, log.cache.disk.blocks, v0.blocks)
    requires fs.Loaded(ip) && ip.size <= MAXFILE * BSIZE && HoleFree(fs.blocks, ip.addrs, ip.size)
    requires off < UINT_RANGE && |chunk| <= MAX_CHUNK
    requires Calm(log.layout, log.cache.View(), log.Entries(), fs.own, ip.inum)
    modifies fs, ip`size, ip`addrs
    modifies log, log.block, log.cache, log.cache.disk, log.cache.bufs, log.cache.next, log.cache.prev
    ensures log.Valid() && log.outstanding == 0 && Sound(fs.sb, Now(fs)) && -1 <= r <= |chunk|
    ensures Wrote(old(fs.blocks), old(fs.files), fs.blocks, fs.files, ip.inum, off, chunk, if r < 0 then 0 else r)
    ensures old(log.cache.disk.trace) <= log.cache.disk.trace && k == |Elements(old(log.Entries())) + fs.logged|
    ensures Splits(log.layout, fs.sb, log.cache.disk.trace, |old(log.cache.disk.trace)|, k, v0, Now(fs))
    ensures Restores(fs.sb, log.cache.disk.blocks, Now(fs))
    ensures r >= 0 && v0 == old(Now(fs)) ==>
              && fs.sb.Fits(|v0.blocks|) && ip.inum < fs.sb.ninodes
              && AllOrNothing(log.layout, fs.sb, log.cache.disk.trace, |old(log.cache.disk.trace)|, k, v0.blocks,
                              ip.inum, off, chunk, r, InodeWord(fs.sb, v0.blocks, ip.inum, 2), ip.size)
  {
    hide Survives, Restores, Owned, Marked, OnDisk, L.Refines, L.Ready, RecoversTo, Wrote, HoleFree;
    hide BC.ViewOf, BC.Linked, BC.Coherent, Splits, AllOrNothing, Covered, WriteDone, OtherInodesSame, Playable, Calm;
    ghost var b0, f0, own0 := fs.blocks, fs.files, fs.own;
    FilesSized(fs.sb, fs.blocks, fs.files);
    r := fs.WriteChunk(ip, chunk, off);
    if r >= 0 {
      LogsMine(fs.sb, f0, fs.files, own0, fs.own, b0, fs.blocks, ip.inum, TouchedSet(off, r), fs.logged);
    }
    L.RefinesSized(log.layout, log.Entries(), log.logical, log.cache.View());
    CalmPlayable(log.layout, fs.sb, log.cache.View(), log.Entries(), own0, ip.inum, fs.logged);
    LogAll(log, fs, b0);
    ghost var before, h0 := log.cache.disk.blocks, log.history;
    k := log.n;
    log.EndOp();
    HomeRestores(log.layout, fs.sb, Now(fs), log.cache.disk.blocks);
    TraceSplits(log.layout, fs.sb, log.cache.disk.trace, h0, k, before, log.logical, v0, Now(fs));
    if r >= 0 && v0 == old(Now(fs)) {
      SplitsShow(log.layout, fs.sb, log.cache.disk.trace, |h0|, k, v0, Now(fs), ip.inum, off, chunk, r, ip.size);
    }
  }

  lemma FilesSized(sb: Super, b: Disk, files: seq<Addrs>)
    requires OnDisk(sb, b, files)
    ensures |files| == sb.ninodes && sb.Fits(|b|)
  {
  }
}
