/**
 The reservation of MAXOPBLOCKS is exact. When the lowest free blocks lie in
 different bitmap blocks, a chunk of filewrite that starts inside the last
 direct block logs every block its transaction has reserved, and would log one
 more had that first block been a hole. Both happen on a volume built here.
 */
module WriteLimit {
  import opened Blocks
  import opened Collections
  import opened FileLayout
  import opened LogRecovery
  import opened WriteLogs
  import FS = FileSystem

  // ----- writes that find each free block in another bitmap block -----

  /** `f` lists the lowest free blocks in order. */
  ghost predicate Lowest(sb: Super, own: map<nat, Slot>, f: seq<nat>) {
    && (forall i :: 0 <= i < |f| ==> sb.DataStart() <= f[i] < sb.size && f[i] !in own)
    && (forall i, j :: 0 <= i < j < |f| ==> f[i] < f[j])
    && (|f| > 0 ==> forall c: nat :: sb.DataStart() <= c <= f[|f| - 1] && c !in own ==> c in f)
  }

  /** No two of the blocks lie in one bitmap block. */
  ghost predicate Apart(sb: Super, f: seq<nat>) {
    forall i, j :: 0 <= i < j < |f| ==> sb.BBlock(f[i]) != sb.BBlock(f[j])
  }

  /** As many allocations as `f` is long take exactly the blocks of `f`. */
  lemma LowestTaken(sb: Super, own0: map<nat, Slot>, own: map<nat, Slot>, f: seq<nat>)
    requires Lowest(sb, own0, f) && Grew(sb, own0, own) && |Fresh(own0, own)| == |f|
    requires forall x :: x in Fresh(own0, own) ==> sb.DataStart() <= x
    ensures Fresh(own0, own) == Elements(f)
  {
    hide Fresh, Grew;
    var taken := Fresh(own0, own);
    ElementsCount(f);
    if |f| > 0 {
      if x :| x in taken && x > f[|f| - 1] {
        BelowTaken(sb, own0, own, f, x);
        SubsetSize(Elements(f), taken - {x});
        assert false;
      }
      NotBeyond(sb, own0, own, f);
      SameSize(taken, Elements(f));
    }
  }

  lemma BelowTaken(sb: Super, own0: map<nat, Slot>, own: map<nat, Slot>, f: seq<nat>, x: nat)
    requires Lowest(sb, own0, f) && Grew(sb, own0, own) && |f| > 0 && x in Fresh(own0, own) && x > f[|f| - 1]
    ensures Elements(f) <= Fresh(own0, own) - {x}
  {
    forall i | 0 <= i < |f| ensures f[i] in Fresh(own0, own) - {x} {
      assert f[i] <= f[|f| - 1] < x;
      assert sb.DataStart() <= f[i];
    }
  }

  lemma NotBeyond(sb: Super, own0: map<nat, Slot>, own: map<nat, Slot>, f: seq<nat>)
    requires Lowest(sb, own0, f) && |f| > 0
    requires forall x :: x in Fresh(own0, own) ==> sb.DataStart() <= x <= f[|f| - 1]
    ensures Fresh(own0, own) <= Elements(f)
  {
  }

  /** There are as many bitmap blocks as blocks just when no two share one. */
  lemma BitmapsApart(sb: Super, own: map<nat, Slot>, f: seq<nat>)
    requires Lowest(sb, own, f)
    ensures |Bitmaps(sb, Elements(f))| <= |f|
    ensures |Bitmaps(sb, Elements(f))| == |f| <==> Apart(sb, f)
  {
    hide Super.BBlock;
    ElementsCount(f);
    ImageBound(sb, Elements(f));
    if Apart(sb, f) {
      OwnBitmapEach(sb, Elements(f));
    } else {
      var i, j :| 0 <= i < j < |f| && sb.BBlock(f[i]) == sb.BBlock(f[j]);
      var rest := Elements(f) - {f[j]};
      assert f[i] in rest && f[j] in Elements(f);
      assert Bitmaps(sb, Elements(f)) == Bitmaps(sb, rest);
      ImageBound(sb, rest);
    }
  }

  lemma {:induction false} OwnBitmapEach(sb: Super, s: set<nat>)
    requires forall x, y :: x in s && y in s && x != y ==> sb.BBlock(x) != sb.BBlock(y)
    ensures |Bitmaps(sb, s)| == |s|
  {
    hide Super.BBlock;
    if s == {} {
      assert Bitmaps(sb, s) == {};
    } else {
      var x :| x in s;
      OwnBitmapEach(sb, s - {x});
      assert Bitmaps(sb, s) == Bitmaps(sb, s - {x}) + {sb.BBlock(x)};
    }
  }

  /** The number of blocks allocated. */
  lemma FreshCount(sb: Super, files: seq<Addrs>, own0: map<nat, Slot>, own: map<nat, Slot>, b0: Disk, a0: Addrs,
                   b: Disk, i: nat, s: set<nat>)
    requires Owned(sb, b, files, own) && i < |files| && i < sb.ninodes && InFile(s)
    requires MappedMore(b0, a0, b, files[i], s) && FreshIs(own0, b0, a0, own, b, files[i], s)
    ensures |Fresh(own0, own)| == |Absent(b0, a0, s)| + if files[i][NDIRECT] != a0[NDIRECT] then 1 else 0
    ensures forall x :: x in Fresh(own0, own) ==> sb.DataStart() <= x
  {
    hide Owned, BlockOf, MappedMore, Fresh, DataBlocks, Bitmaps, InFile, FreshIs, Absent;
    MappedMeans(b0, a0, b, files[i], s);
    FreshWithin(sb, files, own0, own, b0, a0, b, i, s);
    StillPresent(b0, a0, b, files[i], s);
    DataCount(sb, files, own, b, i, Absent(b0, a0, s));
    RegionsApart(sb, files, own, b, i, Absent(b0, a0, s), {});
  }

  /** With as many free blocks as the write needs, it does not stop short. */
  lemma NeverShort(sb: Super, files: seq<Addrs>, own0: map<nat, Slot>, own: map<nat, Slot>, b0: Disk, a0: Addrs,
                   b: Disk, i: nat, off: nat, r: nat, n: nat, f: seq<nat>)
    requires Owned(sb, b, files, own) && Marked(sb, b, own, {}) && i < |files| && i < sb.ninodes
    requires r < n && off + n <= MAXFILE * BSIZE && InFile(TouchedSet(off, r)) && InFile(TouchedSet(off, n))
    requires MappedMore(b0, a0, b, files[i], TouchedSet(off, r))
    requires FreshIs(own0, b0, a0, own, b, files[i], TouchedSet(off, r))
    requires Lowest(sb, own0, f) && |f| == |Absent(b0, a0, TouchedSet(off, n))| + 1
    requires BlockOf(b, files[i], (off + r) / BSIZE) == 0
    ensures exists x: nat :: x < sb.size && !BitAt(sb, b, x)
  {
    if forall x: nat :: x < sb.size ==> BitAt(sb, b, x) {
      FreshCount(sb, files, own0, own, b0, a0, b, i, TouchedSet(off, r));
      FewerAbsent(b0, a0, b, files[i], off, r, n);
      forall k | 0 <= k < |f| ensures f[k] in Fresh(own0, own) {
        assert BitAt(sb, b, f[k]);
      }
      ElementsCount(f);
      SubsetSize(Elements(f), Fresh(own0, own));
      assert false;
    }
  }

  lemma FewerAbsent(b0: Disk, a0: Addrs, b: Disk, a: Addrs, off: nat, r: nat, n: nat)
    requires r < n && off + n <= MAXFILE * BSIZE && InFile(TouchedSet(off, r)) && InFile(TouchedSet(off, n))
    requires MappedMore(b0, a0, b, a, TouchedSet(off, r)) && BlockOf(b, a, (off + r) / BSIZE) == 0
    ensures |Absent(b0, a0, TouchedSet(off, r))| < |Absent(b0, a0, TouchedSet(off, n))|
  {
    hide BlockOf;
    var c, few, all := (off + r) / BSIZE, Absent(b0, a0, TouchedSet(off, r)), Absent(b0, a0, TouchedSet(off, n));
    assert c in TouchedSet(off, n) && c !in TouchedSet(off, r) && BlockOf(b0, a0, c) == 0;
    assert few <= all - {c};
    SubsetSize(few, all - {c});
  }

  /** How many blocks a write logs, by the free blocks it finds. */
  lemma LowestCount(sb: Super, files: seq<Addrs>, own0: map<nat, Slot>, own: map<nat, Slot>, b0: Disk, a0: Addrs,
                    b: Disk, i: nat, s: set<nat>, f: seq<nat>)
    requires Owned(sb, b, files, own) && i < |files| && i < sb.ninodes
    requires InFile(s) && MappedMore(b0, a0, b, files[i], s) && Grew(sb, own0, own)
    requires FreshIs(own0, b0, a0, own, b, files[i], s) && (Listed(own0, own) ==> files[i][NDIRECT] != 0)
    requires Lowest(sb, own0, f) && |f| == |Fresh(own0, own)|
    ensures |AllLogs(sb, own0, own, b, files[i], s, i)|
         == |s| + |Bitmaps(sb, Elements(f))| + (if Listed(own0, own) then 1 else 0) + 1
  {
    hide Owned, BlockOf, Fresh, DataBlocks, Bitmaps, InFile, FreshIs, Absent, Listed, AllLogs, Grew;
    FreshCount(sb, files, own0, own, b0, a0, b, i, s);
    MappedMeans(b0, a0, b, files[i], s);
    LogCount(sb, files, own0, own, b0, a0, b, i, s);
    LowestTaken(sb, own0, own, f);
  }

  /** A write that needs the indirect block and finds every block in another bitmap block. */
  lemma SpreadCount(sb: Super, files: seq<Addrs>, own0: map<nat, Slot>, own: map<nat, Slot>, b0: Disk, a0: Addrs,
                    b: Disk, i: nat, s: set<nat>, f: seq<nat>)
    requires Owned(sb, b, files, own) && i < |files| && i < sb.ninodes
    requires InFile(s) && MappedMore(b0, a0, b, files[i], s) && Grew(sb, own0, own)
    requires FreshIs(own0, b0, a0, own, b, files[i], s) && (Listed(own0, own) ==> files[i][NDIRECT] != 0)
    requires a0[NDIRECT] == 0 && exists c :: c in s && c >= NDIRECT
    requires Lowest(sb, own0, f) && Apart(sb, f) && |f| == |Absent(b0, a0, s)| + 1
    ensures |AllLogs(sb, own0, own, b, files[i], s, i)| == |s| + |f| + 2
  {
    NeedsIndirect(sb, files, own0, own, b0, a0, b, i, s);
    hide Owned, BlockOf, Fresh, DataBlocks, Bitmaps, InFile, FreshIs, Absent, Listed, AllLogs, Grew, MappedMore;
    MappedMeans(b0, a0, b, files[i], s);
    NewIsListed(sb, files, own0, own, b0, a0, b, i, s);
    FreshCount(sb, files, own0, own, b0, a0, b, i, s);
    LowestCount(sb, files, own0, own, b0, a0, b, i, s, f);
    BitmapsApart(sb, own0, f);
  }

  lemma NewIsListed(sb: Super, files: seq<Addrs>, own0: map<nat, Slot>, own: map<nat, Slot>, b0: Disk, a0: Addrs,
                    b: Disk, i: nat, s: set<nat>)
    requires Owned(sb, b, files, own) && i < |files| && InFile(s) && MappedMore(b0, a0, b, files[i], s)
    requires FreshIs(own0, b0, a0, own, b, files[i], s) && files[i][NDIRECT] != a0[NDIRECT]
    ensures Listed(own0, own)
  {
    var ind := files[i][NDIRECT];
    assert ind in Fresh(own0, own) && Ref(b, files[i], NDIRECT) == ind;
    assert own[ind].pos >= NDIRECT;
  }

  lemma NeedsIndirect(sb: Super, files: seq<Addrs>, own0: map<nat, Slot>, own: map<nat, Slot>, b0: Disk, a0: Addrs,
                      b: Disk, i: nat, s: set<nat>)
    requires Owned(sb, b, files, own) && i < |files| && InFile(s) && MappedMore(b0, a0, b, files[i], s)
    requires FreshIs(own0, b0, a0, own, b, files[i], s) && a0[NDIRECT] == 0 && exists c :: c in s && c >= NDIRECT
    ensures files[i][NDIRECT] != 0
  {
    var c :| c in s && c >= NDIRECT;
    assert BlockOf(b, files[i], c) != 0;
  }

  // ----- when a chunk exceeds its reservation -----

  /** The free blocks below `k`, in order. */
  ghost function FreeBelow(sb: Super, own: map<nat, Slot>, k: nat): (f: seq<nat>) {
    if k <= sb.DataStart() || k == 0 then []
    else FreeBelow(sb, own, k - 1) + if k - 1 in own then [] else [k - 1]
  }

  lemma {:induction false} FreeBelowAll(sb: Super, own: map<nat, Slot>, k: nat)
    requires sb.DataStart() >= 0
    ensures var f := FreeBelow(sb, own, k);
      && (forall i :: 0 <= i < |f| ==> sb.DataStart() <= f[i] < k && f[i] !in own)
      && (forall i, j :: 0 <= i < j < |f| ==> f[i] < f[j])
      && (forall c: nat :: sb.DataStart() <= c < k && c !in own ==> c in f)
  {
    if k > sb.DataStart() {
      FreeBelowAll(sb, own, k - 1);
    }
  }

  /** The lowest `n` free blocks, if there are as many. */
  lemma LowestExists(sb: Super, own: map<nat, Slot>, free: set<nat>) returns (f: seq<nat>)
    requires sb.DataStart() >= 0 && forall x :: x in free ==> sb.DataStart() <= x < sb.size && x !in own
    ensures Lowest(sb, own, f) && |f| == |free|
  {
    var all := FreeBelow(sb, own, sb.size);
    FreeBelowAll(sb, own, sb.size);
    ElementsCount(all);
    forall x | x in free ensures x in Elements(all) {
      assert x in all;
    }
    SubsetSize(free, Elements(all));
    f := all[..|free|];
    PrefixLowest(sb, own, all, |free|);
  }

  lemma PrefixLowest(sb: Super, own: map<nat, Slot>, all: seq<nat>, n: nat)
    requires n <= |all| && forall i :: 0 <= i < |all| ==> sb.DataStart() <= all[i] < sb.size && all[i] !in own
    requires forall i, j :: 0 <= i < j < |all| ==> all[i] < all[j]
    requires forall c: nat :: sb.DataStart() <= c < sb.size && c !in own ==> c in all
    ensures Lowest(sb, own, all[..n])
  {
    if n > 0 {
      forall c: nat | sb.DataStart() <= c <= all[n - 1] && c !in own ensures c in all[..n] {
        InPrefix(all, n, c);
      }
    }
  }

  lemma InPrefix(s: seq<nat>, n: nat, c: nat)
    requires 0 < n <= |s| && c in s && c <= s[n - 1] && forall i, j :: 0 <= i < j < |s| ==> s[i] < s[j]
    ensures c in s[..n]
  {
    var i :| 0 <= i < |s| && s[i] == c;
    assert s[..n][i] == c;
  }

  /** The five lowest free blocks lie in five bitmap blocks. */
  ghost predicate FiveApart(sb: Super, own: map<nat, Slot>) {
    exists f: seq<nat> :: Lowest(sb, own, f) && |f| == 5 && Apart(sb, f)
  }

  /** A write of `n` bytes at `off` touches four blocks, all of them and the indirect
      block it needs missing, and will find its five blocks in five bitmap blocks. */
  ghost predicate Excessive(sb: Super, own: map<nat, Slot>, b: Disk, a: Addrs, off: nat, n: nat)
    requires a[NDIRECT] < |b| && InFile(TouchedSet(off, n))
  {
    && Touched(off, n) == 4 && Absent(b, a, TouchedSet(off, n)) == TouchedSet(off, n)
    && a[NDIRECT] == 0 && off + n > NDIRECT * BSIZE && FiveApart(sb, own)
  }

  /** What writei leaves behind when it got `r` of `n` bytes far. */
  ghost predicate Outcome(sb: Super, files: seq<Addrs>, own0: map<nat, Slot>, own: map<nat, Slot>, b0: Disk, a0: Addrs,
                          b: Disk, i: nat, off: nat, r: nat, n: nat) {
    && Owned(sb, b, files, own) && Marked(sb, b, own, {}) && i < |files| && i < sb.ninodes
    && r <= n <= MAX_CHUNK && off + n <= MAXFILE * BSIZE
    && InFile(TouchedSet(off, r)) && InFile(TouchedSet(off, n))
    && MappedMore(b0, a0, b, files[i], TouchedSet(off, r)) && Grew(sb, own0, own)
    && FreshIs(own0, b0, a0, own, b, files[i], TouchedSet(off, r))
    && (Listed(own0, own) ==> files[i][NDIRECT] != 0)
    && (off + n <= NDIRECT * BSIZE ==> files[i][NDIRECT] == a0[NDIRECT])
    && (r < n ==> BlockOf(b, files[i], (off + r) / BSIZE) == 0 && forall x: nat :: x < sb.size ==> BitAt(sb, b, x))
  }

  /** A chunk logs more blocks than are reserved exactly when the state before says so. */
  lemma ChunkExceedsIff(sb: Super, files: seq<Addrs>, own0: map<nat, Slot>, own: map<nat, Slot>, b0: Disk, a0: Addrs,
                        b: Disk, i: nat, off: nat, r: nat, n: nat)
    requires Outcome(sb, files, own0, own, b0, a0, b, i, off, r, n)
    ensures |AllLogs(sb, own0, own, b, files[i], TouchedSet(off, r), i)| > MAXOPBLOCKS
       <==> Excessive(sb, own0, b0, a0, off, n)
  {
    hide Excessive, AllLogs, Outcome;
    OutcomeMeans(sb, files, own0, own, b0, a0, b, i, off, r, n);
    if Excessive(sb, own0, b0, a0, off, n) {
      ExcessiveExceeds(sb, files, own0, own, b0, a0, b, i, off, r, n);
    }
    if |AllLogs(sb, own0, own, b, files[i], TouchedSet(off, r), i)| > MAXOPBLOCKS {
      ExceedsExcessive(sb, files, own0, own, b0, a0, b, i, off, r, n);
    }
  }

  lemma OutcomeMeans(sb: Super, files: seq<Addrs>, own0: map<nat, Slot>, own: map<nat, Slot>, b0: Disk, a0: Addrs,
                     b: Disk, i: nat, off: nat, r: nat, n: nat)
    requires Outcome(sb, files, own0, own, b0, a0, b, i, off, r, n)
    ensures i < |files| && a0[NDIRECT] < |b0| && files[i][NDIRECT] < |b|
    ensures InFile(TouchedSet(off, r)) && InFile(TouchedSet(off, n))
  {
  }

  lemma ExcessiveExceeds(sb: Super, files: seq<Addrs>, own0: map<nat, Slot>, own: map<nat, Slot>, b0: Disk, a0: Addrs,
                         b: Disk, i: nat, off: nat, r: nat, n: nat)
    requires Outcome(sb, files, own0, own, b0, a0, b, i, off, r, n) && Excessive(sb, own0, b0, a0, off, n)
    ensures |AllLogs(sb, own0, own, b, files[i], TouchedSet(off, r), i)| > MAXOPBLOCKS
  {
    hide Owned, Marked, BlockOf, Fresh, FreshIs, Absent, Listed, AllLogs, Grew, MappedMore, Lowest, Apart, InFile;
    hide BitAt;
    var f :| Lowest(sb, own0, f) && |f| == 5 && Apart(sb, f);
    if r < n {
      NeverShort(sb, files, own0, own, b0, a0, b, i, off, r, n, f);
      assert false;
    }
    assert (off + n - 1) / BSIZE in TouchedSet(off, n);
    SpreadCount(sb, files, own0, own, b0, a0, b, i, TouchedSet(off, n), f);
  }

  lemma ExceedsExcessive(sb: Super, files: seq<Addrs>, own0: map<nat, Slot>, own: map<nat, Slot>, b0: Disk, a0: Addrs,
                         b: Disk, i: nat, off: nat, r: nat, n: nat)
    requires Outcome(sb, files, own0, own, b0, a0, b, i, off, r, n)
    requires |AllLogs(sb, own0, own, b, files[i], TouchedSet(off, r), i)| > MAXOPBLOCKS
    ensures Excessive(sb, own0, b0, a0, off, n)
  {
    hide Owned, Marked, BlockOf, FreshIs, Listed, AllLogs, Grew, MappedMore, Lowest, Apart, InFile, BitAt, Bitmaps;
    var s := TouchedSet(off, r);
    AllTouched(off, r, n);
    MappedMeans(b0, a0, b, files[i], s);
    LogCount(sb, files, own0, own, b0, a0, b, i, s);
    FreshCount(sb, files, own0, own, b0, a0, b, i, s);
    ImageBound(sb, Fresh(own0, own));
    SubsetSize(Absent(b0, a0, s), s);
    SameSize(Absent(b0, a0, s), s);
    FreshFree(sb, files, own0, own, b);
    var f := LowestExists(sb, own0, Fresh(own0, own));
    LowestTaken(sb, own0, own, f);
    BitmapsApart(sb, own0, f);
  }

  lemma AllTouched(off: nat, r: nat, n: nat)
    requires r <= n <= MAX_CHUNK
    ensures Touched(off, r) <= Touched(off, n) <= 4
    ensures Touched(off, r) == 4 ==> TouchedSet(off, r) == TouchedSet(off, n)
  {
    if Touched(off, r) == 4 {
      assert TouchedSet(off, r) <= TouchedSet(off, n);
      SameSize(TouchedSet(off, r), TouchedSet(off, n));
    }
  }

  lemma FreshFree(sb: Super, files: seq<Addrs>, own0: map<nat, Slot>, own: map<nat, Slot>, b: Disk)
    requires Owned(sb, b, files, own)
    ensures sb.DataStart() >= 0
    ensures forall x :: x in Fresh(own0, own) ==> sb.DataStart() <= x < sb.size && x !in own0
  {
  }

  /** writei of a chunk to any file, with holes or without: the set of blocks it logs
      exceeds the reservation exactly when the state before is excessive. */
  method WriteCounted(fs: FS.Volume, ip: FS.Inode, chunk: seq<byte>, off: nat) returns (r: int)
    requires fs.Valid() && fs.Loaded(ip) && |fs.files| == fs.sb.ninodes && fs.logged == {}
    requires off <= ip.size <= MAXFILE * BSIZE && |chunk| <= MAX_CHUNK && off + |chunk| <= MAXFILE * BSIZE
    modifies fs, ip`size, ip`addrs
    ensures fs.Valid() && 0 <= r <= |chunk| && InFile(TouchedSet(off, |chunk|))
    ensures old(ip.addrs)[NDIRECT] < |old(fs.blocks)|
    ensures Wrote(old(fs.blocks), old(fs.files), fs.blocks, fs.files, ip.inum, off, chunk, r)
    ensures |fs.logged| > MAXOPBLOCKS
       <==> Excessive(fs.sb, old(fs.own), old(fs.blocks), old(ip.addrs), off, |chunk|)
  {
    hide Owned, Marked, BlockOf, Absent, Grew, Listed, FreshIs, AllLogs, Excessive, MappedMore, InFile, TouchedSet;
    TouchedInFile(off, |chunk|);
    r := fs.Writei(ip, chunk, off);
    ChunkExceedsIff(fs.sb, fs.files, old(fs.own), fs.own, old(fs.blocks), old(ip.addrs), fs.blocks, ip.inum, off, r,
                    |chunk|);
    assert fs.logged == AllLogs(fs.sb, old(fs.own), fs.own, fs.blocks, ip.addrs, TouchedSet(off, r), ip.inum);
  }

  // ----- a volume where that happens -----

  // Four bitmap blocks have all bits set but the last, the fifth has none set.
  // Inode 1 has its first `m` direct blocks, inodes 2.. have all the blocks an
  // inode can have. The blocks in use, in order, go to inode 1, then inode 2 ...

  const FILES := 92
  const SIZE := 4 * BPB + 8

  function Data(m: nat): nat
    requires m <= NDIRECT
  {
    8016 - m
  }

  function Sb(m: nat): Super
    requires m <= NDIRECT
  {
    Super(SIZE, SIZE - Data(m), FILES + 2, ITABLE, Data(m) - 5)
  }

  /** The `j`-th data block in use. */
  function UsedBlock(m: nat, j: nat): nat
    requires m <= NDIRECT
  {
    Data(m) + j + (Data(m) + j) / (BPB - 1)
  }

  predicate Used(m: nat, b: nat)
    requires m <= NDIRECT
  {
    Data(m) <= b < 4 * BPB && b % BPB != BPB - 1
  }

  function Rank(m: nat, b: nat): (j: nat)
    requires m <= NDIRECT && Used(m, b)
  {
    RankOk(m, b);
    b - b / BPB - Data(m)
  }

  lemma RankOk(m: nat, b: nat)
    requires m <= NDIRECT && Used(m, b)
    ensures 0 <= b - b / BPB - Data(m) < m + FILES * NSLOTS && UsedBlock(m, b - b / BPB - Data(m)) == b
  {
    var q, s := b / BPB, b % BPB;
    assert b == BPB * q + s && q < 4;
    assert (BPB - 1) * q + s == b - q;
    assert ((BPB - 1) * q + s) / (BPB - 1) == q;
  }

  lemma UsedRank(m: nat, j: nat)
    requires m <= NDIRECT && j < m + FILES * NSLOTS
    ensures Used(m, UsedBlock(m, j)) && Rank(m, UsedBlock(m, j)) == j
  {
    var u := Data(m) + j;
    var q, s := u / (BPB - 1), u % (BPB - 1);
    assert u == (BPB - 1) * q + s && q < 4;
    assert UsedBlock(m, j) == BPB * q + s;
    assert (BPB * q + s) / BPB == q && (BPB * q + s) % BPB == s;
  }

  /** The block referenced from a position of an inode. */
  function RefOf(m: nat, i: nat, p: nat): nat
    requires m <= NDIRECT
  {
    if i == 1 && p < m then UsedBlock(m, p)
    else if 2 <= i < FILES + 2 && p < NSLOTS then UsedBlock(m, m + NSLOTS * (i - 2) + p)
    else 0
  }

  function SlotOf(m: nat, j: nat): Slot {
    if j < m then Slot(1, j) else Slot(2 + (j - m) / NSLOTS, (j - m) % NSLOTS)
  }

  lemma SlotRef(m: nat, j: nat)
    requires m <= NDIRECT && j < m + FILES * NSLOTS
    ensures var s := SlotOf(m, j); s.inum < FILES + 2 && s.pos < NSLOTS && RefOf(m, s.inum, s.pos) == UsedBlock(m, j)
  {
  }

  lemma RefSlot(m: nat, i: nat, p: nat)
    requires m <= NDIRECT && p < NSLOTS && RefOf(m, i, p) != 0
    ensures Used(m, RefOf(m, i, p)) && SlotOf(m, Rank(m, RefOf(m, i, p))) == Slot(i, p)
  {
    hide UsedBlock, Rank, Used;
    if i == 1 {
      UsedRank(m, p);
    } else {
      InRun(i - 2, p);
      UsedRank(m, m + NSLOTS * (i - 2) + p);
    }
  }

  lemma InRun(q: nat, p: nat)
    requires p < NSLOTS
    ensures (NSLOTS * q + p) / NSLOTS == q && (NSLOTS * q + p) % NSLOTS == p
  {
  }

  function AllButLast(): Block {
    seq(BSIZE, k => if k == BSIZE - 1 then 127 else 255)
  }

  lemma AllButLastBits(k: nat)
    requires k < BPB
    ensures Bit(AllButLast(), k) <==> k != BPB - 1
  {
    ByteBits(k % 8);
  }

  lemma ByteBits(k: nat)
    requires k < 8
    ensures ByteBit(255, k) && (ByteBit(127, k) <==> k != 7)
  {
    assert Pow2(8) == 256 && Pow2(7) == 128;
    Ones(8, k);
    Ones(7, k);
  }

  lemma {:induction false} Ones(n: nat, k: nat)
    ensures ByteBit(Pow2(n) - 1, k) <==> k < n
    decreases n + k
  {
    if n == 0 {
      if k > 0 {
        Ones(0, k - 1);
      }
    } else {
      var half := Pow2(n - 1);
      assert Pow2(n) - 1 == 2 * (half - 1) + 1;
      if k > 0 {
        Ones(n - 1, k - 1);
      }
    }
  }

  function ByteOf(w: nat, k: nat): byte
    requires w < UINT_RANGE
  {
    if k == 0 then w % 0x100 else if k == 1 then w / 0x100 % 0x100 else if k == 2 then w / 0x1_0000 % 0x100
    else WordBytes(w); w / 0x100_0000
  }

  predicate AreWords(ws: seq<nat>) {
    |ws| == WORDS && forall w :: 0 <= w < WORDS ==> ws[w] < UINT_RANGE
  }

  function FromWords(ws: seq<nat>): Block
    requires AreWords(ws)
  {
    seq(BSIZE, k requires 0 <= k < BSIZE => ByteOf(ws[k / 4], k % 4))
  }

  lemma FromWordsAt(ws: seq<nat>, w: nat)
    requires AreWords(ws) && w < WORDS
    ensures Word(FromWords(ws), w) == ws[w]
  {
    WordBytes(ws[w]);
    assert (4 * w + 1) / 4 == w && (4 * w + 1) % 4 == 1;
    assert (4 * w + 2) / 4 == w && (4 * w + 2) % 4 == 2;
    assert (4 * w + 3) / 4 == w && (4 * w + 3) % 4 == 3;
  }

  function Entry(m: nat, j: nat, w: nat): (e: nat)
    requires m <= NDIRECT && j + NINDIRECT <= m + FILES * NSLOTS && w < NINDIRECT
    ensures e < UINT_RANGE
  {
    UsedRank(m, j + w);
    UsedBlock(m, j + w)
  }

  /** The used blocks from the `j`-th on, as many as an indirect block lists. */
  function UsedRun(m: nat, j: nat): (ws: seq<nat>)
    requires m <= NDIRECT && j + NINDIRECT <= m + FILES * NSLOTS
    ensures AreWords(ws)
  {
    seq(NINDIRECT, w requires 0 <= w < NINDIRECT => Entry(m, j, w))
  }

  /** An indirect block that lists the used blocks from the `j`-th on. */
  function Listing(m: nat, j: nat): Block
    requires m <= NDIRECT && j + NINDIRECT <= m + FILES * NSLOTS
  {
    FromWords(UsedRun(m, j))
  }

  lemma ListingWord(m: nat, j: nat, w: nat)
    requires m <= NDIRECT && j + NINDIRECT <= m + FILES * NSLOTS && w < NINDIRECT
    ensures Word(Listing(m, j), w) == UsedBlock(m, j + w)
  {
    hide UsedBlock, Word, FromWords;
    FromWordsAt(UsedRun(m, j), w);
  }

  const META := Meta(2, 0, 0, 1)    // a file with one link
  const ITABLE := 33                // where the inode blocks begin
  const IBLOCKS := 6

  function SizeOf(inum: nat): nat {
    if inum == 1 then NDIRECT * BSIZE else MAXFILE * BSIZE
  }

  /** Word `f` of an inode on the disk. */
  function DinodeWord(m: nat, inum: nat, f: nat): nat
    requires m <= NDIRECT
  {
    if inum == 0 || inum >= FILES + 2 then 0
    else if f == 0 then META.Low() else if f == 1 then META.High() else if f == 2 then SizeOf(inum)
    else RefOf(m, inum, f - 3)
  }

  function Dinodes(m: nat, ib: nat): (ws: seq<nat>)
    requires m <= NDIRECT && ITABLE <= ib < ITABLE + IBLOCKS
    ensures AreWords(ws) && forall w {:trigger ws[w]} :: 0 <= w < WORDS ==>
              ws[w] == DinodeWord(m, (ib - ITABLE) * IPB + w / 16, w % 16)
  {
    var word: nat -> nat := w => DinodeWord(m, (ib - ITABLE) * IPB + w / 16, w % 16);
    var ws := seq(WORDS, word);
    assert AreWords(ws) by {
      hide RefOf;
      forall w | 0 <= w < WORDS ensures ws[w] < UINT_RANGE {
        RefBound(m, (ib - ITABLE) * IPB + w / 16, w % 16 - 3);
      }
    }
    ws
  }

  lemma RefBound(m: nat, i: nat, p: int)
    requires m <= NDIRECT
    ensures 0 <= p <= NDIRECT ==> RefOf(m, i, p) < UINT_RANGE
  {
    hide UsedBlock, Rank, SlotOf;
    if 0 <= p <= NDIRECT && RefOf(m, i, p) != 0 {
      RefSlot(m, i, p);
    }
  }

  /** The block at a position that lists others: the indirect block of inode 2 and up. */
  predicate Lists(m: nat, b: nat)
    requires m <= NDIRECT
  {
    Used(m, b) && Rank(m, b) >= m && (Rank(m, b) - m) % NSLOTS == NDIRECT
  }

  lemma ListsRoom(m: nat, b: nat)
    requires m <= NDIRECT && Lists(m, b)
    ensures Rank(m, b) + 1 + NINDIRECT <= m + FILES * NSLOTS
  {
    RankOk(m, b);
    var j := Rank(m, b) - m;
    assert j == NSLOTS * (j / NSLOTS) + NDIRECT && j / NSLOTS < FILES;
  }

  function BlockAt(m: nat, b: nat): Block
    requires m <= NDIRECT
  {
    if ITABLE <= b < ITABLE + IBLOCKS then FromWords(Dinodes(m, b))
    else if Data(m) - 5 <= b < Data(m) - 1 then AllButLast()
    else if Lists(m, b) then ListsRoom(m, b); Listing(m, Rank(m, b) + 1)
    else ZeroBlock()
  }

  function Image(m: nat): (d: Disk)
    requires m <= NDIRECT
    ensures |d| == SIZE && forall b: nat :: b < SIZE ==> d[b] == BlockAt(m, b)
  {
    seq(SIZE, b requires b >= 0 => BlockAt(m, b))
  }

  function Inodes(m: nat): (f: seq<Addrs>)
    requires m <= NDIRECT
    ensures |f| == FILES + 2
    ensures forall i, p :: 0 <= i < |f| && 0 <= p <= NDIRECT ==> f[i][p] == RefOf(m, i, p)
  {
    seq(FILES + 2, i requires i >= 0 => seq(NDIRECT + 1, p requires p >= 0 => RefOf(m, i, p)))
  }

  ghost function Owners(m: nat): map<nat, Slot>
    requires m <= NDIRECT
  {
    map b: nat | b < 4 * BPB && Used(m, b) :: SlotOf(m, Rank(m, b))
  }

  lemma ImageRef(m: nat, i: nat, p: nat)
    requires m <= NDIRECT && i < FILES + 2 && p < NSLOTS
    ensures Inodes(m)[i][NDIRECT] < SIZE && Ref(Image(m), Inodes(m)[i], p) == RefOf(m, i, p)
  {
    hide Image, Inodes, Listing, Word, ZeroBlock, UsedBlock, Rank, FromWords;
    var ind := Inodes(m)[i][NDIRECT];
    if 2 <= i {
      var j := m + NSLOTS * (i - 2) + NDIRECT;
      UsedRank(m, j);
      InRun(i - 2, NDIRECT);
      assert Lists(m, ind);
      if p > NDIRECT {
        ListsRoom(m, ind);
        assert Image(m)[ind] == Listing(m, j + 1);
        ListingWord(m, j + 1, p - NDIRECT - 1);
      }
    }
  }

  lemma ImageInode(m: nat, i: nat, f: nat)
    requires m <= NDIRECT && i < FILES + 2 && f < 16
    ensures InodeWord(Sb(m), Image(m), i, f) == DinodeWord(m, i, f)
  {
    hide Image, Word, FromWords, DinodeWord, Lists, ZeroBlock;
    var ib, w := ITABLE + i / IPB, i % IPB * 16 + f;
    assert w / 16 == i % IPB && w % 16 == f;
    FromWordsAt(Dinodes(m, ib), w);
    assert Image(m)[ib] == BlockAt(m, ib);
  }

  /** The inodes are on the disk. */
  lemma ImageStored(m: nat)
    requires m <= NDIRECT
    ensures OnDisk(Sb(m), Image(m), Inodes(m))
    ensures StoredInode(Sb(m), Image(m), 1, META, SizeOf(1), Inodes(m)[1])
  {
    hide Image, Inodes, InodeWord, RefOf;
    forall i: nat, f: nat | i < FILES + 2 && f < 16 ensures InodeWord(Sb(m), Image(m), i, f) == DinodeWord(m, i, f) {
      ImageInode(m, i, f);
    }
    NoInode(m);
  }

  lemma NoInode(m: nat)
    requires m <= NDIRECT
    ensures forall p :: 0 <= p <= NDIRECT ==> RefOf(m, 0, p) == 0
  {
  }

  lemma ImageOwned(m: nat)
    requires m <= NDIRECT
    ensures Owned(Sb(m), Image(m), Inodes(m), Owners(m))
  {
    hide Image, Inodes, Ref, RefOf, SlotOf, Rank, UsedBlock;
    var files, blocks, own := Inodes(m), Image(m), Owners(m);
    forall i | 0 <= i < |files| ensures files[i][NDIRECT] < |blocks| {
      ImageRef(m, i, 0);
    }
    forall i, p | 0 <= i < |files| && 0 <= p < NSLOTS && Ref(blocks, files[i], p) != 0
      ensures Ref(blocks, files[i], p) in own && own[Ref(blocks, files[i], p)] == Slot(i, p)
    {
      ImageRef(m, i, p);
      RefSlot(m, i, p);
    }
    forall b | b in own
      ensures Sb(m).DataStart() <= b < Sb(m).size && own[b].inum < |files| && own[b].pos < NSLOTS
      ensures Ref(blocks, files[own[b].inum], own[b].pos) == b
    {
      OwnerRef(m, b);
    }
  }

  lemma OwnerRef(m: nat, b: nat)
    requires m <= NDIRECT && Used(m, b)
    ensures var s := SlotOf(m, Rank(m, b));
      && s.inum < FILES + 2 && s.pos < NSLOTS
      && Inodes(m)[s.inum][NDIRECT] < SIZE && Ref(Image(m), Inodes(m)[s.inum], s.pos) == b
  {
    hide Image, Inodes, Ref, RefOf, SlotOf, UsedBlock;
    RankOk(m, b);
    SlotRef(m, Rank(m, b));
    var s := SlotOf(m, Rank(m, b));
    ImageRef(m, s.inum, s.pos);
  }

  lemma ImageMarked(m: nat)
    requires m <= NDIRECT
    ensures Marked(Sb(m), Image(m), Owners(m), {})
  {
    hide Image, Bit, AllButLast, ZeroBlock, SlotOf, Rank, Listing, FromWords;
    forall b: nat | b < SIZE ensures BitAt(Sb(m), Image(m), b) <==> b < Data(m) || b in Owners(m) || b in {} {
      var at := b / BPB + Data(m) - 5;
      assert Image(m)[at] == BlockAt(m, at);
      if b < 4 * BPB {
        AllButLastBits(b % BPB);
        assert Image(m)[at] == AllButLast();
      } else {
        ZeroBits(b % BPB);
      }
    }
  }

  lemma ZeroBits(k: nat)
    requires k < BPB
    ensures !Bit(ZeroBlock(), k)
  {
    Ones(0, k % 8);
  }

  function Free(n: nat): (f: seq<nat>)
    requires n <= 5
  {
    [8191, 16383, 24575, 32767, 32768][..n]
  }

  lemma ImageSpread(m: nat, n: nat)
    requires m <= NDIRECT && 4 <= n <= 5
    ensures Lowest(Sb(m), Owners(m), Free(n)) && Apart(Sb(m), Free(n))
  {
    hide SlotOf, Rank;
    var f := Free(n);
    forall c: nat | Data(m) <= c <= f[|f| - 1] && c !in Owners(m) ensures c in f {
      var q := c / BPB;
      assert q <= 4 && c == BPB * q + c % BPB;
      assert c == if q == 4 then f[4] else f[q];
    }
  }

  // ----- the two writes -----

  const OFF := (NDIRECT - 1) * BSIZE + 1   // one byte into the last direct block

  /** Of the four blocks written, inode 1 has the first if it has all its direct blocks. */
  lemma FirstInode(m: nat)
    requires NDIRECT - 1 <= m <= NDIRECT
    ensures var a, s := Inodes(m)[1], TouchedSet(OFF, MAX_CHUNK);
      && a[NDIRECT] == 0 && InFile(s) && |s| == 4 && NDIRECT in s
      && |Absent(Image(m), a, s)| == (if m == NDIRECT then 3 else 4)
      && (m == NDIRECT ==> HoleFree(Image(m), a, NDIRECT * BSIZE))
      && (m < NDIRECT ==> BlockOf(Image(m), a, NDIRECT - 1) == 0)
  {
    hide Image, Inodes, BlockOf, UsedBlock;
    var a, s := Inodes(m)[1], TouchedSet(OFF, MAX_CHUNK);
    assert a[NDIRECT] == RefOf(m, 1, NDIRECT);
    assert Touched(OFF, MAX_CHUNK) == 4;
    forall c: nat | c < MAXFILE ensures BlockOf(Image(m), a, c) != 0 <==> c < m {
      FirstBlocks(m, c);
    }
    AbsentFrom(Image(m), a, m);
  }

  lemma AbsentFrom(b: Disk, a: Addrs, m: nat)
    requires a[NDIRECT] < |b| && NDIRECT - 1 <= m <= NDIRECT
    requires forall c: nat :: c < MAXFILE ==> (BlockOf(b, a, c) != 0 <==> c < m)
    ensures var s := TouchedSet(OFF, MAX_CHUNK);
      InFile(s) && |s| == 4 && NDIRECT in s && |Absent(b, a, s)| == if m == NDIRECT then 3 else 4
  {
    hide BlockOf, Absent, TouchedSet;
    FourTouched();
    AbsentIs(b, a, m, Range(NDIRECT - 1, NDIRECT + 3));
  }

  lemma FourTouched()
    ensures TouchedSet(OFF, MAX_CHUNK) == Range(NDIRECT - 1, NDIRECT + 3)
  {
  }

  lemma AbsentIs(b: Disk, a: Addrs, m: nat, s: set<nat>)
    requires a[NDIRECT] < |b| && NDIRECT - 1 <= m <= NDIRECT && InFile(s) && s == Range(NDIRECT - 1, NDIRECT + 3)
    requires forall c: nat :: c < MAXFILE ==> (BlockOf(b, a, c) != 0 <==> c < m)
    ensures Absent(b, a, s) == Range(m, NDIRECT + 3)
  {
    hide BlockOf, Range;
  }

  lemma FirstBlocks(m: nat, c: nat)
    requires m <= NDIRECT && c < MAXFILE
    ensures Inodes(m)[1][NDIRECT] < SIZE && (BlockOf(Image(m), Inodes(m)[1], c) != 0 <==> c < m)
  {
    hide Image, Inodes, Ref;
    ImageRef(m, 1, Pos(c));
    if c < m {
      UsedRank(m, c);
    }
  }

  /** The volume to start from: sound, with its inodes on the disk, inode 1 as ilock loads it. */
  ghost predicate Before(m: nat)
    requires NDIRECT - 1 <= m <= NDIRECT
  {
    && Owned(Sb(m), Image(m), Inodes(m), Owners(m)) && Marked(Sb(m), Image(m), Owners(m), {})
    && OnDisk(Sb(m), Image(m), Inodes(m)) && StoredInode(Sb(m), Image(m), 1, META, SizeOf(1), Inodes(m)[1])
  }

  /** All of `chunk` has been written to inode 1 at OFF, with `logged` just what that logs. */
  ghost predicate After(m: nat, chunk: seq<byte>, blocks: Disk, files: seq<Addrs>, own: map<nat, Slot>,
                        logged: set<nat>)
    requires NDIRECT - 1 <= m <= NDIRECT
  {
    && Owned(Sb(m), blocks, files, own) && Marked(Sb(m), blocks, own, {}) && OnDisk(Sb(m), blocks, files)
    && Wrote(Image(m), Inodes(m), blocks, files, 1, OFF, chunk, MAX_CHUNK)
    && WriteDone(Sb(m), Owners(m), Image(m), Inodes(m)[1], {},
                 own, blocks, files[1], logged, TouchedSet(OFF, MAX_CHUNK), 1)
  }

  method Build(m: nat) returns (fs: FS.Volume, ip: FS.Inode)
    requires NDIRECT - 1 <= m <= NDIRECT
    ensures fresh(fs) && fresh(ip) && fs.Valid() && fs.Loaded(ip) && |fs.files| == fs.sb.ninodes && fs.logged == {}
    ensures fs.sb == Sb(m) && fs.blocks == Image(m) && fs.own == Owners(m) && fs.files == Inodes(m)
    ensures ip.inum == 1 && ip.meta == META && ip.size == SizeOf(1) && Before(m)
  {
    hide Image, Inodes, Owners;
    ImageOwned(m);
    ImageMarked(m);
    ImageStored(m);
    fs := new FS.Volume(Sb(m), Image(m), Inodes(m), Owners(m));
    ip := new FS.Inode(1, META, SizeOf(1), Inodes(m)[1]);
  }

  /** On a file without holes the reservation can be used up. */
  method ChunkAtLimit(chunk: seq<byte>) returns (fs: FS.Volume, ip: FS.Inode, r: int)
    requires |chunk| == MAX_CHUNK
    ensures Before(NDIRECT) && HoleFree(Image(NDIRECT), Inodes(NDIRECT)[1], SizeOf(1))
    ensures fs.sb == Sb(NDIRECT) && After(NDIRECT, chunk, fs.blocks, fs.files, fs.own, fs.logged)
    ensures fs.Valid() && r == MAX_CHUNK && |fs.logged| == MAXOPBLOCKS
  {
    hide Image, Inodes, Owners, Owned, Marked, BlockOf, HoleFree, Absent, InFile, Grew, Listed, FreshIs, AllLogs;
    hide TouchedSet, OnDisk, Wrote, StoredInode, OtherInodesSame;
    fs, ip := Build(NDIRECT);
    FirstInode(NDIRECT);
    ImageSpread(NDIRECT, 4);
    ghost var own0, b0, a0 := fs.own, fs.blocks, ip.addrs;
    r := fs.WriteChunk(ip, chunk, OFF);
    if r < MAX_CHUNK {
      NeverShort(fs.sb, fs.files, own0, fs.own, b0, a0, fs.blocks, 1, OFF, r, MAX_CHUNK, Free(4));
      assert false;
    }
    SpreadCount(fs.sb, fs.files, own0, fs.own, b0, a0, fs.blocks, 1, TouchedSet(OFF, MAX_CHUNK), Free(4));
  }

  /** With the first block a hole the same write logs one block more than is reserved. */
  method HoleOverLimit(chunk: seq<byte>) returns (fs: FS.Volume, ip: FS.Inode, r: int)
    requires |chunk| == MAX_CHUNK
    ensures Before(NDIRECT - 1) && BlockOf(Image(NDIRECT - 1), Inodes(NDIRECT - 1)[1], OFF / BSIZE) == 0
    ensures fs.sb == Sb(NDIRECT - 1) && After(NDIRECT - 1, chunk, fs.blocks, fs.files, fs.own, fs.logged)
    ensures fs.Valid() && r == MAX_CHUNK && |fs.logged| == MAXOPBLOCKS + 1
  {
    hide Image, Inodes, Owners, Owned, Marked, BlockOf, HoleFree, Absent, InFile, Grew, Listed, FreshIs, AllLogs;
    hide TouchedSet, OnDisk, Wrote, StoredInode, OtherInodesSame;
    fs, ip := Build(NDIRECT - 1);
    FirstInode(NDIRECT - 1);
    ImageSpread(NDIRECT - 1, 5);
    ghost var own0, b0, a0 := fs.own, fs.blocks, ip.addrs;
    r := fs.Writei(ip, chunk, OFF);
    if r < MAX_CHUNK {
      NeverShort(fs.sb, fs.files, own0, fs.own, b0, a0, fs.blocks, 1, OFF, r, MAX_CHUNK, Free(5));
      assert false;
    }
    SpreadCount(fs.sb, fs.files, own0, fs.own, b0, a0, fs.blocks, 1, TouchedSet(OFF, MAX_CHUNK), Free(5));
  }
}
