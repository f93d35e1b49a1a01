/**
 Block allocation and inode contents over the logged block array. `blocks` is
 the array the log and cache implement; bread, a change, log_write and brelse
 together are one update of it, noted in `logged`, the set of blocks the
 current operation has passed to log_write.
 */
module FileSystem {
  import opened Blocks
  import opened DiskFormat
  import opened FileLayout
  import opened LogRecovery
  import opened WriteLogs

  // ----- facts the methods share -----

  lemma EntryAt(sb: Super, b0: Disk, b: Disk, files: seq<Addrs>, own: map<nat, Slot>, i: nat, j: nat)
    requires Owned(sb, b, files, own) && BitmapOnly(sb, b0, b)
    requires i < |files| && j < NINDIRECT && files[i][NDIRECT] != 0
    ensures files[i][NDIRECT] < |b0| && Ref(b, files[i], NDIRECT + 1 + j) == Word(b0[files[i][NDIRECT]], j)
  {
    assert Ref(b, files[i], NDIRECT) == files[i][NDIRECT];
  }

  lemma BitmapOnlyFrame(sb: Super, blocks: Disk, blocks': Disk, files: seq<Addrs>, own: map<nat, Slot>)
    requires Owned(sb, blocks, files, own) && BitmapOnly(sb, blocks, blocks')
    ensures Owned(sb, blocks', files, own)
  {
    UnownedFrame(sb, blocks, files, own, blocks');
  }

  lemma NothingIndirect(sb: Super, blocks: Disk, files: seq<Addrs>, own: map<nat, Slot>, i: nat)
    requires Owned(sb, blocks, files, own) && i < |files| && files[i][NDIRECT] == 0
    ensures OwnWithout(own, i, NDIRECT, NSLOTS) == own
  {
  }

  ghost predicate OthersRead(b0: Disk, f0: seq<Addrs>, b: Disk, f: seq<Addrs>, i: nat) {
    && |f| == |f0|
    && forall j :: 0 <= j < |f| && j != i ==>
         f0[j][NDIRECT] < |b0| && f[j][NDIRECT] < |b| && SameFile(b0, f0[j], b, f[j])
  }

  lemma OthersSame(sb: Super, b0: Disk, f0: seq<Addrs>, own: map<nat, Slot>, b1: Disk, b: Disk, f: seq<Addrs>, i: nat)
    requires Owned(sb, b0, f0, own) && BitmapOnly(sb, b0, b1) && |f| == |f0| && i < |f| && AllSame(b1, f, b, f)
    requires forall j :: 0 <= j < |f| && j != i ==> f[j] == f0[j]
    ensures OthersRead(b0, f0, b, f, i)
  {
    hide FileByte;
    UnownedFrame(sb, b0, f0, own, b1);
    forall j | 0 <= j < |f| && j != i ensures SameFile(b0, f0[j], b, f[j]) {
      assert SameFile(b0, f0[j], b1, f0[j]) && SameFile(b1, f[j], b, f[j]);
    }
  }

  /** Writing on where the last chunk ended. */
  lemma WroteOn(b0: Disk, f0: seq<Addrs>, b1: Disk, f1: seq<Addrs>, b: Disk, f: seq<Addrs>,
                i: nat, off: nat, src: seq<byte>, k: nat, n: nat, r: nat)
    requires Wrote(b0, f0, b1, f1, i, off, src, k) && k + n <= |src| && r <= n
    requires Wrote(b1, f1, b, f, i, off + k, src[k..k + n], r)
    ensures Wrote(b0, f0, b, f, i, off, src, k + r)
  {
  }

  lemma WroteNone(sb: Super, blocks: Disk, files: seq<Addrs>, own: map<nat, Slot>, i: nat, off: nat, src: seq<byte>)
    requires Owned(sb, blocks, files, own) && i < |files|
    ensures Wrote(blocks, files, blocks, files, i, off, src, 0)
  {
  }

  lemma StaysHoleFree(b0: Disk, a0: Addrs, size0: nat, b1: Disk, b: Disk, a: Addrs, size: nat, off: nat, tot: nat)
    requires MappedMore(b0, a0, b1, a, TouchedSet(off, tot)) && a[NDIRECT] < |b| && off <= size0
    requires size == if off + tot > size0 then off + tot else size0
    requires forall c: nat :: c < MAXFILE ==> BlockOf(b, a, c) == BlockOf(b1, a, c)
    ensures HoleFree(b0, a0, size0) ==> HoleFree(b, a, size)
  {
    hide BlockOf;
    if HoleFree(b0, a0, size0) {
      forall bn: nat | bn < MAXFILE && bn * BSIZE < size ensures BlockOf(b, a, bn) != 0 {
        assert BlockOf(b, a, bn) == BlockOf(b1, a, bn);
        assert bn * BSIZE < size0 || bn in TouchedSet(off, tot);
      }
    }
  }

  lemma InodesFrame(sb: Super, b0: Disk, b: Disk, b': Disk, i: nat)
    requires sb.Fits(|b|) && |b| == |b0| && forall c: nat :: c < sb.bmapstart ==> b[c] == b0[c]
    requires OtherInodesSame(sb, b, b', i)
    ensures OtherInodesSame(sb, b0, b', i)
  {
  }

  lemma DataBlock(sb: Super, blocks: Disk, files: seq<Addrs>, own: map<nat, Slot>, i: nat, bn: nat)
    requires Owned(sb, blocks, files, own) && i < |files| && bn < MAXFILE && BlockOf(blocks, files[i], bn) != 0
    ensures sb.DataStart() <= BlockOf(blocks, files[i], bn) < |blocks|
  {
  }

  /** The bytes of a file within one block. */
  lemma BlockBytes(sb: Super, blocks: Disk, files: seq<Addrs>, own: map<nat, Slot>, i: nat, at: nat, m: nat)
    requires Owned(sb, blocks, files, own) && i < |files| && at % BSIZE + m <= BSIZE && at + m <= MAXFILE * BSIZE
    requires m > 0 && BlockOf(blocks, files[i], at / BSIZE) != 0
    ensures var addr := BlockOf(blocks, files[i], at / BSIZE);
      addr < |blocks| && forall k: nat :: at <= k < at + m ==> blocks[addr][k % BSIZE] == FileByte(blocks, files[i], k)
  {
  }

  /** `dst` is what the file holds from `off` on. */
  ghost predicate Holds(blocks: Disk, a: Addrs, off: nat, dst: seq<byte>) {
    && a[NDIRECT] < |blocks| && (dst != [] ==> off + |dst| <= MAXFILE * BSIZE)
    && forall i :: 0 <= i < |dst| ==> dst[i] == FileByte(blocks, a, off + i)
  }

  /** The file's bytes from `off` on, `n` of them, are on blocks. */
  ghost predicate Backed(blocks: Disk, a: Addrs, off: nat, n: nat) {
    && a[NDIRECT] < |blocks|
    && forall k: nat :: off <= k < off + n && k < MAXFILE * BSIZE ==> BlockOf(blocks, a, k / BSIZE) != 0
  }

  lemma BackedNone(sb: Super, blocks: Disk, files: seq<Addrs>, own: map<nat, Slot>, i: nat, off: nat)
    requires Owned(sb, blocks, files, own) && i < |files|
    ensures Backed(blocks, files[i], off, 0) && BytesAt(blocks, files[i], off, [])
  {
  }

  lemma BackedMore(b0: Disk, a0: Addrs, b: Disk, a: Addrs, off: nat, n: nat, m: nat, bn: nat)
    requires Backed(b0, a0, off, n) && SameMapBut(b0, a0, b, a, bn) && bn == (off + n) / BSIZE && bn < MAXFILE
    requires a[NDIRECT] < |b| && (m > 0 ==> BlockOf(b, a, bn) != 0) && (off + n) % BSIZE + m <= BSIZE
    ensures Backed(b, a, off, n + m)
  {
    hide BlockOf;
    forall k: nat | off <= k < off + n + m && k < MAXFILE * BSIZE ensures BlockOf(b, a, k / BSIZE) != 0 {
      if k >= off + n {
        assert k / BSIZE == bn;
      }
    }
  }

  /** What has been read is, byte for byte, on the blocks of the file. */
  lemma ReadLies(sb: Super, b0: Disk, f0: seq<Addrs>, b: Disk, files: seq<Addrs>, own: map<nat, Slot>, i: nat, off: nat,
                 dst: seq<byte>)
    requires Owned(sb, b, files, own) && AllSame(b0, f0, b, files) && i < |files| && Holds(b0, f0[i], off, dst)
    requires Backed(b, files[i], off, |dst|)
    ensures BytesAt(b, files[i], off, dst)
  {
    hide FileByte, BlockOf;
    BytesLie(sb, b, files, own, i, off, dst);
  }

  /** What has been written is, too. */
  lemma WriteLies(sb: Super, b0: Disk, f0: seq<Addrs>, b: Disk, files: seq<Addrs>, own: map<nat, Slot>, i: nat,
                  off: nat, src: seq<byte>, tot: nat)
    requires Owned(sb, b, files, own) && Wrote(b0, f0, b, files, i, off, src, tot) && off + |src| <= MAXFILE * BSIZE
    requires MappedMore(b0, f0[i], b, files[i], TouchedSet(off, tot))
    ensures BytesAt(b, files[i], off, src[..tot])
  {
    hide FileByte, BlockOf;
    var data := src[..tot];
    forall k | 0 <= k < tot
      ensures BlockOf(b, files[i], (off + k) / BSIZE) != 0 && FileByte(b, files[i], off + k) == data[k]
    {
      TouchedAt(off, tot, k);
    }
    BytesLie(sb, b, files, own, i, off, data);
  }

  lemma DoneMapped(sb: Super, own0: map<nat, Slot>, b0: Disk, a0: Addrs, l0: set<nat>,
                   own: map<nat, Slot>, b: Disk, a: Addrs, l: set<nat>, s: set<nat>, i: nat)
    requires WriteDone(sb, own0, b0, a0, l0, own, b, a, l, s, i)
    ensures MappedMore(b0, a0, b, a, s)
  {
  }

  lemma TouchedAt(off: nat, tot: nat, k: nat)
    requires k < tot
    ensures (off + k) / BSIZE in TouchedSet(off, tot)
  {
  }

  lemma HoldsMore(sb: Super, b0: Disk, f0: seq<Addrs>, b: Disk, files: seq<Addrs>, own: map<nat, Slot>, i: nat,
                  off: nat, dst: seq<byte>, m: nat)
    requires Owned(sb, b, files, own) && AllSame(b0, f0, b, files) && i < |files| && Holds(b0, f0[i], off, dst)
    requires (off + |dst|) % BSIZE + m <= BSIZE && off + |dst| + m <= MAXFILE * BSIZE
    requires m > 0 && BlockOf(b, files[i], (off + |dst|) / BSIZE) != 0
    ensures var addr, at := BlockOf(b, files[i], (off + |dst|) / BSIZE), (off + |dst|) % BSIZE;
      addr < |b| && Holds(b0, f0[i], off, dst + b[addr][at..at + m])
  {
    hide Owned, BlockOf;
    BlockBytes(sb, b, files, own, i, off + |dst|, m);
    assert SameFile(b0, f0[i], b, files[i]);
    var addr, at := BlockOf(b, files[i], (off + |dst|) / BSIZE), (off + |dst|) % BSIZE;
    var piece := b[addr][at..at + m];
    forall k: nat | k < m ensures piece[k] == FileByte(b0, f0[i], off + |dst| + k) {
      assert (off + |dst| + k) % BSIZE == at + k;
    }
  }

  lemma StoredMeans(sb: Super, blocks: Disk, files: seq<Addrs>)
    requires OnDisk(sb, blocks, files)
    ensures |files| == sb.ninodes && sb.Fits(|blocks|)
  {
  }

  lemma HoldsNothing(sb: Super, blocks: Disk, files: seq<Addrs>, own: map<nat, Slot>, i: nat, off: nat)
    requires Owned(sb, blocks, files, own) && i < |files|
    ensures Holds(blocks, files[i], off, []) && AllSame(blocks, files, blocks, files)
  {
    UnownedFrame(sb, blocks, files, own, blocks);
  }

  lemma HoleFreeAt(blocks: Disk, a: Addrs, size: nat, at: nat)
    requires at < size <= MAXFILE * BSIZE
    ensures HoleFree(blocks, a, size) ==> BlockOf(blocks, a, at / BSIZE) != 0
  {
  }

  /** All that writei has logged, once the inode is written too. */
  lemma LogsTotal(sb: Super, own0: map<nat, Slot>, b0: Disk, a0: Addrs, l0: set<nat>,
                  own: map<nat, Slot>, b1: Disk, b: Disk, files: seq<Addrs>, l1: set<nat>, s: set<nat>, i: nat)
    requires i < |files| && i < sb.ninodes && Progress(sb, own0, b0, a0, l0, own, b1, files[i], l1, s)
    requires Owned(sb, b, files, own)
    requires forall c: nat :: c < MAXFILE ==> BlockOf(b, files[i], c) == BlockOf(b1, files[i], c)
    ensures WriteDone(sb, own0, b0, a0, l0, own, b, files[i], l1 + {sb.IBlock(i)}, s, i)
    ensures |AllLogs(sb, own0, own, b, files[i], s, i)| <= |s| + |Absent(b0, a0, s)| + 3
  {
    hide BlockOf, AllocLogs, Listed, Owned, Grew, Fresh, DataBlocks, Absent, InFile;
    StillMapped(sb, own0, b0, a0, own, b1, b, files, s, i);
    LogBound(sb, files, own0, own, b0, a0, b, i, s);
  }

  lemma StillMapped(sb: Super, own0: map<nat, Slot>, b0: Disk, a0: Addrs, own: map<nat, Slot>, b1: Disk, b: Disk,
                    files: seq<Addrs>, s: set<nat>, i: nat)
    requires i < |files| && InFile(s) && MappedMore(b0, a0, b1, files[i], s) && Owned(sb, b, files, own)
    requires FreshIs(own0, b0, a0, own, b1, files[i], s)
    requires forall c: nat :: c < MAXFILE ==> BlockOf(b, files[i], c) == BlockOf(b1, files[i], c)
    ensures MappedMore(b0, a0, b, files[i], s) && Present(b, files[i], s) && FreshIs(own0, b0, a0, own, b, files[i], s)
    ensures DataBlocks(b, files[i], s) == DataBlocks(b1, files[i], s)
  {
    hide BlockOf, DataBlocks, Fresh;
    DataSame(b1, files[i], b, files[i], s);
    DataSame(b1, files[i], b, files[i], Absent(b0, a0, s));
  }

  // ----- the methods -----

  /** An in-memory inode, locked by the caller. */
  class Inode {
    const inum: nat
    var meta: Meta
    var size: nat
    var addrs: Addrs

    constructor (i: nat, m: Meta, s: nat, a: Addrs)
      ensures inum == i && meta == m && size == s && addrs == a
    {
      inum, meta, size, addrs := i, m, s, a;
    }
  }

  class Volume {
    const sb: Super
    var blocks: Disk
    ghost var files: seq<Addrs>         // the block addresses of each inode
    ghost var own: map<nat, Slot>       // which inode position refers to a block
    var logged: set<nat>

    /** The set bits are the metadata blocks and each referenced block, once. */
    ghost predicate Valid()
      reads this
    {
      Owned(sb, blocks, files, own) && Marked(sb, blocks, own, {})
    }

    ghost predicate Full()
      requires sb.Fits(|blocks|)
      reads this
    {
      forall b: nat :: b < sb.size ==> BitAt(sb, blocks, b)
    }

    /** What ilock would read is what the inodes are. */
    ghost predicate Stored()
      reads this
    {
      OnDisk(sb, blocks, files)
    }

    /** The in-memory inode is up to date. */
    ghost predicate Loaded(ip: Inode)
      reads this, ip
    {
      ip.inum < |files| && files[ip.inum] == ip.addrs
    }

    constructor (super: Super, image: Disk, ghost inodes: seq<Addrs>, ghost owners: map<nat, Slot>)
      requires Owned(super, image, inodes, owners) && Marked(super, image, owners, {})
      ensures Valid() && sb == super && blocks == image && files == inodes && own == owners && logged == {}
    {
      sb, blocks, files, own, logged := super, image, inodes, owners, {};
    }

    /** balloc: mark and zero the first free block; 0 if there is none. */
    method Balloc() returns (addr: nat)
      requires Valid()
      modifies this`blocks, this`logged
      ensures addr == 0 ==> blocks == old(blocks) && logged == old(logged) && Full()
      ensures addr != 0 ==> addr < sb.size && !BitAt(sb, old(blocks), addr)
      ensures addr != 0 ==> forall b: nat :: b < addr ==> BitAt(sb, old(blocks), b)
      ensures addr != 0 ==>
                blocks == WithAllocated(sb, old(blocks), addr) && logged == old(logged) + {sb.BBlock(addr), addr}
      ensures Covered(old(blocks), blocks, logged)
    {
      hide Owned, Marked, BitAt, WithAllocated;
      FirstMarked(sb, blocks, own);
      var b := 0;
      ghost var k := 0;
      while b < sb.size
        invariant b == k * BPB && blocks == old(blocks) && logged == old(logged)
        invariant forall c: nat :: c < b && c < sb.size ==> BitAt(sb, blocks, c)
      {
        var bi := ScanBitmapBlock(b, k);
        if bi < BPB && b + bi < sb.size {
          MarkAndZero(b + bi);
          AllocatedCovered(sb, old(blocks), b + bi, logged);
          return b + bi;
        }
        b, k := b + BPB, k + 1;
      }
      return 0;
    }

    /** The inner loop of balloc: how many blocks from `b` on are in use, within one bitmap block. */
    method ScanBitmapBlock(b: nat, ghost k: nat) returns (bi: nat)
      requires sb.Fits(|blocks|) && b == k * BPB < sb.size
      ensures bi <= BPB && forall c: nat :: b <= c < b + bi && c < sb.size ==> BitAt(sb, blocks, c)
      ensures bi < BPB ==> b + bi >= sb.size || !BitAt(sb, blocks, b + bi)
    {
      hide Bit;
      var bp := blocks[sb.BBlock(b)];
      bi := 0;
      while bi < BPB && b + bi < sb.size
        invariant bi <= BPB
        invariant forall c: nat :: b <= c < b + bi && c < sb.size ==> BitAt(sb, blocks, c)
      {
        assert sb.BBlock(b + bi) == k + sb.bmapstart && (b + bi) % BPB == bi;
        if !Bit(bp, bi) {
          return;
        }
        bi := bi + 1;
      }
    }

    method MarkAndZero(addr: nat)
      requires sb.Fits(|blocks|) && addr < sb.size && !BitAt(sb, blocks, addr)
      modifies this`blocks, this`logged
      ensures blocks == WithAllocated(sb, old(blocks), addr) && logged == old(logged) + {sb.BBlock(addr), addr}
    {
      hide SetBit, Bit, ZeroBlock;
      blocks := blocks[sb.BBlock(addr) := SetBit(blocks[sb.BBlock(addr)], addr % BPB)];
      logged := logged + {sb.BBlock(addr)};
      Bzero(addr);
    }

    method Bzero(b: nat)
      requires b < |blocks|
      modifies this`blocks, this`logged
      ensures blocks == old(blocks)[b := ZeroBlock()] && logged == old(logged) + {b}
    {
      blocks := blocks[b := ZeroBlock()];
      logged := logged + {b};
    }

    /** bfree; freeing a free block panics. */
    method Bfree(b: nat)
      requires sb.Fits(|blocks|) && b < sb.size && BitAt(sb, blocks, b)
      modifies this`blocks, this`logged
      ensures blocks == old(blocks)[sb.BBlock(b) := ClearBit(old(blocks)[sb.BBlock(b)], b % BPB)]
      ensures logged == old(logged) + {sb.BBlock(b)} && Covered(old(blocks), blocks, logged)
    {
      blocks := blocks[sb.BBlock(b) := ClearBit(blocks[sb.BBlock(b)], b % BPB)];
      logged := logged + {sb.BBlock(b)};
    }

    /** A new block in an empty place of the inode, or 0 if the disk is full. */
    method NewDirect(ip: Inode, p: nat) returns (addr: nat)
      requires Valid() && Loaded(ip) && p <= NDIRECT && ip.addrs[p] == 0
      modifies this, ip`addrs
      ensures Valid() && files == old(files)[ip.inum := ip.addrs] && AllSame(old(blocks), old(files), blocks, files)
      ensures addr == 0 ==> Full() && unchanged(this) && ip.addrs == old(ip.addrs)
      ensures addr != 0 ==> addr < |blocks| && ip.addrs == old(ip.addrs)[p := addr]
      ensures addr != 0 ==> Fresh(old(own), own) == {addr} && (Listed(old(own), own) ==> p == NDIRECT)
      ensures Grew(sb, old(own), own) && logged == old(logged) + AllocLogs(sb, old(own), own, ip.addrs)
      ensures addr != 0 ==> forall q: nat :: q < NSLOTS && q != p ==>
                              Ref(blocks, ip.addrs, q) == Ref(old(blocks), old(ip.addrs), q)
      ensures addr != 0 && p == NDIRECT ==> forall q: nat :: NDIRECT < q < NSLOTS ==> Ref(blocks, ip.addrs, q) == 0
      ensures |blocks| == |old(blocks)| && forall b: nat :: b < sb.bmapstart ==> blocks[b] == old(blocks)[b]
      ensures Covered(old(blocks), blocks, logged)
    {
      OwnedFits(sb, blocks, files, own);
      hide Owned, Marked, BitAt, FileByte, WithAllocated, ZeroBlock, AllocLogs, Grew, Fresh, Listed, AllSame;
      addr := Balloc();
      if addr == 0 {
        UnownedFrame(sb, blocks, files, own, blocks);
        AllocNone(sb, own, ip.addrs);
        assert files[ip.inum := ip.addrs] == files;
        return;
      }
      Allocated(sb, old(blocks), files, own, addr);
      AllocOne(sb, old(blocks), own, addr, Slot(ip.inum, p), ip.addrs[p := addr]);
      LinkDirect(ip, p, addr);
      AllSameTransitive(old(blocks), old(files), blocks, old(files), blocks, files);
      assert p == NDIRECT ==> {sb.BBlock(addr), addr} + {ip.addrs[NDIRECT]} == {sb.BBlock(addr), addr};
    }

    /** Store a fresh block's number in the inode. */
    method LinkDirect(ip: Inode, p: nat, addr: nat)
      requires Owned(sb, blocks, files, own) && Marked(sb, blocks, own, {addr}) && Loaded(ip)
      requires p <= NDIRECT && ip.addrs[p] == 0
      requires addr !in own && 0 < sb.DataStart() <= addr < sb.size && blocks[addr] == ZeroBlock()
      modifies this`files, this`own, ip`addrs
      ensures Valid() && AllSame(blocks, old(files), blocks, files) && own == old(own)[addr := Slot(ip.inum, p)]
      ensures ip.addrs == old(ip.addrs)[p := addr] && files == old(files)[ip.inum := ip.addrs]
      ensures ip.addrs[NDIRECT] < |blocks| && old(ip.addrs)[NDIRECT] < |blocks|
      ensures forall q: nat :: q < NSLOTS && q != p ==> Ref(blocks, ip.addrs, q) == Ref(blocks, old(ip.addrs), q)
    {
      hide Marked, AllSame, ZeroBlock;
      LinkedDirect(sb, blocks, files, own, ip.inum, p, addr);
      ip.addrs := ip.addrs[p := addr];
      files := files[ip.inum := ip.addrs];
      own := own[addr := Slot(ip.inum, p)];
    }

    /** A new block in an empty entry of the indirect block, or 0 if the disk is full. */
    method NewIndirect(ip: Inode, p: nat) returns (addr: nat)
      requires Valid() && Loaded(ip) && NDIRECT < p < NSLOTS && ip.addrs[NDIRECT] != 0 && Ref(blocks, ip.addrs, p) == 0
      modifies this
      ensures Valid() && files == old(files) && AllSame(old(blocks), files, blocks, files)
      ensures addr == 0 ==> Full() && unchanged(this)
      ensures addr != 0 ==> addr < |blocks| && Fresh(old(own), own) == {addr}
      ensures Grew(sb, old(own), own) && logged == old(logged) + AllocLogs(sb, old(own), own, ip.addrs)
      ensures addr != 0 ==> forall q: nat :: q < NSLOTS ==>
                              Ref(blocks, ip.addrs, q) == if q == p then addr else Ref(old(blocks), ip.addrs, q)
      ensures |blocks| == |old(blocks)| && forall b: nat :: b < sb.bmapstart ==> blocks[b] == old(blocks)[b]
      ensures Covered(old(blocks), blocks, logged)
    {
      hide Owned, Marked, BitAt, FileByte, WithAllocated, ZeroBlock, AllSame, AllocLogs, Grew, Covered;
      IndirectAt(sb, blocks, files, own, ip.inum);
      UnownedFrame(sb, blocks, files, own, blocks);
      addr := Balloc();
      if addr == 0 {
        AllocNone(sb, own, ip.addrs);
        return;
      }
      Allocated(sb, old(blocks), files, own, addr);
      AllocOne(sb, old(blocks), own, addr, Slot(ip.inum, p), ip.addrs);
      ghost var before, l1 := blocks, logged;
      LinkIndirect(ip, p, addr);
      CoveredMore(old(blocks), before, blocks, l1, logged);
      AllSameTransitive(old(blocks), files, before, files, blocks, files);
    }

    /** Store a fresh block's number in the indirect block. */
    method LinkIndirect(ip: Inode, p: nat, addr: nat)
      requires Owned(sb, blocks, files, own) && Marked(sb, blocks, own, {addr}) && Loaded(ip)
      requires NDIRECT < p < NSLOTS && ip.addrs[NDIRECT] != 0 && Ref(blocks, ip.addrs, p) == 0
      requires addr !in own && 0 < sb.DataStart() <= addr < sb.size && blocks[addr] == ZeroBlock()
      modifies this`blocks, this`own, this`logged
      ensures Valid() && AllSame(old(blocks), files, blocks, files) && own == old(own)[addr := Slot(ip.inum, p)]
      ensures logged == old(logged) + {ip.addrs[NDIRECT]}
      ensures forall q: nat :: q < NSLOTS ==>
                Ref(blocks, ip.addrs, q) == if q == p then addr else Ref(old(blocks), ip.addrs, q)
      ensures |blocks| == |old(blocks)| && forall b: nat :: b < sb.bmapstart ==> blocks[b] == old(blocks)[b]
      ensures Covered(old(blocks), blocks, logged)
    {
      hide Owned, Marked, AllSame, PutWord, ZeroBlock;
      var ind := ip.addrs[NDIRECT];
      IndirectAt(sb, blocks, files, own, ip.inum);
      LinkedIndirect(sb, blocks, files, own, ip.inum, p, addr);
      blocks := blocks[ind := PutWord(blocks[ind], p - NDIRECT - 1, addr)];
      logged := logged + {ind};
      own := own[addr := Slot(ip.inum, p)];
    }

    /** bmap: the block of the file's `bn`-th block, allocated if there is none;
        0 if that fails. Allocation takes the lowest free blocks and changes what
        no file reads. */
    method Bmap(ip: Inode, bn: nat) returns (addr: nat)
      requires Valid() && Loaded(ip) && bn < MAXFILE
      modifies this, ip`addrs
      ensures Valid() && files == old(files)[ip.inum := ip.addrs] && AllSame(old(blocks), old(files), blocks, files)
      ensures ip.addrs[NDIRECT] < |blocks| && addr == BlockOf(blocks, ip.addrs, bn) == FileBlock(blocks, ip.addrs, bn)
      ensures addr == 0 ==> Full()
      ensures old(BlockOf(blocks, ip.addrs, bn)) != 0 ==> unchanged(this) && ip.addrs == old(ip.addrs)
      ensures SameMapBut(old(blocks), old(ip.addrs), blocks, ip.addrs, bn)
      ensures old(ip.addrs)[NDIRECT] != 0 || bn < NDIRECT ==> ip.addrs[NDIRECT] == old(ip.addrs)[NDIRECT]
      ensures Grew(sb, old(own), own) && (Listed(old(own), own) ==> ip.addrs[NDIRECT] != 0)
      ensures Fresh(old(own), own) == NewBlocks(old(ip.addrs), old(BlockOf(blocks, ip.addrs, bn)), ip.addrs, addr)
      ensures logged == old(logged) + AllocLogs(sb, old(own), own, ip.addrs)
      ensures |blocks| == |old(blocks)| && forall b: nat :: b < sb.bmapstart ==> blocks[b] == old(blocks)[b]
      ensures Covered(old(blocks), blocks, logged)
    {
      hide Owned, Marked, BitAt, FileByte, AllocLogs, Grew, Listed, Fresh, AllSame;
      if bn >= NDIRECT {
        addr := BmapIndirect(ip, bn);
        return;
      }
      UnownedFrame(sb, blocks, files, own, blocks);
      AllocNone(sb, own, ip.addrs);
      assert files[ip.inum := ip.addrs] == files;
      addr := ip.addrs[bn];
      if addr == 0 {
        addr := NewDirect(ip, bn);
      }
    }

    /** bmap for a block the indirect block lists; that is allocated first if need be. */
    method BmapIndirect(ip: Inode, bn: nat) returns (addr: nat)
      requires Valid() && Loaded(ip) && NDIRECT <= bn < MAXFILE
      modifies this, ip`addrs
      ensures Valid() && files == old(files)[ip.inum := ip.addrs] && AllSame(old(blocks), old(files), blocks, files)
      ensures ip.addrs[NDIRECT] < |blocks| && addr == BlockOf(blocks, ip.addrs, bn) == FileBlock(blocks, ip.addrs, bn)
      ensures addr == 0 ==> Full()
      ensures old(BlockOf(blocks, ip.addrs, bn)) != 0 ==> unchanged(this) && ip.addrs == old(ip.addrs)
      ensures SameMapBut(old(blocks), old(ip.addrs), blocks, ip.addrs, bn)
      ensures old(ip.addrs)[NDIRECT] != 0 ==> ip.addrs[NDIRECT] == old(ip.addrs)[NDIRECT]
      ensures Grew(sb, old(own), own) && (Listed(old(own), own) ==> ip.addrs[NDIRECT] != 0)
      ensures Fresh(old(own), own) == NewBlocks(old(ip.addrs), old(BlockOf(blocks, ip.addrs, bn)), ip.addrs, addr)
      ensures logged == old(logged) + AllocLogs(sb, old(own), own, ip.addrs)
      ensures |blocks| == |old(blocks)| && forall b: nat :: b < sb.bmapstart ==> blocks[b] == old(blocks)[b]
      ensures Covered(old(blocks), blocks, logged)
    {
      hide Owned, Marked, BitAt, FileByte, AllocLogs, Grew, Listed, Fresh, AllSame;
      UnownedFrame(sb, blocks, files, own, blocks);
      AllocNone(sb, own, ip.addrs);
      assert files[ip.inum := ip.addrs] == files;
      if ip.addrs[NDIRECT] == 0 {
        var ind := NewDirect(ip, NDIRECT);
        if ind == 0 {
          return 0;
        }
      }
      ghost var b1, f1, own1, l1 := blocks, files, own, logged;
      addr := Ref(blocks, ip.addrs, bn + 1);
      if addr == 0 {
        addr := NewIndirect(ip, bn + 1);
        CoveredMore(old(blocks), b1, blocks, l1, logged);
        AllSameTransitive(old(blocks), old(files), b1, f1, blocks, files);
        AllocMore(sb, old(own), own1, own, ip.addrs, ip.addrs);
      }
      BlockOfIs(blocks, ip.addrs, bn);
    }

    /** readi: the bytes at `off`, cut off at the file's size. */
    method Readi(ip: Inode, off: nat, count: nat) returns (dst: seq<byte>)
      requires Valid() && Loaded(ip) && ip.size <= MAXFILE * BSIZE
      requires off < UINT_RANGE && count < UINT_RANGE
      modifies this, ip`addrs
      ensures Valid() && files == old(files)[ip.inum := ip.addrs] && AllSame(old(blocks), old(files), blocks, files)
      ensures off > ip.size || off + count >= UINT_RANGE ==> dst == []
      ensures off <= ip.size && off + count < UINT_RANGE ==>
                var n := if off + count > ip.size then ip.size - off else count;
                |dst| <= n && (|dst| < n ==> Full()) && (HoleFree(old(blocks), old(ip.addrs), ip.size) ==> |dst| == n)
      ensures Holds(old(blocks), old(ip.addrs), off, dst) && Covered(old(blocks), blocks, logged)
      ensures BytesAt(blocks, ip.addrs, off, dst)
      ensures HoleFree(old(blocks), old(ip.addrs), ip.size) ==> unchanged(this) && ip.addrs == old(ip.addrs)
      ensures old(Stored()) ==> (Stored() <==> ip.addrs == old(ip.addrs))
    {
      hide Owned, Marked, BlockOf, AllocLogs, Grew, Listed, Fresh, NewBlocks, SameMapBut, AllSame, FileByte, BitAt;
      hide HoleFree, Holds, Covered, OnDisk, Backed, BytesAt;
      CoveredNone(blocks, logged);
      HoldsNothing(sb, blocks, files, own, ip.inum, off);
      OwnedFits(sb, blocks, files, own);
      BackedNone(sb, blocks, files, own, ip.inum, off);
      assert files[ip.inum := ip.addrs] == files;
      dst := [];
      if off > ip.size || (off + count) % UINT_RANGE < off {
        return;
      }
      var n := if off + count > ip.size then ip.size - off else count;
      while |dst| < n
        invariant Valid() && files == old(files)[ip.inum := ip.addrs]
        invariant AllSame(old(blocks), old(files), blocks, files)
        invariant |dst| <= n && Backed(blocks, ip.addrs, off, |dst|)
        invariant Holds(old(blocks), old(ip.addrs), off, dst) && Covered(old(blocks), blocks, logged)
        invariant old(logged) <= logged && |blocks| == |old(blocks)|
        invariant forall b: nat :: b < sb.bmapstart ==> blocks[b] == old(blocks)[b]
        invariant HoleFree(old(blocks), old(ip.addrs), ip.size) ==> unchanged(this) && ip.addrs == old(ip.addrs)
        decreases n - |dst|
      {
        var at := off + |dst|;
        ghost var b1, f1, l1, a1 := blocks, files, logged, ip.addrs;
        HoleFreeAt(blocks, ip.addrs, ip.size, at);
        var addr := Bmap(ip, at / BSIZE);
        AllSameTransitive(old(blocks), old(files), b1, f1, blocks, files);
        CoveredMore(old(blocks), b1, blocks, l1, logged);
        if addr == 0 {
          BackedMore(b1, a1, blocks, ip.addrs, off, |dst|, 0, at / BSIZE);
          break;
        }
        var m := if n - |dst| < BSIZE - at % BSIZE then n - |dst| else BSIZE - at % BSIZE;
        HoldsMore(sb, old(blocks), old(files), blocks, files, own, ip.inum, off, dst, m);
        BackedMore(b1, a1, blocks, ip.addrs, off, |dst|, m, at / BSIZE);
        dst := dst + blocks[addr][at % BSIZE..at % BSIZE + m];
      }
      ReadLies(sb, old(blocks), old(files), blocks, files, own, ip.inum, off, dst);
      if old(Stored()) {
        StoredMeans(sb, old(blocks), old(files));
        OnDiskIff(sb, old(blocks), old(files), blocks, ip.inum, ip.addrs);
      }
    }

    /** iupdate: copy the in-memory inode to its place in the inode blocks. */
    method Iupdate(ip: Inode)
      requires Valid() && Loaded(ip) && |files| == sb.ninodes && ip.size < UINT_RANGE
      modifies this`blocks, this`logged
      ensures Valid() && AllSame(old(blocks), files, blocks, files)
      ensures StoredInode(sb, blocks, ip.inum, ip.meta, ip.size, ip.addrs)
      ensures sb.IBlock(ip.inum) < |blocks| && InodeAddrs(blocks, sb.inodestart, ip.inum) == ip.addrs
      ensures InodeFields(blocks, sb.inodestart, ip.inum, ip.meta.kind as int, ip.meta.major as int,
                          ip.meta.minor as int, ip.meta.nlink as int, ip.size)
      ensures OtherInodesSame(sb, old(blocks), blocks, ip.inum)
      ensures forall c: nat :: c < MAXFILE ==> BlockOf(blocks, ip.addrs, c) == BlockOf(old(blocks), ip.addrs, c)
      ensures logged == old(logged) + {sb.IBlock(ip.inum)} && (old(Full()) ==> Full())
      ensures Covered(old(blocks), blocks, logged)
    {
      hide Owned, Marked, FileByte, Ref, StoredInode, OtherInodesSame, InodeWord, AllSame, BlockOf, BitAt, InodeBlock;
      hide InodeFields, InodeAddrs;
      AddrsInRange(sb, blocks, files, own, ip.inum);
      OwnedFits(sb, blocks, files, own);
      InodeStored(sb, blocks, files, own, ip.inum, ip.meta, ip.size);
      ghost var before := blocks;
      var bp := FillInode(ip, blocks[sb.IBlock(ip.inum)]);
      blocks := blocks[sb.IBlock(ip.inum) := bp];
      logged := logged + {sb.IBlock(ip.inum)};
      SameBits(sb, before, blocks, own);
      InodeFieldsAre(sb, blocks, ip.inum, ip.meta, ip.size, ip.addrs);
    }

    /** Copy the inode's fields into its block. */
    method FillInode(ip: Inode, b: Block) returns (bp: Block)
      requires ip.size < UINT_RANGE && forall k :: 0 <= k <= NDIRECT ==> ip.addrs[k] < UINT_RANGE
      ensures bp == InodeBlock(b, ip.inum, ip.meta, ip.size, ip.addrs, NDIRECT + 1)
    {
      hide PutWord, Word, InodeBlock;
      InodeBlockNone(b, ip.inum, ip.meta, ip.size, ip.addrs);
      bp := PutWord(b, ip.inum % IPB * 16, ip.meta.Low());
      bp := PutWord(bp, ip.inum % IPB * 16 + 1, ip.meta.High());
      bp := PutWord(bp, ip.inum % IPB * 16 + 2, ip.size);
      for k := 0 to NDIRECT + 1
        invariant bp == InodeBlock(b, ip.inum, ip.meta, ip.size, ip.addrs, k)
      {
        InodeBlockNext(b, ip.inum, ip.meta, ip.size, ip.addrs, k);
        bp := PutWord(bp, ip.inum % IPB * 16 + 3 + k, ip.addrs[k]);
      }
    }

    /** writei's call of bmap, which leaves what has been written in place. */
    method MapForWrite(ip: Inode, bn: nat, ghost b0: Disk, ghost f0: seq<Addrs>, ghost off: nat, ghost src: seq<byte>,
                       ghost tot: nat) returns (a: nat)
      requires Valid() && Loaded(ip) && bn < MAXFILE && Wrote(b0, f0, blocks, files, ip.inum, off, src, tot)
      modifies this, ip`addrs
      ensures Valid() && files == old(files)[ip.inum := ip.addrs]
      ensures Wrote(b0, f0, blocks, files, ip.inum, off, src, tot)
      ensures ip.addrs[NDIRECT] < |blocks| && a == BlockOf(blocks, ip.addrs, bn) && (a == 0 ==> Full())
      ensures SameMapBut(old(blocks), old(ip.addrs), blocks, ip.addrs, bn)
      ensures old(ip.addrs)[NDIRECT] != 0 || bn < NDIRECT ==> ip.addrs[NDIRECT] == old(ip.addrs)[NDIRECT]
      ensures Grew(sb, old(own), own) && (Listed(old(own), own) ==> ip.addrs[NDIRECT] != 0)
      ensures Fresh(old(own), own) == NewBlocks(old(ip.addrs), old(BlockOf(blocks, ip.addrs, bn)), ip.addrs, a)
      ensures logged == old(logged) + AllocLogs(sb, old(own), own, ip.addrs)
      ensures |blocks| == |old(blocks)| && forall b: nat :: b < sb.bmapstart ==> blocks[b] == old(blocks)[b]
      ensures Covered(old(blocks), blocks, logged)
    {
      hide Owned, Marked, AllSame, FileByte, BlockOf, Wrote, SameMapBut, AllocLogs, Grew, Listed, Fresh, NewBlocks;
      hide Covered;
      a := Bmap(ip, bn);
      WroteSame(b0, f0, old(blocks), old(files), blocks, files, ip.inum, off, src, tot);
    }

    method StoreBytes(ip: Inode, src: seq<byte>, ghost off: nat, tot: nat, ghost bn: nat, a: nat, at: nat, m: nat,
                      ghost b0: Disk, ghost f0: seq<Addrs>)
      requires Valid() && Loaded(ip) && bn < MAXFILE && a == BlockOf(blocks, ip.addrs, bn) != 0
      requires Wrote(b0, f0, blocks, files, ip.inum, off, src, tot) && off + tot == bn * BSIZE + at
      requires m > 0 && at + m <= BSIZE && tot + m <= |src|
      modifies this`blocks, this`logged
      ensures Valid() && Wrote(b0, f0, blocks, files, ip.inum, off, src, tot + m)
      ensures forall c: nat :: c < MAXFILE ==> BlockOf(blocks, ip.addrs, c) == BlockOf(old(blocks), ip.addrs, c)
      ensures logged == old(logged) + {a}
      ensures |blocks| == |old(blocks)| && forall b: nat :: b < sb.bmapstart ==> blocks[b] == old(blocks)[b]
      ensures Covered(old(blocks), blocks, logged)
    {
      hide AllSame, FileByte, BlockOf, Splice, BitAt, Wrote;
      WroteBlock(sb, own, b0, f0, blocks, files, ip.inum, off, src, tot, bn, at, m);
      DataBlock(sb, blocks, files, own, ip.inum, bn);
      var data := Splice(blocks[a], at, src[tot..tot + m]);
      BitmapSame(sb, blocks, blocks[a := data], own);
      blocks := blocks[a := data];
      logged := logged + {a};
    }

    /** One iteration of writei: the next `m` bytes, or 0 if their block is missing and the disk is full. */
    method WriteBlock(ip: Inode, src: seq<byte>, ghost off: nat, tot: nat, bn: nat, at: nat,
                      ghost own0: map<nat, Slot>, ghost b0: Disk, ghost f0: seq<Addrs>, ghost l0: set<nat>)
      returns (m: nat)
      requires Valid() && Loaded(ip) && off + |src| <= MAXFILE * BSIZE && ip.inum < |f0|
      requires tot < |src| && off + tot == bn * BSIZE + at && at < BSIZE && (tot == 0 || at == 0)
      requires Wrote(b0, f0, blocks, files, ip.inum, off, src, tot)
      requires Progress(sb, own0, b0, f0[ip.inum], l0, own, blocks, ip.addrs, logged, TouchedSet(off, tot))
      requires Covered(b0, blocks, logged)
      modifies this, ip`addrs
      ensures Valid() && files == old(files)[ip.inum := ip.addrs]
      ensures tot + m <= |src| && Wrote(b0, f0, blocks, files, ip.inum, off, src, tot + m)
      ensures Progress(sb, own0, b0, f0[ip.inum], l0, own, blocks, ip.addrs, logged, TouchedSet(off, tot + m))
      ensures Covered(b0, blocks, logged)
      ensures bn < NDIRECT ==> ip.addrs[NDIRECT] == old(ip.addrs)[NDIRECT]
      ensures m > 0 ==> tot + m == |src| || at + m == BSIZE
      ensures m == 0 ==> Full() && ip.addrs[NDIRECT] < |blocks| && BlockOf(blocks, ip.addrs, bn) == 0
    {
      hide Owned, Marked, FileByte, BlockOf, BitAt, Wrote, Progress, SameMapBut, AllocLogs, Grew, Listed, Fresh;
      hide NewBlocks, Full;
      hide With, TouchedSet, Touched, Covered;
      ghost var b1, a1, l1, own1, s := blocks, ip.addrs, logged, own, TouchedSet(off, tot);
      m := if |src| - tot < BSIZE - at then |src| - tot else BSIZE - at;
      var addr := MapForWrite(ip, bn, b0, f0, off, src, tot);
      ghost var b2, l2 := blocks, logged;
      CoveredMore(b0, b1, blocks, l1, logged);
      if addr == 0 {
        m := 0;
        WithNone(s, bn);
      } else {
        StoreBytes(ip, src, off, tot, bn, addr, at, m, b0, f0);
        CoveredMore(b0, b2, blocks, l2, logged);
        SameMapStored(b1, a1, b2, blocks, ip.addrs, bn);
        TouchedMore(off, tot, bn, at, m);
      }
      ProgressStep(sb, own0, b0, f0[ip.inum], l0, own1, b1, a1, l1, own, blocks, ip.addrs, logged, s, bn);
    }

    /** writei's loop: how far it gets, and what it allocates and logs. It stops
        short only at a block that is missing, on a full disk. */
    method WriteBlocks(ip: Inode, src: seq<byte>, off: nat) returns (tot: nat)
      requires Valid() && Loaded(ip) && off + |src| <= MAXFILE * BSIZE
      modifies this, ip`addrs
      ensures Valid() && files == old(files)[ip.inum := ip.addrs]
      ensures tot <= |src| && Wrote(old(blocks), old(files), blocks, files, ip.inum, off, src, tot)
      ensures tot < |src| ==> Full() && BlockOf(blocks, ip.addrs, (off + tot) / BSIZE) == 0
      ensures Progress(sb, old(own), old(blocks), old(ip.addrs), old(logged),
                       own, blocks, ip.addrs, logged, TouchedSet(off, tot))
      ensures Covered(old(blocks), blocks, logged)
      ensures off + |src| <= NDIRECT * BSIZE ==> ip.addrs[NDIRECT] == old(ip.addrs)[NDIRECT]
    {
      hide Owned, Marked, FileByte, BlockOf, BitAt, Wrote, Progress, TouchedSet, Touched, Covered;
      CoveredNone(blocks, logged);
      WroteNone(sb, blocks, files, own, ip.inum, off, src);
      ProgressNone(sb, blocks, files, own, logged, ip.inum);
      TouchedNone(off);
      assert files[ip.inum := ip.addrs] == files;
      tot := 0;
      while tot < |src|
        invariant tot <= |src| && Valid() && files == old(files)[ip.inum := ip.addrs]
        invariant Wrote(old(blocks), old(files), blocks, files, ip.inum, off, src, tot)
        invariant tot == 0 || tot == |src| || (off + tot) % BSIZE == 0
        invariant Progress(sb, old(own), old(blocks), old(ip.addrs), old(logged),
                           own, blocks, ip.addrs, logged, TouchedSet(off, tot))
        invariant Covered(old(blocks), blocks, logged)
        invariant off + |src| <= NDIRECT * BSIZE ==> ip.addrs[NDIRECT] == old(ip.addrs)[NDIRECT]
        decreases |src| - tot
      {
        var bn, at := (off + tot) / BSIZE, (off + tot) % BSIZE;
        var m := WriteBlock(ip, src, off, tot, bn, at, old(own), old(blocks), old(files), old(logged));
        if m == 0 {
          break;
        }
        tot := tot + m;
      }
    }

    /** writei: -1 for a range it refuses; otherwise exactly the bytes
        [off, off + r) of this file change, and r falls short only on a full disk. */
    method Writei(ip: Inode, src: seq<byte>, off: nat) returns (r: int)
      requires Valid() && Loaded(ip) && |files| == sb.ninodes && ip.size <= MAXFILE * BSIZE
      requires off < UINT_RANGE && |src| < UINT_RANGE
      modifies this, ip`size, ip`addrs
      ensures Valid() && files == old(files)[ip.inum := ip.addrs] && ip.size <= MAXFILE * BSIZE
      ensures r == -1 <==> off > old(ip.size) || off + |src| > MAXFILE * BSIZE
      ensures r == -1 ==> unchanged(this) && unchanged(ip)
      ensures r != -1 ==> 0 <= r <= |src| && Wrote(old(blocks), old(files), blocks, files, ip.inum, off, src, r)
      ensures r != -1 ==> BytesAt(blocks, ip.addrs, off, src[..r])
      ensures 0 <= r < |src| ==> Full() && BlockOf(blocks, ip.addrs, (off + r) / BSIZE) == 0
      ensures r != -1 ==> ip.size == if off + r > old(ip.size) then off + r else old(ip.size)
      ensures Covered(old(blocks), blocks, logged)
      ensures r != -1 ==> StoredInode(sb, blocks, ip.inum, ip.meta, ip.size, ip.addrs)
      ensures r != -1 ==> OtherInodesSame(sb, old(blocks), blocks, ip.inum)
      ensures old(Stored()) ==> Stored()
      ensures off + |src| <= NDIRECT * BSIZE ==> ip.addrs[NDIRECT] == old(ip.addrs)[NDIRECT]
      ensures r != -1 && HoleFree(old(blocks), old(ip.addrs), old(ip.size)) ==> HoleFree(blocks, ip.addrs, ip.size)
      ensures r != -1 ==> WriteDone(sb, old(own), old(blocks), old(ip.addrs), old(logged),
                                    own, blocks, ip.addrs, logged, TouchedSet(off, r), ip.inum)
      ensures r != -1 ==>
                |AllLogs(sb, old(own), own, blocks, ip.addrs, TouchedSet(off, r), ip.inum)|
                <= Touched(off, r) + |Absent(old(blocks), old(ip.addrs), TouchedSet(off, r))| + 3
    {
      hide Owned, Marked, FileByte, BlockOf, BitAt, Wrote, StoredInode, OtherInodesSame, Bit, HoleFree, Absent;
      hide AllocLogs, Grew, Listed, Fresh, AllLogs, WriteDone, InFile, FreshIs, DataBlocks;
      hide TouchedSet, Touched, Progress, MappedMore, AllSame, Covered, OnDisk, BytesAt;
      CoveredNone(blocks, logged);
      OwnedFits(sb, blocks, files, own);
      if off > ip.size || (off + |src|) % UINT_RANGE < off {
        assert files == files[ip.inum := ip.addrs];
        return -1;
      }
      if off + |src| > MAXFILE * BSIZE {
        assert files == files[ip.inum := ip.addrs];
        return -1;
      }
      var tot := WriteBlocks(ip, src, off);
      ghost var b1, l1 := blocks, logged;
      if off + tot > ip.size {
        ip.size := off + tot;
      }
      ProgressMeans(sb, old(own), old(blocks), old(ip.addrs), old(logged), own, b1, ip.addrs, l1, TouchedSet(off, tot));
      Iupdate(ip);
      CoveredMore(old(blocks), b1, blocks, l1, logged);
      r := tot;
      WroteSame(old(blocks), old(files), b1, files, blocks, files, ip.inum, off, src, tot);
      StaysHoleFree(old(blocks), old(ip.addrs), old(ip.size), b1, blocks, ip.addrs, ip.size, off, tot);
      LogsTotal(sb, old(own), old(blocks), old(ip.addrs), old(logged), own, b1, blocks, files, l1, TouchedSet(off, tot),
                ip.inum);
      InodesFrame(sb, old(blocks), b1, blocks, ip.inum);
      DoneMapped(sb, old(own), old(blocks), old(ip.addrs), old(logged), own, blocks, ip.addrs, logged,
                 TouchedSet(off, tot), ip.inum);
      WriteLies(sb, old(blocks), old(files), blocks, files, own, ip.inum, off, src, tot);
      if old(Stored()) {
        StoredOnDisk(sb, old(blocks), old(files), blocks, ip.inum, ip.meta, ip.size, ip.addrs);
      }
    }

    /** Free a direct block of the inode. */
    method DropDirect(ip: Inode, p: nat)
      requires Valid() && Loaded(ip) && p < NDIRECT
      modifies this, ip`addrs
      ensures Valid() && BitmapOnly(sb, old(blocks), blocks)
      ensures ip.addrs == old(ip.addrs)[p := 0] && files == old(files)[ip.inum := ip.addrs]
      ensures own == OwnWithout(old(own), ip.inum, p, p + 1)
      ensures Covered(old(blocks), blocks, logged) && old(logged) <= logged
    {
      hide BitAt, Bit, ClearBit, FileByte, OwnWithout, Marked, SameFile, AllSame, Covered;
      CoveredNone(blocks, logged);
      OwnWithoutOne(sb, blocks, files, own, ip.inum, p);
      DroppedRefs(sb, blocks, files, own, ip.inum, ip.addrs[p := 0], p, p + 1);
      var b := ip.addrs[p];
      if b != 0 {
        Freed(sb, blocks, own, OwnWithout(own, ip.inum, p, p + 1), b);
        Bfree(b);
        ip.addrs := ip.addrs[p := 0];
      }
      assert ip.addrs == old(ip.addrs)[p := 0];
      files := files[ip.inum := ip.addrs];
      own := OwnWithout(own, ip.inum, p, p + 1);
      UnownedFrame(sb, old(blocks), files, own, blocks);
    }

    /** Free the blocks the indirect block lists; the list itself stays as it is. */
    method FreeEntries(ip: Inode)
      requires Valid() && Loaded(ip) && ip.addrs[NDIRECT] != 0
      modifies this`blocks, this`logged
      ensures Owned(sb, blocks, files, own) && Marked(sb, blocks, OwnWithout(own, ip.inum, NDIRECT + 1, NSLOTS), {})
      ensures BitmapOnly(sb, old(blocks), blocks) && Covered(old(blocks), blocks, logged) && old(logged) <= logged
    {
      var a := blocks[ip.addrs[NDIRECT]];
      assert OwnWithout(own, ip.inum, NDIRECT + 1, NDIRECT + 1) == own;
      hide BitAt, Bit, ClearBit, FileByte, OwnWithout, Marked, Word, Owned, Ref, Covered;
      CoveredNone(blocks, logged);
      for j := 0 to NINDIRECT
        invariant BitmapOnly(sb, old(blocks), blocks) && Owned(sb, blocks, files, own)
        invariant Covered(old(blocks), blocks, logged) && old(logged) <= logged
        invariant Marked(sb, blocks, OwnWithout(own, ip.inum, NDIRECT + 1, NDIRECT + 1 + j), {})
      {
        NextEntry(sb, blocks, files, own, ip.inum, NDIRECT + 1, NDIRECT + 1 + j);
        EntryAt(sb, old(blocks), blocks, files, own, ip.inum, j);
        if Word(a, j) != 0 {
          Freed(sb, blocks, OwnWithout(own, ip.inum, NDIRECT + 1, NDIRECT + 1 + j),
                OwnWithout(own, ip.inum, NDIRECT + 1, NDIRECT + 2 + j), Word(a, j));
          ghost var b1, l1 := blocks, logged;
          Bfree(Word(a, j));
          CoveredMore(old(blocks), b1, blocks, l1, logged);
          BitmapOnlyFrame(sb, b1, blocks, files, own);
        }
      }
    }

    method DropIndirect(ip: Inode)
      requires Valid() && Loaded(ip) && ip.addrs[NDIRECT] != 0
      modifies this, ip`addrs
      ensures Valid() && BitmapOnly(sb, old(blocks), blocks)
      ensures ip.addrs == old(ip.addrs)[NDIRECT := 0] && files == old(files)[ip.inum := ip.addrs]
      ensures own == OwnWithout(old(own), ip.inum, NDIRECT, NSLOTS)
      ensures Covered(old(blocks), blocks, logged) && old(logged) <= logged
    {
      hide BitAt, Bit, ClearBit, FileByte, OwnWithout, Marked, Owned, Covered;
      var ind := ip.addrs[NDIRECT];
      ghost var own1 := OwnWithout(own, ip.inum, NDIRECT + 1, NSLOTS);
      ghost var own2 := OwnWithout(own, ip.inum, NDIRECT, NSLOTS);
      FreeEntries(ip);
      IndirectGone(sb, blocks, files, own, ip.inum);
      Freed(sb, blocks, own1, own2, ind);
      BitmapOnlyFrame(sb, blocks, blocks[sb.BBlock(ind) := ClearBit(blocks[sb.BBlock(ind)], ind % BPB)],
                      files[ip.inum := ip.addrs[NDIRECT := 0]], own2);
      ghost var b1, l1 := blocks, logged;
      Bfree(ind);
      CoveredMore(old(blocks), b1, blocks, l1, logged);
      ip.addrs := ip.addrs[NDIRECT := 0];
      files := files[ip.inum := ip.addrs];
      own := own2;
    }

    /** Every block of the file goes back to the bitmap, once. */
    method DropAll(ip: Inode)
      requires Valid() && Loaded(ip)
      modifies this, ip`addrs
      ensures Valid() && BitmapOnly(sb, old(blocks), blocks) && files == old(files)[ip.inum := ip.addrs]
      ensures own == OwnWithout(old(own), ip.inum, 0, NSLOTS) && forall p :: 0 <= p <= NDIRECT ==> ip.addrs[p] == 0
      ensures Covered(old(blocks), blocks, logged) && old(logged) <= logged
    {
      hide Owned, Marked, OwnWithout, Covered, BitAt, Ref;
      CoveredNone(blocks, logged);
      OwnedFits(sb, blocks, files, own);
      OwnWithoutNone(own, ip.inum);
      assert files[ip.inum := ip.addrs] == files;
      for i := 0 to NDIRECT
        invariant Valid() && BitmapOnly(sb, old(blocks), blocks) && files == old(files)[ip.inum := ip.addrs]
        invariant own == OwnWithout(old(own), ip.inum, 0, i)
        invariant forall p :: 0 <= p < i ==> ip.addrs[p] == 0
        invariant Covered(old(blocks), blocks, logged) && old(logged) <= logged
      {
        ghost var b2, l2 := blocks, logged;
        OwnWithoutMore(old(own), ip.inum, 0, i, i + 1);
        DropDirect(ip, i);
        CoveredMore(old(blocks), b2, blocks, l2, logged);
      }
      OwnWithoutMore(old(own), ip.inum, 0, NDIRECT, NSLOTS);
      ghost var b3, l3 := blocks, logged;
      if ip.addrs[NDIRECT] != 0 {
        DropIndirect(ip);
        CoveredMore(old(blocks), b3, blocks, l3, logged);
      } else {
        NothingIndirect(sb, blocks, files, own, ip.inum);
      }
    }

    /** itrunc */
    method Itrunc(ip: Inode)
      requires Valid() && Loaded(ip) && |files| == sb.ninodes
      modifies this, ip`size, ip`addrs
      ensures Valid() && ip.size == 0 && (forall p :: 0 <= p <= NDIRECT ==> ip.addrs[p] == 0)
      ensures files == old(files)[ip.inum := ip.addrs] && own == OwnWithout(old(own), ip.inum, 0, NSLOTS)
      ensures OthersRead(old(blocks), old(files), blocks, files, ip.inum) && Covered(old(blocks), blocks, logged)
      ensures StoredInode(sb, blocks, ip.inum, ip.meta, 0, ip.addrs)
      ensures OtherInodesSame(sb, old(blocks), blocks, ip.inum) && (old(Stored()) ==> Stored())
    {
      hide Owned, Marked, FileByte, OwnWithout, StoredInode, OtherInodesSame, BlockOf, OthersRead, Covered, OnDisk;
      hide InodeFields, InodeAddrs, AllSame, BitAt;
      OwnedFits(sb, blocks, files, own);
      DropAll(ip);
      ip.size := 0;
      ghost var b1, l1 := blocks, logged;
      Iupdate(ip);
      CoveredMore(old(blocks), b1, blocks, l1, logged);
      OthersSame(sb, old(blocks), old(files), old(own), b1, blocks, files, ip.inum);
      InodesFrame(sb, old(blocks), b1, blocks, ip.inum);
      if old(Stored()) {
        StoredOnDisk(sb, old(blocks), old(files), blocks, ip.inum, ip.meta, 0, ip.addrs);
      }
    }

    /** The body of filewrite's loop: one transaction, which fits its reservation. */
    method WriteChunk(ip: Inode, chunk: seq<byte>, off: nat) returns (r: int)
      requires Valid() && Loaded(ip) && |files| == sb.ninodes && ip.size <= MAXFILE * BSIZE
      requires off < UINT_RANGE && |chunk| <= MAX_CHUNK && HoleFree(blocks, ip.addrs, ip.size)
      modifies this, ip`size, ip`addrs
      ensures Valid() && files == old(files)[ip.inum := ip.addrs]
      ensures ip.size <= MAXFILE * BSIZE && HoleFree(blocks, ip.addrs, ip.size)
      ensures -1 <= r <= |chunk|
      ensures Wrote(old(blocks), old(files), blocks, files, ip.inum, off, chunk, if r < 0 then 0 else r)
      ensures r < 0 <==> off > old(ip.size) || off + |chunk| > MAXFILE * BSIZE
      ensures 0 <= r < |chunk| ==> Full() && BlockOf(blocks, ip.addrs, (off + r) / BSIZE) == 0
      ensures r >= 0 ==> off <= old(ip.size) && off + r <= ip.size
      ensures r >= 0 ==> WriteDone(sb, old(own), old(blocks), old(ip.addrs), {},
                                   own, blocks, ip.addrs, logged, TouchedSet(off, r), ip.inum)
      ensures r >= 0 ==> ip.size == if off + r > old(ip.size) then off + r else old(ip.size)
      ensures r >= 0 ==> StoredInode(sb, blocks, ip.inum, ip.meta, ip.size, ip.addrs)
      ensures r >= 0 ==> OtherInodesSame(sb, old(blocks), blocks, ip.inum)
      ensures r < 0 ==> blocks == old(blocks) && files == old(files) && own == old(own) && logged == {}
      ensures old(Stored()) ==> Stored()
      ensures |logged| <= MAXOPBLOCKS && Covered(old(blocks), blocks, logged)
    {
      hide Owned, Marked, FileByte, BlockOf, BitAt, Wrote, StoredInode, OtherInodesSame, HoleFree, Absent;
      hide AllocLogs, Grew, Listed, Fresh, InFile, AllLogs, TouchedSet, Covered, OnDisk;
      logged := {};
      WroteNone(sb, blocks, files, own, ip.inum, off, chunk);
      r := Writei(ip, chunk, off);
      if r >= 0 {
        ChunkBound(old(blocks), old(ip.addrs), old(ip.size), off, r);
        assert logged == AllLogs(sb, old(own), own, blocks, ip.addrs, TouchedSet(off, r), ip.inum);
      }
    }
  }

  /** An open file on an inode. */
  class OpenFile {
    const ip: Inode
    var off: nat

    constructor (i: Inode)
      ensures ip == i && off == 0
    {
      ip, off := i, 0;
    }

    method WriteNext(fs: Volume, src: seq<byte>, k: nat, n1: nat, ghost b0: Disk, ghost f0: seq<Addrs>, ghost off0: nat)
      returns (r: int)
      requires fs.Valid() && fs.Loaded(ip) && |fs.files| == fs.sb.ninodes && ip.size <= MAXFILE * BSIZE
      requires HoleFree(fs.blocks, ip.addrs, ip.size) && off < UINT_RANGE
      requires k + n1 <= |src| && n1 <= MAX_CHUNK && off == off0 + k
      requires Wrote(b0, f0, fs.blocks, fs.files, ip.inum, off0, src, k)
      modifies fs, ip`size, ip`addrs
      ensures fs.Valid() && fs.files == old(fs.files)[ip.inum := ip.addrs]
      ensures ip.size <= MAXFILE * BSIZE && HoleFree(fs.blocks, ip.addrs, ip.size) && -1 <= r <= n1
      ensures Wrote(b0, f0, fs.blocks, fs.files, ip.inum, off0, src, k + if r < 0 then 0 else r)
      ensures r < 0 ==> off > old(ip.size) || off + n1 > MAXFILE * BSIZE
      ensures 0 <= r < n1 ==> fs.Full()
      ensures r >= 0 ==> off <= old(ip.size) && off + r <= ip.size
      ensures old(fs.Stored()) ==> fs.Stored()
    {
      hide Owned, Marked, FileByte, BlockOf, BitAt, Wrote, HoleFree, WriteDone, OnDisk, StoredInode, OtherInodesSame;
      ghost var b1, f1 := fs.blocks, fs.files;
      r := fs.WriteChunk(ip, src[k..k + n1], off);
      WroteOn(b0, f0, b1, f1, fs.blocks, fs.files, ip.inum, off0, src, k, n1, if r < 0 then 0 else r);
    }

    /** filewrite on an inode: chunk by chunk, all of `src` or -1 with a prefix written. */
    method Write(fs: Volume, src: seq<byte>) returns (ret: int, ghost i: nat)
      requires fs.Valid() && fs.Loaded(ip) && |fs.files| == fs.sb.ninodes && ip.size <= MAXFILE * BSIZE
      requires HoleFree(fs.blocks, ip.addrs, ip.size) && off + |src| < UINT_RANGE
      modifies this, fs, ip`size, ip`addrs
      ensures fs.Valid() && fs.files == old(fs.files)[ip.inum := ip.addrs] && HoleFree(fs.blocks, ip.addrs, ip.size)
      ensures Wrote(old(fs.blocks), old(fs.files), fs.blocks, fs.files, ip.inum, old(off), src, i)
      ensures off == old(off) + i
      ensures ret == (if i == |src| then |src| else -1)
      ensures i < |src| ==> fs.Full() || old(off) > old(ip.size) || old(off) + |src| > MAXFILE * BSIZE
      ensures old(fs.Stored()) ==> fs.Stored()
    {
      hide Owned, Marked, FileByte, BlockOf, BitAt, Wrote, HoleFree, OnDisk;
      WroteNone(fs.sb, fs.blocks, fs.files, fs.own, ip.inum, off, src);
      assert fs.files[ip.inum := ip.addrs] == fs.files;
      var k := 0;
      i := 0;
      while k < |src|
        invariant k <= |src| && k == i && off == old(off) + k
        invariant fs.Valid() && fs.files == old(fs.files)[ip.inum := ip.addrs] && ip.size <= MAXFILE * BSIZE
        invariant HoleFree(fs.blocks, ip.addrs, ip.size)
        invariant k > 0 ==> off <= ip.size
        invariant k == 0 ==> ip.size == old(ip.size)
        invariant Wrote(old(fs.blocks), old(fs.files), fs.blocks, fs.files, ip.inum, old(off), src, k)
        invariant old(fs.Stored()) ==> fs.Stored()
        decreases |src| - k
      {
        var n1 := if |src| - k > MAX_CHUNK then MAX_CHUNK else |src| - k;
        var r := WriteNext(fs, src, k, n1, old(fs.blocks), old(fs.files), old(off));
        if r > 0 {
          off := off + r;
          i := i + r;
        }
        if r != n1 {
          ret := -1;
          return;
        }
        k := k + r;
      }
      ret := |src|;
    }
  }
}
