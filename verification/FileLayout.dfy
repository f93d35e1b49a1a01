/**
 Files on the block array: the free bitmap, the direct and indirect block
 references of inodes, and the bytes of a file, as functions of the blocks.
 */
module FileLayout {
  import opened Blocks
  import opened DiskFormat

  const NDIRECT := 12
  const NINDIRECT := 256
  const MAXFILE := NDIRECT + NINDIRECT
  const NSLOTS := MAXFILE + 1       // direct blocks, the indirect block, the blocks it lists
  const IPB := 16                   // inodes per block

  /** The parts of the superblock in use; the data blocks are the last `nblocks`. */
  datatype Super = Super(size: nat, nblocks: nat, ninodes: nat, inodestart: nat, bmapstart: nat) {
    /** The layout mkfs computes: inodes, then the bitmap, then data. */
    predicate Fits(total: nat) {
      && nblocks <= size <= total <= UINT_RANGE
      && 0 < inodestart && inodestart + ninodes / IPB < bmapstart
      && bmapstart + size / BPB < size - nblocks
    }

    function DataStart(): int {
      size - nblocks
    }

    function BBlock(b: nat): nat {
      b / BPB + bmapstart
    }

    function IBlock(inum: nat): nat {
      inum / IPB + inodestart
    }
  }

  /** Where a block is referenced from: position 0..11 direct, 12 the indirect
      block, 13.. the entries of the indirect block. */
  datatype Slot = Slot(inum: nat, pos: nat)

  type Disk = seq<Block>
  type Addrs = a: seq<nat> | |a| == NDIRECT + 1 witness seq(NDIRECT + 1, i => 0)

  predicate BitAt(sb: Super, blocks: Disk, b: nat)
    requires sb.Fits(|blocks|) && b < sb.size
  {
    Bit(blocks[sb.BBlock(b)], b % BPB)
  }

  /** The block number stored at a position, 0 for none. */
  function Ref(blocks: Disk, a: Addrs, pos: nat): nat
    requires a[NDIRECT] < |blocks| && pos < NSLOTS
  {
    if pos <= NDIRECT then a[pos]
    else if a[NDIRECT] == 0 then 0
    else Word(blocks[a[NDIRECT]], pos - NDIRECT - 1)
  }

  /** The position of the `bn`-th block of a file. */
  function Pos(bn: nat): nat {
    if bn < NDIRECT then bn else bn + 1
  }

  /** The block holding the `bn`-th block of a file, 0 for a hole. */
  function BlockOf(blocks: Disk, a: Addrs, bn: nat): nat
    requires a[NDIRECT] < |blocks| && bn < MAXFILE
  {
    Ref(blocks, a, Pos(bn))
  }

  /** References and `own` are inverse to each other: every referenced block is a
      data block referenced from one place only. */
  ghost predicate Owned(sb: Super, blocks: Disk, files: seq<Addrs>, own: map<nat, Slot>) {
    && sb.Fits(|blocks|)
    && (forall i :: 0 <= i < |files| ==> files[i][NDIRECT] < |blocks|)
    && (forall i, p :: 0 <= i < |files| && 0 <= p < NSLOTS && Ref(blocks, files[i], p) != 0 ==>
          Ref(blocks, files[i], p) in own && own[Ref(blocks, files[i], p)] == Slot(i, p))
    && (forall b :: b in own ==>
          && sb.DataStart() <= b < sb.size && own[b].inum < |files| && own[b].pos < NSLOTS
          && Ref(blocks, files[own[b].inum], own[b].pos) == b)
  }

  /** The bitmap marks the metadata, the owned blocks, and those in `pending`. */
  ghost predicate Marked(sb: Super, blocks: Disk, own: map<nat, Slot>, pending: set<nat>) {
    && sb.Fits(|blocks|)
    && forall b: nat :: b < sb.size ==> (BitAt(sb, blocks, b) <==> b < sb.DataStart() || b in own || b in pending)
  }

  /** A byte of a file; holes read as zero. */
  function FileByte(blocks: Disk, a: Addrs, k: nat): byte
    requires a[NDIRECT] < |blocks| && k < MAXFILE * BSIZE
  {
    var b := BlockOf(blocks, a, k / BSIZE);
    if 0 < b < |blocks| then blocks[b][k % BSIZE] else 0
  }

  predicate SameFile(blocks: Disk, a: Addrs, blocks': Disk, a': Addrs)
    requires a[NDIRECT] < |blocks| && a'[NDIRECT] < |blocks'|
  {
    forall k: nat :: k < MAXFILE * BSIZE ==> FileByte(blocks', a', k) == FileByte(blocks, a, k)
  }

  // ----- frames -----

  /** Blocks nobody owns do not matter to references or file contents. */
  lemma UnownedFrame(sb: Super, blocks: Disk, files: seq<Addrs>, own: map<nat, Slot>, blocks': Disk)
    requires Owned(sb, blocks, files, own) && |blocks'| == |blocks|
    requires forall b :: b in own ==> blocks'[b] == blocks[b]
    ensures Owned(sb, blocks', files, own) && AllSame(blocks, files, blocks', files)
    ensures forall i, p :: 0 <= i < |files| && 0 <= p < NSLOTS ==> Ref(blocks', files[i], p) == Ref(blocks, files[i], p)
  {
    forall i, p | 0 <= i < |files| && 0 <= p < NSLOTS ensures Ref(blocks', files[i], p) == Ref(blocks, files[i], p) {
      assert Ref(blocks, files[i], NDIRECT) == files[i][NDIRECT];
    }
    assert forall i, p :: 0 <= i < |files| && 0 <= p < NSLOTS ==> Ref(blocks', files[i], p) == Ref(blocks, files[i], p);
    forall i | 0 <= i < |files| ensures SameFile(blocks, files[i], blocks', files[i]) {
      forall k: nat | k < MAXFILE * BSIZE ensures FileByte(blocks', files[i], k) == FileByte(blocks, files[i], k) {
        assert BlockOf(blocks', files[i], k / BSIZE) == BlockOf(blocks, files[i], k / BSIZE);
      }
    }
  }

  /** Storing to a data block of file `i` changes that block of the file and nothing else. */
  lemma DataWritten(sb: Super, blocks: Disk, files: seq<Addrs>, own: map<nat, Slot>, i: nat, bn: nat, data: Block)
    requires Owned(sb, blocks, files, own) && i < |files| && bn < MAXFILE && BlockOf(blocks, files[i], bn) != 0
    ensures var addr := BlockOf(blocks, files[i], bn);
      && addr < |blocks| && Owned(sb, blocks[addr := data], files, own)
      && (forall j :: 0 <= j < |files| && j != i ==> SameFile(blocks, files[j], blocks[addr := data], files[j]))
      && (forall k: nat :: k < MAXFILE * BSIZE ==>
            FileByte(blocks[addr := data], files[i], k)
            == if k / BSIZE == bn then data[k % BSIZE] else FileByte(blocks, files[i], k))
      && (forall c: nat :: c < MAXFILE ==> BlockOf(blocks[addr := data], files[i], c) == BlockOf(blocks, files[i], c))
  {
    var addr := BlockOf(blocks, files[i], bn);
    assert Ref(blocks, files[i], Pos(bn)) == addr;
    var blocks' := blocks[addr := data];
    forall j, p | 0 <= j < |files| && 0 <= p < NSLOTS ensures Ref(blocks', files[j], p) == Ref(blocks, files[j], p) {
      assert Ref(blocks, files[j], NDIRECT) == files[j][NDIRECT];
    }
    forall j, k: nat | 0 <= j < |files| && k < MAXFILE * BSIZE && !(j == i && k / BSIZE == bn)
      ensures FileByte(blocks', files[j], k) == FileByte(blocks, files[j], k)
    {
      assert Ref(blocks, files[j], Pos(k / BSIZE)) == BlockOf(blocks, files[j], k / BSIZE);
    }
  }

  // ----- allocation -----

  /** The blocks after balloc has picked `addr`. */
  function WithAllocated(sb: Super, blocks: Disk, addr: nat): (r: Disk)
    requires sb.Fits(|blocks|) && addr < sb.size && !BitAt(sb, blocks, addr)
    ensures |r| == |blocks|
  {
    blocks[sb.BBlock(addr) := SetBit(blocks[sb.BBlock(addr)], addr % BPB)][addr := ZeroBlock()]
  }

  lemma AllocatedBits(sb: Super, blocks: Disk, addr: nat)
    requires sb.Fits(|blocks|) && sb.DataStart() <= addr < sb.size && !BitAt(sb, blocks, addr)
    ensures var blocks' := WithAllocated(sb, blocks, addr);
      && |blocks'| == |blocks| && blocks'[addr] == ZeroBlock()
      && (forall b: nat :: b < |blocks| && b != addr && b != sb.BBlock(addr) ==> blocks'[b] == blocks[b])
      && (forall b: nat :: b < sb.size ==> BitAt(sb, blocks', b) == (BitAt(sb, blocks, b) || b == addr))
  {
  }

  lemma Allocated(sb: Super, blocks: Disk, files: seq<Addrs>, own: map<nat, Slot>, addr: nat)
    requires Owned(sb, blocks, files, own) && Marked(sb, blocks, own, {}) && addr < sb.size && !BitAt(sb, blocks, addr)
    ensures WithAllocated(sb, blocks, addr)[addr] == ZeroBlock()
    ensures forall b: nat :: b < sb.bmapstart ==> WithAllocated(sb, blocks, addr)[b] == blocks[b]
    ensures 0 < sb.DataStart() <= addr && addr !in own
    ensures var blocks' := WithAllocated(sb, blocks, addr);
      && Owned(sb, blocks', files, own) && Marked(sb, blocks', own, {addr})
      && AllSame(blocks, files, blocks', files)
      && (forall i, p :: 0 <= i < |files| && 0 <= p < NSLOTS ==> Ref(blocks', files[i], p) == Ref(blocks, files[i], p))
  {
    hide BitAt, FileByte, WithAllocated;
    AllocatedBits(sb, blocks, addr);
    assert sb.BBlock(addr) < sb.DataStart();
    UnownedFrame(sb, blocks, files, own, WithAllocated(sb, blocks, addr));
  }

  /** Storing a fresh zeroed block in an empty place of the inode. */
  lemma LinkedDirect(sb: Super, blocks: Disk, files: seq<Addrs>, own: map<nat, Slot>, i: nat, p: nat, addr: nat)
    requires Owned(sb, blocks, files, own) && Marked(sb, blocks, own, {addr}) && i < |files|
    requires p <= NDIRECT && files[i][p] == 0 && addr !in own && 0 < sb.DataStart() <= addr < sb.size
    requires blocks[addr] == ZeroBlock()
    ensures var a', own' := files[i][p := addr], own[addr := Slot(i, p)];
      && Owned(sb, blocks, files[i := a'], own') && Marked(sb, blocks, own', {})
      && AllSame(blocks, files, blocks, files[i := a'])
      && forall q: nat :: q < NSLOTS && q != p ==> Ref(blocks, a', q) == Ref(blocks, files[i], q)
  {
    var a', own' := files[i][p := addr], own[addr := Slot(i, p)];
    var files' := files[i := a'];
    forall j, q | 0 <= j < |files| && 0 <= q < NSLOTS
      ensures Ref(blocks, files'[j], q) == if j == i && q == p then addr else Ref(blocks, files[j], q)
    {
    }
    forall k: nat | k < MAXFILE * BSIZE ensures FileByte(blocks, a', k) == FileByte(blocks, files[i], k) {
      assert BlockOf(blocks, a',
                     k / BSIZE) == if Pos(k / BSIZE) == p then addr else BlockOf(blocks, files[i], k / BSIZE);
    }
  }

  lemma MarkedFrame(sb: Super, blocks: Disk, blocks': Disk, own: map<nat, Slot>, own': map<nat, Slot>, addr: nat)
    requires Marked(sb, blocks, own, {addr}) && |blocks'| == |blocks|
    requires forall b: nat :: b < sb.DataStart() ==> blocks'[b] == blocks[b]
    requires forall b :: b in own' <==> b in own || b == addr
    ensures Marked(sb, blocks', own', {})
  {
    hide Bit;
    forall b: nat | b < sb.size ensures BitAt(sb, blocks', b) <==> b < sb.DataStart() || b in own' || b in {} {
      assert blocks'[sb.BBlock(b)] == blocks[sb.BBlock(b)];
      assert BitAt(sb, blocks, b) <==> b < sb.DataStart() || b in own || b in {addr};
    }
  }

  lemma SameBits(sb: Super, blocks: Disk, blocks': Disk, own: map<nat, Slot>)
    requires Marked(sb, blocks, own, {}) && Marked(sb, blocks', own, {})
    ensures forall b: nat :: b < sb.size ==> (BitAt(sb, blocks', b) <==> BitAt(sb, blocks, b))
  {
  }

  lemma OwnedFits(sb: Super, blocks: Disk, files: seq<Addrs>, own: map<nat, Slot>)
    requires Owned(sb, blocks, files, own)
    ensures sb.Fits(|blocks|)
  {
  }

  lemma IndirectAt(sb: Super, blocks: Disk, files: seq<Addrs>, own: map<nat, Slot>, i: nat)
    requires Owned(sb, blocks, files, own) && i < |files| && files[i][NDIRECT] != 0
    ensures sb.Fits(|blocks|) && sb.DataStart() <= files[i][NDIRECT] < |blocks|
  {
    assert Ref(blocks, files[i], NDIRECT) == files[i][NDIRECT];
  }

  /** Storing a fresh zeroed block in an empty entry of the indirect block. */
  lemma LinkedIndirect(sb: Super, blocks: Disk, files: seq<Addrs>, own: map<nat, Slot>, i: nat, p: nat, addr: nat)
    requires Owned(sb, blocks, files, own) && Marked(sb, blocks, own, {addr}) && i < |files|
    requires NDIRECT < p < NSLOTS && files[i][NDIRECT] != 0 && Ref(blocks, files[i], p) == 0
    requires addr !in own && 0 < sb.DataStart() <= addr < sb.size && blocks[addr] == ZeroBlock()
    ensures var ind, own' := files[i][NDIRECT], own[addr := Slot(i, p)];
      var blocks' := blocks[ind := PutWord(blocks[ind], p - NDIRECT - 1, addr)];
      && Owned(sb, blocks', files, own') && Marked(sb, blocks', own', {})
      && AllSame(blocks, files, blocks', files)
      && (forall q: nat :: q < NSLOTS ==>
            Ref(blocks', files[i], q) == if q == p then addr else Ref(blocks, files[i], q))
  {
    hide BitAt, PutWord, Word, ZeroBlock;
    var ind, own' := files[i][NDIRECT], own[addr := Slot(i, p)];
    var blocks' := blocks[ind := PutWord(blocks[ind], p - NDIRECT - 1, addr)];
    assert Ref(blocks, files[i], NDIRECT) == ind;
    assert Marked(sb, blocks', own', {}) by { MarkedFrame(sb, blocks, blocks', own, own', addr); }
    forall j, q | 0 <= j < |files| && 0 <= q < NSLOTS
      ensures Ref(blocks', files[j], q) == if j == i && q == p then addr else Ref(blocks, files[j], q)
    {
      assert Ref(blocks, files[j], NDIRECT) == files[j][NDIRECT];
    }
    forall j, k: nat | 0 <= j < |files| && k < MAXFILE * BSIZE
      ensures FileByte(blocks', files[j], k) == FileByte(blocks, files[j], k)
    {
      var bn := k / BSIZE;
      assert BlockOf(blocks', files[j], bn) == if j == i && Pos(bn) == p then addr else BlockOf(blocks, files[j], bn);
      assert Ref(blocks, files[j], Pos(bn)) == BlockOf(blocks, files[j], bn);
    }
  }

  // ----- truncation -----

  ghost function OwnWithout(own: map<nat, Slot>, i: nat, lo: nat, hi: nat): (r: map<nat, Slot>) {
    map b | b in own && !(own[b].inum == i && lo <= own[b].pos < hi) :: own[b]
  }

  /** Clearing the bit of an owned block. */
  lemma Unmarked(sb: Super, blocks: Disk, own: map<nat, Slot>, own': map<nat, Slot>, b: nat)
    requires Marked(sb, blocks, own, {}) && b in own && sb.DataStart() <= b < sb.size
    requires forall c :: c in own' <==> c in own && c != b
    ensures BitAt(sb, blocks, b)
    ensures Marked(sb, blocks[sb.BBlock(b) := ClearBit(blocks[sb.BBlock(b)], b % BPB)], own', {})
  {
  }

  /** Dropping the references at positions lo..hi of an inode. */
  lemma DroppedRefs(sb: Super, blocks: Disk, files: seq<Addrs>, own: map<nat, Slot>, i: nat, a': Addrs, lo: nat,
                    hi: nat)
    requires Owned(sb, blocks, files, own) && i < |files| && a'[NDIRECT] < |blocks|
    requires forall p: nat :: p < NSLOTS ==> Ref(blocks, a', p) == if lo <= p < hi then 0 else Ref(blocks, files[i], p)
    ensures Owned(sb, blocks, files[i := a'], OwnWithout(own, i, lo, hi))
  {
  }

  /** Block 0 is metadata, so it is never free. */
  lemma FirstMarked(sb: Super, blocks: Disk, own: map<nat, Slot>)
    requires Marked(sb, blocks, own, {})
    ensures sb.Fits(|blocks|) && BitAt(sb, blocks, 0)
  {
  }

  /** Every file reads the same before and after. */
  ghost predicate AllSame(blocks: Disk, files: seq<Addrs>, blocks': Disk, files': seq<Addrs>) {
    && |files| == |files'| && |blocks| == |blocks'|
    && (forall j :: 0 <= j < |files| ==> files[j][NDIRECT] < |blocks| && files'[j][NDIRECT] < |blocks'|)
    && forall j :: 0 <= j < |files| ==> SameFile(blocks, files[j], blocks', files'[j])
  }

  lemma AllSameTransitive(b0: Disk, f0: seq<Addrs>, b1: Disk, f1: seq<Addrs>, b2: Disk, f2: seq<Addrs>)
    requires AllSame(b0, f0, b1, f1) && AllSame(b1, f1, b2, f2)
    ensures AllSame(b0, f0, b2, f2)
  {
  }

  /** Every block below the size is allocated. */
  predicate HoleFree(blocks: Disk, a: Addrs, size: nat) {
    && a[NDIRECT] < |blocks|
    && forall bn: nat :: bn < MAXFILE && bn * BSIZE < size ==> BlockOf(blocks, a, bn) != 0
  }

  function Splice(b: Block, at: nat, data: seq<byte>): (r: Block)
    requires at + |data| <= BSIZE
    ensures forall i :: 0 <= i < BSIZE ==> r[i] == if at <= i < at + |data| then data[i - at] else b[i]
  {
    b[..at] + data + b[at + |data|..]
  }

  /** File `i` has `src[..tot]` at offset `off`; all other bytes of all files are as before. */
  ghost predicate Wrote(b0: Disk, f0: seq<Addrs>, b: Disk, f: seq<Addrs>, i: nat, off: nat, src: seq<byte>, tot: nat) {
    && |f0| == |f| && |b0| == |b| && i < |f| && tot <= |src|
    && (forall j :: 0 <= j < |f| ==> f0[j][NDIRECT] < |b0| && f[j][NDIRECT] < |b|)
    && (forall j :: 0 <= j < |f| && j != i ==> SameFile(b0, f0[j], b, f[j]))
    && (forall k: nat :: k < MAXFILE * BSIZE ==>
          FileByte(b, f[i], k) == if off <= k < off + tot then src[k - off] else FileByte(b0, f0[i], k))
  }

  lemma WroteSame(b0: Disk, f0: seq<Addrs>, b1: Disk, f1: seq<Addrs>, b2: Disk, f2: seq<Addrs>, i: nat, off: nat,
                  src: seq<byte>, tot: nat)
    requires Wrote(b0, f0, b1, f1, i, off, src, tot) && AllSame(b1, f1, b2, f2)
    ensures Wrote(b0, f0, b2, f2, i, off, src, tot)
  {
  }

  /** One iteration of writei: the next `m` bytes go to the block that holds them. */
  lemma WroteBlock(sb: Super, own: map<nat, Slot>, b0: Disk, f0: seq<Addrs>, b: Disk, f: seq<Addrs>, i: nat, off: nat,
                   src: seq<byte>, tot: nat, bn: nat, at: nat, m: nat)
    requires Owned(sb, b, f, own) && Wrote(b0, f0, b, f, i, off, src, tot) && off + tot == bn * BSIZE + at
    requires tot + m <= |src| && at + m <= BSIZE && bn < MAXFILE && m > 0
    requires BlockOf(b, f[i], bn) != 0
    ensures var addr := BlockOf(b, f[i], bn);
      && addr < |b|
      && var b' := b[addr := Splice(b[addr], at, src[tot..tot + m])];
      && Owned(sb, b', f, own) && Wrote(b0, f0, b', f, i, off, src, tot + m)
      && (forall c: nat :: c < MAXFILE ==> BlockOf(b', f[i], c) == BlockOf(b, f[i], c))
  {
    hide Owned, BlockOf, Splice;
    var addr := BlockOf(b, f[i], bn);
    assert addr < |b| by { DataWritten(sb, b, f, own, i, bn, ZeroBlock()); }
    var data := Splice(b[addr], at, src[tot..tot + m]);
    DataWritten(sb, b, f, own, i, bn, data);
    var b' := b[addr := data];
    forall j | 0 <= j < |f| && j != i ensures SameFile(b0, f0[j], b', f[j]) {
      assert SameFile(b0, f0[j], b, f[j]) && SameFile(b, f[j], b', f[j]);
    }
    forall k: nat | k < MAXFILE * BSIZE
      ensures FileByte(b', f[i], k) == if off <= k < off + tot + m then src[k - off] else FileByte(b0, f0[i], k)
    {
      assert k == k / BSIZE * BSIZE + k % BSIZE && off + tot == bn * BSIZE + at;
      if k / BSIZE == bn {
        assert FileByte(b, f[i], k) == b[addr][k % BSIZE];
        assert at <= k % BSIZE < at + m ==> src[tot..tot + m][k % BSIZE - at] == src[k - off];
        assert FileByte(b', f[i], k) == data[k % BSIZE];
        assert off + tot <= k < off + tot + m ==> data[k % BSIZE] == src[k - off];
        assert !(off + tot <= k < off + tot + m) ==> data[k % BSIZE] == b[addr][k % BSIZE];
      } else {
        assert FileByte(b', f[i], k) == FileByte(b, f[i], k);
        assert !(off + tot <= k < off + tot + m);
      }
    }
  }

  // ----- inodes on the disk -----

  type short = x: int | 0 <= x < 0x1_0000

  /** The fields of an inode besides its size and addresses. */
  datatype Meta = Meta(kind: short, major: short, minor: short, nlink: short) {
    /** Two shorts to a word, the first in the low half. */
    function Low(): nat {
      kind as int + 0x1_0000 * major as int
    }

    function High(): nat {
      minor as int + 0x1_0000 * nlink as int
    }
  }

  /** Word `f` of the on-disk inode: 0 and 1 are the metadata, 2 is the size, 3.. the addresses. */
  function InodeWord(sb: Super, blocks: Disk, inum: nat, f: nat): nat
    requires sb.Fits(|blocks|) && inum < sb.ninodes && f < 16
  {
    Word(blocks[sb.IBlock(inum)], inum % IPB * 16 + f)
  }

  /** All sixteen words of the inode are on the disk. */
  predicate StoredInode(sb: Super, blocks: Disk, inum: nat, meta: Meta, size: nat, a: Addrs)
    requires sb.Fits(|blocks|) && inum < sb.ninodes
  {
    && InodeWord(sb, blocks, inum, 0) == meta.Low() && InodeWord(sb, blocks, inum, 1) == meta.High()
    && InodeWord(sb, blocks, inum, 2) == size
    && forall k :: 0 <= k <= NDIRECT ==> InodeWord(sb, blocks, inum, 3 + k) == a[k]
  }

  lemma Halves(x: short, y: short, x': short, y': short)
    requires x as int + 0x1_0000 * y as int == x' as int + 0x1_0000 * y' as int
    ensures x == x' && y == y'
  {
  }

  /** The stored words determine the inode. */
  lemma StoredInodeUnique(sb: Super, blocks: Disk, inum: nat, m: Meta, size: nat, a: Addrs, m': Meta, size': nat,
                          a': Addrs)
    requires sb.Fits(|blocks|) && inum < sb.ninodes
    requires StoredInode(sb, blocks, inum, m, size, a) && StoredInode(sb, blocks, inum, m', size', a')
    ensures m == m' && size == size' && a == a'
  {
    hide InodeWord;
    Halves(m.kind, m.major, m'.kind, m'.major);
    Halves(m.minor, m.nlink, m'.minor, m'.nlink);
    forall k | 0 <= k <= NDIRECT ensures a[k] == a'[k] {
      assert InodeWord(sb, blocks, inum, 3 + k) == a[k];
    }
  }

  /** The words of every other inode are the same. */
  ghost predicate OtherInodesSame(sb: Super, blocks: Disk, blocks': Disk, inum: nat) {
    && sb.Fits(|blocks|) && sb.Fits(|blocks'|)
    && forall j, f :: 0 <= j < sb.ninodes && j != inum && 0 <= f < 16 ==>
         InodeWord(sb, blocks', j, f) == InodeWord(sb, blocks, j, f)
  }

  /** The addresses an inode has on the disk, which is where ilock finds them. */
  function DiskAddrs(sb: Super, blocks: Disk, inum: nat): Addrs
    requires sb.Fits(|blocks|) && inum < sb.ninodes
  {
    seq(NDIRECT + 1, k requires 0 <= k <= NDIRECT => InodeWord(sb, blocks, inum, 3 + k))
  }

  /** The inode blocks hold the addresses of every inode. */
  ghost predicate OnDisk(sb: Super, blocks: Disk, files: seq<Addrs>) {
    && sb.Fits(|blocks|) && |files| == sb.ninodes
    && forall j :: 0 <= j < sb.ninodes ==> DiskAddrs(sb, blocks, j) == files[j]
  }

  lemma StoredOnDisk(sb: Super, b0: Disk, f0: seq<Addrs>, b: Disk, i: nat, meta: Meta, size: nat, a: Addrs)
    requires OnDisk(sb, b0, f0) && sb.Fits(|b|) && i < sb.ninodes
    requires StoredInode(sb, b, i, meta, size, a) && OtherInodesSame(sb, b0, b, i)
    ensures OnDisk(sb, b, f0[i := a])
  {
    hide InodeWord;
    forall j | 0 <= j < sb.ninodes ensures DiskAddrs(sb, b, j) == f0[i := a][j] {
      assert j != i ==> DiskAddrs(sb, b0, j) == f0[j];
    }
  }

  /** Allocating without iupdate leaves the disk behind exactly when an address has changed. */
  lemma OnDiskIff(sb: Super, b0: Disk, f0: seq<Addrs>, b: Disk, i: nat, a: Addrs)
    requires OnDisk(sb, b0, f0) && |b| == |b0| && i < sb.ninodes
    requires forall c: nat :: c < sb.bmapstart ==> b[c] == b0[c]
    ensures OnDisk(sb, b, f0[i := a]) <==> a == f0[i]
  {
    hide Word;
    forall j | 0 <= j < sb.ninodes ensures DiskAddrs(sb, b, j) == f0[j] {
      assert DiskAddrs(sb, b0, j) == f0[j];
      assert b[sb.IBlock(j)] == b0[sb.IBlock(j)];
    }
    if a != f0[i] {
      assert f0[i := a][i] != DiskAddrs(sb, b, i);
    }
  }

  function InodeHead(b: Block, inum: nat, meta: Meta, size: nat): (r: Block)
    requires size < UINT_RANGE
    ensures Word(r, inum % IPB * 16) == meta.Low() && Word(r, inum % IPB * 16 + 1) == meta.High()
    ensures Word(r, inum % IPB * 16 + 2) == size
    ensures forall w: nat :: w < WORDS && (w < inum % IPB * 16 || w >= inum % IPB * 16 + 16) ==>
              Word(r, w) == Word(b, w)
  {
    hide Word, PutWord;
    var at := inum % IPB * 16;
    PutWord(PutWord(PutWord(b, at, meta.Low()), at + 1, meta.High()), at + 2, size)
  }

  /** The inode block with the inode's fields and first `k` addresses copied in. */
  function InodeBlock(b: Block, inum: nat, meta: Meta, size: nat, a: Addrs, k: nat): (r: Block)
    requires size < UINT_RANGE && k <= NDIRECT + 1 && forall i :: 0 <= i <= NDIRECT ==> a[i] < UINT_RANGE
    ensures Word(r, inum % IPB * 16) == meta.Low() && Word(r, inum % IPB * 16 + 1) == meta.High()
    ensures Word(r, inum % IPB * 16 + 2) == size
    ensures forall w: nat :: inum % IPB * 16 + 3 <= w < inum % IPB * 16 + 3 + k ==>
              Word(r, w) == a[w - inum % IPB * 16 - 3]
    ensures forall w: nat :: w < WORDS && (w < inum % IPB * 16 || w >= inum % IPB * 16 + 16) ==>
              Word(r, w) == Word(b, w)
  {
    hide Word, PutWord, InodeHead;
    if k == 0 then InodeHead(b, inum, meta, size)
    else PutWord(InodeBlock(b, inum, meta, size, a, k - 1), inum % IPB * 16 + 2 + k, a[k - 1])
  }

  lemma InodeBlockNone(b: Block, inum: nat, meta: Meta, size: nat, a: Addrs)
    requires size < UINT_RANGE && forall i :: 0 <= i <= NDIRECT ==> a[i] < UINT_RANGE
    ensures InodeBlock(b, inum, meta, size, a, 0) == InodeHead(b, inum, meta, size)
  {
  }

  lemma InodeBlockNext(b: Block, inum: nat, meta: Meta, size: nat, a: Addrs, k: nat)
    requires size < UINT_RANGE && k <= NDIRECT && forall i :: 0 <= i <= NDIRECT ==> a[i] < UINT_RANGE
    ensures InodeBlock(b, inum, meta, size, a, k + 1)
         == PutWord(InodeBlock(b, inum, meta, size, a, k), inum % IPB * 16 + 3 + k, a[k])
  {
    hide PutWord, Word;
  }

  lemma InodeWords(sb: Super, blocks: Disk, inum: nat, meta: Meta, size: nat, a: Addrs)
    requires sb.Fits(|blocks|) && inum < sb.ninodes && size < UINT_RANGE
    requires forall i :: 0 <= i <= NDIRECT ==> a[i] < UINT_RANGE
    ensures var ib := sb.IBlock(inum);
      var blocks' := blocks[ib := InodeBlock(blocks[ib], inum, meta, size, a, NDIRECT + 1)];
      StoredInode(sb, blocks', inum, meta, size, a) && OtherInodesSame(sb, blocks, blocks', inum)
  {
    hide Word, InodeBlock;
    var ib := sb.IBlock(inum);
    var blocks' := blocks[ib := InodeBlock(blocks[ib], inum, meta, size, a, NDIRECT + 1)];
    forall j, f | 0 <= j < sb.ninodes && j != inum && 0 <= f < 16
      ensures InodeWord(sb, blocks', j, f) == InodeWord(sb, blocks, j, f)
    {
      if sb.IBlock(j) == ib {
        assert j / IPB == inum / IPB && j % IPB != inum % IPB;
      }
    }
  }

  lemma InodeStored(sb: Super, blocks: Disk, files: seq<Addrs>, own: map<nat, Slot>, inum: nat, meta: Meta, size: nat)
    requires Owned(sb, blocks, files, own) && Marked(sb, blocks, own, {})
    requires inum < |files| && inum < sb.ninodes && size < UINT_RANGE
    requires forall i :: 0 <= i <= NDIRECT ==> files[inum][i] < UINT_RANGE
    ensures var ib := sb.IBlock(inum);
      var blocks' := blocks[ib := InodeBlock(blocks[ib], inum, meta, size, files[inum], NDIRECT + 1)];
      && Owned(sb, blocks', files, own) && Marked(sb, blocks', own, {}) && AllSame(blocks, files, blocks', files)
      && StoredInode(sb, blocks', inum, meta, size, files[inum]) && OtherInodesSame(sb, blocks, blocks', inum)
      && (forall c: nat :: c < MAXFILE ==> BlockOf(blocks', files[inum], c) == BlockOf(blocks, files[inum], c))
  {
    hide BitAt, InodeWord, StoredInode, InodeBlock, FileByte, Ref, OtherInodesSame;
    InodeWords(sb, blocks, inum, meta, size, files[inum]);
    var ib := sb.IBlock(inum);
    assert ib < sb.bmapstart;
    var blocks' := blocks[ib := InodeBlock(blocks[ib], inum, meta, size, files[inum], NDIRECT + 1)];
    UnownedFrame(sb, blocks, files, own, blocks');
    BitmapSame(sb, blocks, blocks', own);
  }

  lemma BitmapSame(sb: Super, blocks: Disk, blocks': Disk, own: map<nat, Slot>)
    requires Marked(sb, blocks, own, {}) && |blocks'| == |blocks|
    requires forall b: nat :: sb.bmapstart <= b < sb.DataStart() ==> blocks'[b] == blocks[b]
    ensures Marked(sb, blocks', own, {})
  {
    hide Bit;
    forall b: nat | b < sb.size ensures BitAt(sb, blocks', b) <==> BitAt(sb, blocks, b) {
      assert blocks'[sb.BBlock(b)] == blocks[sb.BBlock(b)];
    }
  }

  /** References are block numbers of the file system. */
  lemma AddrsInRange(sb: Super, blocks: Disk, files: seq<Addrs>, own: map<nat, Slot>, i: nat)
    requires Owned(sb, blocks, files, own) && i < |files|
    ensures forall k :: 0 <= k <= NDIRECT ==> files[i][k] < UINT_RANGE
  {
    forall k | 0 <= k <= NDIRECT ensures files[i][k] < UINT_RANGE {
      assert Ref(blocks, files[i], k) == files[i][k];
    }
  }

  // ----- counting what an operation logs -----

  /** How many file blocks the bytes [off, off + n) touch. */
  function Touched(off: nat, n: nat): nat {
    if n == 0 then 0 else (off + n - 1) / BSIZE - off / BSIZE + 1
  }

  lemma OwnWithoutNone(own: map<nat, Slot>, i: nat)
    ensures OwnWithout(own, i, 0, 0) == own
  {
  }

  /** Dropping the reference at one position lets go of the block it names and of no other. */
  lemma OwnWithoutOne(sb: Super, blocks: Disk, files: seq<Addrs>, own: map<nat, Slot>, i: nat, p: nat)
    requires Owned(sb, blocks, files, own) && i < |files| && p < NSLOTS
    ensures var b := Ref(blocks, files[i], p);
      var own' := OwnWithout(own, i, p, p + 1);
      if b == 0 then own' == own
      else b in own && sb.DataStart() <= b < sb.size && forall c :: c in own' <==> c in own && c != b
  {
  }

  lemma OwnWithoutMore(own: map<nat, Slot>, i: nat, lo: nat, mid: nat, hi: nat)
    requires lo <= mid <= hi
    ensures OwnWithout(OwnWithout(own, i, lo, mid), i, mid, hi) == OwnWithout(own, i, lo, hi)
    ensures OwnWithout(OwnWithout(own, i, mid, hi), i, lo, mid) == OwnWithout(own, i, lo, hi)
  {
  }

  /** Only the bitmap differs. */
  predicate BitmapOnly(sb: Super, blocks: Disk, blocks': Disk) {
    && |blocks| == |blocks'| && sb.Fits(|blocks|)
    && forall b: nat :: b < |blocks| && (b < sb.bmapstart || b >= sb.DataStart()) ==> blocks'[b] == blocks[b]
  }

  lemma Freed(sb: Super, blocks: Disk, own: map<nat, Slot>, own': map<nat, Slot>, b: nat)
    requires Marked(sb, blocks, own, {}) && b in own && sb.DataStart() <= b < sb.size
    requires forall c :: c in own' <==> c in own && c != b
    ensures BitAt(sb, blocks, b)
    ensures var blocks' := blocks[sb.BBlock(b) := ClearBit(blocks[sb.BBlock(b)], b % BPB)];
      Marked(sb, blocks', own', {}) && BitmapOnly(sb, blocks, blocks')
  {
    Unmarked(sb, blocks, own, own', b);
    assert sb.bmapstart <= sb.BBlock(b) < sb.DataStart();
  }

  /** The next entry of the indirect block is still owned, and is the only block to go. */
  lemma NextEntry(sb: Super, blocks: Disk, files: seq<Addrs>, own: map<nat, Slot>, i: nat, lo: nat, p: nat)
    requires Owned(sb, blocks, files, own) && i < |files| && lo <= p < NSLOTS
    ensures var b, was, next := Ref(blocks, files[i], p), OwnWithout(own, i, lo, p), OwnWithout(own, i, lo, p + 1);
      if b == 0 then next == was
      else b in was && sb.DataStart() <= b < sb.size && forall c :: c in next <==> c in was && c != b
  {
  }

  /** Clearing the inode's pointer to the indirect block drops all that it lists. */
  lemma IndirectGone(sb: Super, blocks: Disk, files: seq<Addrs>, own: map<nat, Slot>, i: nat)
    requires Owned(sb, blocks, files, own) && i < |files| && files[i][NDIRECT] != 0
    ensures Owned(sb, blocks, files[i := files[i][NDIRECT := 0]], OwnWithout(own, i, NDIRECT, NSLOTS))
    ensures var ind := files[i][NDIRECT];
      var own1, own2 := OwnWithout(own, i, NDIRECT + 1, NSLOTS), OwnWithout(own, i, NDIRECT, NSLOTS);
      ind in own1 && sb.DataStart() <= ind < sb.size && forall c :: c in own2 <==> c in own1 && c != ind
  {
    assert Ref(blocks, files[i], NDIRECT) == files[i][NDIRECT];
    DroppedRefs(sb, blocks, files, own, i, files[i][NDIRECT := 0], NDIRECT, NSLOTS);
  }

  // ----- the bytes on the disk -----

  lemma BlockOfIs(blocks: Disk, a: Addrs, bn: nat)
    requires a[NDIRECT] < |blocks| && bn < MAXFILE
    ensures BlockOf(blocks, a, bn) == FileBlock(blocks, a, bn)
  {
  }

  /** A file's byte is where the disk's bytes put it. */
  lemma FileByteIs(sb: Super, blocks: Disk, files: seq<Addrs>, i: nat, k: nat)
    requires OnDisk(sb, blocks, files) && i < sb.ninodes && files[i][NDIRECT] < |blocks| && k < MAXFILE * BSIZE
    ensures InodeAddrs(blocks, sb.inodestart, i) == files[i]
    ensures FileByte(blocks, files[i], k) == DiskByte(blocks, sb.inodestart, i, k)
  {
    hide Uint;
    AddrsAre(sb, blocks, i);
    assert DiskAddrs(sb, blocks, i) == files[i];
    BlockOfIs(blocks, files[i], k / BSIZE);
  }

  lemma AddrsAre(sb: Super, blocks: Disk, i: nat)
    requires sb.Fits(|blocks|) && i < sb.ninodes
    ensures DiskAddrs(sb, blocks, i) == InodeAddrs(blocks, sb.inodestart, i)
  {
  }

  /** iupdate puts every field where struct dinode has it. */
  lemma InodeFieldsAre(sb: Super, blocks: Disk, i: nat, meta: Meta, size: nat, a: Addrs)
    requires sb.Fits(|blocks|) && i < sb.ninodes && StoredInode(sb, blocks, i, meta, size, a)
    ensures InodeFields(blocks, sb.inodestart, i, meta.kind as int, meta.major as int, meta.minor as int,
                        meta.nlink as int, size)
    ensures InodeAddrs(blocks, sb.inodestart, i) == a
  {
    AddrsAre(sb, blocks, i);
    var b, at := blocks[sb.inodestart + i / 16], i % 16 * 64;
    HalfWords(b, at, meta.kind, meta.major);
    HalfWords(b, at + 4, meta.minor, meta.nlink);
    hide Uint, Ushort;
    assert DiskAddrs(sb, blocks, i) == a;
  }

  lemma HalfWords(b: Block, at: nat, x: short, y: short)
    requires at + 4 <= BSIZE && Uint(b, at) == x as int + 0x1_0000 * y as int
    ensures Ushort(b, at) == x as int && Ushort(b, at + 2) == y as int
  {
  }

  lemma BitAtIs(sb: Super, blocks: Disk, b: nat)
    requires sb.Fits(|blocks|) && b < sb.size
    ensures BitAt(sb, blocks, b) <==> MapBit(blocks, sb.bmapstart, b)
  {
    assert b % 8192 % 8 == b % 8;
    hide Mask, ByteBit;
    ByteBitIs(blocks[sb.bmapstart + b / 8192][b % 8192 / 8], b % 8);
  }

  lemma {:induction false} ByteBitIs(x: nat, k: nat)
    requires k < 8
    ensures ByteBit(x, k) <==> x / Mask(k) % 2 == 1
  {
    if k > 0 {
      ByteBitIs(x / 2, k - 1);
      assert x / 2 / Mask(k - 1) == x / Mask(k);
    }
  }

  /** File bytes on blocks that are there lie on the disk in place. */
  lemma BytesLie(sb: Super, blocks: Disk, files: seq<Addrs>, own: map<nat, Slot>, i: nat, off: nat, data: seq<byte>)
    requires Owned(sb, blocks, files, own) && i < |files| && (data != [] ==> off + |data| <= MAXFILE * BSIZE)
    requires forall k :: 0 <= k < |data| ==>
               BlockOf(blocks, files[i], (off + k) / BSIZE) != 0 && FileByte(blocks, files[i], off + k) == data[k]
    ensures BytesAt(blocks, files[i], off, data)
  {
    hide FileBlock;
    forall k | 0 <= k < |data| ensures ByteAt(blocks, files[i], off + k, data[k]) {
      assert FileByte(blocks, files[i], off + k) == data[k];
      BlockOfIs(blocks, files[i], (off + k) / BSIZE);
      assert Ref(blocks, files[i], Pos((off + k) / BSIZE)) in own;
    }
  }
}
