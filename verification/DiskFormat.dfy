/**
 The disk as bytes: where the kernel and mkfs put the words of an inode, the
 blocks and bytes of a file, the bits of the free map and the header of the log.
 Everything here is read off the bytes of the blocks, by position.
 */
module DiskFormat {
  import opened Blocks

  /** The four bytes from `at` on, least significant first. */
  function Uint(b: Block, at: nat): nat
    requires at + 4 <= 1024
  {
    b[at] as int + 256 * b[at + 1] as int + 65536 * b[at + 2] as int + 16777216 * b[at + 3] as int
  }

  function Ushort(b: Block, at: nat): nat
    requires at + 2 <= 1024
  {
    b[at] as int + 256 * b[at + 1] as int
  }

  /** The block that has the `bn`-th kilobyte of a file with the addresses `a`: one of the
      first twelve, or named in the block the thirteenth names. 0 is none. */
  function FileBlock(d: seq<Block>, a: seq<nat>, bn: nat): nat
    requires |a| == 13 && bn < 12 + 256
  {
    if bn < 12 then a[bn]
    else if a[12] == 0 || a[12] >= |d| then 0
    else Uint(d[a[12]], 4 * (bn - 12))
  }

  /** Byte `k` of the file is on a block of the disk, and is `x`. */
  predicate ByteAt(d: seq<Block>, a: seq<nat>, k: nat, x: byte)
    requires |a| == 13 && k < 268 * 1024
  {
    0 < FileBlock(d, a, k / 1024) < |d| && d[FileBlock(d, a, k / 1024)][k % 1024] == x
  }

  /** The bytes of the file from `off` on are `data`. */
  ghost predicate BytesAt(d: seq<Block>, a: seq<nat>, off: nat, data: seq<byte>)
    requires |a| == 13
  {
    && (data != [] ==> off + |data| <= 268 * 1024)
    && forall i :: 0 <= i < |data| ==> ByteAt(d, a, off + i, data[i])
  }

  /** The thirteen addresses of inode `inum`: sixteen inodes of 64 bytes to a block, the
      addresses from byte 12 on. */
  function InodeAddrs(d: seq<Block>, inodestart: nat, inum: nat): (a: seq<nat>)
    requires inodestart + inum / 16 < |d|
    ensures |a| == 13
  {
    seq(13, k requires 0 <= k < 13 => Uint(d[inodestart + inum / 16], inum % 16 * 64 + 12 + 4 * k))
  }

  /** Type, device numbers, link count and size lie before the addresses. */
  predicate InodeFields(d: seq<Block>, inodestart: nat, inum: nat, kind: nat, major: nat, minor: nat, nlink: nat,
                        size: nat)
    requires inodestart + inum / 16 < |d|
  {
    var b, at := d[inodestart + inum / 16], inum % 16 * 64;
    && Ushort(b, at) == kind && Ushort(b, at + 2) == major && Ushort(b, at + 4) == minor && Ushort(b, at + 6) == nlink
    && Uint(b, at + 8) == size
  }

  /** A byte of the file of inode `inum`, from the disk alone; a hole reads as zero. */
  function DiskByte(d: seq<Block>, inodestart: nat, inum: nat, k: nat): byte
    requires inodestart + inum / 16 < |d| && k < 268 * 1024
  {
    var b := FileBlock(d, InodeAddrs(d, inodestart, inum), k / 1024);
    if 0 < b < |d| then d[b][k % 1024] else 0
  }

  /** 1 << k */
  function Mask(k: nat): (m: nat)
    requires k < 8
    ensures m > 0
  {
    [1, 2, 4, 8, 16, 32, 64, 128][k]
  }

  /** The free map marks block `b`: 8192 blocks to a block of it, 8 to a byte, the lowest bit first. */
  predicate MapBit(d: seq<Block>, bmapstart: nat, b: nat)
    requires bmapstart + b / 8192 < |d|
  {
    d[bmapstart + b / 8192][b % 8192 / 8] / Mask(b % 8) % 2 == 1
  }

  /** The log's header block counts the entries in its first word and lists them in the next. */
  predicate HeaderBytes(b: Block, entries: seq<nat>) {
    && |entries| < 256 && Uint(b, 0) == |entries|
    && forall i :: 0 <= i < |entries| ==> Uint(b, 4 * (i + 1)) == entries[i]
  }
}
