/**
 Disk blocks as byte strings, with the two views the kernel takes of them:
 little-endian 32-bit words (the log header and indirect blocks) and single
 bits (the free-block bitmap).
 */
module Blocks {
  import opened Collections

  const BSIZE := 1024
  const WORDS := 256            // BSIZE / sizeof(uint)
  const BPB := 8192             // bitmap bits per block
  const UINT_RANGE := 0x1_0000_0000

  type byte = x: int | 0 <= x < 256
  type Block = s: seq<byte> | |s| == BSIZE witness seq(BSIZE, i => 0)

  function ZeroBlock(): (b: Block)
    ensures forall j :: 0 <= j < BSIZE ==> b[j] == 0
    ensures forall j: nat :: j < WORDS ==> Word(b, j) == 0
  {
    seq(BSIZE, i => 0)
  }

  /** The `i`-th uint stored in a block. */
  function Word(b: Block, i: nat): (w: nat)
    requires i < WORDS
    ensures w < UINT_RANGE
  {
    b[4 * i] as int + 0x100 * b[4 * i + 1] as int + 0x1_0000 * b[4 * i + 2] as int + 0x100_0000 * b[4 * i + 3] as int
  }

  lemma WordBytes(w: nat)
    requires w < UINT_RANGE
    ensures w == w % 0x100 + 0x100 * (w / 0x100 % 0x100)
              + 0x1_0000 * (w / 0x1_0000 % 0x100) + 0x100_0000 * (w / 0x100_0000)
    ensures w / 0x100_0000 < 0x100
  {
    var x := w / 0x100;
    var y := x / 0x100;
    assert y == w / 0x1_0000 && y / 0x100 == w / 0x100_0000;
  }

  function PutWord(b: Block, i: nat, w: nat): (r: Block)
    requires i < WORDS && w < UINT_RANGE
    ensures Word(r, i) == w
    ensures forall j: nat :: j < WORDS && j != i ==> Word(r, j) == Word(b, j)
  {
    WordBytes(w);
    b[4 * i := w % 0x100][4 * i + 1 := w / 0x100 % 0x100]
     [4 * i + 2 := w / 0x1_0000 % 0x100][4 * i + 3 := w / 0x100_0000]
  }

  // ----- bitmap bits -----

  /** `x & (1 << k)` is non-zero. */
  predicate ByteBit(x: nat, k: nat) {
    if k == 0 then x % 2 == 1 else ByteBit(x / 2, k - 1)
  }

  predicate Bit(b: Block, i: nat)
    requires i < BPB
  {
    ByteBit(b[i / 8], i % 8)
  }

  /** `x | m` with the bit clear adds the mask; it changes that bit and no other. */
  lemma {:induction false} AddMask(x: nat, k: nat, j: nat)
    requires !ByteBit(x, k)
    ensures ByteBit(x + Pow2(k), j) == (ByteBit(x, j) || j == k)
    decreases k
  {
    if k == 0 {
      assert (x + 1) / 2 == x / 2;
    } else {
      assert (x + Pow2(k)) / 2 == x / 2 + Pow2(k - 1);
      if j > 0 {
        AddMask(x / 2, k - 1, j - 1);
      }
    }
  }

  /** No carry leaves the byte. */
  lemma {:induction false} AddMaskFits(x: nat, k: nat, width: nat)
    requires k < width && x < Pow2(width) && !ByteBit(x, k)
    ensures x + Pow2(k) < Pow2(width)
  {
    var half := Pow2(width - 1);
    assert Pow2(width) == 2 * half;
    if k == 0 {
      assert x == 2 * (x / 2);
    } else {
      assert x / 2 < half;
      AddMaskFits(x / 2, k - 1, width - 1);
    }
  }

  /** `x & ~m` with the bit set subtracts the mask. */
  lemma SubtractMask(x: nat, k: nat, j: nat)
    requires ByteBit(x, k)
    ensures Pow2(k) <= x && ByteBit(x - Pow2(k), j) == (ByteBit(x, j) && j != k)
  {
    ClearedBit(x, k);
    AddMask(x - Pow2(k), k, j);
  }

  lemma {:induction false} ClearedBit(x: nat, k: nat)
    requires ByteBit(x, k)
    ensures Pow2(k) <= x && !ByteBit(x - Pow2(k), k)
  {
    if k > 0 {
      ClearedBit(x / 2, k - 1);
      assert (x - Pow2(k)) / 2 == x / 2 - Pow2(k - 1);
    }
  }

  lemma SetBitEffect(b: Block, i: nat)
    requires i < BPB && !Bit(b, i)
    ensures b[i / 8] + Pow2(i % 8) < 256
    ensures forall j: nat :: j < BPB ==> Bit(b[i / 8 := b[i / 8] + Pow2(i % 8)], j) == (Bit(b, j) || j == i)
  {
    AddMaskFits(b[i / 8], i % 8, 8);
    assert Pow2(8) == 256;
    var r: Block := b[i / 8 := b[i / 8] + Pow2(i % 8)];
    forall j: nat | j < BPB ensures Bit(r, j) == (Bit(b, j) || j == i) {
      AddMask(b[i / 8], i % 8, j % 8);
    }
  }

  function SetBit(b: Block, i: nat): (r: Block)
    requires i < BPB && !Bit(b, i)
    ensures forall j: nat :: j < BPB ==> Bit(r, j) == (Bit(b, j) || j == i)
  {
    SetBitEffect(b, i);
    b[i / 8 := b[i / 8] + Pow2(i % 8)]
  }

  lemma ClearBitEffect(b: Block, i: nat)
    requires i < BPB && Bit(b, i)
    ensures Pow2(i % 8) <= b[i / 8]
    ensures forall j: nat :: j < BPB ==> Bit(b[i / 8 := b[i / 8] - Pow2(i % 8)], j) == (Bit(b, j) && j != i)
  {
    SubtractMask(b[i / 8], i % 8, 0);
    var r: Block := b[i / 8 := b[i / 8] - Pow2(i % 8)];
    forall j: nat | j < BPB ensures Bit(r, j) == (Bit(b, j) && j != i) {
      SubtractMask(b[i / 8], i % 8, j % 8);
    }
  }

  function ClearBit(b: Block, i: nat): (r: Block)
    requires i < BPB && Bit(b, i)
    ensures forall j: nat :: j < BPB ==> Bit(r, j) == (Bit(b, j) && j != i)
  {
    ClearBitEffect(b, i);
    b[i / 8 := b[i / 8] - Pow2(i % 8)]
  }
}
