/**
 What a write allocates and what it logs, as functions of the block references
 before and after: the blocks of the file it touches, the blocks it allocates
 with the bitmap block of each, the indirect block when that is new or gains an
 entry, and the inode block.
 */
module WriteLogs {
  import opened Blocks
  import opened Collections
  import opened FileLayout
  import opened LogRecovery

  // ----- what is allocated -----

  /** `own` has all of `own0`, and everything new is the lowest that was free. */
  ghost predicate Grew(sb: Super, own0: map<nat, Slot>, own: map<nat, Slot>) {
    && (forall b :: b in own0 ==> b in own && own[b] == own0[b])
    && (forall b, c: nat :: b in own && b !in own0 && sb.DataStart() <= c < b ==> c in own)
  }

  ghost function Fresh(own0: map<nat, Slot>, own: map<nat, Slot>): set<nat> {
    own.Keys - own0.Keys
  }

  ghost function Bitmaps(sb: Super, s: set<nat>): set<nat> {
    set b | b in s :: sb.BBlock(b)
  }

  /** An allocation is the indirect block or one of its entries. */
  ghost predicate Listed(own0: map<nat, Slot>, own: map<nat, Slot>) {
    exists b :: b in own && b !in own0 && own[b].pos >= NDIRECT
  }

  /** What allocating logs: each zeroed block and its bitmap block, and the
      indirect block when that is new or gains an entry. */
  ghost function AllocLogs(sb: Super, own0: map<nat, Slot>, own: map<nat, Slot>, a: Addrs): set<nat> {
    Fresh(own0, own) + Bitmaps(sb, Fresh(own0, own)) + if Listed(own0, own) then {a[NDIRECT]} else {}
  }

  lemma AllocNone(sb: Super, own: map<nat, Slot>, a: Addrs)
    ensures Grew(sb, own, own) && Fresh(own, own) == {} && !Listed(own, own) && AllocLogs(sb, own, own, a) == {}
  {
  }

  lemma AllocOne(sb: Super, blocks: Disk, own: map<nat, Slot>, addr: nat, slot: Slot, a: Addrs)
    requires Marked(sb, blocks, own, {}) && addr < sb.size && addr !in own
    requires forall b: nat :: b < addr ==> BitAt(sb, blocks, b)
    ensures var own' := own[addr := slot];
      && Grew(sb, own, own') && Fresh(own, own') == {addr} && (Listed(own, own') <==> slot.pos >= NDIRECT)
      && AllocLogs(sb, own, own', a) == {sb.BBlock(addr), addr} + if slot.pos >= NDIRECT then {a[NDIRECT]} else {}
  {
    var own' := own[addr := slot];
    assert Fresh(own, own') == {addr};
    assert slot.pos >= NDIRECT ==> own'[addr].pos >= NDIRECT;
    assert Bitmaps(sb, {addr}) == {sb.BBlock(addr)};
  }

  /** Allocations add up, the indirect block staying where it is once there. */
  lemma AllocMore(sb: Super, own0: map<nat, Slot>, own1: map<nat, Slot>, own2: map<nat, Slot>, a1: Addrs, a2: Addrs)
    requires Grew(sb, own0, own1) && Grew(sb, own1, own2)
    requires Listed(own0, own1) ==> a1[NDIRECT] == a2[NDIRECT]
    ensures Grew(sb, own0, own2) && Fresh(own0, own2) == Fresh(own0, own1) + Fresh(own1, own2)
    ensures AllocLogs(sb, own0, own2, a2) == AllocLogs(sb, own0, own1, a1) + AllocLogs(sb, own1, own2, a2)
  {
    assert Fresh(own0, own2) == Fresh(own0, own1) + Fresh(own1, own2);
    BitmapsUnion(sb, Fresh(own0, own1), Fresh(own1, own2));
    ListedMore(sb, own0, own1, own2);
  }

  lemma BitmapsUnion(sb: Super, s: set<nat>, t: set<nat>)
    ensures Bitmaps(sb, s + t) == Bitmaps(sb, s) + Bitmaps(sb, t)
  {
  }

  lemma ListedMore(sb: Super, own0: map<nat, Slot>, own1: map<nat, Slot>, own2: map<nat, Slot>)
    requires Grew(sb, own0, own1) && Grew(sb, own1, own2)
    ensures Listed(own0, own2) <==> Listed(own0, own1) || Listed(own1, own2)
  {
    if Listed(own0, own1) {
      var b :| b in own1 && b !in own0 && own1[b].pos >= NDIRECT;
      assert b in own2 && own2[b] == own1[b];
    }
    if Listed(own1, own2) {
      var b :| b in own2 && b !in own1 && own2[b].pos >= NDIRECT;
      assert b !in own0;
    }
  }

  /** Nothing has changed that is not logged. */
  ghost predicate Covered(b0: Disk, b: Disk, l: set<nat>) {
    |b| == |b0| && forall c: nat :: c < |b| && c !in l ==> b[c] == b0[c]
  }

  lemma CoveredNone(b: Disk, l: set<nat>)
    ensures Covered(b, b, l)
  {
  }

  lemma CoveredMore(b0: Disk, b1: Disk, b: Disk, l1: set<nat>, l: set<nat>)
    requires Covered(b0, b1, l1) && Covered(b1, b, l) && l1 <= l
    ensures Covered(b0, b, l)
  {
  }

  lemma AllocatedCovered(sb: Super, blocks: Disk, addr: nat, l: set<nat>)
    requires sb.Fits(|blocks|) && addr < sb.size && !BitAt(sb, blocks, addr) && sb.BBlock(addr) in l && addr in l
    ensures Covered(blocks, WithAllocated(sb, blocks, addr), l)
  {
  }

  // ----- what is touched -----

  /** The file blocks that hold the bytes [off, off + n). */
  function TouchedSet(off: nat, n: nat): (r: set<nat>)
    ensures |r| == Touched(off, n)
    ensures forall c :: c in r <==> n > 0 && off / BSIZE <= c && c * BSIZE < off + n
  {
    if n == 0 then {} else Range(off / BSIZE, (off + n - 1) / BSIZE + 1)
  }

  predicate InFile(s: set<nat>) {
    forall c :: c in s ==> c < MAXFILE
  }

  ghost function DataBlocks(b: Disk, a: Addrs, s: set<nat>): set<nat>
    requires a[NDIRECT] < |b| && InFile(s)
  {
    set c | c in s :: BlockOf(b, a, c)
  }

  lemma DataMore(b: Disk, a: Addrs, s: set<nat>, c: nat)
    requires a[NDIRECT] < |b| && InFile(s) && c < MAXFILE
    ensures InFile(s + {c}) && DataBlocks(b, a, s + {c}) == DataBlocks(b, a, s) + {BlockOf(b, a, c)}
  {
    hide BlockOf;
  }

  lemma DataSame(b1: Disk, a1: Addrs, b: Disk, a: Addrs, s: set<nat>)
    requires a1[NDIRECT] < |b1| && a[NDIRECT] < |b| && InFile(s)
    requires forall c :: c in s ==> BlockOf(b, a, c) == BlockOf(b1, a1, c)
    ensures DataBlocks(b, a, s) == DataBlocks(b1, a1, s)
  {
    hide BlockOf;
  }

  ghost predicate Present(b: Disk, a: Addrs, s: set<nat>)
    requires InFile(s)
  {
    a[NDIRECT] < |b| && forall c :: c in s ==> BlockOf(b, a, c) != 0
  }

  ghost function Absent(b: Disk, a: Addrs, s: set<nat>): (r: set<nat>)
    requires a[NDIRECT] < |b| && InFile(s)
    ensures r <= s && InFile(r)
  {
    set c | c in s && BlockOf(b, a, c) == 0
  }

  lemma TouchedMore(off: nat, tot: nat, bn: nat, at: nat, m: nat)
    requires off + tot == bn * BSIZE + at && at + m <= BSIZE && at < BSIZE && (tot == 0 || at == 0)
    ensures TouchedSet(off, tot + m) == With(TouchedSet(off, tot), bn, m > 0)
    ensures m > 0 ==> bn !in TouchedSet(off, tot)
  {
  }

  lemma TouchedNone(off: nat)
    ensures TouchedSet(off, 0) == {}
  {
  }

  lemma TouchedInFile(off: nat, n: nat)
    requires off + n <= MAXFILE * BSIZE
    ensures InFile(TouchedSet(off, n))
  {
  }

  // ----- writei's loop -----

  /** No block of the file has moved, and only block `bn` may have been added. */
  ghost predicate SameMapBut(b0: Disk, a0: Addrs, b: Disk, a: Addrs, bn: nat) {
    && a0[NDIRECT] < |b0| && a[NDIRECT] < |b|
    && forall c: nat :: c < MAXFILE && (c != bn || BlockOf(b0, a0, c) != 0) ==> BlockOf(b, a, c) == BlockOf(b0, a0, c)
  }

  lemma SameMapStored(b0: Disk, a0: Addrs, b1: Disk, b: Disk, a: Addrs, bn: nat)
    requires SameMapBut(b0, a0, b1, a, bn) && a[NDIRECT] < |b|
    requires forall c: nat :: c < MAXFILE ==> BlockOf(b, a, c) == BlockOf(b1, a, c)
    ensures SameMapBut(b0, a0, b, a, bn)
  {
  }

  /** No block of the file has moved, the blocks `s` are present, and only
      those have been added. */
  ghost predicate MappedMore(b0: Disk, a0: Addrs, b: Disk, a: Addrs, s: set<nat>) {
    && a0[NDIRECT] < |b0| && a[NDIRECT] < |b|
    && (a0[NDIRECT] != 0 ==> a[NDIRECT] == a0[NDIRECT])
    && (forall c: nat :: c < MAXFILE && (c !in s || BlockOf(b0, a0, c) != 0) ==> BlockOf(b, a, c) == BlockOf(b0, a0, c))
    && (forall c: nat :: c < MAXFILE && c in s ==> BlockOf(b, a, c) != 0)
  }

  function With(s: set<nat>, bn: nat, more: bool): set<nat> {
    if more then s + {bn} else s
  }

  lemma WithNone(s: set<nat>, bn: nat)
    ensures With(s, bn, false) == s
  {
  }

  lemma MappedStep(b0: Disk, a0: Addrs, b1: Disk, a1: Addrs, b: Disk, a: Addrs, s: set<nat>, bn: nat)
    requires MappedMore(b0, a0, b1, a1, s) && SameMapBut(b1, a1, b, a, bn) && bn < MAXFILE && bn !in s
    requires a1[NDIRECT] != 0 ==> a[NDIRECT] == a1[NDIRECT]
    ensures MappedMore(b0, a0, b, a, With(s, bn, BlockOf(b, a, bn) != 0)) && BlockOf(b1, a1, bn) == BlockOf(b0, a0, bn)
  {
    hide BlockOf;
  }

  /** The blocks a call of bmap adds to the file. */
  function NewBlocks(was: Addrs, wasBlock: nat, a: Addrs, block: nat): set<nat> {
    (if a[NDIRECT] != was[NDIRECT] then {a[NDIRECT]} else {}) + if wasBlock == 0 && block != 0 then {block} else {}
  }

  /** What has been allocated is exactly the touched blocks that were missing,
      and the indirect block if that is new. */
  ghost predicate FreshIs(own0: map<nat, Slot>, b0: Disk, a0: Addrs, own: map<nat, Slot>, b: Disk, a: Addrs,
                          s: set<nat>)
    requires a0[NDIRECT] < |b0| && a[NDIRECT] < |b| && InFile(s)
  {
    Fresh(own0, own) == DataBlocks(b, a, Absent(b0, a0, s)) + if a[NDIRECT] != a0[NDIRECT] then {a[NDIRECT]} else {}
  }

  /** What writei has mapped, allocated and logged once it has written to the blocks `s`. */
  ghost predicate Progress(sb: Super, own0: map<nat, Slot>, b0: Disk, a0: Addrs, l0: set<nat>,
                           own: map<nat, Slot>, b: Disk, a: Addrs, l: set<nat>, s: set<nat>) {
    && InFile(s) && MappedMore(b0, a0, b, a, s) && Grew(sb, own0, own)
    && (Listed(own0, own) ==> a[NDIRECT] != 0)
    && FreshIs(own0, b0, a0, own, b, a, s)
    && l == l0 + AllocLogs(sb, own0, own, a) + DataBlocks(b, a, s)
    && |b| == |b0| && sb.bmapstart <= |b| && forall c: nat :: c < sb.bmapstart ==> b[c] == b0[c]
  }

  lemma ProgressStep(sb: Super, own0: map<nat, Slot>, b0: Disk, a0: Addrs, l0: set<nat>,
                     own1: map<nat, Slot>, b1: Disk, a1: Addrs, l1: set<nat>,
                     own: map<nat, Slot>, b: Disk, a: Addrs, l: set<nat>, s: set<nat>, bn: nat)
    requires Progress(sb, own0, b0, a0, l0, own1, b1, a1, l1, s) && SameMapBut(b1, a1, b, a, bn)
    requires bn < MAXFILE && bn !in s && a[NDIRECT] < |b| && (a1[NDIRECT] != 0 ==> a[NDIRECT] == a1[NDIRECT])
    requires Grew(sb, own1, own) && Fresh(own1, own) == NewBlocks(a1, BlockOf(b1, a1, bn), a, BlockOf(b, a, bn))
    requires Listed(own1, own) ==> a[NDIRECT] != 0
    requires l == l1 + AllocLogs(sb, own1, own, a) + if BlockOf(b, a, bn) != 0 then {BlockOf(b, a, bn)} else {}
    requires |b| == |b1| && forall c: nat :: c < sb.bmapstart ==> b[c] == b1[c]
    ensures Progress(sb, own0, b0, a0, l0, own, b, a, l, With(s, bn, BlockOf(b, a, bn) != 0))
  {
    hide BlockOf, AllocLogs, SameMapBut, MappedMore, Grew, Fresh, NewBlocks, FreshIs, DataBlocks, Listed, InFile;
    hide Present, With;
    var more := BlockOf(b, a, bn) != 0;
    MappedStep(b0, a0, b1, a1, b, a, s, bn);
    MappedMeans(b0, a0, b1, a1, s);
    AllocMore(sb, own0, own1, own, a1, a);
    ListedMore(sb, own0, own1, own);
    FreshStep(own0, own1, own, b0, a0, b1, a1, b, a, s, bn, more);
    DataStep(b1, a1, b, a, s, bn, more);
  }

  lemma ProgressMeans(sb: Super, own0: map<nat, Slot>, b0: Disk, a0: Addrs, l0: set<nat>,
                      own: map<nat, Slot>, b: Disk, a: Addrs, l: set<nat>, s: set<nat>)
    requires Progress(sb, own0, b0, a0, l0, own, b, a, l, s)
    ensures MappedMore(b0, a0, b, a, s) && |b| == |b0| && forall c: nat :: c < sb.bmapstart ==> b[c] == b0[c]
  {
  }

  lemma MappedMeans(b0: Disk, a0: Addrs, b: Disk, a: Addrs, s: set<nat>)
    requires MappedMore(b0, a0, b, a, s) && InFile(s)
    ensures a0[NDIRECT] < |b0| && Present(b, a, s) && (a0[NDIRECT] != 0 ==> a[NDIRECT] == a0[NDIRECT])
  {
  }

  lemma DataStep(b1: Disk, a1: Addrs, b: Disk, a: Addrs, s: set<nat>, bn: nat, more: bool)
    requires InFile(s) && Present(b1, a1, s) && SameMapBut(b1, a1, b, a, bn) && bn < MAXFILE
    ensures InFile(With(s, bn, more))
    ensures DataBlocks(b, a, With(s, bn, more)) == DataBlocks(b1, a1, s) + if more then {BlockOf(b, a, bn)} else {}
  {
    hide BlockOf, DataBlocks;
    DataSame(b1, a1, b, a, s);
    DataMore(b, a, s, bn);
  }

  lemma AbsentMore(b0: Disk, a0: Addrs, s: set<nat>, bn: nat, more: bool)
    requires a0[NDIRECT] < |b0| && InFile(s) && bn < MAXFILE
    ensures InFile(With(s, bn, more))
    ensures Absent(b0, a0, With(s, bn, more)) == With(Absent(b0, a0, s), bn, more && BlockOf(b0, a0, bn) == 0)
  {
    hide BlockOf;
  }

  lemma FreshStep(own0: map<nat, Slot>, own1: map<nat, Slot>, own: map<nat, Slot>, b0: Disk, a0: Addrs,
                  b1: Disk, a1: Addrs, b: Disk, a: Addrs, s: set<nat>, bn: nat, more: bool)
    requires a0[NDIRECT] < |b0| && InFile(s) && Present(b1, a1, s) && SameMapBut(b1, a1, b, a, bn) && bn < MAXFILE
    requires (a0[NDIRECT] != 0 ==> a1[NDIRECT] == a0[NDIRECT]) && (a1[NDIRECT] != 0 ==> a[NDIRECT] == a1[NDIRECT])
    requires FreshIs(own0, b0, a0, own1, b1, a1, s)
    requires more ==> (BlockOf(b1, a1, bn) == 0 <==> BlockOf(b0, a0, bn) == 0)
    requires more <==> BlockOf(b, a, bn) != 0
    requires Fresh(own1, own) == NewBlocks(a1, BlockOf(b1, a1, bn), a, BlockOf(b, a, bn))
    requires Fresh(own0, own) == Fresh(own0, own1) + Fresh(own1, own)
    ensures InFile(With(s, bn, more)) && FreshIs(own0, b0, a0, own, b, a, With(s, bn, more))
  {
    hide BlockOf, Fresh, Absent, DataBlocks, SameMapBut, Present;
    AbsentMore(b0, a0, s, bn, more);
    StillPresent(b0, a0, b1, a1, s);
    DataStep(b1, a1, b, a, Absent(b0, a0, s), bn, more && BlockOf(b0, a0, bn) == 0);
  }

  lemma StillPresent(b0: Disk, a0: Addrs, b: Disk, a: Addrs, s: set<nat>)
    requires a0[NDIRECT] < |b0| && InFile(s) && Present(b, a, s)
    ensures Present(b, a, Absent(b0, a0, s))
  {
  }

  lemma ProgressNone(sb: Super, blocks: Disk, files: seq<Addrs>, own: map<nat, Slot>, l: set<nat>, i: nat)
    requires Owned(sb, blocks, files, own) && i < |files|
    ensures Progress(sb, own, blocks, files[i], l, own, blocks, files[i], l, {})
  {
    AllocNone(sb, own, files[i]);
    assert DataBlocks(blocks, files[i], {}) == {};
  }

  // ----- how much is logged -----

  /** Everything writei logs. */
  ghost function AllLogs(sb: Super, own0: map<nat, Slot>, own: map<nat, Slot>, b: Disk, a: Addrs,
                         s: set<nat>, inum: nat): set<nat>
    requires a[NDIRECT] < |b| && InFile(s)
  {
    AllocLogs(sb, own0, own, a) + DataBlocks(b, a, s) + {sb.IBlock(inum)}
  }

  /** writei has written to the blocks `s` of inode `i`: what it has mapped and allocated,
      and exactly what it has logged. */
  ghost predicate WriteDone(sb: Super, own0: map<nat, Slot>, b0: Disk, a0: Addrs, l0: set<nat>,
                            own: map<nat, Slot>, b: Disk, a: Addrs, l: set<nat>, s: set<nat>, i: nat) {
    && InFile(s) && MappedMore(b0, a0, b, a, s) && Grew(sb, own0, own)
    && (Listed(own0, own) ==> a[NDIRECT] != 0)
    && FreshIs(own0, b0, a0, own, b, a, s)
    && l == l0 + AllLogs(sb, own0, own, b, a, s, i)
  }

  /** The size of what is logged: the touched blocks, the bitmap blocks the
      allocations come from, the indirect block if it changed, the inode block. */
  lemma LogCount(sb: Super, files: seq<Addrs>, own0: map<nat, Slot>, own: map<nat, Slot>, b0: Disk, a0: Addrs, b: Disk,
                 i: nat, s: set<nat>)
    requires Owned(sb, b, files, own) && i < |files| && i < sb.ninodes && a0[NDIRECT] < |b0|
    requires InFile(s) && Present(b, files[i], s)
    requires FreshIs(own0, b0, a0, own, b, files[i], s) && (Listed(own0, own) ==> files[i][NDIRECT] != 0)
    requires a0[NDIRECT] != 0 ==> files[i][NDIRECT] == a0[NDIRECT]
    ensures |AllLogs(sb, own0, own, b, files[i], s, i)|
         == |s| + |Bitmaps(sb, Fresh(own0, own))| + (if Listed(own0, own) then 1 else 0) + 1
  {
    hide Owned, BlockOf, Fresh, FreshIs, Bitmaps, Listed, DataBlocks, Present, InFile;
    FreshWithin(sb, files, own0, own, b0, a0, b, i, s);
    DataCount(sb, files, own, b, i, s);
    RegionsApart(sb, files, own, b, i, s, Fresh(own0, own));
    var ind: set<nat> := if Listed(own0, own) then {files[i][NDIRECT]} else {};
    FourParts(DataBlocks(b, files[i], s), ind, Fresh(own0, own), Bitmaps(sb, Fresh(own0, own)), sb.IBlock(i));
  }

  lemma FourParts(data: set<nat>, ind: set<nat>, added: set<nat>, maps: set<nat>, inode: nat)
    requires added <= data + ind && data !! ind && data !! maps && ind !! maps
    requires inode !in data && inode !in ind && inode !in maps
    ensures |added + maps + ind + data + {inode}| == |data| + |maps| + |ind| + 1
  {
    assert added + maps + ind + data + {inode} == data + ind + maps + {inode};
    assert |data + ind| == |data| + |ind| && |data + ind + maps| == |data + ind| + |maps|;
  }

  lemma FreshWithin(sb: Super, files: seq<Addrs>, own0: map<nat, Slot>, own: map<nat, Slot>, b0: Disk, a0: Addrs,
                    b: Disk,
                    i: nat, s: set<nat>)
    requires Owned(sb, b, files, own) && i < |files| && a0[NDIRECT] < |b0|
    requires InFile(s) && Present(b, files[i], s)
    requires FreshIs(own0, b0, a0, own, b, files[i], s) && (a0[NDIRECT] != 0 ==> files[i][NDIRECT] == a0[NDIRECT])
    ensures files[i][NDIRECT] < |b|
    ensures Fresh(own0, own) <= DataBlocks(b, files[i], s) + if Listed(own0, own) then {files[i][NDIRECT]} else {}
    ensures forall x :: x in Fresh(own0, own) ==> sb.Fits(|b|) && sb.DataStart() <= x < sb.size
    ensures Fresh(own0, own) == DataBlocks(b, files[i], Absent(b0, a0, s))
                              + if files[i][NDIRECT] != a0[NDIRECT] then {files[i][NDIRECT]} else {}
  {
    hide BlockOf;
    var a := files[i];
    if a[NDIRECT] != a0[NDIRECT] {
      assert a[NDIRECT] in Fresh(own0, own) && Ref(b, a, NDIRECT) == a[NDIRECT] != 0;
      assert own[a[NDIRECT]].pos >= NDIRECT;
    }
  }

  /** Different blocks of a file are different blocks. */
  lemma {:induction false} DataCount(sb: Super, files: seq<Addrs>, own: map<nat, Slot>, b: Disk, i: nat, s: set<nat>)
    requires Owned(sb, b, files, own) && i < |files|
    requires InFile(s) && Present(b, files[i], s)
    ensures |DataBlocks(b, files[i], s)| == |s|
  {
    hide Owned, BlockOf;
    if s == {} {
      assert DataBlocks(b, files[i], s) == {};
    } else {
      var c :| c in s;
      DataCount(sb, files, own, b, i, s - {c});
      forall d | d in s - {c} ensures BlockOf(b, files[i], d) != BlockOf(b, files[i], c) {
        OneEach(sb, files, own, b, i, c, d);
      }
      DataMore(b, files[i], s - {c}, c);
      assert s == s - {c} + {c};
    }
  }

  lemma OneEach(sb: Super, files: seq<Addrs>, own: map<nat, Slot>, b: Disk, i: nat, c: nat, d: nat)
    requires Owned(sb, b, files, own) && i < |files| && c < MAXFILE && d < MAXFILE && c != d
    requires BlockOf(b, files[i], c) != 0
    ensures BlockOf(b, files[i], c) != BlockOf(b, files[i], d) && BlockOf(b, files[i], c) != files[i][NDIRECT]
    ensures sb.DataStart() <= BlockOf(b, files[i], c) < sb.size
  {
    assert own[Ref(b, files[i], Pos(c))] == Slot(i, Pos(c));
    assert Ref(b, files[i], NDIRECT) == files[i][NDIRECT];
  }

  lemma RegionsApart(sb: Super, files: seq<Addrs>, own: map<nat, Slot>, b: Disk, i: nat, s: set<nat>, added: set<nat>)
    requires Owned(sb, b, files, own) && i < |files| && i < sb.ninodes
    requires InFile(s) && Present(b, files[i], s)
    requires forall x :: x in added ==> sb.Fits(|b|) && sb.DataStart() <= x < sb.size
    ensures files[i][NDIRECT] !in DataBlocks(b, files[i], s)
    ensures DataBlocks(b, files[i], s) !! Bitmaps(sb, added) && sb.IBlock(i) !in DataBlocks(b, files[i], s)
    ensures sb.IBlock(i) !in Bitmaps(sb, added)
    ensures files[i][NDIRECT] != 0 ==> files[i][NDIRECT] !in Bitmaps(sb, added) && files[i][NDIRECT] != sb.IBlock(i)
  {
    assert sb.Fits(|b|) && sb.IBlock(i) < sb.bmapstart;
    forall x | x in added ensures sb.bmapstart <= sb.BBlock(x) < sb.DataStart() {
    }
    forall c | c in s
      ensures BlockOf(b, files[i], c) >= sb.DataStart() && BlockOf(b, files[i], c) != files[i][NDIRECT]
    {
      OneEach(sb, files, own, b, i, c, if c == 0 then 1 else 0);
    }
    if files[i][NDIRECT] != 0 {
      IndirectAt(sb, b, files, own, i);
    }
  }

  lemma {:induction false} ImageBound(sb: Super, s: set<nat>)
    ensures |Bitmaps(sb, s)| <= |s|
  {
    if s == {} {
      assert Bitmaps(sb, s) == {};
    } else {
      var x :| x in s;
      ImageBound(sb, s - {x});
      assert Bitmaps(sb, s) == Bitmaps(sb, s - {x}) + {sb.BBlock(x)};
    }
  }

  /** At most one block per block touched, one bitmap block per block that was
      missing, and three for the indirect block, its bitmap block and the inode. */
  lemma LogBound(sb: Super, files: seq<Addrs>, own0: map<nat, Slot>, own: map<nat, Slot>, b0: Disk, a0: Addrs, b: Disk,
                 i: nat, s: set<nat>)
    requires Owned(sb, b, files, own) && i < |files| && i < sb.ninodes && a0[NDIRECT] < |b0|
    requires InFile(s) && Present(b, files[i], s)
    requires FreshIs(own0, b0, a0, own, b, files[i], s) && (Listed(own0, own) ==> files[i][NDIRECT] != 0)
    requires a0[NDIRECT] != 0 ==> files[i][NDIRECT] == a0[NDIRECT]
    ensures |AllLogs(sb, own0, own, b, files[i], s, i)| <= |s| + |Absent(b0, a0, s)| + 3
  {
    hide Owned, BlockOf, Fresh, FreshIs, Listed;
    LogCount(sb, files, own0, own, b0, a0, b, i, s);
    FreshWithin(sb, files, own0, own, b0, a0, b, i, s);
    ImageBound(sb, Fresh(own0, own));
    DataCount(sb, files, own, b, i, Absent(b0, a0, s));
  }

  const MAX_CHUNK := (MAXOPBLOCKS - 1 - 1 - 2) / 2 * BSIZE

  /** filewrite's chunk fits the reservation exactly when it touches three blocks
      or fewer, or finds one of its blocks there. */
  lemma ChunkFitsIff(b: Disk, a: Addrs, off: nat, n: nat)
    requires a[NDIRECT] < |b| && n <= MAX_CHUNK && off + n <= MAXFILE * BSIZE
    ensures InFile(TouchedSet(off, n))
    ensures Touched(off, n) + |Absent(b, a, TouchedSet(off, n))| + 3 <= MAXOPBLOCKS
       <==> Touched(off, n) <= 3 || exists c :: c in TouchedSet(off, n) && BlockOf(b, a, c) != 0
  {
    hide BlockOf;
    TouchedInFile(off, n);
    var s := TouchedSet(off, n);
    var absent := Absent(b, a, s);
    SubsetSize(absent, s);
    if c :| c in s && BlockOf(b, a, c) != 0 {
      SubsetSize(absent, s - {c});
    } else {
      assert absent == s;
    }
  }

  /** On a file without holes an unaligned first block is never missing. */
  lemma ChunkBound(b: Disk, a: Addrs, size: nat, off: nat, n: nat)
    requires HoleFree(b, a, size) && off <= size <= MAXFILE * BSIZE && n <= MAX_CHUNK && off + n <= MAXFILE * BSIZE
    ensures InFile(TouchedSet(off, n))
    ensures Touched(off, n) + |Absent(b, a, TouchedSet(off, n))| + 3 <= MAXOPBLOCKS
  {
    ChunkFitsIff(b, a, off, n);
    if Touched(off, n) > 3 {
      assert off / BSIZE in TouchedSet(off, n) && off / BSIZE * BSIZE < size;
    }
  }
}
