/**
 Physical pages and user address spaces. Memory is kept by use: an allocated
 page is a table of 512 PTEs or a frame of 4096 bytes, and the rest are on the
 free list, linked through the pages themselves.
 */
module VirtualMemory {
  import opened Blocks
  import opened PageTable

  const PGSIZE := 4096

  type Frame = f: seq<byte> | |f| == PGSIZE witness seq(PGSIZE, i => 0)

  function Filled(b: byte): (f: Frame)
    ensures forall i :: 0 <= i < PGSIZE ==> f[i] == b
  {
    seq(PGSIZE, i => b)
  }

  /** flags & ~PTE_U */
  function WithoutU(flags: Flags): (r: Flags)
    ensures r / 16 % 2 == 0 && r % 16 == flags % 16 && r / 32 == flags / 32
  {
    if flags / 16 % 2 == 1 then flags - 16 else flags
  }

  ghost predicate UserMapped(tables: Tables, t: Tree, v: nat) {
    v < MAX_VPN && Lookup(tables, t, v).IsValid() && Lookup(tables, t, v).IsUser()
  }

  ghost predicate UserAddress(tables: Tables, t: Tree, va: nat) {
    UserMapped(tables, t, va / PGSIZE)
  }

  ghost predicate CopiedIn(tables: Tables, t: Tree, frames: map<nat, Frame>, srcva: nat, dst: seq<byte>) {
    forall va: nat :: srcva <= va < srcva + |dst| ==>
      UserAddress(tables, t, va) && dst[va - srcva] == UserByte(tables, t, frames, va)
  }

  lemma CopiedInMore(tables: Tables, t: Tree, frames: map<nat, Frame>, srcva: nat, dst: seq<byte>, v: nat, off: nat,
                     n: nat)
    requires CopiedIn(tables, t, frames, srcva, dst) && UserMapped(tables, t, v) && Lookup(tables, t, v).page in frames
    requires srcva + |dst| == v * PGSIZE + off && off + n <= PGSIZE && off < PGSIZE
    ensures CopiedIn(tables, t, frames, srcva, dst + frames[Lookup(tables, t, v).page][off..off + n])
  {
    hide Lookup;
    var more := frames[Lookup(tables, t, v).page][off..off + n];
    forall va: nat | srcva <= va < srcva + |dst| + n
      ensures UserAddress(tables, t, va) && (dst + more)[va - srcva] == UserByte(tables, t, frames, va)
    {
      if va >= srcva + |dst| {
        assert va / PGSIZE == v && va % PGSIZE == off + (va - srcva - |dst|);
      } else {
        assert UserAddress(tables, t, va);
      }
    }
  }

  /** User pages lie in different frames. */
  ghost predicate UserFrames(tables: Tables, t: Tree, owned: set<nat>) {
    && 0 !in owned
    && (forall v: nat :: UserMapped(tables, t, v) ==> Lookup(tables, t, v).page in owned)
    && (forall v: nat, w: nat :: UserMapped(tables, t, v) && UserMapped(tables, t, w) && v != w ==>
          Lookup(tables, t, v).page != Lookup(tables, t, w).page)
  }

  /** The byte at a user address. */
  ghost function UserByte(tables: Tables, t: Tree, frames: map<nat, Frame>, va: nat): byte {
    if UserMapped(tables, t, va / PGSIZE) && Lookup(tables, t, va / PGSIZE).page in frames
    then frames[Lookup(tables, t, va / PGSIZE).page][va % PGSIZE] else 0
  }

  function SpliceFrame(f: Frame, at: nat, data: seq<byte>): (r: Frame)
    requires at + |data| <= PGSIZE
    ensures forall i :: 0 <= i < PGSIZE ==> r[i] == if at <= i < at + |data| then data[i - at] else f[i]
  {
    f[..at] + data + f[at + |data|..]
  }

  /** Some user page among those holding [dstva, dstva + done) lies in frame `p`. */
  ghost predicate InRange(tables: Tables, t: Tree, dstva: nat, done: nat, p: nat) {
    exists v: nat :: UserMapped(tables, t, v) && dstva / PGSIZE <= v && v * PGSIZE < dstva + done
                  && Lookup(tables, t, v).page == p
  }

  /** `src[..done]` is at dstva; every other user byte, and every frame that no user
      page of the range lies in, is as before. */
  ghost predicate CopiedOut(tables: Tables, t: Tree, frames0: map<nat, Frame>, frames: map<nat, Frame>, dstva: nat,
                            src: seq<byte>, done: nat) {
    && done <= |src| && frames.Keys == frames0.Keys
    && (forall va: nat :: UserByte(tables, t, frames, va) ==
          if dstva <= va < dstva + done then src[va - dstva] else UserByte(tables, t, frames0, va))
    && (forall p :: p in frames && !InRange(tables, t, dstva, done, p) ==> frames[p] == frames0[p])
  }

  lemma NothingCopiedOut(tables: Tables, t: Tree, frames: map<nat, Frame>, dstva: nat, src: seq<byte>)
    ensures CopiedOut(tables, t, frames, frames, dstva, src, 0)
  {
  }

  lemma CopiedMore(tables: Tables, t: Tree, frames0: map<nat, Frame>, frames: map<nat, Frame>, dstva: nat,
                   src: seq<byte>, k: nat, v: nat, off: nat, n: nat)
    requires UserFrames(tables, t, frames.Keys) && CopiedOut(tables, t, frames0, frames, dstva, src, k)
    requires dstva + k == v * PGSIZE + off && off + n <= PGSIZE && k + n <= |src| && n > 0 && UserMapped(tables, t, v)
    ensures var p := Lookup(tables, t, v).page;
      CopiedOut(tables, t, frames0, frames[p := SpliceFrame(frames[p], off, src[k..k + n])], dstva, src, k + n)
  {
    hide Lookup, SpliceFrame;
    var p := Lookup(tables, t, v).page;
    var data := src[k..k + n];
    var frames' := frames[p := SpliceFrame(frames[p], off, data)];
    forall va: nat
      ensures UserByte(tables, t, frames', va)
           == if dstva <= va < dstva + k + n then src[va - dstva] else UserByte(tables, t, frames0, va)
    {
      assert va == va / PGSIZE * PGSIZE + va % PGSIZE;
      assert UserByte(tables, t, frames,
                      va) == if dstva <= va < dstva + k then src[va - dstva] else UserByte(tables, t, frames0, va);
      if va / PGSIZE == v {
        assert off <= va % PGSIZE < off + n ==> data[va % PGSIZE - off] == src[va - dstva];
      } else {
        assert UserByte(tables, t, frames', va) == UserByte(tables, t, frames, va) by {
          assert UserMapped(tables, t, va / PGSIZE) ==> Lookup(tables, t, va / PGSIZE).page != p;
        }
      }
    }
    assert dstva / PGSIZE <= v;
  }

  /** What the copies of pages 0..n should hold. */
  ghost function CopiesOf(tables: Tables, t: Tree, frames: map<nat, Frame>, n: nat): (s: seq<(Flags, Frame)>)
    ensures |s| == n
  {
    seq(n, v requires 0 <= v < n =>
          var e := Lookup(tables, t, v);
          (e.flags, if e.page in frames then frames[e.page] else Filled(0)))
  }

  lemma NothingCopied(tables: Tables, t: Tree, frames: map<nat, Frame>, child: Tree)
    ensures FreshPages(tables, child, frames, tables, child, frames, 0, CopiesOf(tables, t, frames, 0))
  {
  }

  /** The parent's next page, as the loop finds it, is what it was at the start. */
  lemma CopyNext(tables0: Tables, t: Tree, frames0: map<nat, Frame>, n: nat, child0: Tree, tables: Tables, child: Tree,
                 frames: map<nat, Frame>, v: nat)
    requires UserPages(tables0, t, frames0.Keys, 0, n) && v < n && SameMap(tables0, t, tables, t)
    requires FreshPages(tables0, child0, frames0, tables, child, frames, 0, CopiesOf(tables0, t, frames0, v))
    ensures var e := Lookup(tables, t, v);
      && v < MAX_VPN && e.IsValid() && e.page in frames
      && CopiesOf(tables0, t, frames0, v + 1) == CopiesOf(tables0, t, frames0, v) + [(e.flags, frames[e.page])]
  {
  }

  lemma CopiesValid(tables: Tables, t: Tree, frames: map<nat, Frame>, n: nat, v: nat)
    requires UserPages(tables, t, frames.Keys, 0, n) && v <= n
    ensures forall i :: 0 <= i < v ==>
              CopiesOf(tables, t, frames, v)[i].0 % 2 == 1 && CopiesOf(tables, t, frames, v)[i].0 != PTE_V
  {
  }

  /** PGROUNDUP(sz) / PGSIZE */
  function PageUp(sz: nat): nat {
    (sz + PGSIZE - 1) / PGSIZE
  }

  function ZeroPages(flags: Flags, n: nat): (s: seq<(Flags, Frame)>) {
    seq(n, i => (WithV(flags), Filled(0)))
  }

  /** Pages first.. have been mapped to frames new since `frames0`, with the flags
      and contents wanted; no other mapping and no older frame has changed. */
  ghost predicate FreshPages(tables0: Tables, t0: Tree, frames0: map<nat, Frame>,
                             tables: Tables, t: Tree, frames: map<nat, Frame>, first: nat, want: seq<(Flags, Frame)>) {
    && (forall v: nat :: v < MAX_VPN && !(first <= v < first + |want|) ==>
          Lookup(tables, t, v) == Lookup(tables0, t0, v))
    && (forall v: nat :: first <= v < first + |want| ==>
          var e := Lookup(tables, t, v);
          e.flags == want[v - first].0 && e.page in frames && e.page !in frames0 && frames[e.page] == want[v - first].1)
    && (forall v: nat, w: nat :: first <= v < w < first + |want| ==>
          Lookup(tables, t, v).page != Lookup(tables, t, w).page)
    && frames.Keys == frames0.Keys + FramesOf(tables, t, first, |want|)
    && (forall p :: p in frames0 ==> p in frames && frames[p] == frames0[p])
  }

  lemma NothingFresh(tables: Tables, t: Tree, frames: map<nat, Frame>, first: nat)
    ensures FreshPages(tables, t, frames, tables, t, frames, first, ZeroPages(0, 0))
    ensures forall flags: Flags {:trigger ZeroPages(flags, 0)} :: ZeroPages(flags, 0) == ZeroPages(0, 0) == []
  {
  }

  /** The next page is as it was at first. */
  lemma FreshNext(tables0: Tables, t0: Tree, frames0: map<nat, Frame>, tables: Tables, t: Tree, frames: map<nat, Frame>,
                  first: nat, want: seq<(Flags, Frame)>)
    requires FreshPages(tables0, t0, frames0, tables, t, frames, first, want) && first + |want| < MAX_VPN
    ensures Lookup(tables, t, first + |want|) == Lookup(tables0, t0, first + |want|)
  {
  }

  lemma FreshSame(tables0: Tables, t0: Tree, frames0: map<nat, Frame>, tables1: Tables, t1: Tree, tables: Tables,
                  t: Tree,
                  frames: map<nat, Frame>, first: nat, want: seq<(Flags, Frame)>)
    requires FreshPages(tables0, t0, frames0, tables1, t1, frames, first, want) && SameMap(tables1, t1, tables, t)
    requires first + |want| <= MAX_VPN
    ensures FreshPages(tables0, t0, frames0, tables, t, frames, first, want)
  {
    hide Lookup;
    FramesOfSame(tables1, t1, tables, t, first, |want|);
  }

  lemma FreshPagesStep(tables0: Tables, t0: Tree, frames0: map<nat, Frame>, tables1: Tables, t1: Tree,
                       frames1: map<nat, Frame>,
                       tables: Tables, t: Tree, first: nat,
                       want: seq<(Flags, Frame)>, flags: Flags, data: Frame, p: nat)
    requires FreshPages(tables0, t0, frames0, tables1, t1, frames1, first, want) && p !in frames1
    requires first + |want| < MAX_VPN
    requires MappedOne(tables1, t1, tables, t, first + |want|, Pte(p, flags))
    ensures FreshPages(tables0, t0, frames0, tables, t, frames1[p := data], first, want + [(flags, data)])
  {
    hide Lookup, FramesOf;
    var n := |want|;
    assert Lookup(tables, t, first + n) == Pte(p, flags);
    assert forall v: nat :: first <= v < first + n ==> Lookup(tables, t, v) == Lookup(tables1, t1, v);
    FramesOfSame(tables1, t1, tables, t, first, n);
    FramesOfMore(tables, t, first, n);
    var want', frames := want + [(flags, data)], frames1[p := data];
    forall v: nat | first <= v < first + n + 1
      ensures var e := Lookup(tables, t, v);
        e.flags == want'[v - first].0 && e.page in frames && e.page !in frames0 && frames[e.page] == want'[v - first].1
    {
    }
  }

  lemma NotYetCleared(tables0: Tables, t: Tree, tables: Tables, first: nat, k: nat)
    requires Cleared(tables0, t, tables, t, first, k) && first + k < MAX_VPN
    ensures Lookup(tables, t, first + k) == Lookup(tables0, t, first + k)
  {
  }

  lemma NothingCleared(tables: Tables, t: Tree, first: nat)
    ensures Cleared(tables, t, tables, t, first, 0) && FramesOf(tables, t, first, 0) == {}
  {
  }

  lemma UserPagesMean(tables: Tables, t: Tree, owned: set<nat>, first: nat, n: nat)
    requires UserPages(tables, t, owned, first, n)
    ensures first + n <= MAX_VPN
    ensures forall v: nat :: first <= v < first + n ==>
              Lookup(tables, t, v).IsValid() && Lookup(tables, t, v).flags != PTE_V
  {
  }

  lemma FramesOfMore(tables: Tables, t: Tree, first: nat, n: nat)
    ensures FramesOf(tables, t, first, n + 1) == FramesOf(tables, t, first, n) + {Lookup(tables, t, first + n).page}
  {
  }

  lemma FreshPagesUndone(tables0: Tables, t0: Tree, frames0: map<nat, Frame>, tables: Tables, t: Tree,
                         frames: map<nat, Frame>,
                         first: nat, want: seq<(Flags, Frame)>)
    requires FreshPages(tables0, t0, frames0, tables, t, frames, first, want) && first + |want| <= MAX_VPN
    requires forall i :: 0 <= i < |want| ==> want[i].0 % 2 == 1 && want[i].0 != PTE_V
    ensures UserPages(tables, t, frames.Keys, first, |want|)
    ensures frames - FramesOf(tables, t, first, |want|) == frames0
  {
    hide Lookup;
    forall p | p in frames0 ensures p !in FramesOf(tables, t, first, |want|) {
      FramesOfIff(tables, t, first, |want|, p);
    }
  }

  // ----- what the user can reach -----

  /** Pages uvmalloc adds are the user's, whatever the permissions asked for, and read as zero. */
  lemma FreshUser(tables0: Tables, t0: Tree, frames0: map<nat, Frame>, tables: Tables, t: Tree, frames: map<nat, Frame>,
                  first: nat, xperm: Flags, n: nat)
    requires xperm in {0, PTE_W, PTE_X, PTE_W + PTE_X} && first + n <= MAX_VPN
    requires FreshPages(tables0, t0, frames0, tables, t, frames, first, ZeroPages(PTE_R + PTE_U + xperm, n))
    ensures forall v: nat :: first <= v < first + n ==> UserMapped(tables, t, v)
    ensures forall v: nat :: !(first <= v < first + n) ==> (UserMapped(tables, t, v) <==> UserMapped(tables0, t0, v))
    ensures forall va: nat :: first <= va / PGSIZE < first + n ==> UserByte(tables, t, frames, va) == 0
  {
    hide Lookup, FramesOf;
  }

  /** Frames new to the allocator cannot be a user page's already. */
  lemma FreshFrames(tables0: Tables, t0: Tree, frames0: map<nat, Frame>, tables: Tables, t: Tree,
                    frames: map<nat, Frame>, first: nat, want: seq<(Flags, Frame)>)
    requires FreshPages(tables0, t0, frames0, tables, t, frames, first, want) && first + |want| <= MAX_VPN
    requires UserFrames(tables0, t0, frames0.Keys) && 0 !in frames
    ensures UserFrames(tables, t, frames.Keys)
  {
    hide Lookup, FramesOf;
    forall v: nat | UserMapped(tables, t, v)
      ensures Lookup(tables, t, v).page in frames
      ensures first <= v < first + |want| <==> Lookup(tables, t, v).page !in frames0
    {
      assert !(first <= v < first + |want|) ==> UserMapped(tables0, t0, v);
    }
    forall v: nat, w: nat | UserMapped(tables, t, v) && UserMapped(tables, t, w) && v != w
      ensures Lookup(tables, t, v).page != Lookup(tables, t, w).page
    {
      assert !(first <= v < first + |want|) ==> UserMapped(tables0, t0, v);
      assert !(first <= w < first + |want|) ==> UserMapped(tables0, t0, w);
    }
  }

  lemma SameUser(tables0: Tables, t0: Tree, tables: Tables, t: Tree, owned: set<nat>)
    requires SameMap(tables0, t0, tables, t)
    ensures forall v: nat :: UserMapped(tables, t, v) <==> UserMapped(tables0, t0, v)
    ensures UserFrames(tables0, t0, owned) ==> UserFrames(tables, t, owned)
  {
    hide Lookup;
    assert forall v: nat :: UserMapped(tables, t, v) <==> UserMapped(tables0, t0, v);
  }

  /** A page with U cleared is not the user's; every other page is if it was. */
  lemma ClearedUser(tables0: Tables, tables: Tables, t: Tree, v: nat, owned: set<nat>)
    requires var e := Lookup(tables0, t, v); MappedOne(tables0, t, tables, t, v, e.(flags := WithoutU(e.flags)))
    ensures forall w: nat :: UserMapped(tables, t, w) <==> w != v && UserMapped(tables0, t, w)
    ensures UserFrames(tables0, t, owned) ==> UserFrames(tables, t, owned)
  {
    hide Lookup;
    assert forall w: nat :: UserMapped(tables, t, w) ==> w != v && Lookup(tables, t, w) == Lookup(tables0, t, w);
  }

  /** Following `next` from `head` gives `list`, whose distinct members are `free`. */
  ghost predicate FreeList(list: seq<nat>, head: nat, next: map<nat, nat>, free: set<nat>) {
    if list == [] then head == 0 && free == {}
    else head == list[0] && head != 0 && head in free && head in next && FreeList(list[1..], next[head], next,
                                                                                  free - {head})
  }

  lemma {:induction false} FreeListFrame(list: seq<nat>, head: nat, next: map<nat, nat>, free: set<nat>, p: nat, q: nat)
    requires FreeList(list, head, next, free) && p !in free
    ensures FreeList(list, head, next[p := q], free)
  {
    if list != [] {
      FreeListFrame(list[1..], next[head], next, free - {head}, p, q);
    }
  }

  lemma FreeListPush(list: seq<nat>, head: nat, next: map<nat, nat>, free: set<nat>, p: nat)
    requires FreeList(list, head, next, free) && p !in free && p != 0
    ensures FreeList([p] + list, p, next[p := head], free + {p})
  {
    FreeListFrame(list, head, next, free, p, head);
    assert ([p] + list)[1..] == list && free + {p} - {p} == free;
  }

  lemma FreeListPop(list: seq<nat>, head: nat, next: map<nat, nat>, free: set<nat>)
    requires FreeList(list, head, next, free)
    ensures head == 0 <==> free == {}
    ensures head != 0 ==>
              list != [] && head in next && head in free && FreeList(list[1..], next[head], next, free - {head})
  {
  }

  /** A process's page table; `tree` records the table pages it is made of. */
  class AddressSpace {
    const root: nat
    ghost var tree: Tree

    constructor (r: nat, ghost t: Tree)
      ensures root == r && tree == t
    {
      root, tree := r, t;
    }
  }

  class Memory {
    const lo: nat    // pages lo..hi are the allocator's
    const hi: nat
    var freelist: nat
    var next: map<nat, nat>
    var words: map<nat, Words>  // the table pages
    var frames: map<nat, Frame>
    ghost var tables: Tables   // the table pages, each PTE unpacked
    ghost var list: seq<nat>   // the free list in order
    ghost var free: set<nat>

    /** Free, table and data pages are disjoint pages of the allocator. */
    ghost predicate Valid()
      reads this
    {
      && FreeList(list, freelist, next, free) && lo > 0 && Packed(words, tables)
      && (forall p :: p in free ==> lo <= p < hi && p !in tables && p !in frames)
      && (forall p :: p in tables ==> lo <= p < hi && p !in frames)
      && (forall p :: p in frames ==> lo <= p < hi)
    }

    /** Every page the allocator has given out or keeps. */
    ghost function All(): set<nat>
      reads this
    {
      free + tables.Keys + frames.Keys
    }

    constructor (l: nat, h: nat)
      requires 0 < l <= h
      ensures Valid() && lo == l && hi == h && tables == map[] && frames == map[] && All() == {}
    {
      lo, hi, freelist, next, words, tables, frames, list, free := l, h, 0, map[], map[], map[], map[], [], {};
    }

    /** freerange: hand the pages from..to to the allocator, none of which it has. */
    method Freerange(from: nat, to: nat)
      requires Valid() && lo <= from <= to <= hi
      requires forall p :: from <= p < to ==> p !in free && p !in tables && p !in frames
      modifies this`freelist, this`next, this`list, this`free
      ensures Valid() && forall p :: p in free <==> p in old(free) || from <= p < to
    {
      for p := from to to
        invariant Valid() && forall q :: q in free <==> q in old(free) || from <= q < p
      {
        Push(p);
      }
    }

    /** The list part of kfree. */
    method Push(p: nat)
      requires Valid() && lo <= p < hi && p !in free && p !in tables && p !in frames
      modifies this`freelist, this`next, this`list, this`free
      ensures Valid() && free == old(free) + {p}
    {
      FreeListPush(list, freelist, next, free, p);
      next := next[p := freelist];
      freelist := p;
      list := [p] + list;
      free := free + {p};
    }

    /** kfree; the range check that panics is met by every page in use. */
    method Kfree(p: nat)
      requires Valid() && (p in tables || p in frames)
      modifies this
      ensures Valid() && free == old(free) + {p} && tables == old(tables) - {p} && frames == old(frames) - {p}
      ensures All() == old(All())
      ensures p !in old(tables) ==> tables == old(tables)
    {
      hide FreeList, Packed;
      PackedWithout(words, tables, p);
      words, tables := words - {p}, tables - {p};
      frames := frames - {p};
      Push(p);
    }

    /** kalloc: 0 when no page is free. */
    method Kalloc() returns (p: nat)
      requires Valid()
      modifies this
      ensures Valid() && tables == old(tables) && All() == old(All())
      ensures p == 0 <==> old(free) == {}
      ensures p == 0 ==> unchanged(this)
      ensures p != 0 ==> p in old(free) && free == old(free) - {p} && frames == old(frames)[p := Filled(5)]
    {
      FreeListPop(list, freelist, next, free);
      hide FreeList, Packed;
      p := freelist;
      if p != 0 {
        freelist := next[p];
        list := list[1..];
        free := free - {p};
        frames := frames[p := Filled(5)];
      }
    }

    /** memset(page, 0, PGSIZE) of a page about to become a table. */
    method MakeTable(p: nat)
      requires Valid() && p in frames
      modifies this`words, this`tables, this`frames
      ensures Valid() && tables == old(tables)[p := ZeroTable()] && frames == old(frames) - {p} && All() == old(All())
    {
      hide FreeList, Packed;
      PackedNew(words, tables, p);
      frames := frames - {p};
      words, tables := words[p := ZeroWords()], tables[p := ZeroTable()];
    }

    /** The PTE at an index of a table page. */
    method ReadPte(page: nat, i: nat) returns (e: Pte)
      requires Valid() && page in tables && i < ENTRIES
      ensures e == tables[page][i]
    {
      hide FreeList, Packed, Encode, Decode;
      PackedAt(words, tables, page, i);
      e := Decode(words[page][i]);
    }

    method WritePte(page: nat, i: nat, e: Pte)
      requires Valid() && page in tables && i < ENTRIES
      modifies this`words, this`tables
      ensures Valid() && tables == old(tables)[page := old(tables)[page][i := e]] && All() == old(All())
    {
      hide FreeList, Packed, Encode;
      PackedSet(words, tables, page, i, e);
      words := words[page := words[page][i := Encode(e)]];
      tables := tables[page := tables[page][i := e]];
    }

    /** walk's loop body: to the next lower table, made if missing and asked for. */
    method Descend(a: AddressSpace, level: nat, page: nat, vpn: nat, alloc: bool) returns (child: nat)
      requires Valid() && Wellformed(tables, a.tree) && vpn < MAX_VPN && 1 <= level <= 2
      requires AtLevel(a.tree, level, vpn, page)
      modifies this, a`tree
      ensures Valid() && Wellformed(tables, a.tree) && All() == old(All()) && frames == old(frames) && free <= old(free)
      ensures Grown(old(tables), old(a.tree), tables, a.tree) && SameMap(old(tables), old(a.tree), tables, a.tree)
      ensures child != 0 ==> AtLevel(a.tree, level - 1, vpn, child)
      ensures child == 0 ==>
                tables == old(tables) && a.tree == old(a.tree) && (alloc ==> free == {})
                && (Px2(vpn), Px1(vpn)) !in a.tree.low
      ensures !alloc ==> unchanged(this) && a.tree == old(a.tree)
    {
      hide FreeList, Packed, Wellformed, Lookup, Px2, Px1, ZeroTable, AtLevel, Grown, SameMap;
      EntryMeans(tables, a.tree, level, vpn, page);
      GrownReflexive(tables, a.tree);
      var e := ReadPte(page, Px(level, vpn));
      if e.IsValid() {
        return e.page;
      }
      child := 0;
      if alloc {
        child := AddTable(a, level, page, vpn);
      }
    }

    method AddTable(a: AddressSpace, level: nat, page: nat, vpn: nat) returns (child: nat)
      requires Valid() && Wellformed(tables, a.tree) && vpn < MAX_VPN && 1 <= level <= 2
      requires AtLevel(a.tree, level, vpn, page)
      requires page in tables && !tables[page][Px(level, vpn)].IsValid()
      modifies this, a`tree
      ensures Valid() && Wellformed(tables, a.tree) && All() == old(All()) && frames == old(frames) && free <= old(free)
      ensures Grown(old(tables), old(a.tree), tables, a.tree) && SameMap(old(tables), old(a.tree), tables, a.tree)
      ensures child != 0 ==> AtLevel(a.tree, level - 1, vpn, child)
      ensures child == 0 ==> unchanged(this) && a.tree == old(a.tree) && free == {}
    {
      hide FreeList, Packed, Wellformed, Lookup, Px2, Px1, Px0, Px, ZeroTable, AtLevel, Grown, SameMap, Extended;
      hide Filled;
      GrownReflexive(tables, a.tree);
      child := Kalloc();
      if child != 0 {
        TableAdded(tables, a.tree, level, vpn, page, child);
        MakeTable(child);
        WritePte(page, Px(level, vpn), Pte(child, PTE_V));
        a.tree := Extended(a.tree, level, vpn, child);
      }
    }

    /** walk: the lowest table for the page, or 0. */
    method Walk(a: AddressSpace, vpn: nat, alloc: bool) returns (page: nat)
      requires Valid() && Wellformed(tables, a.tree) && a.root == a.tree.root && vpn < MAX_VPN
      modifies this, a`tree
      ensures Valid() && Wellformed(tables, a.tree) && a.root == a.tree.root && All() == old(All())
      ensures frames == old(frames)
      ensures Grown(old(tables), old(a.tree), tables, a.tree) && SameMap(old(tables), old(a.tree), tables, a.tree)
      ensures page != 0 ==> AtLevel(a.tree, 0, vpn, page)
      ensures page == 0 ==> (alloc ==> free == {}) && (Px2(vpn), Px1(vpn)) !in a.tree.low
      ensures !alloc ==> unchanged(this) && a.tree == old(a.tree)
    {
      assert a.root in tables && a.root != 0;
      hide FreeList, Packed, Wellformed, Lookup, Px2, Px1, SameMap;
      GrownReflexive(tables, a.tree);
      page := a.root;
      var level := 2;
      while level > 0
        invariant 0 <= level <= 2 && AtLevel(a.tree, level, vpn, page) && page != 0
        invariant Valid() && Wellformed(tables, a.tree) && All() == old(All()) && frames == old(frames)
        invariant Grown(old(tables), old(a.tree), tables, a.tree) && SameMap(old(tables), old(a.tree), tables, a.tree)
        invariant !alloc ==> unchanged(this) && a.tree == old(a.tree)
        decreases level
      {
        ghost var t1, tree1 := tables, a.tree;
        page := Descend(a, level, page, vpn, alloc);
        GrownTransitive(old(tables), old(a.tree), t1, tree1, tables, a.tree);
        SameMapTransitive(old(tables), old(a.tree), t1, tree1, tables, a.tree);
        if page == 0 {
          return;
        }
        level := level - 1;
      }
    }

    /** Store through the pointer walk returned. */
    method SetPte(a: AddressSpace, vpn: nat, page: nat, e: Pte)
      requires Valid() && Wellformed(tables, a.tree) && vpn < MAX_VPN && AtLevel(a.tree, 0, vpn, page)
      modifies this`words, this`tables
      ensures Valid() && Wellformed(tables, a.tree) && All() == old(All())
      ensures MappedOne(old(tables), a.tree, tables, a.tree, vpn, e) && Grown(old(tables), a.tree, tables, a.tree)
    {
      hide FreeList, Packed, Wellformed, MappedOne, AtLevel, Grown;
      LeafStored(tables, a.tree, vpn, page, e);
      WritePte(page, Px0(vpn), e);
    }

    /** One iteration of mappages. */
    method MapOne(a: AddressSpace, vpn: nat, page: nat, perm: Flags) returns (ok: bool)
      requires Valid() && Wellformed(tables, a.tree) && a.root == a.tree.root && vpn < MAX_VPN
      requires !Lookup(tables, a.tree, vpn).IsValid()
      modifies this, a`tree
      ensures Valid() && Wellformed(tables, a.tree) && a.root == a.tree.root && All() == old(All())
      ensures frames == old(frames)
      ensures Grown(old(tables), old(a.tree), tables, a.tree)
      ensures ok ==> MappedOne(old(tables), old(a.tree), tables, a.tree, vpn, Pte(page, WithV(perm)))
      ensures !ok ==> SameMap(old(tables), old(a.tree), tables, a.tree) && free == {}
    {
      hide FreeList, Packed, Wellformed, AtLevel, Grown, Lookup;
      var t := Walk(a, vpn, true);
      if t == 0 {
        return false;
      }
      ghost var t1 := tables;
      SetPte(a, vpn, t, Pte(page, WithV(perm)));
      GrownTransitive(old(tables), old(a.tree), t1, a.tree, tables, a.tree);
      return true;
    }

    /** mappages, for a range of pages not yet mapped; `done` of them have been mapped. */
    method Mappages(a: AddressSpace, va: nat, size: nat, page: nat, perm: Flags) returns (ok: bool, ghost done: nat)
      requires Valid() && Wellformed(tables, a.tree) && a.root == a.tree.root && 0 < size
      requires va + size <= MAX_VPN * PGSIZE
      requires forall v: nat :: va / PGSIZE <= v <= (va + size - 1) / PGSIZE ==> !Lookup(tables, a.tree, v).IsValid()
      modifies this, a`tree
      ensures Valid() && Wellformed(tables, a.tree) && a.root == a.tree.root && All() == old(All())
      ensures frames == old(frames)
      ensures Grown(old(tables), old(a.tree), tables, a.tree)
      ensures MappedRange(old(tables), old(a.tree), tables, a.tree, va / PGSIZE, done, page, WithV(perm))
      ensures ok ==> done == (va + size - 1) / PGSIZE - va / PGSIZE + 1
      ensures !ok ==> free == {} && done < (va + size - 1) / PGSIZE - va / PGSIZE + 1
    {
      hide FreeList, Packed, Wellformed, Grown, Lookup;
      GrownReflexive(tables, a.tree);
      var v, last := va / PGSIZE, (va + size - 1) / PGSIZE;
      ghost var first := v;
      done := 0;
      while true
        invariant first <= v <= last < MAX_VPN && done == v - first
        invariant Valid() && Wellformed(tables, a.tree) && a.root == a.tree.root && All() == old(All())
        invariant frames == old(frames)
        invariant Grown(old(tables), old(a.tree), tables, a.tree)
        invariant MappedRange(old(tables), old(a.tree), tables, a.tree, first, done, page, WithV(perm))
        decreases last - v
      {
        ghost var t1, tree1 := tables, a.tree;
        var mapped := MapOne(a, v, page + (v - va / PGSIZE), perm);
        GrownTransitive(old(tables), old(a.tree), t1, tree1, tables, a.tree);
        if !mapped {
          return false, done;
        }
        done := done + 1;
        if v == last {
          return true, done;
        }
        v := v + 1;
      }
    }

    /** uvmcreate: null when no page is free. */
    method Uvmcreate() returns (a: AddressSpace?)
      requires Valid()
      modifies this
      ensures Valid() && All() == old(All()) && frames == old(frames)
      ensures a == null <==> old(free) == {}
      ensures a != null ==>
                fresh(a) && a.root == a.tree.root && Wellformed(tables, a.tree) && a.tree.Pages() == {a.root}
      ensures a != null ==>
                a.root in old(free) && tables.Keys == old(tables).Keys + {a.root} && free == old(free) - {a.root}
      ensures a != null ==> forall v: nat :: Lookup(tables, a.tree, v) == NO_PTE
      ensures forall p :: p in old(tables) ==> p in tables && tables[p] == old(tables)[p]
    {
      hide FreeList, Packed, ZeroTable;
      var p := Kalloc();
      if p == 0 {
        return null;
      }
      MakeTable(p);
      a := new AddressSpace(p, Tree(p, map[], map[], map[p := Root]));
    }

    /** freewalk, of a table with no leaves left below it. */
    method Freewalk(page: nat, ghost level: nat)
      requires Valid() && Bare(tables, page, level)
      modifies this
      ensures Valid() && frames == old(frames) && All() == old(All())
      ensures tables == old(tables) - Under(old(tables), page, level)
      ensures free == old(free) + Under(old(tables), page, level)
      decreases level
    {
      ghost var before := tables;
      hide FreeList, Packed, Under, UnderFirst, FreedBy, WalkedFirst;
      FreedByEnds(tables, page, level);
      WalkedNothing(tables, page);
      for i := 0 to ENTRIES
        invariant Valid() && frames == old(frames) && All() == old(All())
        invariant WalkedFirst(before, tables, page, i, FreedBy(before, page, level, i))
        invariant free == old(free) + FreedBy(before, page, level, i)
      {
        NextChild(before, tables, page, level, i);
        hide Bare;
        var pte := ReadPte(page, i);
        if pte.IsValid() {
          assert !pte.IsLeaf();    // where freewalk would panic
          ghost var t1, below := tables, Under(tables, pte.page, level - 1);
          Freewalk(pte.page, level - 1);
          WritePte(page, i, NO_PTE);
          WalkedNext(before, t1, page, i, FreedBy(before, page, level, i), below);
        }
      }
      WalkedAll(before, tables, page, FreedBy(before, page, level, ENTRIES));
      Kfree(page);
    }

    /** uvmfree of an address space that maps just the pages of 0..sz. */
    method Uvmfree(a: AddressSpace, sz: nat)
      requires Valid() && Wellformed(tables, a.tree) && a.root == a.tree.root && sz <= MAX_VPN * PGSIZE
      requires UserPages(tables, a.tree, frames.Keys, 0, PageUp(sz))
      requires forall v: nat :: PageUp(sz) <= v < MAX_VPN ==> !Lookup(tables, a.tree, v).IsValid()
      modifies this, a`tree
      ensures Valid() && All() == old(All())
      ensures tables == old(tables) - old(a.tree).Pages()
      ensures frames == old(frames) - FramesOf(old(tables), old(a.tree), 0, PageUp(sz))
      ensures free == old(free) + old(a.tree).Pages() + FramesOf(old(tables), old(a.tree), 0, PageUp(sz))
    {
      hide FreeList, Packed, Wellformed, Lookup, Under, Bare;
      if sz > 0 {
        Uvmunmap(a, 0, PageUp(sz), true);
      }
      TreeBare(tables, a.tree);
      Freewalk(a.root, 2);
    }

    /** uvmunmap of pages that are mapped by leaves; its panics are the requires clauses. */
    method Uvmunmap(a: AddressSpace, first: nat, npages: nat, doFree: bool)
      requires Valid() && Wellformed(tables, a.tree) && a.root == a.tree.root && first + npages <= MAX_VPN
      requires forall v: nat :: first <= v < first + npages ==>
                 Lookup(tables, a.tree, v).IsValid() && Lookup(tables, a.tree, v).flags != PTE_V
      requires doFree ==> UserPages(tables, a.tree, frames.Keys, first, npages)
      modifies this, a`tree
      ensures Valid() && Wellformed(tables, a.tree) && a.tree == old(a.tree) && All() == old(All())
      ensures Cleared(old(tables), a.tree, tables, a.tree, first, npages) && Grown(old(tables), a.tree, tables, a.tree)
      ensures var gone := if doFree then FramesOf(old(tables), a.tree, first, npages) else {};
        frames == old(frames) - gone && free == old(free) + gone
    {
      hide FreeList, Packed, Wellformed, Lookup, Grown, UserPages, Cleared, MappedOne;
      NothingCleared(tables, a.tree, first);
      GrownReflexive(tables, a.tree);
      for k := 0 to npages
        invariant Valid() && Wellformed(tables, a.tree) && a.tree == old(a.tree) && All() == old(All())
        invariant Cleared(old(tables), a.tree, tables, a.tree, first, k) && Grown(old(tables), a.tree, tables, a.tree)
        invariant var gone := if doFree then FramesOf(old(tables), a.tree, first, k) else {};
          frames == old(frames) - gone && free == old(free) + gone
      {
        if doFree {
          StillOwned(old(tables), a.tree, old(frames).Keys, first, npages, k);
        }
        ghost var t1 := tables;
        NotYetCleared(old(tables), a.tree, tables, first, k);
        UnmapOne(a, first + k, doFree);
        ClearedMore(old(tables), a.tree, t1, tables, first, k);
        GrownTransitive(old(tables), a.tree, t1, a.tree, tables, a.tree);
      }
    }

    /** The body of uvmunmap's loop. */
    method UnmapOne(a: AddressSpace, v: nat, doFree: bool)
      requires Valid() && Wellformed(tables, a.tree) && a.root == a.tree.root && v < MAX_VPN
      requires Lookup(tables, a.tree, v).IsValid()
      requires doFree ==> Lookup(tables, a.tree, v).page in frames
      modifies this, a`tree
      ensures Valid() && Wellformed(tables, a.tree) && a.tree == old(a.tree) && All() == old(All())
      ensures MappedOne(old(tables), a.tree, tables, a.tree, v, NO_PTE) && Grown(old(tables), a.tree, tables, a.tree)
      ensures var gone := if doFree then {old(Lookup(tables, a.tree, v)).page} else {};
        frames == old(frames) - gone && free == old(free) + gone
    {
      hide FreeList, Packed, Wellformed, Lookup, Grown, MappedOne, AtLevel, Px2, Px1, Px0, FramesOf;
      ValidReached(tables, a.tree, v);
      var t := FindPte(a, v);
      if doFree {
        var e := ReadPte(t, Px0(v));
        Kfree(e.page);
        assert tables == old(tables);
      }
      SetPte(a, v, t, NO_PTE);
    }

    /** walk(pagetable, va, 0) where the page has an entry. */
    method FindPte(a: AddressSpace, v: nat) returns (t: nat)
      requires Valid() && Wellformed(tables, a.tree) && a.root == a.tree.root && v < MAX_VPN
      requires (Px2(v), Px1(v)) in a.tree.low
      modifies this, a`tree
      ensures unchanged(this) && a.tree == old(a.tree)
      ensures AtLevel(a.tree, 0, v, t) && t in tables && tables[t][Px0(v)] == Lookup(tables, a.tree, v)
    {
      hide FreeList, Packed, Wellformed, Lookup, Grown, SameMap;
      t := Walk(a, v, false);
      LeafStored(tables, a.tree, v, t, NO_PTE);
    }

    /** kalloc, and memset or memmove of the whole page */
    method NewPage(data: Frame) returns (p: nat)
      requires Valid()
      modifies this
      ensures Valid() && tables == old(tables) && All() == old(All())
      ensures p == 0 ==> unchanged(this)
      ensures p != 0 ==> p !in old(frames) && p !in tables && frames == old(frames)[p := data]
    {
      hide FreeList, Packed, Filled;
      p := Kalloc();
      if p != 0 {
        frames := frames[p := data];
      }
    }

    /** One page more for an address space, with the given contents: kalloc, fill,
        mappages, and kfree if that fails. */
    method GrowOne(a: AddressSpace, v: nat, perm: Flags, data: Frame) returns (ok: bool, ghost p: nat)
      requires Valid() && Wellformed(tables, a.tree) && a.root == a.tree.root && v < MAX_VPN
      requires !Lookup(tables, a.tree, v).IsValid()
      modifies this, a`tree
      ensures Valid() && Wellformed(tables, a.tree) && a.root == a.tree.root && All() == old(All())
      ensures Grown(old(tables), old(a.tree), tables, a.tree)
      ensures ok ==>
                p !in old(frames) && frames == old(frames)[p := data]
                && MappedOne(old(tables), old(a.tree), tables, a.tree, v, Pte(p, WithV(perm)))
      ensures !ok ==> frames == old(frames) && SameMap(old(tables), old(a.tree), tables, a.tree)
    {
      hide FreeList, Packed, Wellformed, Grown, Lookup, Filled, MappedOne, SameMap;
      GrownReflexive(tables, a.tree);
      p := 0;
      var mem := NewPage(data);
      if mem == 0 {
        return false, 0;
      }
      var mapped := MapPage(a, v, mem, perm);
      if !mapped {
        Kfree(mem);
        assert frames == old(frames);
        return false, 0;
      }
      return true, mem;
    }

    /** mappages of a single page */
    method MapPage(a: AddressSpace, v: nat, page: nat, perm: Flags) returns (ok: bool)
      requires Valid() && Wellformed(tables, a.tree) && a.root == a.tree.root && v < MAX_VPN
      requires !Lookup(tables, a.tree, v).IsValid()
      modifies this, a`tree
      ensures Valid() && Wellformed(tables, a.tree) && a.root == a.tree.root && All() == old(All())
      ensures frames == old(frames)
      ensures Grown(old(tables), old(a.tree), tables, a.tree)
      ensures ok ==> MappedOne(old(tables), old(a.tree), tables, a.tree, v, Pte(page, WithV(perm)))
      ensures !ok ==> SameMap(old(tables), old(a.tree), tables, a.tree)
    {
      hide FreeList, Packed, Wellformed, Grown, Lookup;
      var mapped, done := Mappages(a, v * PGSIZE, PGSIZE, page, perm);
      return mapped;
    }

    /** uvmalloc: grow from oldsz to newsz bytes, or change no mapping and no frame. */
    method Uvmalloc(a: AddressSpace, oldsz: nat, newsz: nat, xperm: Flags) returns (r: nat)
      requires Valid() && Wellformed(tables, a.tree) && a.root == a.tree.root && newsz <= MAX_VPN * PGSIZE
      requires xperm in {0, PTE_W, PTE_X, PTE_W + PTE_X}
      requires forall v: nat :: PageUp(oldsz) <= v < PageUp(newsz) ==> Lookup(tables, a.tree, v) == NO_PTE
      modifies this, a`tree
      ensures Valid() && Wellformed(tables, a.tree) && a.root == a.tree.root && All() == old(All())
      ensures Grown(old(tables), old(a.tree), tables, a.tree)
      ensures newsz < oldsz ==> r == oldsz && unchanged(this) && a.tree == old(a.tree)
      ensures newsz >= oldsz ==> r == newsz || r == 0
      ensures newsz >= oldsz && r == newsz && newsz > 0 ==>
                FreshPages(old(tables), old(a.tree), old(frames), tables, a.tree, frames, PageUp(oldsz),
                           ZeroPages(PTE_R + PTE_U + xperm, PageUp(newsz) - PageUp(oldsz)))
      ensures newsz >= oldsz && r == 0 ==> frames == old(frames) && SameMap(old(tables), old(a.tree), tables, a.tree)
      ensures newsz >= oldsz ==> forall v: nat ::
                UserMapped(tables, a.tree, v)
                <==> old(UserMapped(tables, a.tree, v)) || (r > 0 && PageUp(oldsz) <= v < PageUp(newsz))
      ensures old(UserFrames(tables, a.tree, frames.Keys)) ==> UserFrames(tables, a.tree, frames.Keys)
    {
      hide FreeList, Packed, Wellformed, Grown, Lookup, Filled, FreshPages, WithV, SameMap, UserMapped, UserFrames;
      GrownReflexive(tables, a.tree);
      if newsz < oldsz {
        return oldsz;
      }
      ghost var flags: Flags := PTE_R + PTE_U + xperm;
      var first := PageUp(oldsz);
      var v := first;
      NothingFresh(tables, a.tree, frames, first);
      while v * PGSIZE < newsz
        invariant first <= v && (v == first || v <= PageUp(newsz))
        invariant v == first ==> unchanged(this) && a.tree == old(a.tree)
        invariant Valid() && Wellformed(tables, a.tree) && a.root == a.tree.root && All() == old(All())
        invariant Grown(old(tables), old(a.tree), tables, a.tree)
        invariant FreshPages(old(tables), old(a.tree), old(frames), tables, a.tree, frames, first,
                             ZeroPages(flags, v - first))
        decreases newsz - v * PGSIZE
      {
        ghost var t1, tree1, frames1 := tables, a.tree, frames;
        FreshNext(old(tables), old(a.tree), old(frames), tables, a.tree, frames, first, ZeroPages(flags, v - first));
        var ok, p := GrowOne(a, v, PTE_R + PTE_U + xperm, Filled(0));
        GrownTransitive(old(tables), old(a.tree), t1, tree1, tables, a.tree);
        if !ok {
          FreshSame(old(tables), old(a.tree), old(frames), t1, tree1, tables, a.tree, frames, first,
                    ZeroPages(flags, v - first));
          UndoGrow(a, first, v - first, ZeroPages(flags, v - first), old(tables), old(a.tree), old(frames));
          SameUser(old(tables), old(a.tree), tables, a.tree, frames.Keys);
          return 0;
        }
        FreshPagesStep(old(tables), old(a.tree), old(frames), t1, tree1, frames1, tables, a.tree, first,
                       ZeroPages(flags, v - first), WithV(flags), Filled(0), p);
        v := v + 1;
        assert ZeroPages(flags, v - first) == ZeroPages(flags, v - 1 - first) + [(WithV(flags), Filled(0))];
      }
      if newsz > 0 {
        FreshUser(old(tables), old(a.tree), old(frames), tables, a.tree, frames, first, xperm, PageUp(newsz) - first);
      }
      if old(UserFrames(tables, a.tree, frames.Keys)) {
        FreshFrames(old(tables), old(a.tree), old(frames), tables, a.tree, frames, first, ZeroPages(flags, v - first));
      }
      assert newsz == 0 ==> SameMap(old(tables), old(a.tree), tables, a.tree);
      return newsz;
    }

    /** uvmdealloc: shrink from oldsz to newsz bytes. */
    method Uvmdealloc(a: AddressSpace, oldsz: nat, newsz: nat) returns (r: nat)
      requires Valid() && Wellformed(tables, a.tree) && a.root == a.tree.root && oldsz <= MAX_VPN * PGSIZE
      requires newsz < oldsz ==> UserPages(tables, a.tree, frames.Keys, PageUp(newsz), PageUp(oldsz) - PageUp(newsz))
      modifies this, a`tree
      ensures Valid() && Wellformed(tables, a.tree) && a.tree == old(a.tree) && All() == old(All())
      ensures newsz >= oldsz ==> r == oldsz && unchanged(this)
      ensures newsz < oldsz ==> r == newsz && Grown(old(tables), a.tree, tables, a.tree)
      ensures newsz < oldsz ==>
                && Cleared(old(tables), a.tree, tables, a.tree, PageUp(newsz), PageUp(oldsz) - PageUp(newsz))
                && var gone := FramesOf(old(tables), a.tree, PageUp(newsz), PageUp(oldsz) - PageUp(newsz));
                   frames == old(frames) - gone && free == old(free) + gone
    {
      hide FreeList, Packed, Wellformed, Grown, Lookup, FramesOf, UserPages;
      if newsz >= oldsz {
        return oldsz;
      }
      GrownReflexive(tables, a.tree);
      NothingCleared(tables, a.tree, PageUp(newsz));
      UserPagesMean(tables, a.tree, frames.Keys, PageUp(newsz), PageUp(oldsz) - PageUp(newsz));
      if PageUp(newsz) < PageUp(oldsz) {
        Uvmunmap(a, PageUp(newsz), PageUp(oldsz) - PageUp(newsz), true);
      }
      return newsz;
    }

    /** The error path of uvmalloc and uvmcopy: unmap and free what was added. */
    method UndoGrow(a: AddressSpace, first: nat, n: nat, ghost want: seq<(Flags, Frame)>, ghost tables0: Tables,
                    ghost t0: Tree, ghost frames0: map<nat, Frame>)
      requires Valid() && Wellformed(tables, a.tree) && a.root == a.tree.root && n == |want| && first + n <= MAX_VPN
      requires FreshPages(tables0, t0, frames0, tables, a.tree, frames, first, want)
      requires Grown(tables0, t0, tables, a.tree)
      requires forall i :: 0 <= i < n ==> want[i].0 % 2 == 1 && want[i].0 != PTE_V
      requires forall v: nat :: first <= v < first + n ==> Lookup(tables0, t0, v) == NO_PTE
      modifies this, a`tree
      ensures Valid() && Wellformed(tables, a.tree) && a.root == a.tree.root && All() == old(All())
      ensures frames == frames0 && SameMap(tables0, t0, tables, a.tree) && Grown(tables0, t0, tables, a.tree)
    {
      hide FreeList, Packed, Wellformed, Grown, Lookup, Filled;
      FreshPagesUndone(tables0, t0, frames0, tables, a.tree, frames, first, want);
      Uvmunmap(a, first, n, true);
      GrownTransitive(tables0, t0, old(tables), a.tree, tables, a.tree);
    }

    /** The body of uvmcopy's loop. */
    method CopyPage(parent: AddressSpace, child: AddressSpace, v: nat) returns (ok: bool, ghost p: nat)
      requires Valid() && Wellformed(tables, parent.tree) && Wellformed(tables, child.tree) && parent != child
      requires v < MAX_VPN
      requires parent.root == parent.tree.root && child.root == child.tree.root
      requires child.tree.Pages() !! parent.tree.Pages()
      requires Lookup(tables, parent.tree, v).IsValid() && Lookup(tables, parent.tree, v).page in frames
      requires !Lookup(tables, child.tree, v).IsValid()
      modifies this, parent`tree, child`tree
      ensures Valid() && Wellformed(tables, parent.tree) && Wellformed(tables, child.tree) && All() == old(All())
      ensures parent.tree == old(parent.tree) && SameMap(old(tables), parent.tree, tables, parent.tree)
      ensures child.root == child.tree.root
      ensures Grown(old(tables), old(child.tree), tables, child.tree) && child.tree.Pages() !! parent.tree.Pages()
      ensures ok ==> var e := old(Lookup(tables, parent.tree, v));
        && p !in old(frames) && frames == old(frames)[p := old(frames)[e.page]]
        && MappedOne(old(tables), old(child.tree), tables, child.tree, v, Pte(p, e.flags))
      ensures !ok ==> frames == old(frames) && SameMap(old(tables), old(child.tree), tables, child.tree)
    {
      ValidReached(tables, parent.tree, v);
      hide FreeList, Packed, Wellformed, Grown, Lookup, SameMap, MappedOne;
      var t := FindPte(parent, v);
      var e := ReadPte(t, Px0(v));
      ok, p := GrowOne(child, v, e.flags, frames[e.page]);
      OtherTree(old(tables), old(child.tree), tables, child.tree, parent.tree);
    }

    /** uvmcopy: the child gets frames of its own with the parent's contents and
        flags, or, when memory runs out, nothing. The parent's pages stay as they are. */
    method Uvmcopy(parent: AddressSpace, child: AddressSpace, sz: nat) returns (ok: bool)
      requires Valid() && Wellformed(tables, parent.tree) && Wellformed(tables, child.tree) && parent != child
      requires parent.root == parent.tree.root && child.root == child.tree.root
      requires child.tree.Pages() !! parent.tree.Pages()
      requires sz <= MAX_VPN * PGSIZE && UserPages(tables, parent.tree, frames.Keys, 0, PageUp(sz))
      requires forall v: nat :: v < PageUp(sz) ==> Lookup(tables, child.tree, v) == NO_PTE
      modifies this, parent`tree, child`tree
      ensures Valid() && Wellformed(tables, child.tree) && Wellformed(tables, parent.tree) && All() == old(All())
      ensures parent.tree == old(parent.tree) && SameMap(old(tables), parent.tree, tables, parent.tree)
      ensures Grown(old(tables), old(child.tree), tables, child.tree) && child.root == child.tree.root
      ensures ok ==> FreshPages(old(tables), old(child.tree), old(frames), tables, child.tree, frames, 0,
                                CopiesOf(old(tables), parent.tree, old(frames), PageUp(sz)))
      ensures !ok ==> frames == old(frames) && SameMap(old(tables), old(child.tree), tables, child.tree)
    {
      hide FreeList, Packed, Wellformed, Grown, Lookup, FreshPages, SameMap, UserPages, CopiesOf, MappedOne;
      GrownReflexive(tables, child.tree);
      GrownReflexive(tables, parent.tree);
      NothingCopied(tables, parent.tree, frames, child.tree);
      var v := 0;
      while v * PGSIZE < sz
        invariant 0 <= v <= PageUp(sz)
        invariant Valid() && Wellformed(tables, child.tree) && Wellformed(tables, parent.tree) && All() == old(All())
        invariant parent.tree == old(parent.tree) && SameMap(old(tables), parent.tree, tables, parent.tree)
        invariant child.root == child.tree.root
        invariant Grown(old(tables), old(child.tree), tables, child.tree) && child.tree.Pages() !! parent.tree.Pages()
        invariant FreshPages(old(tables), old(child.tree), old(frames), tables, child.tree, frames, 0,
                             CopiesOf(old(tables), parent.tree, old(frames), v))
        decreases sz - v * PGSIZE
      {
        ghost var t1, tree1, frames1 := tables, child.tree, frames;
        ghost var copies := CopiesOf(old(tables), parent.tree, old(frames), v);
        FreshNext(old(tables), old(child.tree), old(frames), tables, child.tree, frames, 0, copies);
        CopyNext(old(tables), parent.tree, old(frames), PageUp(sz), old(child.tree), tables, child.tree, frames, v);
        ghost var e, p := Lookup(tables, parent.tree, v), 0;
        ok, p := CopyPage(parent, child, v);
        GrownTransitive(old(tables), old(child.tree), t1, tree1, tables, child.tree);
        SameMapTransitive(old(tables), parent.tree, t1, parent.tree, tables, parent.tree);
        if !ok {
          FreshSame(old(tables), old(child.tree), old(frames), t1, tree1, tables, child.tree, frames, 0, copies);
          CopiesValid(old(tables), parent.tree, old(frames), PageUp(sz), v);
          ghost var t2, tree2 := tables, child.tree;
          UndoGrow(child, 0, v, copies, old(tables), old(child.tree), old(frames));
          OtherTree(old(tables), old(child.tree), tables, child.tree, parent.tree);
          return;
        }
        FreshPagesStep(old(tables), old(child.tree), old(frames), t1, tree1, frames1, tables, child.tree, 0, copies,
                       e.flags, frames1[e.page], p);
        v := v + 1;
      }
      return true;
    }

    /** uvmclear: take user access away from one page. */
    method Uvmclear(a: AddressSpace, v: nat)
      requires Valid() && Wellformed(tables, a.tree) && a.root == a.tree.root && v < MAX_VPN
      requires (Px2(v), Px1(v)) in a.tree.low
      modifies this, a`tree
      ensures Valid() && Wellformed(tables, a.tree) && a.tree == old(a.tree) && frames == old(frames)
      ensures All() == old(All())
      ensures var e := old(Lookup(tables, a.tree, v));
        MappedOne(old(tables), a.tree, tables, a.tree, v, e.(flags := WithoutU(e.flags)))
      ensures forall w: nat :: UserMapped(tables, a.tree, w) <==> w != v && old(UserMapped(tables, a.tree, w))
      ensures old(UserFrames(tables, a.tree, frames.Keys)) ==> UserFrames(tables, a.tree, frames.Keys)
    {
      hide FreeList, Packed, Wellformed, Grown, Lookup, MappedOne, UserMapped, UserFrames;
      var t := FindPte(a, v);
      var e := ReadPte(t, Px0(v));
      SetPte(a, v, t, e.(flags := WithoutU(e.flags)));
      ClearedUser(old(tables), tables, a.tree, v, frames.Keys);
    }

    /** walkaddr: the frame behind a user page, 0 if there is none. */
    method Walkaddr(a: AddressSpace, v: nat) returns (p: nat)
      requires Valid() && Wellformed(tables, a.tree) && a.root == a.tree.root && UserFrames(tables, a.tree, frames.Keys)
      modifies this, a`tree
      ensures unchanged(this) && a.tree == old(a.tree)
      ensures p != 0 <==> UserMapped(tables, a.tree, v)
      ensures p != 0 ==> p == Lookup(tables, a.tree, v).page && p in frames
    {
      hide FreeList, Packed, Wellformed, Grown;
      if v >= MAX_VPN {
        return 0;
      }
      var t := Walk(a, v, false);
      if t == 0 {
        return 0;
      }
      LeafStored(tables, a.tree, v, t, NO_PTE);
      var e := ReadPte(t, Px0(v));
      if !e.IsValid() || !e.IsUser() {
        return 0;
      }
      return e.page;
    }

    /** copyout: page by page until done or at a page the user cannot reach. */
    method Copyout(a: AddressSpace, dstva: nat, src: seq<byte>) returns (ok: bool, ghost done: nat)
      requires Valid() && Wellformed(tables, a.tree) && a.root == a.tree.root && UserFrames(tables, a.tree, frames.Keys)
      modifies this, a`tree
      ensures Valid() && tables == old(tables) && a.tree == old(a.tree) && frames.Keys == old(frames).Keys
      ensures done <= |src| && CopiedOut(tables, a.tree, old(frames), frames, dstva, src, done)
      ensures ok <==> done == |src|
      ensures forall x: nat :: dstva <= x < dstva + done ==> UserAddress(tables, a.tree, x)
      ensures !ok ==> !UserAddress(tables, a.tree, dstva + done)
    {
      hide FreeList, Packed, Wellformed, Lookup, CopiedOut, SpliceFrame, UserFrames;
      NothingCopiedOut(tables, a.tree, frames, dstva, src);
      var k := 0;
      done := 0;
      while k < |src|
        invariant k <= |src| && done == k
        invariant Valid() && tables == old(tables) && a.tree == old(a.tree) && frames.Keys == old(frames).Keys
        invariant CopiedOut(tables, a.tree, old(frames), frames, dstva, src, k)
        invariant forall x: nat :: dstva <= x < dstva + k ==> UserAddress(tables, a.tree, x)
        decreases |src| - k
      {
        var v, off := (dstva + k) / PGSIZE, (dstva + k) % PGSIZE;
        var p := Walkaddr(a, v);
        if p == 0 {
          return false, done;
        }
        var n := if PGSIZE - off > |src| - k then |src| - k else PGSIZE - off;
        CopiedMore(tables, a.tree, old(frames), frames, dstva, src, k, v, off, n);
        frames := frames[p := SpliceFrame(frames[p], off, src[k..k + n])];
        k := k + n;
        done := k;
      }
      return true, done;
    }

    /** copyin */
    method Copyin(a: AddressSpace, srcva: nat, len: nat) returns (ok: bool, dst: seq<byte>)
      requires Valid() && Wellformed(tables, a.tree) && a.root == a.tree.root && UserFrames(tables, a.tree, frames.Keys)
      modifies this, a`tree
      ensures unchanged(this) && a.tree == old(a.tree)
      ensures |dst| <= len && (ok <==> |dst| == len) && (!ok ==> !UserAddress(tables, a.tree, srcva + |dst|))
      ensures CopiedIn(tables, a.tree, frames, srcva, dst)
    {
      hide FreeList, Packed, Wellformed, Lookup;
      dst := [];
      while |dst| < len
        invariant |dst| <= len && unchanged(this) && a.tree == old(a.tree)
        invariant CopiedIn(tables, a.tree, frames, srcva, dst)
        decreases len - |dst|
      {
        var v, off := (srcva + |dst|) / PGSIZE, (srcva + |dst|) % PGSIZE;
        var p := Walkaddr(a, v);
        if p == 0 {
          return false, dst;
        }
        var n := if PGSIZE - off > len - |dst| then len - |dst| else PGSIZE - off;
        CopiedInMore(tables, a.tree, frames, srcva, dst, v, off, n);
        dst := dst + frames[p][off..off + n];
      }
      return true, dst;
    }

    /** What copyout stores, copyin reads back, on any range the user can reach. */
    method CopyRoundTrip(a: AddressSpace, va: nat, src: seq<byte>) returns (dst: seq<byte>)
      requires Valid() && Wellformed(tables, a.tree) && a.root == a.tree.root && UserFrames(tables, a.tree, frames.Keys)
      requires forall x: nat :: va <= x < va + |src| ==> UserAddress(tables, a.tree, x)
      modifies this, a`tree
      ensures Valid() && dst == src && tables == old(tables) && a.tree == old(a.tree)
      ensures frames.Keys == old(frames).Keys
      ensures CopiedOut(tables, a.tree, old(frames), frames, va, src, |src|)
    {
      hide FreeList, Packed, Wellformed, Lookup, UserByte, UserAddress;
      var ok, done := Copyout(a, va, src);
      ok, dst := Copyin(a, va, |src|);
      forall i | 0 <= i < |src| ensures dst[i] == src[i] {
        assert UserByte(tables, a.tree, frames, va + i) == src[i];
      }
    }
  }
}
