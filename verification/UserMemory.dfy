/**
 User memory as the hardware and the user see it: the translation Sv39 defines on
 the words of the tables, the stack with its guard page, and what fork and growing
 or shrinking leave of an address space.
 */
module UserMemory {
  import opened Blocks
  import opened PageTable
  import opened VirtualMemory

  // ----- the hardware's translation -----

  /** What a virtual address leads to: a page with its ten flag bits, or a fault. */
  datatype Translation = Fault | Page(page: nat, flags: nat)

  /** 2^(12 + 9 * level), the bytes an entry of a table at that level stands for. */
  function Span(level: nat): (n: nat)
    ensures n > 0
  {
    if level == 0 then 0x1000 else if level == 1 then 0x20_0000 else 0x4000_0000
  }

  /** The steps that section 4.4 takes from section 4.3.2, from the table in `page`: nine bits of the address name an
      entry; V clear faults; one of R, W and X, bits 1 to 3, makes it a leaf. Tables here have
      leaves at the last level only. */
  function Translate(words: map<nat, Words>, page: nat, level: nat, va: nat): Translation
    decreases level
  {
    if page !in words then Fault
    else
      var w := words[page][va / Span(level) % 512];
      if w % 2 == 0 then Fault
      else if w / 2 % 8 != 0 then Page(w / 1024, w % 1024)
      else if level == 0 then Fault
      else Translate(words, w / 1024, level - 1, va)
  }

  lemma EntryBits(e: Pte)
    ensures var w := Encode(e);
      && (w % 2 == 1 <==> e.IsValid()) && (w / 2 % 8 != 0 <==> e.IsLeaf()) && w / 1024 == e.page && w % 1024 == e.flags
  {
    assert Encode(e) / 2 == 8 * (64 * e.page) + e.flags / 2;
  }

  lemma IndexBits(va: nat)
    ensures va / Span(0) % 512 == Px0(va / PGSIZE)
    ensures va / Span(1) % 512 == Px1(va / PGSIZE)
    ensures va / Span(2) % 512 == Px2(va / PGSIZE)
  {
    var v, o := va / 0x1000, va % 0x1000;
    assert va == 0x20_0000 * (v / 0x200) + (0x1000 * (v % 0x200) + o);
    assert va == 0x4000_0000 * (v / 0x4_0000) + (0x1000 * (v % 0x4_0000) + o);
  }

  /** The hardware finds for an address what the flat map says: the leaf of its page, or a fault. */
  lemma TranslateIs(words: map<nat, Words>, tables: Tables, t: Tree, va: nat)
    requires Wellformed(tables, t) && Packed(words, tables) && va / PGSIZE < MAX_VPN
    ensures var e := Lookup(tables, t, va / PGSIZE);
      Translate(words, t.root, 2, va) == if e.IsValid() && e.IsLeaf() then Page(e.page, e.flags) else Fault
  {
    var v := va / PGSIZE;
    IndexBits(va);
    hide Px2, Px1, Px0, Span, Encode;
    EntryBits(tables[t.root][Px2(v)]);
    if Px2(v) in t.mid {
      var m := t.mid[Px2(v)];
      EntryBits(tables[m][Px1(v)]);
      if (Px2(v), Px1(v)) in t.low {
        EntryBits(tables[t.low[(Px2(v), Px1(v))]][Px0(v)]);
      }
    }
  }

  /** In user mode the hardware lets an address through: bit 4 of the leaf, U, is set. */
  predicate UserReaches(words: map<nat, Words>, root: nat, va: nat) {
    var x := Translate(words, root, 2, va);
    x.Page? && x.flags / 16 % 2 == 1
  }

  /** walkaddr, and so copyout and copyin, go where the user's own instructions can, wherever
      valid entries of the lowest tables are leaves, as mappages makes them. */
  lemma SoftwareAgrees(words: map<nat, Words>, tables: Tables, t: Tree, va: nat)
    requires Wellformed(tables, t) && Packed(words, tables) && va / PGSIZE < MAX_VPN
    ensures UserReaches(words, t.root, va)
       <==> UserAddress(tables, t, va) && Lookup(tables, t, va / PGSIZE).IsLeaf()
  {
    TranslateIs(words, tables, t, va);
  }

  // ----- the stack and its guard page -----

  /** Pages added read as zero, as they did while they were not there. */
  lemma GrownBytes(tables0: Tables, t0: Tree, frames0: map<nat, Frame>, tables: Tables, t: Tree,
                   frames: map<nat, Frame>, first: nat, xperm: Flags, n: nat)
    requires xperm in {0, PTE_W, PTE_X, PTE_W + PTE_X} && first + n <= MAX_VPN
    requires FreshPages(tables0, t0, frames0, tables, t, frames, first, ZeroPages(PTE_R + PTE_U + xperm, n))
    requires UserFrames(tables0, t0, frames0.Keys)
    requires forall v: nat :: first <= v < first + n ==> Lookup(tables0, t0, v) == NO_PTE
    ensures forall va: nat :: first <= va / PGSIZE < first + n ==> UserByte(tables, t, frames, va) == 0
    ensures forall va: nat :: UserByte(tables, t, frames, va) == UserByte(tables0, t0, frames0, va)
  {
    hide Lookup, FramesOf;
    FreshUser(tables0, t0, frames0, tables, t, frames, first, xperm, n);
    forall va: nat ensures UserByte(tables, t, frames, va) == UserByte(tables0, t0, frames0, va) {
      if first <= va / PGSIZE < first + n {
        assert !UserMapped(tables0, t0, va / PGSIZE);
      }
    }
  }

  lemma ClearedBytes(tables0: Tables, tables: Tables, t: Tree, frames: map<nat, Frame>, v: nat)
    requires var e := Lookup(tables0, t, v); MappedOne(tables0, t, tables, t, v, e.(flags := WithoutU(e.flags)))
    ensures forall va: nat :: UserByte(tables, t, frames, va) ==
              if va / PGSIZE == v then 0 else UserByte(tables0, t, frames, va)
  {
    hide Lookup;
    ClearedUser(tables0, tables, t, v, {});
  }

  lemma NotUsers(tables: Tables, t: Tree, v: nat)
    requires Lookup(tables, t, v) == NO_PTE
    ensures !UserMapped(tables, t, v)
  {
  }

  lemma UserReached(tables: Tables, t: Tree, v: nat)
    requires UserMapped(tables, t, v)
    ensures v < MAX_VPN && (Px2(v), Px1(v)) in t.low
  {
    ValidReached(tables, t, v);
  }

  /** exec's two pages above `sz`: the upper one is the stack, and the lower one the guard,
      which is out of the user's reach and of copyout's. What is pushed on the stack can
      be read back; a copyout that starts on the guard fails and stores nothing. */
  method MakeStack(m: Memory, a: AddressSpace, sz: nat, src: seq<byte>, probe: seq<byte>, at: nat)
    returns (made: bool, base: nat, dst: seq<byte>, stored: bool)
    requires m.Valid() && Wellformed(m.tables, a.tree) && a.root == a.tree.root
    requires UserFrames(m.tables, a.tree, m.frames.Keys) && (PageUp(sz) + 2) * PGSIZE <= MAX_VPN * PGSIZE
    requires forall v: nat :: PageUp(sz) <= v < PageUp(sz) + 2 ==> Lookup(m.tables, a.tree, v) == NO_PTE
    requires |src| <= PGSIZE && |probe| > 0 && at < PGSIZE
    modifies m, a`tree
    ensures base == PageUp(sz) * PGSIZE && m.Valid() && UserFrames(m.tables, a.tree, m.frames.Keys)
    ensures Wellformed(m.tables, a.tree) && a.root == a.tree.root
    ensures made ==> forall x: nat :: UserAddress(m.tables, a.tree, x)
                       <==> old(UserAddress(m.tables, a.tree, x)) || base + PGSIZE <= x < base + 2 * PGSIZE
    ensures made ==> dst == src && !stored
    ensures made ==> forall x: nat :: UserByte(m.tables, a.tree, m.frames, x) ==
                       if base + PGSIZE <= x < base + PGSIZE + |src| then src[x - base - PGSIZE]
                       else old(UserByte(m.tables, a.tree, m.frames, x))
  {
    hide FreeList, Packed, Wellformed, Lookup, UserFrames, UserMapped, FreshPages, MappedOne, Grown, UserByte;
    base, dst, stored := PageUp(sz) * PGSIZE, [], false;
    var guard := PageUp(sz);
    assert PageUp(base) == base / PGSIZE == guard && PageUp(base + 2 * PGSIZE) == guard + 2;
    NotUsers(m.tables, a.tree, guard);
    NotUsers(m.tables, a.tree, guard + 1);
    var r := m.Uvmalloc(a, base, base + 2 * PGSIZE, PTE_W);
    if r == 0 {
      return false, base, [], false;
    }
    made := true;
    GrownBytes(old(m.tables), old(a.tree), old(m.frames), m.tables, a.tree, m.frames, guard, PTE_W, 2);
    UserReached(m.tables, a.tree, guard);
    ghost var tables1 := m.tables;
    m.Uvmclear(a, guard);
    ClearedBytes(tables1, m.tables, a.tree, m.frames, guard);
    assert forall x: nat :: UserAddress(m.tables, a.tree, x)
             <==> old(UserAddress(m.tables, a.tree, x)) || base + PGSIZE <= x < base + 2 * PGSIZE;
    dst := m.CopyRoundTrip(a, base + PGSIZE, src);
    ghost var done;
    assert !UserAddress(m.tables, a.tree, base + at);
    stored, done := m.Copyout(a, base + at, probe);
  }

  // ----- fork -----

  /** The child of a copy can reach what its parent can, and finds the same bytes there. */
  lemma CopySeesSame(tables0: Tables, t: Tree, frames0: map<nat, Frame>, n: nat, child0: Tree, tables: Tables,
                     child: Tree, frames: map<nat, Frame>)
    requires UserPages(tables0, t, frames0.Keys, 0, n) && n <= MAX_VPN
    requires FreshPages(tables0, child0, frames0, tables, child, frames, 0, CopiesOf(tables0, t, frames0, n))
    ensures forall v: nat :: v < n ==> (UserMapped(tables, child, v) <==> UserMapped(tables0, t, v))
    ensures forall va: nat :: va / PGSIZE < n ==>
              UserByte(tables, child, frames, va) == UserByte(tables0, t, frames0, va)
  {
    hide Lookup, FramesOf;
  }

  /** What the copy adds is out of the parent's sight. */
  lemma ParentSeesSame(tables0: Tables, tables: Tables, t: Tree, frames0: map<nat, Frame>, frames: map<nat, Frame>)
    requires SameMap(tables0, t, tables, t) && UserFrames(tables0, t, frames0.Keys) && 0 !in frames
    requires forall p :: p in frames0 ==> p in frames && frames[p] == frames0[p]
    ensures UserFrames(tables, t, frames.Keys)
    ensures forall va: nat :: UserByte(tables, t, frames, va) == UserByte(tables0, t, frames0, va)
  {
    hide Lookup;
    SameUser(tables0, t, tables, t, frames0.Keys);
  }

  lemma Forked(tables0: Tables, t: Tree, frames0: map<nat, Frame>, n: nat, child0: Tree, tables: Tables, child: Tree,
               frames: map<nat, Frame>)
    requires UserPages(tables0, t, frames0.Keys, 0, n) && n <= MAX_VPN && 0 !in frames
    requires FreshPages(tables0, child0, frames0, tables, child, frames, 0, CopiesOf(tables0, t, frames0, n))
    requires forall v: nat :: v < MAX_VPN ==> Lookup(tables0, child0, v) == NO_PTE
    ensures UserFrames(tables, child, frames.Keys)
    ensures forall v: nat :: UserMapped(tables, child, v) ==> Lookup(tables, child, v).page !in frames0
    ensures forall p :: p in frames0 ==> p in frames && frames[p] == frames0[p]
  {
    hide Lookup, FramesOf;
    FreshFrames(tables0, child0, frames0, tables, child, frames, 0, CopiesOf(tables0, t, frames0, n));
  }

  /** The child's frames are its own, so that nothing stored there shows in the parent's. */
  lemma CopyApart(tables: Tables, child: Tree, frames0: map<nat, Frame>, frames1: map<nat, Frame>,
                  frames: map<nat, Frame>, va: nat, src: seq<byte>, done: nat)
    requires CopiedOut(tables, child, frames1, frames, va, src, done)
    requires forall v: nat :: UserMapped(tables, child, v) ==> Lookup(tables, child, v).page !in frames0
    requires forall p :: p in frames0 ==> p in frames1 && frames1[p] == frames0[p]
    ensures forall p :: p in frames0 ==> p in frames && frames[p] == frames0[p]
  {
    hide Lookup, UserMapped, UserByte;
  }

  /** fork's copy of an address space, and a store by the child: the child starts with the parent's
      memory and gets its own change, and the parent sees none of it. */
  method CopyThenStore(m: Memory, parent: AddressSpace, child: AddressSpace, sz: nat, va: nat, src: seq<byte>)
    returns (ok: bool, ghost done: nat)
    requires m.Valid() && Wellformed(m.tables, parent.tree) && Wellformed(m.tables, child.tree) && parent != child
    requires parent.root == parent.tree.root && child.root == child.tree.root
    requires child.tree.Pages() !! parent.tree.Pages() && sz <= MAX_VPN * PGSIZE
    requires UserPages(m.tables, parent.tree, m.frames.Keys, 0, PageUp(sz))
    requires UserFrames(m.tables, parent.tree, m.frames.Keys)
    requires forall v: nat :: v < MAX_VPN ==> Lookup(m.tables, child.tree, v) == NO_PTE
    modifies m, parent`tree, child`tree
    ensures m.Valid() && UserFrames(m.tables, parent.tree, m.frames.Keys)
    ensures forall x: nat :: UserByte(m.tables, parent.tree, m.frames, x)
                          == old(UserByte(m.tables, parent.tree, m.frames, x))
    ensures ok ==> done <= |src| && UserFrames(m.tables, child.tree, m.frames.Keys)
    ensures ok ==> forall x: nat :: x / PGSIZE < PageUp(sz) ==>
                     UserByte(m.tables, child.tree, m.frames, x) ==
                     if va <= x < va + done then src[x - va] else old(UserByte(m.tables, parent.tree, m.frames, x))
  {
    hide FreeList, Packed, Wellformed, Lookup, UserFrames, UserMapped, FreshPages, Grown, UserByte, UserPages, SameMap;
    hide CopiesOf;
    done := 0;
    ghost var tables0, t, c0, frames0 := m.tables, parent.tree, child.tree, m.frames;
    ghost var n := PageUp(sz);
    ok := m.Uvmcopy(parent, child, sz);
    if !ok {
      ParentSeesSame(tables0, m.tables, t, frames0, m.frames);
      return;
    }
    ghost var frames1, c := m.frames, child.tree;
    CopySeesSame(tables0, t, frames0, n, c0, m.tables, c, frames1);
    Forked(tables0, t, frames0, n, c0, m.tables, c, frames1);
    ghost var all: bool;
    all, done := m.Copyout(child, va, src);
    CopyApart(m.tables, c, frames0, frames1, m.frames, va, src, done);
    ParentSeesSame(tables0, m.tables, t, frames0, m.frames);
  }
}
