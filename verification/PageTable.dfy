/**
 Sv39 page tables (section 4.4 of the RISC-V Privileged Architecture, version
 1.12) as they lie in table pages, and the flat map from virtual pages to
 PTEs that they stand for. Pages are named by number, page 0 being null.
 */
module PageTable {

  const ENTRIES := 512
  const MAX_VPN := 0x400_0000      // MAXVA / PGSIZE
  const TOP_ENTRIES := 256         // entries of a root table below MAXVA
  const PTE_V := 1
  const PTE_R := 2
  const PTE_W := 4
  const PTE_X := 8
  const PTE_U := 16

  /** The ten low bits of a PTE. */
  type Flags = x: nat | x < 1024

  /** A page table entry: the page number in bits 10 and up, the flags below. */
  datatype Pte = Pte(page: nat, flags: Flags) {
    predicate IsValid() { flags % 2 == 1 }

    /** Some of R, W and X is set: not a pointer to a lower table. */
    predicate IsLeaf() { flags / 2 % 8 != 0 }

    predicate IsUser() { flags / 16 % 2 == 1 }
  }

  const NO_PTE := Pte(0, 0)

  /** PA2PTE(pa) | flags */
  function Encode(e: Pte): nat {
    e.page * 1024 + e.flags
  }

  /** PTE2PA and PTE_FLAGS */
  function Decode(w: nat): Pte {
    Pte(w / 1024, w % 1024)
  }

  lemma PteRoundTrip(e: Pte, w: nat)
    ensures Decode(Encode(e)) == e && Encode(Decode(w)) == w
  {
  }

  type Table = t: seq<Pte> | |t| == ENTRIES witness seq(ENTRIES, i => NO_PTE)
  type Tables = map<nat, Table>

  /** Table pages as they lie in memory. */
  type Words = w: seq<nat> | |w| == ENTRIES witness seq(ENTRIES, i => 0)

  ghost predicate Packed(words: map<nat, Words>, tables: Tables) {
    && words.Keys == tables.Keys
    && forall p, i :: p in tables && 0 <= i < ENTRIES ==> words[p][i] == Encode(tables[p][i])
  }

  lemma PackedAt(words: map<nat, Words>, tables: Tables, p: nat, i: nat)
    requires Packed(words, tables) && p in tables && i < ENTRIES
    ensures p in words && Decode(words[p][i]) == tables[p][i]
  {
    PteRoundTrip(tables[p][i], words[p][i]);
  }

  lemma PackedSet(words: map<nat, Words>, tables: Tables, p: nat, i: nat, e: Pte)
    requires Packed(words, tables) && p in tables && i < ENTRIES
    ensures p in words && Packed(words[p := words[p][i := Encode(e)]], tables[p := tables[p][i := e]])
  {
    hide Encode;
  }

  function ZeroWords(): (w: Words)
    ensures forall i :: 0 <= i < ENTRIES ==> w[i] == 0
  {
    seq(ENTRIES, i => 0)
  }

  lemma PackedNew(words: map<nat, Words>, tables: Tables, p: nat)
    requires Packed(words, tables)
    ensures Packed(words[p := ZeroWords()], tables[p := ZeroTable()])
  {
  }

  lemma PackedWithout(words: map<nat, Words>, tables: Tables, p: nat)
    requires Packed(words, tables)
    ensures Packed(words - {p}, tables - {p})
  {
    hide Encode;
  }

  /** flags | PTE_V */
  function WithV(flags: Flags): (r: Flags)
    ensures r % 2 == 1 && r / 2 == flags / 2
  {
    if flags % 2 == 1 then flags else flags + 1
  }

  // ----- indices -----

  /** PX(2, va), PX(1, va) and PX(0, va) for va in page `vpn` */
  function Px2(vpn: nat): (i: nat)
    ensures i < ENTRIES && (vpn < MAX_VPN ==> i < TOP_ENTRIES)
  {
    vpn / 0x4_0000 % ENTRIES
  }

  function Px1(vpn: nat): (i: nat)
    ensures i < ENTRIES
  {
    vpn / ENTRIES % ENTRIES
  }

  function Px0(vpn: nat): (i: nat)
    ensures i < ENTRIES
  {
    vpn % ENTRIES
  }

  /** The three indices determine a page below MAXVA. */
  lemma IndicesDistinct(v: nat, w: nat)
    requires v < MAX_VPN && w < MAX_VPN && v != w
    ensures (Px2(v), Px1(v), Px0(v)) != (Px2(w), Px1(w), Px0(w))
  {
    IndicesOf(v);
    IndicesOf(w);
    hide Px2, Px1, Px0;
  }

  lemma IndicesOf(v: nat)
    requires v < MAX_VPN
    ensures v == (Px2(v) * ENTRIES + Px1(v)) * ENTRIES + Px0(v)
  {
  }

  // ----- trees -----

  /** What a table page is for. */
  datatype Role = Root | Mid(i: nat) | Low(i: nat, j: nat)

  /** The tree below a root: the middle table for each level-2 index, the lowest
      table for each pair of upper indices, and the role of each page in it. */
  datatype Tree = Tree(root: nat, mid: map<nat, nat>, low: map<(nat, nat), nat>, role: map<nat, Role>) {
    function Pages(): set<nat> {
      role.Keys
    }
  }

  /** No page of the tree serves two purposes, and the entries say just what the tree does. */
  ghost predicate Wellformed(tables: Tables, t: Tree) {
    && Shaped(t)
    && t.Pages() <= tables.Keys
    && (forall i :: i in t.mid ==> tables[t.root][i] == Pte(t.mid[i], PTE_V))
    && (forall i :: 0 <= i < ENTRIES && i !in t.mid ==> !tables[t.root][i].IsValid())
    && (forall i, j :: (i, j) in t.low ==> tables[t.mid[i]][j] == Pte(t.low[(i, j)], PTE_V))
    && (forall i, j :: i in t.mid && 0 <= j < ENTRIES && (i, j) !in t.low ==> !tables[t.mid[i]][j].IsValid())
  }

  ghost predicate Shaped(t: Tree) {
    && t.root in t.role && t.role[t.root] == Root
    && (forall i :: i in t.mid ==> i < TOP_ENTRIES && t.mid[i] in t.role && t.role[t.mid[i]] == Mid(i))
    && (forall i, j :: (i, j) in t.low ==>
          i in t.mid && j < ENTRIES && t.low[(i, j)] in t.role && t.role[t.low[(i, j)]] == Low(i, j))
    && (forall p :: p in t.role ==>
          match t.role[p]
          case Root => p == t.root
          case Mid(i) => i in t.mid && t.mid[i] == p
          case Low(i, j) => (i, j) in t.low && t.low[(i, j)] == p)
  }

  /** The flat map: the PTE of each virtual page, NO_PTE where no table reaches. */
  function Lookup(tables: Tables, t: Tree, vpn: nat): Pte {
    var ij := (Px2(vpn), Px1(vpn));
    if ij in t.low && t.low[ij] in tables then tables[t.low[ij]][Px0(vpn)] else NO_PTE
  }

  /** Distinct pages reach distinct entries. */
  lemma DistinctSlots(t: Tree, v: nat, w: nat)
    requires Shaped(t) && v < MAX_VPN && w < MAX_VPN && v != w
    requires (Px2(v), Px1(v)) in t.low && (Px2(w), Px1(w)) in t.low
    ensures (t.low[(Px2(v), Px1(v))], Px0(v)) != (t.low[(Px2(w), Px1(w))], Px0(w))
  {
    IndicesDistinct(v, w);
  }

  /** Writing one leaf entry changes that page's mapping and no other. */
  lemma LeafSet(tables: Tables, t: Tree, vpn: nat, e: Pte)
    requires Wellformed(tables, t) && vpn < MAX_VPN && (Px2(vpn), Px1(vpn)) in t.low
    ensures var p := t.low[(Px2(vpn), Px1(vpn))];
      var tables' := tables[p := tables[p][Px0(vpn) := e]];
      && Wellformed(tables', t)
      && (forall v: nat :: v < MAX_VPN ==> Lookup(tables', t, v) == if v == vpn then e else Lookup(tables, t, v))
  {
    hide Px2, Px1, Px0;
    var p := t.low[(Px2(vpn), Px1(vpn))];
    var tables' := tables[p := tables[p][Px0(vpn) := e]];
    forall v: nat | v < MAX_VPN ensures Lookup(tables', t, v) == if v == vpn then e else Lookup(tables, t, v) {
      if v != vpn {
        IndicesDistinct(v, vpn);
      }
    }
  }

  function ZeroTable(): (t: Table)
    ensures forall i :: 0 <= i < ENTRIES ==> t[i] == NO_PTE
  {
    seq(ENTRIES, i => NO_PTE)
  }

  /** Changes to pages outside the tree are not seen. */
  lemma TreeFrame(tables: Tables, tables': Tables, t: Tree)
    requires Wellformed(tables, t) && t.Pages() <= tables'.Keys
    requires forall p :: p in t.Pages() ==> tables'[p] == tables[p]
    ensures Wellformed(tables', t) && forall v: nat :: Lookup(tables', t, v) == Lookup(tables, t, v)
  {
  }

  function Px(level: nat, vpn: nat): (i: nat)
    requires level <= 2
    ensures i < ENTRIES
  {
    if level == 2 then Px2(vpn) else if level == 1 then Px1(vpn) else Px0(vpn)
  }

  /** The table walk is at when `level` levels are left. */
  ghost predicate AtLevel(t: Tree, level: nat, vpn: nat, page: nat) {
    if level == 2 then page == t.root
    else if level == 1 then Px2(vpn) in t.mid && page == t.mid[Px2(vpn)]
    else (Px2(vpn), Px1(vpn)) in t.low && page == t.low[(Px2(vpn), Px1(vpn))]
  }

  /** All pages keep their mappings. */
  ghost predicate SameMap(tables: Tables, t: Tree, tables': Tables, t': Tree) {
    forall v: nat :: v < MAX_VPN ==> Lookup(tables', t', v) == Lookup(tables, t, v)
  }

  /** The tree may have gained pages not in use before; other trees' tables are untouched. */
  ghost predicate Grown(tables: Tables, t: Tree, tables': Tables, t': Tree) {
    && t.root == t'.root && t.Pages() <= t'.Pages()
    && tables'.Keys == tables.Keys + t'.Pages()
    && (forall p :: p in t'.Pages() && p !in t.Pages() ==> p !in tables)
    && (forall p :: p in tables && p !in t.Pages() ==> tables'[p] == tables[p])
  }

  lemma GrownReflexive(tables: Tables, t: Tree)
    requires Wellformed(tables, t)
    ensures Grown(tables, t, tables, t) && SameMap(tables, t, tables, t)
  {
  }

  lemma GrownTransitive(a: Tables, ta: Tree, b: Tables, tb: Tree, c: Tables, tc: Tree)
    requires Grown(a, ta, b, tb) && Grown(b, tb, c, tc)
    ensures Grown(a, ta, c, tc)
  {
  }

  lemma SameMapTransitive(a: Tables, ta: Tree, b: Tables, tb: Tree, c: Tables, tc: Tree)
    requires SameMap(a, ta, b, tb) && SameMap(b, tb, c, tc)
    ensures SameMap(a, ta, c, tc)
  {
  }

  /** What the entry walk inspects says about the tree. */
  lemma EntryMeans(tables: Tables, t: Tree, level: nat, vpn: nat, page: nat)
    requires Wellformed(tables, t) && 1 <= level <= 2 && AtLevel(t, level, vpn, page)
    ensures page in t.Pages() && page in tables
    ensures var e := tables[page][Px(level, vpn)];
      if e.IsValid() then AtLevel(t, level - 1, vpn, e.page) && e.page in t.Pages()
      else if level == 2 then Px2(vpn) !in t.mid else (Px2(vpn), Px1(vpn)) !in t.low
    ensures tables[page][Px(level, vpn)].IsValid() || (Px2(vpn), Px1(vpn)) !in t.low
  {
  }

  /** walk adding a middle table. */
  lemma MidAdded(tables: Tables, t: Tree, i: nat, p: nat)
    requires Wellformed(tables, t) && i < TOP_ENTRIES && i !in t.mid && p !in tables
    ensures var t' := t.(mid := t.mid[i := p], role := t.role[p := Mid(i)]);
      var tables' := tables[p := ZeroTable()][t.root := tables[t.root][i := Pte(p, PTE_V)]];
      Wellformed(tables', t') && SameMap(tables, t, tables', t') && Grown(tables, t, tables', t')
  {
    hide Px2, Px1, Px0, ZeroTable, SameMap, Grown;
    MidGrown(tables, t, i, p, tables[t.root][i := Pte(p, PTE_V)]);
  }

  lemma MidGrown(tables: Tables, t: Tree, i: nat, p: nat, table: Table)
    requires Wellformed(tables, t) && p !in tables
    ensures var t' := t.(mid := t.mid[i := p], role := t.role[p := Mid(i)]);
      var tables' := tables[p := ZeroTable()][t.root := table];
      SameMap(tables, t, tables', t') && Grown(tables, t, tables', t')
  {
    hide Px2, Px1, Px0, ZeroTable;
  }

  /** walk adding a lowest table. */
  lemma LowAdded(tables: Tables, t: Tree, i: nat, j: nat, p: nat)
    requires Wellformed(tables, t) && i in t.mid && j < ENTRIES && (i, j) !in t.low && p !in tables
    ensures var t' := t.(low := t.low[(i, j) := p], role := t.role[p := Low(i, j)]);
      var tables' := tables[p := ZeroTable()][t.mid[i] := tables[t.mid[i]][j := Pte(p, PTE_V)]];
      Wellformed(tables', t') && SameMap(tables, t, tables', t') && Grown(tables, t, tables', t')
  {
    hide Px2, Px1, Px0, ZeroTable, SameMap, Grown;
    LowGrown(tables, t, i, j, p, tables[t.mid[i]][j := Pte(p, PTE_V)]);
  }

  lemma LowGrown(tables: Tables, t: Tree, i: nat, j: nat, p: nat, table: Table)
    requires Wellformed(tables, t) && i in t.mid && (i, j) !in t.low && p !in tables
    ensures var t' := t.(low := t.low[(i, j) := p], role := t.role[p := Low(i, j)]);
      var tables' := tables[p := ZeroTable()][t.mid[i] := table];
      SameMap(tables, t, tables', t') && Grown(tables, t, tables', t')
  {
    hide Px2, Px1, Px0, ZeroTable;
  }

  /** The tree once `child` is the table at the next level down. */
  function Extended(t: Tree, level: nat, vpn: nat, child: nat): Tree {
    if level == 2 then t.(mid := t.mid[Px2(vpn) := child], role := t.role[child := Mid(Px2(vpn))])
    else t.(low := t.low[(Px2(vpn), Px1(vpn)) := child], role := t.role[child := Low(Px2(vpn), Px1(vpn))])
  }

  lemma TableAdded(tables: Tables, t: Tree, level: nat, vpn: nat, page: nat, child: nat)
    requires Wellformed(tables, t) && vpn < MAX_VPN && 1 <= level <= 2 && AtLevel(t, level, vpn, page)
    requires child !in tables && page in tables && !tables[page][Px(level, vpn)].IsValid()
    ensures var t' := Extended(t, level, vpn, child);
      var tables' := tables[child := ZeroTable()][page := tables[page][Px(level, vpn) := Pte(child, PTE_V)]];
      && Wellformed(tables', t') && AtLevel(t', level - 1, vpn, child)
      && SameMap(tables, t, tables', t') && Grown(tables, t, tables', t')
  {
    hide Px2, Px1, Px0, ZeroTable, Lookup, Wellformed, SameMap, Grown;
    EntryMeans(tables, t, level, vpn, page);
    if level == 2 {
      MidAdded(tables, t, Px2(vpn), child);
    } else {
      MidOf(tables, t, Px2(vpn));
      LowAdded(tables, t, Px2(vpn), Px1(vpn), child);
    }
  }

  lemma MidOf(tables: Tables, t: Tree, i: nat)
    requires Wellformed(tables, t) && i in t.mid
    ensures t.mid[i] in tables
  {
  }

  /** Pages first..first+n map to consecutive pages from `page`; the rest as before. */
  ghost predicate MappedRange(tables: Tables, t: Tree, tables': Tables, t': Tree, first: nat, n: nat, page: nat,
                              flags: Flags) {
    forall v: nat :: v < MAX_VPN ==>
      Lookup(tables', t', v) == if first <= v < first + n then Pte(page + v - first, flags) else Lookup(tables, t, v)
  }

  /** Page `vpn` now maps by `e`; the rest as before. */
  ghost predicate MappedOne(tables: Tables, t: Tree, tables': Tables, t': Tree, vpn: nat, e: Pte) {
    forall v: nat :: v < MAX_VPN ==> Lookup(tables', t', v) == if v == vpn then e else Lookup(tables, t, v)
  }

  lemma LeafStored(tables: Tables, t: Tree, vpn: nat, page: nat, e: Pte)
    requires Wellformed(tables, t) && vpn < MAX_VPN && AtLevel(t, 0, vpn, page)
    ensures page in tables
    ensures var tables' := tables[page := tables[page][Px0(vpn) := e]];
      Wellformed(tables', t) && MappedOne(tables, t, tables', t, vpn, e) && Grown(tables, t, tables', t)
    ensures tables[page][Px0(vpn)] == Lookup(tables, t, vpn)
  {
    LeafSet(tables, t, vpn, e);
  }

  /** A valid entry is reached by walk. */
  lemma ValidReached(tables: Tables, t: Tree, vpn: nat)
    requires Lookup(tables, t, vpn).IsValid()
    ensures (Px2(vpn), Px1(vpn)) in t.low
  {
  }

  /** The pages first..first+n have no mapping; the rest as before. */
  ghost predicate Cleared(tables: Tables, t: Tree, tables': Tables, t': Tree, first: nat, n: nat) {
    forall v: nat :: v < MAX_VPN ==>
      Lookup(tables', t', v) == if first <= v < first + n then NO_PTE else Lookup(tables, t, v)
  }

  /** The physical pages that pages first..first+n map to. */
  ghost function FramesOf(tables: Tables, t: Tree, first: nat, n: nat): set<nat> {
    if n == 0 then {} else FramesOf(tables, t, first, n - 1) + {Lookup(tables, t, first + n - 1).page}
  }

  lemma {:induction false} FramesOfIff(tables: Tables, t: Tree, first: nat, n: nat, p: nat)
    ensures p in FramesOf(tables, t, first, n)
        <==> exists v: nat :: first <= v < first + n && Lookup(tables, t, v).page == p
  {
    hide Lookup;
    if n > 0 {
      FramesOfIff(tables, t, first, n - 1, p);
      assert Lookup(tables, t, first + n - 1).page == p ==> p in FramesOf(tables, t, first, n);
    }
  }

  lemma {:induction false} FramesOfSame(tables: Tables, t: Tree, tables': Tables, t': Tree, first: nat, n: nat)
    requires forall v: nat :: first <= v < first + n ==> Lookup(tables', t', v) == Lookup(tables, t, v)
    ensures FramesOf(tables', t', first, n) == FramesOf(tables, t, first, n)
  {
    hide Lookup;
    if n > 0 {
      FramesOfSame(tables, t, tables', t', first, n - 1);
    }
  }

  /** Pages first..first+n are mapped, by leaves, to different pages of `owned`. */
  ghost predicate UserPages(tables: Tables, t: Tree, owned: set<nat>, first: nat, n: nat) {
    && first + n <= MAX_VPN
    && (forall v: nat :: first <= v < first + n ==>
          Lookup(tables, t, v).IsValid() && Lookup(tables, t, v).flags != PTE_V && Lookup(tables, t, v).page in owned)
    && (forall v: nat, w: nat :: first <= v < first + n && first <= w < first + n && v != w ==>
          Lookup(tables, t, v).page != Lookup(tables, t, w).page)
  }

  /** Pages not yet unmapped still map to pages not yet freed. */
  lemma StillOwned(tables: Tables, t: Tree, owned: set<nat>, first: nat, n: nat, k: nat)
    requires UserPages(tables, t, owned, first, n) && k < n
    ensures Lookup(tables, t, first + k).page in owned - FramesOf(tables, t, first, k)
  {
    hide Lookup;
    FramesOfIff(tables, t, first, k, Lookup(tables, t, first + k).page);
  }

  lemma ClearedMore(tables: Tables, t: Tree, tables1: Tables, tables2: Tables, first: nat, k: nat)
    requires Cleared(tables, t, tables1, t, first, k) && MappedOne(tables1, t, tables2, t, first + k, NO_PTE)
    ensures Cleared(tables, t, tables2, t, first, k + 1)
  {
  }

  /** A tree growing next to another leaves the other alone. */
  lemma OtherTree(tables: Tables, t: Tree, tables': Tables, t': Tree, other: Tree)
    requires Grown(tables, t, tables', t') && Wellformed(tables, other) && t.Pages() !! other.Pages()
    ensures Wellformed(tables', other) && SameMap(tables, other, tables', other) && t'.Pages() !! other.Pages()
  {
    hide Lookup;
    OtherPages(tables, t, tables', t', other);
    TreeFrame(tables, tables', other);
  }

  lemma OtherPages(tables: Tables, t: Tree, tables': Tables, t': Tree, other: Tree)
    requires Grown(tables, t, tables', t') && Wellformed(tables, other) && t.Pages() !! other.Pages()
    ensures other.Pages() <= tables'.Keys && t'.Pages() !! other.Pages()
    ensures forall p :: p in other.Pages() ==> p in tables && tables'[p] == tables[p]
  {
  }

  // ----- whole subtrees, as freewalk sees them -----

  /** The table pages at and below `page`. */
  ghost function Under(tables: Tables, page: nat, level: nat): set<nat>
    decreases level, ENTRIES + 1
  {
    {page} + if level == 0 || page !in tables then {} else UnderFirst(tables, page, level, ENTRIES)
  }

  /** The table pages below the first `n` entries of `page`. */
  ghost function UnderFirst(tables: Tables, page: nat, level: nat, n: nat): set<nat>
    requires level > 0 && page in tables && n <= ENTRIES
    decreases level, n
  {
    if n == 0 then {}
    else UnderFirst(tables, page, level, n - 1)
         + if tables[page][n - 1].IsValid() then Under(tables, tables[page][n - 1].page, level - 1) else {}
  }

  /** No leaves are left, and no page is reached twice. */
  ghost predicate Bare(tables: Tables, page: nat, level: nat)
    decreases level
  {
    && page in tables
    && (forall i :: 0 <= i < ENTRIES && tables[page][i].IsValid() ==>
          level > 0 && !tables[page][i].IsLeaf() && Bare(tables, tables[page][i].page, level - 1))
    && (level > 0 ==> forall n: nat :: n < ENTRIES && tables[page][n].IsValid() ==>
          var below := Under(tables, tables[page][n].page, level - 1);
          page !in below && below !! UnderFirst(tables, page, level, n))
  }

  lemma BareFrom(tables: Tables, page: nat, level: nat)
    requires level > 0 && page in tables
    requires forall n: nat :: n < ENTRIES && tables[page][n].IsValid() ==>
               !tables[page][n].IsLeaf() && Bare(tables, tables[page][n].page, level - 1)
               && page !in Under(tables, tables[page][n].page, level - 1)
               && Under(tables, tables[page][n].page, level - 1) !! UnderFirst(tables, page, level, n)
    ensures Bare(tables, page, level) && Under(tables, page, level) == {page} + UnderFirst(tables, page, level, ENTRIES)
  {
  }

  lemma {:induction false} UnderFirstMonotone(tables: Tables, page: nat, level: nat, m: nat, n: nat)
    requires level > 0 && page in tables && m <= n <= ENTRIES
    ensures UnderFirst(tables, page, level, m) <= UnderFirst(tables, page, level, n)
  {
    hide Under;
    if m < n {
      UnderFirstMonotone(tables, page, level, m, n - 1);
    }
  }

  /** A bare subtree depends on its own pages only. */
  lemma {:induction false} BareFrame(tables: Tables, tables': Tables, page: nat, level: nat)
    requires Bare(tables, page, level)
    requires forall p :: p in Under(tables, page, level) ==> p in tables && p in tables' && tables'[p] == tables[p]
    ensures Bare(tables', page, level) && Under(tables', page, level) == Under(tables, page, level)
    decreases level, ENTRIES + 1
  {
    if level > 0 {
      forall n: nat | n < ENTRIES && tables[page][n].IsValid()
        ensures Bare(tables', tables[page][n].page, level - 1)
        ensures Under(tables', tables[page][n].page, level - 1) == Under(tables, tables[page][n].page, level - 1)
      {
        UnderFirstMonotone(tables, page, level, n + 1, ENTRIES);
        BareFrame(tables, tables', tables[page][n].page, level - 1);
      }
      forall n: nat | n <= ENTRIES ensures UnderFirst(tables', page, level, n) == UnderFirst(tables, page, level, n) {
        UnderFirstSame(tables, tables', page, level, n);
      }
    }
  }

  /** A bare subtree is made of tables. */
  lemma {:induction false} BareWithin(tables: Tables, page: nat, level: nat)
    requires Bare(tables, page, level)
    ensures Under(tables, page, level) <= tables.Keys
    decreases level, ENTRIES + 1
  {
    if level > 0 {
      UnderFirstWithin(tables, page, level, ENTRIES);
    }
  }

  lemma {:induction false} UnderFirstWithin(tables: Tables, page: nat, level: nat, n: nat)
    requires Bare(tables, page, level) && level > 0 && n <= ENTRIES
    ensures UnderFirst(tables, page, level, n) <= tables.Keys
    decreases level, n
  {
    hide Under;
    if n > 0 {
      UnderFirstWithin(tables, page, level, n - 1);
      if tables[page][n - 1].IsValid() {
        BareWithin(tables, tables[page][n - 1].page, level - 1);
      }
    }
  }

  /** `tables` once freewalk has done the first `n` entries of `page`. */
  ghost predicate WalkedFirst(before: Tables, tables: Tables, page: nat, n: nat, gone: set<nat>) {
    && page in before && page in tables && n <= ENTRIES && page !in gone
    && (forall i :: n <= i < ENTRIES ==> tables[page][i] == before[page][i])
    && (forall p :: p in tables <==> p in before && p !in gone)
    && (forall p :: p in tables && p != page ==> tables[p] == before[p])
  }

  ghost function FreedBy(tables: Tables, page: nat, level: nat, n: nat): set<nat>
    requires page in tables && n <= ENTRIES
  {
    if level == 0 then {} else UnderFirst(tables, page, level, n)
  }

  lemma FreedByEnds(tables: Tables, page: nat, level: nat)
    requires page in tables
    ensures FreedBy(tables, page, level, 0) == {}
    ensures {page} + FreedBy(tables, page, level, ENTRIES) == Under(tables, page, level)
  {
  }

  /** What freewalk meets at entry `n`. */
  lemma NextChild(before: Tables, tables: Tables, page: nat, level: nat, n: nat)
    requires Bare(before, page, level) && n < ENTRIES
    requires WalkedFirst(before, tables, page, n, FreedBy(before, page, level, n))
    ensures page in tables && tables[page][n] == before[page][n]
    ensures !before[page][n].IsValid() ==> WalkedFirst(before, tables, page, n + 1, FreedBy(before, page, level, n + 1))
    ensures before[page][n].IsValid() ==>
              && level > 0 && !before[page][n].IsLeaf() && Bare(tables, before[page][n].page, level - 1)
              && var below := Under(before, before[page][n].page, level - 1);
                && Under(tables, before[page][n].page, level - 1) == below && page !in below
                && below !! FreedBy(before, page, level, n)
                && below <= before.Keys
                && FreedBy(before, page, level, n + 1) == FreedBy(before, page, level, n) + below
    ensures !before[page][n].IsValid() ==> FreedBy(before, page, level, n + 1) == FreedBy(before, page, level, n)
  {
    var e := before[page][n];
    if e.IsValid() {
      BareWithin(before, e.page, level - 1);
      assert Under(before, e.page, level - 1) !! UnderFirst(before, page, level, n);
      hide Under, UnderFirst;
      BareFrame(before, tables, e.page, level - 1);
    }
  }

  lemma WalkedNothing(tables: Tables, page: nat)
    requires page in tables
    ensures WalkedFirst(tables, tables, page, 0, {})
  {
  }

  lemma WalkedAll(before: Tables, tables: Tables, page: nat, gone: set<nat>)
    requires WalkedFirst(before, tables, page, ENTRIES, gone)
    ensures page in tables && tables - {page} == before - ({page} + gone)
  {
  }

  lemma WalkedNext(before: Tables, tables: Tables, page: nat, n: nat, gone: set<nat>, below: set<nat>)
    requires n < ENTRIES && WalkedFirst(before, tables, page, n, gone) && page !in below
    ensures var t1 := tables - below;
      page in t1 && WalkedFirst(before, t1[page := t1[page][n := NO_PTE]], page, n + 1, gone + below)
  {
  }

  lemma {:induction false} UnderFirstSame(tables: Tables, tables': Tables, page: nat, level: nat, n: nat)
    requires level > 0 && page in tables && page in tables' && tables'[page] == tables[page] && n <= ENTRIES
    requires forall i: nat :: i < n && tables[page][i].IsValid() ==>
               Under(tables', tables[page][i].page, level - 1) == Under(tables, tables[page][i].page, level - 1)
    ensures UnderFirst(tables', page, level, n) == UnderFirst(tables, page, level, n)
    decreases level, n
  {
    hide Under;
    if n > 0 {
      UnderFirstSame(tables, tables', page, level, n - 1);
    }
  }

  function Vpn(i: nat, j: nat, k: nat): (v: nat)
    requires i < TOP_ENTRIES && j < ENTRIES && k < ENTRIES
    ensures v < MAX_VPN && Px2(v) == i && Px1(v) == j && Px0(v) == k
  {
    (i * ENTRIES + j) * ENTRIES + k
  }

  /** A tree whose leaves are all gone is bare and holds just its own pages. */
  lemma TreeBare(tables: Tables, t: Tree)
    requires Wellformed(tables, t) && forall v: nat :: v < MAX_VPN ==> !Lookup(tables, t, v).IsValid()
    ensures Bare(tables, t.root, 2) && Under(tables, t.root, 2) == t.Pages()
  {
    hide Lookup, Under, Bare, UnderFirst;
    forall i, j | (i, j) in t.low ensures LowBare(tables, t.low[(i, j)]) {
      LowestBare(tables, t, i, j);
    }
    forall i | i in t.mid ensures MidBare(tables, t, i) {
      MiddleBare(tables, t, i);
    }
    RootBare(tables, t);
  }

  ghost predicate LowBare(tables: Tables, page: nat) {
    Bare(tables, page, 0) && Under(tables, page, 0) == {page}
  }

  lemma LowestBare(tables: Tables, t: Tree, i: nat, j: nat)
    requires Wellformed(tables, t) && (i, j) in t.low
    requires forall v: nat :: v < MAX_VPN ==> !Lookup(tables, t, v).IsValid()
    ensures LowBare(tables, t.low[(i, j)])
  {
    hide Px2, Px1, Px0;
    forall k: nat | k < ENTRIES ensures !tables[t.low[(i, j)]][k].IsValid() {
      assert tables[t.low[(i, j)]][k] == Lookup(tables, t, Vpn(i, j, k));
    }
  }

  ghost predicate MidBare(tables: Tables, t: Tree, i: nat)
    requires i in t.mid
  {
    && Bare(tables, t.mid[i], 1)
    && forall p :: p in Under(tables, t.mid[i], 1) <==>
         p in t.role && (t.role[p] == Mid(i) || (t.role[p].Low? && t.role[p].i == i))
  }

  lemma MiddleBare(tables: Tables, t: Tree, i: nat)
    requires Wellformed(tables, t) && i in t.mid && forall i, j :: (i, j) in t.low ==> LowBare(tables, t.low[(i, j)])
    ensures MidBare(tables, t, i)
  {
    hide Lookup, UnderFirst;
    forall n: nat, p: nat | n <= ENTRIES
      ensures p in UnderFirst(tables, t.mid[i], 1, n)
          <==> p in t.role && t.role[p].Low? && t.role[p].i == i && t.role[p].j < n
    {
      UnderMiddle(tables, t, i, n, p);
    }
  }

  lemma {:induction false} UnderMiddle(tables: Tables, t: Tree, i: nat, n: nat, p: nat)
    requires Wellformed(tables, t) && i in t.mid && n <= ENTRIES
    requires forall i, j :: (i, j) in t.low ==> LowBare(tables, t.low[(i, j)])
    ensures p in UnderFirst(tables, t.mid[i], 1, n)
        <==> p in t.role && t.role[p].Low? && t.role[p].i == i && t.role[p].j < n
  {
    hide Lookup, Under, Bare;
    if n > 0 {
      UnderMiddle(tables, t, i, n - 1, p);
    }
  }

  lemma {:induction false} UnderRoot(tables: Tables, t: Tree, n: nat, p: nat)
    requires Wellformed(tables, t) && n <= ENTRIES && forall i :: i in t.mid ==> MidBare(tables, t, i)
    ensures p in UnderFirst(tables, t.root, 2, n) <==> p in t.role && !t.role[p].Root? && t.role[p].i < n
  {
    hide Lookup, Under, Bare;
    if n > 0 {
      UnderRoot(tables, t, n - 1, p);
    }
  }

  lemma RootBare(tables: Tables, t: Tree)
    requires Wellformed(tables, t) && forall i :: i in t.mid ==> MidBare(tables, t, i)
    ensures Bare(tables, t.root, 2) && Under(tables, t.root, 2) == t.Pages()
  {
    hide Lookup, UnderFirst, Under, Bare;
    forall n: nat, p: nat | n <= ENTRIES
      ensures p in UnderFirst(tables, t.root, 2, n) <==> p in t.role && !t.role[p].Root? && t.role[p].i < n
    {
      UnderRoot(tables, t, n, p);
    }
    BareFrom(tables, t.root, 2);
  }
}
