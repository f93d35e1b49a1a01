/**
 The user-level storage allocator of Kernighan and Ritchie: a circular list of
 free blocks in address order. A block is a 16-byte header and the units of
 16 bytes that follow it; its size counts the header.
 */
module Heap {
  import opened Collections

  const UNIT := 16             // sizeof(Header)
  const GRAIN := 4096          // morecore asks for no less
  const INT_RANGE := 0x8000_0000

  // ----- blocks -----

  /** The address after a block of `n` units at `a`. */
  function End(a: nat, n: nat): (e: nat)
    ensures if n == 0 then e == a else a < e
  {
    a + 16 * n
  }

  /** No two blocks overlap. */
  ghost predicate Disjoint(blocks: map<nat, nat>) {
    forall a, b :: a in blocks && b in blocks && a < b ==> End(a, blocks[a]) <= b
  }

  /** The units in all blocks. */
  ghost function Total(blocks: map<nat, nat>): nat {
    if blocks == map[] then 0 else var a :| a in blocks; blocks[a] + Total(blocks - {a})
  }

  lemma {:induction false} TotalWithout(blocks: map<nat, nat>, a: nat)
    requires a in blocks
    ensures Total(blocks) == blocks[a] + Total(blocks - {a})
    decreases |blocks|
  {
    var b :| b in blocks && Total(blocks) == blocks[b] + Total(blocks - {b});
    if a != b {
      TotalWithout(blocks - {b}, a);
      TotalWithout(blocks - {a}, b);
      assert blocks - {b} - {a} == blocks - {a} - {b};
    }
  }

  lemma TotalWith(blocks: map<nat, nat>, a: nat, n: nat)
    ensures Total(blocks[a := n]) == n + Total(blocks - {a})
  {
    TotalWithout(blocks[a := n], a);
    assert blocks[a := n] - {a} == blocks - {a};
  }

  /** Two blocks become one, or one becomes two: the units stay. */
  lemma TotalMoved(blocks: map<nat, nat>, a: nat, b: nat, n: nat)
    requires a in blocks && b !in blocks && n <= blocks[a]
    ensures Total(blocks[a := blocks[a] - n][b := n]) == Total(blocks)
  {
    TotalWithout(blocks, a);
    var split := blocks[a := blocks[a] - n];
    TotalWith(blocks, a, blocks[a] - n);
    TotalWith(split, b, n);
    assert split - {b} == split;
  }

  lemma TotalMerged(blocks: map<nat, nat>, a: nat, b: nat)
    requires a in blocks && b in blocks && a != b
    ensures Total((blocks - {b})[a := blocks[a] + blocks[b]]) == Total(blocks)
  {
    var merged := (blocks - {b})[a := blocks[a] + blocks[b]];
    TotalMoved(merged, a, b, blocks[b]);
    assert merged[a := merged[a] - blocks[b]][b := blocks[b]] == blocks;
  }

  // ----- the free list -----

  function Next(i: nat, n: nat): nat
    requires i < n
  {
    if i + 1 < n then i + 1 else 0
  }

  /** Steps round a cycle of n from i to t. */
  function Distance(i: nat, t: nat, n: nat): (d: nat)
    requires i < n && t < n
    ensures d < n && (d == 0 <==> i == t)
  {
    if i <= t then t - i else n - i + t
  }

  /** A walk round the cycle from after f comes to t before it is back at f. */
  lemma Going(i: nat, f: nat, t: nat, n: nat)
    requires i < n && f < n && t < n
    ensures var j := Next(i, n); j != t ==> Distance(Next(j, n), t, n) < Distance(j, t, n)
    ensures t != f && Next(i, n) == f ==> Distance(Next(i, n), t, n) > Distance(Next(f, n), t, n)
  {
  }

  /** Following `ptr` from list[0] visits `list` and returns. */
  ghost predicate Cycle(list: seq<nat>, ptr: map<nat, nat>) {
    && (forall i :: 0 <= i < |list| ==> list[i] in ptr)
    && (forall i: nat, j: nat {:trigger ptr[list[i]], list[j]} :: i < |list| && j == Next(i, |list|) ==>
          ptr[list[i]] == list[j])
  }

  ghost predicate Increasing(list: seq<nat>) {
    forall i, j :: 0 <= i < j < |list| ==> list[i] < list[j]
  }

  ghost function Members(list: seq<nat>): (r: set<nat>)
    ensures forall i :: 0 <= i < |list| ==> list[i] in r
  {
    set a | a in list
  }

  /** No free block ends where another starts, save for the pairs in `touch`. */
  ghost predicate Apart(free: set<nat>, blocks: map<nat, nat>, touch: set<(nat, nat)>) {
    && free <= blocks.Keys
    && (forall a, b :: a in free && b in free && a < b && End(a, blocks[a]) == b ==> (a, b) in touch)
  }

  ghost predicate FreeList(list: seq<nat>, ptr: map<nat, nat>, blocks: map<nat, nat>, base: nat,
                           touch: set<(nat, nat)>) {
    |list| > 0 && list[0] == base && Cycle(list, ptr) && Increasing(list) && Apart(Members(list), blocks, touch)
  }

  /** `bp` belongs right after list[t]. */
  ghost predicate Place(list: seq<nat>, bp: nat, t: nat) {
    t < |list| && list[t] < bp && (t + 1 < |list| ==> bp < list[t + 1])
  }

  /** The `n` units at `a` lie in one free block. */
  ghost predicate Covered(free: set<nat>, blocks: map<nat, nat>, a: nat, n: nat) {
    exists f :: f in free && f in blocks && f <= a && End(a, n) <= End(f, blocks[f])
  }

  ghost predicate AllCovered(free: set<nat>, blocks: map<nat, nat>, free': set<nat>, blocks': map<nat, nat>) {
    forall a :: a in free && a in blocks ==> Covered(free', blocks', a, blocks[a])
  }

  lemma {:induction false} FindPlace(list: seq<nat>, bp: nat, k: nat) returns (t: nat)
    requires 0 < k <= |list| && list[0] < bp && Increasing(list)
    requires bp !in list && (k < |list| ==> bp < list[k])
    ensures Place(list, bp, t)
  {
    if list[k - 1] < bp {
      t := k - 1;
    } else {
      t := FindPlace(list, bp, k - 1);
    }
  }

  /** The test that ends free's search holds at the place and nowhere else. */
  lemma SearchEnds(list: seq<nat>, bp: nat, t: nat, i: nat)
    requires Place(list, bp, t) && i < |list| && list[0] < bp && Increasing(list)
    ensures var p, q := list[i], list[Next(i, |list|)];
      (bp > p && bp < q) || (p >= q && (bp > p || bp < q)) <==> i == t
  {
  }

  function With(list: seq<nat>, i: nat, b: nat): (r: seq<nat>)
    requires i <= |list|
    ensures |r| == |list| + 1
    ensures forall k {:trigger r[k]} :: 0 <= k < |r| ==>
              r[k] == if k < i then list[k] else if k == i then b else list[k - 1]
  {
    list[..i] + [b] + list[i..]
  }

  /** `b` comes between `a` and what followed it. */
  function LinkAfter(ptr: map<nat, nat>, a: nat, b: nat): map<nat, nat>
    requires a in ptr
  {
    ptr[b := ptr[a]][a := b]
  }

  /** What followed `b` follows `a`. */
  function SkipAfter(ptr: map<nat, nat>, a: nat, b: nat): map<nat, nat>
    requires b in ptr
  {
    ptr[a := ptr[b]]
  }

  ghost function Joined(blocks: map<nat, nat>, a: nat, b: nat): map<nat, nat>
    requires a in blocks && b in blocks
  {
    (blocks - {b})[a := blocks[a] + blocks[b]]
  }

  lemma CycleWith(list: seq<nat>, ptr: map<nat, nat>, b: nat, t: nat)
    requires Cycle(list, ptr) && Increasing(list) && t < |list| && b !in list
    ensures Cycle(With(list, t + 1, b), LinkAfter(ptr, list[t], b))
  {
  }

  lemma CycleWithout(list: seq<nat>, ptr: map<nat, nat>, t: nat)
    requires Cycle(list, ptr) && Increasing(list) && t + 1 < |list|
    ensures Cycle(Without(list, t + 1), SkipAfter(ptr, list[t], list[t + 1]))
  {
    hide Without;
    var list1, ptr1 := Without(list, t + 1), SkipAfter(ptr, list[t], list[t + 1]);
    forall i: nat | i < |list1| ensures list1[i] in ptr1 && ptr1[list1[i]] == list1[Next(i, |list1|)] {
      if i <= t {
        assert list1[i] == list[i];
      } else {
        assert list1[i] == list[i + 1];
      }
    }
  }

  lemma IncreasingWith(list: seq<nat>, b: nat, t: nat)
    requires Increasing(list) && Place(list, b, t)
    ensures b !in list && Increasing(With(list, t + 1, b)) && Members(With(list, t + 1, b)) == Members(list) + {b}
    ensures forall a :: a in Members(list) ==>
              if a < b then a <= list[t] else a > b && t + 1 < |list| && a >= list[t + 1]
  {
    forall i | 0 <= i < |list| ensures if i <= t then list[i] <= list[t] < b else list[i] >= list[t + 1] > b {
    }
  }

  lemma IncreasingWithout(list: seq<nat>, t: nat)
    requires Increasing(list) && t < |list|
    ensures Increasing(Without(list, t)) && Members(Without(list, t)) == Members(list) - {list[t]}
  {
  }

  /** A block among others is kept apart from all but its neighbours. */
  lemma ApartWith(free: set<nat>, blocks: map<nat, nat>, p: nat, b: nat)
    requires Apart(free, blocks, {}) && Disjoint(blocks) && b in blocks && p in free && p < b
    requires forall a :: a in free && a < b ==> a <= p
    ensures forall q :: q in free && q > b && (forall a :: a in free && a > b ==> a >= q) ==>
              Apart(free + {b}, blocks, {(p, b), (b, q)})
    ensures (forall a :: a in free ==> a <= b) ==> Apart(free + {b}, blocks, {(p, b)})
  {
    hide End;
  }

  /** Two free blocks that touch become one. */
  lemma ApartJoined(free: set<nat>, blocks: map<nat, nat>, touch: set<(nat, nat)>, a: nat, b: nat)
    requires Apart(free, blocks, touch + {(a, b)}) && Disjoint(blocks) && a in free && b in free && a < b
    requires End(a, blocks[a]) == b
    requires forall k :: k in touch ==> k.1 <= a
    ensures Apart(free - {b}, Joined(blocks, a, b), touch)
  {
  }

  lemma DisjointJoined(blocks: map<nat, nat>, a: nat, b: nat)
    requires Disjoint(blocks) && a in blocks && b in blocks && a < b && End(a, blocks[a]) == b
    ensures Disjoint(Joined(blocks, a, b))
  {
  }

  lemma ListMeans(list: seq<nat>, ptr: map<nat, nat>, blocks: map<nat, nat>, base: nat, touch: set<(nat, nat)>, t: nat)
    requires FreeList(list, ptr, blocks, base, touch) && t < |list|
    ensures list[t] in blocks && list[t] in ptr && list[t] in Members(list) && ptr[list[t]] == list[Next(t, |list|)]
    ensures t > 0 ==> list[t - 1] < list[t]
  {
  }

  lemma LinkedIn(list: seq<nat>, ptr: map<nat, nat>, blocks: map<nat, nat>, base: nat, b: nat, t: nat)
    requires FreeList(list, ptr, blocks, base, {}) && Disjoint(blocks) && b in blocks && Place(list, b, t)
    ensures FreeList(With(list, t + 1, b), LinkAfter(ptr, list[t], b), blocks, base,
                     {(list[t], b)} + if t + 1 < |list| then {(b, list[t + 1])} else {})
    ensures Members(With(list, t + 1, b)) == Members(list) + {b}
  {
    hide Cycle, Increasing, With, Apart, Members, Disjoint, LinkAfter;
    ListMeans(list, ptr, blocks, base, {}, t);
    IncreasingWith(list, b, t);
    CycleWith(list, ptr, b, t);
    ApartWith(Members(list), blocks, list[t], b);
    if t + 1 < |list| {
      assert {(list[t], b)} + {(b, list[t + 1])} == {(list[t], b), (b, list[t + 1])};
    } else {
      assert {(list[t], b)} + {} == {(list[t], b)};
    }
  }

  lemma JoinedNext(list: seq<nat>, ptr: map<nat, nat>, blocks: map<nat, nat>, base: nat, touch: set<(nat, nat)>, t: nat,
                   a: nat, b: nat)
    requires t + 1 < |list| && a == list[t] && b == list[t + 1] && FreeList(list, ptr, blocks, base, touch + {(a, b)})
    requires Disjoint(blocks)
    requires a in blocks && b in blocks && a in ptr && b in ptr && a < b && End(a, blocks[a]) == b
    requires forall k :: k in touch ==> k.1 <= a
    ensures FreeList(Without(list, t + 1), SkipAfter(ptr, a, b), Joined(blocks, a, b), base, touch)
    ensures Members(Without(list, t + 1)) == Members(list) - {b}
  {
    hide Cycle, Increasing, Without, Apart, Members, Disjoint, Joined, End, SkipAfter;
    IncreasingWithout(list, t + 1);
    CycleWithout(list, ptr, t);
    ApartJoined(Members(list), blocks, touch, a, b);
  }

  lemma JoinedBlocks(free: set<nat>, blocks: map<nat, nat>, a: nat, b: nat)
    requires Disjoint(blocks) && a in free && b in free && free <= blocks.Keys && a < b && End(a, blocks[a]) == b
    ensures Disjoint(Joined(blocks, a, b)) && Total(Joined(blocks, a, b)) == Total(blocks)
    ensures AllCovered(free, blocks, free - {b}, Joined(blocks, a, b))
  {
    hide End, Disjoint, Total, AllCovered;
    DisjointJoined(blocks, a, b);
    TotalMerged(blocks, a, b);
    JoinCovers(free, blocks, a, b);
  }

  lemma JoinCovers(free: set<nat>, blocks: map<nat, nat>, a: nat, b: nat)
    requires a in free && b in free && free <= blocks.Keys && a < b && End(a, blocks[a]) == b
    ensures AllCovered(free, blocks, free - {b}, Joined(blocks, a, b))
  {
    forall x | x in free ensures Covered(free - {b}, Joined(blocks, a, b), x, blocks[x]) {
      var f := if x == b then a else x;
      assert f in free - {b};
    }
  }

  lemma NotTouching(list: seq<nat>, ptr: map<nat, nat>, blocks: map<nat, nat>, base: nat, touch: set<(nat, nat)>,
                    a: nat, b: nat)
    requires FreeList(list, ptr, blocks, base, touch + {(a, b)}) && a in blocks && End(a, blocks[a]) != b
    ensures FreeList(list, ptr, blocks, base, touch)
  {
  }

  // ----- the whole heap -----

  /** Free and live blocks share out `blocks`, all between base and the break,
      and their headers in memory give their sizes. */
  ghost predicate Laid(blocks: map<nat, nat>, free: set<nat>, live: set<nat>, size: map<nat, nat>, base: nat,
                       brk: nat) {
    && blocks.Keys == free + live && free !! live
    && base in free && blocks[base] == 0
    && Disjoint(blocks)
    && (forall a :: a in blocks ==> base <= a && End(a, blocks[a]) <= brk)
    && (forall a :: a in blocks && a != base ==> blocks[a] > 0)
    && (forall a :: a in blocks ==> a in size && size[a] == blocks[a])
  }

  /** The allocator's memory: the links and sizes in the headers, and which
      blocks are on the free list, in order, or live. */
  datatype Shape = Shape(list: seq<nat>, ptr: map<nat, nat>, size: map<nat, nat>, blocks: map<nat, nat>, live: set<nat>)

  ghost predicate Ok(h: Shape, base: nat, brk: nat, touch: set<(nat, nat)>) {
    && FreeList(h.list, h.ptr, h.blocks, base, touch)
    && Laid(h.blocks, Members(h.list), h.live, h.size, base, brk)
  }

  /** `h'` has the units, the live blocks and the free room of `h`. */
  ghost predicate SameUnits(h: Shape, h': Shape) {
    && Total(h'.blocks) == Total(h.blocks) && h'.live == h.live
    && (forall a :: a in h.live ==> a in h.blocks && a in h'.blocks && h'.blocks[a] == h.blocks[a])
    && AllCovered(Members(h.list), h.blocks, Members(h'.list), h'.blocks)
  }

  lemma SameUnitsTransitive(h: Shape, h': Shape, h'': Shape)
    requires SameUnits(h, h') && SameUnits(h', h'')
    ensures SameUnits(h, h'')
  {
  }

  /** A live block goes back on the list after list[t], as yet unmerged. */
  function Inserted(h: Shape, b: nat, t: nat): Shape
    requires t < |h.list| && h.list[t] in h.ptr
  {
    h.(list := With(h.list, t + 1, b), ptr := LinkAfter(h.ptr, h.list[t], b), live := h.live - {b})
  }

  ghost function JoinedAt(h: Shape, t: nat): Shape
    requires t + 1 < |h.list|
    requires h.list[t + 1] in h.ptr && h.list[t] in h.size && h.list[t + 1] in h.size && h.list[t] in h.blocks
    requires h.list[t + 1] in h.blocks
  {
    var a, b := h.list[t], h.list[t + 1];
    h.(list := Without(h.list, t + 1), ptr := SkipAfter(h.ptr, a, b), size := h.size[a := h.size[a] + h.size[b]],
       blocks := Joined(h.blocks, a, b))
  }

  lemma InsertedOk(h: Shape, base: nat, brk: nat, b: nat, t: nat)
    requires Ok(h, base, brk, {}) && b in h.live && Place(h.list, b, t)
    ensures h.list[t] in h.ptr
    ensures Ok(Inserted(h, b, t), base, brk, {(h.list[t], b)} + if t + 1 < |h.list| then {(b, h.list[t + 1])} else {})
    ensures Members(Inserted(h, b, t).list) == Members(h.list) + {b}
  {
    hide Cycle, Increasing, With, Apart, Members, Disjoint, LinkAfter, End;
    ListMeans(h.list, h.ptr, h.blocks, base, {}, t);
    LaidFreed(h.blocks, Members(h.list), h.live, h.size, base, brk, b);
    LinkedIn(h.list, h.ptr, h.blocks, base, b, t);
  }

  /** Everything about list[t] and list[t + 1]. */
  ghost predicate Pair(h: Shape, t: nat, a: nat, b: nat) {
    && t + 1 < |h.list| && a == h.list[t] && b == h.list[t + 1] && a < b
    && a in h.ptr && b in h.ptr && a in h.size && b in h.size && a in h.blocks && b in h.blocks
    && h.size[a] == h.blocks[a] && h.size[b] == h.blocks[b]
  }

  lemma PairMeans(h: Shape, base: nat, brk: nat, touch: set<(nat, nat)>, t: nat)
    requires Ok(h, base, brk, touch) && t + 1 < |h.list|
    ensures Pair(h, t, h.list[t], h.list[t + 1])
  {
  }

  lemma JoinedOk(h: Shape, base: nat, brk: nat, touch: set<(nat, nat)>, t: nat, a: nat, b: nat)
    requires Ok(h, base, brk, touch + {(a, b)}) && Pair(h, t, a, b) && End(a, h.blocks[a]) == b
    requires forall k :: k in touch ==> k.1 <= a
    ensures Ok(JoinedAt(h, t), base, brk, touch) && SameUnits(h, JoinedAt(h, t))
  {
    hide Cycle, Increasing, Apart, Members, Disjoint, End, AllCovered, SkipAfter, Without, Total;
    JoinedNext(h.list, h.ptr, h.blocks, base, touch, t, a, b);
    JoinedBlocks(Members(h.list), h.blocks, a, b);
    LaidJoined(h.blocks, Members(h.list), h.live, h.size, base, brk, a, b);
  }

  lemma LaidFreed(blocks: map<nat, nat>, free: set<nat>, live: set<nat>, size: map<nat, nat>, base: nat, brk: nat,
                  b: nat)
    requires Laid(blocks, free, live, size, base, brk) && b in live
    ensures Laid(blocks, free + {b}, live - {b}, size, base, brk) && b in blocks && b in size
    ensures size[b] == blocks[b] > 0 && base < b && b !in free
    ensures free <= blocks.Keys && Disjoint(blocks) && forall a :: a in free ==> a in size && size[a] == blocks[a]
  {
  }

  lemma LaidJoined(blocks: map<nat, nat>, free: set<nat>, live: set<nat>, size: map<nat, nat>, base: nat, brk: nat,
                   a: nat, b: nat)
    requires Laid(blocks, free, live, size, base, brk) && a in free && b in free && a < b && End(a, blocks[a]) == b
    ensures a in blocks && b in blocks && a in size && b in size
    ensures Laid(Joined(blocks, a, b), free - {b}, live, size[a := size[a] + size[b]], base, brk)
  {
    hide Disjoint, End;
    DisjointJoined(blocks, a, b);
    EndJoined(a, blocks[a], blocks[b]);
  }

  lemma EndJoined(a: nat, m: nat, n: nat)
    ensures End(a, m + n) == End(End(a, m), n)
  {
  }

  /** What free finds on inserting `b` after list[t]. */
  lemma Neighbours(h: Shape, base: nat, brk: nat, b: nat, t: nat)
    requires Ok(h, base, brk, {}) && b in h.live && Place(h.list, b, t)
    ensures h.list[t] in h.ptr && h.ptr[h.list[t]] == h.list[Next(t, |h.list|)]
    ensures b in h.size && b in h.blocks && h.size[b] == h.blocks[b] && base < b
    ensures h.list[t] in h.size && h.list[t] in h.blocks && h.size[h.list[t]] == h.blocks[h.list[t]]
    ensures t + 1 == |h.list| ==> End(b, h.blocks[b]) != h.ptr[h.list[t]]
  {
  }

  /** `b` does not touch what follows it. */
  lemma RightApart(h: Shape, base: nat, brk: nat, b: nat, t: nat)
    requires Ok(h, base, brk, {}) && b in h.live && Place(h.list, b, t) && b in h.blocks
    requires t + 1 < |h.list| ==> End(b, h.blocks[b]) != h.list[t + 1]
    ensures h.list[t] in h.ptr && Ok(Inserted(h, b, t), base, brk, {(h.list[t], b)})
  {
    hide Cycle, Increasing, Apart, Members, Disjoint, End, Laid, With, LinkAfter;
    InsertedOk(h, base, brk, b, t);
    var h', p := Inserted(h, b, t), h.list[t];
    if t + 1 < |h.list| {
      NotTouching(h'.list, h'.ptr, h'.blocks, base, {(p, b)}, b, h.list[t + 1]);
    } else {
      assert {(p, b)} + {} == {(p, b)};
    }
  }

  /** `b` absorbs what follows it. */
  lemma RightTouch(h: Shape, base: nat, brk: nat, b: nat, t: nat)
    requires Ok(h, base, brk, {}) && b in h.live && Place(h.list, b, t) && b in h.blocks
    requires t + 1 < |h.list| && End(b, h.blocks[b]) == h.list[t + 1]
    ensures h.list[t] in h.ptr && Pair(Inserted(h, b, t), t + 1, b, h.list[t + 1])
    ensures var h' := Inserted(h, b, t);
      Ok(JoinedAt(h', t + 1), base, brk, {(h.list[t], b)}) && SameUnits(h', JoinedAt(h', t + 1))
  {
    hide Cycle, Increasing, Apart, Members, Disjoint, End, Laid, LinkAfter, With, SameUnits;
    InsertedOk(h, base, brk, b, t);
    var h', p, q := Inserted(h, b, t), h.list[t], h.list[t + 1];
    PairMeans(h', base, brk, {(p, b)} + {(b, q)}, t + 1);
    JoinedOk(h', base, brk, {(p, b)}, t + 1, b, q);
  }

  lemma TouchedLinks(ptr: map<nat, nat>, p: nat, b: nat, q: nat)
    requires p in ptr && q in ptr && p != b && q != b && p != q
    ensures SkipAfter(LinkAfter(ptr, p, b), b, q) == ptr[b := ptr[q]][p := b]
  {
  }

  /** The state after the first half of free's merging, list[t] not yet linked to `b`. */
  ghost function AfterRight(h: Shape, b: nat, t: nat): Shape
    requires t < |h.list| && h.list[t] in h.ptr && b in h.size && b in h.blocks
  {
    var q := h.ptr[h.list[t]];
    if End(b, h.size[b]) == q && q in h.ptr && q in h.size && q in h.blocks && t + 1 < |h.list| then
      Shape(Without(With(h.list, t + 1, b), t + 2), h.ptr[b := h.ptr[q]], h.size[b := h.size[b] + h.size[q]],
            Joined(h.blocks, b, q), h.live - {b})
    else
      Shape(With(h.list, t + 1, b), h.ptr[b := q], h.size, h.blocks, h.live - {b})
  }

  lemma AfterRightOk(h: Shape, base: nat, brk: nat, b: nat, t: nat)
    requires Ok(h, base, brk, {}) && b in h.live && Place(h.list, b, t)
    ensures h.list[t] in h.ptr && b in h.size && b in h.blocks
    ensures var h', p, q := AfterRight(h, b, t), h.list[t], h.ptr[h.list[t]];
      && (End(b, h.size[b]) == q ==> q in h.ptr && q in h.size && q in h.blocks && t + 1 < |h.list|)
      && Ok(h'.(ptr := h'.ptr[p := b]), base, brk, {(p, b)}) && SameUnits(Inserted(h, b, t), h')
      && t + 1 < |h'.list| && h'.list[t] == p && h'.list[t + 1] == b
  {
    hide Ok, SameUnits, With, Without, End, AfterRight, Inserted;
    Neighbours(h, base, brk, b, t);
    if End(b, h.size[b]) == h.ptr[h.list[t]] {
      AfterTouch(h, base, brk, b, t);
    } else {
      AfterApart(h, base, brk, b, t);
    }
  }

  lemma AfterTouch(h: Shape, base: nat, brk: nat, b: nat, t: nat)
    requires Ok(h, base, brk, {}) && b in h.live && Place(h.list, b, t) && b in h.blocks && b in h.size
    requires h.size[b] == h.blocks[b]
    requires t + 1 < |h.list| && End(b, h.blocks[b]) == h.list[t + 1]
    ensures h.list[t] in h.ptr
    ensures var h', p, q := AfterRight(h, b, t), h.list[t], h.list[t + 1];
      && h.ptr[p] == q && q in h.ptr && q in h.size && q in h.blocks
      && Ok(h'.(ptr := h'.ptr[p := b]), base, brk, {(p, b)})
      && SameUnits(Inserted(h, b, t), h') && t + 1 < |h'.list| && h'.list[t] == p && h'.list[t + 1] == b
  {
    hide Ok, SameUnits, With, Without, End, AfterRight, Inserted, JoinedAt;
    Neighbours(h, base, brk, b, t);
    var p, q := h.list[t], h.list[t + 1];
    RightTouch(h, base, brk, b, t);
    PairMeans(h, base, brk, {}, t);
    AfterTouchIs(h, b, t);
    var h', h'' := AfterRight(h, b, t), JoinedAt(Inserted(h, b, t), t + 1);
    UnitsKept(h'', base, brk, {(p, b)}, h');
    SameUnitsTransitive(Inserted(h, b, t), h'', h');
  }

  lemma AfterTouchIs(h: Shape, b: nat, t: nat)
    requires t + 1 < |h.list| && Pair(h, t, h.list[t], h.list[t + 1]) && h.ptr[h.list[t]] == h.list[t + 1]
    requires h.list[t] < b < h.list[t + 1]
    requires b in h.size && b in h.blocks && End(b, h.size[b]) == h.list[t + 1]
    requires Pair(Inserted(h, b, t), t + 1, b, h.list[t + 1])
    ensures var h' := AfterRight(h, b, t);
      && h'.(ptr := h'.ptr[h.list[t] := b]) == JoinedAt(Inserted(h, b, t), t + 1)
      && h'.live == Inserted(h, b, t).live && t + 1 < |h'.list| && h'.list[t] == h.list[t] && h'.list[t + 1] == b
  {
    hide With, Without, End, LinkAfter, SkipAfter, Joined;
    TouchedLinks(h.ptr, h.list[t], b, h.list[t + 1]);
  }

  lemma AfterApart(h: Shape, base: nat, brk: nat, b: nat, t: nat)
    requires Ok(h, base, brk, {}) && b in h.live && Place(h.list, b, t) && b in h.blocks && b in h.size
    requires h.size[b] == h.blocks[b]
    requires h.list[t] in h.ptr && End(b, h.size[b]) != h.ptr[h.list[t]]
    ensures var h', p := AfterRight(h, b, t), h.list[t];
      && Ok(h'.(ptr := h'.ptr[p := b]), base, brk, {(p, b)})
      && SameUnits(Inserted(h, b, t), h') && t + 1 < |h'.list| && h'.list[t] == p && h'.list[t + 1] == b
  {
    hide Ok, SameUnits, With, Without, End;
    Neighbours(h, base, brk, b, t);
    RightApart(h, base, brk, b, t);
    var h' := AfterRight(h, b, t);
    assert h'.(ptr := h'.ptr[h.list[t] := b]) == Inserted(h, b, t);
    UnitsKept(Inserted(h, b, t), base, brk, {(h.list[t], b)}, h');
  }

  lemma UnitsKept(h: Shape, base: nat, brk: nat, touch: set<(nat, nat)>, h': Shape)
    requires Ok(h, base, brk, touch) && h'.blocks == h.blocks && h'.live == h.live && h'.list == h.list
    ensures SameUnits(h, h') && SameUnits(h', h)
  {
  }

  /** The state after the second half. */
  ghost function AfterLeft(h: Shape, b: nat, p: nat, t: nat): Shape
    requires b in h.ptr && t + 1 < |h.list|
  {
    if p in h.size && b in h.size && p in h.blocks && b in h.blocks && End(p, h.size[p]) == b then
      h.(list := Without(h.list, t + 1), ptr := h.ptr[p := h.ptr[b]], size := h.size[p := h.size[p] + h.size[b]],
         blocks := Joined(h.blocks, p, b))
    else
      h.(ptr := h.ptr[p := b])
  }

  lemma AfterLeftOk(h: Shape, base: nat, brk: nat, b: nat, p: nat, t: nat)
    requires Ok(h.(ptr := h.ptr[p := b]), base, brk, {(p, b)}) && t + 1 < |h.list| && h.list[t] == p
    requires h.list[t + 1] == b && b in h.ptr
    ensures p in h.size && b in h.size && p in h.blocks && b in h.blocks
    ensures var h' := AfterLeft(h, b, p, t); Ok(h', base, brk, {}) && SameUnits(h, h') && p in h'.list
  {
    hide Laid, SameUnits, Joined, Members, Cycle, Apart, Increasing, Without, Ok;
    var h1, h' := h.(ptr := h.ptr[p := b]), AfterLeft(h, b, p, t);
    UnitsKept(h1, base, brk, {(p, b)}, h);
    PairMeans(h1, base, brk, {(p, b)}, t);
    assert {} + {(p, b)} == {(p, b)};
    if End(p, h.size[p]) == b {
      JoinedOk(h1, base, brk, {}, t, p, b);
      AfterLeftIs(h, b, p, t);
      SameUnitsTransitive(h, h1, h');
    } else {
      ApartOk(h1, base, brk, p, b);
    }
  }

  lemma AfterLeftIs(h: Shape, b: nat, p: nat, t: nat)
    requires var h1 := h.(ptr := h.ptr[p := b]); Pair(h1, t, p, b) && b in h.ptr && End(p, h.size[p]) == b
    ensures AfterLeft(h, b, p, t) == JoinedAt(h.(ptr := h.ptr[p := b]), t) && p in AfterLeft(h, b, p, t).list
  {
  }

  lemma ApartOk(h: Shape, base: nat, brk: nat, a: nat, b: nat)
    requires Ok(h, base, brk, {(a, b)}) && a in h.blocks && End(a, h.blocks[a]) != b
    ensures Ok(h, base, brk, {})
  {
  }

  lemma PlaceOf(h: Shape, base: nat, brk: nat, b: nat) returns (t: nat)
    requires Ok(h, base, brk, {}) && b in h.live
    ensures Place(h.list, b, t) && base < b
  {
    hide Cycle, Apart;
    LaidFreed(h.blocks, Members(h.list), h.live, h.size, base, brk, b);
    t := FindPlace(h.list, b, |h.list|);
  }

  lemma PlaceLast(h: Shape, base: nat, brk: nat, b: nat, t: nat)
    requires Ok(h, base, brk, {}) && Place(h.list, b, t)
    ensures forall a :: a in h.list && a < b ==> a <= h.list[t]
  {
    hide Cycle, Apart, Laid;
    forall i | 0 <= i < |h.list| && h.list[i] < b ensures h.list[i] <= h.list[t] {
    }
  }

  lemma MemberMeans(h: Shape, base: nat, brk: nat, p: nat)
    requires Ok(h, base, brk, {}) && p in h.list
    ensures base <= p && p !in h.live && p in h.ptr && p in h.size && p in h.blocks && h.size[p] == h.blocks[p]
    ensures p in Members(h.list)
  {
  }

  lemma FreedUnits(h: Shape, base: nat, brk: nat, b: nat, t: nat, h': Shape)
    requires Ok(h, base, brk, {}) && b in h.live && Place(h.list, b, t) && h.list[t] in h.ptr
    requires SameUnits(Inserted(h, b, t), h')
    ensures h'.live == h.live - {b} && Total(h'.blocks) == Total(h.blocks)
    ensures forall a :: a in h'.live ==> a in h.blocks && a in h'.blocks && h'.blocks[a] == h.blocks[a]
    ensures b in h.blocks && Covered(Members(h'.list), h'.blocks, b, h.blocks[b])
    ensures AllCovered(Members(h.list), h.blocks, Members(h'.list), h'.blocks)
  {
  }

  // ----- malloc -----

  /** Memory new from sbrk, all one live block for now. */
  lemma Extended(h: Shape, base: nat, brk: nat, n: nat)
    requires Ok(h, base, brk, {}) && n > 0 && base < brk
    ensures brk !in h.blocks && Total(h.blocks[brk := n]) == Total(h.blocks) + n
    ensures var h' := h.(size := h.size[brk := n], blocks := h.blocks[brk := n], live := h.live + {brk});
      Ok(h', base, End(brk, n), {})
  {
    hide Cycle, Increasing, Total;
    TotalWith(h.blocks, brk, n);
    assert h.blocks - {brk} == h.blocks;
  }

  /** A whole free block becomes live. */
  lemma TakenWhole(h: Shape, base: nat, brk: nat, t: nat)
    requires Ok(h, base, brk, {}) && t + 1 < |h.list|
    ensures Pair(h, t, h.list[t], h.list[t + 1])
    ensures var a, b := h.list[t], h.list[t + 1];
      Ok(h.(list := Without(h.list, t + 1), ptr := SkipAfter(h.ptr, a, b), live := h.live + {b}), base, brk, {})
    ensures h.list[t + 1] !in h.live && h.list[t] in Without(h.list, t + 1)
  {
    hide SkipAfter, Without, Disjoint, End, Cycle, Increasing;
    PairMeans(h, base, brk, {}, t);
    IncreasingWithout(h.list, t + 1);
    CycleWithout(h.list, h.ptr, t);
    assert Without(h.list, t + 1)[t] == h.list[t];
  }

  /** The tail of a free block becomes live. */
  ghost function TailTaken(h: Shape, p: nat, n: nat): Shape
    requires p in h.size && n <= h.size[p] && p in h.blocks && n <= h.blocks[p]
  {
    var q := End(p, h.size[p] - n);
    h.(size := h.size[p := h.size[p] - n][q := n], blocks := h.blocks[p := h.blocks[p] - n][q := n],
       live := h.live + {q})
  }

  lemma LaidTail(blocks: map<nat, nat>, free: set<nat>, live: set<nat>, size: map<nat, nat>, base: nat, brk: nat,
                 p: nat, n: nat)
    requires Laid(blocks, free, live, size, base, brk) && p in free && 0 < n < blocks[p]
    ensures var q := End(p, blocks[p] - n);
      && q !in blocks && p in size && size[p] == blocks[p]
      && Laid(blocks[p := blocks[p] - n][q := n], free, live + {q}, size[p := size[p] - n][q := n], base, brk)
  {
    var q := End(p, blocks[p] - n);
    assert q !in blocks && p < q && End(q, n) == End(p, blocks[p]);
    DisjointTail(blocks, p, q, n);
    hide Disjoint;
  }

  lemma DisjointTail(blocks: map<nat, nat>, p: nat, q: nat, n: nat)
    requires Disjoint(blocks) && p in blocks && 0 < n < blocks[p] && q == End(p, blocks[p] - n) && q !in blocks
    ensures Disjoint(blocks[p := blocks[p] - n][q := n])
  {
  }

  lemma ApartTail(free: set<nat>, blocks: map<nat, nat>, p: nat, q: nat, n: nat)
    requires Apart(free, blocks, {}) && p in free && n < blocks[p] && q == End(p, blocks[p] - n) && q !in blocks
    ensures Apart(free, blocks[p := blocks[p] - n][q := n], {})
  {
  }

  lemma TakenTail(h: Shape, base: nat, brk: nat, p: nat, n: nat)
    requires Ok(h, base, brk, {}) && p in h.list && p in h.blocks && p in h.size && 0 < n < h.blocks[p]
    requires h.size[p] == h.blocks[p]
    ensures End(p, h.size[p] - n) !in h.blocks && Total(TailTaken(h, p, n).blocks) == Total(h.blocks)
    ensures Ok(TailTaken(h, p, n), base, brk, {})
  {
    hide Cycle, Increasing, Total, Laid, Apart, Members, End;
    MemberMeans(h, base, brk, p);
    var q := End(p, h.blocks[p] - n);
    LaidTail(h.blocks, Members(h.list), h.live, h.size, base, brk, p, n);
    ApartTail(Members(h.list), h.blocks, p, q, n);
    TotalMoved(h.blocks, p, q, n);
  }

  /** A block with units is not the static header. */
  lemma NotBase(h: Shape, base: nat, brk: nat, i: nat, p: nat)
    requires Ok(h, base, brk, {}) && i < |h.list| && p == h.list[Next(i, |h.list|)] && p in h.blocks && h.blocks[p] > 0
    ensures i + 1 < |h.list| && Pair(h, i, h.list[i], p)
  {
  }

  lemma LiveBlocks(h: Shape, base: nat, brk: nat)
    requires Ok(h, base, brk, {})
    ensures forall a :: a in h.live ==> a in h.blocks
  {
  }

  /** The units morecore asks for */
  function Grain(nu: nat): nat {
    if nu < GRAIN then GRAIN else nu
  }

  /** The least that is enough and is no less than 4096. */
  lemma GrainLeast(nu: nat)
    ensures Grain(nu) >= nu && Grain(nu) >= 4096 && (Grain(nu) == nu || Grain(nu) == 4096)
  {
  }

  /** The units malloc needs for `nbytes`: room for them and a header. */
  function Units(nbytes: nat): (n: nat)
    ensures n > 0 && UNIT * n >= nbytes + UNIT && UNIT * (n - 1) < nbytes + UNIT
  {
    (nbytes + UNIT - 1) / UNIT + 1
  }

  /** Every block of the list has less than `n` units. */
  ghost predicate AllSmall(list: seq<nat>, blocks: map<nat, nat>, n: nat) {
    forall a :: a in list && a in blocks ==> blocks[a] < n
  }

  /** So have the blocks from after list[f] up to list[i], going round. */
  ghost predicate SmallAfter(list: seq<nat>, blocks: map<nat, nat>, f: nat, i: nat, n: nat) {
    forall k :: 0 <= k < |list| && (if f <= i then f < k <= i else k > f || k <= i) && list[k] in blocks ==>
      blocks[list[k]] < n
  }

  /** `a` is the tail, `n` units long, of the first block after `freep` that has as many. */
  ghost predicate FirstFit(list: seq<nat>, blocks: map<nat, nat>, freep: nat, n: nat, a: nat) {
    exists f: nat, i: nat ::
      && f < |list| && i < |list| && list[f] == freep && SmallAfter(list, blocks, f, i, n)
      && TailOf(blocks, list[Next(i, |list|)], n, a)
  }

  predicate TailOf(blocks: map<nat, nat>, p: nat, n: nat, a: nat) {
    p in blocks && blocks[p] >= n && a == End(p, blocks[p] - n)
  }

  lemma FirstFits(list: seq<nat>, blocks: map<nat, nat>, f: nat, i: nat, n: nat, a: nat)
    requires f < |list| && i < |list| && SmallAfter(list, blocks, f, i, n)
    requires TailOf(blocks, list[Next(i, |list|)], n, a)
    ensures FirstFit(list, blocks, list[f], n, a)
  {
  }

  lemma NoneSmall(list: seq<nat>, blocks: map<nat, nat>, f: nat, n: nat)
    ensures SmallAfter(list, blocks, f, f, n)
  {
  }

  lemma OnePassed(list: seq<nat>, blocks: map<nat, nat>, f: nat, i: nat, n: nat)
    requires i < |list| && f < |list| && Next(i, |list|) != f
    requires var p := list[Next(i, |list|)]; p in blocks && blocks[p] < n
    ensures SmallAfter(list, blocks, f, i, n) ==> SmallAfter(list, blocks, f, Next(i, |list|), n)
  {
  }

  /** Back at list[f], every block has been found too small. */
  lemma AllPassed(h: Shape, base: nat, brk: nat, f: nat, i: nat, n: nat)
    requires Ok(h, base, brk, {}) && i < |h.list| && f < |h.list| && h.list[Next(i, |h.list|)] == h.list[f]
    requires var p := h.list[f]; p in h.blocks && h.blocks[p] < n
    ensures Next(i, |h.list|) == f
    ensures SmallAfter(h.list, h.blocks, f, i, n) ==> AllSmall(h.list, h.blocks, n)
  {
    hide Cycle, Apart, Disjoint, Members;
  }

  lemma LinkAt(h: Shape, base: nat, brk: nat, i: nat)
    requires Ok(h, base, brk, {}) && i < |h.list|
    ensures var p := h.list[i];
      && p in h.ptr && p in h.size && p in h.blocks && h.size[p] == h.blocks[p] && h.ptr[p] == h.list[Next(i, |h.list|)]
      && p >= base && p !in h.live
  {
  }

  lemma Target(h: Shape, base: nat, brk: nat, a: nat, n: nat, g: nat) returns (m: nat)
    requires Ok(h, base, brk, {}) && n <= g && Covered(Members(h.list), h.blocks, a, g)
    ensures m < |h.list| && h.list[m] in h.blocks && h.blocks[h.list[m]] >= n
  {
    hide Cycle, Increasing, Apart, Disjoint, Laid;
    var x :| x in Members(h.list) && x in h.blocks && x <= a && End(a, g) <= End(x, h.blocks[x]);
    m :| 0 <= m < |h.list| && h.list[m] == x;
  }

  lemma InitialOk(h: Shape, base: nat, brk: nat)
    requires h.list == [base] && h.blocks == map[base := 0] && h.live == {} && base < brk
    requires base in h.ptr && h.ptr[base] == base && base in h.size && h.size[base] == 0
    ensures Ok(h, base, brk, {})
  {
    assert Members(h.list) == {base};
  }

  /** A size_t passed where sbrk takes an int. */
  function AsInt(x: nat): int {
    var w := x % (2 * INT_RANGE);
    if w < INT_RANGE then w else w - 2 * INT_RANGE
  }

  /** sbrk gets the request morecore computes just when its bytes fit an int. */
  lemma RequestFits(nbytes: nat)
    requires nbytes < 2 * INT_RANGE
    ensures AsInt(UNIT * Grain(Units(nbytes))) == UNIT * Grain(Units(nbytes)) <==> UNIT * Units(nbytes) < INT_RANGE
  {
  }

  class Allocator {
    const base: nat     // the address of the static header
    const limit: nat    // no process grows beyond it
    var ptr: map<nat, nat>
    var size: map<nat, nat>
    var freep: nat
    var brk: nat
    ghost var list: seq<nat>
    ghost var blocks: map<nat, nat>
    ghost var live: set<nat>
    ghost var granted: nat    // units sbrk has given
    ghost var asked: nat      // calls of sbrk

    ghost function Now(): Shape
      reads this
    {
      Shape(list, ptr, size, blocks, live)
    }

    /** freep is null until the first call of malloc. */
    ghost predicate Valid()
      reads this
    {
      && 0 < base < brk <= limit
      && Total(blocks) == granted
      && if freep == 0 then list == [] && blocks == map[] && live == {} else freep in list && Ok(Now(), base, brk, {})
    }

    constructor (b: nat, top: nat, max: nat)
      requires 0 < b < top <= max
      ensures Valid() && base == b && brk == top && limit == max && freep == 0 && live == {} && granted == 0
      ensures asked == 0
    {
      base, brk, limit, freep, ptr, size := b, top, max, 0, map[], map[];
      list, blocks, live, granted, asked := [], map[], {}, 0, 0;
    }

    /** The program itself moves the break up. */
    method Grow(n: nat)
      requires Valid() && brk + n <= limit
      modifies this`brk
      ensures Valid() && brk == old(brk) + n
    {
      hide Disjoint, Apart, Cycle, Increasing, Members;
      brk := brk + n;
    }

    /** What Valid means for the blocks handed out: they do not overlap each other or
        a free block, and lie between the static header and the break. */
    lemma Separate(a: nat, b: nat)
      requires Valid() && a in live && (b in live || b in list) && a != b
      ensures a in blocks && b in blocks && base < a && End(a, blocks[a]) <= brk
      ensures End(a, blocks[a]) <= b || End(b, blocks[b]) <= a
    {
    }

    /** No two free blocks are neighbours. */
    lemma NeverAdjacent(a: nat, b: nat)
      requires Valid() && a in list && b in list && a < b
      ensures a in blocks && End(a, blocks[a]) < b
    {
      MemberMeans(Now(), base, brk, a);
      MemberMeans(Now(), base, brk, b);
      hide Cycle, Increasing, Members;
    }

    /** Sizes fit their 32-bit field while processes stay below 2^36 bytes. */
    lemma SizesFit(a: nat)
      requires Valid() && limit < 0x10_0000_0000 && a in blocks
      ensures blocks[a] < 0x1_0000_0000
    {
    }

    /** The first half of free's merging: bp absorbs what follows it, if they touch. */
    method AttachRight(bp: nat, p: nat, ghost t: nat)
      requires Ok(Now(), base, brk, {}) && bp in live && Place(list, bp, t) && p == list[t]
      modifies this`ptr, this`size, this`list, this`blocks, this`live
      ensures Ok(Now().(ptr := ptr[p := bp]), base, brk, {(p, bp)})
      ensures t + 1 < |list| && list[t] == p && list[t + 1] == bp && bp in ptr
      ensures p in old(ptr) && SameUnits(old(Inserted(Now(), bp, t)), Now())
    {
      ghost var h := Now();
      hide Ok, SameUnits;
      AfterRightOk(h, base, brk, bp, t);
      ghost var h' := AfterRight(h, bp, t);
      list, blocks, live := h'.list, h'.blocks, h'.live;
      var q := ptr[p];
      if bp + 16 * size[bp] == q {
        size := size[bp := size[bp] + size[q]];
        ptr := ptr[bp := ptr[q]];
      } else {
        ptr := ptr[bp := q];
      }
      assert Now() == h';
    }

    /** The second half: p absorbs bp, if they touch. */
    method AttachLeft(bp: nat, p: nat, ghost t: nat)
      requires Ok(Now().(ptr := ptr[p := bp]), base, brk, {(p, bp)}) && t + 1 < |list| && list[t] == p
      requires list[t + 1] == bp && bp in ptr
      modifies this`ptr, this`size, this`list, this`blocks
      ensures Ok(Now(), base, brk, {}) && SameUnits(old(Now()), Now()) && p in list
    {
      hide Ok, SameUnits, Joined;
      AfterLeftOk(Now(), base, brk, bp, p, t);
      ghost var h' := AfterLeft(Now(), bp, p, t);
      list, blocks := h'.list, h'.blocks;
      if p + 16 * size[p] == bp {
        size := size[p := size[p] + size[bp]];
        ptr := ptr[p := ptr[bp]];
      } else {
        ptr := ptr[p := bp];
      }
      assert Now() == h';
    }

    /** free's search for the place of bp. */
    method Search(bp: nat) returns (p: nat, ghost t: nat)
      requires Ok(Now(), base, brk, {}) && freep in list && bp in live
      ensures Place(list, bp, t) && p == list[t]
    {
      hide Apart, Cycle, Laid, Members, Increasing;
      t := PlaceOf(Now(), base, brk, bp);
      ghost var i :| 0 <= i < |list| && list[i] == freep;
      p := freep;
      while true
        invariant 0 <= i < |list| && p == list[i]
        decreases Distance(i, t, |list|)
      {
        ListMeans(list, ptr, blocks, base, {}, i);
        SearchEnds(list, bp, t, i);
        var q := ptr[p];
        if (bp > p && bp < q) || (p >= q && (bp > p || bp < q)) {
          return;
        }
        p, i := q, Next(i, |list|);
      }
    }

    /** free, of a block malloc returned. */
    method Free(ap: nat)
      requires Valid() && ap >= UNIT && ap - UNIT in live
      modifies this`ptr, this`size, this`list, this`blocks, this`live, this`freep
      ensures Valid() && live == old(live) - {ap - UNIT} && freep != 0
      ensures freep in old(list) && freep < ap - UNIT && forall a :: a in old(list) && a < ap - UNIT ==> a <= freep
      ensures forall a :: a in live ==> a in blocks && a in old(blocks) && blocks[a] == old(blocks[a])
      ensures ap - UNIT in old(blocks) && Covered(Members(list), blocks, ap - UNIT, old(blocks[ap - UNIT]))
      ensures AllCovered(Members(old(list)), old(blocks), Members(list), blocks)
    {
      hide Ok, AllCovered, Covered, Total;
      var bp := ap - UNIT;
      ghost var h, t;
      var p;
      h := Now();
      p, t := Search(bp);
      AttachRight(bp, p, t);
      ghost var h1 := Now();
      AttachLeft(bp, p, t);
      SameUnitsTransitive(Inserted(h, bp, t), h1, Now());
      PlaceLast(h, base, brk, bp, t);
      FreedUnits(h, base, brk, bp, t, Now());
      MemberMeans(Now(), base, brk, p);
      freep := p;
    }

    /** sbrk; `ok` says whether the kernel finds the memory. */
    method Sbrk(n: nat, ok: bool) returns (p: int)
      requires n < INT_RANGE
      modifies this`brk, this`asked
      ensures asked == old(asked) + 1
      ensures if ok && old(brk) + n <= limit then p == old(brk) && brk == old(brk) + n else p == -1 && brk == old(brk)
    {
      asked := asked + 1;
      if !ok || brk + n > limit {
        return -1;
      }
      p := brk;
      brk := brk + n;
    }

    /** morecore; returns freep, or 0 when sbrk fails. */
    method Morecore(nu: nat, ok: bool) returns (r: nat)
      requires Valid() && freep != 0 && UNIT * nu < INT_RANGE
      modifies this
      ensures Valid() && asked == old(asked) + 1 && (r == freep || r == 0)
      ensures r == 0 <==> !ok || old(brk) + UNIT * Grain(nu) > limit
      ensures r == 0 ==> Now() == old(Now()) && freep == old(freep) && granted == old(granted) && brk == old(brk)
      ensures r != 0 ==>
                granted == old(granted) + Grain(nu) && live == old(live)
                && Covered(Members(list), blocks, old(brk), Grain(nu))
      ensures forall a :: a in old(live) ==> a in blocks && a in old(blocks) && blocks[a] == old(blocks[a])
    {
      hide Ok, Covered, AllCovered, Total;
      LiveBlocks(Now(), base, brk);
      var n := Grain(nu);
      var p := Sbrk(UNIT * n, ok);
      if p == -1 {
        return 0;
      }
      Extended(Now(), base, old(brk), n);
      size := size[p := n];
      blocks, live, granted := blocks[p := n], live + {p}, granted + n;
      Free(p + UNIT);
      return freep;
    }

    /** malloc's allocation from p, the block after prevp. */
    method Take(prevp: nat, p: nat, nunits: nat, ghost i: nat) returns (r: nat)
      requires Valid() && freep != 0 && nunits > 0 && i < |list| && list[i] == prevp && p == list[Next(i, |list|)]
      requires p in blocks && blocks[p] >= nunits
      modifies this`ptr, this`size, this`freep, this`list, this`blocks, this`live
      ensures Valid() && freep != 0 && r >= UNIT && r - UNIT !in old(live) && live == old(live) + {r - UNIT}
      ensures r - UNIT in blocks && blocks[r - UNIT] == nunits && freep == prevp
      ensures r - UNIT == End(p, old(blocks[p]) - nunits)
      ensures forall a :: a in old(live) ==> a in old(blocks) && a in blocks && blocks[a] == old(blocks[a])
    {
      hide Total, Without, Ok;
      LiveBlocks(Now(), base, brk);
      NotBase(Now(), base, brk, i, p);
      LinkAt(Now(), base, brk, i);
      LinkAt(Now(), base, brk, i + 1);
      if size[p] == nunits {
        r := p + UNIT;
        TakenWhole(Now(), base, brk, i);
        list, live := Without(list, i + 1), live + {p};
        ptr := ptr[prevp := ptr[p]];
      } else {
        TakenTail(Now(), base, brk, p, nunits);
        ghost var h' := TailTaken(Now(), p, nunits);
        blocks, live := h'.blocks, h'.live;
        size := size[p := size[p] - nunits];
        var q := p + 16 * size[p];
        size := size[q := nunits];
        r := q + UNIT;
        assert Now() == h';
      }
      freep := prevp;
    }

    /** malloc; `ok` says whether the kernel would find memory for sbrk. */
    method Malloc(nbytes: nat, ok: bool) returns (r: nat)
      requires Valid() && UNIT * Units(nbytes) < INT_RANGE
      modifies this
      ensures Valid() && old(asked) <= asked <= old(asked) + 1
      ensures forall a :: a in old(live) ==> a in old(blocks) && a in blocks && blocks[a] == old(blocks[a])
      ensures r == 0 ==>
                live == old(live) && asked > old(asked) && (!ok || old(brk) + UNIT * Grain(Units(nbytes)) > limit)
      ensures r != 0 ==> r >= UNIT && r - UNIT !in old(live) && live == old(live) + {r - UNIT}
      ensures r != 0 ==> r - UNIT in blocks && blocks[r - UNIT] == Units(nbytes)
      ensures asked > old(asked) ==> forall a :: a in old(list) && a in old(blocks) ==> old(blocks[a]) < Units(nbytes)
      ensures asked == old(asked) ==>
                old(freep) != 0 && r >= UNIT && FirstFit(old(list), old(blocks), old(freep), Units(nbytes), r - UNIT)
      ensures granted == old(granted) + if asked > old(asked) && r != 0 then Grain(Units(nbytes)) else 0
    {
      hide Ok, Covered, Total;
      var nunits := (nbytes + UNIT - 1) / UNIT + 1;
      if freep == 0 {
        Initialize();
      } else {
        LiveBlocks(Now(), base, brk);
      }
      r := Fit(nunits, ok);
    }

    /** malloc's first call makes a list of the static header alone. */
    method Initialize()
      requires Valid() && freep == 0
      modifies this`ptr, this`size, this`freep, this`list, this`blocks
      ensures Valid() && freep != 0 && live == {} && list == [base] && blocks == map[base := 0]
    {
      hide Total, Ok;
      TotalWith(blocks, base, 0);
      assert blocks - {base} == blocks;
      ptr := ptr[base := base];
      size := size[base := 0];
      freep := base;
      list, blocks := [base], blocks[base := 0];
      InitialOk(Now(), base, brk);
    }

    /** morecore: freep is at list[f], and list[m] then has room. */
    method Refill(nunits: nat, ok: bool) returns (r: nat, ghost f: nat, ghost m: nat)
      requires Valid() && freep != 0 && UNIT * nunits < INT_RANGE
      modifies this
      ensures Valid() && asked == old(asked) + 1 && (r == freep || r == 0) && freep != 0 && live == old(live)
      ensures r == 0 ==> granted == old(granted) && (!ok || old(brk) + UNIT * Grain(nunits) > limit)
      ensures r != 0 ==> granted == old(granted) + Grain(nunits) && f < |list| && list[f] == freep
      ensures r != 0 ==> m < |list| && list[m] in blocks && blocks[list[m]] >= nunits
      ensures forall a :: a in old(live) ==> a in blocks && a in old(blocks) && blocks[a] == old(blocks[a])
    {
      hide Ok, Covered, Total, Grain;
      f, m := 0, 0;
      r := Morecore(nunits, ok);
      if r != 0 {
        GrainLeast(nunits);
        m := Target(Now(), base, brk, old(brk), nunits, Grain(nunits));
        f :| f < |list| && list[f] == freep;
      }
    }

    /** malloc's search: the first fit after freep, with one call of morecore if there is none. */
    method Fit(nunits: nat, ok: bool) returns (r: nat)
      requires Valid() && freep != 0 && nunits > 0 && UNIT * nunits < INT_RANGE
      modifies this
      ensures Valid() && old(asked) <= asked <= old(asked) + 1
      ensures forall a :: a in old(live) ==> a in old(blocks) && a in blocks && blocks[a] == old(blocks[a])
      ensures r == 0 ==> live == old(live) && asked > old(asked) && (!ok || old(brk) + UNIT * Grain(nunits) > limit)
      ensures r != 0 ==> r >= UNIT && r - UNIT !in old(live) && live == old(live) + {r - UNIT}
      ensures r != 0 ==> r - UNIT in blocks && blocks[r - UNIT] == nunits
      ensures asked > old(asked) ==> AllSmall(old(list), old(blocks), nunits)
      ensures asked == old(asked) ==> FirstFit(old(list), old(blocks), old(freep), nunits, r - UNIT) && r >= UNIT
      ensures granted == old(granted) + if asked > old(asked) && r != 0 then Grain(nunits) else 0
    {
      hide Ok, Covered, Total, AllSmall, SmallAfter, Distance, Grain, FirstFit, End;
      ghost var f: nat :| f < |list| && list[f] == freep;
      ghost var i: nat, m: nat := f, 0;
      LinkAt(Now(), base, brk, f);
      LiveBlocks(Now(), base, brk);
      NoneSmall(list, blocks, f, nunits);
      var prevp := freep;
      var p := ptr[prevp];
      while true
        invariant Valid() && freep != 0 && i < |list| && f < |list| && list[i] == prevp && list[f] == freep
        invariant p == list[Next(i, |list|)]
        invariant old(asked) <= asked <= old(asked) + 1 && live == old(live)
        invariant forall a :: a in old(live) ==> a in old(blocks) && a in blocks && blocks[a] == old(blocks[a])
        invariant asked == old(asked) ==>
                    && Now() == old(Now()) && freep == old(freep) && brk == old(brk) && granted == old(granted)
                    && SmallAfter(list, blocks, f, i, nunits)
        invariant asked > old(asked) ==>
                    && m < |list| && list[m] in blocks && blocks[list[m]] >= nunits
                    && AllSmall(old(list), old(blocks), nunits)
                    && granted == old(granted) + Grain(nunits)
                    && Distance(Next(i, |list|), m, |list|) <= Distance(Next(f, |list|), m, |list|)
        decreases old(asked) + 1 - asked, Distance(Next(i, |list|), if asked > old(asked) then m else f, |list|)
      {
        ghost var j := Next(i, |list|);
        LinkAt(Now(), base, brk, j);
        Going(i, f, f, |list|);
        if asked > old(asked) {
          Going(i, f, m, |list|);
        }
        if size[p] >= nunits {
          r := Take(prevp, p, nunits, i);
          if asked == old(asked) {
            FirstFits(old(list), old(blocks), f, i, nunits, r - UNIT);
          }
          return;
        }
        if p == freep {
          AllPassed(Now(), base, brk, f, i, nunits);
          p, f, m := Refill(nunits, ok);
          if p == 0 {
            return 0;
          }
          i := f;
        } else {
          OnePassed(list, blocks, f, i, nunits);
          i := j;
        }
        LinkAt(Now(), base, brk, i);
        prevp, p := p, ptr[p];
      }
    }
  }
}
