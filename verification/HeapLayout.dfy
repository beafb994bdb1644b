/** The shape of the kernel heap: boundary-tagged blocks that tile an address range, and the doubly
    linked list of the free ones (kernel/mem/heap.c). */
module HeapLayout {
  import Bytes

  const BASE: nat := 0xffff_9000_0000_0000   // HEAP_VIRT_BASE
  const HEADER: nat := 40                    // sizeof(struct block)
  const MIN_SPLIT: nat := HEADER + 16
  const NULL: nat := 0

  /** A block header. `size` counts the header; the links are addresses, 0 for NULL. */
  datatype Header = Header(used: bool, size: nat, prev: nat, nextFree: nat, prevFree: nat)

  type Memory = map<nat, Header>

  // ---- Tiling ---------------------------------------------------------------------------

  ghost function NextAddr(blocks: seq<nat>, end: nat, i: nat): nat {
    if i + 1 < |blocks| then blocks[i + 1] else end
  }

  ghost function PrevAddr(blocks: seq<nat>, i: nat): nat
    requires i < |blocks|
  {
    if i == 0 then NULL else blocks[i - 1]
  }

  ghost predicate BlockOk(mem: Memory, blocks: seq<nat>, end: nat, i: nat)
    requires i < |blocks|
  {
    && blocks[i] in mem && mem[blocks[i]].size >= HEADER && mem[blocks[i]].size % 8 == 0
    && blocks[i] + mem[blocks[i]].size == NextAddr(blocks, end, i)
    && mem[blocks[i]].prev == PrevAddr(blocks, i)
  }

  /** The blocks, in address order, cover [BASE, end) exactly; each knows its predecessor, and
      every header in memory is one of theirs. */
  ghost predicate Tiled(mem: Memory, blocks: seq<nat>, end: nat)
    ensures Tiled(mem, blocks, end) ==> forall i :: 0 <= i < |blocks| ==> blocks[i] in mem
  {
    && (if blocks == [] then end == BASE else blocks[0] == BASE)
    && (forall i :: 0 <= i < |blocks| ==> blocks[i] in mem)
    && (forall i :: 0 <= i < |blocks| ==> BlockOk(mem, blocks, end, i))
    && (forall b :: b in mem ==> b in blocks)
  }

  lemma {:induction false} Ordered(mem: Memory, blocks: seq<nat>, end: nat, i: nat, j: nat)
    requires Tiled(mem, blocks, end) && i < j < |blocks|
    ensures blocks[i] + mem[blocks[i]].size <= blocks[j]
    decreases j
  {
    assert BlockOk(mem, blocks, end, i) && BlockOk(mem, blocks, end, j - 1);
    if i < j - 1 {
      Ordered(mem, blocks, end, i, j - 1);
    }
  }

  lemma InRange(mem: Memory, blocks: seq<nat>, end: nat, i: nat)
    requires Tiled(mem, blocks, end) && i < |blocks|
    ensures BASE <= blocks[i] && blocks[i] + mem[blocks[i]].size <= end
    ensures i + 1 < |blocks| <==> blocks[i] + mem[blocks[i]].size < end
  {
    assert BlockOk(mem, blocks, end, i);
    if i > 0 { Ordered(mem, blocks, end, 0, i); }
    var last := |blocks| - 1;
    assert BlockOk(mem, blocks, end, last);
    if i < last { Ordered(mem, blocks, end, i, last); }
  }

  /** An address strictly inside a block heads no block. */
  lemma InsideIsFresh(mem: Memory, blocks: seq<nat>, end: nat, i: nat, x: nat)
    requires Tiled(mem, blocks, end) && i < |blocks|
    requires blocks[i] < x < blocks[i] + mem[blocks[i]].size || x >= end
    ensures x !in mem && x !in blocks
  {
    forall j | 0 <= j < |blocks| ensures blocks[j] != x {
      InRange(mem, blocks, end, j);
      assert BlockOk(mem, blocks, end, j);
      if j < i { Ordered(mem, blocks, end, j, i); }
      if i < j { Ordered(mem, blocks, end, i, j); }
    }
  }

  lemma DistinctBlocks(mem: Memory, blocks: seq<nat>, end: nat, i: nat, j: nat)
    requires Tiled(mem, blocks, end) && i < |blocks| && j < |blocks| && blocks[i] == blocks[j]
    ensures i == j
  {
    assert BlockOk(mem, blocks, end, i) && BlockOk(mem, blocks, end, j);
    if i < j { Ordered(mem, blocks, end, i, j); }
    if j < i { Ordered(mem, blocks, end, j, i); }
  }

  lemma AllDistinct(mem: Memory, blocks: seq<nat>, end: nat)
    requires Tiled(mem, blocks, end)
    ensures forall i, j :: 0 <= i < j < |blocks| ==> blocks[i] != blocks[j]
  {
    forall i, j | 0 <= i < j < |blocks| ensures blocks[i] != blocks[j] {
      assert BlockOk(mem, blocks, end, i);
      Ordered(mem, blocks, end, i, j);
    }
  }

  /** Same blocks, sizes, back links and flags; the list links may differ. */
  ghost predicate SameLayout(mem: Memory, mem': Memory) {
    && mem'.Keys == mem.Keys
    && forall b :: b in mem ==>
         mem'[b] == mem[b].(nextFree := mem'[b].nextFree, prevFree := mem'[b].prevFree)
  }

  lemma TiledSameLayout(mem: Memory, mem': Memory, blocks: seq<nat>, end: nat)
    requires Tiled(mem, blocks, end) && SameLayout(mem, mem')
    ensures Tiled(mem', blocks, end)
  {
    forall i | 0 <= i < |blocks| ensures BlockOk(mem', blocks, end, i) { assert BlockOk(mem, blocks, end, i); }
  }

  // ---- The free list ------------------------------------------------------------------------

  ghost predicate NodeOk(mem: Memory, frees: seq<nat>, i: nat)
    requires i < |frees|
  {
    && frees[i] in mem && frees[i] != NULL
    && mem[frees[i]].nextFree == (if i + 1 < |frees| then frees[i + 1] else NULL)
    && mem[frees[i]].prevFree == (if i == 0 then NULL else frees[i - 1])
  }

  /** `frees` is the list from `head`, with consistent back links and no repeats. */
  ghost predicate Linked(mem: Memory, frees: seq<nat>, head: nat) {
    && head == (if frees == [] then NULL else frees[0])
    && (forall i :: 0 <= i < |frees| ==> NodeOk(mem, frees, i))
    && (forall i, j :: 0 <= i < j < |frees| ==> frees[i] != frees[j])
  }

  function LinkFirst(mem: Memory, head: nat, b: nat): Memory
    requires b in mem && (head != NULL ==> head in mem)
  {
    var m := mem[b := mem[b].(nextFree := head, prevFree := NULL)];
    if head != NULL then m[head := m[head].(prevFree := b)] else m
  }

  lemma LinkedFirst(mem: Memory, frees: seq<nat>, head: nat, b: nat)
    requires Linked(mem, frees, head) && b in mem && b != NULL && b !in frees
    ensures head != NULL ==> head in mem
    ensures Linked(LinkFirst(mem, head, b), [b] + frees, b) && SameLayout(mem, LinkFirst(mem, head, b))
  {
    assert frees != [] ==> NodeOk(mem, frees, 0);
    var m, fs := LinkFirst(mem, head, b), [b] + frees;
    forall i | 0 <= i < |fs| ensures NodeOk(m, fs, i) {
      if i > 0 { assert NodeOk(mem, frees, i - 1); }
      if i > 1 { assert frees[0] != frees[i - 1]; }
    }
  }

  function Unlink(mem: Memory, b: nat): Memory
    requires b in mem && (mem[b].prevFree != NULL ==> mem[b].prevFree in mem)
    requires mem[b].nextFree != NULL ==> mem[b].nextFree in mem
  {
    var h := mem[b];
    var m1 := if h.prevFree != NULL then mem[h.prevFree := mem[h.prevFree].(nextFree := h.nextFree)] else mem;
    var m2 := if h.nextFree != NULL then m1[h.nextFree := m1[h.nextFree].(prevFree := h.prevFree)] else m1;
    m2[b := m2[b].(nextFree := NULL, prevFree := NULL)]
  }

  ghost function Without(frees: seq<nat>, k: nat): seq<nat>
    requires k < |frees|
  {
    frees[..k] + frees[k + 1..]
  }

  lemma WithoutMembers(frees: seq<nat>, k: nat, x: nat)
    requires k < |frees| && forall i, j :: 0 <= i < j < |frees| ==> frees[i] != frees[j]
    ensures x in Without(frees, k) <==> x in frees && x != frees[k]
  {}

  lemma LinkedWithout(mem: Memory, frees: seq<nat>, head: nat, k: nat)
    requires Linked(mem, frees, head) && k < |frees|
    ensures frees[k] in mem
    ensures mem[frees[k]].prevFree != NULL ==> mem[frees[k]].prevFree in mem
    ensures mem[frees[k]].nextFree != NULL ==> mem[frees[k]].nextFree in mem
    ensures var b := frees[k];
      && Linked(Unlink(mem, b), Without(frees, k), if mem[b].prevFree != NULL then head else mem[b].nextFree)
      && SameLayout(mem, Unlink(mem, b))
  {
    var b := frees[k];
    assert NodeOk(mem, frees, k);
    assert k > 0 ==> NodeOk(mem, frees, k - 1);
    assert k + 1 < |frees| ==> NodeOk(mem, frees, k + 1);
    var m, fs := Unlink(mem, b), Without(frees, k);
    forall i | 0 <= i < |fs| ensures NodeOk(m, fs, i) {
      NodeWithout(mem, frees, head, k, i);
    }
    forall i, j | 0 <= i < j < |fs| ensures fs[i] != fs[j] {
      assert fs[i] == frees[if i < k then i else i + 1] && fs[j] == frees[if j < k then j else j + 1];
    }
  }

  lemma NodeWithout(mem: Memory, frees: seq<nat>, head: nat, k: nat, i: nat)
    requires Linked(mem, frees, head) && k < |frees| && i < |frees| - 1 && frees[k] in mem
    requires mem[frees[k]].prevFree != NULL ==> mem[frees[k]].prevFree in mem
    requires mem[frees[k]].nextFree != NULL ==> mem[frees[k]].nextFree in mem
    ensures NodeOk(Unlink(mem, frees[k]), Without(frees, k), i)
  {
    assert NodeOk(mem, frees, k);
    var o := if i < k then i else i + 1;
    assert NodeOk(mem, frees, o) && frees[o] != frees[k];
    assert k > 0 && o != k - 1 ==> frees[o] != frees[k - 1];
    assert k + 1 < |frees| && o != k + 1 ==> frees[o] != frees[k + 1];
  }

  // ---- Adding, splitting and merging blocks ------------------------------------------------------

  /** block_next_mem */
  function NextInMemory(mem: Memory, end: nat, b: nat): nat
    requires b in mem
  {
    if b + mem[b].size >= end then NULL else b + mem[b].size
  }

  lemma NextIsNext(mem: Memory, blocks: seq<nat>, end: nat, i: nat)
    requires Tiled(mem, blocks, end) && i < |blocks|
    ensures NextInMemory(mem, end, blocks[i]) == if i + 1 < |blocks| then blocks[i + 1] else NULL
  {
    InRange(mem, blocks, end, i);
    assert BlockOk(mem, blocks, end, i);
  }

  lemma TiledAppend(mem: Memory, blocks: seq<nat>, end: nat, size: nat)
    requires Tiled(mem, blocks, end) && size >= HEADER && size % 8 == 0
    ensures var last := if blocks == [] then NULL else blocks[|blocks| - 1];
      end !in mem && Tiled(mem[end := Header(false, size, last, NULL, NULL)], blocks + [end], end + size)
  {
    assert end !in mem by {
      forall i | 0 <= i < |blocks|
        ensures blocks[i] != end
      {
        InRange(mem, blocks, end, i); assert BlockOk(mem, blocks, end, i);
      }
    }
    var last := if blocks == [] then NULL else blocks[|blocks| - 1];
    var mem', blocks', end' := mem[end := Header(false, size, last, NULL, NULL)], blocks + [end], end + size;
    forall i | 0 <= i < |blocks'| ensures BlockOk(mem', blocks', end', i) {
      if i < |blocks| { assert BlockOk(mem, blocks, end, i) && blocks[i] != end; }
    }
  }

  lemma TiledGrowLast(mem: Memory, blocks: seq<nat>, end: nat, extra: nat)
    requires Tiled(mem, blocks, end) && blocks != [] && extra % 8 == 0
    ensures var b := blocks[|blocks| - 1]; Tiled(mem[b := mem[b].(size := mem[b].size + extra)], blocks, end + extra)
  {
    var last := |blocks| - 1;
    var b := blocks[last];
    var mem', end' := mem[b := mem[b].(size := mem[b].size + extra)], end + extra;
    forall i | 0 <= i < |blocks| ensures BlockOk(mem', blocks, end', i) {
      assert BlockOk(mem, blocks, end, i);
      if i != last && blocks[i] == b { DistinctBlocks(mem, blocks, end, i, last); }
    }
  }

  /** Cuts block `b` after `total` bytes; the rest becomes a free block. */
  function SplitMem(mem: Memory, end: nat, b: nat, total: nat): Memory
    requires b in mem && total <= mem[b].size
  {
    var t := b + total;
    var m1 := mem[t := Header(false, mem[b].size - total, b, NULL, NULL)];
    var after := NextInMemory(m1, end, t);
    var m2 := if after != NULL && after in m1 then m1[after := m1[after].(prev := t)] else m1;
    m2[b := m2[b].(size := total)]
  }

  ghost function SplitBlocks(blocks: seq<nat>, i: nat, t: nat): seq<nat>
    requires i < |blocks|
  {
    blocks[..i + 1] + [t] + blocks[i + 1..]
  }

  lemma TiledSplit(mem: Memory, blocks: seq<nat>, end: nat, i: nat, total: nat)
    requires Tiled(mem, blocks, end) && i < |blocks|
    requires HEADER <= total && total % 8 == 0 && total + HEADER <= mem[blocks[i]].size
    ensures var t := blocks[i] + total;
      && t !in mem && t !in blocks
      && Tiled(SplitMem(mem, end, blocks[i], total), SplitBlocks(blocks, i, t), end)
  {
    var b, t := blocks[i], blocks[i] + total;
    InsideIsFresh(mem, blocks, end, i, t);
    NextIsNext(mem, blocks, end, i);
    assert BlockOk(mem, blocks, end, i);
    var mem', blocks' := SplitMem(mem, end, b, total), SplitBlocks(blocks, i, t);
    forall j | 0 <= j < |blocks'| ensures blocks'[j] in mem' {
      assert blocks'[j] == if j <= i then blocks[j] else if j == i + 1 then t else blocks[j - 1];
    }
    forall j | 0 <= j < |blocks'| ensures BlockOk(mem', blocks', end, j) {
      SplitBlockOk(mem, blocks, end, i, total, j);
    }
    forall x | x in mem' ensures x in blocks' {
      if x == t {
        assert blocks'[i + 1] == t;
      } else {
        var o :| 0 <= o < |blocks| && blocks[o] == x;
        assert blocks'[if o <= i then o else o + 1] == x;
      }
    }
  }

  /** The headers after the split. */
  lemma SplitAt(mem: Memory, end: nat, b: nat, total: nat, x: nat)
    requires b in mem && HEADER <= total && total + HEADER <= mem[b].size && b + total !in mem && x in mem
    ensures var after, t, m := NextInMemory(mem, end, b), b + total, SplitMem(mem, end, b, total);
      && t in m && m[t] == Header(false, mem[b].size - total, b, NULL, NULL)
      && x in m && m[x] == mem[x].(
        size := if x == b then total else mem[x].size,
        prev := if after != NULL && x == after then t else mem[x].prev)
  {}

  lemma SplitBlockOk(mem: Memory, blocks: seq<nat>, end: nat, i: nat, total: nat, j: nat)
    requires Tiled(mem, blocks, end) && i < |blocks| && j <= |blocks|
    requires HEADER <= total && total % 8 == 0 && total + HEADER <= mem[blocks[i]].size && blocks[i] + total !in mem
    ensures BlockOk(SplitMem(mem, end, blocks[i], total), SplitBlocks(blocks, i, blocks[i] + total), end, j)
  {
    hide SplitMem, Tiled, NextInMemory;
    NextIsNext(mem, blocks, end, i);
    BlocksAboveNull(mem, blocks, end);
    var o := if j <= i then j else j - 1;
    EachBlock(mem, blocks, end, i);
    EachBlock(mem, blocks, end, o);
    Others(mem, blocks, end, o, i);
    if i + 1 < |blocks| { Others(mem, blocks, end, o, i + 1); }
    SplitAt(mem, end, blocks[i], total, blocks[o]);
  }

  /** Joins block `n`, which follows `b`, into `b`. */
  function MergeMem(mem: Memory, end: nat, b: nat, n: nat): Memory
    requires b in mem && n in mem && b != n
  {
    var m1 := mem[b := mem[b].(size := mem[b].size + mem[n].size)];
    var after := NextInMemory(m1, end, b);
    var m2 := if after != NULL && after in m1 then m1[after := m1[after].(prev := b)] else m1;
    m2 - {n}
  }

  lemma TiledMerge(mem: Memory, blocks: seq<nat>, end: nat, i: nat)
    requires Tiled(mem, blocks, end) && i + 1 < |blocks|
    ensures blocks[i] != blocks[i + 1]
    ensures Tiled(MergeMem(mem, end, blocks[i], blocks[i + 1]), Without(blocks, i + 1), end)
  {
    MergeFacts(mem, blocks, end, i);
    var b, n := blocks[i], blocks[i + 1];
    var mem', blocks' := MergeMem(mem, end, b, n), Without(blocks, i + 1);
    forall j | 0 <= j < |blocks'| ensures blocks'[j] in mem' {
      var o := if j <= i then j else j + 1;
      assert blocks'[j] == blocks[o];
      if blocks[o] == n { DistinctBlocks(mem, blocks, end, o, i + 1); }
    }
    forall j | 0 <= j < |blocks'| ensures BlockOk(mem', blocks', end, j) {
      MergeBlockOk(mem, blocks, end, i, j);
    }
    forall x | x in mem' ensures x in blocks' {
      var o :| 0 <= o < |blocks| && blocks[o] == x;
      assert o != i + 1;
      assert blocks'[if o <= i then o else o - 1] == x;
    }
  }

  lemma MergeFacts(mem: Memory, blocks: seq<nat>, end: nat, i: nat)
    requires Tiled(mem, blocks, end) && i + 1 < |blocks|
    ensures blocks[i] != blocks[i + 1]
    ensures var b, n := blocks[i], blocks[i + 1];
      && b + mem[b].size == n
      && NextInMemory(mem[b := mem[b].(size := mem[b].size + mem[n].size)], end, b) ==
           (if i + 2 < |blocks| then blocks[i + 2] else NULL)
      && (i + 2 < |blocks| ==> blocks[i + 2] != b && blocks[i + 2] != n)
  {
    assert BlockOk(mem, blocks, end, i) && BlockOk(mem, blocks, end, i + 1);
    InRange(mem, blocks, end, i + 1);
    if i + 2 < |blocks| { assert BlockOk(mem, blocks, end, i + 2); }
  }

  /** The header at `x` after the merge. */
  lemma MergedAt(mem: Memory, end: nat, b: nat, n: nat, x: nat)
    requires b in mem && n in mem && b != n && x in mem && x != n
    ensures var after := NextInMemory(mem[b := mem[b].(size := mem[b].size + mem[n].size)], end, b);
      after != b ==>
        && x in MergeMem(mem, end, b, n)
        && MergeMem(mem, end, b, n)[x] == mem[x].(
          size := if x == b then mem[b].size + mem[n].size else mem[x].size,
          prev := if after != NULL && x == after then b else mem[x].prev)
  {}

  lemma MergeBlockOk(mem: Memory, blocks: seq<nat>, end: nat, i: nat, j: nat)
    requires Tiled(mem, blocks, end) && i + 1 < |blocks| && j < |blocks| - 1 && blocks[i] != blocks[i + 1]
    ensures BlockOk(MergeMem(mem, end, blocks[i], blocks[i + 1]), Without(blocks, i + 1), end, j)
  {
    hide MergeMem, Tiled, NextInMemory;
    MergeFacts(mem, blocks, end, i);
    BlocksAboveNull(mem, blocks, end);
    var o := if j <= i then j else j + 1;
    EachBlock(mem, blocks, end, i);
    EachBlock(mem, blocks, end, i + 1);
    EachBlock(mem, blocks, end, o);
    Others(mem, blocks, end, o, i);
    Others(mem, blocks, end, o, i + 1);
    if i + 2 < |blocks| { Others(mem, blocks, end, o, i + 2); }
    MergedAt(mem, end, blocks[i], blocks[i + 1], blocks[o]);
  }

  lemma EachBlock(mem: Memory, blocks: seq<nat>, end: nat, i: nat)
    requires Tiled(mem, blocks, end) && i < |blocks|
    ensures BlockOk(mem, blocks, end, i)
  {}

  lemma Others(mem: Memory, blocks: seq<nat>, end: nat, i: nat, j: nat)
    requires Tiled(mem, blocks, end) && i < |blocks| && j < |blocks|
    ensures blocks[i] == blocks[j] <==> i == j
  {
    if blocks[i] == blocks[j] { DistinctBlocks(mem, blocks, end, i, j); }
  }

  // ---- Which blocks are free, and who holds the others ---------------------------------------------

  /** The list holds exactly the free blocks, leaving out `but`. */
  ghost predicate FreeExact(mem: Memory, frees: seq<nat>, but: nat) {
    forall b :: b in mem ==> (b in frees <==> !mem[b].used && b != but)
  }

  lemma FreeIsListed(mem: Memory, frees: seq<nat>, b: nat)
    requires FreeExact(mem, frees, NULL) && b in mem && !mem[b].used && b != NULL
    ensures b in frees
  {}

  lemma FreeIsUnused(mem: Memory, frees: seq<nat>, b: nat, but: nat)
    requires FreeExact(mem, frees, but) && b in mem && b in frees
    ensures !mem[b].used
  {}

  /** `t`, which was left out, takes the place of `b`. */
  lemma FreeExactMoved(mem: Memory, frees: seq<nat>, mem': Memory, frees': seq<nat>, b: nat, t: nat)
    requires FreeExact(mem, frees, t) && mem'.Keys == mem.Keys && t in mem && !mem[t].used && b != t
    requires forall x :: x in mem ==> mem'[x].used == mem[x].used
    requires forall x :: x in frees' <==> x == t || (x in frees && x != b)
    ensures FreeExact(mem', frees', b)
  {}

  lemma FreeExactFrame(mem: Memory, frees: seq<nat>, mem': Memory, frees': seq<nat>, but: nat)
    requires FreeExact(mem, frees, but) && mem'.Keys == mem.Keys
    requires forall x :: x in mem ==> mem'[x].used == mem[x].used
    requires forall x :: x in frees' <==> x in frees
    ensures FreeExact(mem', frees', but)
  {}

  /** A new free block at the head of the list. */
  lemma FreeExactAppended(mem: Memory, frees: seq<nat>, mem': Memory, frees': seq<nat>, b: nat)
    requires FreeExact(mem, frees, NULL) && b !in mem && mem'.Keys == mem.Keys + {b} && b != NULL && !mem'[b].used
    requires forall x :: x in mem ==> mem'[x].used == mem[x].used
    requires frees' == [b] + frees
    ensures FreeExact(mem', frees', NULL)
  {}

  ghost predicate PairOk(mem: Memory, blocks: seq<nat>, i: nat, but: nat)
    requires i + 1 < |blocks| && blocks[i] in mem && blocks[i + 1] in mem
  {
    mem[blocks[i]].used || mem[blocks[i + 1]].used || blocks[i] == but || blocks[i + 1] == but
  }

  /** No two neighbours are both free, leaving out pairs with `but`. */
  ghost predicate Coalesced(mem: Memory, blocks: seq<nat>, but: nat)
    requires forall i :: 0 <= i < |blocks| ==> blocks[i] in mem
  {
    forall i :: 0 <= i < |blocks| - 1 ==> PairOk(mem, blocks, i, but)
  }

  ghost predicate Holds(mem: Memory, p: nat, n: nat) {
    p >= HEADER && p - HEADER in mem && mem[p - HEADER].used && HEADER + n <= mem[p - HEADER].size
  }

  /** `live` maps each payload handed out to the size asked for; used blocks are exactly theirs. */
  ghost predicate LiveOk(mem: Memory, live: map<nat, nat>) {
    && (forall p :: p in live ==> Holds(mem, p, live[p]))
    && (forall b :: b in mem && mem[b].used ==> b + HEADER in live)
  }

  /** A block and any other do not overlap, and both lie in the heap. */
  lemma BlocksDisjoint(mem: Memory, blocks: seq<nat>, end: nat, a: nat, b: nat)
    requires Tiled(mem, blocks, end) && a in mem && b in mem && a != b
    ensures a + mem[a].size <= b || b + mem[b].size <= a
  {
    var i :| 0 <= i < |blocks| && blocks[i] == a;
    var j :| 0 <= j < |blocks| && blocks[j] == b;
    if i < j { Ordered(mem, blocks, end, i, j); } else { Ordered(mem, blocks, end, j, i); }
  }

  /** Payloads of distinct allocations are disjoint, and none reaches any header or leaves the heap. */
  lemma LiveDisjoint(mem: Memory, blocks: seq<nat>, end: nat, live: map<nat, nat>, p: nat, q: nat)
    requires Tiled(mem, blocks, end) && LiveOk(mem, live) && p in live
    ensures BASE + HEADER <= p && p + live[p] <= end
    ensures q in live && p != q ==> p + live[p] <= q || q + live[q] <= p
    ensures q in mem ==> q + HEADER <= p || p + live[p] <= q
  {
    hide Tiled;
    assert Holds(mem, p, live[p]);
    var a := p - HEADER;
    InHeap(mem, blocks, end, a);
    if q in live && p != q {
      assert Holds(mem, q, live[q]);
      BlocksDisjoint(mem, blocks, end, a, q - HEADER);
    }
    if q in mem && q != a {
      InHeap(mem, blocks, end, q);
      BlocksDisjoint(mem, blocks, end, a, q);
    }
  }

  lemma InHeap(mem: Memory, blocks: seq<nat>, end: nat, b: nat)
    requires Tiled(mem, blocks, end) && b in mem
    ensures BASE <= b && mem[b].size >= HEADER && b + mem[b].size <= end
  {
    var i :| 0 <= i < |blocks| && blocks[i] == b;
    assert BlockOk(mem, blocks, end, i);
    InRange(mem, blocks, end, i);
  }

  // ---- Alignment --------------------------------------------------------------------------------------

  /** The blocks below `a` whose size is 8 more than a multiple of 16. */
  ghost function OddBelow(mem: Memory, a: nat): set<nat> { set b | b in mem && b < a && mem[b].size % 16 == 8 }

  /** Sizes are multiples of 8, so blocks start at multiples of 8; one starts at a multiple of 16 exactly
      when an even number of the blocks below it have an odd multiple of 8 for their size. */
  lemma {:induction false} Parity(mem: Memory, blocks: seq<nat>, end: nat, i: nat)
    requires Tiled(mem, blocks, end) && i <= |blocks|
    ensures var a := if i < |blocks| then blocks[i] else end;
      a % 8 == 0 && (a % 16 == 0 <==> |OddBelow(mem, a)| % 2 == 0)
  {
    if i == 0 {
      NothingBelow(mem, blocks, end);
      assert OddBelow(mem, BASE) == {};
    } else {
      var b := blocks[i - 1];
      Parity(mem, blocks, end, i - 1);
      assert BlockOk(mem, blocks, end, i - 1);
      OddStep(mem, blocks, end, i - 1);
      hide Tiled, OddBelow;
      ParityStep(b, mem[b].size, |OddBelow(mem, b)|);
    }
  }

  lemma ParityStep(a: nat, size: nat, n: nat)
    requires a % 8 == 0 && size % 8 == 0 && (a % 16 == 0 <==> n % 2 == 0)
    ensures (a + size) % 8 == 0
    ensures (a + size) % 16 == 0 <==> (n + if size % 16 == 8 then 1 else 0) % 2 == 0
  {
    var x, y := a / 8, size / 8;
    assert a == 8 * x && size == 8 * y;
    Eighths(x);
    Eighths(y);
    Eighths(x + y);
  }

  lemma Eighths(x: nat)
    ensures 8 * x % 16 == 8 * (x % 2) && 8 * x % 8 == 0
  {
    Bytes.DivModUnique(16, x / 2, 8 * (x % 2));
    Bytes.DivModUnique(8, x, 0);
  }

  lemma NothingBelow(mem: Memory, blocks: seq<nat>, end: nat)
    requires Tiled(mem, blocks, end)
    ensures forall b :: b in mem ==> b >= BASE
  {
    forall b | b in mem ensures b >= BASE {
      var i :| 0 <= i < |blocks| && blocks[i] == b;
      InRange(mem, blocks, end, i);
    }
  }

  /** Between a block and the next there is no other. */
  lemma OddStep(mem: Memory, blocks: seq<nat>, end: nat, i: nat)
    requires Tiled(mem, blocks, end) && i < |blocks|
    ensures var b := blocks[i];
      |OddBelow(mem, b + mem[b].size)| == |OddBelow(mem, b)| + if mem[b].size % 16 == 8 then 1 else 0
  {
    var b := blocks[i];
    assert BlockOk(mem, blocks, end, i);
    forall x | x in mem && x != b ensures x < b + mem[b].size <==> x < b {
      BlocksDisjoint(mem, blocks, end, x, b);
      var j :| 0 <= j < |blocks| && blocks[j] == x;
      assert BlockOk(mem, blocks, end, j);
    }
    assert OddBelow(mem, b + mem[b].size) == OddBelow(mem, b) + if mem[b].size % 16 == 8 then {b} else {};
  }

  lemma HeaderShift(a: nat)
    requires a % 8 == 0
    ensures (a + HEADER) % 8 == 0 && ((a + HEADER) % 16 == 0 <==> a % 16 != 0)
  {
    var x := a / 8;
    Eighths(x);
    Eighths(x + 5);
    assert a == 8 * x && a + HEADER == 8 * (x + 5);
  }

  /** The alignment of a payload, by the blocks below its own. */
  lemma PayloadAligned(mem: Memory, blocks: seq<nat>, end: nat, b: nat)
    requires Tiled(mem, blocks, end) && (b in mem || b == end)
    ensures (b + HEADER) % 8 == 0 && ((b + HEADER) % 16 == 0 <==> |OddBelow(mem, b)| % 2 == 1)
  {
    if b in mem {
      var i :| 0 <= i < |blocks| && blocks[i] == b;
      Parity(mem, blocks, end, i);
    } else {
      Parity(mem, blocks, end, |blocks|);
    }
    hide Tiled, OddBelow;
    HeaderShift(b);
  }

  /** Every live payload is 8-byte aligned, and 16-byte aligned exactly when an odd number of the blocks below
      its own have an odd multiple of 8 for their size. */
  lemma LiveAligned(mem: Memory, blocks: seq<nat>, end: nat, live: map<nat, nat>, p: nat)
    requires Tiled(mem, blocks, end) && LiveOk(mem, live) && p in live
    ensures p >= HEADER && p % 8 == 0 && (p % 16 == 0 <==> |OddBelow(mem, p - HEADER)| % 2 == 1)
  {
    assert Holds(mem, p, live[p]);
    PayloadAligned(mem, blocks, end, p - HEADER);
  }

  // ---- Frames -----------------------------------------------------------------------------------------

  /** The list links live only in the headers of its own blocks. */
  lemma LinkedFrame(mem: Memory, mem': Memory, frees: seq<nat>, head: nat)
    requires Linked(mem, frees, head)
    requires forall b :: b in frees && b in mem ==>
      b in mem' && mem'[b].nextFree == mem[b].nextFree && mem'[b].prevFree == mem[b].prevFree
    ensures Linked(mem', frees, head)
  {
    forall i | 0 <= i < |frees| ensures NodeOk(mem', frees, i) { assert NodeOk(mem, frees, i); }
  }

  lemma FreesInMemory(mem: Memory, frees: seq<nat>, head: nat)
    requires Linked(mem, frees, head)
    ensures forall b :: b in frees ==> b in mem && b != NULL
  {
    forall b | b in frees ensures b in mem && b != NULL {
      var i :| 0 <= i < |frees| && frees[i] == b;
      assert NodeOk(mem, frees, i);
    }
  }

  /** Used blocks keep their size, and no block changes between used and free. */
  ghost predicate SameUse(mem: Memory, mem': Memory) {
    && (forall b :: b in mem && mem[b].used ==> b in mem' && mem'[b].used && mem'[b].size == mem[b].size)
    && (forall b :: b in mem' && mem'[b].used ==> b in mem && mem[b].used)
  }

  lemma LiveFrame(mem: Memory, mem': Memory, live: map<nat, nat>)
    requires LiveOk(mem, live) && SameUse(mem, mem')
    ensures LiveOk(mem', live)
  {}

  lemma CoalescedFrame(mem: Memory, mem': Memory, blocks: seq<nat>, but: nat)
    requires forall i :: 0 <= i < |blocks| ==>
      blocks[i] in mem && blocks[i] in mem' && mem'[blocks[i]].used == mem[blocks[i]].used
    requires Coalesced(mem, blocks, but)
    ensures Coalesced(mem', blocks, but)
  {
    forall i | 0 <= i < |blocks| - 1 ensures PairOk(mem', blocks, i, but) { assert PairOk(mem, blocks, i, but); }
  }

  lemma CoalescedAppend(mem: Memory, mem': Memory, blocks: seq<nat>, b: nat, but: nat)
    requires forall i :: 0 <= i < |blocks| ==>
      blocks[i] in mem && blocks[i] in mem' && mem'[blocks[i]].used == mem[blocks[i]].used
    requires Coalesced(mem, blocks, but) && b in mem' && (blocks != [] ==> mem[blocks[|blocks| - 1]].used)
    ensures Coalesced(mem', blocks + [b], but)
  {
    forall i | 0 <= i < |blocks + [b]| - 1 ensures PairOk(mem', blocks + [b], i, but) {
      if i < |blocks| - 1 { assert PairOk(mem, blocks, i, but); }
    }
  }

  lemma BlocksAboveNull(mem: Memory, blocks: seq<nat>, end: nat)
    requires Tiled(mem, blocks, end)
    ensures NULL !in mem
  {
    forall i | 0 <= i < |blocks| ensures blocks[i] != NULL { InRange(mem, blocks, end, i); }
  }

  lemma TiledFrame(mem: Memory, mem': Memory, blocks: seq<nat>, end: nat)
    requires Tiled(mem, blocks, end) && mem'.Keys == mem.Keys
    requires forall b :: b in mem ==> mem'[b].size == mem[b].size && mem'[b].prev == mem[b].prev
    ensures Tiled(mem', blocks, end)
  {
    forall i | 0 <= i < |blocks| ensures BlockOk(mem', blocks, end, i) { assert BlockOk(mem, blocks, end, i); }
  }

  // ---- Handing out a block -----------------------------------------------------------------------------

  /** After cutting a free block in two, only the pairs with its first part can be both free. */
  lemma CoalescedSplit(mem: Memory, mem': Memory, blocks: seq<nat>, i: nat, t: nat)
    requires i < |blocks| && forall j :: 0 <= j < |blocks| ==> blocks[j] in mem && blocks[j] in mem'
    requires t in mem' && Coalesced(mem, blocks, NULL) && !mem[blocks[i]].used && NULL !in blocks
    requires forall j :: 0 <= j < |blocks| ==> mem'[blocks[j]].used == mem[blocks[j]].used
    ensures forall j :: 0 <= j < |SplitBlocks(blocks, i, t)| ==> SplitBlocks(blocks, i, t)[j] in mem'
    ensures Coalesced(mem', SplitBlocks(blocks, i, t), blocks[i])
  {
    var blocks' := SplitBlocks(blocks, i, t);
    forall j | 0 <= j < |blocks'| ensures blocks'[j] in mem' {
      assert blocks'[j] == if j <= i then blocks[j] else if j == i + 1 then t else blocks[j - 1];
    }
    forall j | 0 <= j < |blocks'| - 1 ensures PairOk(mem', blocks', j, blocks[i]) {
      assert blocks'[j] == if j <= i then blocks[j] else if j == i + 1 then t else blocks[j - 1];
      assert blocks'[j + 1] == if j + 1 <= i then blocks[j + 1] else if j == i then t else blocks[j];
      if j == i + 1 {
        assert PairOk(mem, blocks, i, NULL);
      } else if j != i {
        assert PairOk(mem, blocks, if j < i then j else j - 1, NULL);
      }
    }
  }

  /** Using the block that was left out settles its pairs. */
  lemma CoalescedUse(mem: Memory, mem': Memory, blocks: seq<nat>, b: nat)
    requires forall j :: 0 <= j < |blocks| ==> blocks[j] in mem && blocks[j] in mem'
    requires Coalesced(mem, blocks, b) && forall j :: 0 <= j < |blocks| && (mem[blocks[j]].used || blocks[j] == b) ==>
      mem'[blocks[j]].used
    ensures Coalesced(mem', blocks, NULL)
  {
    forall j | 0 <= j < |blocks| - 1 ensures PairOk(mem', blocks, j, NULL) { assert PairOk(mem, blocks, j, b); }
  }

  lemma CoalescedWeaken(mem: Memory, mem': Memory, blocks: seq<nat>, b: nat)
    requires forall j :: 0 <= j < |blocks| ==>
      blocks[j] in mem && blocks[j] in mem' && mem'[blocks[j]].used == mem[blocks[j]].used
    requires Coalesced(mem, blocks, NULL) && NULL !in blocks
    ensures Coalesced(mem', blocks, b)
  {
    forall j | 0 <= j < |blocks| - 1 ensures PairOk(mem', blocks, j, b) { assert PairOk(mem, blocks, j, NULL); }
  }

  /** Block `b`, free before, now serves an allocation of `n` bytes. */
  lemma LiveTaken(mem: Memory, mem': Memory, live: map<nat, nat>, b: nat, n: nat)
    requires LiveOk(mem, live) && b in mem && !mem[b].used && b in mem' && mem'[b].used && HEADER + n <= mem'[b].size
    requires forall x :: x in mem && mem[x].used ==> x in mem' && mem'[x].used && mem'[x].size == mem[x].size
    requires forall x :: x in mem' && mem'[x].used ==> x == b || (x in mem && mem[x].used)
    ensures b + HEADER !in live && LiveOk(mem', live[b + HEADER := n])
  {}

  // ---- Taking a block back -------------------------------------------------------------------------------

  /** The block after `b`, if any, is in use. */
  ghost predicate NextUsed(mem: Memory, blocks: seq<nat>, b: nat) {
    forall i :: 0 <= i < |blocks| - 1 && blocks[i] == b ==> blocks[i + 1] in mem && mem[blocks[i + 1]].used
  }

  ghost predicate PrevUsed(mem: Memory, blocks: seq<nat>, b: nat) {
    forall i :: 0 < i < |blocks| && blocks[i] == b ==> blocks[i - 1] in mem && mem[blocks[i - 1]].used
  }

  lemma CoalescedSettled(mem: Memory, blocks: seq<nat>, b: nat)
    requires forall j :: 0 <= j < |blocks| ==> blocks[j] in mem
    requires Coalesced(mem, blocks, b) && NextUsed(mem, blocks, b) && PrevUsed(mem, blocks, b)
    ensures Coalesced(mem, blocks, NULL)
  {
    forall j | 0 <= j < |blocks| - 1 ensures PairOk(mem, blocks, j, NULL) {
      assert PairOk(mem, blocks, j, b);
      var k := j + 1;
      assert blocks[k] == b ==> mem[blocks[k - 1]].used;
    }
  }

  /** Merging changes one size and one back link, and drops one header. */
  lemma MergeFields(mem: Memory, end: nat, b: nat, n: nat)
    requires b in mem && n in mem && b != n
    ensures var m := MergeMem(mem, end, b, n);
      && m.Keys == mem.Keys - {n}
      && (forall x :: x in m ==>
            m[x].used == mem[x].used && m[x].nextFree == mem[x].nextFree && m[x].prevFree == mem[x].prevFree)
      && (forall x :: x in m && x != b ==> m[x].size == mem[x].size)
  {}

  lemma CoalescedMerge(mem: Memory, mem': Memory, blocks: seq<nat>, i: nat, but: nat, bs: seq<nat>)
    requires i + 1 < |blocks| && bs == Without(blocks, i + 1) && (forall j :: 0 <= j < |blocks| ==> blocks[j] in mem)
    requires Coalesced(mem, blocks, but) && (but == blocks[i] || but == blocks[i + 1])
    requires forall j :: 0 <= j < |blocks| && j != i + 1 ==>
      blocks[j] in mem' && mem'[blocks[j]].used == mem[blocks[j]].used
    requires forall j, k :: 0 <= j < k < |blocks| ==> blocks[j] != blocks[k]
    ensures forall j :: 0 <= j < |bs| ==> bs[j] in mem'
    ensures Coalesced(mem', bs, blocks[i])
  {
    forall j | 0 <= j < |bs| ensures bs[j] in mem' {
      assert bs[j] == if j <= i then blocks[j] else blocks[j + 1];
    }
    forall j | 0 <= j < |bs| - 1 ensures PairOk(mem', bs, j, blocks[i]) {
      assert bs[j] == if j <= i then blocks[j] else blocks[j + 1];
      assert bs[j + 1] == if j + 1 <= i then blocks[j + 1] else blocks[j + 2];
      if j != i && j + 1 != i {
        assert PairOk(mem, blocks, if j <= i then j else j + 1, but);
      }
    }
  }

  /** Marking a used block free, before it is coalesced or listed. */
  lemma CoalescedRelease(mem: Memory, mem': Memory, blocks: seq<nat>, b: nat)
    requires forall j :: 0 <= j < |blocks| ==> blocks[j] in mem && blocks[j] in mem'
    requires Coalesced(mem, blocks, NULL) && NULL !in blocks
    requires forall j :: 0 <= j < |blocks| && blocks[j] != b ==> mem'[blocks[j]].used == mem[blocks[j]].used
    ensures Coalesced(mem', blocks, b)
  {
    forall j | 0 <= j < |blocks| - 1 ensures PairOk(mem', blocks, j, b) { assert PairOk(mem, blocks, j, NULL); }
  }

  lemma LiveReleased(mem: Memory, live: map<nat, nat>, b: nat)
    requires LiveOk(mem, live) && b in mem && mem[b].used
    ensures b + HEADER in live
    ensures LiveOk(mem[b := mem[b].(used := false)], live - {b + HEADER})
  {}

  /** The neighbour above a merged block: it followed a free block, so it is in use. */
  lemma NextUsedAfterMerge(mem: Memory, mem': Memory, blocks: seq<nat>, end: nat, i: nat, bs: seq<nat>)
    requires Tiled(mem, blocks, end) && i + 1 < |blocks| && bs == Without(blocks, i + 1)
    requires i + 2 < |blocks| ==> mem[blocks[i + 2]].used && blocks[i + 2] in mem' && mem'[blocks[i + 2]].used
    ensures NextUsed(mem', bs, blocks[i])
  {
    forall j | 0 <= j < |bs| - 1 && bs[j] == blocks[i] ensures bs[j + 1] in mem' && mem'[bs[j + 1]].used {
      var o := if j <= i then j else j + 1;
      assert bs[j] == blocks[o];
      DistinctBlocks(mem, blocks, end, o, i);
      assert bs[j + 1] == blocks[i + 2];
    }
  }

  lemma PrevUsedAfterMerge(mem: Memory, mem': Memory, blocks: seq<nat>, end: nat, i: nat, bs: seq<nat>)
    requires Tiled(mem, blocks, end) && i + 1 < |blocks| && bs == Without(blocks, i + 1)
    requires i > 0 ==> blocks[i - 1] in mem' && mem'[blocks[i - 1]].used
    ensures PrevUsed(mem', bs, blocks[i])
  {
    forall j | 0 < j < |bs| && bs[j] == blocks[i] ensures bs[j - 1] in mem' && mem'[bs[j - 1]].used {
      var o := if j <= i then j else j + 1;
      assert bs[j] == blocks[o];
      DistinctBlocks(mem, blocks, end, o, i);
      assert bs[j - 1] == blocks[i - 1];
    }
  }

  lemma UsedNeighbours(mem: Memory, blocks: seq<nat>, end: nat, i: nat)
    requires Tiled(mem, blocks, end) && i < |blocks|
    ensures (i + 1 < |blocks| ==> mem[blocks[i + 1]].used) <==> NextUsed(mem, blocks, blocks[i])
    ensures (i > 0 ==> mem[blocks[i - 1]].used) <==> PrevUsed(mem, blocks, blocks[i])
  {
    forall j | 0 <= j < |blocks| && blocks[j] == blocks[i] ensures j == i { DistinctBlocks(mem, blocks, end, j, i); }
  }
}
