/** The kernel heap: first fit, split, two-sided coalescing (kernel/mem/heap.c). */
module Heap {
  import opened Machine
  import opened HeapLayout

  /** The heap can grow by at most the physical memory that the page allocator tracks (64 GiB). */
  const MAX_END: nat := BASE + 0x10_0000_0000

  class KernelHeap {
    var mem: Memory        // block headers by address
    var freeList: nat
    var heapLast: nat
    var heapEnd: nat
    ghost var blocks: seq<nat>      // all blocks in address order
    ghost var frees: seq<nat>       // the free list
    ghost var live: map<nat, nat>   // payloads handed out, with the sizes asked for

    /** Everything but the free list's completeness and coalescing around `but`. */
    ghost predicate Almost(but: nat)
      reads this
    {
      && BASE <= heapEnd <= MAX_END
      && Tiled(mem, blocks, heapEnd)
      && Linked(mem, frees, freeList)
      && heapLast == (if blocks == [] then NULL else blocks[|blocks| - 1])
      && FreeExact(mem, frees, but)
      && Coalesced(mem, blocks, but)
      && LiveOk(mem, live)
    }

    ghost predicate Valid()
      reads this
    {
      Almost(NULL)
    }

    /** heap_init, before its first page. */
    constructor ()
      ensures Valid() && live == map[] && heapEnd == BASE && mem == map[] && frees == [] && heapLast == NULL
    {
      mem, freeList, heapLast, heapEnd := map[], NULL, NULL, BASE;
      blocks, frees, live := [], [], map[];
    }

    /** free_list_add */
    method FreeListAdd(b: nat)
      requires Linked(mem, frees, freeList) && b in mem && b != NULL && b !in frees
      modifies this`mem, this`freeList, this`frees
      ensures Linked(mem, frees, freeList) && SameLayout(old(mem), mem)
      ensures frees == [b] + old(frees)
    {
      LinkedFirst(mem, frees, freeList, b);
      mem := LinkFirst(mem, freeList, b);
      freeList := b;
      frees := [b] + frees;
    }

    /** free_list_remove */
    method FreeListRemove(b: nat)
      requires Linked(mem, frees, freeList) && b in frees
      modifies this`mem, this`freeList, this`frees
      ensures Linked(mem, frees, freeList) && SameLayout(old(mem), mem)
      ensures forall x :: x in frees <==> x in old(frees) && x != b
    {
      ghost var k :| 0 <= k < |frees| && frees[k] == b;
      LinkedWithout(mem, frees, freeList, k);
      forall x ensures x in Without(frees, k) <==> x in frees && x != b { WithoutMembers(frees, k, x); }
      freeList := if mem[b].prevFree != NULL then freeList else mem[b].nextFree;
      mem := Unlink(mem, b);
      frees := Without(frees, k);
    }

    /** expand: one more page, given whether the page and its mapping were `granted`. It joins a trailing
        free block or becomes a block of its own; either way the trailing block heads the free list. */
    method Expand(granted: bool) returns (ok: bool)
      requires Valid() && (granted ==> heapEnd + PAGE <= MAX_END)
      modifies this
      ensures Valid() && ok == granted && live == old(live)
      ensures !ok ==> mem == old(mem) && heapEnd == old(heapEnd) && frees == old(frees)
      ensures ok ==>
        && heapEnd == old(heapEnd) + PAGE
        && heapLast in mem && frees != [] && frees[0] == heapLast
        && heapLast == old(TrailingStart())
        && mem[heapLast].size == PAGE + old(TrailingFree())
    {
      ok := granted;
      if !ok { return; }
      BlocksAboveNull(mem, blocks, heapEnd);
      FreesInMemory(mem, frees, freeList);
      if heapLast != NULL && !mem[heapLast].used {
        GrowTrailing();
      } else {
        AppendPage();
      }
    }

    /** Size of the trailing block if it is free, else 0. */
    ghost function TrailingFree(): nat
      reads this
    {
      if heapLast != NULL && heapLast in mem && !mem[heapLast].used then mem[heapLast].size else 0
    }

    /** Where the next page joins: the trailing free block, or the end of the heap. */
    ghost function TrailingStart(): nat
      reads this
    {
      if heapLast != NULL && heapLast in mem && !mem[heapLast].used then heapLast else heapEnd
    }

    /** The block that a request of `size` bytes gets: the first that fits, or the one that growth makes. */
    ghost function Place(size: nat): nat
      reads this
    {
      if FirstFitIn(mem, frees, Total(size)) != NULL then FirstFitIn(mem, frees, Total(size)) else TrailingStart()
    }

    method GrowTrailing()
      requires Valid() && heapEnd + PAGE <= MAX_END && heapLast != NULL && heapLast in mem && !mem[heapLast].used
      modifies this
      ensures Valid() && live == old(live) && heapEnd == old(heapEnd) + PAGE
      ensures heapLast == old(heapLast)
      ensures heapLast in mem && frees != [] && frees[0] == heapLast
      ensures mem[heapLast].size == PAGE + old(mem[heapLast].size)
    {
      hide Tiled, Linked, Coalesced, LiveOk, FreeExact;
      var b := heapLast;
      FreeIsListed(mem, frees, b);
      FreeListRemove(b);
      ghost var mem1 := mem;
      mem := mem[b := mem[b].(size := mem[b].size + PAGE)];
      heapEnd := heapEnd + PAGE;
      LinkedFrame(mem1, mem, frees, freeList);
      FreeListAdd(b);
      GrownKeeps(old(mem), mem1, mem, blocks, old(heapEnd), old(frees), frees, live, b);
    }

    method AppendPage()
      requires Valid() && heapEnd + PAGE <= MAX_END && (heapLast != NULL ==> heapLast in mem && mem[heapLast].used)
      modifies this
      ensures Valid() && live == old(live) && heapEnd == old(heapEnd) + PAGE
      ensures heapLast == old(heapEnd)
      ensures heapLast in mem && frees != [] && frees[0] == heapLast && mem[heapLast].size == PAGE
    {
      hide Tiled, Linked, Coalesced, LiveOk, FreeExact;
      var b := heapEnd;
      BlocksAboveNull(mem, blocks, heapEnd);
      AppendedFirst(mem, blocks, heapEnd, frees, freeList, heapLast);
      mem := mem[b := Header(false, PAGE, heapLast, NULL, NULL)];
      FreeListAdd(b);
      AppendedKeeps(old(mem), mem, blocks, b, old(frees), frees, live, heapLast);
      blocks := blocks + [b];
      heapEnd := heapEnd + PAGE;
      heapLast := b;
    }

    /** The search of kmalloc: NULL exactly if every listed block is too small, else the first that is not. */
    method FirstFit(total: nat) returns (b: nat)
      requires Linked(mem, frees, freeList)
      ensures b == NULL <==> forall i :: 0 <= i < |frees| ==> TooSmall(mem, frees[i], total)
      ensures b != NULL ==> IsFirstFit(mem, frees, total, b)
      ensures b == FirstFitIn(mem, frees, total)
    {
      FirstFitFits(mem, frees, freeList, total);
      b := freeList;
      ghost var i := 0;
      assert frees[0..] == frees;
      if frees != [] { assert NodeOk(mem, frees, 0); }
      while b != NULL && mem[b].size < total
        invariant 0 <= i <= |frees| && b == (if i < |frees| then frees[i] else NULL)
        invariant b != NULL ==> b in mem
        invariant FirstFitIn(mem, frees, total) == FirstFitIn(mem, frees[i..], total)
        decreases |frees| - i
      {
        assert NodeOk(mem, frees, i);
        if i + 1 < |frees| { assert NodeOk(mem, frees, i + 1); }
        assert frees[i..][1..] == frees[i + 1..];
        b := mem[b].nextFree;
        i := i + 1;
      }
      if i < |frees| { assert NodeOk(mem, frees, i); }
    }

    /** Takes the free block `b` for `n` bytes, cutting off the rest when it is worth a block. */
    method Take(b: nat, total: nat, ghost n: nat)
      requires Valid() && b in frees && b in mem && mem[b].size >= total && total >= HEADER + n && total % 8 == 0
      modifies this
      ensures Valid() && heapEnd == old(heapEnd)
      ensures b + HEADER !in old(live) && live == old(live)[b + HEADER := n]
      ensures b in mem && mem[b].size == if old(mem[b].size) >= total + MIN_SPLIT then total else old(mem[b].size)
    {
      hide Tiled, Linked, Coalesced, LiveOk;
      BlocksAboveNull(mem, blocks, heapEnd);
      FreesInMemory(mem, frees, freeList);
      if mem[b].size >= total + MIN_SPLIT {
        CutTail(b, total);
      } else {
        FreeListRemove(b);
        TiledSameLayout(old(mem), mem, blocks, heapEnd);
        CoalescedWeaken(old(mem), mem, blocks, b);
        LiveFrame(old(mem), mem, live);
      }
      hide FreeExact;
      UseKeeps(mem, blocks, heapEnd, frees, freeList, live, b, n);
      mem := mem[b := mem[b].(used := true)];
      live := live[b + HEADER := n];
    }

    /** Cuts block `b` after `total` bytes: the tail goes on the free list, and `b` comes off it. */
    method CutTail(b: nat, total: nat)
      requires Valid() && b in frees && b in mem && mem[b].size >= total + MIN_SPLIT && total >= HEADER
      requires total % 8 == 0
      requires NULL !in mem && forall x :: x in frees ==> x in mem
      modifies this
      ensures Almost(b) && heapEnd == old(heapEnd) && live == old(live)
      ensures b in mem && !mem[b].used && mem[b].size == total
    {
      hide Tiled, Linked, Coalesced, LiveOk, SplitMem, FreeExact;
      var t := b + total;
      SplitOff(b, total);
      FreeIsUnused(mem, frees, b, t);
      ghost var mem1, frees1 := mem, frees;
      Relist(b, t);
      FreeExactMoved(mem1, frees1, mem, frees, b, t);
      TiledFrame(mem1, mem, blocks, heapEnd);
      CoalescedFrame(mem1, mem, blocks, b);
      LiveFrame(mem1, mem, live);
    }

    /** The tail takes the place of the block on the free list. */
    method Relist(b: nat, t: nat)
      requires Linked(mem, frees, freeList) && b in frees && t in mem && t != NULL && t !in frees
      modifies this`mem, this`freeList, this`frees
      ensures Linked(mem, frees, freeList) && SameLayout(old(mem), mem)
      ensures forall x :: x in frees <==> x == t || (x in old(frees) && x != b)
    {
      hide Linked;
      FreeListRemove(b);
      FreeListAdd(t);
    }

    method SplitOff(b: nat, total: nat)
      requires Valid() && b in frees && b in mem && mem[b].size >= total + MIN_SPLIT && total >= HEADER
      requires total % 8 == 0
      requires NULL !in mem && forall x :: x in frees ==> x in mem
      modifies this`mem, this`blocks, this`heapLast
      ensures Tiled(mem, blocks, heapEnd) && Linked(mem, frees, freeList) && LiveOk(mem, live)
      ensures heapLast == (if blocks == [] then NULL else blocks[|blocks| - 1])
      ensures mem.Keys == old(mem).Keys + {b + total} && b + total !in old(mem) && !mem[b + total].used
      ensures mem[b].size == total
      ensures FreeExact(mem, frees, b + total) && Coalesced(mem, blocks, b)
    {
      hide Tiled, Linked, Coalesced, LiveOk, SplitMem;
      assert !mem[b].used;
      hide FreeExact;
      ghost var i := IndexOf(mem, blocks, heapEnd, b);
      SplitKeeps(mem, blocks, heapEnd, frees, freeList, live, i, total);
      LastOfSplit(mem, blocks, heapEnd, i, b + total);
      mem := SplitMem(mem, heapEnd, b, total);
      if heapLast == b { heapLast := b + total; }
      blocks := SplitBlocks(blocks, i, b + total);
    }

    /** The expansion loop of kmalloc: `pages` calls of expand, of which the first `grants` succeed. */
    method Grow(pages: nat, grants: nat) returns (ok: bool)
      requires Valid() && heapEnd + PAGE * grants <= MAX_END
      modifies this
      ensures Valid() && live == old(live)
      ensures ok <==> pages <= grants
      ensures heapEnd == old(heapEnd) + PAGE * (if ok then pages else grants)
      ensures ok && pages > 0 ==>
        frees != [] && frees[0] == old(TrailingStart()) && frees[0] in mem && mem[frees[0]].size >= PAGE * pages
      ensures pages == 0 ==> mem == old(mem) && frees == old(frees)
    {
      hide Tiled, Linked, Coalesced, LiveOk, FreeExact;
      var i := 0;
      while i < pages
        invariant i <= pages && i <= grants
        invariant Valid() && live == old(live) && heapEnd == old(heapEnd) + PAGE * i
        invariant i == 0 ==> mem == old(mem) && frees == old(frees) && heapLast == old(heapLast)
        invariant i > 0 ==>
          heapLast in mem && !mem[heapLast].used && heapLast != NULL && heapLast == old(TrailingStart())
        invariant i > 0 ==> frees != [] && frees[0] == heapLast && mem[heapLast].size >= PAGE * i
      {
        ok := Expand(i < grants);
        if !ok { return; }
        HeadIsFree();
        i := i + 1;
      }
      ok := true;
    }

    lemma HeadIsFree()
      requires Valid() && frees != []
      ensures frees[0] in mem && !mem[frees[0]].used && frees[0] != NULL
    {
      FreesInMemory(mem, frees, freeList);
    }

    /** kmalloc. `grants` is how many further pages the page allocator and the page tables can supply.
        It fails exactly for size 0, for sizes whose rounding would overflow, and when no free block fits
        and either the page count wraps or fewer pages than needed are granted. The payload lies in the first
        listed block that fits; only if no unused block does the heap grow. The payload is 8-byte
        aligned, and 16-byte aligned exactly when an odd number of the blocks below its place have an odd
        multiple of 8 for their size. A request refused for want of pages keeps those it was granted. */
    method Kmalloc(size: nat, grants: nat) returns (p: nat)
      requires Valid() && size < U64 && heapEnd + PAGE * grants <= MAX_END
      modifies this
      ensures Valid()
      ensures p == NULL <==>
        || size == 0 || size > MAX_SIZE
        || (NoRoom(old(mem), Total(size)) && (PageCountWraps(size) || PagesFor(Total(size)) > grants))
      ensures p == NULL ==> live == old(live)
      ensures p == NULL ==>
        heapEnd == old(heapEnd) + if 0 < size <= MAX_SIZE && !PageCountWraps(size) then PAGE * grants else 0
      ensures p != NULL ==> p !in old(live) && live == old(live)[p := size]
      ensures p != NULL ==>
        p == old(Place(size)) + HEADER && p % 8 == 0 && (p % 16 == 0 <==> |old(OddBelow(mem, Place(size)))| % 2 == 1)
      ensures p != NULL ==>
        if NoRoom(old(mem), Total(size)) then
          p - HEADER == old(TrailingStart()) && heapEnd == old(heapEnd) + PAGE * PagesFor(Total(size))
        else
          IsFirstFit(old(mem), old(frees), Total(size), p - HEADER) && heapEnd == old(heapEnd)
      ensures p != NULL ==> p - HEADER in mem && Total(size) <= mem[p - HEADER].size < Total(size) + MIN_SPLIT
    {
      hide Tiled, Linked, Coalesced, LiveOk, FreeExact, Total, PagesFor, NoRoom, IsFirstFit, TooSmall;
      if size == 0 || size > MAX_SIZE { return NULL; }
      PlaceAligned(size);
      BlocksAboveNull(mem, blocks, heapEnd);
      RoomIsListed(mem, frees, freeList, Total(size));
      var total := Total(size);
      TotalBounds(size);
      var b := FirstFit(total);
      if b == NULL {
        var pages := PagesFor(total);
        var ok := Grow(pages, grants);
        if !ok { return NULL; }
        if pages > 0 { HeadIsFree(); }
        b := FirstFit(total);
        if b == NULL { return NULL; }
      }
      FirstFitFits(mem, frees, freeList, total);
      Take(b, total, size);
      p := b + HEADER;
    }

    lemma PlaceAligned(size: nat)
      requires Valid()
      ensures var b := Place(size);
        (b + HEADER) % 8 == 0 && ((b + HEADER) % 16 == 0 <==> |OddBelow(mem, b)| % 2 == 1)
    {
      hide Tiled, Linked, Coalesced, LiveOk, FreeExact, Total;
      FirstFitFits(mem, frees, freeList, Total(size));
      PayloadAligned(mem, blocks, heapEnd, Place(size));
    }

    /** Joins block number i+1 into block number i, after taking the listed one of the two off the list. */
    method Join(ghost i: nat, b: nat, n: nat, listed: nat, ghost but: nat)
      requires Almost(but) && i + 1 < |blocks| && blocks[i] == b && blocks[i + 1] == n
      requires {but, listed} == {b, n} && but != listed && !mem[b].used && !mem[n].used && listed in frees
      modifies this
      ensures Almost(b) && live == old(live) && heapEnd == old(heapEnd)
      ensures b in mem && !mem[b].used && SameFlagsBut(old(mem), mem, n)
      ensures blocks == Without(old(blocks), i + 1)
    {
      hide Tiled, Linked, Coalesced, LiveOk, MergeMem, FreeExact, SameLayout, SameFlagsBut;
      FreeListRemove(listed);
      JoinKeeps(old(mem), old(frees), mem, blocks, heapEnd, frees, freeList, live, i, listed, but);
      mem := MergeMem(mem, heapEnd, b, n);
      if heapLast == n { heapLast := b; }
      blocks := Without(blocks, i + 1);
    }

    /** kfree's first half: join the free block `b` with the block after it, if that is free too. */
    method JoinNext(b: nat)
      requires Almost(b) && b in mem && !mem[b].used
      modifies this
      ensures Almost(b) && live == old(live) && heapEnd == old(heapEnd)
      ensures b in mem && !mem[b].used && NextUsed(mem, blocks, b)
    {
      hide Tiled, Linked, LiveOk, SameFlagsBut;
      ghost var i := IndexOf(mem, blocks, heapEnd, b);
      NextIsNext(mem, blocks, heapEnd, i);
      BlocksAboveNull(mem, blocks, heapEnd);
      UsedNeighbours(mem, blocks, heapEnd, i);
      var n := NextInMemory(mem, heapEnd, b);
      if n != NULL && !mem[n].used {
        AllDistinct(mem, blocks, heapEnd);
        AfterFreeIsUsed(i);
        Join(i, b, n, n, b);
        FlagsKept(old(mem), mem, n);
        NextUsedAfterMerge(old(mem), mem, old(blocks), heapEnd, i, blocks);
      }
    }

    /** In a coalesced heap around `but`, what follows the free block after `but` is in use. */
    lemma AfterFreeIsUsed(i: nat)
      requires i + 2 <= |blocks| && Almost(blocks[i]) && !mem[blocks[i + 1]].used
      ensures i + 2 < |blocks| ==> mem[blocks[i + 2]].used && blocks[i + 2] != blocks[i + 1]
    {
      if i + 2 < |blocks| {
        assert PairOk(mem, blocks, i + 1, blocks[i]);
        AllDistinct(mem, blocks, heapEnd);
      }
    }

    /** kfree's second half: join with the block before, if that is free. */
    method JoinPrev(b: nat) returns (c: nat)
      requires Almost(b) && b in mem && !mem[b].used && NextUsed(mem, blocks, b)
      modifies this
      ensures Almost(c) && live == old(live) && heapEnd == old(heapEnd)
      ensures c in mem && !mem[c].used && NextUsed(mem, blocks, c) && PrevUsed(mem, blocks, c)
    {
      hide Tiled, Linked, LiveOk, SameFlagsBut;
      ghost var i := IndexOf(mem, blocks, heapEnd, b);
      BlocksAboveNull(mem, blocks, heapEnd);
      UsedNeighbours(mem, blocks, heapEnd, i);
      PrevIsPrev(mem, blocks, heapEnd, i);
      AllDistinct(mem, blocks, heapEnd);
      c := mem[b].prev;
      if c != NULL && !mem[c].used {
        if i > 1 { assert PairOk(mem, blocks, i - 2, b); }
        Join(i - 1, c, b, c, b);
        FlagsKept(old(mem), mem, b);
        NextUsedAfterMerge(old(mem), mem, old(blocks), heapEnd, i - 1, blocks);
        PrevUsedAfterMerge(old(mem), mem, old(blocks), heapEnd, i - 1, blocks);
      } else {
        c := b;
      }
    }

    /** kfree; false stands for the panic where no block in use starts. Exactly the given allocation ends. */
    method Kfree(ptr: nat) returns (ok: bool)
      requires Valid()
      modifies this
      ensures Valid() && heapEnd == old(heapEnd)
      ensures ok <==> ptr == NULL || ptr in old(live)
      ensures live == old(live) - {ptr}
      ensures !ok || ptr == NULL ==> mem == old(mem) && frees == old(frees)
    {
      hide Tiled, Linked, LiveOk;
      UsedIsLive(ptr);
      ok := true;
      if ptr == NULL { return; }
      if ptr < HEADER || ptr - HEADER !in mem || !mem[ptr - HEADER].used {
        ok := false;
        return;
      }
      var b := ptr - HEADER;
      BlocksAboveNull(mem, blocks, heapEnd);
      LiveReleased(mem, live, b);
      FreesInMemory(mem, frees, freeList);
      mem := mem[b := mem[b].(used := false)];
      live := live - {ptr};
      TiledFrame(old(mem), mem, blocks, heapEnd);
      LinkedFrame(old(mem), mem, frees, freeList);
      CoalescedRelease(old(mem), mem, blocks, b);
      JoinNext(b);
      b := JoinPrev(b);
      PutBack(b);
    }

    /** The coalesced free block goes on the list. */
    method PutBack(b: nat)
      requires Almost(b) && b in mem && !mem[b].used && NextUsed(mem, blocks, b) && PrevUsed(mem, blocks, b)
      modifies this
      ensures Valid() && live == old(live) && heapEnd == old(heapEnd)
    {
      hide Tiled, Linked, LiveOk, Coalesced;
      BlocksAboveNull(mem, blocks, heapEnd);
      CoalescedSettled(mem, blocks, b);
      FreeListAdd(b);
      TiledSameLayout(old(mem), mem, blocks, heapEnd);
      CoalescedFrame(old(mem), mem, blocks, NULL);
      LiveFrame(old(mem), mem, live);
    }

    lemma UsedIsLive(ptr: nat)
      requires Valid()
      ensures ptr in live <==> ptr >= HEADER && ptr - HEADER in mem && mem[ptr - HEADER].used
      ensures NULL !in live
    {}
  }

  /** A page joined to the trailing free block, which is taken off the list and put at its head. */
  lemma GrownKeeps(mem: Memory, mem1: Memory, mem2: Memory, blocks: seq<nat>, end: nat, frees: seq<nat>,
                   frees2: seq<nat>, live: map<nat, nat>, b: nat)
    requires Tiled(mem, blocks, end) && FreeExact(mem, frees, NULL) && Coalesced(mem, blocks, NULL) && LiveOk(mem, live)
    requires blocks != [] && b == blocks[|blocks| - 1] && SameLayout(mem, mem1) && !mem[b].used
    requires SameLayout(mem1[b := mem1[b].(size := mem1[b].size + PAGE)], mem2)
    requires forall x :: x in frees2 <==> x in frees
    ensures Tiled(mem2, blocks, end + PAGE) && FreeExact(mem2, frees2, NULL) && Coalesced(mem2, blocks, NULL)
    ensures LiveOk(mem2, live)
  {
    hide Tiled, Coalesced, LiveOk, FreeExact;
    TiledSameLayout(mem, mem1, blocks, end);
    TiledGrowLast(mem1, blocks, end, PAGE);
    TiledSameLayout(mem1[b := mem1[b].(size := mem1[b].size + PAGE)], mem2, blocks, end + PAGE);
    FreeExactFrame(mem, frees, mem2, frees2, NULL);
    CoalescedFrame(mem, mem2, blocks, NULL);
    LiveFrame(mem, mem2, live);
  }

  /** A page that becomes a block of its own, before it is listed. */
  lemma AppendedFirst(mem: Memory, blocks: seq<nat>, end: nat, frees: seq<nat>, head: nat, last: nat)
    requires Tiled(mem, blocks, end) && Linked(mem, frees, head)
    ensures end !in mem && end !in frees && Linked(mem[end := Header(false, PAGE, last, NULL, NULL)], frees, head)
  {
    hide Tiled, Linked;
    TiledAppend(mem, blocks, end, PAGE);
    FreesInMemory(mem, frees, head);
    LinkedFrame(mem, mem[end := Header(false, PAGE, last, NULL, NULL)], frees, head);
  }

  /** And after: it heads the list. */
  lemma AppendedKeeps(mem: Memory, mem2: Memory, blocks: seq<nat>, end: nat, frees: seq<nat>, frees2: seq<nat>,
                      live: map<nat, nat>, last: nat)
    requires Tiled(mem, blocks, end) && FreeExact(mem, frees, NULL) && Coalesced(mem, blocks, NULL) && LiveOk(mem, live)
    requires last == (if blocks == [] then NULL else blocks[|blocks| - 1])
    requires last != NULL ==> last in mem && mem[last].used
    requires end !in mem && end != NULL && frees2 == [end] + frees
    requires SameLayout(mem[end := Header(false, PAGE, last, NULL, NULL)], mem2)
    ensures Tiled(mem2, blocks + [end], end + PAGE) && FreeExact(mem2, frees2, NULL) && LiveOk(mem2, live)
    ensures Coalesced(mem2, blocks + [end], NULL) && mem2[end].size == PAGE
  {
    hide Tiled, Coalesced, LiveOk, FreeExact;
    TiledAppend(mem, blocks, end, PAGE);
    BlocksAboveNull(mem, blocks, end);
    TiledSameLayout(mem[end := Header(false, PAGE, last, NULL, NULL)], mem2, blocks + [end], end + PAGE);
    LiveFrame(mem, mem2, live);
    FreeExactAppended(mem, frees, mem2, frees2, end);
    CoalescedAppend(mem, mem2, blocks, end, NULL);
  }

  lemma PrevIsPrev(mem: Memory, blocks: seq<nat>, end: nat, i: nat)
    requires Tiled(mem, blocks, end) && i < |blocks|
    ensures mem[blocks[i]].prev == if i == 0 then NULL else blocks[i - 1]
  {
    assert BlockOk(mem, blocks, end, i);
  }

  lemma FlagsKept(mem: Memory, mem': Memory, n: nat)
    requires SameFlagsBut(mem, mem', n)
    ensures forall x :: x in mem && x != n ==> x in mem' && mem'[x].used == mem[x].used
  {}

  datatype HeapOp = Alloc(size: nat, grants: nat) | Free(ptr: nat)

  ghost predicate Disjoint(live: map<nat, nat>) {
    forall p, q :: p in live && q in live && p != q ==> p + live[p] <= q || q + live[q] <= p
  }

  /** Any run of allocations (granted or not) and frees of what is allocated keeps the heap well formed,
      and the allocations disjoint and 8-byte aligned. `kept` is what the callers hold at each point. */
  method RunHeap(h: KernelHeap, ops: seq<HeapOp>) returns (kept: set<nat>)
    requires h.Valid() && h.live == map[]
    requires forall i :: 0 <= i < |ops| && ops[i].Alloc? ==> ops[i].size < U64
    modifies h
    ensures h.Valid() && kept == h.live.Keys && Disjoint(h.live) && forall p :: p in kept ==> p % 8 == 0
  {
    hide Tiled, Linked, LiveOk, Coalesced, FreeExact, Total, PagesFor, FirstFitIn;
    kept := {};
    for i := 0 to |ops|
      invariant h.Valid() && kept == h.live.Keys
    {
      match ops[i]
      case Alloc(size, grants) =>
        var room := (MAX_END - h.heapEnd) / PAGE;
        var p := h.Kmalloc(size, if grants < room then grants else room);
        if p != NULL { kept := kept + {p}; }
      case Free(ptr) =>
        if ptr in kept {
          var ok := h.Kfree(ptr);
          kept := kept - {ptr};
        }
    }
    forall p | p in h.live ensures p % 8 == 0 { LiveAligned(h.mem, h.blocks, h.heapEnd, h.live, p); }
    forall p, q | p in h.live && q in h.live && p != q
      ensures p + h.live[p] <= q || q + h.live[q] <= p
    {
      LiveDisjoint(h.mem, h.blocks, h.heapEnd, h.live, p, q);
    }
  }

  /** The source's comment promises 16-byte alignment; the 40-byte header defeats it for the very first
      allocation of a fresh heap. */
  method FirstPayload(size: nat) returns (h: KernelHeap, p: nat)
    requires 0 < size <= 1024
    ensures h.Valid() && p == BASE + HEADER && p % 16 == 8
  {
    hide Tiled, Linked, LiveOk, Coalesced, FreeExact;
    h := new KernelHeap();
    assert PagesFor(Total(size)) == 1;
    hide Total, PagesFor;
    p := h.Kmalloc(size, 1);
  }

  /** A request whose page count wraps gets NULL on every heap, without a single expansion; the largest
      request that passes the overflow test is one. */
  method WrappedRequest(h: KernelHeap, size: nat, grants: nat) returns (p: nat)
    requires h.Valid() && 0 < size <= MAX_SIZE && PageCountWraps(size) && h.heapEnd + PAGE * grants <= MAX_END
    modifies h
    ensures h.Valid() && p == NULL && h.live == old(h.live) && h.heapEnd == old(h.heapEnd)
    ensures PageCountWraps(MAX_SIZE)
  {
    hide Tiled, Linked, LiveOk, Coalesced, FreeExact, PagesFor;
    NoneFits(h.mem, h.blocks, h.heapEnd, Total(size));
    p := h.Kmalloc(size, grants);
  }

  /** No block is larger than the heap. */
  lemma NoneFits(mem: Memory, blocks: seq<nat>, end: nat, total: nat)
    requires Tiled(mem, blocks, end) && end - BASE < total
    ensures NoRoom(mem, total)
  {
    forall b | b in mem && !mem[b].used ensures TooSmall(mem, b, total) {
      var i :| 0 <= i < |blocks| && blocks[i] == b;
      InRange(mem, blocks, end, i);
    }
  }

  /** `mem'` has the headers of `mem` but `n`, with the same flags. */
  ghost predicate SameFlagsBut(mem: Memory, mem': Memory, n: nat) {
    mem'.Keys == mem.Keys - {n} && forall x :: x in mem' ==> mem'[x].used == mem[x].used
  }

  /** What Join keeps, from the state before the free-list removal (mem0, frees0) to the one after it. */
  lemma JoinKeeps(mem0: Memory, frees0: seq<nat>, mem: Memory, blocks: seq<nat>, end: nat, frees: seq<nat>, head: nat,
                  live: map<nat, nat>, i: nat, listed: nat, but: nat)
    requires Tiled(mem0, blocks, end) && LiveOk(mem0, live) && FreeExact(mem0, frees0, but)
    requires Coalesced(mem0, blocks, but)
    requires SameLayout(mem0, mem) && Linked(mem, frees, head) && forall x :: x in frees <==> x in frees0 && x != listed
    requires i + 1 < |blocks| && {but, listed} == {blocks[i], blocks[i + 1]} && but != listed
    requires !mem0[blocks[i]].used && !mem0[blocks[i + 1]].used
    ensures var b, n := blocks[i], blocks[i + 1];
      && b in mem && n in mem && b != n
      && var m, bs := MergeMem(mem, end, b, n), Without(blocks, i + 1);
      && Tiled(m, bs, end) && Linked(m, frees, head) && LiveOk(m, live)
      && FreeExact(m, frees, b) && Coalesced(m, bs, b)
      && b in m && !m[b].used && bs[i] == b && SameFlagsBut(mem0, m, n)
      && bs[|bs| - 1] == (if blocks[|blocks| - 1] == n then b else blocks[|blocks| - 1])
  {
    hide Tiled, Linked, Coalesced, LiveOk, MergeMem;
    TiledSameLayout(mem0, mem, blocks, end);
    CoalescedFrame(mem0, mem, blocks, but);
    LiveFrame(mem0, mem, live);
    MergeKeeps(mem, blocks, end, frees, head, live, i, but);
    MergeFields(mem, end, blocks[i], blocks[i + 1]);
  }

  /** Putting the block that is off the list to use completes the invariant. */
  lemma UseKeeps(mem: Memory, blocks: seq<nat>, end: nat, frees: seq<nat>, head: nat, live: map<nat, nat>, b: nat,
                 n: nat)
    requires Tiled(mem, blocks, end) && Linked(mem, frees, head) && LiveOk(mem, live)
    requires FreeExact(mem, frees, b) && Coalesced(mem, blocks, b)
    requires b in mem && !mem[b].used && HEADER + n <= mem[b].size
    ensures var m := mem[b := mem[b].(used := true)];
      && Tiled(m, blocks, end) && Linked(m, frees, head) && FreeExact(m, frees, NULL) && Coalesced(m, blocks, NULL)
      && b + HEADER !in live && LiveOk(m, live[b + HEADER := n])
  {
    hide Tiled, Linked, Coalesced, LiveOk;
    var m := mem[b := mem[b].(used := true)];
    TiledFrame(mem, m, blocks, end);
    FreesInMemory(mem, frees, head);
    BlocksAboveNull(mem, blocks, end);
    LinkedFrame(mem, m, frees, head);
    CoalescedUse(mem, m, blocks, b);
    LiveTaken(mem, m, live, b, n);
  }

  /** What cutting a free block keeps. */
  lemma SplitKeeps(mem: Memory, blocks: seq<nat>, end: nat, frees: seq<nat>, head: nat, live: map<nat, nat>, i: nat,
                   total: nat)
    requires Tiled(mem, blocks, end) && Linked(mem, frees, head) && LiveOk(mem, live) && i < |blocks| && NULL !in mem
    requires FreeExact(mem, frees, NULL) && Coalesced(mem, blocks, NULL) && (forall x :: x in frees ==> x in mem)
    requires !mem[blocks[i]].used && HEADER <= total && total % 8 == 0 && total + MIN_SPLIT <= mem[blocks[i]].size
    ensures var b, t := blocks[i], blocks[i] + total;
      var m, bs := SplitMem(mem, end, b, total), SplitBlocks(blocks, i, t);
      && t !in mem && m.Keys == mem.Keys + {t} && !m[t].used && m[b].size == total
      && Tiled(m, bs, end) && Linked(m, frees, head) && LiveOk(m, live)
      && FreeExact(m, frees, t) && Coalesced(m, bs, b)
  {
    hide Tiled, Linked, Coalesced, LiveOk, SplitMem;
    var b, t := blocks[i], blocks[i] + total;
    TiledSplit(mem, blocks, end, i, total);
    SplitFields(mem, end, b, total);
    var m := SplitMem(mem, end, b, total);
    LinkedFrame(mem, m, frees, head);
    CoalescedSplit(mem, m, blocks, i, t);
    LiveFrame(mem, m, live);
  }

  lemma SplitFields(mem: Memory, end: nat, b: nat, total: nat)
    requires b in mem && total <= mem[b].size && b + total !in mem && HEADER <= total
    ensures var m, t := SplitMem(mem, end, b, total), b + total;
      && m.Keys == mem.Keys + {t} && !m[t].used && m[b].size == total
      && (forall x :: x in mem ==>
            m[x].used == mem[x].used && m[x].nextFree == mem[x].nextFree && m[x].prevFree == mem[x].prevFree)
      && (forall x :: x in mem && x != b ==> m[x].size == mem[x].size)
  {}

  ghost function IndexOf(mem: Memory, blocks: seq<nat>, end: nat, b: nat): (i: nat)
    requires Tiled(mem, blocks, end) && b in mem
    ensures i < |blocks| && blocks[i] == b
  {
    var i :| 0 <= i < |blocks| && blocks[i] == b; i
  }

  lemma LastOfSplit(mem: Memory, blocks: seq<nat>, end: nat, i: nat, t: nat)
    requires Tiled(mem, blocks, end) && i < |blocks|
    ensures var bs := SplitBlocks(blocks, i, t);
      bs[|bs| - 1] == if blocks[|blocks| - 1] == blocks[i] then t else blocks[|blocks| - 1]
  {
    if blocks[|blocks| - 1] == blocks[i] { DistinctBlocks(mem, blocks, end, |blocks| - 1, i); }
  }

  /** The first listed block of at least `total` bytes, or NULL. */
  ghost function FirstFitIn(mem: Memory, frees: seq<nat>, total: nat): nat {
    if frees == [] then NULL
    else if frees[0] in mem && mem[frees[0]].size >= total then frees[0]
    else FirstFitIn(mem, frees[1..], total)
  }

  ghost predicate TooSmall(mem: Memory, b: nat, total: nat) { b in mem && mem[b].size < total }

  /** No unused block of the heap has `total` bytes. */
  ghost predicate NoRoom(mem: Memory, total: nat) { forall b :: b in mem && !mem[b].used ==> TooSmall(mem, b, total) }

  /** `b` is listed and large enough, and every block listed before it is not. */
  ghost predicate IsFirstFit(mem: Memory, frees: seq<nat>, total: nat, b: nat) {
    && b in mem && mem[b].size >= total
    && exists i :: 0 <= i < |frees| && frees[i] == b && forall j :: 0 <= j < i ==> TooSmall(mem, frees[j], total)
  }

  lemma {:induction false} FirstFitScan(mem: Memory, frees: seq<nat>, total: nat)
    requires forall i :: 0 <= i < |frees| ==> frees[i] in mem && frees[i] != NULL
    ensures var b := FirstFitIn(mem, frees, total);
      if b == NULL then forall i :: 0 <= i < |frees| ==> TooSmall(mem, frees[i], total)
      else b in frees && IsFirstFit(mem, frees, total, b)
  {
    if frees == [] {
    } else if mem[frees[0]].size >= total {
      assert frees[0] == FirstFitIn(mem, frees, total);
    } else {
      FirstFitScan(mem, frees[1..], total);
      var b := FirstFitIn(mem, frees, total);
      if b == NULL {
        forall i | 0 <= i < |frees| ensures TooSmall(mem, frees[i], total) {
          if i > 0 { assert TooSmall(mem, frees[1..][i - 1], total); }
        }
      } else {
        var i :| 0 <= i < |frees[1..]| && frees[1..][i] == b
          && forall j :: 0 <= j < i ==> TooSmall(mem, frees[1..][j], total);
        forall j | 0 <= j < i + 1 ensures TooSmall(mem, frees[j], total) {
          if j > 0 { assert TooSmall(mem, frees[1..][j - 1], total); }
        }
        assert frees[i + 1] == b;
      }
    }
  }

  /** The search is NULL exactly if every listed block is too small, and else the first that is not. */
  lemma FirstFitFits(mem: Memory, frees: seq<nat>, head: nat, total: nat)
    requires Linked(mem, frees, head)
    ensures var b := FirstFitIn(mem, frees, total);
      && (b == NULL <==> forall i :: 0 <= i < |frees| ==> TooSmall(mem, frees[i], total))
      && (b != NULL ==> b in frees && b in mem && mem[b].size >= total && IsFirstFit(mem, frees, total, b))
  {
    forall i | 0 <= i < |frees| ensures frees[i] in mem && frees[i] != NULL { assert NodeOk(mem, frees, i); }
    hide Linked, FirstFitIn;
    FirstFitScan(mem, frees, total);
  }

  /** The list holds exactly the unused blocks, so the search fails exactly if none of them is large enough. */
  lemma RoomIsListed(mem: Memory, frees: seq<nat>, head: nat, total: nat)
    requires Linked(mem, frees, head) && FreeExact(mem, frees, NULL) && NULL !in mem
    ensures FirstFitIn(mem, frees, total) == NULL <==> NoRoom(mem, total)
  {
    hide Linked;
    FirstFitFits(mem, frees, head, total);
    FreesInMemory(mem, frees, head);
    if FirstFitIn(mem, frees, total) == NULL {
      forall b | b in mem && !mem[b].used ensures TooSmall(mem, b, total) {
        assert b in frees;
        var i :| 0 <= i < |frees| && frees[i] == b;
      }
    }
  }

  /** Largest request that rounding and the header cannot push past 64 bits. */
  const MAX_SIZE: nat := U64 - 1 - HEADER - 16

  /** Block size for a request: rounded up to 16 bytes, plus the header. */
  function Total(size: nat): nat { (size + 15) / 16 * 16 + HEADER }

  /** The page count of line 137, with its 64-bit wrap. */
  function PagesFor(total: nat): nat { (total + PAGE - 1) % U64 / PAGE }

  /** Requests for which the page count of kmalloc wraps to zero. */
  predicate PageCountWraps(size: nat) { Total(size) + PAGE - 1 >= U64 }

  lemma TotalBounds(size: nat)
    requires 0 < size <= MAX_SIZE
    ensures HEADER + size <= Total(size) < U64 && Total(size) % 8 == 0
    ensures (Total(size) - HEADER) % 16 == 0 && Total(size) - HEADER < size + 16
    ensures if PageCountWraps(size) then PagesFor(Total(size)) == 0
            else
              && PagesFor(Total(size)) > 0
              && PAGE * (PagesFor(Total(size)) - 1) < Total(size) <= PAGE * PagesFor(Total(size))
  {}

  /** What joining two neighbouring blocks keeps, both free and off the list. */
  lemma MergeKeeps(mem: Memory, blocks: seq<nat>, end: nat, frees: seq<nat>, head: nat, live: map<nat, nat>, i: nat,
                   but: nat)
    requires Tiled(mem, blocks, end) && Linked(mem, frees, head) && LiveOk(mem, live) && i + 1 < |blocks|
    requires !mem[blocks[i]].used && !mem[blocks[i + 1]].used && (but == blocks[i] || but == blocks[i + 1])
    requires Coalesced(mem, blocks, but)
    requires forall x :: x in mem ==> (x in frees <==> !mem[x].used && x != blocks[i] && x != blocks[i + 1])
    ensures blocks[i] != blocks[i + 1]
    ensures var b := blocks[i];
      var m, bs := MergeMem(mem, end, b, blocks[i + 1]), Without(blocks, i + 1);
      && Tiled(m, bs, end) && Linked(m, frees, head) && LiveOk(m, live)
      && FreeExact(m, frees, b) && Coalesced(m, bs, b)
      && b in m && !m[b].used && bs[i] == b
      && bs[|bs| - 1] == (if blocks[|blocks| - 1] == blocks[i + 1] then b else blocks[|blocks| - 1])
  {
    hide Tiled, Linked, Coalesced, LiveOk, MergeMem;
    TiledMerge(mem, blocks, end, i);
    var b, n := blocks[i], blocks[i + 1];
    MergeFields(mem, end, b, n);
    var m := MergeMem(mem, end, b, n);
    FreesInMemory(mem, frees, head);
    LinkedFrame(mem, m, frees, head);
    LiveFrame(mem, m, live);
    AllDistinct(mem, blocks, end);
    CoalescedMerge(mem, m, blocks, i, but, Without(blocks, i + 1));
    if blocks[|blocks| - 1] == n { DistinctBlocks(mem, blocks, end, |blocks| - 1, i + 1); }
  }
}
