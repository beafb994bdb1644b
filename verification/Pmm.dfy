/** The physical page allocator: a bitmap in 64-bit words and a free counter (kernel/mem/pmm.c). */
module Pmm {
  import opened Machine
  import opened Bytes

  const MAX_BYTES: nat := 64 * 1024 * 1024 * 1024
  const MAX_PAGES: nat := 0x100_0000
  const WORDS: nat := 0x4_0000
  const ALLOC_FAILED: nat := 0xffff_ffff_ffff_ffff

  /** A bitmap word as its bits, least significant first; a set bit marks a used page. */
  type Word = w: seq<bool> | |w| == 64 witness seq(64, _ => true)

  const FULL: Word := seq(64, _ => true)

  /** A UEFI memory descriptor. */
  datatype Desc = Desc(kind: nat, start: nat, pages: nat)

  datatype BootInfo = BootInfo(map_: seq<Desc>, kernelStart: nat, kernelEnd: nat, root: nat)

  // ---- What the memory map promises --------------------------------------------------------------

  /** Conventional memory, loader code, boot services code and data. */
  predicate Usable(kind: nat) { kind == 7 || kind == 1 || kind == 3 || kind == 4 }

  /** The end of a descriptor's range in 64-bit arithmetic. */
  function DescEnd(d: Desc): nat { (d.start + d.pages * PAGE) % U64 }

  /** Page p lies wholly inside [start, end). */
  predicate Inside(p: nat, start: nat, end: nat) { start <= p * PAGE && (p + 1) * PAGE <= end }

  /** Page p has a byte in [start, end). */
  predicate Touches(p: nat, start: nat, end: nat) { start < (p + 1) * PAGE && p * PAGE < end && start < MAX_BYTES }

  ghost predicate Offered(map_: seq<Desc>, p: nat) {
    exists i :: 0 <= i < |map_| && Usable(map_[i].kind) && Inside(p, map_[i].start, DescEnd(map_[i]))
  }

  /** The pages that are free after boot: offered by some usable range, and clear of low memory, the
      kernel image and the root page table. */
  ghost predicate FreeAtBoot(info: BootInfo, p: nat) {
    && p < MAX_PAGES && Offered(info.map_, p)
    && !Touches(p, 0, 0x10_0000) && !Touches(p, info.kernelStart, info.kernelEnd)
    && !Touches(p, info.root, (info.root + PAGE) % U64)
  }

  // ---- Page arithmetic -----------------------------------------------------------------------------

  function WordOf(p: nat): nat { p / 64 }

  function BitOf(p: nat): (b: nat)
    ensures b < 64
  {
    p % 64
  }

  lemma PageOf(w: nat, b: nat)
    requires b < 64
    ensures WordOf(w * 64 + b) == w && BitOf(w * 64 + b) == b
  {}

  lemma WordInRange(p: nat)
    requires p < MAX_PAGES
    ensures WordOf(p) < WORDS
  {}

  // ---- The allocator -----------------------------------------------------------------------------------

  class PageAllocator {
    const bitmap: array<Word>
    var free: nat
    /** The numbers of the free pages. */
    ghost var pages: set<nat>

    /** The free pages are those with a clear bit, and the counter is their number. */
    ghost predicate Valid()
      reads this, bitmap
    {
      && bitmap.Length == WORDS
      && free == |pages|
      && (forall p :: p in pages ==> p < MAX_PAGES)
      && forall p: nat :: p < MAX_PAGES ==> WordOf(p) < WORDS && (p in pages <==> !bitmap[WordOf(p)][BitOf(p)])
    }

    lemma Counted()
      requires Valid()
      ensures free == |pages|
    {}

    /** All pages used, as pmm_init leaves them before it reads the memory map. */
    constructor ()
      ensures Valid() && pages == {} && fresh(bitmap)
    {
      bitmap := new Word[WORDS](_ => FULL);
      free, pages := 0, {};
      new;
      forall p: nat | p < MAX_PAGES ensures WordOf(p) < WORDS { WordInRange(p); }
    }

    method BitmapSet(p: nat)
      requires Valid() && p in pages
      modifies this`pages, this`free, bitmap
      ensures Valid() && pages == old(pages) - {p}
    {
      hide WordOf, BitOf;
      bitmap[WordOf(p)] := bitmap[WordOf(p)][BitOf(p) := true];
      free := free - 1;
      pages := pages - {p};
      forall q: nat | q < MAX_PAGES && q != p ensures WordOf(q) != WordOf(p) || BitOf(q) != BitOf(p) { Differ(p, q); }
    }

    method BitmapClear(p: nat)
      requires Valid() && p < MAX_PAGES && p !in pages
      modifies this`pages, this`free, bitmap
      ensures Valid() && pages == old(pages) + {p}
    {
      hide WordOf, BitOf;
      bitmap[WordOf(p)] := bitmap[WordOf(p)][BitOf(p) := false];
      free := free + 1;
      pages := pages + {p};
      forall q: nat | q < MAX_PAGES && q != p ensures WordOf(q) != WordOf(p) || BitOf(q) != BitOf(p) { Differ(p, q); }
    }

    method BitmapTest(p: nat) returns (used: bool)
      requires Valid() && p < MAX_PAGES
      ensures used == (p !in pages)
    {
      used := bitmap[WordOf(p)][BitOf(p)];
    }

    /** Frees every page that lies wholly inside the range. */
    method MarkRangeFree(start: nat, end: nat)
      requires Valid()
      modifies this`pages, this`free, bitmap
      ensures Valid()
      ensures forall p: nat :: p in pages <==> p in old(pages) || (p < MAX_PAGES && Inside(p, start, end))
    {
      if start >= MAX_BYTES {
        forall p: nat | p < MAX_PAGES ensures !Inside(p, start, end) { PastEnd(p); }
        return;
      }
      var stop := if end > MAX_BYTES then MAX_BYTES else end;
      var first, last := (start + PAGE - 1) / PAGE, stop / PAGE;
      forall p: nat
        ensures first <= p < last <==> p < MAX_PAGES && Inside(p, start, end)
      {
        InwardPages(p, start, end);
      }
      hide Inside, WordOf, BitOf;
      var page := first;
      while page < last
        invariant first <= page && Valid()
        invariant forall p: nat :: p in pages <==> p in old(pages) || (first <= p < page && p < last)
      {
        var used := BitmapTest(page);
        if used { BitmapClear(page); }
        page := page + 1;
      }
    }

    /** Marks used every page that the range touches. */
    method MarkRangeUsed(start: nat, end: nat)
      requires Valid()
      modifies this`pages, this`free, bitmap
      ensures Valid()
      ensures forall p: nat :: p in pages <==> p in old(pages) && !Touches(p, start, end)
    {
      if start >= MAX_BYTES { return; }
      var stop := if end > MAX_BYTES then MAX_BYTES else end;
      var first, last := start / PAGE, (stop + PAGE - 1) / PAGE;
      forall p: nat | p < MAX_PAGES
        ensures first <= p < last <==> Touches(p, start, end)
      {
        OutwardPages(p, start, end);
      }
      LastPage(stop);
      hide Touches, WordOf, BitOf;
      var page := first;
      while page < last
        invariant first <= page && Valid()
        invariant forall p: nat :: p in pages <==> p in old(pages) && !(first <= p < page && p < last)
      {
        var used := BitmapTest(page);
        if !used { BitmapSet(page); }
        page := page + 1;
      }
    }

    /** pmm_init: the free pages are exactly those promised; it panics if there are none. */
    method Init(info: BootInfo) returns (panicked: bool)
      requires Valid() && pages == {}
      modifies this`pages, this`free, bitmap
      ensures Valid() && (panicked <==> pages == {})
      ensures forall p: nat :: p in pages <==> FreeAtBoot(info, p)
    {
      hide Inside, Touches, WordOf, BitOf;
      var i := 0;
      while i < |info.map_|
        invariant 0 <= i <= |info.map_| && Valid()
        invariant forall p: nat :: p in pages <==> p < MAX_PAGES && Offered(info.map_[..i], p)
      {
        ghost var was := pages;
        var d := info.map_[i];
        if Usable(d.kind) { MarkRangeFree(d.start, DescEnd(d)); }
        forall p: nat
          ensures Offered(info.map_[..i + 1], p) <==>
            Offered(info.map_[..i], p) || (Usable(d.kind) && Inside(p, d.start, DescEnd(d)))
        {
          OfferedNext(info.map_, i, p);
        }
        i := i + 1;
      }
      assert info.map_[..i] == info.map_;
      MarkRangeUsed(0, 0x10_0000);
      MarkRangeUsed(info.kernelStart, info.kernelEnd);
      MarkRangeUsed(info.root, (info.root + PAGE) % U64);
      panicked := free == 0;
    }

    /** Takes the lowest free page; fails exactly when there is none. */
    method Alloc() returns (addr: nat)
      requires Valid()
      modifies this`pages, this`free, bitmap
      ensures Valid()
      ensures addr == ALLOC_FAILED <==> old(pages) == {}
      ensures addr == ALLOC_FAILED ==> pages == old(pages)
      ensures addr != ALLOC_FAILED ==>
        && addr % PAGE == 0 && addr < MAX_BYTES && addr / PAGE in old(pages) && pages == old(pages) - {addr / PAGE}
        && forall p :: p in old(pages) ==> addr / PAGE <= p
    {
      hide WordOf, BitOf;
      var w := 0;
      while w < WORDS
        invariant 0 <= w <= WORDS && pages == old(pages) && Valid()
        invariant forall p :: p in pages ==> w <= WordOf(p)
      {
        var bit := FirstClear(bitmap[w], 64);
        if bit < 64 {
          PageOf(w, bit);
          var page := w * 64 + bit;
          WordBound(w, bit);
          forall p | p in pages ensures page <= p { LowestPage(w, bit, p, bitmap[w]); }
          BitmapSet(page);
          PageAddr(page);
          return page * PAGE;
        }
        w := w + 1;
      }
      forall p | p in pages ensures false { WordInRange(p); }
      return ALLOC_FAILED;
    }

    /** pmm_free_page: panics on an address that is misaligned, out of range, or free already. */
    method Free(addr: nat) returns (panicked: bool)
      requires Valid()
      modifies this`pages, this`free, bitmap
      ensures Valid()
      ensures panicked <==> addr % PAGE != 0 || addr >= MAX_BYTES || addr / PAGE in old(pages)
      ensures pages == if panicked then old(pages) else old(pages) + {addr / PAGE}
    {
      if addr % PAGE != 0 || addr >= MAX_BYTES {
        return true;
      }
      var page := addr / PAGE;
      var used := BitmapTest(page);
      if !used {
        return true;
      }
      BitmapClear(page);
      return false;
    }
  }

  // ---- Lemmas ----------------------------------------------------------------------------------------------

  lemma Differ(p: nat, q: nat)
    requires p != q
    ensures WordOf(q) != WordOf(p) || BitOf(q) != BitOf(p)
  {}

  lemma WordBound(w: nat, b: nat)
    requires w < WORDS && b < 64
    ensures w * 64 + b < MAX_PAGES
  {}

  lemma LowestPage(w: nat, b: nat, p: nat, word: Word)
    requires b < 64 && w <= WordOf(p) && (forall i :: 0 <= i < b ==> word[i])
    requires WordOf(p) == w ==> !word[BitOf(p)]
    ensures w * 64 + b <= p
  {}

  lemma PageAddr(p: nat)
    requires p < MAX_PAGES
    ensures p * PAGE % PAGE == 0 && p * PAGE / PAGE == p && p * PAGE < MAX_BYTES < ALLOC_FAILED
  {}

  lemma PastEnd(p: nat)
    requires p < MAX_PAGES
    ensures p * PAGE < MAX_BYTES
  {}

  lemma InwardPages(p: nat, start: nat, end: nat)
    requires start < MAX_BYTES
    ensures var stop := if end > MAX_BYTES then MAX_BYTES else end;
      (start + PAGE - 1) / PAGE <= p < stop / PAGE <==> p < MAX_PAGES && Inside(p, start, end)
  {}

  lemma OutwardPages(p: nat, start: nat, end: nat)
    requires start < MAX_BYTES && p < MAX_PAGES
    ensures var stop := if end > MAX_BYTES then MAX_BYTES else end;
      start / PAGE <= p < (stop + PAGE - 1) / PAGE <==> Touches(p, start, end)
  {}

  lemma LastPage(stop: nat)
    requires stop <= MAX_BYTES
    ensures (stop + PAGE - 1) / PAGE <= MAX_PAGES
  {}

  lemma OfferedNext(m: seq<Desc>, i: nat, p: nat)
    requires i < |m|
    ensures Offered(m[..i + 1], p) <==>
      Offered(m[..i], p) || (Usable(m[i].kind) && Inside(p, m[i].start, DescEnd(m[i])))
  {}
}
