/** Loading an ELF64 executable into a fresh address space (kernel/exec/elf.c). */
module Elf {
  import opened Access
  import opened Machine
  import opened Bytes
  import opened ElfImage
  import opened Paging
  import opened Pmm
  import opened Vmm
  import opened Spaces

  datatype Loaded = Loaded(entry: nat, userSp: nat, cr3: Frame)

  /** The byte that address `a` of the space reads: translate it, then look into the frame. */
  function ReadByte(ram: Ram, root: Frame, a: nat): Option<Byte> {
    match Translate(ram, root, a)
    case None => None
    case Some(p) =>
      if p / PAGE in ram && ram[p / PAGE].Data? && |ram[p / PAGE].bytes| == PAGE
      then Some(ram[p / PAGE].bytes[p % PAGE])
      else None
  }

  /** What a page should hold, and how it should be mapped. */
  datatype PageImage = PageImage(bytes: seq<Byte>, flags: nat)

  /** The tables of space `r` grant user and write access, so that its pages alone decide. */
  ghost predicate AllOpen(ram: Ram, at: map<Node, Frame>, k: Frame, r: Frame) {
    Open(ram, at, k, r, User) && Open(ram, at, k, r, Write)
  }

  lemma StaysAllOpen(ram: Ram, at: map<Node, Frame>, ram': Ram, at': map<Node, Frame>, k: Frame, r: Frame)
    requires Grew(ram, at, ram', at', k, r, true) && AllOpen(ram, at, k, r)
    ensures AllOpen(ram', at', k, r)
  {
    hide Open, Grew;
    StaysOpen(ram, at, ram', at', k, r, true, r, User);
    StaysOpen(ram, at, ram', at', k, r, true, r, Write);
  }

  /** The pages of space `r` named in `pages` are mapped with those flags and hold those bytes. */
  ghost predicate Holds(ram: Ram, leaf: map<Node, Frame>, pages: map<Node, PageImage>, r: Frame) {
    HasBytes(ram, leaf, pages, r) && HasFlags(ram, leaf, pages, r)
  }

  ghost predicate HasBytes(ram: Ram, leaf: map<Node, Frame>, pages: map<Node, PageImage>, r: Frame) {
    forall n :: n in pages ==>
      && n.root == r && |pages[n].bytes| == PAGE && n in leaf && leaf[n] in ram && ram[leaf[n]] == Data(pages[n].bytes)
  }

  ghost predicate HasFlags(ram: Ram, leaf: map<Node, Frame>, pages: map<Node, PageImage>, r: Frame) {
    forall a: nat :: UserPage(r, a) in pages && UserPage(r, a) in leaf ==>
      Walk(ram, r, a) == Some(Hit(MakeEntry(leaf[UserPage(r, a)] * PAGE, pages[UserPage(r, a)].flags), 1))
  }

  function UserPage(r: Frame, v: nat): Node { Node(r, PathOf(v)) }

  /** A held page reads as its bytes. */
  lemma HeldReads(ram: Ram, at: map<Node, Frame>, leaf: map<Node, Frame>, k: Frame, spaces: set<Frame>,
                  pages: map<Node, PageImage>, r: Frame, a: nat)
    requires Forest(ram, at, k, spaces) && Leaves(ram, at, leaf, spaces) && r in spaces && PathOf(a)[0] < 256
    requires Holds(ram, leaf, pages, r) && UserPage(r, a) in pages
    ensures ReadByte(ram, r, a) == Some(pages[UserPage(r, a)].bytes[a % PAGE])
  {
    hide Forest, Leaves, PathOf, Lookup;
    MappedIffWalks(ram, at, leaf, k, spaces, r, a);
    var f := leaf[UserPage(r, a)];
    assert Translate(ram, r, a) == Some(f * 4096 + a % 4096);
    DivModUnique(4096, f, a % 4096);
  }

  lemma HoldsFilled(ram: Ram, at: map<Node, Frame>, leaf: map<Node, Frame>, k: Frame, spaces: set<Frame>,
                    free: set<Frame>, pages: map<Node, PageImage>, r: Frame, f: Frame, c: Contents)
    requires Holds(ram, leaf, pages, r) && Fresh(at, leaf, free, f) && SameWalks(ram, ram[f := c], k, spaces)
    requires r in spaces
    ensures Holds(ram[f := c], leaf, pages, r)
  {
    hide Lookup, MakeEntry, PathOf;
    forall a: nat ensures Walk(ram[f := c], r, a) == Walk(ram, r, a) { assert IsPath(PathOf(a)); }
  }

  lemma HoldsMapped(ram: Ram, ram': Ram, at: map<Node, Frame>, leaf: map<Node, Frame>, k: Frame, spaces: set<Frame>,
                    free: set<Frame>, pages: map<Node, PageImage>, r: Frame, v: nat, phys: nat, bytes: seq<Byte>,
                    flags: nat)
    requires Holds(ram, leaf, pages, r) && Exclusive(at, leaf, free) && DataKept(ram, ram', free)
    requires Fresh(at, leaf, free, phys / PAGE)
    requires PageSet(ram, ram', k, spaces, r, v, Some(Hit(MakeEntry(phys, flags), 1))) && r in spaces
    requires phys % PAGE == 0
    requires |bytes| == PAGE && phys / PAGE in ram && ram[phys / PAGE] == Data(bytes)
    ensures Holds(ram', leaf[UserPage(r, v) := phys / PAGE], pages[UserPage(r, v) := PageImage(bytes, flags)], r)
  {
    var n, f := UserPage(r, v), phys / PAGE;
    var leaf', pages' := leaf[n := f], pages[n := PageImage(bytes, flags)];
    assert HasBytes(ram', leaf', pages', r);
    assert f * PAGE == phys;
    hide Lookup, MakeEntry, Exclusive, DataKept, HasBytes, Fresh;
    forall a: nat | UserPage(r, a) in pages' && UserPage(r, a) in leaf'
      ensures Walk(ram', r, a) == Some(Hit(MakeEntry(leaf'[UserPage(r, a)] * PAGE, pages'[UserPage(r, a)].flags), 1))
    {
      PathIsPage(a, v);
      hide PathOf, Page;
      assert IsRoot(k, spaces, r) && SameLeaf(ram, k, r, r, PathOf(v));
      assert UserPage(r, a) == n <==> Page(a) == Page(v);
    }
  }

  lemma LessTwice(a: set<Frame>, b: set<Frame>, c: set<Frame>, gone: set<Frame>, more: set<Frame>)
    requires Less(a, b, gone) && Less(b, c, more)
    ensures Less(a, c, gone + more) && |gone + more| == |gone| + |more|
  {}

  lemma FreshIsNeither(at: map<Node, Frame>, leaf: map<Node, Frame>, free: set<Frame>, r: Frame, f: Frame)
    requires Fresh(at, leaf, free, f)
    ensures Less(free + Owned(at, leaf, r) + {f}, free + Owned(at, leaf, r), {f})
  {}

  /** One page: a frame is taken, filled and mapped. A frame mapped there before is lost; when the new one cannot
      be mapped, it is lost itself. `all` is what was free or the space's before any of `lost` went. */
  method LoadPage(m: MemoryManager, r: Frame, virt: nat, bytes: seq<Byte>, flags: nat,
                  ghost pages: map<Node, PageImage>, ghost all: set<Frame>, ghost lost: set<Frame>)
    returns (ok: bool, ghost lost': set<Frame>)
    requires m.Valid() && Exclusive(m.at, m.leaf, m.pmm.pages) && r in m.spaces && FlagsOk(flags) && |bytes| == PAGE
    requires Holds(m.ram, m.leaf, pages, r) && Less(all, m.pmm.pages + Owned(m.at, m.leaf, r), lost)
    modifies m, m.pmm, m.pmm.bitmap
    ensures m.Valid() && Exclusive(m.at, m.leaf, m.pmm.pages) && m.spaces == old(m.spaces)
    ensures ok ==>
      && Holds(m.ram, m.leaf, pages[UserPage(r, virt) := PageImage(bytes, flags)], r)
      && m.leaf.Keys == old(m.leaf.Keys) + {UserPage(r, virt)}
    ensures Less(all, m.pmm.pages + Owned(m.at, m.leaf, r), lost')
    ensures PageLost(lost, lost', old(m.leaf), m.leaf, UserPage(r, virt), ok)
    ensures !ok ==> m.pmm.pages == {} || PathOf(virt)[0] >= 256
    ensures UserAccess(flags) && AllOpen(old(m.ram), old(m.at), m.k, r) ==> AllOpen(m.ram, m.at, m.k, r)
  {
    hide Forest, Leaves, TablesUsed, PageAllocator.Valid, Exclusive, Owned, PathOf, SameWalks, PageSet, DataKept,
      FrameOf, Taken, Fresh, MakeEntry, Holds, Less, PageLost, Displaced, AllOpen, UserAccess;
    lost' := lost;
    var phys := m.pmm.Alloc();
    if phys == ALLOC_FAILED {
      NoPageLost(lost, m.leaf, UserPage(r, virt));
      return false, lost;
    }
    PageFrame(phys);
    var f: Frame := phys / PAGE;
    ghost var before := old(m.pmm.pages + Owned(m.at, m.leaf, r));
    FrameTaken(m.at, m.leaf, old(m.pmm.pages), f);
    FreshIsNeither(m.at, m.leaf, m.pmm.pages, r, f);
    assert m.pmm.pages + Owned(m.at, m.leaf, r) + {f} == before;
    ok := FillAndMap(m, r, virt, phys, f, bytes, flags, pages);
    lost' := lost + if ok then Displaced(old(m.leaf), UserPage(r, virt)) else {f};
    PageAccount(all, before, m.pmm.pages + Owned(m.at, m.leaf, r), lost, old(m.leaf), m.leaf, UserPage(r, virt), f, ok);
  }

  lemma PageAccount(all: set<Frame>, before: set<Frame>, now: set<Frame>, lost: set<Frame>, leaf: map<Node, Frame>,
                    leaf': map<Node, Frame>, n: Node, f: Frame, ok: bool)
    requires Less(all, before, lost) && leaf' == (if ok then leaf[n := f] else leaf)
    requires Less(before, now, if ok then Displaced(leaf, n) else {f})
    ensures var lost' := lost + if ok then Displaced(leaf, n) else {f};
      Less(all, now, lost') && PageLost(lost, lost', leaf, leaf', n, ok)
  {
    hide Less;
    LessTwice(all, before, now, lost, if ok then Displaced(leaf, n) else {f});
    OneMore(leaf, n, f);
  }

  /** What loading page `n` adds to the lost frames. */
  ghost predicate PageLost(lost: set<Frame>, lost': set<Frame>, leaf: map<Node, Frame>, leaf': map<Node, Frame>,
                           n: Node, ok: bool) {
    if ok then lost' == lost + Displaced(leaf, n) && |lost'| + |leaf'| == |lost| + |leaf| + 1
    else |lost'| <= |lost| + 1 && leaf' == leaf
  }

  lemma NoPageLost(lost: set<Frame>, leaf: map<Node, Frame>, n: Node)
    ensures PageLost(lost, lost, leaf, leaf, n, false)
  {}

  lemma OneMore(leaf: map<Node, Frame>, n: Node, f: Frame)
    ensures |Displaced(leaf, n)| + |leaf[n := f]| == |leaf| + 1
  {
    assert leaf[n := f].Keys == leaf.Keys + {n};
  }

  method FillAndMap(m: MemoryManager, r: Frame, virt: nat, phys: nat, f: Frame, bytes: seq<Byte>, flags: nat,
                    ghost pages: map<Node, PageImage>) returns (ok: bool)
    requires m.Valid() && Exclusive(m.at, m.leaf, m.pmm.pages) && r in m.spaces && FlagsOk(flags) && |bytes| == PAGE
    requires Holds(m.ram, m.leaf, pages, r) && phys % PAGE == 0 && FrameOf(phys) == phys / PAGE == f
    requires Fresh(m.at, m.leaf, m.pmm.pages, f)
    modifies m, m.pmm, m.pmm.bitmap
    ensures m.Valid() && Exclusive(m.at, m.leaf, m.pmm.pages) && m.spaces == old(m.spaces)
    ensures ok ==>
      && Holds(m.ram, m.leaf, pages[UserPage(r, virt) := PageImage(bytes, flags)], r)
      && m.leaf == old(m.leaf)[UserPage(r, virt) := f]
      && Less(old(m.pmm.pages + Owned(m.at, m.leaf, r)) + {f}, m.pmm.pages + Owned(m.at, m.leaf, r),
              Displaced(old(m.leaf), UserPage(r, virt)))
    ensures !ok ==> m.leaf == old(m.leaf) && (m.pmm.pages == {} || PathOf(virt)[0] >= 256)
    ensures !ok ==> m.pmm.pages + Owned(m.at, m.leaf, r) == old(m.pmm.pages + Owned(m.at, m.leaf, r))
    ensures UserAccess(flags) && AllOpen(old(m.ram), old(m.at), m.k, r) ==> AllOpen(m.ram, m.at, m.k, r)
  {
    hide Forest, Leaves, TablesUsed, PageAllocator.Valid, Exclusive, Owned, PathOf, SameWalks, PageSet, DataKept,
      FrameOf, Taken, MakeEntry, Holds, Less, Displaced, SlotsKept, SameTranslations, FlagsOk, Grew, AllOpen,
      RightsSet, SameRights, UserAccess;
    m.FillPage(f, bytes);
    HoldsFilled(old(m.ram), m.at, m.leaf, m.k, m.spaces, m.pmm.pages, pages, r, f, Data(bytes));
    ghost var ram1, at1, free1 := m.ram, m.at, m.pmm.pages;
    GrewNone(old(m.ram), ram1, at1, m.k, r, true);
    ok := m.SpaceMap(r, virt, phys, flags);
    if UserAccess(flags) && AllOpen(old(m.ram), old(m.at), m.k, r) {
      GrewTwice(old(m.ram), at1, ram1, at1, m.ram, m.at, m.k, r, true);
      StaysAllOpen(old(m.ram), at1, m.ram, m.at, m.k, r);
    }
    if ok { HoldsMapped(ram1, m.ram, at1, old(m.leaf), m.k, m.spaces, free1, pages, r, virt, phys, bytes, flags); }
  }

  // ---- Pages by number ------------------------------------------------------------------------------------

  const LAST_PAGE: nat := 0x8_0000_0000   // STACK_TOP / PAGE

  /** The user page with number `q`. */
  function PageNo(r: Frame, q: nat): Node { UserPage(r, q * PAGE) }

  lemma PageNoFacts(r: Frame, q: nat, t: nat)
    requires q < LAST_PAGE && t < LAST_PAGE
    ensures PathOf(q * PAGE)[0] < 256 && (PageNo(r, q) == PageNo(r, t) <==> q == t)
  {
    PageOfNo(q);
    PageOfNo(t);
    PathIsPage(q * PAGE, t * PAGE);
    hide PathOf, Page;
  }

  lemma PageOfNo(q: nat)
    requires q < LAST_PAGE
    ensures Page(q * PAGE) == q && PathOf(q * PAGE)[0] < 256
  {}

  lemma PageNoOf(r: Frame, a: nat)
    requires a < STACK_TOP
    ensures UserPage(r, a) == PageNo(r, a / PAGE) && a / PAGE < LAST_PAGE && PathOf(a)[0] < 256
  {
    PathIsPage(a, a / PAGE * PAGE);
    PageOfNo(a / PAGE);
  }

  /** `n` is one of the pages lo to hi-1. */
  ghost predicate Among(r: Frame, lo: nat, hi: nat, n: Node) { exists q :: lo <= q < hi && n == PageNo(r, q) }

  /** The `n` pages from `lo` on hold the first pages of the segment. */
  ghost predicate RangeHeld(pages: map<Node, PageImage>, r: Frame, lo: nat, n: nat, image: seq<Byte>, s: Segment)
    requires SegmentOk(image, s)
  {
    forall q :: lo <= q < lo + n ==> PageNo(r, q) in pages && pages[PageNo(r, q)] == Image(image, s, q - lo)
  }

  /** A page of a segment: its bytes, for user access, and writable if the segment is. */
  function Image(image: seq<Byte>, s: Segment, p: nat): PageImage
    requires SegmentOk(image, s)
  {
    PageImage(SegmentPage(image, s, p), if s.flags / 2 % 2 == 1 then USER + WRITABLE else USER)
  }

  /** Pages outside the range are as they were. */
  ghost predicate OthersHeld(pages: map<Node, PageImage>, pages': map<Node, PageImage>, r: Frame, lo: nat, hi: nat) {
    forall n :: n in pages && !Among(r, lo, hi, n) ==> n in pages' && pages'[n] == pages[n]
  }

  /** The mapped pages are the old ones and those of the range. */
  ghost predicate KeysWithin(keys: set<Node>, keys': set<Node>, r: Frame, lo: nat, hi: nat) {
    forall n :: n in keys' ==> n in keys || Among(r, lo, hi, n)
  }

  ghost predicate NoneMapped(keys: set<Node>, r: Frame, lo: nat, hi: nat) {
    forall q :: lo <= q < hi ==> PageNo(r, q) !in keys
  }

  lemma FewerMapped(keys: set<Node>, r: Frame, lo: nat, mid: nat, hi: nat)
    requires mid <= hi
    ensures NoneMapped(keys, r, lo, hi) ==> NoneMapped(keys, r, lo, mid)
  {}

  lemma AmongMore(r: Frame, lo: nat, hi: nat, n: Node)
    ensures Among(r, lo, hi + 1, n) <==> Among(r, lo, hi, n) || (lo <= hi && n == PageNo(r, hi))
  {}

  /** The next page of a range, on values. */
  lemma NextPage(pages: map<Node, PageImage>, pages1: map<Node, PageImage>, keys: set<Node>, keys1: set<Node>, r: Frame,
                 lo: nat, p: nat, image: seq<Byte>, s: Segment)
    requires SegmentOk(image, s) && lo + p < LAST_PAGE
    requires RangeHeld(pages1, r, lo, p, image, s) && OthersHeld(pages, pages1, r, lo, lo + p)
    requires KeysWithin(keys, keys1, r, lo, lo + p)
    ensures var n := PageNo(r, lo + p);
      && RangeHeld(pages1[n := Image(image, s, p)], r, lo, p + 1, image, s)
      && OthersHeld(pages, pages1[n := Image(image, s, p)], r, lo, lo + p + 1)
      && KeysWithin(keys, keys1 + {n}, r, lo, lo + p + 1)
      && (NoneMapped(keys, r, lo, lo + p + 1) ==> NoneMapped(keys, r, lo, lo + p) && n !in keys1)
  {
    hide PageNo, SegmentPage, SegmentOk;
    var hi, hi' := lo + p, lo + p + 1;
    forall n ensures Among(r, lo, hi', n) <==> Among(r, lo, hi, n) || n == PageNo(r, hi) { AmongMore(r, lo, hi, n); }
    forall q | lo <= q < hi ensures PageNo(r, q) != PageNo(r, hi) { PageNoFacts(r, q, hi); }
  }

  // ---- Segments ------------------------------------------------------------------------------------------------

  /** The page loop of one PT_LOAD segment. Each page that was mapped before loses one frame. */
  method LoadSegment(m: MemoryManager, r: Frame, image: seq<Byte>, s: Segment, ghost pages: map<Node, PageImage>)
    returns (ok: bool, ghost pages': map<Node, PageImage>, ghost lost: set<Frame>)
    requires m.Valid() && Exclusive(m.at, m.leaf, m.pmm.pages) && r in m.spaces && Holds(m.ram, m.leaf, pages, r)
    requires SegmentOk(image, s) && Loadable(s) && AllOpen(m.ram, m.at, m.k, r)
    modifies m, m.pmm, m.pmm.bitmap
    ensures m.Valid() && Exclusive(m.at, m.leaf, m.pmm.pages) && m.spaces == old(m.spaces)
    ensures Less(old(m.pmm.pages + Owned(m.at, m.leaf, r)), m.pmm.pages + Owned(m.at, m.leaf, r), lost)
    ensures Lost(lost, old(m.leaf), m.leaf, PageCount(s), ok,
                 NoneMapped(old(m.leaf.Keys), r, FirstPage(s), FirstPage(s) + PageCount(s)))
    ensures !ok ==> m.pmm.pages == {}
    ensures ok ==> Holds(m.ram, m.leaf, pages', r) && AllOpen(m.ram, m.at, m.k, r)
    ensures ok ==>
      var lo, n := FirstPage(s), PageCount(s);
      && RangeHeld(pages', r, lo, n, image, s) && OthersHeld(pages, pages', r, lo, lo + n)
      && KeysWithin(old(m.leaf.Keys), m.leaf.Keys, r, lo, lo + n)
  {
    hide MemoryManager.Valid, Exclusive, Owned, PathOf, Holds, SegmentOk, Copied, CopyLen, PageOff, SegmentPage,
      RangeHeld, OthersHeld, KeysWithin, NoneMapped, Less, Lost, PageLost, FlagsOk, AllOpen;
    var flags := if s.flags / 2 % 2 == 1 then USER + WRITABLE else USER;
    var vbase := s.vaddr / PAGE * PAGE;
    var npages := PageCount(s);
    pages' := pages;
    ghost var lo, keys, all := FirstPage(s), m.leaf.Keys, m.pmm.pages + Owned(m.at, m.leaf, r);
    SegmentBounds(image, s);
    NoPages(pages, m.leaf.Keys, r, lo, image, s);
    lost := {};
    NothingLost(all, m.leaf, NoneMapped(keys, r, lo, lo));
    var src, left := s.offset, s.filesz;
    var p := 0;
    while p < npages
      invariant 0 <= p <= npages && m.Valid() && Exclusive(m.at, m.leaf, m.pmm.pages) && m.spaces == old(m.spaces)
      invariant Holds(m.ram, m.leaf, pages', r) && RangeHeld(pages', r, lo, p, image, s)
      invariant AllOpen(m.ram, m.at, m.k, r)
      invariant OthersHeld(pages, pages', r, lo, lo + p)
      invariant KeysWithin(old(m.leaf.Keys), m.leaf.Keys, r, lo, lo + p)
      invariant Less(all, m.pmm.pages + Owned(m.at, m.leaf, r), lost)
      invariant Lost(lost, old(m.leaf), m.leaf, p, true, NoneMapped(keys, r, lo, lo + p))
      invariant src == s.offset + Copied(s, p) && left == s.filesz - Copied(s, p)
    {
      var pageOff := if p == 0 then s.vaddr - vbase else 0;
      var copyLen := if left > PAGE - pageOff then PAGE - pageOff else left;
      PageStep(image, s, p);
      var page := Zeros(PAGE);
      if copyLen > 0 {
        page := Patch(page, pageOff, image[src..src + copyLen]);
        src, left := src + copyLen, left - copyLen;
      }
      NextPage(pages, pages', keys, m.leaf.Keys, r, lo, p, image, s);
      PageNoFacts(r, lo + p, lo + p);
      ghost var leaf1, lost1 := m.leaf, lost;
      ok, lost := LoadPage(m, r, vbase + p * PAGE, page, flags, pages', all, lost);
      LostMore(lost1, lost, old(m.leaf), leaf1, m.leaf, p, npages, ok, keys, r, lo);
      if !ok { return; }
      pages' := pages'[PageNo(r, lo + p) := Image(image, s, p)];
      p := p + 1;
    }
    ok := true;
  }

  /** The frames lost while `n` pages were to be loaded: as many as there are loads that mapped no new page; none,
      or at most the one that could not be mapped, if no page was mapped before. */
  ghost predicate Lost(lost: set<Frame>, leaf0: map<Node, Frame>, leaf: map<Node, Frame>, n: nat, ok: bool,
                       unmapped: bool) {
    && (if ok then |lost| + |leaf| == |leaf0| + n else |lost| + |leaf| <= |leaf0| + n)
    && (unmapped ==> |lost| <= if ok then 0 else 1)
  }

  lemma LostMore(lost0: set<Frame>, lost: set<Frame>, leaf0: map<Node, Frame>, leaf1: map<Node, Frame>,
                 leaf: map<Node, Frame>, p: nat, n: nat, ok: bool, keys: set<Node>, r: Frame, lo: nat)
    requires p < n && Lost(lost0, leaf0, leaf1, p, true, NoneMapped(keys, r, lo, lo + p))
    requires NoneMapped(keys, r, lo, lo + p + 1) ==> NoneMapped(keys, r, lo, lo + p) && PageNo(r, lo + p) !in leaf1
    requires PageLost(lost0, lost, leaf1, leaf, PageNo(r, lo + p), ok)
    ensures ok ==> Lost(lost, leaf0, leaf, p + 1, true, NoneMapped(keys, r, lo, lo + p + 1))
    ensures !ok ==> Lost(lost, leaf0, leaf, n, false, NoneMapped(keys, r, lo, lo + n))
  {
    hide NoneMapped, PageNo;
    FewerMapped(keys, r, lo, lo + p, lo + n);
  }

  lemma NothingLost(all: set<Frame>, leaf: map<Node, Frame>, unmapped: bool)
    ensures Less(all, all, {}) && Lost({}, leaf, leaf, 0, true, unmapped)
  {}

  lemma SegmentBounds(image: seq<Byte>, s: Segment)
    requires SegmentOk(image, s) && Loadable(s)
    ensures FirstPage(s) + PageCount(s) <= LAST_PAGE && s.offset + s.filesz <= |image| && Copied(s, 0) == 0
    ensures s.vaddr - s.vaddr / PAGE * PAGE == s.vaddr % PAGE
  {}

  lemma NoPages(pages: map<Node, PageImage>, keys: set<Node>, r: Frame, lo: nat, image: seq<Byte>, s: Segment)
    requires SegmentOk(image, s)
    ensures RangeHeld(pages, r, lo, 0, image, s) && OthersHeld(pages, pages, r, lo, lo)
    ensures KeysWithin(keys, keys, r, lo, lo)
  {}

  /** The copy of one page, as the loop computes it. */
  lemma PageStep(image: seq<Byte>, s: Segment, p: nat)
    requires SegmentOk(image, s)
    ensures var off := if p == 0 then s.vaddr % PAGE else 0;
      var left := s.filesz - Copied(s, p);
      var len := if left > PAGE - off then PAGE - off else left;
      && 0 <= left && 0 <= len && off + len <= PAGE && s.offset + Copied(s, p) + len <= |image|
      && Copied(s, p + 1) == Copied(s, p) + len
      && SegmentPage(image, s, p) ==
           Patch(Zeros(PAGE), off, image[s.offset + Copied(s, p)..s.offset + Copied(s, p) + len])
      && (len == 0 ==> SegmentPage(image, s, p) == Zeros(PAGE))
  {}

  // ---- The whole image -----------------------------------------------------------------------------------------

  /** The first `i` program headers lie inside the image and ask for something that can be loaded. */
  ghost predicate HeadersOk(image: seq<Byte>, i: nat)
    requires |image| >= EHDR
  {
    forall j :: 0 <= j < i ==>
      HeaderInside(image, j) && (Loadable(SegmentNo(image, j)) ==> SegmentOk(image, SegmentNo(image, j)))
  }

  /** The images that elf_load accepts. */
  ghost predicate ImageOk(image: seq<Byte>) { HeaderOk(image) && HeadersOk(image, HeaderOf(image).phnum) }

  /** The j-th segment is loaded and takes the page with number `q`. */
  ghost predicate CoversPage(image: seq<Byte>, j: nat, q: nat)
    requires |image| >= EHDR
  {
    && Loads(image, j)
    && FirstPage(SegmentNo(image, j)) <= q < FirstPage(SegmentNo(image, j)) + PageCount(SegmentNo(image, j))
  }

  /** Of the first `i` segments, the j-th is the last one to take page `q`. */
  ghost predicate LastOn(image: seq<Byte>, i: nat, j: nat, q: nat)
    requires |image| >= EHDR
  {
    j < i && CoversPage(image, j, q) && forall l :: j < l < i ==> !CoversPage(image, l, q)
  }

  ghost predicate PageHeld(image: seq<Byte>, j: nat, q: nat, pages: map<Node, PageImage>, r: Frame)
    requires |image| >= EHDR && CoversPage(image, j, q)
  {
    var s := SegmentNo(image, j);
    && SegmentOk(image, s) && PageNo(r, q) in pages && pages[PageNo(r, q)] == Image(image, s, q - FirstPage(s))
  }

  /** Each page up to number `top` holds the image of the last of the first `i` segments that takes it. */
  ghost predicate AllHeld(image: seq<Byte>, i: nat, pages: map<Node, PageImage>, r: Frame, top: nat)
    requires |image| >= EHDR
  {
    forall j: nat, q: nat :: q < top && LastOn(image, i, j, q) ==> PageHeld(image, j, q, pages, r)
  }

  /** How many pages the first `i` segments load. */
  ghost function Total(image: seq<Byte>, i: nat): nat
    requires |image| >= EHDR
  {
    if i == 0 then 0
    else Total(image, i - 1) + if Loads(image, i - 1) then PageCount(SegmentNo(image, i - 1)) else 0
  }

  lemma {:induction false} TotalGrows(image: seq<Byte>, i: nat, n: nat)
    requires |image| >= EHDR && i <= n
    ensures Total(image, i) <= Total(image, n)
  {
    if i < n { TotalGrows(image, i, n - 1); }
  }

  /** `n` is a page of the j-th segment. */
  ghost predicate PageOfSegment(image: seq<Byte>, j: nat, r: Frame, n: Node)
    requires |image| >= EHDR
  {
    && Loads(image, j)
    && Among(r, FirstPage(SegmentNo(image, j)), FirstPage(SegmentNo(image, j)) + PageCount(SegmentNo(image, j)), n)
  }

  /** The pages of space `r` mapped so far are those of the first `i` segments. */
  ghost predicate OnlySegments(image: seq<Byte>, i: nat, keys: set<Node>, r: Frame)
    requires |image| >= EHDR
  {
    forall n :: n in keys && n.root == r ==> exists j :: 0 <= j < i && PageOfSegment(image, j, r, n)
  }

  /** A page of one segment is no page of another. */
  lemma SegmentsApart(image: seq<Byte>, i: nat, j: nat, r: Frame, n: Node)
    requires |image| >= EHDR && PageDisjoint(image) && j < i < HeaderOf(image).phnum && HeadersOk(image, i + 1)
    requires Loads(image, i) && Loads(image, j)
    ensures !(PageOfSegment(image, i, r, n) && PageOfSegment(image, j, r, n))
  {
    var s, t := SegmentNo(image, i), SegmentNo(image, j);
    assert Apart(s, t);
    SegmentBounds(image, s);
    SegmentBounds(image, t);
    hide PageNo, FirstPage, PageCount, SegmentOk;
    forall q, q' | FirstPage(s) <= q < FirstPage(s) + PageCount(s) && FirstPage(t) <= q' < FirstPage(t) + PageCount(t)
      ensures PageNo(r, q) != PageNo(r, q')
    {
      PageNoFacts(r, q, q');
    }
  }

  /** A segment more, on values: its pages hold its image, and the others what they held. */
  lemma NextSegment(image: seq<Byte>, i: nat, pages: map<Node, PageImage>, pages': map<Node, PageImage>, r: Frame)
    requires |image| >= EHDR && Loads(image, i) && SegmentOk(image, SegmentNo(image, i))
    requires AllHeld(image, i, pages, r, LAST_PAGE)
    requires var s := SegmentNo(image, i);
      && RangeHeld(pages', r, FirstPage(s), PageCount(s), image, s)
      && OthersHeld(pages, pages', r, FirstPage(s), FirstPage(s) + PageCount(s))
    ensures AllHeld(image, i + 1, pages', r, LAST_PAGE)
  {
    hide PageNo, FirstPage, PageCount, SegmentNo, HeaderInside, Loadable, SegmentPage, SegmentOk, Image, Among;
    var s := SegmentNo(image, i);
    SegmentBounds(image, s);
    forall j: nat, q: nat | q < LAST_PAGE && LastOn(image, i + 1, j, q) ensures PageHeld(image, j, q, pages', r) {
      if j < i {
        assert !CoversPage(image, i, q) && LastOn(image, i, j, q);
        assert PageHeld(image, j, q, pages, r);
        NotAmong(r, FirstPage(s), FirstPage(s) + PageCount(s), q);
      }
    }
  }

  lemma NextKeys(image: seq<Byte>, i: nat, keys: set<Node>, keys': set<Node>, r: Frame)
    requires |image| >= EHDR && Loads(image, i) && OnlySegments(image, i, keys, r)
    requires var s := SegmentNo(image, i); KeysWithin(keys, keys', r, FirstPage(s), FirstPage(s) + PageCount(s))
    ensures OnlySegments(image, i + 1, keys', r)
  {
    hide PageNo, FirstPage, PageCount, SegmentNo, HeaderInside, Loadable, Among;
    forall n | n in keys' && n.root == r ensures exists j :: 0 <= j < i + 1 && PageOfSegment(image, j, r, n) {
      if n in keys {
        var j :| 0 <= j < i && PageOfSegment(image, j, r, n);
      } else {
        assert PageOfSegment(image, i, r, n);
      }
    }
  }

  lemma NotAmong(r: Frame, lo: nat, hi: nat, q: nat)
    requires q < LAST_PAGE && hi <= LAST_PAGE && !(lo <= q < hi)
    ensures !Among(r, lo, hi, PageNo(r, q))
  {
    hide PageNo;
    forall t | lo <= t < hi ensures PageNo(r, t) != PageNo(r, q) { PageNoFacts(r, t, q); }
  }

  lemma AmongOne(r: Frame, lo: nat, hi: nat, q: nat)
    requires lo <= q < hi
    ensures Among(r, lo, hi, PageNo(r, q))
  {}

  /** A segment not yet loaded finds none of its pages mapped. */
  lemma NoneYet(image: seq<Byte>, i: nat, keys: set<Node>, r: Frame)
    requires |image| >= EHDR && PageDisjoint(image) && i < HeaderOf(image).phnum && HeadersOk(image, i + 1)
    requires Loads(image, i)
    requires OnlySegments(image, i, keys, r)
    ensures var s := SegmentNo(image, i); NoneMapped(keys, r, FirstPage(s), FirstPage(s) + PageCount(s))
  {
    hide PageNo, FirstPage, PageCount, SegmentNo, HeaderInside, Loadable, HeadersOk, PageDisjoint, Among;
    var s := SegmentNo(image, i);
    forall q | FirstPage(s) <= q < FirstPage(s) + PageCount(s) ensures PageNo(r, q) !in keys {
      var n := PageNo(r, q);
      AmongOne(r, FirstPage(s), FirstPage(s) + PageCount(s), q);
      assert n.root == r by { PageNoRoot(r, q); }
      if n in keys {
        var j :| 0 <= j < i && PageOfSegment(image, j, r, n);
        SegmentsApart(image, i, j, r, n);
        assert false;
      }
    }
  }

  lemma PageNoRoot(r: Frame, q: nat)
    ensures PageNo(r, q).root == r
  {}

  datatype Header = Bad | Skip | Take(s: Segment)

  /** The checks of one program header, with their 64-bit wrap-around. */
  method NextHeader(image: seq<Byte>, i: nat) returns (found: Header)
    requires HeaderOk(image) && |image| < U64 && i < HeaderOf(image).phnum
    ensures found.Bad? ==> !ImageOk(image)
    ensures !found.Bad? ==> HeaderInside(image, i)
    ensures found.Skip? ==> !Loadable(SegmentNo(image, i))
    ensures found.Take? ==> found.s == SegmentNo(image, i) && Loadable(found.s) && SegmentOk(image, found.s)
  {
    hide Get32, Get64, Get16, SegmentOk, HeadersOk;
    var h := HeaderOf(image);
    var off := (h.phoff + i * h.phentsize) % U64;
    OffsetWraps(image, i);
    if off < h.phoff || off > |image| || |image| - off < PHDR {
      HeadersBad(image, i);
      return Bad;
    }
    var s := SegmentAt(image, off);
    if s.kind != 1 || s.memsz == 0 { return Skip; }
    SegmentChecks(image, s);
    var vend := (s.vaddr + s.memsz) % U64;
    if s.offset > |image| || |image| - s.offset < s.filesz
      || vend < s.vaddr || s.vaddr >= STACK_TOP || vend > STACK_TOP
    {
      HeadersBad(image, i);
      return Bad;
    }
    return Take(s);
  }

  /** The program header loop. Each page holds what the last segment to take it puts there. */
  method LoadSegments(m: MemoryManager, r: Frame, image: seq<Byte>)
    returns (ok: bool, ghost pages: map<Node, PageImage>, ghost lost: set<Frame>)
    requires m.Valid() && Exclusive(m.at, m.leaf, m.pmm.pages) && r in m.spaces && HeaderOk(image) && |image| < U64
    requires AllOpen(m.ram, m.at, m.k, r) && forall n :: n in m.leaf ==> n.root != r
    modifies m, m.pmm, m.pmm.bitmap
    ensures m.Valid() && Exclusive(m.at, m.leaf, m.pmm.pages) && m.spaces == old(m.spaces)
    ensures !ok ==> m.pmm.pages == {} || !ImageOk(image)
    ensures Less(old(m.pmm.pages + Owned(m.at, m.leaf, r)), m.pmm.pages + Owned(m.at, m.leaf, r), lost)
    ensures Lost(lost, old(m.leaf), m.leaf, Total(image, HeaderOf(image).phnum), ok, PageDisjoint(image))
    ensures ok ==>
      && ImageOk(image) && Holds(m.ram, m.leaf, pages, r) && AllOpen(m.ram, m.at, m.k, r)
      && AllHeld(image, HeaderOf(image).phnum, pages, r, LAST_PAGE)
      && OnlySegments(image, HeaderOf(image).phnum, m.leaf.Keys, r)
  {
    hide MemoryManager.Valid, Exclusive, Owned, Holds, PageDisjoint, AllHeld, OnlySegments, HeadersOk, SegmentOk, Less,
      Lost, Total, RangeHeld, OthersHeld, KeysWithin, NoneMapped, SegmentNo, HeaderInside, Loadable, AllOpen;
    var h := HeaderOf(image);
    pages := map[];
    lost := {};
    ghost var all := m.pmm.pages + Owned(m.at, m.leaf, r);
    HoldsNothing(m.ram, m.leaf, image, r);
    NothingLost(all, m.leaf, PageDisjoint(image));
    var i := 0;
    while i < h.phnum
      invariant 0 <= i <= h.phnum && m.Valid() && Exclusive(m.at, m.leaf, m.pmm.pages) && m.spaces == old(m.spaces)
      invariant HeadersOk(image, i) && Holds(m.ram, m.leaf, pages, r) && AllOpen(m.ram, m.at, m.k, r)
      invariant AllHeld(image, i, pages, r, LAST_PAGE) && OnlySegments(image, i, m.leaf.Keys, r)
      invariant Less(all, m.pmm.pages + Owned(m.at, m.leaf, r), lost)
      invariant Lost(lost, old(m.leaf), m.leaf, Total(image, i), true, PageDisjoint(image))
    {
      LostSoFar(image, i, lost, old(m.leaf), m.leaf);
      var found := NextHeader(image, i);
      if found.Bad? { return false, pages, lost; }
      if found.Skip? {
        HeadersSkip(image, i, pages, m.leaf.Keys, r);
        i := i + 1;
        continue;
      }
      var s := found.s;
      HeadersMore(image, i);
      ghost var was, leaf1 := pages, m.leaf;
      ghost var more: set<Frame>;
      if PageDisjoint(image) { NoneYet(image, i, m.leaf.Keys, r); }
      ghost var now1 := m.pmm.pages + Owned(m.at, m.leaf, r);
      ok, pages, more := LoadSegment(m, r, image, s, pages);
      LostAlso(image, i, all, now1, m.pmm.pages + Owned(m.at, m.leaf, r), lost, more, old(m.leaf), leaf1, m.leaf, r,
        ok);
      lost := lost + more;
      if !ok { return; }
      NextSegment(image, i, was, pages, r);
      NextKeys(image, i, leaf1.Keys, m.leaf.Keys, r);
      i := i + 1;
    }
    ok := true;
  }

  /** What was lost before the load is given up. */
  lemma LostSoFar(image: seq<Byte>, i: nat, lost: set<Frame>, leaf0: map<Node, Frame>, leaf: map<Node, Frame>)
    requires |image| >= EHDR && i < HeaderOf(image).phnum
    requires Lost(lost, leaf0, leaf, Total(image, i), true, PageDisjoint(image))
    ensures Lost(lost, leaf0, leaf, Total(image, HeaderOf(image).phnum), false, PageDisjoint(image))
    ensures !Loads(image, i) ==> Lost(lost, leaf0, leaf, Total(image, i + 1), true, PageDisjoint(image))
  {
    hide PageDisjoint;
    TotalGrows(image, i, HeaderOf(image).phnum);
  }

  /** What the next segment loses besides. */
  lemma LostAlso(image: seq<Byte>, i: nat, all: set<Frame>, before: set<Frame>, now: set<Frame>, lost: set<Frame>,
                 more: set<Frame>, leaf0: map<Node, Frame>, leaf1: map<Node, Frame>, leaf: map<Node, Frame>, r: Frame,
                 ok: bool)
    requires |image| >= EHDR && i < HeaderOf(image).phnum && Loads(image, i)
    requires Less(all, before, lost) && Less(before, now, more)
    requires Lost(lost, leaf0, leaf1, Total(image, i), true, PageDisjoint(image))
    requires var s := SegmentNo(image, i);
      && (PageDisjoint(image) ==> NoneMapped(leaf1.Keys, r, FirstPage(s), FirstPage(s) + PageCount(s)))
      && Lost(more, leaf1, leaf, PageCount(s), ok, NoneMapped(leaf1.Keys, r, FirstPage(s), FirstPage(s) + PageCount(s)))
    ensures Less(all, now, lost + more)
    ensures if ok then Lost(lost + more, leaf0, leaf, Total(image, i + 1), true, PageDisjoint(image))
            else Lost(lost + more, leaf0, leaf, Total(image, HeaderOf(image).phnum), false, PageDisjoint(image))
  {
    hide PageDisjoint, NoneMapped, Less, Lost, SegmentNo, FirstPage, PageCount, HeaderInside, Loadable, HeaderOf;
    var s := SegmentNo(image, i);
    var n, last := PageCount(s), HeaderOf(image).phnum;
    LostBoth(all, before, now, lost, more, leaf0, leaf1, leaf, Total(image, i), n, ok, PageDisjoint(image),
      NoneMapped(leaf1.Keys, r, FirstPage(s), FirstPage(s) + PageCount(s)));
    TotalGrows(image, i + 1, last);
    if !ok {
      var rest := Total(image, last) - Total(image, i + 1);
      LostFewer(lost + more, leaf0, leaf, Total(image, i + 1), rest, PageDisjoint(image));
    }
  }

  lemma HoldsNothing(ram: Ram, leaf: map<Node, Frame>, image: seq<Byte>, r: Frame)
    requires |image| >= EHDR && forall n :: n in leaf ==> n.root != r
    ensures Holds(ram, leaf, map[], r) && HeadersOk(image, 0) && AllHeld(image, 0, map[], r, LAST_PAGE)
    ensures OnlySegments(image, 0, leaf.Keys, r) && Total(image, 0) == 0
  {}

  lemma StepBound(i: nat, n: nat)
    requires i < U16 && n < U16
    ensures i * n < U32
  {
    MulMonotone(i, U16, n);
  }

  /** The 64-bit offset of a header passes the check exactly when the header lies inside the image. */
  lemma OffsetWraps(image: seq<Byte>, i: nat)
    requires |image| >= EHDR && |image| < U64 && i < HeaderOf(image).phnum
    ensures var h := HeaderOf(image);
      var off := (h.phoff + i * h.phentsize) % U64;
      && (off < h.phoff || off > |image| || |image| - off < PHDR <==> !HeaderInside(image, i))
      && (HeaderInside(image, i) ==> off == HeaderAt(h, i))
  {
    hide HeaderOf;
    var h := HeaderOf(image);
    HeaderBounds(image);
    StepBound(i, h.phentsize);
    WrapCheck(h.phoff, i * h.phentsize, |image|);
  }

  lemma HeaderBounds(image: seq<Byte>)
    requires |image| >= EHDR
    ensures var h := HeaderOf(image); h.phoff < U64 && h.phentsize < U16 && h.phnum < U16
  {}

  lemma WrapCheck(base: nat, step: nat, size: nat)
    requires base < U64 && step < U32 && size < U64
    ensures var off := (base + step) % U64;
      && (off < base || off > size || size - off < PHDR <==> base + step + PHDR > size)
      && (base + step + PHDR <= size ==> off == base + step)
  {}

  /** The 64-bit checks of a segment pass exactly when it fits. */
  lemma SegmentChecks(image: seq<Byte>, s: Segment)
    requires s.vaddr < U64 && s.memsz < U64 && s.memsz != 0 && |image| < U64
    ensures var vend := (s.vaddr + s.memsz) % U64;
      || s.offset > |image| || |image| - s.offset < s.filesz
      || vend < s.vaddr || s.vaddr >= STACK_TOP || vend > STACK_TOP
      <==> !SegmentOk(image, s)
  {}

  lemma HeadersBad(image: seq<Byte>, i: nat)
    requires |image| >= EHDR && i < HeaderOf(image).phnum
    requires !HeaderInside(image, i) || (Loadable(SegmentNo(image, i)) && !SegmentOk(image, SegmentNo(image, i)))
    ensures !ImageOk(image)
  {}

  lemma HeadersMore(image: seq<Byte>, i: nat)
    requires |image| >= EHDR && HeadersOk(image, i) && HeaderInside(image, i) && SegmentOk(image, SegmentNo(image, i))
    ensures HeadersOk(image, i + 1)
  {
    hide HeaderOf, SegmentNo, HeaderInside, SegmentOk;
  }

  lemma HeadersSkip(image: seq<Byte>, i: nat, pages: map<Node, PageImage>, keys: set<Node>, r: Frame)
    requires |image| >= EHDR && HeadersOk(image, i) && HeaderInside(image, i) && !Loadable(SegmentNo(image, i))
    ensures HeadersOk(image, i + 1)
    ensures AllHeld(image, i, pages, r, LAST_PAGE) ==> AllHeld(image, i + 1, pages, r, LAST_PAGE)
    ensures OnlySegments(image, i, keys, r) ==> OnlySegments(image, i + 1, keys, r)
  {
    hide HeaderOf, SegmentNo, HeaderInside, SegmentOk, PageHeld, PageOfSegment;
    if AllHeld(image, i, pages, r, LAST_PAGE) {
      forall j: nat, q: nat | q < LAST_PAGE && LastOn(image, i + 1, j, q) ensures PageHeld(image, j, q, pages, r) {
        assert LastOn(image, i, j, q);
      }
    }
    if OnlySegments(image, i, keys, r) {
      forall n | n in keys && n.root == r ensures exists j :: 0 <= j < i + 1 && PageOfSegment(image, j, r, n) {
        var j :| 0 <= j < i && PageOfSegment(image, j, r, n);
      }
    }
  }

  // ---- The stack -------------------------------------------------------------------------------------------------

  /** The stack, as a segment without file data. */
  const STACK: Segment := Segment(1, 2, 0, STACK_BASE, 0, STACK_PAGES * PAGE)

  lemma StackFacts(image: seq<Byte>)
    ensures SegmentOk(image, STACK) && FirstPage(STACK) == STACK_BASE / PAGE == LAST_PAGE - STACK_PAGES
    ensures PageCount(STACK) == STACK_PAGES
    ensures STACK_BASE == FirstPage(STACK) * PAGE
    ensures forall p: nat :: SegmentPage(image, STACK, p) == Zeros(PAGE)
  {}

  method LoadStack(m: MemoryManager, r: Frame, image: seq<Byte>, ghost pages: map<Node, PageImage>)
    returns (ok: bool, ghost pages': map<Node, PageImage>, ghost lost: set<Frame>)
    requires m.Valid() && Exclusive(m.at, m.leaf, m.pmm.pages) && r in m.spaces && Holds(m.ram, m.leaf, pages, r)
    requires AllOpen(m.ram, m.at, m.k, r)
    modifies m, m.pmm, m.pmm.bitmap
    ensures m.Valid() && Exclusive(m.at, m.leaf, m.pmm.pages) && m.spaces == old(m.spaces)
    ensures !ok ==> m.pmm.pages == {}
    ensures Less(old(m.pmm.pages + Owned(m.at, m.leaf, r)), m.pmm.pages + Owned(m.at, m.leaf, r), lost)
    ensures Lost(lost, old(m.leaf), m.leaf, STACK_PAGES, ok,
                 NoneMapped(old(m.leaf.Keys), r, FirstPage(STACK), FirstPage(STACK) + STACK_PAGES))
    ensures ok ==>
      var lo, n := FirstPage(STACK), STACK_PAGES;
      && Holds(m.ram, m.leaf, pages', r) && AllOpen(m.ram, m.at, m.k, r)
      && SegmentOk(image, STACK) && RangeHeld(pages', r, lo, n, image, STACK)
      && OthersHeld(pages, pages', r, lo, lo + n)
  {
    hide MemoryManager.Valid, Exclusive, Owned, PathOf, Holds, SegmentOk, SegmentPage, RangeHeld, OthersHeld,
      KeysWithin, NoneMapped, FirstPage, Less, Lost, PageLost, AllOpen;
    pages' := pages;
    ghost var lo, keys, all := FirstPage(STACK), m.leaf.Keys, m.pmm.pages + Owned(m.at, m.leaf, r);
    StackFacts(image);
    NoPages(pages, m.leaf.Keys, r, lo, image, STACK);
    lost := {};
    NothingLost(all, m.leaf, NoneMapped(keys, r, lo, lo));
    var p := 0;
    while p < STACK_PAGES
      invariant 0 <= p <= STACK_PAGES && m.Valid() && Exclusive(m.at, m.leaf, m.pmm.pages) && m.spaces == old(m.spaces)
      invariant Holds(m.ram, m.leaf, pages', r) && RangeHeld(pages', r, lo, p, image, STACK)
      invariant AllOpen(m.ram, m.at, m.k, r)
      invariant OthersHeld(pages, pages', r, lo, lo + p)
      invariant KeysWithin(old(m.leaf.Keys), m.leaf.Keys, r, lo, lo + p)
      invariant Less(all, m.pmm.pages + Owned(m.at, m.leaf, r), lost)
      invariant Lost(lost, old(m.leaf), m.leaf, p, true, NoneMapped(keys, r, lo, lo + p))
    {
      NextPage(pages, pages', keys, m.leaf.Keys, r, lo, p, image, STACK);
      PageNoFacts(r, lo + p, lo + p);
      ghost var leaf1, lost1 := m.leaf, lost;
      ok, lost := LoadPage(m, r, STACK_BASE + p * PAGE, Zeros(PAGE), USER + WRITABLE, pages', all, lost);
      LostMore(lost1, lost, old(m.leaf), leaf1, m.leaf, p, STACK_PAGES, ok, keys, r, lo);
      if !ok { return; }
      pages' := pages'[PageNo(r, lo + p) := Image(image, STACK, p)];
      p := p + 1;
    }
    ok := true;
  }

  /** Segments clear of the stack stay as loaded, and leave its pages unmapped. */
  lemma StackApart(image: seq<Byte>, j: nat, r: Frame, n: Node)
    requires |image| >= EHDR && PageDisjoint(image) && j < HeaderOf(image).phnum && Loads(image, j)
    ensures !(PageOfSegment(image, j, r, n) && Among(r, FirstPage(STACK), FirstPage(STACK) + STACK_PAGES, n))
  {
    var s := SegmentNo(image, j);
    StackFacts(image);
    assert FirstPage(s) + PageCount(s) <= STACK_BASE / PAGE;
    hide PageNo, PageCount, SegmentOk, FirstPage, SegmentPage;
    forall q, q' |
      FirstPage(s) <= q < FirstPage(s) + PageCount(s) && FirstPage(STACK) <= q' < FirstPage(STACK) + STACK_PAGES
      ensures PageNo(r, q) != PageNo(r, q')
    {
      PageNoFacts(r, q, q');
    }
  }

  lemma StackFree(image: seq<Byte>, keys: set<Node>, r: Frame)
    requires |image| >= EHDR && PageDisjoint(image) && OnlySegments(image, HeaderOf(image).phnum, keys, r)
    ensures NoneMapped(keys, r, FirstPage(STACK), FirstPage(STACK) + STACK_PAGES)
  {
    hide PageNo, FirstPage, PageCount, SegmentNo, HeaderInside, Loadable, PageDisjoint, Among;
    forall q | FirstPage(STACK) <= q < FirstPage(STACK) + STACK_PAGES ensures PageNo(r, q) !in keys {
      var n := PageNo(r, q);
      AmongOne(r, FirstPage(STACK), FirstPage(STACK) + STACK_PAGES, q);
      PageNoRoot(r, q);
      if n in keys {
        var j :| 0 <= j < HeaderOf(image).phnum && PageOfSegment(image, j, r, n);
        StackApart(image, j, r, n);
        assert false;
      }
    }
  }

  /** Pages below the stack stay as loaded. */
  lemma StillHeld(image: seq<Byte>, pages: map<Node, PageImage>, pages': map<Node, PageImage>, r: Frame)
    requires |image| >= EHDR && AllHeld(image, HeaderOf(image).phnum, pages, r, LAST_PAGE)
    requires OthersHeld(pages, pages', r, FirstPage(STACK), FirstPage(STACK) + STACK_PAGES)
    ensures AllHeld(image, HeaderOf(image).phnum, pages', r, STACK_BASE / PAGE)
  {
    StackFacts(image);
    hide PageNo, FirstPage, PageCount, SegmentNo, HeaderInside, Loadable, SegmentPage, SegmentOk, HeaderOf;
    var lo, hi, n := FirstPage(STACK), FirstPage(STACK) + STACK_PAGES, HeaderOf(image).phnum;
    forall j: nat, q: nat | q < STACK_BASE / PAGE && LastOn(image, n, j, q) ensures PageHeld(image, j, q, pages', r) {
      assert PageHeld(image, j, q, pages, r);
      NotAmong(r, lo, hi, q);
    }
  }

  // ---- elf_load ---------------------------------------------------------------------------------------------------

  /** Every address below the stack reads as the last loaded segment on its page says, if it is an address of that
      segment; it is for user access, and writable exactly if the segment is. */
  ghost predicate LastRead(ram: Ram, r: Frame, image: seq<Byte>)
    requires ImageOk(image)
  {
    forall i: nat, a: nat ::
      a < STACK_BASE && InSegment(image, i, a) && LastOn(image, HeaderOf(image).phnum, i, a / PAGE) ==>
        ReadsAsSegment(ram, r, image, SegmentNo(image, i), a)
  }

  /** So does every address of every loaded segment. */
  ghost predicate SegmentsRead(ram: Ram, r: Frame, image: seq<Byte>)
    requires ImageOk(image)
  {
    forall i: nat, a: nat :: i < HeaderOf(image).phnum && InSegment(image, i, a) ==>
      ReadsAsSegment(ram, r, image, SegmentNo(image, i), a)
  }

  ghost predicate ReadsAsSegment(ram: Ram, r: Frame, image: seq<Byte>, s: Segment, a: nat) {
    && SegmentOk(image, s) && s.vaddr <= a < s.vaddr + s.memsz
    && ReadByte(ram, r, a) == Some(SegmentByte(image, s, a)) && MappedFor(ram, r, a, s.flags / 2 % 2 == 1)
  }

  /** A 4 KiB page is mapped at `a`, and the whole walk allows user access, and writing exactly if `write`. */
  ghost predicate MappedFor(ram: Ram, r: Frame, a: nat, write: bool) {
    && SmallPage(Walk(ram, r, a)) && Allows(ram, r, PathOf(a), 0, User)
    && (Allows(ram, r, PathOf(a), 0, Write) <==> write)
  }

  /** `a` is an address of the i-th segment, which is loaded. */
  ghost predicate InSegment(image: seq<Byte>, i: nat, a: nat)
    requires |image| >= EHDR
  {
    Loads(image, i) && SegmentNo(image, i).vaddr <= a < SegmentNo(image, i).vaddr + SegmentNo(image, i).memsz
  }

  ghost predicate StackReads(ram: Ram, r: Frame) {
    forall a: nat :: STACK_BASE <= a < STACK_TOP ==> ReadByte(ram, r, a) == Some(0) && MappedFor(ram, r, a, true)
  }

  lemma PageReads(ram: Ram, at: map<Node, Frame>, leaf: map<Node, Frame>, k: Frame, spaces: set<Frame>,
                  pages: map<Node, PageImage>, r: Frame, image: seq<Byte>, s: Segment, a: nat)
    requires Forest(ram, at, k, spaces) && Leaves(ram, at, leaf, spaces) && r in spaces && Holds(ram, leaf, pages, r)
    requires AllOpen(ram, at, k, r)
    requires SegmentOk(image, s) && s.vaddr <= a < s.vaddr + s.memsz && FirstPage(s) <= a / PAGE
    requires PageNo(r, a / PAGE) in pages && pages[PageNo(r, a / PAGE)] == Image(image, s, a / PAGE - FirstPage(s))
    ensures ReadsAsSegment(ram, r, image, s, a)
  {
    hide Forest, Leaves, PathOf, PageNo, FirstPage, PageCount, SegmentPage, SegmentByte, ReadByte, MappedFor, Holds,
      UserPage, AllOpen;
    PageHolds(image, s, a);
    PageNoOf(r, a);
    HeldReads(ram, at, leaf, k, spaces, pages, r, a);
    HeldMapped(ram, at, leaf, k, spaces, pages, r, a);
  }

  /** A held page is mapped for user access with its flags. */
  lemma HeldMapped(ram: Ram, at: map<Node, Frame>, leaf: map<Node, Frame>, k: Frame, spaces: set<Frame>,
                   pages: map<Node, PageImage>, r: Frame, a: nat)
    requires Forest(ram, at, k, spaces) && r in spaces && AllOpen(ram, at, k, r) && PathOf(a)[0] < 256
    requires Holds(ram, leaf, pages, r) && UserPage(r, a) in pages
    requires pages[UserPage(r, a)].flags == USER || pages[UserPage(r, a)].flags == USER + WRITABLE
    ensures MappedFor(ram, r, a, pages[UserPage(r, a)].flags == USER + WRITABLE)
  {
    hide Forest, Open, Allows, PathOf, MakeEntry, Lookup;
    EntryFlags(leaf[UserPage(r, a)] * PAGE, pages[UserPage(r, a)].flags);
    OpenRights(ram, at, k, spaces, r, PathOf(a), User);
    OpenRights(ram, at, k, spaces, r, PathOf(a), Write);
  }

  lemma AllRead(ram: Ram, at: map<Node, Frame>, leaf: map<Node, Frame>, k: Frame, spaces: set<Frame>,
                pages: map<Node, PageImage>, r: Frame, image: seq<Byte>)
    requires Forest(ram, at, k, spaces) && Leaves(ram, at, leaf, spaces) && r in spaces && Holds(ram, leaf, pages, r)
    requires AllOpen(ram, at, k, r)
    requires ImageOk(image) && AllHeld(image, HeaderOf(image).phnum, pages, r, STACK_BASE / PAGE)
    ensures LastRead(ram, r, image)
  {
    hide Forest, Leaves, Holds, SegmentNo, HeaderInside, Loadable, SegmentOk, ReadsAsSegment, PageCount, FirstPage,
      PageNo, AllOpen;
    var n := HeaderOf(image).phnum;
    forall i: nat, a: nat | a < STACK_BASE && InSegment(image, i, a) && LastOn(image, n, i, a / PAGE)
      ensures ReadsAsSegment(ram, r, image, SegmentNo(image, i), a)
    {
      assert a / PAGE < STACK_BASE / PAGE;
      assert PageHeld(image, i, a / PAGE, pages, r);
      PageReads(ram, at, leaf, k, spaces, pages, r, image, SegmentNo(image, i), a);
    }
  }

  /** Where segments share no page, the last segment on a page is the only one. */
  lemma AllSegmentsRead(ram: Ram, r: Frame, image: seq<Byte>)
    requires ImageOk(image) && LastRead(ram, r, image) && PageDisjoint(image)
    ensures SegmentsRead(ram, r, image)
  {
    hide ReadsAsSegment, LastOn, HeadersOk, PageDisjoint;
    forall i: nat, a: nat | i < HeaderOf(image).phnum && InSegment(image, i, a)
      ensures ReadsAsSegment(ram, r, image, SegmentNo(image, i), a)
    {
      OnlyOn(image, i, a);
    }
  }

  lemma OnlyOn(image: seq<Byte>, i: nat, a: nat)
    requires ImageOk(image) && PageDisjoint(image) && i < HeaderOf(image).phnum && InSegment(image, i, a)
    ensures a < STACK_BASE && LastOn(image, HeaderOf(image).phnum, i, a / PAGE)
  {
    PagesCover(SegmentNo(image, i), a);
    hide SegmentNo, HeaderInside, Loadable, SegmentOk, PageCount, FirstPage;
    assert CoversPage(image, i, a / PAGE);
    forall l | i < l < HeaderOf(image).phnum ensures !CoversPage(image, l, a / PAGE) {
      assert Loads(image, l) ==> Apart(SegmentNo(image, l), SegmentNo(image, i));
    }
  }

  lemma StackRead(ram: Ram, at: map<Node, Frame>, leaf: map<Node, Frame>, k: Frame, spaces: set<Frame>,
                  pages: map<Node, PageImage>, r: Frame, image: seq<Byte>)
    requires Forest(ram, at, k, spaces) && Leaves(ram, at, leaf, spaces) && r in spaces && Holds(ram, leaf, pages, r)
    requires AllOpen(ram, at, k, r)
    requires SegmentOk(image, STACK) && RangeHeld(pages, r, FirstPage(STACK), STACK_PAGES, image, STACK)
    ensures StackReads(ram, r)
  {
    StackFacts(image);
    hide Forest, Leaves, ReadByte, MappedFor, Holds, SegmentPage, FirstPage, PageCount, PageNo, AllOpen;
    forall a: nat | STACK_BASE <= a < STACK_TOP ensures ReadByte(ram, r, a) == Some(0) && MappedFor(ram, r, a, true) {
      PagesCover(STACK, a);
      PageReads(ram, at, leaf, k, spaces, pages, r, image, STACK, a);
    }
  }

  /** elf_load: for any byte string. It fails only on a malformed image or for want of frames. Every page reads as
      the last segment that takes it says, in the sense of the gABI, and the stack as zeros. The frames taken are
      the new space's, but for those of pages that a later segment took: one for each page load that mapped no
      new page. A failed load leaves its frames with the space it created, `left`, and loses one more at most. */
  method Load(m: MemoryManager, image: seq<Byte>)
    returns (out: Option<Loaded>, ghost left: Option<Frame>, ghost lost: set<Frame>)
    requires m.Valid() && Exclusive(m.at, m.leaf, m.pmm.pages) && |image| < U64
    modifies m, m.pmm, m.pmm.bitmap
    ensures m.Valid() && Exclusive(m.at, m.leaf, m.pmm.pages) && old(m.spaces) <= m.spaces
    ensures out.None? ==> m.pmm.pages == {} || !ImageOk(image)
    ensures left.None? ==> out.None? && m.spaces == old(m.spaces) && m.pmm.pages == old(m.pmm.pages)
    ensures left.Some? ==>
      && left.value !in old(m.spaces) && m.spaces == old(m.spaces) + {left.value} && HeaderOk(image)
      && Less(old(m.pmm.pages), m.pmm.pages + Owned(m.at, m.leaf, left.value), lost)
      && Lost(lost, old(m.leaf), m.leaf, Total(image, HeaderOf(image).phnum) + STACK_PAGES, out.Some?,
              PageDisjoint(image))
    ensures out.Some? ==>
      && ImageOk(image) && left == Some(out.value.cr3)
      && out.value.entry == HeaderOf(image).entry && out.value.userSp == STACK_TOP - 16
      && StackReads(m.ram, out.value.cr3) && LastRead(m.ram, out.value.cr3, image)
      && (PageDisjoint(image) ==> SegmentsRead(m.ram, out.value.cr3, image))
  {
    hide Forest, Leaves, TablesUsed, PageAllocator.Valid, Exclusive, Owned, SameWalks, DataKept, NewSpaceWalks, ImageOk,
      HeaderOk, PageDisjoint, SegmentsRead, LastRead, StackReads, Extends, SlotsKept, Inherits, Less, Lost, Total,
      Grew, Open;
    out, left, lost := None, None, {};
    if !HeaderOk(image) {
      BadHeader(image);
      return;
    }
    GoodHeader(image);
    var cr3 := m.SpaceCreate();
    if cr3 == 0 { return; }
    left := Some(cr3);
    assert m.pmm.pages + Owned(m.at, m.leaf, cr3) == old(m.pmm.pages);
    var ok;
    ok, lost := LoadAll(m, cr3, image);
    if ok { out := Some(Loaded(HeaderOf(image).entry, STACK_TOP - 16, cr3)); }
  }

  /** The segments and then the stack, into a new space. */
  method LoadAll(m: MemoryManager, r: Frame, image: seq<Byte>) returns (ok: bool, ghost lost: set<Frame>)
    requires m.Valid() && Exclusive(m.at, m.leaf, m.pmm.pages) && r in m.spaces && HeaderOk(image) && |image| < U64
    requires AllOpen(m.ram, m.at, m.k, r) && forall n :: n in m.leaf ==> n.root != r
    modifies m, m.pmm, m.pmm.bitmap
    ensures m.Valid() && Exclusive(m.at, m.leaf, m.pmm.pages) && m.spaces == old(m.spaces)
    ensures !ok ==> m.pmm.pages == {} || !ImageOk(image)
    ensures Less(old(m.pmm.pages + Owned(m.at, m.leaf, r)), m.pmm.pages + Owned(m.at, m.leaf, r), lost)
    ensures Lost(lost, old(m.leaf), m.leaf, Total(image, HeaderOf(image).phnum) + STACK_PAGES, ok, PageDisjoint(image))
    ensures ok ==>
      && ImageOk(image) && StackReads(m.ram, r) && LastRead(m.ram, r, image)
      && (PageDisjoint(image) ==> SegmentsRead(m.ram, r, image))
  {
    hide Forest, Leaves, TablesUsed, PageAllocator.Valid, Exclusive, Owned, Holds, ImageOk, HeaderOk, AllHeld,
      OnlySegments, PageDisjoint, SegmentsRead, LastRead, StackReads, RangeHeld, OthersHeld, NoneMapped, FirstPage,
      SegmentOk, Less, Lost, Total, AllOpen;
    GoodHeader(image);
    ghost var all, leaf0, total := m.pmm.pages + Owned(m.at, m.leaf, r), m.leaf, Total(image, HeaderOf(image).phnum);
    ghost var pages, pages', more;
    ok, pages, lost := LoadSegments(m, r, image);
    ghost var leaf1, now1, clear := m.leaf, m.pmm.pages + Owned(m.at, m.leaf, r), PageDisjoint(image);
    if !ok {
      LostFewer(lost, leaf0, m.leaf, total, STACK_PAGES, clear);
      return;
    }
    if clear { StackFree(image, m.leaf.Keys, r); }
    ok, pages', more := LoadStack(m, r, image, pages);
    LostBoth(all, now1, m.pmm.pages + Owned(m.at, m.leaf, r), lost, more, leaf0, leaf1, m.leaf, total, STACK_PAGES, ok,
      clear, NoneMapped(leaf1.Keys, r, FirstPage(STACK), FirstPage(STACK) + STACK_PAGES));
    lost := lost + more;
    if !ok { return; }
    StackRead(m.ram, m.at, m.leaf, m.k, m.spaces, pages', r, image);
    StillHeld(image, pages, pages', r);
    AllRead(m.ram, m.at, m.leaf, m.k, m.spaces, pages', r, image);
    if clear { AllSegmentsRead(m.ram, r, image); }
  }

  lemma LostFewer(lost: set<Frame>, leaf0: map<Node, Frame>, leaf: map<Node, Frame>, n: nat, more: nat, unmapped: bool)
    requires Lost(lost, leaf0, leaf, n, false, unmapped)
    ensures Lost(lost, leaf0, leaf, n + more, false, unmapped)
  {}

  lemma LostBoth(all: set<Frame>, before: set<Frame>, now: set<Frame>, lost: set<Frame>, more: set<Frame>,
                 leaf0: map<Node, Frame>, leaf1: map<Node, Frame>, leaf: map<Node, Frame>, n: nat, k: nat, ok: bool,
                 clear: bool, clear': bool)
    requires Less(all, before, lost) && Less(before, now, more) && (clear ==> clear')
    requires Lost(lost, leaf0, leaf1, n, true, clear) && Lost(more, leaf1, leaf, k, ok, clear')
    ensures Less(all, now, lost + more) && Lost(lost + more, leaf0, leaf, n + k, ok, clear)
  {
    hide Less;
    LessTwice(all, before, now, lost, more);
  }

  lemma NoneLostIn(lost: set<Frame>, leaf0: map<Node, Frame>, leaf: map<Node, Frame>, n: nat, unmapped: bool)
    requires Lost(lost, leaf0, leaf, n, true, unmapped)
    ensures unmapped ==> lost == {}
  {}

  lemma LessCount(a: set<Frame>, b: set<Frame>, gone: set<Frame>)
    requires Less(a, b, gone)
    ensures |a| == |b| + |gone|
  {
    assert |b + gone| == |b| + |gone|;
  }

  lemma BadHeader(image: seq<Byte>)
    requires !HeaderOk(image)
    ensures !ImageOk(image)
  {}

  lemma GoodHeader(image: seq<Byte>)
    requires HeaderOk(image)
    ensures |image| >= EHDR
  {}

  /** Load, then destroy (kernel/test/test_userspace.c): all frames are back but the lost ones, and the counter says
      so; none is lost where segments share no page. */
  method LoadThenDestroy(m: MemoryManager, image: seq<Byte>) returns (loaded: bool, ghost lost: set<Frame>)
    requires m.Valid() && Exclusive(m.at, m.leaf, m.pmm.pages) && |image| < U64
    modifies m, m.pmm, m.pmm.bitmap
    ensures m.Valid()
    ensures loaded ==>
      && HeaderOk(image) && m.spaces == old(m.spaces)
      && Less(old(m.pmm.pages), m.pmm.pages, lost) && m.pmm.free == old(m.pmm.free) - |lost|
      && (PageDisjoint(image) ==> lost == {})
  {
    hide Forest, Leaves, TablesUsed, PageAllocator.Valid, Exclusive, Owned, ImageOk, PageDisjoint, SegmentsRead,
      StackReads, LastRead, Total, Less, Lost;
    m.pmm.Counted();
    ghost var left;
    var out;
    out, left, lost := Load(m, image);
    if out == None { return false, lost; }
    NoneLostIn(lost, old(m.leaf), m.leaf, Total(image, HeaderOf(image).phnum) + STACK_PAGES, PageDisjoint(image));
    var bad := m.SpaceDestroy(out.value.cr3);
    m.pmm.Counted();
    LessCount(old(m.pmm.pages), m.pmm.pages, lost);
    return true, lost;
  }
}
