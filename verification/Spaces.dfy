/** What mapping means for translations, and the life of an address space (kernel/mem/vmm.c). */
module Spaces {
  import opened Access
  import opened Machine
  import opened Bytes
  import opened Paging
  import opened Pmm
  import opened Teardown
  import opened Vmm

  // ---- The kernel's map --------------------------------------------------------------------------------

  /** A successful vmm_map is a map update on the 4 KiB pages of the 48-bit space. */
  lemma MapTranslates(ram: Ram, ram': Ram, k: Frame, spaces: set<Frame>, v: nat, phys: nat, flags: nat, w: nat)
    requires PageSet(ram, ram', k, spaces, k, v, Some(Hit(MakeEntry(phys, flags), 1))) && FlagsOk(flags)
    ensures Translate(ram', k, w) == if Page(w) ==
      Page(v) then Some(FrameOf(phys) * 4096 + w % 4096) else Translate(ram, k, w)
  {
    EntryFields(phys, flags);
    assert IsRoot(k, spaces, k) && SameLeaf(ram, k, k, k, PathOf(v));
    hide MakeEntry, Lookup, FrameOf, Page, PathOf;
  }

  /** A successful vmm_unmap is a map deletion. */
  lemma UnmapTranslates(ram: Ram, ram': Ram, k: Frame, spaces: set<Frame>, v: nat, w: nat)
    requires PageSet(ram, ram', k, spaces, k, v, None)
    ensures Translate(ram', k, w) == if Page(w) == Page(v) then None else Translate(ram, k, w)
  {}

  /** A successful vmm_protect changes no translation, in the kernel or in any space. */
  lemma ProtectTranslates(ram: Ram, ram': Ram, at: map<Node, Frame>, k: Frame, spaces: set<Frame>, v: nat, flags: nat,
                          r: Frame, w: nat)
    requires Forest(ram, at, k, spaces) && SmallPage(Walk(ram, k, v)) && FlagsOk(flags) && IsRoot(k, spaces, r)
    requires PageSet(ram, ram', k, spaces, k, v, Some(Hit(MakeEntry(Walk(ram, k, v).value.entry, flags), 1)))
    ensures Translate(ram', r, w) == Translate(ram, r, w)
  {
    hide MakeEntry, Lookup, FrameOf, Page, PathOf, Get, Forest, Present;
    var e := Walk(ram, k, v).value.entry;
    EntryFields(e, flags);
    PathIsPage(w, v);
    if r != k && PathOf(v)[0] >= 256 && Present(Get(ram, r, PathOf(v)[0])) { KernelShared(ram, at, k, spaces, r, v); }
    assert Page(w) == Page(v) ==> Walk(ram, r, w) == Walk(ram, r, v);
  }

  /** A kernel mapping under a slot present when the space was created holds in the space. */
  lemma MapIsShared(born: Ram, ram: Ram, ram': Ram, k: Frame, spaces: set<Frame>, v: nat, phys: nat, flags: nat,
                    r: Frame, w: nat)
    requires PageSet(ram, ram', k, spaces, k, v, Some(Hit(MakeEntry(phys, flags), 1))) && FlagsOk(flags)
    requires r in spaces && Inherits(born, ram, k, r) && PathOf(v)[0] >= 256 && Present(Get(born, k, PathOf(v)[0]))
    ensures Page(w) == Page(v) ==>
      Translate(ram', r, w) == Translate(ram', k, w) == Some(FrameOf(phys) * 4096 + w % 4096)
    ensures Page(w) != Page(v) ==> Translate(ram', r, w) == Translate(ram, r, w)
  {
    hide MakeEntry, Lookup, FrameOf, Page, PathOf, Get, Present, FlagsOk;
    MapTranslates(ram, ram', k, spaces, v, phys, flags, w);
    EntryFields(phys, flags);
    assert PathOf(v)[0] < 512;
    assert IsRoot(k, spaces, r) && SameLeaf(ram, k, k, r, PathOf(v));
  }

  /** Address `w` is in the kernel half, under a slot present in `born`. */
  ghost predicate UnderSlot(born: Ram, k: Frame, w: nat) { PathOf(w)[0] >= 256 && Present(Get(born, k, PathOf(w)[0])) }

  lemma InheritedTranslates(born: Ram, ram: Ram, at: map<Node, Frame>, k: Frame, spaces: set<Frame>, r: Frame, w: nat)
    requires Forest(ram, at, k, spaces) && r in spaces && Inherits(born, ram, k, r) && UnderSlot(born, k, w)
    ensures Translate(ram, r, w) == Translate(ram, k, w)
  {
    assert PathOf(w)[0] < 512;
    KernelShared(ram, at, k, spaces, r, w);
  }

  // ---- Isolation -------------------------------------------------------------------------------------------

  /** vmm_space_map changes the named page of its own space; no other space, and no kernel-half address. */
  lemma Isolation(ram: Ram, ram': Ram, k: Frame, spaces: set<Frame>, r0: Frame, v: nat, phys: nat, flags: nat, r: Frame,
                  w: nat)
    requires PageSet(ram, ram', k, spaces, r0, v, Some(Hit(MakeEntry(phys, flags), 1))) && FlagsOk(flags)
    requires r0 in spaces && k !in spaces && PathOf(v)[0] < 256 && IsRoot(k, spaces, r)
    ensures Translate(ram', r, w) ==
      if r == r0 && Page(w) == Page(v) then Some(FrameOf(phys) * 4096 + w % 4096) else Translate(ram, r, w)
    ensures PathOf(w)[0] >= 256 ==> Translate(ram', r, w) == Translate(ram, r, w)
  {
    EntryFields(phys, flags);
    PathIsPage(w, v);
    hide MakeEntry, Lookup, FrameOf, Page, PathOf, Get;
    var shared := SameLeaf(ram, k, r0, r, PathOf(v));
    assert Walk(ram', r, w) ==
      if Page(w) == Page(v) && shared then Some(Hit(MakeEntry(phys, flags), 1)) else Walk(ram, r, w);
  }

  /** A user page is in the space's page list exactly when it translates. */
  lemma MappedIffWalks(ram: Ram, at: map<Node, Frame>, leaf: map<Node, Frame>, k: Frame, spaces: set<Frame>, r: Frame,
                       v: nat)
    requires Forest(ram, at, k, spaces) && Leaves(ram, at, leaf, spaces) && r in spaces && PathOf(v)[0] < 256
    ensures Node(r, PathOf(v)) in leaf <==> Walk(ram, r, v).Some?
    ensures Node(r, PathOf(v)) in leaf ==>
      SmallPage(Walk(ram, r, v)) && FrameOf(Walk(ram, r, v).value.entry) == leaf[Node(r, PathOf(v))]
  {
    var path := PathOf(v);
    NotKernel(ram, at, k, spaces);
    var n := Node(r, path);
    if n in leaf {
      assert LeafOk(ram, at, spaces, n, leaf[n]);
      assert Parent(n) == WalkNode(k, r, path, 3);
      hide Forest, Leaves;
      Arrives(ram, at, k, spaces, r, path, 3);
    } else {
      RootFrames(ram, at, k, spaces);
      hide Forest, Leaves;
      Unmapped(ram, at, leaf, k, spaces, r, path, 0);
    }
  }

  lemma {:induction false} Unmapped(ram: Ram, at: map<Node, Frame>, leaf: map<Node, Frame>, k: Frame,
                                    spaces: set<Frame>, r: Frame, path: seq<nat>, d: nat)
    requires Forest(ram, at, k, spaces) && Leaves(ram, at, leaf, spaces) && r in spaces && k !in spaces && IsPath(path)
    requires path[0] < 256
    requires d < 4 && WalkNode(k, r, path, d) in at && Node(r, path) !in leaf
    ensures Lookup(ram, at[WalkNode(k, r, path, d)], path, d) == None
    decreases 4 - d
  {
    var n := WalkNode(k, r, path, d);
    if d == 3 {
      assert SlotOk(ram, at, leaf, spaces, n, path[3]);
      assert n.path + [path[3]] == path;
    } else {
      assert DownOk(ram, at, k, n, path[d]);
      WalkChild(k, r, path, d);
      if Present(Get(ram, at[n], path[d])) { Unmapped(ram, at, leaf, k, spaces, r, path, d + 1); }
    }
  }

  // ---- The life of a space ------------------------------------------------------------------------------------

  /** Create a space, map any distinct pages with fresh frames holding any bytes (maps may fail for want of
      frames or for their address), destroy it: every frame is back, once, and the counter with it. */
  method Lifecycle(m: MemoryManager, pages: seq<(nat, nat, seq<Byte>)>) returns (panicked: bool)
    requires m.Valid() && Exclusive(m.at, m.leaf, m.pmm.pages)
    requires forall i :: 0 <= i < |pages| ==> FlagsOk(pages[i].1)
    requires forall i, j :: 0 <= i < j < |pages| ==> Page(pages[i].0) != Page(pages[j].0)
    modifies m, m.pmm, m.pmm.bitmap
    ensures m.Valid() && !panicked && m.spaces == old(m.spaces)
    ensures m.pmm.pages == old(m.pmm.pages) && m.pmm.free == old(m.pmm.free)
  {
    hide Forest, Leaves, TablesUsed, PageAllocator.Valid, Exclusive, Owned, Page, PathOf, SameWalks, PageSet, DataKept,
      NewSpaceWalks, FrameOf, Taken, Fresh, MakeEntry, SlotsKept, Inherits, FlagsOk, Grew, Open, UserAccess;
    m.pmm.Counted();
    var r := m.SpaceCreate();
    if r == 0 {
      m.pmm.Counted();
      return false;
    }
    var i := 0;
    while i < |pages|
      invariant 0 <= i <= |pages| && m.Valid() && Exclusive(m.at, m.leaf, m.pmm.pages)
      invariant m.spaces == old(m.spaces) + {r}
      invariant m.pmm.pages + Owned(m.at, m.leaf, r) == old(m.pmm.pages)
      invariant forall j :: i <= j < |pages| ==> Node(r, PathOf(pages[j].0)) !in m.leaf
    {
      MapOne(m, r, pages[i].0, pages[i].1, pages[i].2);
      forall j | i < j < |pages| ensures PathOf(pages[j].0) != PathOf(pages[i].0) {
        PathIsPage(pages[i].0, pages[j].0);
      }
      i := i + 1;
    }
    panicked := m.SpaceDestroy(r);
    m.pmm.Counted();
  }

  /** One page: a fresh frame is filled and mapped, or given back if the map fails. */
  method MapOne(m: MemoryManager, r: Frame, virt: nat, flags: nat, bytes: seq<Byte>)
    requires m.Valid() && Exclusive(m.at, m.leaf, m.pmm.pages) && r in m.spaces && FlagsOk(flags)
    modifies m, m.pmm, m.pmm.bitmap
    ensures m.Valid() && Exclusive(m.at, m.leaf, m.pmm.pages) && m.spaces == old(m.spaces)
    ensures SlotsKept(old(m.ram), m.ram, m.spaces)
    ensures Node(r, PathOf(virt)) !in old(m.leaf) ==>
      m.pmm.pages + Owned(m.at, m.leaf, r) == old(m.pmm.pages + Owned(m.at, m.leaf, r))
    ensures forall n :: n in m.leaf ==> n in old(m.leaf) || n == Node(r, PathOf(virt))
    ensures Grew(old(m.ram), old(m.at), m.ram, m.at, m.k, r, UserAccess(flags))
  {
    hide Forest, Leaves, TablesUsed, PageAllocator.Valid, Exclusive, Owned, PathOf, SameWalks, PageSet, DataKept,
      FrameOf, Taken, MakeEntry, SlotsKept, FlagsOk, Grew, UserAccess;
    NothingChanged(m.ram, m.at, m.k, m.spaces, m.pmm.pages);
    GrewNone(m.ram, m.ram, m.at, m.k, r, UserAccess(flags));
    var page := m.pmm.Alloc();
    if page == ALLOC_FAILED { return; }
    PageFrame(page);
    FrameTaken(m.at, m.leaf, old(m.pmm.pages), page / PAGE);
    m.FillPage(page / PAGE, bytes);
    ghost var filled := m.ram;
    GrewNone(old(m.ram), filled, m.at, m.k, r, UserAccess(flags));
    MapOrFree(m, r, virt, page, flags);
    SlotsThrough(old(m.ram), filled, m.ram, m.spaces);
    GrewTwice(old(m.ram), old(m.at), filled, old(m.at), m.ram, m.at, m.k, r, UserAccess(flags));
  }

  method MapOrFree(m: MemoryManager, r: Frame, virt: nat, page: nat, flags: nat)
    requires m.Valid() && Exclusive(m.at, m.leaf, m.pmm.pages) && r in m.spaces && FlagsOk(flags)
    requires page % PAGE == 0 && page < MAX_BYTES && FrameOf(page) == page / PAGE
    requires Fresh(m.at, m.leaf, m.pmm.pages, page / PAGE)
    modifies m, m.pmm, m.pmm.bitmap
    ensures m.Valid() && Exclusive(m.at, m.leaf, m.pmm.pages) && m.spaces == old(m.spaces)
    ensures SlotsKept(old(m.ram), m.ram, m.spaces)
    ensures Node(r, PathOf(virt)) !in old(m.leaf) ==>
      m.pmm.pages + Owned(m.at, m.leaf, r) == old(m.pmm.pages + Owned(m.at, m.leaf, r)) + {page / PAGE}
    ensures forall n :: n in m.leaf ==> n in old(m.leaf) || n == Node(r, PathOf(virt))
    ensures Grew(old(m.ram), old(m.at), m.ram, m.at, m.k, r, UserAccess(flags))
  {
    hide Forest, Leaves, TablesUsed, PageAllocator.Valid, Exclusive, Owned, PathOf, SameWalks, PageSet, DataKept,
      FrameOf, Taken, Fresh, MakeEntry, SlotsKept, SameTranslations, FlagsOk, Grew, RightsSet, SameRights, UserAccess,
      Less, Displaced;
    var ok := m.SpaceMap(r, virt, page, flags);
    if !ok {
      FrameBack(old(m.at), m.at, m.leaf, old(m.pmm.pages), m.pmm.pages, page / PAGE);
      BackAgain(m.pmm.pages, Owned(m.at, m.leaf, r), page / PAGE);
      var bad := m.pmm.Free(page);
    }
  }

  lemma BackAgain(free: set<Frame>, owned: set<Frame>, f: Frame)
    ensures free + {f} + owned == free + owned + {f} && free + owned + {} == free + owned
  {}

  lemma SlotsThrough(ram0: Ram, ram1: Ram, ram2: Ram, spaces: set<Frame>)
    requires SlotsKept(ram0, ram1, spaces) && SlotsKept(ram1, ram2, spaces)
    ensures SlotsKept(ram0, ram2, spaces)
  {}

  lemma PageFrame(page: nat)
    requires page % PAGE == 0 && page < MAX_BYTES
    ensures FrameOf(page) == page / PAGE < MAX_PAGES
  {}

  /** A frame leaves the free set. */
  lemma FrameTaken(at: map<Node, Frame>, leaf: map<Node, Frame>, free: set<Frame>, f: Frame)
    requires TablesUsed(at, free) && Exclusive(at, leaf, free) && f in free && 0 < f < MAX_PAGES
    ensures TablesUsed(at, free - {f}) && Exclusive(at, leaf, free - {f}) && Fresh(at, leaf, free - {f}, f)
  {}

  /** A frame that no table took and no page maps goes back. */
  lemma FrameBack(at0: map<Node, Frame>, at: map<Node, Frame>, leaf: map<Node, Frame>, free0: set<Frame>,
                  free: set<Frame>, f: Frame)
    requires Taken(at0, at, free0) && Fresh(at0, leaf, free0, f) && free <= free0 && TablesUsed(at, free)
    requires Exclusive(at, leaf, free)
    ensures f !in free && f != 0 && TablesUsed(at, free + {f}) && Exclusive(at, leaf, free + {f})
  {}

  // ---- Sharing for life ------------------------------------------------------------------------------------------

  /** What the kernel does to its tables and to its spaces, which an operation names by position. */
  datatype Op =
    | KernelMap(virt: nat, phys: nat, flags: nat)
    | KernelUnmap(virt: nat)
    | KernelProtect(virt: nat, flags: nat)
    | Create
    | MapPage(space: nat, virt: nat, flags: nat, bytes: seq<Byte>)
    | Destroy(space: nat)

  predicate OpOk(op: Op) { (op.KernelMap? || op.KernelProtect? || op.MapPage?) ==> FlagsOk(op.flags) }

  ghost predicate Live(live: seq<Frame>, spaces: set<Frame>) {
    && (forall i :: 0 <= i < |live| ==> live[i] in spaces)
    && (forall i, j :: 0 <= i < j < |live| ==> live[i] != live[j])
  }

  /** The operation adds no table to the first space that lacks the right. */
  predicate Opens(op: Op, right: Right) { op.MapPage? && op.space == 0 && right.User? ==> UserAccess(op.flags) }

  /** One operation; the first space is not destroyed, keeps its kernel slots, and its tables the rights they grant. */
  method Operate(m: MemoryManager, live: seq<Frame>, op: Op) returns (live': seq<Frame>)
    requires m.Valid() && Exclusive(m.at, m.leaf, m.pmm.pages) && Live(live, m.spaces) && live != [] && OpOk(op)
    modifies m, m.pmm, m.pmm.bitmap
    ensures m.Valid() && Exclusive(m.at, m.leaf, m.pmm.pages) && Live(live', m.spaces) && live' != []
    ensures live'[0] == live[0]
    ensures SlotsKept(old(m.ram), m.ram, {live[0]})
    ensures forall right :: Opens(op, right) && Open(old(m.ram), old(m.at), m.k, live[0], right) ==>
      Open(m.ram, m.at, m.k, live[0], right)
  {
    hide Forest, Leaves, TablesUsed, PageAllocator.Valid, Exclusive, Owned, PathOf, SameWalks, PageSet, DataKept,
      FrameOf, Taken, Fresh, MakeEntry, SameTranslations, Inherits, NewSpaceWalks, FlagsOk, Without, Extends, Get,
      Lookup, Live, Grew, Open, RightsSet, SameRights, UserAccess;
    live' := live;
    LiveIn(live, m.spaces);
    NotKernel(m.ram, m.at, m.k, m.spaces);
    ghost var grown, user := m.k, false;
    match op {
      case KernelMap(virt, phys, flags) => var ok := m.Map(virt, phys, flags);
      case KernelUnmap(virt) => var ok := m.Unmap(virt);
      case KernelProtect(virt, flags) => var ok := m.Protect(virt, flags);
      case Create =>
        var r := m.SpaceCreate();
        grown, user := r, true;
        if r != 0 {
          LiveAdd(live, old(m.spaces), r);
          live' := live + [r];
        }
      case MapPage(i, virt, flags, bytes) =>
        if i < |live| {
          MapOne(m, live[i], virt, flags, bytes);
          grown, user := live[i], UserAccess(flags);
        } else {
          GrewNone(m.ram, m.ram, m.at, m.k, grown, user);
        }
      case Destroy(i) =>
        GrewNone(m.ram, m.ram, m.at, m.k, grown, user);
        if 0 < i < |live| {
          LiveCut(live, m.spaces, i);
          var bad := m.SpaceDestroy(live[i]);
          live' := live[..i] + live[i + 1..];
          CutOpen(m.ram, old(m.at), m.k, live[i], live[0]);
          return;
        }
    }
    GrownOpen(old(m.ram), old(m.at), m.ram, m.at, m.k, grown, user, live[0], op);
  }

  lemma GrownOpen(ram: Ram, at: map<Node, Frame>, ram': Ram, at': map<Node, Frame>, k: Frame, r: Frame, user: bool,
                  s: Frame, op: Op)
    requires Grew(ram, at, ram', at', k, r, user)
    requires s == r && !user ==> op.MapPage? && op.space == 0 && !UserAccess(op.flags)
    ensures forall right :: Opens(op, right) && Open(ram, at, k, s, right) ==> Open(ram', at', k, s, right)
  {
    hide Grew, Open, UserAccess;
    forall right | Opens(op, right) && Open(ram, at, k, s, right) ensures Open(ram', at', k, s, right) {
      StaysOpen(ram, at, ram', at', k, r, user, s, right);
    }
  }

  lemma CutOpen(ram: Ram, at: map<Node, Frame>, k: Frame, r: Frame, s: Frame)
    ensures forall right :: Open(ram, at, k, s, right) ==> Open(ram, Without(at, r), k, s, right)
  {
    forall right | Open(ram, at, k, s, right) ensures Open(ram, Without(at, r), k, s, right) {
      forall n, i: nat | n in Without(at, r) && n.root == s && OwnSlot(k, n, i)
        ensures OpenSlot(ram, Without(at, r), n, i, right)
      {
        assert OpenSlot(ram, at, n, i, right);
      }
    }
  }

  lemma LiveIn(live: seq<Frame>, spaces: set<Frame>)
    requires Live(live, spaces)
    ensures forall i :: 0 <= i < |live| ==> live[i] in spaces
    ensures forall i :: 0 < i < |live| ==> live[i] != live[0]
  {}

  lemma LiveAdd(live: seq<Frame>, spaces: set<Frame>, r: Frame)
    requires Live(live, spaces) && r !in spaces
    ensures Live(live + [r], spaces + {r})
  {}

  lemma LiveCut(live: seq<Frame>, spaces: set<Frame>, i: nat)
    requires Live(live, spaces) && i < |live|
    ensures Live(live[..i] + live[i + 1..], spaces - {live[i]})
  {}

  /** A page of the user half has the right exactly if it is mapped with it. */
  ghost predicate PagesDecide(ram: Ram, r: Frame, right: Right) {
    forall w: nat :: PathOf(w)[0] < 256 ==>
      (Allows(ram, r, PathOf(w), 0, right) <==>
         Walk(ram, r, w).Some? && Grants(Walk(ram, r, w).value.entry, right))
  }

  lemma OpenDecides(ram: Ram, at: map<Node, Frame>, k: Frame, spaces: set<Frame>, r: Frame, right: Right)
    requires Forest(ram, at, k, spaces) && r in spaces && Open(ram, at, k, r, right)
    ensures PagesDecide(ram, r, right)
  {
    hide Forest, Open, Allows, Lookup, PathOf;
    forall w: nat | PathOf(w)[0] < 256
      ensures Allows(ram, r, PathOf(w), 0, right) <==>
        Walk(ram, r, w).Some? && Grants(Walk(ram, r, w).value.entry, right)
    {
      OpenRights(ram, at, k, spaces, r, PathOf(w), right);
    }
  }

  /** Create a space, then any operations on the kernel's tables, on it and on other spaces: every address
      under a kernel slot present at its creation still translates in the space as in the kernel. A page of
      its user half can be written exactly if it is mapped writable; and, if every map into the space asked
      for user access, accessed from user mode exactly if it is mapped so. */
  method SharedForLife(m: MemoryManager, others: seq<Frame>, ops: seq<Op>) returns (r: Frame)
    requires m.Valid() && Exclusive(m.at, m.leaf, m.pmm.pages) && Live(others, m.spaces)
    requires forall i :: 0 <= i < |ops| ==> OpOk(ops[i])
    modifies m, m.pmm, m.pmm.bitmap
    ensures m.Valid() && Exclusive(m.at, m.leaf, m.pmm.pages) && (r == 0 <==> old(m.pmm.pages) == {})
    ensures r != 0 ==> r in m.spaces && Inherits(old(m.ram), m.ram, m.k, r)
    ensures r != 0 ==>
      forall w: nat :: UnderSlot(old(m.ram), m.k, w) ==> Translate(m.ram, r, w) == Translate(m.ram, m.k, w)
    ensures r != 0 ==> PagesDecide(m.ram, r, Write)
    ensures r != 0 && (forall i :: 0 <= i < |ops| ==> Opens(ops[i], User)) ==> PagesDecide(m.ram, r, User)
  {
    hide Forest, Leaves, TablesUsed, PageAllocator.Valid, Exclusive, Owned, PathOf, SameWalks, PageSet, DataKept,
      FrameOf, Taken, Fresh, MakeEntry, SameTranslations, Inherits, NewSpaceWalks, FlagsOk, Without, Extends, Get,
      Lookup, Live, SlotsKept, OpOk, UnderSlot, Grew, Open, PagesDecide;
    r := m.SpaceCreate();
    if r == 0 { return; }
    NewestFirst(others, old(m.spaces), r);
    var live := [r] + others;
    for i := 0 to |ops|
      invariant m.Valid() && Exclusive(m.at, m.leaf, m.pmm.pages) && Live(live, m.spaces) && live != [] && live[0] == r
      invariant Inherits(old(m.ram), m.ram, m.k, r) && Open(m.ram, m.at, m.k, r, Write)
      invariant (forall j :: 0 <= j < i ==> Opens(ops[j], User)) ==> Open(m.ram, m.at, m.k, r, User)
    {
      ghost var before := m.ram;
      live := Operate(m, live, ops[i]);
      StillInherits(old(m.ram), before, m.ram, m.k, {r}, r);
    }
    LiveIn(live, m.spaces);
    OpenDecides(m.ram, m.at, m.k, m.spaces, r, Write);
    if Open(m.ram, m.at, m.k, r, User) { OpenDecides(m.ram, m.at, m.k, m.spaces, r, User); }
    forall w: nat | UnderSlot(old(m.ram), m.k, w) ensures Translate(m.ram, r, w) == Translate(m.ram, m.k, w) {
      InheritedTranslates(old(m.ram), m.ram, m.at, m.k, m.spaces, r, w);
    }
  }

  lemma NewestFirst(others: seq<Frame>, spaces: set<Frame>, r: Frame)
    requires Live(others, spaces) && r !in spaces
    ensures Live([r] + others, spaces + {r})
  {}
}
