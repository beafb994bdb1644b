/** Kernel mappings and per-process address spaces (kernel/mem/vmm.c). */
module Vmm {
  import opened Access
  import opened Machine
  import opened Bytes
  import opened Paging
  import opened Pmm
  import opened Teardown

  const WRITABLE: nat := 2
  const USER: nat := 4

  ghost predicate TablesUsed(at: map<Node, Frame>, free: set<Frame>) {
    forall n :: n in at ==> at[n] !in free && 0 < at[n] < MAX_PAGES
  }

  /** Frames of bytes that were not free keep their contents. */
  ghost predicate DataKept(ram: Ram, ram': Ram, free: set<Frame>) {
    forall g :: g in ram && ram[g].Data? && g !in free ==> g in ram' && ram'[g] == ram[g]
  }

  /** The kernel slots of every space are as before. */
  ghost predicate SlotsKept(ram: Ram, ram': Ram, spaces: set<Frame>) {
    forall r, i :: r in spaces && 256 <= i < 512 ==> Get(ram', r, i) == Get(ram, r, i)
  }

  /** Space `r` has the kernel slots that were present in `born`. */
  ghost predicate Inherits(born: Ram, ram: Ram, k: Frame, r: Frame) {
    forall i :: 256 <= i < 512 && Present(Get(born, k, i)) ==> Get(ram, r, i) == Get(born, k, i)
  }

  lemma StillInherits(born: Ram, ram: Ram, ram': Ram, k: Frame, spaces: set<Frame>, r: Frame)
    requires Inherits(born, ram, k, r) && SlotsKept(ram, ram', spaces) && r in spaces
    ensures Inherits(born, ram', k, r)
  {}

  ghost predicate Extends(at: map<Node, Frame>, at': map<Node, Frame>) {
    forall n :: n in at ==> n in at' && at'[n] == at[n]
  }

  /** Tables that are new stand in frames that were free. */
  ghost predicate Taken(at: map<Node, Frame>, at': map<Node, Frame>, free: set<Frame>) {
    forall n :: n in at' ==> (n in at && at'[n] == at[n]) || at'[n] in free
  }

  /** Between two states, tables were added for space `r` out of the free frames, and no walk changed. */
  ghost predicate Added(ram: Ram, at: map<Node, Frame>, free: set<Frame>, ram': Ram, at': map<Node, Frame>,
                        free': set<Frame>, leaf: map<Node, Frame>, k: Frame, spaces: set<Frame>, r: Frame)
    ensures Added(ram, at, free, ram', at', free', leaf, k, spaces, r) ==>
      && SameWalks(ram, ram', k, spaces) && SlotsKept(ram, ram', spaces) && Taken(at, at', free)
  {
    && SameWalks(ram, ram', k, spaces) && Extends(at, at') && Taken(at, at', free) && SlotsKept(ram, ram', spaces)
    && DataKept(ram, ram', free)
    && free' <= free && free' + Owned(at', leaf, r) == free + Owned(at, leaf, r)
    && (Exclusive(at, leaf, free) ==> Exclusive(at', leaf, free'))
  }

  lemma AddedTwice(ram: Ram, at: map<Node, Frame>, free: set<Frame>, ram1: Ram, at1: map<Node, Frame>,
                   free1: set<Frame>, ram2: Ram, at2: map<Node, Frame>, free2: set<Frame>, leaf: map<Node, Frame>,
                   k: Frame, spaces: set<Frame>, r: Frame)
    requires Added(ram, at, free, ram1, at1, free1, leaf, k, spaces, r)
    requires Added(ram1, at1, free1, ram2, at2, free2, leaf, k, spaces, r)
    ensures Added(ram, at, free, ram2, at2, free2, leaf, k, spaces, r)
  {}

  // ---- One new table ---------------------------------------------------------------------------------

  lemma NewTable(ram: Ram, at: map<Node, Frame>, leaf: map<Node, Frame>, k: Frame, spaces: set<Frame>, free: set<Frame>,
                 n: Node, i: nat, f: Frame, e: nat)
    requires CanGrow(ram, at, k, spaces, n, i, f, e) && Leaves(ram, at, leaf, spaces) && TablesUsed(at, free)
    requires f in free && 0 < f < MAX_PAGES
    ensures var ram', at', free' := Grown(ram, at[n], i, f, e), at[Child(k, n, i) := f], free - {f};
      && Forest(ram', at', k, spaces) && Leaves(ram', at', leaf, spaces) && TablesUsed(at', free')
      && SameWalks(ram, ram', k, spaces) && Extends(at, at') && SlotsKept(ram, ram', spaces)
      && DataKept(ram, ram', free)
      && Child(k, n, i) in at' && n.root == Child(k, n, i).root
      && free' + Owned(at', leaf, n.root) == free + Owned(at, leaf, n.root)
      && (Exclusive(at, leaf, free) ==> Exclusive(at', leaf, free'))
  {
    hide Forest, Leaves, SameWalks, SlotsKept, Get, Child, LeafOk, SlotOk, Owned, Exclusive, DataKept, Grown, Present,
      Large, FrameOf;
    var c := Child(k, n, i);
    NewChild(ram, at, k, spaces, n, i, f, e);
    Grow(ram, at, k, spaces, n, i, f, e);
    GrowLeaves(ram, at, leaf, k, spaces, n, i, f, e);
    NewTableSlots(ram, at, k, spaces, n, i, f, e);
    NewTableFrames(at, leaf, free, c, f);
    NewTableData(ram, free, at[n], i, f, e);
  }

  lemma NewTableFrames(at: map<Node, Frame>, leaf: map<Node, Frame>, free: set<Frame>, c: Node, f: Frame)
    requires c !in at && f in free
    ensures free - {f} + Owned(at[c := f], leaf, c.root) == free + Owned(at, leaf, c.root)
    ensures Exclusive(at, leaf, free) ==> Exclusive(at[c := f], leaf, free - {f})
  {}

  lemma NewTableData(ram: Ram, free: set<Frame>, g: Frame, i: nat, f: Frame, e: nat)
    requires IsTable(ram, g) && f != g && i < 512 && f in free
    ensures DataKept(ram, Grown(ram, g, i, f, e), free)
  {}

  lemma NewTableSlots(ram: Ram, at: map<Node, Frame>, k: Frame, spaces: set<Frame>, n: Node, i: nat, f: Frame, e: nat)
    requires CanGrow(ram, at, k, spaces, n, i, f, e)
    ensures SlotsKept(ram, Grown(ram, at[n], i, f, e), spaces)
  {}

  // ---- The memory manager -------------------------------------------------------------------------------

  class MemoryManager {
    const pmm: PageAllocator
    const k: Frame                 // active_pml4_phys, as a frame number
    var ram: Ram
    /** The frame of every table, the spaces by their root frame, and the frame mapped at each user page. */
    ghost var at: map<Node, Frame>
    ghost var spaces: set<Frame>
    ghost var leaf: map<Node, Frame>

    ghost predicate Valid()
      reads this, pmm, pmm.bitmap
    {
      && pmm.Valid() && 0 !in pmm.pages
      && Forest(ram, at, k, spaces) && Leaves(ram, at, leaf, spaces) && TablesUsed(at, pmm.pages)
    }

    /** vmm_init: takes over the boot loader's tables, each in a used frame of its own. */
    constructor (pmm: PageAllocator, root: Frame, ram: Ram, ghost at: map<Node, Frame>)
      requires pmm.Valid() && 0 !in pmm.pages && Forest(ram, at, root, {}) && TablesUsed(at, pmm.pages)
      ensures Valid() && this.pmm == pmm && k == root && this.ram == ram && this.at == at && spaces == {}
      ensures leaf == map[]
    {
      this.pmm, k, this.ram, this.at, spaces, leaf := pmm, root, ram, at, {}, map[];
    }

    /** Tables were added for space `r`, out of the free frames; no walk changed. */
    twostate predicate OnlyTables(r: Frame)
      reads this, pmm
    {
      && spaces == old(spaces) && leaf == old(leaf)
      && Added(old(ram), old(at), old(pmm.pages), ram, at, pmm.pages, leaf, k, spaces, r)
    }

    /** vmm_virt_to_phys: the walk of the kernel's tables. With an address all of its page, of whatever size, is
        mapped in one piece. */
    method VirtToPhys(v: nat) returns (phys: Option<nat>)
      requires Valid()
      ensures phys == Translate(ram, k, v)
      ensures phys.Some? ==> RegionMapped(ram, k, v, phys.value)
    {
      hide Forest, Leaves, TablesUsed, PageAllocator.Valid, PathOf, Present, Large, FrameOf, Get, RegionMapped;
      if Translate(ram, k, v).Some? { WholeRegion(ram, k, v); }
      var p := PathOf(v);
      var pml4e := Get(ram, k, p[0]);
      if !Present(pml4e) { return None; }
      var pdpte := Get(ram, FrameOf(pml4e), p[1]);
      if !Present(pdpte) { return None; }
      if Large(pdpte) { return Some(FrameOf(pdpte) * 4096 + v % 0x4000_0000); }
      var pde := Get(ram, FrameOf(pdpte), p[2]);
      if !Present(pde) { return None; }
      if Large(pde) { return Some(FrameOf(pde) * 4096 + v % 0x20_0000); }
      var pte := Get(ram, FrameOf(pde), p[3]);
      if !Present(pte) { return None; }
      return Some(FrameOf(pte) * 4096 + v % 0x1000);
    }

    /** The table under slot `i` of the table in frame `f`, added if absent; None at a large page or when
        no frame is free. */
    method EnsureTable(f: Frame, i: nat, extra: nat, ghost n: Node) returns (child: Option<Frame>)
      requires Valid() && n in at && at[n] == f && |n.path| < 3 && i < 512
      requires n.path == [] && i >= 256 ==> n.root == k
      requires extra == 0 || extra == USER
      modifies this, pmm, pmm.bitmap
      ensures Valid() && OnlyTables(n.root)
      ensures child.Some? ==> Child(k, n, i) in at && at[Child(k, n, i)] == child.value
      ensures child.Some? && !Present(Get(old(ram), f, i)) ==>
        Get(ram, f, i) == MakeEntry(child.value * PAGE, WRITABLE + extra)
      ensures Grew(old(ram), old(at), ram, at, k, n.root, extra == USER)
      ensures child.None? ==>
        pmm.pages == {} || (n.path != [] && n.root == k && Present(Get(old(ram), f, i)) && Large(Get(old(ram), f, i)))
    {
      hide Forest, Leaves, Present, Large, FrameOf, Get, Owned, SameWalks, Child, Exclusive, SlotsKept, DataKept,
        TablesUsed, PageAllocator.Valid, Grew;
      ReadSlot(ram, at, k, spaces, n, i);
      NothingChanged(ram, at, k, spaces, pmm.pages);
      GrewNone(ram, ram, at, k, n.root, extra == USER);
      var e := ram[f].entries[i];
      if !Present(e) {
        var page := pmm.Alloc();
        if page == ALLOC_FAILED { return None; }
        var c := page / PAGE;
        TableStep(ram, at, leaf, k, spaces, old(pmm.pages), n, i, page, WRITABLE + extra);
        GrownSlots(ram, f, i, c, MakeEntry(page, WRITABLE + extra));
        hide MakeEntry;
        ram := ram[c := EmptyTable()];
        ram := ram[f := Table(ram[f].entries[i := MakeEntry(page, WRITABLE + extra)])];
        at := at[Child(k, n, i) := c];
        return Some(c);
      } else if Large(e) {
        return None;
      }
      return Some(FrameOf(e));
    }

    /** The three levels of tables above a page, added where absent. */
    method EnsurePath(r: Frame, path: seq<nat>, extra: nat) returns (pt: Option<Frame>)
      requires Valid() && IsRoot(k, spaces, r) && IsPath(path) && (r == k || path[0] < 256)
      requires extra == 0 || extra == USER
      modifies this, pmm, pmm.bitmap
      ensures Valid() && OnlyTables(r)
      ensures pt.Some? ==> WalkNode(k, r, path, 3) in at && at[WalkNode(k, r, path, 3)] == pt.value
      ensures pt.None? ==> pmm.pages == {} || (r == k && LargePage(Lookup(old(ram), r, path, 0)))
      ensures Grew(old(ram), old(at), ram, at, k, r, extra == USER)
    {
      hide Forest, Leaves, TablesUsed, PageAllocator.Valid, Added, SameWalks, Present, Large, Get, WalkNode, Grew;
      PathSteps(ram, at, k, spaces, r, path);
      var pdpt := EnsureTable(r, path[0], extra, Node(r, []));
      if pdpt == None { return None; }
      label A:
      ghost var a := (ram, at, pmm.pages);
      var pd := EnsureTable(pdpt.value, path[1], extra, WalkNode(k, r, path, 1));
      AddedTwice(old(ram), old(at), old(pmm.pages), a.0, a.1, a.2, ram, at, pmm.pages, leaf, k, spaces, r);
      GrewTwice(old(ram), old(at), a.0, a.1, ram, at, k, r, extra == USER);
      if pd == None {
        if pmm.pages != {} { LargeSeen(old(ram), a.0, a.1, k, spaces, r, path, 1); }
        return None;
      }
      ghost var b := (ram, at, pmm.pages);
      pt := EnsureTable(pd.value, path[2], extra, WalkNode(k, r, path, 2));
      AddedTwice(old(ram), old(at), old(pmm.pages), b.0, b.1, b.2, ram, at, pmm.pages, leaf, k, spaces, r);
      GrewTwice(old(ram), old(at), b.0, b.1, ram, at, k, r, extra == USER);
      if pt == None && pmm.pages != {} { LargeSeen(old(ram), b.0, b.1, k, spaces, r, path, 2); }
    }

    /** vmm_map: on success exactly the named page changes, in the kernel and wherever its slot is shared;
        on failure nothing does. */
    method Map(virt: nat, phys: nat, flags: nat) returns (ok: bool)
      requires Valid() && FlagsOk(flags)
      modifies this, pmm, pmm.bitmap
      ensures Valid() && spaces == old(spaces) && leaf == old(leaf)
      ensures old(Exclusive(at, leaf, pmm.pages)) ==> Exclusive(at, leaf, pmm.pages)
      ensures SlotsKept(old(ram), ram, spaces)
      ensures ok ==> PageSet(old(ram), ram, k, spaces, k, virt, Some(Hit(MakeEntry(phys, flags), 1)))
      ensures !ok ==>
        SameTranslations(old(ram), ram, k, spaces) && (pmm.pages == {} || LargePage(Walk(old(ram), k, virt)))
      ensures Grew(old(ram), old(at), ram, at, k, k, false)
      ensures if ok then RightsSet(old(ram), ram, k, spaces, k, virt, flags, false)
              else SameRights(old(ram), ram, k, spaces)
    {
      hide Forest, Leaves, TablesUsed, PageAllocator.Valid, SameWalks, PageSet, Owned, Exclusive, SlotsKept, DataKept,
        Lookup, WalkNode, PathOf, FrameOf, Grew, RightsSet, SameRights;
      var path := PathOf(virt);
      var pt := EnsurePath(k, path, 0);
      if pt == None {
        AllTranslate(old(ram), ram, k, spaces);
        AllRights(old(ram), old(at), ram, at, k, spaces, k, false);
        return false;
      }
      var e := MakeEntry(phys, flags);
      EntryFields(phys, flags);
      LeafStep(ram, at, leaf, k, spaces, k, virt, e);
      LeafRights(old(ram), old(at), ram, at, k, spaces, k, virt, phys, flags, false);
      hide MakeEntry;
      PageSetAfter(old(ram), ram, Put(ram, pt.value, path[3], e), k, spaces, k, virt, Some(Hit(e, 1)));
      ram := ram[pt.value := Table(ram[pt.value].entries[path[3] := e])];
      return true;
    }

    /** pte_for: the lowest-level table above a kernel address, if the walk gets there. */
    method PteFor(virt: nat) returns (pt: Option<Frame>)
      requires Valid()
      ensures pt.Some? ==> WalkNode(k, k, PathOf(virt), 3) in at && at[WalkNode(k, k, PathOf(virt), 3)] == pt.value
      ensures pt.None? ==> Walk(ram, k, virt) == None || LargePage(Walk(ram, k, virt))
    {
      hide Forest, Leaves, TablesUsed, PageAllocator.Valid, Present, Large, FrameOf, Get, PathOf, WalkNode, Child;
      var path := PathOf(virt);
      PathSteps(ram, at, k, spaces, k, path);
      ReadSlot(ram, at, k, spaces, Node(k, []), path[0]);
      var pml4e := ram[k].entries[path[0]];
      if !Present(pml4e) || Large(pml4e) { return None; }
      ReadSlot(ram, at, k, spaces, WalkNode(k, k, path, 1), path[1]);
      var pdpte := ram[FrameOf(pml4e)].entries[path[1]];
      if !Present(pdpte) || Large(pdpte) { return None; }
      ReadSlot(ram, at, k, spaces, WalkNode(k, k, path, 2), path[2]);
      var pde := ram[FrameOf(pdpte)].entries[path[2]];
      if !Present(pde) || Large(pde) { return None; }
      return Some(FrameOf(pde));
    }

    /** vmm_unmap: succeeds exactly on a mapped 4 KiB page, which it unmaps. */
    method Unmap(virt: nat) returns (ok: bool)
      requires Valid()
      modifies this
      ensures Valid() && spaces == old(spaces) && leaf == old(leaf) && at == old(at)
      ensures ok <==> SmallPage(Walk(old(ram), k, virt))
      ensures if ok then PageSet(old(ram), ram, k, spaces, k, virt, None) else ram == old(ram)
      ensures SlotsKept(old(ram), ram, spaces) && Grew(old(ram), at, ram, at, k, k, false)
    {
      hide Forest, Leaves, TablesUsed, PageAllocator.Valid, SameWalks, PageSet, SlotsKept, Lookup, WalkNode, PathOf,
        Present, Get, Grew;
      GrewNone(ram, ram, at, k, k, false);
      NothingChanged(ram, at, k, spaces, pmm.pages);
      var path := PathOf(virt);
      var pt := PteFor(virt);
      if pt == None { return false; }
      LeafRead(ram, at, k, spaces, k, virt);
      if !Present(ram[pt.value].entries[path[3]]) { return false; }
      LeafStep(ram, at, leaf, k, spaces, k, virt, 0);
      LeafGrew(ram, at, k, spaces, k, virt, 0, k, false);
      ZeroEntry();
      ram := ram[pt.value := Table(ram[pt.value].entries[path[3] := 0])];
      return true;
    }

    /** vmm_protect: succeeds exactly on a mapped 4 KiB page, which keeps its frame and gets the flags. */
    method Protect(virt: nat, flags: nat) returns (ok: bool)
      requires Valid() && FlagsOk(flags)
      modifies this
      ensures Valid() && spaces == old(spaces) && leaf == old(leaf) && at == old(at)
      ensures ok <==> SmallPage(Walk(old(ram), k, virt))
      ensures ok ==>
        PageSet(old(ram), ram, k, spaces, k, virt, Some(Hit(MakeEntry(Walk(old(ram), k, virt).value.entry, flags), 1)))
      ensures !ok ==> ram == old(ram)
      ensures SlotsKept(old(ram), ram, spaces) && Grew(old(ram), at, ram, at, k, k, false)
    {
      hide Forest, Leaves, TablesUsed, PageAllocator.Valid, SameWalks, PageSet, SlotsKept, Lookup, WalkNode, PathOf,
        Present, Get, Grew;
      GrewNone(ram, ram, at, k, k, false);
      NothingChanged(ram, at, k, spaces, pmm.pages);
      var path := PathOf(virt);
      var pt := PteFor(virt);
      if pt == None { return false; }
      LeafRead(ram, at, k, spaces, k, virt);
      var pte := ram[pt.value].entries[path[3]];
      if !Present(pte) { return false; }
      LeafStep(ram, at, leaf, k, spaces, k, virt, MakeEntry(pte, flags));
      LeafGrew(ram, at, k, spaces, k, virt, MakeEntry(pte, flags), k, false);
      EntryFields(pte, flags);
      hide MakeEntry;
      ram := ram[pt.value := Table(ram[pt.value].entries[path[3] := MakeEntry(pte, flags)])];
      return true;
    }

    // -- Per-process spaces

    /** vmm_space_map: refuses the kernel half; on success exactly the named page of this space changes;
        on failure no walk does. The frames taken go from the free set to the space. */
    method SpaceMap(r: Frame, virt: nat, phys: nat, flags: nat) returns (ok: bool)
      requires Valid() && r in spaces && FlagsOk(flags)
      modifies this, pmm, pmm.bitmap
      ensures Valid() && spaces == old(spaces) && pmm.pages <= old(pmm.pages)
      ensures DataKept(old(ram), ram, old(pmm.pages)) && Taken(old(at), at, old(pmm.pages))
      ensures SlotsKept(old(ram), ram, spaces)
      ensures ok ==>
        PathOf(virt)[0] < 256 && PageSet(old(ram), ram, k, spaces, r, virt, Some(Hit(MakeEntry(phys, flags), 1)))
      ensures !ok ==> SameTranslations(old(ram), ram, k, spaces) && (pmm.pages == {} || PathOf(virt)[0] >= 256)
      ensures leaf == if ok then old(leaf)[Node(r, PathOf(virt)) := FrameOf(phys)] else old(leaf)
      ensures !ok || Node(r, PathOf(virt)) !in old(leaf) ==>
        pmm.pages + Owned(at, leaf, r) == old(pmm.pages + Owned(at, leaf, r)) + if ok then {FrameOf(phys)} else {}
      ensures (ok ==> Fresh(old(at), old(leaf), old(pmm.pages), FrameOf(phys))) ==>
        old(Exclusive(at, leaf, pmm.pages)) ==> Exclusive(at, leaf, pmm.pages)
      ensures ok && Fresh(old(at), old(leaf), old(pmm.pages), FrameOf(phys)) && old(Exclusive(at, leaf, pmm.pages)) ==>
        Less(old(pmm.pages + Owned(at, leaf, r)) + {FrameOf(phys)}, pmm.pages + Owned(at, leaf, r),
             Displaced(old(leaf), Node(r, PathOf(virt))))
      ensures Grew(old(ram), old(at), ram, at, k, r, UserAccess(flags))
      ensures if ok then RightsSet(old(ram), ram, k, spaces, r, virt, flags, UserAccess(flags))
              else SameRights(old(ram), ram, k, spaces)
    {
      hide Forest, Leaves, TablesUsed, PageAllocator.Valid, SameWalks, PageSet, Owned, Exclusive, SlotsKept, DataKept,
        Lookup, WalkNode, PathOf, FrameOf, Fresh, Grew, RightsSet, SameRights;
      var path := PathOf(virt);
      NothingChanged(ram, at, k, spaces, pmm.pages);
      NotKernel(ram, at, k, spaces);
      if path[0] >= 256 {
        AllTranslate(ram, ram, k, spaces);
        GrewNone(ram, ram, at, k, r, UserAccess(flags));
        AllRights(ram, at, ram, at, k, spaces, r, UserAccess(flags));
        return false;
      }
      var user := if flags / 4 % 2 == 1 then USER else 0;
      var pt := EnsurePath(r, path, user);
      if pt == None {
        AllTranslate(old(ram), ram, k, spaces);
        AllRights(old(ram), old(at), ram, at, k, spaces, r, UserAccess(flags));
        return false;
      }
      var e := MakeEntry(phys, flags);
      EntryFields(phys, flags);
      LeafStep(ram, at, leaf, k, spaces, r, virt, e);
      LeafRights(old(ram), old(at), ram, at, k, spaces, r, virt, phys, flags, UserAccess(flags));
      hide MakeEntry;
      PageSetAfter(old(ram), ram, Put(ram, pt.value, path[3], e), k, spaces, r, virt, Some(Hit(e, 1)));
      MappedFrames(old(at), at, leaf, old(pmm.pages), pmm.pages, Node(r, path), FrameOf(phys));
      StillData(old(ram), ram, old(pmm.pages), pt.value, path[3], e);
      ram := ram[pt.value := Table(ram[pt.value].entries[path[3] := e])];
      leaf := leaf[Node(r, path) := FrameOf(phys)];
      return true;
    }

    /** vmm_space_create: a new root with an empty user half and the kernel's slots; 0 when no frame is free. */
    method SpaceCreate() returns (r: Frame)
      requires Valid()
      modifies this, pmm, pmm.bitmap
      ensures Valid() && leaf == old(leaf) && (r == 0 <==> old(pmm.pages) == {})
      ensures r == 0 ==> spaces == old(spaces) && pmm.pages == old(pmm.pages) && ram == old(ram) && at == old(at)
      ensures r != 0 ==>
        && r in old(pmm.pages) && pmm.pages == old(pmm.pages) - {r} && r != k && r !in old(spaces)
        && spaces == old(spaces) + {r}
        && Owned(at, leaf, r) == {r} && SameWalks(old(ram), ram, k, old(spaces))
        && DataKept(old(ram), ram, old(pmm.pages))
        && NewSpaceWalks(ram, k, r) && Inherits(old(ram), ram, k, r) && Extends(old(at), at)
        && Open(ram, at, k, r, User) && Open(ram, at, k, r, Write)
        && forall n :: n in leaf ==> n.root != r
      ensures SlotsKept(old(ram), ram, old(spaces)) && Grew(old(ram), old(at), ram, at, k, r, true)
      ensures old(Exclusive(at, leaf, pmm.pages)) ==> Exclusive(at, leaf, pmm.pages)
    {
      hide Forest, Leaves, TablesUsed, PageAllocator.Valid, SameWalks, SlotsKept, Inherits, Owned, Exclusive, DataKept,
        NewSpaceWalks, Grew, Open;
      NothingChanged(ram, at, k, spaces, pmm.pages);
      var page := pmm.Alloc();
      if page == ALLOC_FAILED {
        GrewNone(ram, ram, at, k, 0, true);
        return 0;
      }
      r := page / PAGE;
      ReadRoot(ram, at, k, spaces);
      NewSpace(ram, at, leaf, k, spaces, old(pmm.pages), r);
      NewSpaceOpen(ram, at, leaf, k, spaces, old(pmm.pages), r);
      ram := ram[r := Table(seq(256, _ => 0) + ram[k].entries[256..])];
      at := at[Node(r, []) := r];
      spaces := spaces + {r};
    }

    /** Frees all that hangs below a table, and the table: one of the nested loops of vmm_space_destroy for
        each level. Nothing is freed twice. */
    method FreeTable(f: Frame, level: nat, ghost n: Node) returns (panicked: bool)
      requires pmm.Valid() && Forest(ram, at, k, spaces) && Leaves(ram, at, leaf, spaces) && Exclusive(at, leaf, {})
      requires TablesUsed(at, {})
      requires n in at && at[n] == f && n.root in spaces && |n.path| <= 3 && level == 4 - |n.path|
      requires Below(All(at, leaf), n) !! pmm.pages
      modifies pmm`pages, pmm`free, pmm.bitmap
      ensures pmm.Valid() && !panicked && pmm.pages == old(pmm.pages) + Below(All(at, leaf), n)
      decreases level, 1
    {
      hide Forest, Leaves, Exclusive, TablesUsed, PageAllocator.Valid, Below, Upto, All, Slot, FrameAddr;
      var limit := if level == 4 then 256 else 512;
      TableParts(ram, at, leaf, k, spaces, n, limit);
      ghost var all := All(at, leaf);
      var i := 0;
      while i < limit
        invariant 0 <= i <= limit && pmm.Valid() && pmm.pages == old(pmm.pages) + Upto(all, n, i)
      {
        SlotParts(ram, at, leaf, k, spaces, n, i);
        var bad := FreeSlot(ram[f].entries[i], level, n, i);
        assert !bad;
        i := i + 1;
      }
      panicked := FreeOne(f);
    }

    /** What hangs below one slot. */
    method FreeSlot(e: nat, level: nat, ghost n: Node, ghost i: nat) returns (panicked: bool)
      requires pmm.Valid() && Forest(ram, at, k, spaces) && Leaves(ram, at, leaf, spaces) && Exclusive(at, leaf, {})
      requires TablesUsed(at, {})
      requires n in at && n.root in spaces && |n.path| <= 3 && level == 4 - |n.path|
      requires i < if level == 4 then 256 else 512
      requires IsTable(ram, at[n]) && e == ram[at[n]].entries[i] && Below(All(at, leaf), Slot(n, i)) !! pmm.pages
      modifies pmm`pages, pmm`free, pmm.bitmap
      ensures pmm.Valid() && !panicked && pmm.pages == old(pmm.pages) + Below(All(at, leaf), Slot(n, i))
      decreases level, 0
    {
      hide Forest, Leaves, Exclusive, TablesUsed, PageAllocator.Valid, Below, Upto, All, Present, Large, FrameOf;
      SlotParts(ram, at, leaf, k, spaces, n, i);
      if !Present(e) { return false; }
      if level == 1 {
        panicked := FreeOne(FrameOf(e));
      } else if Large(e) {
        assert false;
      } else {
        panicked := FreeTable(FrameOf(e), level - 1, Slot(n, i));
      }
    }

    method FreeOne(f: Frame) returns (panicked: bool)
      requires pmm.Valid() && FrameAddr(f) && f !in pmm.pages
      modifies pmm`pages, pmm`free, pmm.bitmap
      ensures pmm.Valid() && !panicked && pmm.pages == old(pmm.pages) + {f}
    {
      hide PageAllocator.Valid;
      panicked := pmm.Free(f * PAGE);
    }

    /** vmm_space_destroy: gives back exactly the frames of the space, each once. A null root or the
        kernel's own is left alone. */
    method SpaceDestroy(r: Frame) returns (panicked: bool)
      requires Valid() && (r in spaces || r == 0 || r == k) && Exclusive(at, leaf, pmm.pages)
      modifies this`at, this`spaces, this`leaf, pmm, pmm.bitmap
      ensures Valid() && Exclusive(at, leaf, pmm.pages) && !panicked
      ensures spaces == old(spaces) - {r} && ram == old(ram)
      ensures r in old(spaces) ==> at == Without(old(at), r) && leaf == Without(old(leaf), r)
      ensures r !in old(spaces) ==> at == old(at) && leaf == old(leaf) && pmm.pages == old(pmm.pages)
      ensures r in old(spaces) ==>
        && pmm.pages == old(pmm.pages) + old(Owned(at, leaf, r)) && old(Owned(at, leaf, r) !! pmm.pages)
        && pmm.free == old(pmm.free) + |old(Owned(at, leaf, r))|
    {
      hide Forest, Leaves, Exclusive, TablesUsed, Owned, Below, All, Without, PageAllocator.Valid;
      RootsKnown(ram, at, k, spaces, pmm.pages);
      pmm.Counted();
      if r == 0 || r == k { return false; }
      DestroyParts(ram, at, leaf, k, spaces, pmm.pages, r);
      panicked := FreeTable(r, 4, Node(r, []));
      FreeCount(pmm, old(pmm.pages), old(Owned(at, leaf, r)));
      at, leaf, spaces := Without(at, r), Without(leaf, r), spaces - {r};
    }

    /** Bytes written to a frame through the direct map. */
    method FillPage(f: Frame, bytes: seq<Byte>)
      requires Valid() && Unused(at, f)
      modifies this`ram
      ensures Valid() && ram == old(ram)[f := Data(bytes)] && SameWalks(old(ram), ram, k, spaces)
      ensures SlotsKept(old(ram), ram, spaces) && UpperSame(old(ram), ram, at)
    {
      hide Forest, Leaves, TablesUsed, PageAllocator.Valid, SameWalks, SlotsKept, UpperSame;
      FilledSlots(ram, at, k, spaces, f, bytes);
      OtherFrames(ram, at, k, spaces, f, Data(bytes));
      FrameWritten(ram, at, k, spaces, f, Data(bytes));
      LeavesKept(ram, at, leaf, spaces, f, Data(bytes));
      ram := ram[f := Data(bytes)];
    }
  }

  /** The page around `v`, of the size that its entry maps, starts at the entry's frame and is mapped in one piece
      that takes `v` to `phys`. */
  ghost predicate RegionMapped(ram: Ram, root: Frame, v: nat, phys: nat) {
    && Walk(ram, root, v).Some?
    && var h := Walk(ram, root, v).value;
    && (RegionStart(h.level, v) ==> phys == FrameOf(h.entry) * 4096)
    && forall w: nat :: SameRegion(h.level, v, w) ==>
         Translate(ram, root, w).Some? && Translate(ram, root, w).value - phys == w - v
  }

  lemma WholeRegion(ram: Ram, root: Frame, v: nat)
    requires Translate(ram, root, v).Some?
    ensures RegionMapped(ram, root, v, Translate(ram, root, v).value)
  {
    hide Lookup, FrameOf, PathOf, SameRegion, RegionStart, Span, Translate;
    assert Walk(ram, root, v).Some? by { MappedWalks(ram, root, v); }
    RegionTranslates(ram, root, v, v);
    forall w: nat | SameRegion(Walk(ram, root, v).value.level, v, w)
      ensures Translate(ram, root, w).Some?
        && Translate(ram, root, w).value - Translate(ram, root, v).value == w - v
    {
      RegionTranslates(ram, root, v, w);
    }
  }

  lemma MappedWalks(ram: Ram, root: Frame, v: nat)
    requires Translate(ram, root, v).Some?
    ensures Walk(ram, root, v).Some?
  {}

  /** No address translates differently from any root. */
  ghost predicate SameTranslations(ram: Ram, ram': Ram, k: Frame, spaces: set<Frame>) {
    forall r, w: nat :: IsRoot(k, spaces, r) ==> Translate(ram', r, w) == Translate(ram, r, w)
  }

  lemma AllTranslate(ram: Ram, ram': Ram, k: Frame, spaces: set<Frame>)
    requires SameWalks(ram, ram', k, spaces)
    ensures SameTranslations(ram, ram', k, spaces)
  {}

  /** No address has other rights from any root. */
  ghost predicate SameRights(ram: Ram, ram': Ram, k: Frame, spaces: set<Frame>) {
    forall r, w: nat, right :: IsRoot(k, spaces, r) ==>
      (Allows(ram', r, PathOf(w), 0, right) <==> Allows(ram, r, PathOf(w), 0, right))
  }

  lemma AllRights(ram: Ram, at: map<Node, Frame>, ram': Ram, at': map<Node, Frame>, k: Frame, spaces: set<Frame>,
                  r0: Frame, user: bool)
    requires Forest(ram, at, k, spaces) && Grew(ram, at, ram', at', k, r0, user)
    requires SameWalks(ram, ram', k, spaces) && SlotsKept(ram, ram', spaces)
    ensures SameRights(ram, ram', k, spaces)
  {
    forall r, w: nat, right | IsRoot(k, spaces, r)
      ensures Allows(ram', r, PathOf(w), 0, right) <==> Allows(ram, r, PathOf(w), 0, right)
    {
      assert IsPath(PathOf(w));
      hide Forest, Grew, Lookup, Allows, Get, PathOf;
      RightsKept(ram, at, ram', at', k, spaces, r0, user, r, PathOf(w), right);
    }
  }

  /** Page `v`, mapped with `flags` from root `r0`, has exactly the rights that the flags and every table already
      on the way grant; new tables grant user access if `user`, and write access. No other page, and no other
      space's, has rights other than before. */
  ghost predicate RightsSet(ram: Ram, ram': Ram, k: Frame, spaces: set<Frame>, r0: Frame, v: nat, flags: nat,
                            user: bool) {
    && (forall right :: Allows(ram', r0, PathOf(v), 0, right) <==>
          Grants(flags, right) && WayAllows(ram, r0, PathOf(v), 0, right, right.Write? || user))
    && (forall r, w: nat, right ::
          IsRoot(k, spaces, r) && !(Page(w) == Page(v) && SameLeaf(ram, k, r0, r, PathOf(v))) ==>
            (Allows(ram', r, PathOf(w), 0, right) <==> Allows(ram, r, PathOf(w), 0, right)))
  }

  /** Writing a lowest-level entry changes nothing above. */
  lemma LeafGrew(ram: Ram, at: map<Node, Frame>, k: Frame, spaces: set<Frame>, r0: Frame, v: nat, e: nat, r: Frame,
                 user: bool)
    requires Forest(ram, at, k, spaces) && WalkNode(k, r0, PathOf(v), 3) in at
    requires IsTable(ram, at[WalkNode(k, r0, PathOf(v), 3)])
    ensures Grew(ram, at, Put(ram, at[WalkNode(k, r0, PathOf(v), 3)], PathOf(v)[3], e), at, k, r, user)
  {
    var n := WalkNode(k, r0, PathOf(v), 3);
    var ram' := Put(ram, at[n], PathOf(v)[3], e);
    GetPut(ram, at[n], PathOf(v)[3], e);
    assert Injective(at);
    hide Get, Put, Forest, PathOf;
    GrewNone(ram, ram', at, k, r, user);
  }

  /** Writing the entry of page `v` after tables were added. */
  lemma LeafRights(ram0: Ram, at0: map<Node, Frame>, ram: Ram, at: map<Node, Frame>, k: Frame, spaces: set<Frame>,
                   r0: Frame, v: nat, phys: nat, flags: nat, user: bool)
    requires Forest(ram0, at0, k, spaces) && Forest(ram, at, k, spaces) && Grew(ram0, at0, ram, at, k, r0, user)
    requires IsRoot(k, spaces, r0) && (r0 == k || PathOf(v)[0] < 256) && FlagsOk(flags)
    requires WalkNode(k, r0, PathOf(v), 3) in at && IsTable(ram, at[WalkNode(k, r0, PathOf(v), 3)])
    ensures var ram' := Put(ram, at[WalkNode(k, r0, PathOf(v), 3)], PathOf(v)[3], MakeEntry(phys, flags));
      && Grew(ram0, at0, ram', at, k, r0, user)
      && (PageSet(ram0, ram', k, spaces, r0, v, Some(Hit(MakeEntry(phys, flags), 1))) ==>
          SlotsKept(ram0, ram', spaces) && Forest(ram', at, k, spaces) ==>
          RightsSet(ram0, ram', k, spaces, r0, v, flags, user))
  {
    var n, e := WalkNode(k, r0, PathOf(v), 3), MakeEntry(phys, flags);
    var ram' := Put(ram, at[n], PathOf(v)[3], e);
    LeafGrew(ram, at, k, spaces, r0, v, e, r0, user);
    GetPut(ram, at[n], PathOf(v)[3], e);
    EntryFields(phys, flags);
    EntryFlags(phys, flags);
    hide Get, Put, Forest, Grew, PageSet, SlotsKept, MakeEntry, PathOf, FlagsOk;
    GrewTwice(ram0, at0, ram, at, ram', at, k, r0, user);
    if PageSet(ram0, ram', k, spaces, r0, v, Some(Hit(e, 1))) && SlotsKept(ram0, ram', spaces)
      && Forest(ram', at, k, spaces)
    {
      WrittenRights(ram0, at0, ram', at, k, spaces, r0, v, e, flags, user);
    }
  }

  lemma WrittenRights(ram: Ram, at: map<Node, Frame>, ram': Ram, at': map<Node, Frame>, k: Frame, spaces: set<Frame>,
                      r0: Frame, v: nat, e: nat, flags: nat, user: bool)
    requires Forest(ram, at, k, spaces) && Forest(ram', at', k, spaces) && Grew(ram, at, ram', at', k, r0, user)
    requires IsRoot(k, spaces, r0) && (r0 == k || PathOf(v)[0] < 256)
    requires WalkNode(k, r0, PathOf(v), 3) in at' && Get(ram', at'[WalkNode(k, r0, PathOf(v), 3)], PathOf(v)[3]) == e
    requires Present(e) && forall right :: Grants(e, right) <==> Grants(flags, right)
    requires PageSet(ram, ram', k, spaces, r0, v, Some(Hit(e, 1))) && SlotsKept(ram, ram', spaces)
    ensures RightsSet(ram, ram', k, spaces, r0, v, flags, user)
  {
    hide Forest, Grew, Lookup, Allows, WayAllows, Get, PathOf, WalkNode, Grants, Page, PageSet, SlotsKept, SameLeaf;
    assert IsPath(PathOf(v));
    forall right
      ensures Allows(ram', r0, PathOf(v), 0, right) <==>
        Grants(flags, right) && WayAllows(ram, r0, PathOf(v), 0, right, right.Write? || user)
    {
      RightsOfPage(ram, at, ram', at', k, spaces, r0, user, PathOf(v), right);
    }
    forall r, w: nat, right | IsRoot(k, spaces, r) && !(Page(w) == Page(v) && SameLeaf(ram, k, r0, r, PathOf(v)))
      ensures Allows(ram', r, PathOf(w), 0, right) <==> Allows(ram, r, PathOf(w), 0, right)
    {
      OtherRights(ram, at, ram', at', k, spaces, r0, v, user, Some(Hit(e, 1)), r, w, right);
    }
  }

  lemma OtherRights(ram: Ram, at: map<Node, Frame>, ram': Ram, at': map<Node, Frame>, k: Frame, spaces: set<Frame>,
                    r0: Frame, v: nat, user: bool, res: Option<Hit>, r: Frame, w: nat, right: Right)
    requires Forest(ram, at, k, spaces) && Grew(ram, at, ram', at', k, r0, user) && SlotsKept(ram, ram', spaces)
    requires PageSet(ram, ram', k, spaces, r0, v, res) && IsRoot(k, spaces, r)
    requires !(Page(w) == Page(v) && SameLeaf(ram, k, r0, r, PathOf(v)))
    ensures Allows(ram', r, PathOf(w), 0, right) <==> Allows(ram, r, PathOf(w), 0, right)
  {
    assert IsPath(PathOf(w));
    hide Forest, Grew, Lookup, Allows, Get, PathOf, Page, SameLeaf;
    assert Walk(ram', r, w) == Walk(ram, r, w);
    RightsKept(ram, at, ram', at', k, spaces, r0, user, r, PathOf(w), right);
  }

  predicate LargePage(h: Option<Hit>) { h.Some? && h.value.level > 1 }

  /** The tables on the way down `path`. */
  lemma PathSteps(ram: Ram, at: map<Node, Frame>, k: Frame, spaces: set<Frame>, r: Frame, path: seq<nat>)
    requires Forest(ram, at, k, spaces) && IsRoot(k, spaces, r) && IsPath(path) && (r == k || path[0] < 256)
    ensures Node(r, []) in at && at[Node(r, [])] == r
    ensures Child(k, Node(r, []), path[0]) == WalkNode(k, r, path, 1)
    ensures forall d :: 1 <= d <= 2 ==> Child(k, WalkNode(k, r, path, d), path[d]) == WalkNode(k, r, path, d + 1)
    ensures forall d :: 1 <= d <= 3 ==> var n := WalkNode(k, r, path, d); n.root == r && |n.path| == d
    ensures forall d :: 0 <= d <= 3 ==> path[d] < 512
  {}

  /** A large page met on the way down is what the walk finds. */
  lemma LargeSeen(ram0: Ram, ram: Ram, at: map<Node, Frame>, k: Frame, spaces: set<Frame>, r: Frame, path: seq<nat>,
                  d: nat)
    requires Forest(ram, at, k, spaces) && IsRoot(k, spaces, r) && IsPath(path) && (r == k || path[0] < 256)
    requires 1 <= d <= 2
    requires WalkNode(k, r, path, d) in at && SameWalks(ram0, ram, k, spaces)
    requires var e := Get(ram, at[WalkNode(k, r, path, d)], path[d]); Present(e) && Large(e)
    ensures LargePage(Lookup(ram0, r, path, 0))
  {
    assert r == k ==> r !in spaces;
    Arrives(ram, at, k, spaces, r, path, d);
    hide Forest;
  }

  lemma NothingChanged(ram: Ram, at: map<Node, Frame>, k: Frame, spaces: set<Frame>, free: set<Frame>)
    ensures SameWalks(ram, ram, k, spaces) && SlotsKept(ram, ram, spaces) && DataKept(ram, ram, free)
  {}

  /** What ensure_table does to an absent slot, on values. */
  lemma TableStep(ram: Ram, at: map<Node, Frame>, leaf: map<Node, Frame>, k: Frame, spaces: set<Frame>,
                  free: set<Frame>, n: Node, i: nat, page: nat, flags: nat)
    requires Forest(ram, at, k, spaces) && Leaves(ram, at, leaf, spaces) && TablesUsed(at, free) && 0 !in free
    requires n in at && |n.path| < 3 && i < 512 && !Present(Get(ram, at[n], i))
    requires n.path == [] && i >= 256 ==> n.root == k
    requires page % PAGE == 0 && page < MAX_BYTES && page / PAGE in free
    requires flags == WRITABLE || flags == WRITABLE + USER
    ensures IsTable(ram, at[n]) && page / PAGE != at[n]
    ensures var f := page / PAGE;
      var ram', at', free' := Grown(ram, at[n], i, f, MakeEntry(page, flags)), at[Child(k, n, i) := f], free - {f};
      && Forest(ram', at', k, spaces) && Leaves(ram', at', leaf, spaces) && TablesUsed(at', free')
      && SameWalks(ram, ram', k, spaces) && Extends(at, at') && SlotsKept(ram, ram', spaces)
      && DataKept(ram, ram', free)
      && free' + Owned(at', leaf, n.root) == free + Owned(at, leaf, n.root)
      && (Exclusive(at, leaf, free) ==> Exclusive(at', leaf, free'))
      && Grew(ram, at, ram', at', k, n.root, flags == WRITABLE + USER)
  {
    hide Forest, Leaves, SameWalks, Get, Child, Present, Large, FrameOf, Owned, Exclusive, SlotsKept, DataKept, Grown,
      Grew, Writable, UserAccess;
    ReadSlot(ram, at, k, spaces, n, i);
    NewEntry(page, flags);
    GrewTable(ram, at, k, spaces, n, i, page / PAGE, MakeEntry(page, flags), flags == WRITABLE + USER);
    NewTable(ram, at, leaf, k, spaces, free, n, i, page / PAGE, MakeEntry(page, flags));
  }

  lemma ReadSlot(ram: Ram, at: map<Node, Frame>, k: Frame, spaces: set<Frame>, n: Node, i: nat)
    requires Forest(ram, at, k, spaces) && n in at && |n.path| < 3 && i < 512
    ensures IsTable(ram, at[n]) && Get(ram, at[n], i) == ram[at[n]].entries[i]
    ensures DownOk(ram, at, k, n, i)
  {}

  lemma NewEntry(page: nat, flags: nat)
    requires page % PAGE == 0 && page < MAX_BYTES && (flags == WRITABLE || flags == WRITABLE + USER)
    ensures var e := MakeEntry(page, flags);
      && Present(e) && !Large(e) && FrameOf(e) == page / PAGE
      && Writable(e) && (UserAccess(e) <==> flags == WRITABLE + USER)
  {
    EntryFields(page, flags);
    EntryFlags(page, flags);
    hide MakeEntry, Present, Large, Writable, UserAccess;
  }

  predicate SmallPage(h: Option<Hit>) { h.Some? && h.value.level == 1 }

  /** The walk of page `v` from root `r0`, and from every root that shares its table, now gives `res`;
      all other walks are as before. */
  ghost predicate PageSet(ram: Ram, ram': Ram, k: Frame, spaces: set<Frame>, r0: Frame, v: nat, res: Option<Hit>) {
    forall r, w: nat :: IsRoot(k, spaces, r) ==>
      Walk(ram', r, w) == if Page(w) == Page(v) && SameLeaf(ram, k, r0, r, PathOf(v)) then res else Walk(ram, r, w)
  }

  /** Writing the lowest-level entry of page `v`. */
  lemma LeafStep(ram: Ram, at: map<Node, Frame>, leaf: map<Node, Frame>, k: Frame, spaces: set<Frame>, r0: Frame,
                 v: nat, e: nat)
    requires Forest(ram, at, k, spaces) && Leaves(ram, at, leaf, spaces) && IsRoot(k, spaces, r0)
    requires r0 == k || PathOf(v)[0] < 256
    requires WalkNode(k, r0, PathOf(v), 3) in at && (r0 != k ==> Present(e))
    ensures IsTable(ram, at[WalkNode(k, r0, PathOf(v), 3)])
    ensures var ram' := Put(ram, at[WalkNode(k, r0, PathOf(v), 3)], PathOf(v)[3], e);
      && Forest(ram', at, k, spaces) && PageSet(ram, ram', k, spaces, r0, v, Result(e)) && SlotsKept(ram, ram', spaces)
      && Leaves(ram', at, if r0 == k then leaf else leaf[Node(r0, PathOf(v)) := FrameOf(e)], spaces)
  {
    var path := PathOf(v);
    var n := WalkNode(k, r0, path, 3);
    assert NodeOk(ram, at, k, spaces, n) && k !in spaces;
    assert n.root == r0 && n.path + [path[3]] == path;
    hide NodeOk, Get, IsTable, Put, Result, FrameOf, SlotsKept;
    LeafSlots(ram, at, k, spaces, n, path[3], e);
    PutLeafKeeps(ram, at, k, spaces, n, path[3], e);
    PutLeafLeaves(ram, at, leaf, k, spaces, n, path[3], e);
    hide Leaves;
    forall r, w: nat | IsRoot(k, spaces, r)
      ensures Walk(Put(ram, at[n], path[3], e), r, w)
        == if Page(w) == Page(v) && SameLeaf(ram, k, r0, r, path) then Result(e) else Walk(ram, r, w)
    {
      PathIsPage(w, v);
      hide PathOf, Page, Forest;
      PutLeaf(ram, at, k, spaces, r0, path, e, r, PathOf(w));
    }
  }

  lemma LeafSlots(ram: Ram, at: map<Node, Frame>, k: Frame, spaces: set<Frame>, n: Node, i: nat, e: nat)
    requires Forest(ram, at, k, spaces) && n in at && n.path != [] && IsTable(ram, at[n]) && i < 512
    ensures SlotsKept(ram, Put(ram, at[n], i, e), spaces)
  {
    RootFrames(ram, at, k, spaces);
    assert Injective(at);
  }

  lemma FilledSlots(ram: Ram, at: map<Node, Frame>, k: Frame, spaces: set<Frame>, f: Frame, bytes: seq<Byte>)
    requires Forest(ram, at, k, spaces) && Unused(at, f)
    ensures SlotsKept(ram, ram[f := Data(bytes)], spaces)
  {
    RootFrames(ram, at, k, spaces);
  }

  /** The lowest-level entry of page `v` decides its walk. */
  lemma LeafRead(ram: Ram, at: map<Node, Frame>, k: Frame, spaces: set<Frame>, r0: Frame, v: nat)
    requires Forest(ram, at, k, spaces) && IsRoot(k, spaces, r0) && (r0 == k || PathOf(v)[0] < 256)
    requires WalkNode(k, r0, PathOf(v), 3) in at
    ensures var f := at[WalkNode(k, r0, PathOf(v), 3)];
      IsTable(ram, f) && Walk(ram, r0, v) == Result(ram[f].entries[PathOf(v)[3]])
  {
    var path := PathOf(v);
    assert NodeOk(ram, at, k, spaces, WalkNode(k, r0, path, 3));
    assert r0 == k ==> r0 !in spaces;
    hide Forest, NodeOk;
    Arrives(ram, at, k, spaces, r0, path, 3);
  }

  /** Tables added first do not matter. */
  lemma PageSetAfter(ram0: Ram, ram: Ram, ram': Ram, k: Frame, spaces: set<Frame>, r0: Frame, v: nat, res: Option<Hit>)
    requires SameWalks(ram0, ram, k, spaces) && SlotsKept(ram0, ram, spaces)
    requires PageSet(ram, ram', k, spaces, r0, v, res)
    requires r0 == k || PathOf(v)[0] < 256
    ensures PageSet(ram0, ram', k, spaces, r0, v, res)
    ensures SlotsKept(ram, ram', spaces) ==> SlotsKept(ram0, ram', spaces)
  {}

  lemma ZeroEntry()
    ensures Result(0) == None
  {}

  /** `f` is an allocated frame, and neither a table nor mapped at a user page. */
  ghost predicate Fresh(at: map<Node, Frame>, leaf: map<Node, Frame>, free: set<Frame>, f: Frame) {
    Unused(at, f) && f !in free && 0 < f < MAX_PAGES && forall n :: n in leaf ==> leaf[n] != f
  }

  lemma StillData(ram0: Ram, ram: Ram, free: set<Frame>, f: Frame, i: nat, e: nat)
    requires DataKept(ram0, ram, free) && IsTable(ram, f) && i < 512
    ensures DataKept(ram0, Put(ram, f, i, e), free)
  {}

  /** `b` is what is left of `a` without the frames `gone`. */
  ghost predicate Less(a: set<Frame>, b: set<Frame>, gone: set<Frame>) { b + gone == a && b !! gone }

  /** The frame that mapping page `n` displaces: the one mapped there before, if any. */
  ghost function Displaced(leaf: map<Node, Frame>, n: Node): set<Frame> { if n in leaf then {leaf[n]} else {} }

  /** A fresh frame is mapped after tables were added. */
  lemma MappedFrames(at0: map<Node, Frame>, at: map<Node, Frame>, leaf: map<Node, Frame>, free0: set<Frame>,
                     free: set<Frame>, n: Node, f: Frame)
    requires free <= free0 && free + Owned(at, leaf, n.root) == free0 + Owned(at0, leaf, n.root)
    requires Exclusive(at0, leaf, free0) ==> Exclusive(at, leaf, free)
    requires Taken(at0, at, free0)
    ensures n !in leaf ==> free + Owned(at, leaf[n := f], n.root) == free0 + Owned(at0, leaf, n.root) + {f}
    ensures Exclusive(at0, leaf, free0) && Fresh(at0, leaf, free0, f) ==> Exclusive(at, leaf[n := f], free)
    ensures Exclusive(at0, leaf, free0) && Fresh(at0, leaf, free0, f) ==>
      Less(free0 + Owned(at0, leaf, n.root) + {f}, free + Owned(at, leaf[n := f], n.root), Displaced(leaf, n))
  {
    if n in leaf && Exclusive(at0, leaf, free0) && Fresh(at0, leaf, free0, f) {
      RemappedFrames(at, leaf, free, n, f);
    }
  }

  /** What was mapped at a page is neither free nor the space's any more when another frame is mapped there. */
  lemma RemappedFrames(at: map<Node, Frame>, leaf: map<Node, Frame>, free: set<Frame>, n: Node, f: Frame)
    requires Exclusive(at, leaf, free) && n in leaf && f != leaf[n]
    ensures Less(free + Owned(at, leaf, n.root) + {f}, free + Owned(at, leaf[n := f], n.root), {leaf[n]})
  {
    var g, leaf' := leaf[n], leaf[n := f];
    assert g !in Owned(at, leaf', n.root);
    assert Owned(at, leaf', n.root) + {g} == Owned(at, leaf, n.root) + {f};
  }

  // ---- New spaces ---------------------------------------------------------------------------------------------

  /** The user half of space `r` is empty, and its kernel half is the kernel's. */
  ghost predicate NewSpaceWalks(ram: Ram, k: Frame, r: Frame) {
    forall v: nat :: Walk(ram, r, v) == if PathOf(v)[0] < 256 then None else Walk(ram, k, v)
  }

  lemma ReadRoot(ram: Ram, at: map<Node, Frame>, k: Frame, spaces: set<Frame>)
    requires Forest(ram, at, k, spaces)
    ensures IsTable(ram, k)
  {}

  lemma NewSpace(ram: Ram, at: map<Node, Frame>, leaf: map<Node, Frame>, k: Frame, spaces: set<Frame>, free: set<Frame>,
                 r: Frame)
    requires Forest(ram, at, k, spaces) && Leaves(ram, at, leaf, spaces) && TablesUsed(at, free) && r in free
    requires 0 < r < MAX_PAGES
    requires IsTable(ram, k)
    ensures var ram' := ram[r := Table(seq(256, _ => 0) + ram[k].entries[256..])];
      var at', spaces', free' := at[Node(r, []) := r], spaces + {r}, free - {r};
      && r != k && r !in spaces
      && Forest(ram', at', k, spaces') && Leaves(ram', at', leaf, spaces') && TablesUsed(at', free')
      && Owned(at', leaf, r) == {r} && SameWalks(ram, ram', k, spaces) && DataKept(ram, ram', free) && Extends(at, at')
      && NewSpaceWalks(ram', k, r) && Inherits(ram, ram', k, r) && SlotsKept(ram, ram', spaces)
      && (forall n :: n in leaf ==> n.root != r)
      && (Exclusive(at, leaf, free) ==> Exclusive(at', leaf, free'))
  {
    hide Forest, Leaves, SameWalks, Lookup, NewSpaceWalks;
    var c := Table(seq(256, _ => 0) + ram[k].entries[256..]);
    var ram' := ram[r := c];
    NoNodes(ram, at, leaf, k, spaces, free, r);
    FrameWritten(ram, at, k, spaces, r, c);
    assert forall i :: 256 <= i < 512 ==> Get(ram', r, i) == Get(ram', k, i);
    assert forall i :: 0 <= i < 256 ==> Get(ram', r, i) == 0;
    assert forall f, i: nat :: f != r ==> Get(ram', f, i) == Get(ram, f, i);
    assert SlotsKept(ram, ram', spaces) && Inherits(ram, ram', k, r);
    hide Get;
    NewRootForest(ram', at, k, spaces, r);
    NewRootLeaves(ram, ram', at, leaf, k, spaces, r);
    NewRootWalks(ram', k, r);
    NewRootFrames(at, leaf, free, r);
    hide Owned, Exclusive;
  }

  /** A new space has no tables but its root, whose user half is empty. */
  lemma NewSpaceOpen(ram: Ram, at: map<Node, Frame>, leaf: map<Node, Frame>, k: Frame, spaces: set<Frame>,
                     free: set<Frame>, r: Frame)
    requires Forest(ram, at, k, spaces) && Leaves(ram, at, leaf, spaces) && TablesUsed(at, free) && r in free
    requires IsTable(ram, k)
    ensures var ram', at' := ram[r := Table(seq(256, _ => 0) + ram[k].entries[256..])], at[Node(r, []) := r];
      && Grew(ram, at, ram', at', k, r, true) && Open(ram', at', k, r, User) && Open(ram', at', k, r, Write)
  {
    var c := Table(seq(256, _ => 0) + ram[k].entries[256..]);
    var ram', at' := ram[r := c], at[Node(r, []) := r];
    NoNodes(ram, at, leaf, k, spaces, free, r);
    OtherFrames(ram, at, k, spaces, r, c);
    assert forall i :: 0 <= i < 256 ==> Get(ram', r, i) == 0;
    hide Forest, Leaves, TablesUsed, Get;
    forall n, i: nat | n in at' && OwnSlot(k, n, i) ensures SlotGrew(ram, at, ram', at', r, true, n, i) {
      if n == Node(r, []) { assert Get(ram', at'[n], i) == 0; }
    }
    forall n, i: nat, right | n in at' && n.root == r && OwnSlot(k, n, i) ensures OpenSlot(ram', at', n, i, right) {
      assert Get(ram', at'[n], i) == 0;
    }
  }

  lemma NewRootFrames(at: map<Node, Frame>, leaf: map<Node, Frame>, free: set<Frame>, r: Frame)
    requires (forall n :: n in at ==> n.root != r) && (forall n :: n in leaf ==> n.root != r) && r in free
    ensures Owned(at[Node(r, []) := r], leaf, r) == {r}
    ensures Exclusive(at, leaf, free) ==> Exclusive(at[Node(r, []) := r], leaf, free - {r})
  {}

  lemma NoNodes(ram: Ram, at: map<Node, Frame>, leaf: map<Node, Frame>, k: Frame, spaces: set<Frame>, free: set<Frame>,
                r: Frame)
    requires Forest(ram, at, k, spaces) && Leaves(ram, at, leaf, spaces) && TablesUsed(at, free) && r in free
    ensures r != k && r !in spaces && Unused(at, r)
    ensures (forall n :: n in at ==> n.root != r) && (forall n :: n in leaf ==> n.root != r)
  {}

  lemma NewRootWalks(ram: Ram, k: Frame, r: Frame)
    requires forall i :: 256 <= i < 512 ==> Get(ram, r, i) == Get(ram, k, i)
    requires forall i :: 0 <= i < 256 ==> Get(ram, r, i) == 0
    ensures NewSpaceWalks(ram, k, r)
  {}

  lemma NewRootForest(ram: Ram, at: map<Node, Frame>, k: Frame, spaces: set<Frame>, r: Frame)
    requires Forest(ram, at, k, spaces) && Unused(at, r) && r != k && r !in spaces && IsTable(ram, r)
    requires forall i :: 256 <= i < 512 ==> Get(ram, r, i) == Get(ram, k, i)
    requires forall i :: 0 <= i < 256 ==> Get(ram, r, i) == 0
    ensures Forest(ram, at[Node(r, []) := r], k, spaces + {r})
  {
    var at', spaces' := at[Node(r, []) := r], spaces + {r};
    RootFrames(ram, at, k, spaces);
    assert Node(r, []) !in at by { NoSuchRoot(ram, at, k, spaces, r); }
    assert Injective(at');
    assert Rooted(at', k, spaces');
    assert Shared(ram, k, spaces');
    hide Get, IsTable, Injective, Rooted, Shared, NodeOk, DownOk, Unused;
    forall n | n in at' ensures NodeOk(ram, at', k, spaces', n) {
      if n == Node(r, []) { NewRootNode(ram, at, k, spaces, r); } else { OldNode(ram, at, k, spaces, r, n); }
    }
    forall n, i | n in at' && |n.path| < 3 && 0 <= i < 512 ensures DownOk(ram, at', k, n, i) {
      if n == Node(r, []) { NewRootDown(ram, at, k, r, i); } else { OldDown(ram, at, k, r, n, i); }
    }
  }

  lemma NoSuchRoot(ram: Ram, at: map<Node, Frame>, k: Frame, spaces: set<Frame>, r: Frame)
    requires Forest(ram, at, k, spaces) && r != k && r !in spaces
    ensures Node(r, []) !in at
  {
    assert Node(r, []) in at ==> NodeOk(ram, at, k, spaces, Node(r, []));
  }

  lemma NewRootNode(ram: Ram, at: map<Node, Frame>, k: Frame, spaces: set<Frame>, r: Frame)
    requires IsTable(ram, r)
    ensures NodeOk(ram, at[Node(r, []) := r], k, spaces + {r}, Node(r, []))
  {}

  lemma OldNode(ram: Ram, at: map<Node, Frame>, k: Frame, spaces: set<Frame>, r: Frame, n: Node)
    requires n in at && NodeOk(ram, at, k, spaces, n) && Node(r, []) !in at && n != Node(r, [])
    ensures NodeOk(ram, at[Node(r, []) := r], k, spaces + {r}, n)
  {
    hide Get, IsTable;
  }

  lemma NewRootDown(ram: Ram, at: map<Node, Frame>, k: Frame, r: Frame, i: nat)
    requires Node(k, []) in at && at[Node(k, [])] == k && r != k && DownOk(ram, at, k, Node(k, []), i)
    requires Get(ram, r, i) == if i < 256 then 0 else Get(ram, k, i)
    ensures DownOk(ram, at[Node(r, []) := r], k, Node(r, []), i)
  {
    hide Get;
  }

  lemma OldDown(ram: Ram, at: map<Node, Frame>, k: Frame, r: Frame, n: Node, i: nat)
    requires n in at && n != Node(r, []) && Node(r, []) !in at && DownOk(ram, at, k, n, i)
    ensures DownOk(ram, at[Node(r, []) := r], k, n, i)
  {
    hide Get;
  }

  lemma NewRootLeaves(ram: Ram, ram': Ram, at: map<Node, Frame>, leaf: map<Node, Frame>, k: Frame, spaces: set<Frame>,
                      r: Frame)
    requires Leaves(ram, at, leaf, spaces) && Unused(at, r) && (forall n :: n in at ==> n.root != r)
    requires forall f, i: nat :: f != r ==> Get(ram', f, i) == Get(ram, f, i)
    ensures Leaves(ram', at[Node(r, []) := r], leaf, spaces + {r})
  {
    var at', spaces' := at[Node(r, []) := r], spaces + {r};
    hide Get, FrameOf, Present;
    forall n | n in leaf ensures LeafOk(ram', at', spaces', n, leaf[n]) { assert LeafOk(ram, at, spaces, n, leaf[n]); }
    forall n, i | n in at' && 0 <= i < 512 ensures SlotOk(ram', at', leaf, spaces', n, i) {
      assert n in at ==> SlotOk(ram, at, leaf, spaces, n, i);
    }
  }

  // ---- Tearing down ---------------------------------------------------------------------------------------------

  /** A table's frames are those below its slots, and its own. */
  lemma TableParts(ram: Ram, at: map<Node, Frame>, leaf: map<Node, Frame>, k: Frame, spaces: set<Frame>, n: Node,
                   limit: nat)
    requires Forest(ram, at, k, spaces) && Leaves(ram, at, leaf, spaces) && Exclusive(at, leaf, {})
    requires TablesUsed(at, {})
    requires n in at && n.root in spaces && limit == if n.path == [] then 256 else 512
    ensures var all := All(at, leaf);
      && IsTable(ram, at[n]) && 0 < at[n] < MAX_PAGES && FrameAddr(at[n])
      && Upto(all, n, 0) == {} && Below(all, n) == Upto(all, n, limit) + {at[n]} && at[n] !in Upto(all, n, limit)
  {
    var all := All(at, leaf);
    AllOk(ram, at, leaf, k, spaces, {});
    assert NodeOk(ram, at, k, spaces, n);
    PageAddr(at[n]);
    hide Forest, Leaves, Exclusive, All;
    UptoNone(all, n);
    UptoAll(all, n, limit);
    SlotsApart(all, n, limit);
  }

  /** The address of a frame names the frame. */
  ghost predicate FrameAddr(f: Frame) { f * PAGE % PAGE == 0 && f * PAGE < MAX_BYTES && f * PAGE / PAGE == f }

  /** One slot of a table: absent with nothing below, or leading to the node below it. */
  lemma SlotParts(ram: Ram, at: map<Node, Frame>, leaf: map<Node, Frame>, k: Frame, spaces: set<Frame>, n: Node, i: nat)
    requires Forest(ram, at, k, spaces) && Leaves(ram, at, leaf, spaces) && Exclusive(at, leaf, {})
    requires TablesUsed(at, {})
    requires n in at && n.root in spaces && |n.path| <= 3 && i < if n.path == [] then 256 else 512
    ensures IsTable(ram, at[n])
    ensures var all, e, c := All(at, leaf), ram[at[n]].entries[i], Slot(n, i);
      && Upto(all, n, i + 1) == Upto(all, n, i) + Below(all, c) && Upto(all, n, i) !! Below(all, c)
      && Below(all, c) <= Below(all, n)
      && (if !Present(e) then Below(all, c) == {}
          else if |n.path| == 3 then Below(all, c) == {FrameOf(e)} && FrameAddr(FrameOf(e))
          else !Large(e) && c in at && at[c] == FrameOf(e))
  {
    var all, c := All(at, leaf), Slot(n, i);
    AllOk(ram, at, leaf, k, spaces, {});
    SlotNode(ram, at, leaf, k, spaces, n, i);
    if |n.path| == 3 && c in leaf { PageAddr(leaf[c]); }
    hide Forest, Leaves, Exclusive, All, Get, Present, Large, FrameOf;
    UptoNext(all, n, i);
    SlotsApart(all, n, i);
    BelowPart(all, n, i);
    if c !in all {
      EmptySlot(all, n, i);
    } else if |n.path| == 3 {
      LeafBelow(all, c);
    }
  }

  lemma SlotNode(ram: Ram, at: map<Node, Frame>, leaf: map<Node, Frame>, k: Frame, spaces: set<Frame>, n: Node, i: nat)
    requires Forest(ram, at, k, spaces) && Leaves(ram, at, leaf, spaces)
    requires n in at && n.root in spaces && |n.path| <= 3 && i < if n.path == [] then 256 else 512
    ensures IsTable(ram, at[n])
    ensures var e, c := ram[at[n]].entries[i], Slot(n, i);
      if |n.path| == 3 then c !in at && (Present(e) <==> c in leaf) && (c in leaf ==> leaf[c] == FrameOf(e))
      else c !in leaf && (Present(e) <==> c in at) && (c in at ==> !Large(e) && at[c] == FrameOf(e))
  {
    var c := Slot(n, i);
    NotKernel(ram, at, k, spaces);
    assert NodeOk(ram, at, k, spaces, n);
    assert Parent(c) == n && LastOf(c) == i;
    assert c in at ==> NodeOk(ram, at, k, spaces, c);
    assert c in leaf ==> LeafOk(ram, at, spaces, c, leaf[c]);
    assert SlotOk(ram, at, leaf, spaces, n, i);
    assert |n.path| < 3 ==> DownOk(ram, at, k, n, i);
    assert Get(ram, at[n], i) == ram[at[n]].entries[i];
    hide Forest, Leaves, Get, Present, Large, FrameOf;
  }

  lemma RootsKnown(ram: Ram, at: map<Node, Frame>, k: Frame, spaces: set<Frame>, free: set<Frame>)
    requires Forest(ram, at, k, spaces) && TablesUsed(at, free)
    ensures k !in spaces && 0 !in spaces && forall r :: r in spaces ==> Node(r, []) in at && at[Node(r, [])] == r
  {}

  lemma FreeCount(pmm: PageAllocator, was: set<Frame>, more: set<Frame>)
    requires pmm.Valid() && pmm.pages == was + more && was !! more
    ensures pmm.free == |was| + |more|
  {}

  /** Before a space goes: its frames are used, and apart from everyone else's. */
  lemma DestroyParts(ram: Ram, at: map<Node, Frame>, leaf: map<Node, Frame>, k: Frame, spaces: set<Frame>,
                     free: set<Frame>, r: Frame)
    requires Forest(ram, at, k, spaces) && Leaves(ram, at, leaf, spaces) && Exclusive(at, leaf, free)
    requires TablesUsed(at, free)
    requires r in spaces && 0 !in free
    ensures Exclusive(at, leaf, {}) && TablesUsed(at, {}) && Owned(at, leaf, r) == Below(All(at, leaf), Node(r, []))
    ensures Owned(at, leaf, r) !! free
    ensures var at', leaf', free' := Without(at, r), Without(leaf, r), free + Owned(at, leaf, r);
      && Forest(ram, at', k, spaces - {r}) && Leaves(ram, at', leaf', spaces - {r})
      && TablesUsed(at', free') && Exclusive(at', leaf', free') && 0 !in free'
  {
    hide Forest, Leaves, All, Below, Owned, Exclusive, TablesUsed;
    SpaceGone(ram, at, leaf, k, spaces, r);
    OneFrame(ram, at, k, spaces);
    LeafNotTable(ram, at, leaf, k, spaces);
    OwnedIsBelow(at, leaf, r);
    OthersApart(at, leaf, free, r);
  }

  lemma LeafNotTable(ram: Ram, at: map<Node, Frame>, leaf: map<Node, Frame>, k: Frame, spaces: set<Frame>)
    requires Forest(ram, at, k, spaces) && Leaves(ram, at, leaf, spaces)
    ensures forall m :: m in leaf ==> m !in at
  {}

  lemma OthersApart(at: map<Node, Frame>, leaf: map<Node, Frame>, free: set<Frame>, r: Frame)
    requires Injective(at) && Exclusive(at, leaf, free) && TablesUsed(at, free) && 0 !in free
    ensures Owned(at, leaf, r) !! free && 0 !in Owned(at, leaf, r) && Exclusive(at, leaf, {}) && TablesUsed(at, {})
    ensures TablesUsed(Without(at, r), free + Owned(at, leaf, r))
    ensures Exclusive(Without(at, r), Without(leaf, r), free + Owned(at, leaf, r))
  {
    var at', leaf', o := Without(at, r), Without(leaf, r), Owned(at, leaf, r);
    forall n | n in at' ensures at'[n] !in o { }
    forall n | n in leaf' ensures leaf'[n] !in o { }
  }

  lemma LeavesKept(ram: Ram, at: map<Node, Frame>, leaf: map<Node, Frame>, spaces: set<Frame>, f: Frame, c: Contents)
    requires Leaves(ram, at, leaf, spaces) && Unused(at, f)
    ensures Leaves(ram[f := c], at, leaf, spaces)
  {
    var ram' := ram[f := c];
    assert forall n, i: nat :: n in at ==> Get(ram', at[n], i) == Get(ram, at[n], i);
    hide Get, Present, FrameOf;
    forall n | n in leaf ensures LeafOk(ram', at, spaces, n, leaf[n]) { assert LeafOk(ram, at, spaces, n, leaf[n]); }
    forall n, i | n in at && 0 <= i < 512
      ensures SlotOk(ram', at, leaf, spaces, n, i)
    {
      assert SlotOk(ram, at, leaf, spaces, n, i);
    }
  }
}
