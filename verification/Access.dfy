/** Access rights of an address: what all the entries of its walk grant together (section 4.6 of the Intel SDM,
    Volume 3A), and how mapping a page changes them (kernel/mem/vmm.c). */
module Access {
  import opened Machine
  import opened Paging

  datatype Right = User | Write

  /** An entry, or a set of flags, has the bit of the right. */
  predicate Grants(e: nat, right: Right) { if right.User? then UserAccess(e) else Writable(e) }

  /** Every entry that the walk visits, down to the page, is present and grants the right. */
  predicate Allows(ram: Ram, f: Frame, path: seq<nat>, d: nat, right: Right)
    requires |path| == 4 && d < 4
    decreases 4 - d
  {
    var e := Get(ram, f, path[d]);
    && Present(e) && Grants(e, right)
    && (d == 3 || (d >= 1 && Large(e)) || Allows(ram, FrameOf(e), path, d + 1, right))
  }

  /** The table entries on the way that are there grant the right; where the way ends, `missing` decides. */
  predicate WayAllows(ram: Ram, f: Frame, path: seq<nat>, d: nat, right: Right, missing: bool)
    requires |path| == 4 && d <= 3
    decreases 3 - d
  {
    d == 3 ||
    var e := Get(ram, f, path[d]);
    if !Present(e) then missing else Grants(e, right) && WayAllows(ram, FrameOf(e), path, d + 1, right, missing)
  }

  /** A right needs a mapping. */
  lemma {:induction false} AllowsMapped(ram: Ram, f: Frame, path: seq<nat>, d: nat, right: Right)
    requires |path| == 4 && d < 4 && Allows(ram, f, path, d, right)
    ensures Lookup(ram, f, path, d).Some? && Grants(Lookup(ram, f, path, d).value.entry, right)
    decreases 4 - d
  {
    var e := Get(ram, f, path[d]);
    if d < 3 && !(d >= 1 && Large(e)) { AllowsMapped(ram, FrameOf(e), path, d + 1, right); }
  }

  // ---- Tables that are added ------------------------------------------------------------------------------

  /** A slot of a space's own tables: the kernel half of a root is the kernel's. */
  predicate OwnSlot(k: Frame, n: Node, i: nat) {
    |n.path| < 3 && i < if n.path == [] && n.root != k then 256 else 512
  }

  /** Slot `i` of table `n` leads where it led; or it was absent, and leads, if anywhere, to a new table of
      space `r`, writable, and for user access if `user`. */
  ghost predicate SlotGrew(ram: Ram, at: map<Node, Frame>, ram': Ram, at': map<Node, Frame>, r: Frame, user: bool,
                           n: Node, i: nat)
    requires n in at'
  {
    var e' := Get(ram', at'[n], i);
    if n in at && Present(Get(ram, at[n], i)) then e' == Get(ram, at[n], i)
    else Present(e') ==> n.root == r && Writable(e') && (UserAccess(e') <==> user)
  }

  /** All that happened above the lowest level is that tables were added for space `r`. */
  ghost predicate Grew(ram: Ram, at: map<Node, Frame>, ram': Ram, at': map<Node, Frame>, k: Frame, r: Frame,
                       user: bool) {
    && (forall n :: n in at ==> n in at' && at'[n] == at[n])
    && (forall n, i: nat :: n in at' && OwnSlot(k, n, i) ==> SlotGrew(ram, at, ram', at', r, user, n, i))
  }

  lemma GrewTwice(ram: Ram, at: map<Node, Frame>, ram1: Ram, at1: map<Node, Frame>, ram2: Ram, at2: map<Node, Frame>,
                  k: Frame, r: Frame, user: bool)
    requires Grew(ram, at, ram1, at1, k, r, user) && Grew(ram1, at1, ram2, at2, k, r, user)
    ensures Grew(ram, at, ram2, at2, k, r, user)
  {
    hide Get, Present, Writable, UserAccess, OwnSlot;
    forall n, i: nat | n in at2 && OwnSlot(k, n, i) ensures SlotGrew(ram, at, ram2, at2, r, user, n, i) {
      assert SlotGrew(ram1, at1, ram2, at2, r, user, n, i);
      if n in at1 { assert SlotGrew(ram, at, ram1, at1, r, user, n, i); }
    }
  }

  /** Nothing above the lowest level changed. */
  lemma GrewNone(ram: Ram, ram': Ram, at: map<Node, Frame>, k: Frame, r: Frame, user: bool)
    requires forall n, i: nat :: n in at && |n.path| < 3 ==> Get(ram', at[n], i) == Get(ram, at[n], i)
    ensures Grew(ram, at, ram', at, k, r, user)
  {}

  /** One table is added. */
  lemma GrewTable(ram: Ram, at: map<Node, Frame>, k: Frame, spaces: set<Frame>, n: Node, i: nat, f: Frame, e: nat,
                  user: bool)
    requires CanGrow(ram, at, k, spaces, n, i, f, e) && Writable(e) && (UserAccess(e) <==> user)
    ensures Grew(ram, at, Grown(ram, at[n], i, f, e), at[Child(k, n, i) := f], k, n.root, user)
  {
    var c, ram' := Child(k, n, i), Grown(ram, at[n], i, f, e);
    var at' := at[c := f];
    NewChild(ram, at, k, spaces, n, i, f, e);
    GrownSlots(ram, at[n], i, f, e);
    assert Injective(at);
    hide Get, Grown, Forest, Writable, UserAccess, Large, FrameOf;
    forall m, j: nat | m in at' && OwnSlot(k, m, j) ensures SlotGrew(ram, at, ram', at', n.root, user, m, j) {
      if m != c { assert at[m] == at[n] ==> m == n; }
    }
  }

  // ---- The rights of a mapped page --------------------------------------------------------------------------

  /** The tables on the way down `path` from `r`. */
  lemma Way(ram: Ram, at: map<Node, Frame>, k: Frame, spaces: set<Frame>, r: Frame, path: seq<nat>, d: nat)
    requires Forest(ram, at, k, spaces) && IsRoot(k, spaces, r) && IsPath(path) && (r == k || path[0] < 256)
    requires d < 3 && WalkNode(k, r, path, d + 1) in at
    ensures WalkNode(k, r, path, d) in at && OwnSlot(k, WalkNode(k, r, path, d), path[d])
    ensures Leads(ram, at[WalkNode(k, r, path, d)], path[d], at[WalkNode(k, r, path, d + 1)])
  {
    var c := WalkNode(k, r, path, d + 1);
    assert NodeOk(ram, at, k, spaces, c);
    assert c.path[..d] == path[..d];
    assert Parent(c) == WalkNode(k, r, path, d) && LastOf(c) == path[d];
  }

  /** Below depth `d` of a way whose tables are all there: the page's entry and the entries on the way decide; those
      that were there before are as they were, and the new ones grant the right if `fresh`. */
  lemma {:induction false} WayDown(ram: Ram, at: map<Node, Frame>, ram': Ram, at': map<Node, Frame>, k: Frame,
                                   spaces: set<Frame>, r: Frame, user: bool, path: seq<nat>, right: Right, d: nat)
    requires Forest(ram, at, k, spaces) && Forest(ram', at', k, spaces) && Grew(ram, at, ram', at', k, r, user)
    requires IsRoot(k, spaces, r) && IsPath(path) && (r == k || path[0] < 256)
    requires d <= 3 && WalkNode(k, r, path, d) in at' && WalkNode(k, r, path, 3) in at'
    ensures var n, e := WalkNode(k, r, path, d), Get(ram', at'[WalkNode(k, r, path, 3)], path[3]);
      Allows(ram', at'[n], path, d, right) <==>
        && Present(e) && Grants(e, right)
        && if n in at then WayAllows(ram, at[n], path, d, right, right.Write? || user)
           else d == 3 || right.Write? || user
    decreases 3 - d
  {
    hide Forest, Grew, Get, Present, Writable, UserAccess, Large, FrameOf, WalkNode;
    if d < 3 {
      WayStep(ram, at, ram', at', k, spaces, r, user, path, d);
      WayDown(ram, at, ram', at', k, spaces, r, user, path, right, d + 1);
    }
  }

  /** One step of the way, before and after tables were added. */
  lemma WayStep(ram: Ram, at: map<Node, Frame>, ram': Ram, at': map<Node, Frame>, k: Frame, spaces: set<Frame>,
                r: Frame, user: bool, path: seq<nat>, d: nat)
    requires Forest(ram, at, k, spaces) && Forest(ram', at', k, spaces) && Grew(ram, at, ram', at', k, r, user)
    requires IsRoot(k, spaces, r) && IsPath(path) && (r == k || path[0] < 256)
    requires d < 3 && WalkNode(k, r, path, 3) in at'
    ensures WalkNode(k, r, path, d) in at' && WalkNode(k, r, path, d + 1) in at'
    ensures var n, c := WalkNode(k, r, path, d), WalkNode(k, r, path, d + 1);
      var e' := Get(ram', at'[n], path[d]);
      && Present(e') && !Large(e') && FrameOf(e') == at'[c]
      && if n in at && Present(Get(ram, at[n], path[d])) then
           e' == Get(ram, at[n], path[d]) && c in at && at[c] == at'[c]
         else c !in at && Writable(e') && (UserAccess(e') <==> user)
  {
    var n, c := WalkNode(k, r, path, d), WalkNode(k, r, path, d + 1);
    WayThere(ram', at', k, spaces, r, path, d + 1);
    Way(ram', at', k, spaces, r, path, d);
    assert SlotGrew(ram, at, ram', at', r, user, n, path[d]);
    if c in at { Way(ram, at, k, spaces, r, path, d); }
    if n in at && Present(Get(ram, at[n], path[d])) {
      assert DownOk(ram, at, k, n, path[d]);
      WalkChild(k, r, path, d);
    }
    hide Forest, Grew;
  }

  /** The tables above one that is there are there. */
  lemma {:induction false} WayThere(ram: Ram, at: map<Node, Frame>, k: Frame, spaces: set<Frame>, r: Frame,
                                    path: seq<nat>, d: nat)
    requires Forest(ram, at, k, spaces) && IsRoot(k, spaces, r) && IsPath(path) && (r == k || path[0] < 256)
    requires d <= 3 && WalkNode(k, r, path, 3) in at
    ensures WalkNode(k, r, path, d) in at
    decreases 3 - d
  {
    if d < 3 {
      WayThere(ram, at, k, spaces, r, path, d + 1);
      Way(ram, at, k, spaces, r, path, d);
    }
  }

  /** With the page's entry written, the page has exactly the rights that the entry and the way to it grant: the
      tables that were there as they were, and the new ones all. */
  lemma RightsOfPage(ram: Ram, at: map<Node, Frame>, ram': Ram, at': map<Node, Frame>, k: Frame, spaces: set<Frame>,
                     r: Frame, user: bool, path: seq<nat>, right: Right)
    requires Forest(ram, at, k, spaces) && Forest(ram', at', k, spaces) && Grew(ram, at, ram', at', k, r, user)
    requires IsRoot(k, spaces, r) && IsPath(path) && (r == k || path[0] < 256) && WalkNode(k, r, path, 3) in at'
    ensures var e := Get(ram', at'[WalkNode(k, r, path, 3)], path[3]);
      Allows(ram', r, path, 0, right) <==>
        Present(e) && Grants(e, right) && WayAllows(ram, r, path, 0, right, right.Write? || user)
  {
    RootFrames(ram, at, k, spaces);
    RootFrames(ram', at', k, spaces);
    hide Forest, Grew;
    WayDown(ram, at, ram', at', k, spaces, r, user, path, right, 0);
  }

  /** A page whose walk did not change has the rights that it had. */
  lemma RightsKept(ram: Ram, at: map<Node, Frame>, ram': Ram, at': map<Node, Frame>, k: Frame, spaces: set<Frame>,
                   r: Frame, user: bool, s: Frame, path: seq<nat>, right: Right)
    requires Forest(ram, at, k, spaces) && Grew(ram, at, ram', at', k, r, user)
    requires IsRoot(k, spaces, s) && IsPath(path)
    requires s in spaces && path[0] >= 256 ==> Get(ram', s, path[0]) == Get(ram, s, path[0])
    requires Lookup(ram', s, path, 0) == Lookup(ram, s, path, 0)
    ensures Allows(ram', s, path, 0, right) <==> Allows(ram, s, path, 0, right)
  {
    RootFrames(ram, at, k, spaces);
    hide Forest, Grew, Get, Lookup, Allows;
    if Allows(ram, s, path, 0, right) { AllowsMapped(ram, s, path, 0, right); }
    if Allows(ram', s, path, 0, right) { AllowsMapped(ram', s, path, 0, right); }
    if Lookup(ram, s, path, 0).Some? { SameAllows(ram, at, ram', at', k, spaces, r, user, s, path, right, 0); }
  }

  lemma {:induction false} SameAllows(ram: Ram, at: map<Node, Frame>, ram': Ram, at': map<Node, Frame>, k: Frame,
                                      spaces: set<Frame>, r: Frame, user: bool, s: Frame, path: seq<nat>,
                                      right: Right, d: nat)
    requires Forest(ram, at, k, spaces) && Grew(ram, at, ram', at', k, r, user) && IsRoot(k, spaces, s) && IsPath(path)
    requires s in spaces && path[0] >= 256 ==> Get(ram', s, path[0]) == Get(ram, s, path[0])
    requires d < 4 && WalkNode(k, s, path, d) in at
    requires var f := at[WalkNode(k, s, path, d)];
      Lookup(ram', f, path, d) == Lookup(ram, f, path, d) && Lookup(ram, f, path, d).Some?
    ensures var f := at[WalkNode(k, s, path, d)]; Allows(ram', f, path, d, right) <==> Allows(ram, f, path, d, right)
    decreases 4 - d
  {
    SameStep(ram, at, ram', at', k, spaces, r, user, s, path, d);
    var f := at[WalkNode(k, s, path, d)];
    OneStep(ram, f, path, d, right);
    OneStep(ram', f, path, d, right);
    hide Forest, Grew, Get, WalkNode, Present, Large, FrameOf, Grants, IsPath, IsRoot, Lookup, Allows;
    if d < 3 && !(d >= 1 && Large(Get(ram, f, path[d]))) {
      SameAllows(ram, at, ram', at', k, spaces, r, user, s, path, right, d + 1);
    }
  }

  /** A walk and its rights, one step down. */
  lemma OneStep(ram: Ram, f: Frame, path: seq<nat>, d: nat, right: Right)
    requires |path| == 4 && d < 4
    ensures var e := Get(ram, f, path[d]);
      Lookup(ram, f, path, d).Some? ==>
        && Present(e)
        && if d == 3 || (d >= 1 && Large(e)) then
             Lookup(ram, f, path, d) == Some(Hit(e, 4 - d)) && (Allows(ram, f, path, d, right) <==> Grants(e, right))
           else
             && Lookup(ram, f, path, d) == Lookup(ram, FrameOf(e), path, d + 1)
             && (Allows(ram, f, path, d, right) <==> Grants(e, right) && Allows(ram, FrameOf(e), path, d + 1, right))
  {}

  lemma SameStep(ram: Ram, at: map<Node, Frame>, ram': Ram, at': map<Node, Frame>, k: Frame, spaces: set<Frame>,
                 r: Frame, user: bool, s: Frame, path: seq<nat>, d: nat)
    requires Forest(ram, at, k, spaces) && Grew(ram, at, ram', at', k, r, user) && IsRoot(k, spaces, s) && IsPath(path)
    requires s in spaces && path[0] >= 256 ==> Get(ram', s, path[0]) == Get(ram, s, path[0])
    requires d < 4 && WalkNode(k, s, path, d) in at
    ensures var n := WalkNode(k, s, path, d);
      var e := Get(ram, at[n], path[d]);
      && (d < 3 && Present(e) ==> Get(ram', at[n], path[d]) == e)
      && (d < 3 && Present(e) && !(d >= 1 && Large(e)) ==>
            WalkNode(k, s, path, d + 1) in at && at[WalkNode(k, s, path, d + 1)] == FrameOf(e))
  {
    var n := WalkNode(k, s, path, d);
    RootFrames(ram, at, k, spaces);
    if d < 3 {
      assert OwnSlot(k, n, path[d]) ==> SlotGrew(ram, at, ram', at', r, user, n, path[d]);
      assert DownOk(ram, at, k, n, path[d]);
      WalkChild(k, s, path, d);
    }
  }

  // ---- Spaces whose tables grant a right ------------------------------------------------------------------------

  /** All entries of space `r` that lead to tables of its own grant the right. */
  ghost predicate Open(ram: Ram, at: map<Node, Frame>, k: Frame, r: Frame, right: Right) {
    forall n, i: nat :: n in at && n.root == r && OwnSlot(k, n, i) ==> OpenSlot(ram, at, n, i, right)
  }

  ghost predicate OpenSlot(ram: Ram, at: map<Node, Frame>, n: Node, i: nat, right: Right)
    requires n in at
  {
    Present(Get(ram, at[n], i)) ==> Grants(Get(ram, at[n], i), right)
  }

  /** It stays so, unless a table without user access is added to it. */
  lemma StaysOpen(ram: Ram, at: map<Node, Frame>, ram': Ram, at': map<Node, Frame>, k: Frame, r: Frame, user: bool,
                  s: Frame, right: Right)
    requires Grew(ram, at, ram', at', k, r, user) && Open(ram, at, k, s, right)
    requires right.Write? || user || s != r
    ensures Open(ram', at', k, s, right)
  {
    hide Get, Present, Writable, UserAccess, OwnSlot;
    forall n, i: nat | n in at' && n.root == s && OwnSlot(k, n, i) ensures OpenSlot(ram', at', n, i, right) {
      assert SlotGrew(ram, at, ram', at', r, user, n, i);
      if n in at { assert OpenSlot(ram, at, n, i, right); }
    }
  }

  /** In such a space the entry of a user page alone decides. */
  lemma OpenRights(ram: Ram, at: map<Node, Frame>, k: Frame, spaces: set<Frame>, r: Frame, path: seq<nat>, right: Right)
    requires Forest(ram, at, k, spaces) && r in spaces && IsPath(path) && path[0] < 256 && Open(ram, at, k, r, right)
    ensures Allows(ram, r, path, 0, right) <==>
      Lookup(ram, r, path, 0).Some? && Grants(Lookup(ram, r, path, 0).value.entry, right)
  {
    RootFrames(ram, at, k, spaces);
    hide Forest, Open;
    OpenFrom(ram, at, k, spaces, r, path, right, 0);
  }

  lemma {:induction false} OpenFrom(ram: Ram, at: map<Node, Frame>, k: Frame, spaces: set<Frame>, r: Frame,
                                    path: seq<nat>, right: Right, d: nat)
    requires Forest(ram, at, k, spaces) && r in spaces && IsPath(path) && path[0] < 256 && Open(ram, at, k, r, right)
    requires d < 4 && WalkNode(k, r, path, d) in at
    ensures var f := at[WalkNode(k, r, path, d)];
      Allows(ram, f, path, d, right) <==>
        Lookup(ram, f, path, d).Some? && Grants(Lookup(ram, f, path, d).value.entry, right)
    decreases 4 - d
  {
    OpenStep(ram, at, k, spaces, r, path, right, d);
    hide Forest, Open, Get, WalkNode, Present, Large, FrameOf, UserAccess, Writable;
    if d < 3 && Present(Get(ram, at[WalkNode(k, r, path, d)], path[d])) {
      OpenFrom(ram, at, k, spaces, r, path, right, d + 1);
    }
  }

  lemma OpenStep(ram: Ram, at: map<Node, Frame>, k: Frame, spaces: set<Frame>, r: Frame, path: seq<nat>, right: Right,
                 d: nat)
    requires Forest(ram, at, k, spaces) && r in spaces && IsPath(path) && path[0] < 256 && Open(ram, at, k, r, right)
    requires d < 4 && WalkNode(k, r, path, d) in at
    ensures var e := Get(ram, at[WalkNode(k, r, path, d)], path[d]);
      d < 3 && Present(e) ==>
        && Grants(e, right) && !Large(e)
        && WalkNode(k, r, path, d + 1) in at && at[WalkNode(k, r, path, d + 1)] == FrameOf(e)
  {
    var n := WalkNode(k, r, path, d);
    if d < 3 {
      assert OwnSlot(k, n, path[d]) && n.root == r && OpenSlot(ram, at, n, path[d], right);
      assert DownOk(ram, at, k, n, path[d]);
      WalkChild(k, r, path, d);
      assert k !in spaces;
    }
  }
}
