/** The frames of an address space as a tree: what hangs below each table, and that nothing is counted
    twice (kernel/mem/vmm.c, vmm_space_destroy). */
module Teardown {
  import opened Paging

  /** Tables and mapped pages together, by the indices that lead to them. */
  ghost function All(at: map<Node, Frame>, leaf: map<Node, Frame>): map<Node, Frame> { at + leaf }

  ghost predicate ParentClosed(all: map<Node, Frame>) { forall m :: m in all && m.path != [] ==> Parent(m) in all }

  /** The frames at and below a node. */
  ghost function Below(all: map<Node, Frame>, n: Node): set<Frame> {
    set m | m in all && m.root == n.root && n.path <= m.path :: all[m]
  }

  /** The frames below slots 0 to i-1 of a table. */
  ghost function Upto(all: map<Node, Frame>, n: Node, i: nat): set<Frame> {
    set m | m in all && m.root == n.root && n.path < m.path && m.path[|n.path|] < i :: all[m]
  }

  function Slot(n: Node, i: nat): Node { Node(n.root, n.path + [i]) }

  lemma {:induction false} Ancestor(all: map<Node, Frame>, m: Node, d: nat)
    requires ParentClosed(all) && m in all && d <= |m.path|
    ensures Node(m.root, m.path[..d]) in all
    decreases |m.path|
  {
    if d == |m.path| {
      assert m.path[..d] == m.path;
    } else {
      Ancestor(all, Parent(m), d);
      assert Parent(m).path[..d] == m.path[..d];
    }
  }

  /** Nothing hangs below a slot that has no node. */
  lemma EmptySlot(all: map<Node, Frame>, n: Node, i: nat)
    requires ParentClosed(all) && Slot(n, i) !in all
    ensures Below(all, Slot(n, i)) == {}
  {
    forall m | m in all && m.root == n.root && n.path + [i] <= m.path ensures false {
      assert m.path[..|n.path| + 1] == n.path + [i];
      Ancestor(all, m, |n.path| + 1);
    }
  }

  lemma UptoNext(all: map<Node, Frame>, n: Node, i: nat)
    ensures Upto(all, n, i + 1) == Upto(all, n, i) + Below(all, Slot(n, i))
  {}

  lemma UptoNone(all: map<Node, Frame>, n: Node)
    ensures Upto(all, n, 0) == {}
  {}

  lemma UptoAll(all: map<Node, Frame>, n: Node, limit: nat)
    requires n in all && forall m :: m in all && m.root == n.root && n.path < m.path ==> m.path[|n.path|] < limit
    ensures Below(all, n) == Upto(all, n, limit) + {all[n]}
  {
    forall m | m in all && m.root == n.root && n.path <= m.path && m != n
      ensures n.path < m.path
    {
      assert m.path != n.path;
    }
  }

  /** Frames below one slot are apart from those below earlier slots, and from the table itself. */
  lemma SlotsApart(all: map<Node, Frame>, n: Node, i: nat)
    requires Injective(all) && n in all
    ensures Upto(all, n, i) !! Below(all, Slot(n, i)) && all[n] !in Upto(all, n, i) && all[n] !in Below(all, Slot(n, i))
  {}

  lemma BelowPart(all: map<Node, Frame>, n: Node, i: nat)
    ensures Upto(all, n, i) <= Below(all, n) && Below(all, Slot(n, i)) <= Below(all, n)
  {}

  lemma LeafBelow(all: map<Node, Frame>, n: Node)
    requires n in all && |n.path| == 4 && forall m :: m in all ==> |m.path| <= 4
    ensures Below(all, n) == {all[n]}
  {
    forall m | m in all && m.root == n.root && n.path <= m.path ensures m == n {}
  }

  // ---- A well-formed space --------------------------------------------------------------------------------

  /** Everything that the forest says about the combined tree. */
  lemma AllOk(ram: Ram, at: map<Node, Frame>, leaf: map<Node, Frame>, k: Frame, spaces: set<Frame>, free: set<Frame>)
    requires Forest(ram, at, k, spaces) && Leaves(ram, at, leaf, spaces) && Exclusive(at, leaf, free)
    ensures var all := All(at, leaf);
      && ParentClosed(all) && Injective(all)
      && (forall m :: m in all ==> |m.path| <= 4 && forall d :: 0 <= d < |m.path| ==> m.path[d] < 512)
      && (forall m :: m in all && m.root in spaces && m.path != [] ==> m.path[0] < 256)
      && (forall m :: m in at ==> m in all && all[m] == at[m])
      && (forall m :: m in leaf ==> m in all && all[m] == leaf[m])
      && (forall m :: m in all && |m.path| == 4 ==> m in leaf) && (forall m :: m in all && |m.path| < 4 ==> m in at)
  {
    hide Forest, Leaves, Injective, Exclusive;
    NotKernel(ram, at, k, spaces);
    OneFrame(ram, at, k, spaces);
    BothInjective(at, leaf, free);
    forall m | m in at
      ensures |m.path| <= 3 && (forall d :: 0 <= d < |m.path| ==> m.path[d] < 512)
      ensures m.path != [] ==> Parent(m) in at && (m.root in spaces ==> m.path[0] < 256)
    {
      TableNode(ram, at, k, spaces, m);
    }
    forall m | m in leaf
      ensures |m.path| == 4 && (forall d :: 0 <= d < |m.path| ==> m.path[d] < 512) && Parent(m) in at && m.path[0] < 256
    {
      LeafNode(ram, at, leaf, spaces, m);
    }
  }

  lemma TableNode(ram: Ram, at: map<Node, Frame>, k: Frame, spaces: set<Frame>, m: Node)
    requires Forest(ram, at, k, spaces) && m in at
    ensures |m.path| <= 3 && (forall d :: 0 <= d < |m.path| ==> m.path[d] < 512)
    ensures m.path != [] ==> Parent(m) in at && (m.root in spaces ==> m.path[0] < 256)
  {}

  lemma LeafNode(ram: Ram, at: map<Node, Frame>, leaf: map<Node, Frame>, spaces: set<Frame>, m: Node)
    requires Leaves(ram, at, leaf, spaces) && m in leaf
    ensures |m.path| == 4 && (forall d :: 0 <= d < |m.path| ==> m.path[d] < 512) && Parent(m) in at && m.path[0] < 256
  {}

  lemma BothInjective(at: map<Node, Frame>, leaf: map<Node, Frame>, free: set<Frame>)
    requires Injective(at) && Exclusive(at, leaf, free)
    ensures Injective(All(at, leaf))
  {}

  lemma NotKernel(ram: Ram, at: map<Node, Frame>, k: Frame, spaces: set<Frame>)
    requires Forest(ram, at, k, spaces)
    ensures k !in spaces
  {}

  lemma OneFrame(ram: Ram, at: map<Node, Frame>, k: Frame, spaces: set<Frame>)
    requires Forest(ram, at, k, spaces)
    ensures Injective(at)
  {}

  lemma OwnedIsBelow(at: map<Node, Frame>, leaf: map<Node, Frame>, r: Frame)
    requires forall m :: m in leaf ==> m !in at
    ensures Owned(at, leaf, r) == Below(All(at, leaf), Node(r, []))
  {}

  // ---- Removing a space -------------------------------------------------------------------------------------

  ghost function Without(m: map<Node, Frame>, r: Frame): (m': map<Node, Frame>)
    ensures forall n :: n in m' ==> n in m && m'[n] == m[n] && n.root != r
  {
    map n | n in m && n.root != r :: m[n]
  }

  lemma SpaceGone(ram: Ram, at: map<Node, Frame>, leaf: map<Node, Frame>, k: Frame, spaces: set<Frame>, r: Frame)
    requires Forest(ram, at, k, spaces) && Leaves(ram, at, leaf, spaces) && r in spaces
    ensures Forest(ram, Without(at, r), k, spaces - {r}) && Leaves(ram, Without(at, r), Without(leaf, r), spaces - {r})
  {
    hide Forest, Leaves, Without;
    ForestGone(ram, at, k, spaces, r);
    LeavesGone(ram, at, leaf, k, spaces, r);
  }

  lemma ForestGone(ram: Ram, at: map<Node, Frame>, k: Frame, spaces: set<Frame>, r: Frame)
    requires Forest(ram, at, k, spaces) && r in spaces
    ensures Forest(ram, Without(at, r), k, spaces - {r})
  {
    var at', spaces' := Without(at, r), spaces - {r};
    assert Injective(at') by { OneFrame(ram, at, k, spaces); }
    assert Rooted(at', k, spaces');
    hide NodeOk, DownOk, Injective, Rooted, Without;
    forall n | n in at' ensures NodeOk(ram, at', k, spaces', n) { NodeKept(ram, at, k, spaces, r, n); }
    forall n, i | n in at' && |n.path| < 3 && 0 <= i < 512
      ensures DownOk(ram, at', k, n, i)
    {
      DownKept(ram, at, k, spaces, r, n, i);
    }
  }

  lemma NodeKept(ram: Ram, at: map<Node, Frame>, k: Frame, spaces: set<Frame>, r: Frame, n: Node)
    requires n in Without(at, r) && n in at && NodeOk(ram, at, k, spaces, n)
    ensures NodeOk(ram, Without(at, r), k, spaces - {r}, n)
  {}

  lemma DownKept(ram: Ram, at: map<Node, Frame>, k: Frame, spaces: set<Frame>, r: Frame, n: Node, i: nat)
    requires n in Without(at, r) && n in at && DownOk(ram, at, k, n, i) && r != k
    ensures DownOk(ram, Without(at, r), k, n, i)
  {}

  lemma LeavesGone(ram: Ram, at: map<Node, Frame>, leaf: map<Node, Frame>, k: Frame, spaces: set<Frame>, r: Frame)
    requires Leaves(ram, at, leaf, spaces)
    ensures Leaves(ram, Without(at, r), Without(leaf, r), spaces - {r})
  {
    var at', leaf', spaces' := Without(at, r), Without(leaf, r), spaces - {r};
    hide Get, FrameOf, Present;
    forall n | n in leaf' ensures LeafOk(ram, at', spaces', n, leaf'[n]) { assert LeafOk(ram, at, spaces, n, leaf[n]); }
    forall n, i | n in at' && 0 <= i < 512
      ensures SlotOk(ram, at', leaf', spaces', n, i)
    {
      assert SlotOk(ram, at, leaf, spaces, n, i);
    }
  }
}
