/** The mounted ext2 volume: superblock counters, group descriptors with their bitmaps,
    the inode table and the data blocks (kernel/fs/ext2.c). */
module Ext2Volume {
  import opened Machine
  import opened Bytes
  import opened Ext2Map

  datatype Geometry = Geometry(
    blockSize: nat,         // 1024 << s_log_block_size
    blocksPerGroup: nat,
    inodesPerGroup: nat,
    firstDataBlock: nat,
    blocksCount: nat,
    inodesCount: nat)
  {
    predicate Ok() {
      && blockSize in {1024, 2048, 4096}
      && 0 < blocksPerGroup < U16 && 0 < inodesPerGroup < U16
      && 0 < blocksCount && 0 < inodesCount < U32
      && NumGroups() * inodesPerGroup >= inodesCount
      && firstDataBlock + NumGroups() * blocksPerGroup < U32
    }

    function NumGroups(): nat
      requires 0 < blocksPerGroup
    {
      (blocksCount + blocksPerGroup - 1) / blocksPerGroup
    }

    /** How many bits alloc_block scans in group `g`. */
    function BlocksInGroup(g: nat): int {
      if (g + 1) * blocksPerGroup > blocksCount then blocksCount - g * blocksPerGroup else blocksPerGroup
    }

    /** Number of 32-bit block pointers in one block. */
    function Ptrs(): nat { blockSize / 4 }

    function BlockNo(g: nat, bit: nat): nat { g * blocksPerGroup + firstDataBlock + bit }
    function InodeNo(g: nat, bit: nat): nat { g * inodesPerGroup + bit + 1 }
  }

  datatype Group = Group(bbits: seq<bool>, freeBlocks: nat, ibits: seq<bool>, freeInodes: nat)

  const NO_BLOCKS: seq<nat> := seq(15, _ => 0)
  const NO_INODE: Inode := Inode(0, 0, 0, NO_BLOCKS)

  // ---- Bitmaps and counters ---------------------------------------------------

  ghost function Clear(bm: seq<bool>): set<nat> {
    set i: nat | i < |bm| && !bm[i]
  }

  ghost function SumFreeBlocks(gs: seq<Group>): nat {
    if gs == [] then 0 else gs[0].freeBlocks + SumFreeBlocks(gs[1..])
  }

  ghost function SumFreeInodes(gs: seq<Group>): nat {
    if gs == [] then 0 else gs[0].freeInodes + SumFreeInodes(gs[1..])
  }

  lemma {:induction false} SumFreeUpdate(gs: seq<Group>, g: nat, x: Group)
    requires g < |gs|
    ensures SumFreeBlocks(gs[g := x]) == SumFreeBlocks(gs) - gs[g].freeBlocks + x.freeBlocks
    ensures SumFreeInodes(gs[g := x]) == SumFreeInodes(gs) - gs[g].freeInodes + x.freeInodes
  {
    if g == 0 {
      assert gs[g := x][1..] == gs[1..];
    } else {
      assert gs[g := x][1..] == gs[1..][g - 1 := x];
      SumFreeUpdate(gs[1..], g - 1, x);
    }
  }

  lemma {:induction false} SumFreeAtLeast(gs: seq<Group>, g: nat)
    requires g < |gs|
    ensures SumFreeBlocks(gs) >= gs[g].freeBlocks && SumFreeInodes(gs) >= gs[g].freeInodes
  {
    if g > 0 { SumFreeAtLeast(gs[1..], g - 1); }
  }

  lemma {:induction false} SumFreeZero(gs: seq<Group>)
    ensures (forall g :: 0 <= g < |gs| ==> gs[g].freeBlocks == 0) ==> SumFreeBlocks(gs) == 0
    ensures (forall g :: 0 <= g < |gs| ==> gs[g].freeInodes == 0) ==> SumFreeInodes(gs) == 0
  {
    if gs != [] { SumFreeZero(gs[1..]); }
  }

  lemma ClearSet(bm: seq<bool>, i: nat)
    requires i < |bm| && !bm[i]
    ensures Clear(bm[i := true]) == Clear(bm) - {i}
    ensures |Clear(bm[i := true])| == |Clear(bm)| - 1
  {}

  lemma ClearReset(bm: seq<bool>, i: nat)
    requires i < |bm| && bm[i]
    ensures Clear(bm[i := false]) == Clear(bm) + {i}
    ensures |Clear(bm[i := false])| == |Clear(bm)| + 1
  {}

  // ---- The volume ---------------------------------------------------------------

  /** Decoding of a block number by free_block. */
  function GroupOf(geo: Geometry, b: nat): nat
    requires 0 < geo.blocksPerGroup && geo.firstDataBlock <= b
  {
    (b - geo.firstDataBlock) / geo.blocksPerGroup
  }

  function BitOf(geo: Geometry, b: nat): (bit: nat)
    requires 0 < geo.blocksPerGroup && geo.firstDataBlock <= b
    ensures bit < geo.blocksPerGroup
  {
    (b - geo.firstDataBlock) % geo.blocksPerGroup
  }

  function InodeGroupOf(geo: Geometry, ino: nat): nat
    requires 0 < geo.inodesPerGroup && 0 < ino
  {
    (ino - 1) / geo.inodesPerGroup
  }

  function InodeBitOf(geo: Geometry, ino: nat): (bit: nat)
    requires 0 < geo.inodesPerGroup && 0 < ino
    ensures bit < geo.inodesPerGroup
  {
    (ino - 1) % geo.inodesPerGroup
  }

  /** free_block's (group, bit) decoding inverts alloc_block's numbering, and conversely. */
  lemma BlockNumbering(geo: Geometry, g: nat, bit: nat, b: nat)
    requires 0 < geo.blocksPerGroup
    ensures bit < geo.blocksPerGroup ==>
      && geo.firstDataBlock <= geo.BlockNo(g, bit)
      && GroupOf(geo, geo.BlockNo(g, bit)) == g && BitOf(geo, geo.BlockNo(g, bit)) == bit
    ensures geo.firstDataBlock <= b ==> geo.BlockNo(GroupOf(geo, b), BitOf(geo, b)) == b
  {
    if bit < geo.blocksPerGroup {
      DivModUnique(geo.blocksPerGroup, g, bit);
    }
  }

  /** The groups divide up the blocks: each has a block, at most the regular number, and the numbers of all of them
      are the `blocksCount` ones from `firstDataBlock` on. */
  lemma GroupsCoverVolume(geo: Geometry, b: nat)
    requires 0 < geo.blocksPerGroup && geo.firstDataBlock <= b
    ensures b < geo.firstDataBlock + geo.blocksCount <==>
      GroupOf(geo, b) < geo.NumGroups() && BitOf(geo, b) < geo.BlocksInGroup(GroupOf(geo, b))
    ensures forall g: nat :: g < geo.NumGroups() ==> 0 < geo.BlocksInGroup(g) <= geo.blocksPerGroup
  {
    var n, k := geo.blocksPerGroup, geo.blocksCount;
    var g, bit, x := GroupOf(geo, b), BitOf(geo, b), b - geo.firstDataBlock;
    BlockNumbering(geo, g, bit, b);
    assert x == g * n + bit;
    GroupsEnd(k, n, g);
    forall h: nat | h < geo.NumGroups() ensures 0 < geo.BlocksInGroup(h) <= n { GroupsEnd(k, n, h); }
  }

  lemma GroupsEnd(k: nat, n: nat, g: nat)
    requires n > 0
    ensures g < (k + n - 1) / n <==> g * n < k
    ensures (g + 1) * n == g * n + n
  {
    var q, r := (k + n - 1) / n, (k + n - 1) % n;
    assert k + n - 1 == q * n + r;
    if g < q { MulMonotone(g + 1, q, n); } else { MulMonotone(q, g, n); }
  }

  /** free_inode's decoding inverts alloc_inode's numbering, and conversely. */
  lemma InodeNumbering(geo: Geometry, g: nat, bit: nat, ino: nat)
    requires 0 < geo.inodesPerGroup
    ensures bit < geo.inodesPerGroup ==>
      InodeGroupOf(geo, geo.InodeNo(g, bit)) == g && InodeBitOf(geo, geo.InodeNo(g, bit)) == bit
    ensures 0 < ino ==> geo.InodeNo(InodeGroupOf(geo, ino), InodeBitOf(geo, ino)) == ino
  {
    if bit < geo.inodesPerGroup {
      DivModUnique(geo.inodesPerGroup, g, bit);
    }
  }

  /** Sizes of the bitmaps, and padding bits set as mkfs leaves them. */
  ghost predicate BitmapsOk(geo: Geometry, gs: seq<Group>)
    requires 0 < geo.blocksPerGroup
  {
    && 0 < geo.inodesPerGroup
    && |gs| == geo.NumGroups()
    && (forall g :: 0 <= g < |gs| ==> |gs[g].bbits| == geo.blocksPerGroup)
    && (forall g :: 0 <= g < |gs| ==> |gs[g].ibits| == geo.inodesPerGroup)
    && (forall g, i :: 0 <= g < |gs| && 0 <= i < geo.blocksPerGroup && !gs[g].bbits[i] ==> BlockBitOk(geo, g, i))
    && (forall g, i :: 0 <= g < |gs| && 0 <= i < geo.inodesPerGroup && !gs[g].ibits[i] ==> InodeBitOk(geo, g, i))
  }

  /** A bit that may be clear: alloc_block reaches it and it names a block of the volume. */
  ghost predicate BlockBitOk(geo: Geometry, g: nat, i: nat) {
    i < geo.BlocksInGroup(g) && 0 < geo.BlockNo(g, i) < geo.blocksCount
  }

  ghost predicate InodeBitOk(geo: Geometry, g: nat, i: nat) {
    1 < geo.InodeNo(g, i) <= geo.inodesCount
  }

  /** The three levels of counters agree: bits, group descriptors, superblock. */
  ghost predicate CountsOk(gs: seq<Group>, freeBlocks: nat, freeInodes: nat) {
    && (forall g :: 0 <= g < |gs| ==> gs[g].freeBlocks == |Clear(gs[g].bbits)|)
    && (forall g :: 0 <= g < |gs| ==> gs[g].freeInodes == |Clear(gs[g].ibits)|)
    && freeBlocks == SumFreeBlocks(gs)
    && freeInodes == SumFreeInodes(gs)
  }

  ghost predicate BlockMarked(geo: Geometry, gs: seq<Group>, b: nat)
    requires 0 < geo.blocksPerGroup && BitmapsOk(geo, gs)
  {
    geo.firstDataBlock <= b && GroupOf(geo, b) < |gs| && gs[GroupOf(geo, b)].bbits[BitOf(geo, b)]
  }

  ghost predicate InodeMarked(geo: Geometry, gs: seq<Group>, ino: nat)
    requires 0 < geo.blocksPerGroup && BitmapsOk(geo, gs)
  {
    && 0 < ino && InodeGroupOf(geo, ino) < |gs|
    && gs[InodeGroupOf(geo, ino)].ibits[InodeBitOf(geo, ino)]
  }

  /** Blocks whose bit is set. */
  ghost function UsedIn(geo: Geometry, gs: seq<Group>): set<nat>
    requires 0 < geo.blocksPerGroup && BitmapsOk(geo, gs)
  {
    set b: nat | b < geo.BlockNo(|gs|, 0) && BlockMarked(geo, gs, b)
  }

  /** Inodes whose bit is set. */
  ghost function LiveIn(geo: Geometry, gs: seq<Group>): set<nat>
    requires 0 < geo.blocksPerGroup && BitmapsOk(geo, gs)
  {
    set k: nat | k < geo.InodeNo(|gs|, 0) && InodeMarked(geo, gs, k)
  }

  lemma BlockNoBound(geo: Geometry, g: nat, bit: nat, n: nat)
    requires g < n && bit < geo.blocksPerGroup
    ensures geo.BlockNo(g, bit) < geo.BlockNo(n, 0)
  {
    MulMonotone(g + 1, n, geo.blocksPerGroup);
  }

  lemma InodeNoBound(geo: Geometry, g: nat, bit: nat, n: nat)
    requires g < n && bit < geo.inodesPerGroup
    ensures geo.InodeNo(g, bit) < geo.InodeNo(n, 0)
  {
    MulMonotone(g + 1, n, geo.inodesPerGroup);
  }

  /** Block and inode numbers of the volume lie in its groups. */
  lemma GroupInRange(geo: Geometry, b: nat)
    requires geo.Ok() && geo.firstDataBlock <= b < geo.blocksCount
    ensures GroupOf(geo, b) < geo.NumGroups() && b < geo.BlockNo(geo.NumGroups(), 0)
  {
    var n, per := geo.NumGroups(), geo.blocksPerGroup;
    assert n * per >= geo.blocksCount;
    if GroupOf(geo, b) >= n { MulMonotone(n, GroupOf(geo, b), per); }
  }

  lemma InodeGroupInRange(geo: Geometry, ino: nat)
    requires geo.Ok() && 0 < ino <= geo.inodesCount
    ensures InodeGroupOf(geo, ino) < geo.NumGroups() && ino < geo.InodeNo(geo.NumGroups(), 0)
  {
    var n, per := geo.NumGroups(), geo.inodesPerGroup;
    if InodeGroupOf(geo, ino) >= n { MulMonotone(n, InodeGroupOf(geo, ino), per); }
  }

  function WithBlockBit(grp: Group, bit: nat, on: bool): Group
    requires bit < |grp.bbits|
    requires on ==> grp.freeBlocks > 0
  {
    grp.(bbits := grp.bbits[bit := on], freeBlocks := if on then grp.freeBlocks - 1 else grp.freeBlocks + 1)
  }

  function WithInodeBit(grp: Group, bit: nat, on: bool): Group
    requires bit < |grp.ibits|
    requires on ==> grp.freeInodes > 0
  {
    grp.(ibits := grp.ibits[bit := on], freeInodes := if on then grp.freeInodes - 1 else grp.freeInodes + 1)
  }

  /** A group with every bit set. */
  function FullGroup(geo: Geometry): Group {
    Group(seq(geo.blocksPerGroup, _ => true), 0, seq(geo.inodesPerGroup, _ => true), 0)
  }

  lemma FullIsValid(geo: Geometry, gs: seq<Group>)
    requires geo.Ok() && gs == seq(geo.NumGroups(), _ => FullGroup(geo))
    ensures BitmapsOk(geo, gs) && CountsOk(gs, 0, 0)
    ensures forall b :: geo.firstDataBlock <= b < geo.blocksCount ==> b in UsedIn(geo, gs)
    ensures forall k :: 0 < k <= geo.inodesCount ==> k in LiveIn(geo, gs)
  {
    assert Clear(FullGroup(geo).bbits) == {} && Clear(FullGroup(geo).ibits) == {};
    SumFreeZero(gs);
    forall b | geo.firstDataBlock <= b < geo.blocksCount ensures b in UsedIn(geo, gs) { GroupInRange(geo, b); }
    forall k | 0 < k <= geo.inodesCount ensures k in LiveIn(geo, gs) { InodeGroupInRange(geo, k); }
  }

  /** Flipping one block bit moves exactly the block it numbers. */
  lemma FlipBlockBit(geo: Geometry, gs: seq<Group>, g: nat, bit: nat, on: bool, gs': seq<Group>)
    requires 0 < geo.blocksPerGroup && BitmapsOk(geo, gs)
    requires g < |gs| && bit < geo.blocksPerGroup && gs[g].bbits[bit] != on
    requires on ==> gs[g].freeBlocks > 0
    requires !on ==> BlockBitOk(geo, g, bit)
    requires gs' == gs[g := WithBlockBit(gs[g], bit, on)]
    ensures BitmapsOk(geo, gs')
    ensures LiveIn(geo, gs') == LiveIn(geo, gs)
    ensures var b := geo.BlockNo(g, bit);
      && (b in UsedIn(geo, gs)) == !on
      && UsedIn(geo, gs') == if on then UsedIn(geo, gs) + {b} else UsedIn(geo, gs) - {b}
  {
    var b := geo.BlockNo(g, bit);
    BlockNumbering(geo, g, bit, 0);
    BlockNoBound(geo, g, bit, |gs|);
    forall x: nat
      ensures BlockMarked(geo, gs', x) == if x == b then on else BlockMarked(geo, gs, x)
    {
      BlockNumbering(geo, g, bit, x);
    }
    forall x: nat ensures InodeMarked(geo, gs', x) == InodeMarked(geo, gs, x) {}
  }

  lemma FlipInodeBit(geo: Geometry, gs: seq<Group>, g: nat, bit: nat, on: bool, gs': seq<Group>)
    requires 0 < geo.blocksPerGroup && BitmapsOk(geo, gs)
    requires g < |gs| && bit < geo.inodesPerGroup && gs[g].ibits[bit] != on
    requires on ==> gs[g].freeInodes > 0
    requires !on ==> InodeBitOk(geo, g, bit)
    requires gs' == gs[g := WithInodeBit(gs[g], bit, on)]
    ensures BitmapsOk(geo, gs')
    ensures UsedIn(geo, gs') == UsedIn(geo, gs)
    ensures var k := geo.InodeNo(g, bit);
      && (k in LiveIn(geo, gs)) == !on
      && LiveIn(geo, gs') == if on then LiveIn(geo, gs) + {k} else LiveIn(geo, gs) - {k}
  {
    var k := geo.InodeNo(g, bit);
    InodeNumbering(geo, g, bit, 0);
    InodeNoBound(geo, g, bit, |gs|);
    forall x: nat
      ensures InodeMarked(geo, gs', x) == if x == k then on else InodeMarked(geo, gs, x)
    {
      InodeNumbering(geo, g, bit, x);
    }
    forall x: nat ensures BlockMarked(geo, gs', x) == BlockMarked(geo, gs, x) {}
  }

  /** Flipping one bit together with its two counters keeps all counters right. */
  lemma FlipBlockCounts(gs: seq<Group>, fb: nat, fi: nat, g: nat, bit: nat, on: bool)
    requires CountsOk(gs, fb, fi) && g < |gs| && bit < |gs[g].bbits| && gs[g].bbits[bit] != on
    ensures on ==> gs[g].freeBlocks > 0 && fb > 0
    ensures CountsOk(gs[g := WithBlockBit(gs[g], bit, on)], if on then fb - 1 else fb + 1, fi)
  {
    SumFreeAtLeast(gs, g);
    if on {
      assert bit in Clear(gs[g].bbits);
      ClearSet(gs[g].bbits, bit);
    } else {
      ClearReset(gs[g].bbits, bit);
    }
    SumFreeUpdate(gs, g, WithBlockBit(gs[g], bit, on));
  }

  lemma FlipInodeCounts(gs: seq<Group>, fb: nat, fi: nat, g: nat, bit: nat, on: bool)
    requires CountsOk(gs, fb, fi) && g < |gs| && bit < |gs[g].ibits| && gs[g].ibits[bit] != on
    ensures on ==> gs[g].freeInodes > 0 && fi > 0
    ensures CountsOk(gs[g := WithInodeBit(gs[g], bit, on)], fb, if on then fi - 1 else fi + 1)
  {
    SumFreeAtLeast(gs, g);
    if on {
      assert bit in Clear(gs[g].ibits);
      ClearSet(gs[g].ibits, bit);
    } else {
      ClearReset(gs[g].ibits, bit);
    }
    SumFreeUpdate(gs, g, WithInodeBit(gs[g], bit, on));
  }

  class Volume {
    const geo: Geometry
    var groups: seq<Group>
    var freeBlocks: nat    // s_free_blocks_count
    var freeInodes: nat    // s_free_inodes_count
    var disk: seq<Block>
    var inodes: seq<Inode> // inode table, indexed by inode number
    ghost var own: map<nat, Owner> // which slot of which inode holds a block

    /** A volume with every block and inode in use and no file holding any block. */
    constructor (geo: Geometry)
      requires geo.Ok()
      ensures Valid() && this.geo == geo && freeBlocks == freeInodes == 0 && own == map[]
      ensures forall k :: 0 <= k < |inodes| ==> inodes[k] == NO_INODE
      ensures forall b :: geo.firstDataBlock <= b < geo.blocksCount ==> b in Used()
      ensures forall k :: 0 < k <= geo.inodesCount ==> k in Live()
    {
      this.geo := geo;
      groups := seq(geo.NumGroups(), _ => FullGroup(geo));
      freeBlocks, freeInodes, own := 0, 0, map[];
      disk := seq(geo.blocksCount, _ => Zeros(geo.blockSize));
      inodes := seq(geo.inodesCount + 1, _ => NO_INODE);
      new;
      FullIsValid(geo, groups);
    }

    ghost predicate Valid()
      reads this
    {
      && geo.Ok()
      && |disk| == geo.blocksCount && |inodes| == geo.inodesCount + 1
      && (forall b :: 0 <= b < |disk| ==> |disk[b]| == geo.blockSize)
      && (forall k :: 0 <= k < |inodes| ==> |inodes[k].block| == 15)
      && BitmapsOk(geo, groups)
      && CountsOk(groups, freeBlocks, freeInodes)
    }

    ghost function Used(): set<nat>
      reads this
      requires Valid()
    {
      UsedIn(geo, groups)
    }

    ghost function Live(): set<nat>
      reads this
      requires Valid()
    {
      LiveIn(geo, groups)
    }

    /** The files of the volume: the inodes in use. */
    ghost function Files(): (files: map<nat, Inode>)
      reads this
      requires Valid()
      ensures FilesOk(files)
    {
      map k | k in Live() && k < |inodes| :: inodes[k]
    }

    /** Blocks in use that belong to no file: superblock, descriptors, bitmaps, inode tables. */
    ghost function Reserved(): set<nat>
      reads this
      requires Valid()
    {
      Used() - own.Keys
    }

    /** The volume invariant: counters right, and every file block used and in one slot only. */
    ghost predicate Sound()
      reads this
    {
      Valid() && Owns(disk, Used(), Files(), own)
    }

    /** alloc_block: first clear bit of the first group with free blocks; the block is zeroed.
        Fails exactly when the volume has no free block, and then changes nothing. */
    method AllocBlock() returns (b: nat)
      requires Valid()
      modifies this`groups, this`freeBlocks, this`disk
      ensures Valid()
      ensures Live() == old(Live())
      ensures b == 0 <==> old(freeBlocks) == 0
      ensures b == 0 ==> groups == old(groups) && disk == old(disk) && freeBlocks == old(freeBlocks)
      ensures b != 0 ==>
        && b < |disk| && b !in old(Used()) && Used() == old(Used()) + {b}
        && freeBlocks == old(freeBlocks) - 1
        && disk == old(disk)[b := Zeros(geo.blockSize)]
    {
      var g := 0;
      while g < |groups|
        invariant g <= |groups|
        invariant forall h :: 0 <= h < g ==> groups[h].freeBlocks == 0
      {
        if groups[g].freeBlocks != 0 {
          var scan := geo.BlocksInGroup(g);
          ScanCoversGroup(g);
          var bit := FirstClear(groups[g].bbits, scan);
          b := MarkBlock(g, bit);
          disk := disk[b := Zeros(geo.blockSize)];
          return;
        }
        g := g + 1;
      }
      SumFreeZero(groups);
      b := 0;
    }

    /** Sets a clear block bit. */
    method MarkBlock(g: nat, bit: nat) returns (b: nat)
      requires Valid() && g < |groups| && bit < geo.blocksPerGroup && !groups[g].bbits[bit]
      modifies this`groups, this`freeBlocks
      ensures Valid() && Live() == old(Live()) && freeBlocks == old(freeBlocks) - 1
      ensures 0 < b < |disk| && b !in old(Used()) && Used() == old(Used()) + {b}
    {
      hide UsedIn, LiveIn;
      FlipBlockCounts(groups, freeBlocks, freeInodes, g, bit, true);
      FlipBlockBit(geo, groups, g, bit, true, groups[g := WithBlockBit(groups[g], bit, true)]);
      b := geo.BlockNo(g, bit);
      assert BlockBitOk(geo, g, bit);
      hide BitmapsOk, CountsOk;
      groups := groups[g := WithBlockBit(groups[g], bit, true)];
      freeBlocks := freeBlocks - 1;
    }

    /** free_block: clears the bit of a block in use and counts it at every level; a number before the
        first data block is ignored. A block that is free already is counted again, and then the counters
        are wrong: the volume stays valid exactly when the block was in use or ignored. */
    method FreeBlock(b: nat)
      requires Valid() && (b < geo.firstDataBlock || 0 < b < |disk|)
      modifies this`groups, this`freeBlocks
      ensures Valid() <==> b < geo.firstDataBlock || b in old(Used())
      ensures Valid() ==> Used() == old(Used()) - {b} && Live() == old(Live())
      ensures freeBlocks == old(freeBlocks) + if b < geo.firstDataBlock then 0 else 1
      ensures b < geo.firstDataBlock ==> groups == old(groups) && b !in old(Used())
    {
      if b < geo.firstDataBlock { return; }
      var g, bit := GroupOf(geo, b), BitOf(geo, b);
      BlockNumbering(geo, g, bit, b);
      GroupInRange(geo, b);
      if !groups[g].bbits[bit] {
        groups := groups[g := groups[g].(freeBlocks := groups[g].freeBlocks + 1)];
        freeBlocks := freeBlocks + 1;
        return;
      }
      FlipBlockCounts(groups, freeBlocks, freeInodes, g, bit, false);
      assert BlockBitOk(geo, g, bit);
      FlipBlockBit(geo, groups, g, bit, false, groups[g := WithBlockBit(groups[g], bit, false)]);
      groups := groups[g := WithBlockBit(groups[g], bit, false)];
      freeBlocks := freeBlocks + 1;
    }

    /** alloc_inode: fails exactly when the volume has no free inode, and then changes nothing. */
    method AllocInode() returns (ino: nat)
      requires Valid()
      modifies this`groups, this`freeInodes
      ensures Valid()
      ensures Used() == old(Used())
      ensures ino == 0 <==> old(freeInodes) == 0
      ensures ino == 0 ==> groups == old(groups) && freeInodes == old(freeInodes)
      ensures ino != 0 ==>
        && 1 < ino < |inodes| && ino !in old(Live()) && Live() == old(Live()) + {ino}
        && freeInodes == old(freeInodes) - 1
    {
      hide UsedIn, LiveIn;
      var n := (geo.inodesCount + geo.inodesPerGroup - 1) / geo.inodesPerGroup;
      var g := 0;
      while g < n && g < |groups|
        invariant g <= |groups|
        invariant forall h :: 0 <= h < g ==> groups[h].freeInodes == 0
      {
        if groups[g].freeInodes != 0 {
          var bit := FirstClear(groups[g].ibits, geo.inodesPerGroup);
          ghost var i :| i in Clear(groups[g].ibits);
          ino := MarkInode(g, bit);
          return;
        }
        g := g + 1;
      }
      forall h | g <= h < |groups| ensures groups[h].freeInodes == 0 { NoInodesPast(n, h); }
      SumFreeZero(groups);
      ino := 0;
    }

    /** Sets a clear inode bit. */
    method MarkInode(g: nat, bit: nat) returns (ino: nat)
      requires Valid() && g < |groups| && bit < geo.inodesPerGroup && !groups[g].ibits[bit]
      modifies this`groups, this`freeInodes
      ensures Valid() && Used() == old(Used()) && freeInodes == old(freeInodes) - 1
      ensures 1 < ino < |inodes| && ino !in old(Live()) && Live() == old(Live()) + {ino}
    {
      hide UsedIn, LiveIn;
      FlipInodeCounts(groups, freeBlocks, freeInodes, g, bit, true);
      FlipInodeBit(geo, groups, g, bit, true, groups[g := WithInodeBit(groups[g], bit, true)]);
      ino := geo.InodeNo(g, bit);
      assert InodeBitOk(geo, g, bit);
      hide BitmapsOk, CountsOk;
      groups := groups[g := WithInodeBit(groups[g], bit, true)];
      freeInodes := freeInodes - 1;
    }

    /** Groups past the last inode have no clear inode bit. */
    lemma NoInodesPast(n: nat, h: nat)
      requires Valid() && h < |groups|
      requires n == (geo.inodesCount + geo.inodesPerGroup - 1) / geo.inodesPerGroup <= h
      ensures groups[h].freeInodes == 0
    {
      MulMonotone(n, h, geo.inodesPerGroup);
      assert n * geo.inodesPerGroup >= geo.inodesCount;
      forall i | 0 <= i < geo.inodesPerGroup ensures groups[h].ibits[i] {
        assert !InodeBitOk(geo, h, i);
      }
      assert Clear(groups[h].ibits) == {};
    }

    /** free_inode; numbers 0 and 1 are ignored. As with blocks, the volume stays valid exactly when the inode
        was in use or ignored. */
    method FreeInode(ino: nat)
      requires Valid() && ino < |inodes|
      modifies this`groups, this`freeInodes
      ensures Valid() <==> ino < 2 || ino in old(Live())
      ensures Valid() && ino >= 2 ==> Live() == old(Live()) - {ino} && Used() == old(Used())
      ensures freeInodes == old(freeInodes) + if ino < 2 then 0 else 1
      ensures ino < 2 ==> groups == old(groups)
    {
      if ino < 2 { return; }
      var g, bit := InodeGroupOf(geo, ino), InodeBitOf(geo, ino);
      InodeNumbering(geo, g, bit, ino);
      InodeGroupInRange(geo, ino);
      if !groups[g].ibits[bit] {
        groups := groups[g := groups[g].(freeInodes := groups[g].freeInodes + 1)];
        freeInodes := freeInodes + 1;
        return;
      }
      FlipInodeCounts(groups, freeBlocks, freeInodes, g, bit, false);
      FlipInodeBit(geo, groups, g, bit, false, groups[g := WithInodeBit(groups[g], bit, false)]);
      groups := groups[g := WithInodeBit(groups[g], bit, false)];
      freeInodes := freeInodes + 1;
    }

    /** A group whose descriptor counts a free block has a clear bit where alloc_block looks. */
    lemma ScanCoversGroup(g: nat)
      requires Valid() && g < |groups| && groups[g].freeBlocks != 0
      ensures 0 <= geo.BlocksInGroup(g) <= geo.blocksPerGroup
      ensures exists i :: 0 <= i < geo.BlocksInGroup(g) && !groups[g].bbits[i]
    {}
  }
}
