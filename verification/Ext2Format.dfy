/** A freshly formatted volume: the invariants of the other modules can be met. */
module Ext2Format {
  import opened Machine
  import opened Bytes
  import opened Paths
  import opened Ext2Map
  import opened Ext2Volume
  import opened Ext2File
  import Ext2Dirent
  import opened Ext2Dir
  import opened Ext2Names

  const DIR_MODE: nat := 0x41ed    // EXT2_IMODE_DIR | 0755
  const FIRST_INODE: nat := 11     // inodes below it are reserved
  const SELF: Name := [DOT]
  const PARENT: Name := [DOT, DOT]
  const EMPTY_DIR: Inode := Inode(DIR_MODE, 2, 0, NO_BLOCKS)

  /** The blocks from `first` on and the inodes from 11 on are free, but for the one block of the root
      directory, which holds its own name twice. */
  method Format(geo: Geometry, first: nat) returns (v: Volume)
    requires geo.Ok() && 0 < first < geo.blocksCount && geo.firstDataBlock <= first && FIRST_INODE <= geo.inodesCount
    ensures fresh(v) && v.geo == geo && Named(v)
    ensures TreeOf(v) == map[ROOT := map[SELF := ROOT, PARENT := ROOT]]
    ensures v.freeBlocks == geo.blocksCount - first - 1 && v.freeInodes == geo.inodesCount + 1 - FIRST_INODE
    ensures forall k :: k in v.Files() <==> 0 < k < FIRST_INODE
  {
    hide BitmapsOk, CountsOk, UsedIn, LiveIn, Owns, DirList, ToMap, DirTiled, OthersKept, Named, TreeOf;
    v := new Volume(geo);
    FreeBlocks(v, first);
    FreeInodes(v);
    ghost var files := v.Files();
    v.inodes := v.inodes[ROOT := EMPTY_DIR];
    assert v.Files() == files[ROOT := EMPTY_DIR];
    EmptyRoot(v);
    AddRootBlock(v);
  }

  method FreeBlocks(v: Volume, first: nat)
    requires v.Valid() && v.freeBlocks == 0 && 0 < first <= v.geo.blocksCount && v.geo.firstDataBlock <= first
    requires forall b :: v.geo.firstDataBlock <= b < v.geo.blocksCount ==> b in v.Used()
    modifies v`groups, v`freeBlocks
    ensures v.Valid() && v.freeBlocks == v.geo.blocksCount - first && v.Live() == old(v.Live())
  {
    hide BitmapsOk, CountsOk, UsedIn, LiveIn;
    for b := first to v.geo.blocksCount
      invariant v.Valid() && v.freeBlocks == b - first && v.Live() == old(v.Live())
      invariant forall c :: b <= c < v.geo.blocksCount ==> c in v.Used()
    {
      v.FreeBlock(b);
    }
  }

  method FreeInodes(v: Volume)
    requires v.Valid() && v.freeInodes == 0 && FIRST_INODE <= v.geo.inodesCount
    requires forall k :: 0 < k <= v.geo.inodesCount ==> k in v.Live()
    modifies v`groups, v`freeInodes
    ensures v.Valid() && v.freeInodes == v.geo.inodesCount + 1 - FIRST_INODE && v.Used() == old(v.Used())
    ensures forall k :: k in v.Files() <==> 0 < k < FIRST_INODE
  {
    hide BitmapsOk, CountsOk, UsedIn, LiveIn;
    ZeroNotLive(v);
    for k := FIRST_INODE to v.geo.inodesCount + 1
      invariant v.Valid() && v.freeInodes == k - FIRST_INODE && v.Used() == old(v.Used())
      invariant forall j :: 0 < j < FIRST_INODE || k <= j <= v.geo.inodesCount ==> j in v.Live()
      invariant forall j :: j in v.Live() && j < |v.inodes| ==> 0 < j < FIRST_INODE || k <= j <= v.geo.inodesCount
    {
      v.FreeInode(k);
    }
  }

  lemma ZeroNotLive(v: Volume)
    requires v.Valid()
    ensures 0 !in v.Live()
  {}

  /** Without blocks there is nothing to own, and the root directory is empty. */
  lemma EmptyRoot(v: Volume)
    requires v.Valid() && v.own == map[] && ROOT in v.Files()
    requires forall k :: 0 <= k < |v.inodes| ==> v.inodes[k] == if k == ROOT then EMPTY_DIR else NO_INODE
    ensures Named(v) && TreeOf(v) == map[ROOT := map[]]
    ensures DirList(v.geo.blockSize, v.disk, v.inodes[ROOT], 0) == []
  {
    hide BitmapsOk, CountsOk, UsedIn, LiveIn, Owns, DirList, ToMap, DirTiled, DirOk;
    NothingOwned(v.disk, v.Used(), v.Files());
    NoNames(v.geo.blockSize, v.disk);
    OnlyRoot();
    assert forall k :: k in v.Files() && IsDirMode(v.inodes[k].mode) ==> k == ROOT;
  }

  lemma OnlyRoot()
    ensures IsDirMode(DIR_MODE) && !IsDirMode(0)
  {}

  lemma NothingOwned(disk: seq<Block>, used: set<nat>, files: map<nat, Inode>)
    requires forall k :: k in files ==> files[k].block == NO_BLOCKS
    ensures FilesOk(files) && Owns(disk, used, files, map[])
  {}

  lemma NoNames(bs: nat, disk: seq<Block>)
    ensures DirList(bs, disk, EMPTY_DIR, 0) == [] && DirOk(bs, disk, EMPTY_DIR) && ToMap([]) == map[]
  {}

  /** The block of the root directory, with its two records. */
  method RootBlock(bs: nat) returns (blk: Block)
    requires 1024 <= bs < U16
    ensures |blk| == bs && Ext2Dirent.Tiled(blk)
    ensures Unique(Ext2Dirent.Names(blk)) && ToMap(Ext2Dirent.Names(blk)) == map[SELF := ROOT, PARENT := ROOT]
  {
    hide Ext2Dirent.Names, Ext2Dirent.Tiled, Ext2Dirent.Inserted, Ext2Dirent.HasRoom;
    var one := Ext2Dirent.FreshBlock(bs, ROOT, SELF, 2);
    Ext2Dirent.FreshNames(bs, ROOT, SELF, 2);
    Ext2Dirent.FreshRoom(bs, ROOT, SELF, 2, Ext2Dirent.RecordSize(|PARENT|));
    var ok;
    ok, blk := Ext2Dirent.AddInBlock(one, PARENT, ROOT, 2);
    InsertIsUpdate([(SELF, ROOT)], Ext2Dirent.Names(blk), (PARENT, ROOT));
  }

  /** A block attached as the only block of the root directory. */
  method AttachBlock(v: Volume, blk: Block)
    requires v.Sound() && v.freeBlocks > 0 && ROOT in v.Files() && v.inodes[ROOT] == EMPTY_DIR && IsDirOk(v, ROOT)
    requires DirList(v.geo.blockSize, v.disk, v.inodes[ROOT], 0) == []
    requires |blk| == v.geo.blockSize && Ext2Dirent.Tiled(blk) && Unique(Ext2Dirent.Names(blk))
    modifies v
    ensures v.Sound() && IsDirOk(v, ROOT) && MapOfDir(v, ROOT) == ToMap(Ext2Dirent.Names(blk))
    ensures v.Files() == old(v.Files())[ROOT := v.inodes[ROOT]] && v.inodes[ROOT].mode == DIR_MODE
    ensures OthersKept(v.geo.blockSize, old(v.disk), v.disk, old(v.Files()), ROOT)
    ensures v.freeBlocks == old(v.freeBlocks) - 1 && v.freeInodes == old(v.freeInodes)
  {
    hide BitmapsOk, CountsOk, UsedIn, LiveIn, Owns, Content, DirList, ToMap, DirTiled, OthersKept, Ext2Dirent.Names,
      Ext2Dirent.Tiled;
    ghost var bs, files, disk0, used0 := v.geo.blockSize, v.Files(), v.disk, v.Used();
    var b := v.AllocBlock();
    DirBlockAttached(bs, disk0, used0, files, v.own, ROOT, 0, b, blk, bs);
    v.disk := v.disk[b := blk];
    assert v.disk == disk0[b := blk];
    v.own := v.own[b := (ROOT, Direct(0))];
    v.inodes := v.inodes[ROOT := EMPTY_DIR.(block := NO_BLOCKS[0 := b], size := v.geo.blockSize)];
    assert v.Files() == files[ROOT := v.inodes[ROOT]];
    assert [] + (Ext2Dirent.Names(blk) + []) == Ext2Dirent.Names(blk);
  }

  /** The empty root directory gets its block. */
  method AddRootBlock(v: Volume)
    requires Named(v) && TreeOf(v) == map[ROOT := map[]] && v.freeBlocks > 0
    requires ROOT in v.Files() && v.inodes[ROOT] == EMPTY_DIR
    requires DirList(v.geo.blockSize, v.disk, v.inodes[ROOT], 0) == []
    modifies v
    ensures Named(v) && TreeOf(v) == map[ROOT := map[SELF := ROOT, PARENT := ROOT]]
    ensures v.freeBlocks == old(v.freeBlocks) - 1 && v.freeInodes == old(v.freeInodes)
    ensures v.Files().Keys == old(v.Files()).Keys
  {
    hide BitmapsOk, CountsOk, UsedIn, LiveIn, Owns, Content, DirList, ToMap, DirTiled, OthersKept, Ext2Dirent.Names,
      Ext2Dirent.Tiled;
    ghost var a := Now(v);
    InTree(v, ROOT);
    TreeNow(v);
    var blk := RootBlock(v.geo.blockSize);
    AttachBlock(v, blk);
    TreeAfterDir(v, a, ROOT);
  }
}
