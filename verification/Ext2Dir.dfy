/** A directory as a map from names to inodes, over its direct blocks (kernel/fs/ext2.c). */
module Ext2Dir {
  import opened Machine
  import opened Bytes
  import opened Ext2Map
  import opened Ext2Volume
  import opened Ext2File
  import opened Ext2Dirent

  type Pairs = seq<(Name, nat)>

  // ---- Name lists as maps ----------------------------------------------------------------

  ghost predicate Unique(l: Pairs) {
    forall i, j :: 0 <= i < j < |l| ==> l[i].0 != l[j].0
  }

  function ToMap(l: Pairs): map<Name, nat> {
    if l == [] then map[] else ToMap(l[1..])[l[0].0 := l[0].1]
  }

  /** A search is a lookup in the map, also where names repeat: the first one counts in both. */
  lemma {:induction false} GetIsMap(l: Pairs, n: Name)
    ensures Get(l, n) == if n in ToMap(l) then ToMap(l)[n] else 0
  {
    if l != [] { GetIsMap(l[1..], n); }
  }

  /** The map of a list without repeated names has exactly its pairs, and agrees with a search. */
  lemma {:induction false} MapOf(l: Pairs)
    requires Unique(l)
    ensures forall i :: 0 <= i < |l| ==> l[i].0 in ToMap(l) && ToMap(l)[l[i].0] == l[i].1
    ensures forall n :: n in ToMap(l) ==> exists i :: 0 <= i < |l| && l[i].0 == n
    ensures forall n :: Get(l, n) == if n in ToMap(l) then ToMap(l)[n] else 0
  {
    if l != [] {
      var t := l[1..];
      assert Unique(t) by { assert forall i, j :: 0 <= i < j < |t| ==> t[i] == l[i + 1] && t[j] == l[j + 1]; }
      MapOf(t);
      forall i | 0 <= i < |l| ensures l[i].0 in ToMap(l) && ToMap(l)[l[i].0] == l[i].1 {
        if i > 0 { assert t[i - 1] == l[i]; }
      }
      forall n | n in ToMap(l) ensures exists i :: 0 <= i < |l| && l[i].0 == n {
        if n == l[0].0 {
        } else {
          var i :| 0 <= i < |t| && t[i].0 == n;
          assert l[i + 1].0 == n;
        }
      }
    }
  }

  /** Putting an absent name into the list is a map update. */
  lemma InsertIsUpdate(l: Pairs, l': Pairs, x: (Name, nat))
    requires Unique(l) && Inserted(l, l', x) && x.0 !in ToMap(l)
    ensures Unique(l') && ToMap(l') == ToMap(l)[x.0 := x.1]
  {
    hide ToMap, Get;
    var k :| 0 <= k <= |l| && InsertedAt(l, l', x, k);
    forall i | 0 <= i < |l| ensures l[i].0 != x.0 { HasPair(l, i); }
    StillUnique(l, l', x, k);
    SamePairs(l, l', x, k);
  }

  lemma StillUnique(l: Pairs, l': Pairs, x: (Name, nat), k: nat)
    requires Unique(l) && k <= |l| && InsertedAt(l, l', x, k) && forall i :: 0 <= i < |l| ==> l[i].0 != x.0
    ensures Unique(l')
  {}

  /** Taking a pair out of the list is a map deletion. */
  lemma RemoveIsDelete(l: Pairs, l': Pairs, x: (Name, nat))
    requires Unique(l') && Inserted(l, l', x)
    ensures Unique(l) && ToMap(l) == ToMap(l') - {x.0} && x.0 in ToMap(l') && ToMap(l')[x.0] == x.1
  {
    hide ToMap, Get;
    var k :| 0 <= k <= |l| && InsertedAt(l, l', x, k);
    assert l'[k] == x;
    forall i | 0 <= i < |l| ensures l[i].0 != x.0 {
      assert l[i] == l'[if i < k then i else i + 1];
    }
    forall i, j | 0 <= i < j < |l| ensures l[i].0 != l[j].0 {
      assert l[i] == l'[if i < k then i else i + 1] && l[j] == l'[if j < k then j else j + 1];
    }
    assert x.0 !in ToMap(l) by { MapOf(l); }
    SamePairs(l, l', x, k);
  }

  lemma SamePairs(l: Pairs, l': Pairs, x: (Name, nat), k: nat)
    requires Unique(l) && Unique(l') && k <= |l| && InsertedAt(l, l', x, k)
    ensures ToMap(l') == ToMap(l)[x.0 := x.1]
  {
    assert l'[k] == x && |l'| == |l| + 1;
    hide Unique, ToMap, Get;
    HasPair(l', k);
    forall n | n in ToMap(l) && n != x.0 ensures n in ToMap(l') && ToMap(l')[n] == ToMap(l)[n] {
      var i := PairOf(l, n);
      var i' := if i < k then i else i + 1;
      assert l'[i'] == l[i];
      HasPair(l', i');
    }
    forall n | n in ToMap(l') ensures n == x.0 || n in ToMap(l) {
      var i := PairOf(l', n);
      if i != k {
        var i' := if i < k then i else i - 1;
        assert l'[i] == l[i'];
        HasPair(l, i');
      }
    }
  }

  lemma HasPair(l: Pairs, i: nat)
    requires Unique(l) && i < |l|
    ensures l[i].0 in ToMap(l) && ToMap(l)[l[i].0] == l[i].1
  {
    MapOf(l);
  }

  lemma PairOf(l: Pairs, n: Name) returns (i: nat)
    requires Unique(l) && n in ToMap(l)
    ensures i < |l| && l[i].0 == n && ToMap(l)[n] == l[i].1
  {
    MapOf(l);
    i :| 0 <= i < |l| && l[i].0 == n;
  }

  lemma InsertedAround(a: Pairs, b: Pairs, l: Pairs, l': Pairs, x: (Name, nat))
    requires Inserted(l, l', x)
    ensures Inserted(a + l + b, a + l' + b, x)
  {
    var k :| 0 <= k <= |l| && InsertedAt(l, l', x, k);
    InsertedBetween(a + l[..k], l[k..] + b, x);
    assert a + l[..k] + (l[k..] + b) == a + l + b;
    assert a + l[..k] + [x] + (l[k..] + b) == a + l' + b;
  }

  // ---- The records of a directory ------------------------------------------------------------

  /** Names in direct blocks `i` and up; the walk stops at the first unused slot. */
  function DirList(bs: nat, disk: seq<Block>, f: Inode, i: nat): Pairs
    requires |f.block| == 15
    decreases 12 - i
  {
    if i >= 12 || f.block[i] == 0 then []
    else Names(Content(bs, disk, f, Direct(i))) + DirList(bs, disk, f, i + 1)
  }

  /** The records of every block cover it. */
  ghost predicate DirTiled(bs: nat, disk: seq<Block>, f: Inode)
    requires |f.block| == 15
  {
    forall i :: 0 <= i < 12 && f.block[i] != 0 ==> Tiled(Content(bs, disk, f, Direct(i)))
  }

  lemma DirTiledSame(bs: nat, disk: seq<Block>, f: Inode, disk': seq<Block>, f': Inode)
    requires |f.block| == |f'.block| == 15 && DirTiled(bs, disk, f)
    requires forall j :: 0 <= j < 12 ==> f'.block[j] == f.block[j]
    requires forall j :: 0 <= j < 12 ==> Content(bs, disk', f', Direct(j)) == Content(bs, disk, f, Direct(j))
    ensures DirTiled(bs, disk', f')
  {}

  /** The blocks in use come first. */
  ghost predicate Packed(f: Inode)
    requires |f.block| == 15
  {
    forall i, j :: 0 <= i < j < 12 && f.block[i] == 0 ==> f.block[j] == 0
  }

  /** Names are unique, the records tile their blocks, and the blocks in use come first. */
  ghost predicate DirOk(bs: nat, disk: seq<Block>, f: Inode)
    requires |f.block| == 15
  {
    && Unique(DirList(bs, disk, f, 0)) && DirTiled(bs, disk, f)
    && Packed(f)
  }

  /** The directory as a finite map. */
  function DirMap(bs: nat, disk: seq<Block>, f: Inode): map<Name, nat>
    requires |f.block| == 15
  {
    ToMap(DirList(bs, disk, f, 0))
  }

  lemma {:induction false} DirListSame(bs: nat, disk: seq<Block>, f: Inode, disk': seq<Block>, f': Inode, i: nat)
    requires |f.block| == |f'.block| == 15 && f'.block[..12] == f.block[..12]
    requires forall j :: i <= j < 12 ==> Content(bs, disk', f', Direct(j)) == Content(bs, disk, f, Direct(j))
    ensures DirList(bs, disk', f', i) == DirList(bs, disk, f, i)
    decreases 12 - i
  {
    hide Content;
    if i < 12 {
      assert f'.block[i] == f'.block[..12][i] == f.block[i];
      DirListSame(bs, disk, f, disk', f', i + 1);
    }
  }

  /** Changing one block of a directory by an insertion is an insertion into the whole list. */
  lemma {:induction false} DirListInserted(bs: nat, disk: seq<Block>, f: Inode, disk': seq<Block>, f': Inode,
                                          i: nat, m: nat, x: (Name, nat))
    requires |f.block| == |f'.block| == 15 && f'.block[..12] == f.block[..12]
    requires i <= m < 12 && forall j :: i <= j <= m ==> f.block[j] != 0
    requires forall j :: i <= j < 12 && j != m ==> Content(bs, disk', f', Direct(j)) == Content(bs, disk, f, Direct(j))
    requires Inserted(Names(Content(bs, disk, f, Direct(m))), Names(Content(bs, disk', f', Direct(m))), x)
    ensures Inserted(DirList(bs, disk, f, i), DirList(bs, disk', f', i), x)
    decreases m - i
  {
    hide Content, Names, Inserted;
    assert f'.block[i] == f'.block[..12][i] == f.block[..12][i] == f.block[i];
    var l, l' := Names(Content(bs, disk, f, Direct(i))), Names(Content(bs, disk', f', Direct(i)));
    if i == m {
      var rest := DirList(bs, disk, f, i + 1);
      DirListSame(bs, disk, f, disk', f', i + 1);
      InsertedAround([], rest, l, l', x);
      assert [] + l + rest == l + rest && [] + l' + rest == l' + rest;
    } else {
      var r, r' := DirList(bs, disk, f, i + 1), DirList(bs, disk', f', i + 1);
      DirListInserted(bs, disk, f, disk', f', i + 1, m, x);
      InsertedAround(l, [], r, r', x);
      assert l + r + [] == l + r && l + r' + [] == l + r';
    }
  }

  /** Attaching one more block at the first unused slot appends its names, and those of blocks that the slot hid. */
  lemma {:induction false} DirListAppended(bs: nat, disk: seq<Block>, f: Inode, disk': seq<Block>, f': Inode, i: nat,
                                           m: nat)
    requires |f.block| == |f'.block| == 15 && i <= m < 12
    requires forall j :: i <= j < m ==> f'.block[j] == f.block[j] != 0
    requires f.block[m] == 0 && f'.block[m] != 0
    requires forall j :: i <= j < m ==> Content(bs, disk', f', Direct(j)) == Content(bs, disk, f, Direct(j))
    ensures DirList(bs, disk', f', i) ==
      DirList(bs, disk, f, i) + (Names(Content(bs, disk', f', Direct(m))) + DirList(bs, disk', f', m + 1))
    decreases m - i
  {
    hide Content, Names;
    if i < m { DirListAppended(bs, disk, f, disk', f', i + 1, m); }
  }

  lemma {:induction false} DirListNonzero(bs: nat, disk: seq<Block>, f: Inode, i: nat)
    requires |f.block| == 15
    ensures forall k :: 0 <= k < |DirList(bs, disk, f, i)| ==> DirList(bs, disk, f, i)[k].1 != 0
    decreases 12 - i
  {
    hide Content;
    if i < 12 && f.block[i] != 0 {
      LiveNonzero(Entries(Content(bs, disk, f, Direct(i)), 0));
      DirListNonzero(bs, disk, f, i + 1);
    }
  }

  /** Inode `f` is as before, and so is every block of data it reaches. */
  ghost predicate SameFile(bs: nat, disk: seq<Block>, f: Inode, disk': seq<Block>, f': Inode)
    requires |f.block| == 15
  {
    f' == f && forall s: Slot :: s.IsData() ==> Content(bs, disk', f, s) == Content(bs, disk, f, s)
  }

  lemma Differs(bs: nat, disk: seq<Block>, f: Inode, disk': seq<Block>, f': Inode, s: Slot)
    requires |f.block| == 15 && s.IsData() && Content(bs, disk', f, s) != Content(bs, disk, f, s)
    ensures !SameFile(bs, disk, f, disk', f')
  {}

  // ---- Operations on a mounted volume -------------------------------------------------------------

  lemma DirBlock(v: Volume, dir: nat, b: nat)
    requires v.Sound() && dir in v.Files() && b < 12 && v.inodes[dir].block[b] != 0
    ensures v.inodes[dir].block[b] < |v.disk|
    ensures Content(v.geo.blockSize, v.disk, v.inodes[dir], Direct(b)) == v.disk[v.inodes[dir].block[b]]
  {
    assert Owned(Ptr(v.disk, v.Files()[dir], Direct(b)), |v.disk|, v.Used(), v.own, (dir, Direct(b)));
  }

  ghost function MapOfDir(v: Volume, dir: nat): map<Name, nat>
    reads v
    requires v.Valid() && dir < |v.inodes|
  {
    DirMap(v.geo.blockSize, v.disk, v.inodes[dir])
  }

  /** The pairs of a directory, with repetitions. */
  ghost function PairsIn(v: Volume, dir: nat): multiset<(Name, nat)>
    reads v
    requires v.Valid() && dir < |v.inodes|
  {
    multiset(DirList(v.geo.blockSize, v.disk, v.inodes[dir], 0))
  }

  ghost predicate IsDirOk(v: Volume, dir: nat)
    reads v
    requires v.Valid() && dir < |v.inodes|
  {
    DirOk(v.geo.blockSize, v.disk, v.inodes[dir])
  }

  /** The volume stays sound, only directory `dir` changed, and it kept its mode and link count. */
  twostate predicate OnlyDir(v: Volume, dir: nat)
    reads v
    requires old(v.Valid()) && dir < |old(v.inodes)|
  {
    && v.Sound() && ReservedKept(v) && v.Live() == old(v.Live()) && v.freeInodes == old(v.freeInodes)
    && |v.inodes| == |old(v.inodes)|
    && v.inodes == old(v.inodes)[dir := v.inodes[dir]]
    && v.inodes[dir].mode == old(v.inodes[dir].mode) && v.inodes[dir].links == old(v.inodes[dir].links)
    && OthersKept(v.geo.blockSize, old(v.disk), v.disk, old(v.Files()), dir)
  }

  /** The search that ext2_lookup makes in one directory: first match over the direct blocks. */
  method FindInDir(v: Volume, dir: nat, name: Name) returns (ino: nat)
    requires v.Sound() && dir in v.Files()
    ensures ino == Get(DirList(v.geo.blockSize, v.disk, v.inodes[dir], 0), name)
    ensures ino == if name in MapOfDir(v, dir) then MapOfDir(v, dir)[name] else 0
  {
    hide BitmapsOk, CountsOk, UsedIn, LiveIn, Owns, Content, Names, Get, ToMap;
    var f := v.inodes[dir];
    ghost var bs := v.geo.blockSize;
    ino := 0;
    var b := 0;
    while b < 12 && ino == 0
      invariant b <= 12
      invariant Get(DirList(bs, v.disk, f, 0), name) ==
        if ino != 0 then ino else Get(DirList(bs, v.disk, f, b), name)
    {
      GetNil(name);
      if f.block[b] == 0 { break; }
      DirBlock(v, dir, b);
      ino := FindInBlock(v.disk[f.block[b]], name);
      NamesNonzero(v.disk[f.block[b]]);
      GetConcat(Names(v.disk[f.block[b]]), DirList(bs, v.disk, f, b + 1), name);
      b := b + 1;
    }
    GetNil(name);
    GetIsMap(DirList(bs, v.disk, f, 0), name);
  }

  lemma GetNil(name: Name) ensures Get([], name) == 0 {}

  lemma NamesNonzero(blk: Block)
    ensures forall i :: 0 <= i < |Names(blk)| ==> Names(blk)[i].1 != 0
  {
    LiveNonzero(Entries(blk, 0));
  }

  /** Storing a changed block of a directory whose name list differs by one insertion. */
  lemma DirBlockWritten(bs: nat, disk: seq<Block>, used: set<nat>, files: map<nat, Inode>, own: map<nat, Owner>,
                        dir: nat, m: nat, blk: Block, x: (Name, nat), add: bool)
    requires DiskOk(bs, disk) && FilesOk(files) && Owns(disk, used, files, own) && dir in files
    requires m < 12 && |blk| == bs && forall j :: 0 <= j <= m ==> files[dir].block[j] != 0
    requires var c := Content(bs, disk, files[dir], Direct(m));
      if add then Inserted(Names(c), Names(blk), x) else Inserted(Names(blk), Names(c), x)
    ensures var f := files[dir];
      && f.block[m] < |disk| && f.block[m] in own
      && var disk' := disk[f.block[m] := blk];
      && Owns(disk', used, files, own)
      && OthersKept(bs, disk, disk', files, dir)
      && (if add then Inserted(DirList(bs, disk, f, 0), DirList(bs, disk', f, 0), x)
          else Inserted(DirList(bs, disk', f, 0), DirList(bs, disk, f, 0), x))
      && (DirTiled(bs, disk, f) && Tiled(blk) ==> DirTiled(bs, disk', f))
  {
    hide Content, Names, Inserted, DirList, Follow, Tiled;
    var f := files[dir];
    assert Ptr(disk, f, Direct(m)) == f.block[m];
    assert Owned(Ptr(disk, f, Direct(m)), |disk|, used, own, (dir, Direct(m)));
    var disk' := disk[f.block[m] := blk];
    WriteData(bs, disk, used, files, own, dir, Direct(m), blk);
    assert Direct(m).IsData();
    assert Content(bs, disk', files[dir], Direct(m)) == blk;
    forall j | 0 <= j < 12 && j != m ensures Content(bs, disk', f, Direct(j)) == Content(bs, disk, f, Direct(j)) {
      assert Direct(j).IsData() && Direct(j) != Direct(m);
    }
    if add {
      DirListInserted(bs, disk, f, disk', f, 0, m, x);
    } else {
      DirListInserted(bs, disk', f, disk, f, 0, m, x);
    }
  }

  /** The search part of dir_remove_entry: which block loses the record, and what it becomes. */
  method LocateName(v: Volume, dir: nat, name: Name) returns (ok: bool, m: nat, blk: Block)
    requires v.Sound() && dir in v.Files()
    ensures var bs, f := v.geo.blockSize, v.inodes[dir];
      var l := DirList(bs, v.disk, f, 0);
      && (ok <==> Get(l, name) != 0)
      && (ok ==>
            && m < 12 && (forall j :: 0 <= j <= m ==> f.block[j] != 0) && |blk| == bs
            && HasRoom(blk, 0, RecordSize(|name|))
            && Inserted(Names(blk), Names(Content(bs, v.disk, f, Direct(m))), (name, Get(l, name)))
            && (Tiled(Content(bs, v.disk, f, Direct(m))) ==> Tiled(blk)))
  {
    hide BitmapsOk, CountsOk, UsedIn, LiveIn, Owns, Content, Names, Get, Inserted, HasRoom, Tiled, DirList, RecordSize;
    var f := v.inodes[dir];
    ghost var bs, l := v.geo.blockSize, DirList(v.geo.blockSize, v.disk, v.inodes[dir], 0);
    ok, m, blk := false, 0, [];
    while m < 12
      invariant m <= 12
      invariant forall j :: 0 <= j < m ==> f.block[j] != 0
      invariant Get(l, name) == Get(DirList(bs, v.disk, f, m), name)
    {
      GetNil(name);
      DirListStep(bs, v.disk, f, m);
      if f.block[m] == 0 { return; }
      DirBlock(v, dir, m);
      ok, blk := RemoveInBlock(v.disk[f.block[m]], name);
      NamesNonzero(v.disk[f.block[m]]);
      GetConcat(Names(v.disk[f.block[m]]), DirList(bs, v.disk, f, m + 1), name);
      if ok { return; }
      m := m + 1;
    }
    GetNil(name);
    NoneAfter(bs, v.disk, f, m);
    ok := false;
  }

  lemma DirListStep(bs: nat, disk: seq<Block>, f: Inode, i: nat)
    requires |f.block| == 15 && i < 12
    ensures DirList(bs, disk, f, i) ==
      if f.block[i] == 0 then [] else Names(Content(bs, disk, f, Direct(i))) + DirList(bs, disk, f, i + 1)
  {}

  /** dir_remove_entry: the first record with the name goes. It fails, changing nothing, exactly when the name is
      absent. On a well-formed directory that is deletion from the map. */
  method RemoveEntry(v: Volume, dir: nat, name: Name) returns (ok: bool)
    requires v.Sound() && dir in v.Files()
    modifies v`disk
    ensures OnlyDir(v, dir) && v.inodes[dir] == old(v.inodes[dir])
    ensures ok <==> name in old(MapOfDir(v, dir))
    ensures ok ==>
      && RoomInDir(v.geo.blockSize, v.disk, v.inodes[dir], RecordSize(|name|))
      && Inserted(DirList(v.geo.blockSize, v.disk, v.inodes[dir], 0),
                  DirList(v.geo.blockSize, old(v.disk), v.inodes[dir], 0), (name, old(MapOfDir(v, dir))[name]))
      && !SameFile(v.geo.blockSize, old(v.disk), v.inodes[dir], v.disk, v.inodes[dir])
    ensures forall n :: n != name && n in old(MapOfDir(v, dir)) ==> n in MapOfDir(v, dir)
    ensures ok ==> old(PairsIn(v, dir)) == PairsIn(v, dir) + multiset{(name, old(MapOfDir(v, dir))[name])}
    ensures old(IsDirOk(v, dir)) ==> IsDirOk(v, dir) && MapOfDir(v, dir) == old(MapOfDir(v, dir)) - {name}
    ensures !ok ==> v.disk == old(v.disk)
  {
    hide BitmapsOk, CountsOk, UsedIn, LiveIn, Owns, Names, Get, Inserted, DirList, ToMap, HasRoom, Tiled, SameFile;
    var f := v.inodes[dir];
    ghost var bs, l := v.geo.blockSize, DirList(v.geo.blockSize, v.disk, v.inodes[dir], 0);
    SearchNonzero(bs, v.disk, f, name);
    var m, blk;
    ok, m, blk := LocateName(v, dir, name);
    if ok {
      DirBlockWritten(bs, v.disk, v.Used(), v.Files(), v.own, dir, m, blk, (name, Get(l, name)), false);
      if IsDirOk(v, dir) { RemoveIsDelete(DirList(bs, v.disk[f.block[m] := blk], f, 0), l, (name, Get(l, name))); }
      v.disk := v.disk[f.block[m] := blk];
      assert v.Files() == old(v.Files());
      assert Content(bs, v.disk, f, Direct(m)) == blk;
      InsertedDiffers(blk, Content(bs, old(v.disk), f, Direct(m)), (name, Get(l, name)));
      Differs(bs, old(v.disk), f, v.disk, f, Direct(m));
      OthersInserted(DirList(bs, v.disk, f, 0), l, (name, Get(l, name)));
    } else {
      assert ToMap(l) - {name} == ToMap(l);
    }
  }

  /** Insertion of a pair adds that pair and leaves the other names. */
  lemma OthersInserted(l: Pairs, l': Pairs, x: (Name, nat))
    requires Inserted(l, l', x)
    ensures multiset(l') == multiset(l) + multiset{x}
    ensures forall n :: n in ToMap(l') <==> n in ToMap(l) || n == x.0
  {
    hide ToMap;
    var i :| 0 <= i <= |l| && InsertedAt(l, l', x, i);
    assert l == l[..i] + l[i..];
    assert multiset(l') == multiset(l) + multiset{x};
    forall n ensures n in ToMap(l') <==> n in ToMap(l) || n == x.0 { OtherInserted(l, l', x, i, n); }
  }

  lemma OtherInserted(l: Pairs, l': Pairs, x: (Name, nat), i: nat, n: Name)
    requires i <= |l| && InsertedAt(l, l', x, i)
    ensures n in ToMap(l') <==> n in ToMap(l) || n == x.0
  {
    hide ToMap;
    var a, b := l[..i], l[i..];
    assert l == a + b;
    NamesConcat(a, b, n);
    NamesConcat(a + [x], b, n);
    NamesConcat(a, [x], n);
    OneName(x, n);
  }

  lemma OneName(x: (Name, nat), n: Name)
    ensures n in ToMap([x]) <==> n == x.0
  {}

  /** The names of two lists joined are the names of both. */
  lemma {:induction false} NamesConcat(a: Pairs, b: Pairs, n: Name)
    ensures n in ToMap(a + b) <==> n in ToMap(a) || n in ToMap(b)
  {
    if a == [] {
      assert a + b == b;
    } else {
      assert (a + b)[1..] == a[1..] + b;
      NamesConcat(a[1..], b, n);
    }
  }

  /** A name is in the map of any inode exactly when the search finds it. */
  lemma SearchNonzero(bs: nat, disk: seq<Block>, f: Inode, name: Name)
    requires |f.block| == 15
    ensures var l := DirList(bs, disk, f, 0);
      (name in ToMap(l) <==> Get(l, name) != 0) && (name in ToMap(l) ==> ToMap(l)[name] == Get(l, name))
  {
    hide DirList, ToMap, Get;
    var l := DirList(bs, disk, f, 0);
    DirListNonzero(bs, disk, f, 0);
    GetIsMap(l, name);
    MapNonzero(l, name);
  }

  lemma {:induction false} MapNonzero(l: Pairs, name: Name)
    requires forall i :: 0 <= i < |l| ==> l[i].1 != 0
    ensures name in ToMap(l) ==> ToMap(l)[name] != 0
  {
    if l != [] {
      assert forall i :: 0 <= i < |l| - 1 ==> l[1..][i] == l[i + 1];
      MapNonzero(l[1..], name);
    }
  }

  /** Blocks whose name lists differ by an insertion are different. */
  lemma InsertedDiffers(blk: Block, blk': Block, x: (Name, nat))
    requires Inserted(Names(blk), Names(blk'), x)
    ensures blk != blk'
  {
    hide Names;
    var l, l' := Names(blk), Names(blk');
    var i :| 0 <= i <= |l| && InsertedAt(l, l', x, i);
    assert |l'| == |l| + 1;
  }

  /** The search part of dir_add_entry: the first block with room and what it becomes; failing that,
      `m` is the first unused direct slot (12 if none). */
  method LocateRoom(v: Volume, dir: nat, name: Name, child: nat, ftype: Byte) returns (ok: bool, m: nat, blk: Block)
    requires v.Sound() && dir in v.Files() && 0 < child < U32 && |name| < 256
    ensures var bs, f := v.geo.blockSize, v.inodes[dir];
      && m <= 12 && (forall j :: 0 <= j < m ==> f.block[j] != 0)
      && (forall j :: 0 <= j < m ==> !HasRoom(Content(bs, v.disk, f, Direct(j)), 0, RecordSize(|name|)))
      && (ok ==>
            && m < 12 && f.block[m] != 0 && |blk| == bs
            && HasRoom(Content(bs, v.disk, f, Direct(m)), 0, RecordSize(|name|))
            && Inserted(Names(Content(bs, v.disk, f, Direct(m))), Names(blk), (name, child))
            && (Tiled(Content(bs, v.disk, f, Direct(m))) ==> Tiled(blk)))
      && (!ok && m < 12 ==> f.block[m] == 0)
  {
    hide BitmapsOk, CountsOk, UsedIn, LiveIn, Owns, Content, Names, Inserted, HasRoom, Tiled;
    var f := v.inodes[dir];
    ok, m, blk := false, 0, [];
    while m < 12 && f.block[m] != 0
      invariant m <= 12 && !ok
      invariant forall j :: 0 <= j < m ==> f.block[j] != 0
      invariant forall j :: 0 <= j < m ==>
        !HasRoom(Content(v.geo.blockSize, v.disk, f, Direct(j)), 0, RecordSize(|name|))
    {
      DirBlock(v, dir, m);
      ok, blk := AddInBlock(v.disk[f.block[m]], name, child, ftype);
      if ok { return; }
      m := m + 1;
    }
  }

  /** A new block holding `blk`, attached at the first unused slot, appends its names. */
  lemma DirBlockAttached(bs: nat, disk: seq<Block>, used: set<nat>, files: map<nat, Inode>, own: map<nat, Owner>,
                         dir: nat, m: nat, n: nat, blk: Block, size: nat)
    requires bs >= 4 && DiskOk(bs, disk) && FilesOk(files) && Owns(disk, used, files, own) && dir in files
    requires m < 12 && |blk| == bs && n !in used && 0 < n < |disk|
    requires files[dir].block[m] == 0 && forall j :: 0 <= j < m ==> files[dir].block[j] != 0
    ensures var f := files[dir];
      var disk', f' := disk[n := blk], f.(block := f.block[m := n], size := size);
      && Owns(disk', used + {n}, files[dir := f'], own[n := (dir, Direct(m))])
      && OthersKept(bs, disk, disk', files, dir)
      && DirList(bs, disk', f', 0) == DirList(bs, disk, f, 0) + (Names(blk) + DirList(bs, disk', f', m + 1))
      && (Packed(f) ==> Packed(f') && DirList(bs, disk', f', m + 1) == [])
      && (Packed(f) && DirTiled(bs, disk, f) && Tiled(blk) ==> DirTiled(bs, disk', f'))
  {
    hide Content, Names, DirList, Follow, Written, Tiled;
    var f := files[dir];
    var disk1, f1 := disk[n := Zeros(bs)], f.(block := f.block[m := n]);
    var disk', f', own', files1 := disk[n := blk], f1.(size := size), own[n := (dir, Direct(m))], files[dir := f1];
    AttachRoot(bs, disk, used, files, own, dir, m, n);
    assert RootSlot(m) == Direct(m) && Direct(m).IsData();
    WriteData(bs, disk1, used + {n}, files1, own', dir, Direct(m), blk);
    assert disk1[n := blk] == disk';
    SizeOnly(bs, disk, files, disk', used + {n}, own', dir, f1, size, 0, [], 0);
    forall j, s: Slot | j in files && s.IsData() && !(j == dir && s == Direct(m))
      ensures Content(bs, disk', files1[j], s) == Content(bs, disk, files[j], s)
    {
      assert Content(bs, disk1, files1[j], s) == Content(bs, disk, files[j], s);
    }
    forall j | 0 <= j < m ensures Content(bs, disk', f', Direct(j)) == Content(bs, disk, f, Direct(j)) {
      assert Direct(j).IsData() && Direct(j) != Direct(m);
      ContentIgnoresSize(bs, disk', f1, size, Direct(j));
      assert Content(bs, disk', files1[dir], Direct(j)) == Content(bs, disk, files[dir], Direct(j));
    }
    ContentIgnoresSize(bs, disk', f1, size, Direct(m));
    assert Content(bs, disk', files1[dir], Direct(m)) == blk;
    DirListAppended(bs, disk, f, disk', f', 0, m);
    NoneAfter(bs, disk', f', m + 1);
    forall j, s: Slot | j in files && j != dir && s.IsData()
      ensures Content(bs, disk', files[j], s) == Content(bs, disk, files[j], s)
    {
      assert files1[j] == files[j];
    }
  }

  lemma NoneAfter(bs: nat, disk: seq<Block>, f: Inode, i: nat)
    requires |f.block| == 15
    ensures i >= 12 || f.block[i] == 0 ==> DirList(bs, disk, f, i) == []
  {}

  lemma ContentIgnoresSize(bs: nat, disk: seq<Block>, f: Inode, size: nat, s: Slot)
    requires |f.block| == 15
    ensures Content(bs, disk, f.(size := size), s) == Content(bs, disk, f, s)
  {}

  /** Writing a block that no file holds changes no file. */
  lemma UnownedWritten(bs: nat, disk: seq<Block>, used: set<nat>, files: map<nat, Inode>, own: map<nat, Owner>,
                       b: nat, blk: Block)
    requires FilesOk(files) && Owns(disk, used, files, own) && b < |disk| && b !in used
    ensures Owns(disk[b := blk], used, files, own)
    ensures forall j, s :: j in files ==> Content(bs, disk[b := blk], files[j], s) == Content(bs, disk, files[j], s)
  {
    var disk' := disk[b := blk];
    forall j | j in files ensures forall s :: Ptr(disk', files[j], s) == Ptr(disk, files[j], s) {
      forall s: Slot | !s.IsData() && 0 < Ptr(disk, files[j], s) < |disk|
        ensures disk'[Ptr(disk, files[j], s)] == disk[Ptr(disk, files[j], s)]
      {
        assert Owned(Ptr(disk, files[j], s), |disk|, used, own, (j, s));
      }
      PtrFrame(disk, disk', files[j]);
    }
    forall j, s | j in files ensures Content(bs, disk', files[j], s) == Content(bs, disk, files[j], s) {
      if Ptr(disk, files[j], s) != 0 {
        assert Owned(Ptr(disk, files[j], s), |disk|, used, own, (j, s));
      }
    }
  }

  /** Some block that the driver gets to has a place for a record of `needed` bytes. */
  ghost predicate RoomInDir(bs: nat, disk: seq<Block>, f: Inode, needed: nat)
    requires |f.block| == 15
  {
    exists j :: 0 <= j < 12 && InUse(f, j) && HasRoom(Content(bs, disk, f, Direct(j)), 0, needed)
  }

  /** Direct slots up to `j` hold blocks. */
  ghost predicate InUse(f: Inode, j: nat)
    requires |f.block| == 15 && j < 12
  {
    forall i :: 0 <= i <= j ==> f.block[i] != 0
  }

  /** Some direct slot holds no block. */
  ghost predicate HasHole(f: Inode)
    requires |f.block| == 15
  {
    exists i :: 0 <= i < 12 && f.block[i] == 0
  }

  /** The last part of dir_add_entry: a new block for the directory, attached at slot `m`. */
  method AddBlock(v: Volume, dir: nat, name: Name, child: nat, ftype: Byte, m: nat) returns (ok: bool)
    requires v.Sound() && dir in v.Files() && 0 < child < U32 && |name| < 256 && m <= 12
    requires forall j :: 0 <= j < m ==> v.inodes[dir].block[j] != 0
    requires m < 12 ==> v.inodes[dir].block[m] == 0
    modifies v
    ensures OnlyDir(v, dir)
    ensures ok <==> old(v.freeBlocks) != 0 && m < 12
    ensures ok ==>
      && v.inodes[dir] != old(v.inodes[dir])
      && DirList(v.geo.blockSize, v.disk, v.inodes[dir], 0) ==
           DirList(v.geo.blockSize, old(v.disk), old(v.inodes[dir]), 0)
           + ([(name, child)] + DirList(v.geo.blockSize, v.disk, v.inodes[dir], m + 1))
      && (old(Packed(v.inodes[dir])) ==>
            Packed(v.inodes[dir]) && DirList(v.geo.blockSize, v.disk, v.inodes[dir], m + 1) == [])
      && (old(Packed(v.inodes[dir]) && DirTiled(v.geo.blockSize, v.disk, v.inodes[dir])) ==>
            DirTiled(v.geo.blockSize, v.disk, v.inodes[dir]))
    ensures !ok ==>
      && v.inodes == old(v.inodes) && v.Used() == old(v.Used()) && v.freeBlocks == old(v.freeBlocks)
      && DirList(v.geo.blockSize, v.disk, v.inodes[dir], 0) == DirList(v.geo.blockSize, old(v.disk), v.inodes[dir], 0)
      && (old(IsDirOk(v, dir)) ==> IsDirOk(v, dir))
  {
    hide BitmapsOk, CountsOk, UsedIn, LiveIn, Owns, Content, Names, DirList, Tiled;
    var bs := v.geo.blockSize;
    ghost var files, disk0, used0 := v.Files(), v.disk, v.Used();
    ok := false;
    var b := v.AllocBlock();
    if b == 0 { return; }
    var blk := FreshBlock(bs, child, name, ftype);
    FreshNames(bs, child, name, ftype);
    v.disk := v.disk[b := blk];
    assert v.disk == disk0[b := blk];
    var f := v.inodes[dir];
    if m < 12 {
      var size := (f.size + bs) % U32;
      DirBlockAttached(bs, disk0, used0, files, v.own, dir, m, b, blk, size);
      v.own := v.own[b := (dir, Direct(m))];
      v.inodes := v.inodes[dir := f.(block := f.block[m := b], size := size)];
      assert v.Files() == files[dir := v.inodes[dir]];
      assert v.inodes[dir].block[m] != f.block[m];
      ok := true;
    } else {
      UnownedWritten(bs, disk0, used0, files, v.own, b, blk);
      v.FreeBlock(b);
      assert v.Used() == used0;
      DirListSame(bs, disk0, files[dir], v.disk, files[dir], 0);
      assert v.Files() == files;
    }
  }

  /** dir_add_entry. It succeeds exactly when a block has room, or a block can be allocated and attached; when
      it fails, no list of names changes. An absent name is found afterwards; in a well-formed directory that is
      a map update. */
  method AddEntry(v: Volume, dir: nat, name: Name, child: nat, ftype: Byte) returns (ok: bool)
    requires v.Sound() && dir in v.Files() && 0 < child < U32 && |name| < 256
    modifies v
    ensures OnlyDir(v, dir)
    ensures ok <==>
      || RoomInDir(v.geo.blockSize, old(v.disk), old(v.inodes[dir]), RecordSize(|name|))
      || (old(v.freeBlocks) != 0 && HasHole(old(v.inodes[dir])))
    ensures ok ==> !SameFile(v.geo.blockSize, old(v.disk), old(v.inodes[dir]), v.disk, v.inodes[dir])
    ensures ok && name !in old(MapOfDir(v, dir)) ==> name in MapOfDir(v, dir) && MapOfDir(v, dir)[name] == child
    ensures ok ==> PairsIn(v, dir)[(name, child)] > old(PairsIn(v, dir))[(name, child)]
    ensures forall n :: n in old(MapOfDir(v, dir)) ==> n in MapOfDir(v, dir)
    ensures ok && old(IsDirOk(v, dir)) ==>
      && Inserted(DirList(v.geo.blockSize, old(v.disk), old(v.inodes[dir]), 0),
                  DirList(v.geo.blockSize, v.disk, v.inodes[dir], 0), (name, child))
      && DirTiled(v.geo.blockSize, v.disk, v.inodes[dir])
      && (name !in old(MapOfDir(v, dir)) ==>
            IsDirOk(v, dir) && MapOfDir(v, dir) == old(MapOfDir(v, dir))[name := child])
    ensures !ok ==>
      && (old(IsDirOk(v, dir)) ==> IsDirOk(v, dir)) && MapOfDir(v, dir) == old(MapOfDir(v, dir))
      && v.inodes == old(v.inodes) && v.Used() == old(v.Used()) && v.freeBlocks == old(v.freeBlocks)
  {
    hide BitmapsOk, CountsOk, UsedIn, LiveIn, Owns, Content, Names, Inserted, DirList, ToMap, HasRoom, Tiled, SameFile;
    var f := v.inodes[dir];
    ghost var bs, l := v.geo.blockSize, DirList(v.geo.blockSize, v.disk, v.inodes[dir], 0);
    var m, blk;
    ok, m, blk := LocateRoom(v, dir, name, child, ftype);
    if ok {
      DirBlockWritten(bs, v.disk, v.Used(), v.Files(), v.own, dir, m, blk, (name, child), true);
      v.disk := v.disk[f.block[m] := blk];
      assert v.Files() == old(v.Files());
      DirBlock(v, dir, m);
      InsertedDiffers(Content(bs, old(v.disk), f, Direct(m)), blk, (name, child));
      Differs(bs, old(v.disk), f, v.disk, f, Direct(m));
      if name !in ToMap(l) { FoundAfter(l, DirList(bs, v.disk, f, 0), (name, child)); }
      OthersInserted(l, DirList(bs, v.disk, f, 0), (name, child));
    } else {
      ok := AddBlock(v, dir, name, child, ftype, m);
      ghost var rest := DirList(bs, v.disk, v.inodes[dir], m + 1);
      if ok {
        Appears(l, rest, (name, child));
        forall n ensures n in ToMap(l) ==> n in ToMap(l + ([(name, child)] + rest)) {
          NamesConcat(l, [(name, child)] + rest, n);
        }
        InsertedBetween(l, [], (name, child));
        ghost var one := [(name, child)];
        assert l + [] == l && l + one + [] == l + one && one + [] == one;
        OtherInode(bs, old(v.disk), f, v.disk, v.inodes[dir]);
      }
    }
    if ok && old(IsDirOk(v, dir)) && name !in ToMap(l) {
      InsertIsUpdate(l, DirList(bs, v.disk, v.inodes[dir], 0), (name, child));
    }
  }

  lemma OtherInode(bs: nat, disk: seq<Block>, f: Inode, disk': seq<Block>, f': Inode)
    requires |f.block| == 15 && f' != f
    ensures !SameFile(bs, disk, f, disk', f')
  {}

  /** A name that was not in the list is found where it was put. */
  lemma {:induction false} Appears(l: Pairs, rest: Pairs, x: (Name, nat))
    ensures x.0 !in ToMap(l) ==> x.0 in ToMap(l + ([x] + rest)) && ToMap(l + ([x] + rest))[x.0] == x.1
  {
    if l == [] {
      assert l + ([x] + rest) == [x] + rest;
    } else {
      assert (l + ([x] + rest))[1..] == l[1..] + ([x] + rest);
      Appears(l[1..], rest, x);
    }
  }

  lemma FoundAfter(l: Pairs, l': Pairs, x: (Name, nat))
    requires Inserted(l, l', x) && x.0 !in ToMap(l)
    ensures x.0 in ToMap(l') && ToMap(l')[x.0] == x.1
  {
    hide ToMap;
    var i :| 0 <= i <= |l| && InsertedAt(l, l', x, i);
    assert l == l[..i] + l[i..];
    NamesConcat(l[..i], l[i..], x.0);
    Appears(l[..i], l[i..], x);
    assert l' == l[..i] + ([x] + l[i..]);
  }
}
