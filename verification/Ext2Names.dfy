/** The name space of a volume: lookup, create, unlink and rename (kernel/fs/ext2.c). */
module Ext2Names {
  import opened Machine
  import opened Bytes
  import opened Paths
  import opened Ext2Map
  import opened Ext2Volume
  import opened Ext2File
  import Ext2Dirent
  import opened Ext2Dir

  const ROOT: nat := 2
  const REGULAR_MODE: nat := 0x81a4   // EXT2_IMODE_REG | 0644

  /** (i_mode & 0xF000) == 0x4000 */
  predicate IsDirMode(mode: nat) { mode / 0x1000 % 16 == 4 }

  // ---- Directory trees ---------------------------------------------------------------------

  /** Every directory's map. */
  type Tree = map<nat, map<Name, nat>>

  /** Following components from inode `cur`; 0 when a name is missing or leads through a non-directory. */
  ghost function Resolve(t: Tree, cur: nat, comps: seq<Name>): nat
    decreases |comps|
  {
    if comps == [] then cur
    else if cur !in t || comps[0] !in t[cur] then 0
    else Resolve(t, t[cur][comps[0]], comps[1..])
  }

  ghost function Set(m: map<Name, nat>, name: Name, child: nat): map<Name, nat> { m[name := child] }

  /** One name set, or removed, in one directory; what is no directory is not part of the name space. */
  ghost function Bind(t: Tree, dir: nat, name: Name, child: nat): Tree {
    if dir in t then t[dir := Set(t[dir], name, child)] else t
  }

  ghost function Unbind(t: Tree, dir: nat, name: Name): Tree {
    if dir in t then t[dir := t[dir] - {name}] else t
  }

  /** No component is looked up in something that is not a directory. */
  ghost predicate ThroughDirs(t: Tree, cur: nat, comps: seq<Name>)
    decreases |comps|
  {
    comps != [] ==> cur in t && (comps[0] in t[cur] ==> ThroughDirs(t, t[cur][comps[0]], comps[1..]))
  }

  /** The last component is looked up in the directory that the others lead to. */
  lemma {:induction false} ResolveLast(t: Tree, cur: nat, comps: seq<Name>, name: Name)
    requires 0 !in t
    ensures Resolve(t, cur, comps + [name]) ==
      var d := Resolve(t, cur, comps); if d in t && name in t[d] then t[d][name] else 0
    ensures ThroughDirs(t, cur, comps + [name]) ==>
      ThroughDirs(t, cur, comps) && (Resolve(t, cur, comps) == 0 || Resolve(t, cur, comps) in t)
    decreases |comps|
  {
    var c := comps + [name];
    if comps == [] {
      assert c[1..] == [];
    } else {
      assert c[1..] == comps[1..] + [name] && c[0] == comps[0];
      if cur in t && comps[0] in t[cur] {
        ResolveLast(t, t[cur][comps[0]], comps[1..], name);
      }
    }
  }

  // ---- The tree of a volume -------------------------------------------------------------------

  /** The volume is sound and every live directory is a well-formed list of distinct names. */
  ghost predicate Named(v: Volume)
    reads v
    ensures Named(v) ==> v.Sound()
  {
    && v.Sound()
    && forall k :: k in v.Files() && IsDirMode(v.inodes[k].mode) ==> IsDirOk(v, k)
  }

  ghost function TreeOf(v: Volume): (t: Tree)
    reads v
    requires v.Valid()
    ensures 0 !in t
  {
    map k | k in v.Files() && IsDirMode(v.inodes[k].mode) :: MapOfDir(v, k)
  }

  /** What a search finds in every live inode, directory or not: the driver does not look at the mode. */
  ghost function AllMaps(v: Volume): (t: Tree)
    reads v
    requires v.Valid()
    ensures 0 !in t
  {
    map k | k in v.Files() :: MapOfDir(v, k)
  }

  /** A path that leads only through directories resolves in the tree as the driver resolves it. */
  lemma {:induction false} ThroughSame(t: Tree, t': Tree, cur: nat, comps: seq<Name>)
    requires (forall k :: k in t ==> k in t' && t'[k] == t[k]) && ThroughDirs(t, cur, comps)
    ensures ThroughDirs(t', cur, comps) && Resolve(t', cur, comps) == Resolve(t, cur, comps)
    decreases |comps|
  {
    if comps != [] && comps[0] in t[cur] { ThroughSame(t, t', t[cur][comps[0]], comps[1..]); }
  }

  /** What the operations on names are stated about. */
  datatype State = State(disk: seq<Block>, files: map<nat, Inode>, used: set<nat>, live: set<nat>, freeBlocks: nat,
                         freeInodes: nat, tree: Tree)
  {
    ghost predicate Ok() { FilesOk(files) }

    /** What a search finds in inode `k`, and its records, with repetitions. */
    ghost function Dir(bs: nat, k: nat): map<Name, nat>
      requires Ok() && k in files
    {
      DirMap(bs, disk, files[k])
    }

    ghost function Pairs(bs: nat, k: nat): multiset<(Name, nat)>
      requires Ok() && k in files
    {
      multiset(DirList(bs, disk, files[k], 0))
    }
  }

  ghost function Now(v: Volume): (a: State)
    reads v
    requires v.Valid()
    ensures a.Ok()
  {
    State(v.disk, v.Files(), v.Used(), v.Live(), v.freeBlocks, v.freeInodes, TreeOf(v))
  }

  /** File `k` keeps its inode and contents. */
  ghost predicate Same(bs: nat, a: State, b: State, k: nat)
    requires a.Ok() && k in a.files
  {
    k in b.files && SameFile(bs, a.disk, a.files[k], b.disk, b.files[k])
  }

  /** All files but the listed ones do. */
  ghost predicate Kept(bs: nat, a: State, b: State, but: set<nat>)
    requires a.Ok()
  {
    forall j :: j in a.files && j !in but ==> Same(bs, a, b, j)
  }

  /** All that is not a directory does, but for the listed inodes. */
  ghost predicate RegularKept(bs: nat, a: State, b: State, but: set<nat>)
    requires a.Ok()
  {
    Kept(bs, a, b, a.tree.Keys + but)
  }

  lemma KeptTwice(bs: nat, a: State, b: State, c: State, but: set<nat>, but': set<nat>)
    requires a.Ok() && b.Ok() && Kept(bs, a, b, but) && Kept(bs, b, c, but')
    ensures Kept(bs, a, c, but + but')
  {
    forall j | j in a.files && j !in but + but' ensures Same(bs, a, c, j) { SameTwice(bs, a, b, c, j); }
  }

  lemma SameTwice(bs: nat, a: State, b: State, c: State, k: nat)
    requires a.Ok() && b.Ok() && k in a.files && Same(bs, a, b, k)
    ensures Same(bs, b, c, k) <==> Same(bs, a, c, k)
  {
    hide Content;
  }

  /** Files that stay in place on an unchanged disk. */
  lemma KeptInPlace(bs: nat, a: State, b: State, but: set<nat>)
    requires a.Ok() && b.disk == a.disk
    requires forall j :: j in a.files && j !in but ==> j in b.files && b.files[j] == a.files[j]
    ensures Kept(bs, a, b, but)
  {
    hide Content;
  }

  lemma KeptBesides(bs: nat, a: State, b: State, dir: nat)
    requires a.Ok() && dir in a.files && dir in b.files && b.files == a.files[dir := b.files[dir]]
    requires OthersKept(bs, a.disk, b.disk, a.files, dir)
    ensures Kept(bs, a, b, {dir})
  {
    hide Content;
    forall j | j in a.files && j !in {dir} ensures Same(bs, a, b, j) {
      forall s: Slot | s.IsData() ensures Content(bs, b.disk, a.files[j], s) == Content(bs, a.disk, a.files[j], s) {}
    }
  }

  lemma KeptMore(bs: nat, a: State, b: State, but: set<nat>, but': set<nat>)
    requires a.Ok() && Kept(bs, a, b, but) && but <= but'
    ensures Kept(bs, a, b, but')
  {
    hide Same;
  }

  /** Where `k` changed and is the one changed file outside `but`, the others are kept exactly if `but` holds it. */
  lemma KeptIff(bs: nat, a: State, b: State, but: set<nat>, k: nat)
    requires a.Ok() && Kept(bs, a, b, but + {k}) && k in a.files && !Same(bs, a, b, k)
    ensures Kept(bs, a, b, but) <==> k in but
  {
    hide Same;
    if k in but { assert but + {k} == but; }
  }

  /** A file that keeps its inode and contents is searched with the same result. */
  lemma SameDir(bs: nat, a: State, b: State, k: nat)
    requires a.Ok() && b.Ok() && k in a.files && Same(bs, a, b, k)
    ensures b.Dir(bs, k) == a.Dir(bs, k) && b.Pairs(bs, k) == a.Pairs(bs, k)
  {
    hide Content, DirList, ToMap;
    forall j | 0 <= j < 12
      ensures Content(bs, b.disk, b.files[k], Direct(j)) == Content(bs, a.disk, a.files[k], Direct(j))
    {
      assert Direct(j).IsData();
    }
    DirListSame(bs, a.disk, a.files[k], b.disk, b.files[k], 0);
  }

  /** The tree of a state is made of its directories, which are all well formed. */
  ghost predicate TreeIs(bs: nat, a: State)
    requires a.Ok()
  {
    && a.tree == (map k | k in a.files && IsDirMode(a.files[k].mode) :: DirMap(bs, a.disk, a.files[k]))
    && forall k :: k in a.files && IsDirMode(a.files[k].mode) ==> DirOk(bs, a.disk, a.files[k])
  }

  lemma TreeNow(v: Volume)
    requires Named(v)
    ensures TreeIs(v.geo.blockSize, Now(v))
  {
    hide BitmapsOk, CountsOk, UsedIn, LiveIn, Owns, DirList, ToMap, DirTiled;
  }

  /** A change to one inode changes one entry of the tree, if that inode is a directory. */
  lemma TreeAfterDir(v: Volume, a: State, dir: nat)
    requires a.Ok() && TreeIs(v.geo.blockSize, a) && v.Sound() && dir in a.files && dir < |v.inodes|
    requires IsDirMode(a.files[dir].mode) ==> IsDirOk(v, dir)
    requires v.Files() == a.files[dir := v.inodes[dir]] && v.inodes[dir].mode == a.files[dir].mode
    requires OthersKept(v.geo.blockSize, a.disk, v.disk, a.files, dir)
    ensures Named(v) && TreeOf(v) == if IsDirMode(a.files[dir].mode) then a.tree[dir := MapOfDir(v, dir)] else a.tree
  {
    hide BitmapsOk, CountsOk, UsedIn, LiveIn, Owns, Content, DirList, ToMap, DirTiled;
    var bs := v.geo.blockSize;
    forall k | k in a.files && k != dir
      ensures v.Files()[k] == a.files[k]
      ensures DirList(bs, v.disk, a.files[k], 0) == DirList(bs, a.disk, a.files[k], 0)
      ensures DirTiled(bs, a.disk, a.files[k]) ==> DirTiled(bs, v.disk, a.files[k])
    {
      forall j | 0 <= j < 12
        ensures Content(bs, v.disk, a.files[k], Direct(j)) == Content(bs, a.disk, a.files[k], Direct(j))
      {
        assert Direct(j).IsData();
      }
      DirListSame(bs, a.disk, a.files[k], v.disk, a.files[k], 0);
      if DirTiled(bs, a.disk, a.files[k]) { DirTiledSame(bs, a.disk, a.files[k], v.disk, a.files[k]); }
    }
  }

  /** Neither blocks nor directories changed: same tree on the same live directories. */
  twostate lemma TreeSame(v: Volume)
    requires old(Named(v)) && v.Sound() && v.disk == old(v.disk)
    requires forall k :: k in v.Files() && IsDirMode(v.inodes[k].mode) ==>
      k in old(v.Files()) && v.inodes[k].block == old(v.inodes[k].block) && IsDirMode(old(v.inodes[k].mode))
    requires forall k :: k in old(v.Files()) && IsDirMode(old(v.inodes[k].mode)) ==>
      k in v.Files() && IsDirMode(v.inodes[k].mode)
    ensures Named(v) && TreeOf(v) == old(TreeOf(v))
  {
    hide BitmapsOk, CountsOk, UsedIn, LiveIn, Owns, ToMap;
    forall k | k in v.Files() && IsDirMode(v.inodes[k].mode)
      ensures DirList(v.geo.blockSize, v.disk, v.inodes[k], 0) ==
        DirList(v.geo.blockSize, old(v.disk), old(v.inodes[k]), 0)
    {
      DirListSame(v.geo.blockSize, old(v.disk), old(v.inodes[k]), v.disk, v.inodes[k], 0);
    }
  }

  // ---- ext2_lookup -----------------------------------------------------------------------------

  /** Components fit the driver's 8-bit name length. */
  ghost predicate ShortNames(comps: seq<Name>) { forall i :: 0 <= i < |comps| ==> |comps[i]| < 256 }

  /** ext2_lookup: an absolute path resolves through the live inodes; 0 stands for failure. */
  method Lookup(v: Volume, path: Path) returns (ino: nat)
    requires v.Sound()
    requires path != [] && path[0] == SLASH ==>
      ShortNames(Comps(path)) && ThroughDirs(AllMaps(v), ROOT, Comps(path))
    ensures ino == if path == [] || path[0] != SLASH then 0 else Resolve(AllMaps(v), ROOT, Comps(path))
  {
    hide BitmapsOk, CountsOk, UsedIn, LiveIn, Owns, DirList, ToMap, Ext2Dirent.Get;
    if path == [] || path[0] != SLASH { return 0; }
    ghost var t := AllMaps(v);
    var cur, p := ROOT, 1;
    while p < |path|
      invariant 1 <= p <= |path|
      invariant Resolve(t, ROOT, Comps(path)) == Resolve(t, cur, Comps(path[p..]))
      invariant ThroughDirs(t, cur, Comps(path[p..])) && ShortNames(Comps(path[p..]))
    {
      ghost var rest := path[p..];
      var n := CompLen(path[p..]);
      if n == 0 {
        assert rest[1..] == path[p + 1..];
        p := p + 1;
      } else {
        var name := path[p..p + n];
        ghost var cs := Comps(rest);
        assert rest[..n] == name && rest[n..] == path[p + n..];
        assert cs == [name] + Comps(path[p + n..]);
        assert cs[1..] == Comps(path[p + n..]);
        assert |cs[0]| < 256;
        assert forall i :: 0 <= i < |cs| - 1 ==> cs[1..][i] == cs[i + 1];
        var found := FindInDir(v, cur, name);
        if found == 0 {
          assert name in t[cur] ==> t[cur][name] == 0;
          return 0;
        }
        cur := found;
        p := if p + n < |path| then p + n + 1 else p + n;
      }
    }
    assert path[p..] == [];
    ino := cur;
  }

  // ---- ext2_create ------------------------------------------------------------------------------

  /** The leaf that path_split accepts: not empty and at most 254 bytes. */
  predicate LeafOk(path: Path)
    requires path != []
  {
    path[|path| - 1] != SLASH && Comps(path) != [] && |Comps(path)[|Comps(path)| - 1]| <= 254
  }

  function Leaf(path: Path): Name
    requires Comps(path) != []
  {
    Comps(path)[|Comps(path)| - 1]
  }

  /** The inode of the directory that holds the last component. */
  ghost function ParentOf(t: Tree, path: Path): nat {
    var cs := Comps(path);
    if cs == [] then 0 else Resolve(t, ROOT, cs[..|cs| - 1])
  }

  /** What the driver's callers guarantee of a path: absolute and below the 256-byte buffers. Here it leads
      through entries of `t` only. */
  ghost predicate PathOk(t: Tree, path: Path) {
    && path != [] && path[0] == SLASH && |path| < 256
    && ThroughDirs(t, ROOT, Comps(path))
  }

  /** path_split and the lookup of the parent, as create, unlink and rename begin. */
  method SplitAndFindParent(v: Volume, path: Path) returns (ok: bool, parent: nat, name: Name)
    requires v.Sound() && PathOk(AllMaps(v), path)
    ensures ok <==> LeafOk(path)
    ensures ok ==>
      && name == Leaf(path) && |name| <= 254 && parent == ParentOf(AllMaps(v), path)
      && (parent == 0 || parent in AllMaps(v))
      && Resolve(AllMaps(v), ROOT, Comps(path)) ==
           if parent != 0 && name in AllMaps(v)[parent] then AllMaps(v)[parent][name] else 0
  {
    hide BitmapsOk, CountsOk, UsedIn, LiveIn, Owns, DirList, ToMap, Ext2Dirent.Get, MapOfDir;
    parent := 0;
    var parentPath;
    ok, parentPath, name := PathSplit(path);
    if ok {
      ghost var t, cs := AllMaps(v), Comps(parentPath);
      ResolveLast(t, ROOT, cs, name);
      assert (cs + [name])[..|cs|] == cs;
      CompsShort(parentPath);
      parent := Lookup(v, parentPath);
    }
  }

  /** The tree is part of what the driver can find. */
  lemma TreeInMaps(v: Volume)
    requires v.Valid()
    ensures forall k :: k in TreeOf(v) ==> k in AllMaps(v) && AllMaps(v)[k] == TreeOf(v)[k]
  {
    hide MapOfDir;
  }

  /** A path through directories: what the driver finds is what the tree says. */
  lemma PathInTree(t: Tree, t': Tree, path: Path)
    requires 0 !in t && (forall k :: k in t ==> k in t' && t'[k] == t[k]) && PathOk(t, path)
    ensures PathOk(t', path) && ShortNames(Comps(path))
    ensures Resolve(t', ROOT, Comps(path)) == Resolve(t, ROOT, Comps(path))
    ensures Comps(path) != [] ==>
      var p := ParentOf(t, path);
      && ParentOf(t', path) == p && (p == 0 || p in t)
      && Resolve(t, ROOT, Comps(path)) == if p != 0 && Leaf(path) in t[p] then t[p][Leaf(path)] else 0
  {
    hide Comps, Resolve, ThroughDirs;
    var cs := Comps(path);
    CompsShort(path);
    ThroughSame(t, t', ROOT, cs);
    if cs != [] {
      var front := cs[..|cs| - 1];
      assert front + [Leaf(path)] == cs;
      ResolveLast(t, ROOT, front, Leaf(path));
      ThroughSame(t, t', ROOT, front);
    }
  }

  const NEW_FILE: Inode := Inode(REGULAR_MODE, 1, 0, NO_BLOCKS)

  lemma EmptyFileOwnsNothing(disk: seq<Block>, used: set<nat>, files: map<nat, Inode>, own: map<nat, Owner>, k: nat)
    requires FilesOk(files) && Owns(disk, used, files, own)
    ensures Owns(disk, used, files[k := NEW_FILE], own)
  {}

  /** A new, empty regular file that no directory names yet. */
  method NewInode(v: Volume) returns (ino: nat)
    requires Named(v)
    modifies v`groups, v`freeInodes, v`inodes
    ensures Named(v) && v.Used() == old(v.Used()) && TreeOf(v) == old(TreeOf(v))
    ensures ino == 0 <==> old(v.freeInodes) == 0
    ensures ino == 0 ==> v.Live() == old(v.Live()) && v.freeInodes == old(v.freeInodes) && v.inodes == old(v.inodes)
    ensures ino != 0 ==>
      && 1 < ino < |v.inodes| && ino !in old(v.Live()) && v.Live() == old(v.Live()) + {ino}
      && v.freeInodes == old(v.freeInodes) - 1 && v.inodes == old(v.inodes)[ino := NEW_FILE]
      && v.Files() == old(v.Files())[ino := NEW_FILE]
  {
    hide BitmapsOk, CountsOk, UsedIn, LiveIn, Owns, DirList, ToMap;
    ghost var files := v.Files();
    ino := v.AllocInode();
    if ino != 0 {
      EmptyFileOwnsNothing(v.disk, v.Used(), files, v.own, ino);
      v.inodes := v.inodes[ino := NEW_FILE];
      assert v.Files() == files[ino := NEW_FILE];
    } else {
      assert v.Files() == files;
    }
    TreeSame(v);
  }

  lemma FewerFiles(disk: seq<Block>, used: set<nat>, files: map<nat, Inode>, own: map<nat, Owner>, k: nat)
    requires FilesOk(files) && Owns(disk, used, files, own)
    ensures Owns(disk, used, files - {k}, own)
  {}

  /** free_inode on a file that is not a directory. */
  method DropInode(v: Volume, ino: nat)
    requires Named(v) && ino in v.Files() && 1 < ino && !IsDirMode(v.inodes[ino].mode)
    modifies v`groups, v`freeInodes
    ensures Named(v) && v.Used() == old(v.Used()) && TreeOf(v) == old(TreeOf(v))
    ensures v.Live() == old(v.Live()) - {ino} && v.freeInodes == old(v.freeInodes) + 1
    ensures v.Files() == old(v.Files()) - {ino}
  {
    hide BitmapsOk, CountsOk, UsedIn, LiveIn, Owns, DirList, ToMap;
    FewerFiles(v.disk, v.Used(), v.Files(), v.own, ino);
    v.FreeInode(ino);
    assert v.Files() == old(v.Files()) - {ino};
    TreeSame(v);
  }

  /** When dir_add_entry finds a place: a record in an existing block, or a new block. */
  ghost predicate CanAdd(geo: Geometry, a: State, dir: nat, name: Name)
    requires a.Ok() && dir in a.files
  {
    || RoomInDir(geo.blockSize, a.disk, a.files[dir], Ext2Dirent.RecordSize(|name|))
    || (a.freeBlocks != 0 && HasHole(a.files[dir]))
  }

  /** From `a` to `b` only inode `dir` changed, and not its mode and links. */
  ghost predicate OnlyIn(bs: nat, a: State, b: State, dir: nat)
    requires a.Ok() && dir in a.files
    ensures OnlyIn(bs, a, b, dir) ==> dir in b.files && b.files.Keys == a.files.Keys
  {
    && dir in b.files && b.files == a.files[dir := b.files[dir]] && b.live == a.live && b.freeInodes == a.freeInodes
    && b.files[dir].mode == a.files[dir].mode && b.files[dir].links == a.files[dir].links
    && Kept(bs, a, b, {dir})
  }

  /** The name `name` for `child` was added to `dir`. */
  ghost predicate Added(bs: nat, a: State, b: State, dir: nat, name: Name, child: nat)
    requires a.Ok() && b.Ok() && dir in a.files && dir in b.files
  {
    && b.tree == Bind(a.tree, dir, name, child) && !Same(bs, a, b, dir)
    && (name !in a.Dir(bs, dir) ==> name in b.Dir(bs, dir) && b.Dir(bs, dir)[name] == child)
    && (forall n :: n in a.Dir(bs, dir) ==> n in b.Dir(bs, dir))
    && b.Pairs(bs, dir)[(name, child)] > a.Pairs(bs, dir)[(name, child)]
  }

  /** The first record of `name` was removed from `dir`. */
  ghost predicate Removed(bs: nat, a: State, b: State, dir: nat, name: Name)
    requires a.Ok() && b.Ok() && dir in a.files && dir in b.files && name in a.Dir(bs, dir)
  {
    && b.tree == Unbind(a.tree, dir, name) && !Same(bs, a, b, dir)
    && (forall n :: n != name && n in a.Dir(bs, dir) ==> n in b.Dir(bs, dir))
    && a.Pairs(bs, dir) == b.Pairs(bs, dir) + multiset{(name, a.Dir(bs, dir)[name])}
  }

  /** dir_add_entry seen on the name space; a directory does not have the name yet. */
  method AddName(v: Volume, dir: nat, name: Name, child: nat, ftype: Byte) returns (ok: bool)
    requires Named(v) && dir in v.Files() && 0 < child < U32 && |name| < 256
    requires dir in TreeOf(v) ==> name !in MapOfDir(v, dir)
    modifies v
    ensures Named(v) && OnlyIn(v.geo.blockSize, old(Now(v)), Now(v), dir)
    ensures ok <==> CanAdd(v.geo, old(Now(v)), dir, name)
    ensures ok ==> Added(v.geo.blockSize, old(Now(v)), Now(v), dir, name, child)
    ensures !ok ==> TreeOf(v) == old(TreeOf(v)) && v.Used() == old(v.Used())
  {
    hide BitmapsOk, CountsOk, UsedIn, LiveIn, Owns, DirList, ToMap, RoomInDir, HasHole, Ext2Dirent.Inserted, OthersKept,
      Kept, DirTiled, SameFile, TreeOf, TreeIs, DirOk, Named;
    ghost var a := Now(v);
    InTree(v, dir);
    TreeNow(v);
    DirNow(v, dir);
    ok := AddEntry(v, dir, name, child, ftype);
    assert v.Files() == a.files[dir := v.inodes[dir]];
    TreeAfterDir(v, a, dir);
    KeptBesides(v.geo.blockSize, a, Now(v), dir);
  }

  /** dir_remove_entry seen on the name space. */
  method RemoveName(v: Volume, dir: nat, name: Name) returns (ok: bool)
    requires Named(v) && dir in v.Files()
    modifies v`disk
    ensures Named(v) && OnlyIn(v.geo.blockSize, old(Now(v)), Now(v), dir) && v.Files() == old(v.Files())
    ensures ok <==> name in old(MapOfDir(v, dir))
    ensures ok ==>
      Removed(v.geo.blockSize, old(Now(v)), Now(v), dir, name) && CanAdd(v.geo, Now(v), dir, name)
    ensures !ok ==> TreeOf(v) == old(TreeOf(v))
  {
    hide BitmapsOk, CountsOk, UsedIn, LiveIn, Owns, DirList, ToMap, OthersKept, RoomInDir, HasHole, Kept, DirTiled,
      SameFile, Ext2Dirent.Inserted, TreeOf, TreeIs, DirOk, Named;
    ghost var a := Now(v);
    InTree(v, dir);
    TreeNow(v);
    DirNow(v, dir);
    ok := RemoveEntry(v, dir, name);
    assert v.Files() == a.files[dir := v.inodes[dir]];
    TreeAfterDir(v, a, dir);
    KeptBesides(v.geo.blockSize, a, Now(v), dir);
  }

  lemma InMaps(v: Volume, k: nat)
    requires v.Valid()
    ensures k in AllMaps(v) <==> k in v.Files()
    ensures k in v.Files() ==> AllMaps(v)[k] == MapOfDir(v, k)
  {
    hide MapOfDir;
  }

  lemma DirNow(v: Volume, dir: nat)
    requires Named(v) && dir in v.Files()
    ensures IsDirMode(v.inodes[dir].mode) ==> IsDirOk(v, dir)
  {
    hide BitmapsOk, CountsOk, UsedIn, LiveIn, Owns, DirOk;
  }

  lemma InTree(v: Volume, dir: nat)
    requires v.Valid()
    ensures dir in TreeOf(v) <==> dir in v.Files() && IsDirMode(v.inodes[dir].mode)
    ensures dir in TreeOf(v) ==> TreeOf(v)[dir] == MapOfDir(v, dir)
  {
    hide MapOfDir;
  }

  ghost predicate EmptyFile(f: Inode) {
    && f.mode == REGULAR_MODE && f.links == 1 && f.size == 0
    && |f.block| == 15 && forall i :: 0 <= i < 15 ==> f.block[i] == 0
  }

  /** A new empty file `ino` was made, with the name `name` in `p`. No file but `p` changed, and what is not a
      directory kept inode and contents if and only if `p` is a directory. */
  ghost predicate Created(bs: nat, a: State, b: State, p: nat, name: Name, ino: nat)
    requires a.Ok() && b.Ok() && p in a.files
  {
    && b.tree == Bind(a.tree, p, name, ino)
    && p in b.files && name in b.Dir(bs, p) && b.Dir(bs, p)[name] == ino
    && 1 < ino && ino !in a.live && b.live == a.live + {ino} && ino in b.files && EmptyFile(b.files[ino])
    && b.freeInodes == a.freeInodes - 1
    && Kept(bs, a, b, {p})
    && (RegularKept(bs, a, b, {}) <==> IsDirMode(a.files[p].mode))
  }

  /** The name space, the inodes in use and their number, and the blocks in use are as before, and every file. */
  ghost predicate Restored(bs: nat, a: State, b: State, p: nat)
    requires a.Ok()
  {
    && b.tree == a.tree && b.live == a.live && b.freeInodes == a.freeInodes && b.used == a.used
    && Kept(bs, a, b, {p})
  }

  /** ext2_create: a new empty regular file under an absent name; or nothing changes in the name space. The
      driver does not look at the parent's mode. */
  method Create(v: Volume, path: Path) returns (ino: nat)
    requires Named(v) && PathOk(AllMaps(v), path)
    modifies v
    ensures Named(v)
    ensures ino != 0 <==> old(CanCreate(v, path))
    ensures ino != 0 ==>
      Created(v.geo.blockSize, old(Now(v)), Now(v), ParentOf(old(AllMaps(v)), path), Leaf(path), ino)
    ensures ino == 0 ==> Restored(v.geo.blockSize, old(Now(v)), Now(v), ParentOf(old(AllMaps(v)), path))
  {
    hide BitmapsOk, CountsOk, UsedIn, LiveIn, Owns, DirList, ToMap, CanAdd, Resolve, ThroughDirs, Comps, Kept, AllMaps,
      TreeOf, Named, SameFile, MapOfDir;
    CompsShort(path);
    KeptInPlace(v.geo.blockSize, Now(v), Now(v), {ParentOf(AllMaps(v), path)});
    var ok, parent, name := SplitAndFindParent(v, path);
    InMaps(v, parent);
    if !ok || parent == 0 { return 0; }
    var there := Lookup(v, path);
    MapValues(v, parent, name);
    if there != 0 { return 0; }
    ino := CreateIn(v, parent, name);
  }

  /** When a create succeeds: valid leaf, parent found, name absent, and an inode and a place for the name. */
  ghost predicate CanCreate(v: Volume, path: Path)
    reads v
    requires v.Valid() && path != []
  {
    var p := ParentOf(AllMaps(v), path);
    && LeafOk(path) && p in v.Files() && Leaf(path) !in MapOfDir(v, p) && v.freeInodes != 0
    && CanAdd(v.geo, Now(v), p, Leaf(path))
  }

  lemma MapValues(v: Volume, k: nat, name: Name)
    requires v.Valid() && k in v.Files()
    ensures name in MapOfDir(v, k) ==> MapOfDir(v, k)[name] != 0
  {
    hide DirList, ToMap, Ext2Dirent.Get;
    SearchNonzero(v.geo.blockSize, v.disk, v.inodes[k], name);
  }

  /** The steps of ext2_create that change the volume. */
  method CreateIn(v: Volume, parent: nat, name: Name) returns (ino: nat)
    requires Named(v) && parent in v.Files() && name !in MapOfDir(v, parent) && |name| <= 254
    modifies v
    ensures Named(v)
    ensures ino != 0 <==> old(v.freeInodes) != 0 && CanAdd(v.geo, old(Now(v)), parent, name)
    ensures ino != 0 ==> Created(v.geo.blockSize, old(Now(v)), Now(v), parent, name, ino)
    ensures ino == 0 ==> Restored(v.geo.blockSize, old(Now(v)), Now(v), parent)
  {
    hide BitmapsOk, CountsOk, UsedIn, LiveIn, Owns, DirList, ToMap, RoomInDir, HasHole, Kept, Named, TreeOf, SameFile,
      Same;
    InTree(v, parent);
    ghost var bs, a := v.geo.blockSize, Now(v);
    ino := NewInode(v);
    ghost var b := Now(v);
    KeptInPlace(bs, a, b, {});
    KeptInPlace(bs, a, b, {parent});
    if ino == 0 { return; }
    var ok := AddName(v, parent, name, ino, 1);
    ghost var c := Now(v);
    KeptTwice(bs, a, b, c, {}, {parent});
    assert {} + {parent} == {parent};
    if ok {
      SameHere(bs, a, b, parent);
      SameTwice(bs, a, b, c, parent);
      RegularIff(bs, a, c, {}, parent);
    } else {
      DropInode(v, ino);
      KeptLess(bs, a, c, Now(v), {parent}, ino);
      ino := 0;
    }
  }

  lemma SameHere(bs: nat, a: State, b: State, k: nat)
    requires a.Ok() && k in a.files && k in b.files && b.disk == a.disk && b.files[k] == a.files[k]
    ensures Same(bs, a, b, k)
  {
    hide Content;
  }

  /** Where `k` is the one changed file outside `but`, all that is no directory is kept exactly if `k` is one. */
  lemma RegularIff(bs: nat, a: State, b: State, but: set<nat>, k: nat)
    requires a.Ok() && Kept(bs, a, b, but + {k}) && k in a.files && k !in but && !Same(bs, a, b, k)
    ensures RegularKept(bs, a, b, but) <==> k in a.tree
  {
    hide Same, Kept;
    KeptMore(bs, a, b, but + {k}, a.tree.Keys + but + {k});
    KeptIff(bs, a, b, a.tree.Keys + but, k);
  }

  /** A file that was not there before may go. */
  lemma KeptLess(bs: nat, a: State, b: State, c: State, but: set<nat>, k: nat)
    requires a.Ok() && k !in a.files && Kept(bs, a, b, but) && c.disk == b.disk && c.files == b.files - {k}
    ensures Kept(bs, a, c, but)
  {
    hide Content, SameFile;
  }

  /** Below a regular file without blocks the driver creates a file too, and puts a directory record into it. */
  method CreateBelowFile(v: Volume, path: Path) returns (ino: nat)
    requires Named(v) && PathOk(AllMaps(v), path) && LeafOk(path) && v.freeInodes != 0 && v.freeBlocks != 0
    requires var p := ParentOf(AllMaps(v), path);
      p in v.Files() && v.inodes[p].block == NO_BLOCKS && !IsDirMode(v.inodes[p].mode)
    modifies v
    ensures Named(v) && ino != 0 && TreeOf(v) == old(TreeOf(v))
    ensures var p := ParentOf(old(AllMaps(v)), path);
      p in v.Files() && Leaf(path) in MapOfDir(v, p) && MapOfDir(v, p)[Leaf(path)] == ino
    ensures !RegularKept(v.geo.blockSize, old(Now(v)), Now(v), {})
  {
    hide BitmapsOk, CountsOk, UsedIn, LiveIn, Owns, ToMap, Resolve, ThroughDirs, Comps, Kept, AllMaps, TreeOf, Named,
      SameFile, RoomInDir;
    ghost var p := ParentOf(AllMaps(v), path);
    InTree(v, p);
    NoNamesYet(v.geo.blockSize, v.disk, v.inodes[p]);
    ino := Create(v, path);
  }

  lemma NoNamesYet(bs: nat, disk: seq<Block>, f: Inode)
    requires f.block == NO_BLOCKS
    ensures DirMap(bs, disk, f) == map[] && HasHole(f)
  {
    assert f.block[0] == 0;
  }

  // ---- ext2_unlink --------------------------------------------------------------------------------

  lemma OwnsByBlocks(disk: seq<Block>, used: set<nat>, files: map<nat, Inode>, own: map<nat, Owner>, k: nat, f: Inode,
                     g: Inode)
    requires FilesOk(files) && |f.block| == 15 && g.block == f.block && Owns(disk, used, files[k := f], own)
    ensures Owns(disk, used, files[k := g], own)
  {}

  /** The link-count part of ext2_unlink: the last link releases the blocks and the inode. */
  method DropLink(v: Volume, ino: nat)
    requires Named(v) && ino in v.Files() && 1 < ino && !IsDirMode(v.inodes[ino].mode)
    modifies v`groups, v`freeBlocks, v`freeInodes, v`inodes
    ensures Named(v) && TreeOf(v) == old(TreeOf(v)) && |v.inodes| == |old(v.inodes)|
    ensures old(v.inodes[ino].links) <= 1 ==>
      && v.Files() == old(v.Files()) - {ino} && v.Live() == old(v.Live()) - {ino}
      && v.freeInodes == old(v.freeInodes) + 1
      && v.Used() == old(v.Used()) - Released(v.geo.Ptrs(), v.disk, old(v.inodes[ino]))
    ensures old(v.inodes[ino].links) > 1 ==>
      && v.Live() == old(v.Live()) && v.freeInodes == old(v.freeInodes) && v.Used() == old(v.Used())
      && v.Files() == old(v.Files())[ino := old(v.inodes[ino]).(links := old(v.inodes[ino].links) - 1)]
  {
    hide BitmapsOk, CountsOk, UsedIn, LiveIn, Owns, DirList, ToMap, Released;
    ghost var files := v.Files();
    var f := v.inodes[ino];
    assert files[ino := f] == files;
    if f.links > 1 {
      var g := f.(links := f.links - 1);
      OwnsByBlocks(v.disk, v.Used(), files, v.own, ino, f, g);
      v.inodes := v.inodes[ino := g];
      assert v.Files() == files[ino := g];
      TreeSame(v);
    } else {
      var g := FreeTree(v, ino, f);
      OwnsByBlocks(v.disk, v.Used(), files, v.own, ino, g, g.(links := 0, size := 0));
      v.inodes := v.inodes[ino := g.(links := 0, size := 0)];
      assert v.Files() == files[ino := g.(links := 0, size := 0)];
      TreeSame(v);
      DropInode(v, ino);
      assert v.Files() == files - {ino};
    }
  }

  /** A path leads to nothing, or to a live file that is not a directory. */
  ghost predicate NamesFile(v: Volume, path: Path)
    reads v
    requires v.Valid()
  {
    var k := Resolve(AllMaps(v), ROOT, Comps(path));
    k == 0 || (1 < k && k in v.Files() && !IsDirMode(v.inodes[k].mode))
  }

  /** An inode with one link less. */
  function LinkLess(f: Inode): Inode { f.(links := if f.links > 0 then f.links - 1 else 0) }

  /** One link of file `k` is gone; the last one returned the inode and its direct and single-indirect blocks. */
  ghost predicate LinkDropped(geo: Geometry, a: State, b: State, k: nat)
    requires a.Ok() && k in a.files
  {
    if a.files[k].links <= 1 then
      && b.live == a.live - {k} && b.freeInodes == a.freeInodes + 1
      && b.used == a.used - Released(geo.Ptrs(), a.disk, a.files[k])
    else
      && b.live == a.live && b.freeInodes == a.freeInodes
      && k in b.files && SameFile(geo.blockSize, a.disk, LinkLess(a.files[k]), b.disk, b.files[k])
  }

  /** The name `name` of file `k` is gone from `p`, where its place can be used again. No file but the two changed,
      and what else is not a directory kept inode and contents if and only if `p` is a directory. */
  ghost predicate Unlinked(geo: Geometry, a: State, b: State, p: nat, name: Name, k: nat)
    requires a.Ok() && b.Ok() && p in a.files && k in a.files
  {
    && LinkDropped(geo, a, b, k)
    && (forall j :: j in a.files && j != k ==> j in b.files && b.files[j].mode == a.files[j].mode)
    && p in b.files && name in a.Dir(geo.blockSize, p) && Removed(geo.blockSize, a, b, p, name)
    && CanAdd(geo, b, p, name) && Kept(geo.blockSize, a, b, {p, k})
    && (RegularKept(geo.blockSize, a, b, {k}) <==> IsDirMode(a.files[p].mode))
  }

  /** ext2_unlink of a regular file. It fails, changing nothing, exactly when the leaf is not valid or the path
      leads nowhere. */
  method Unlink(v: Volume, path: Path) returns (ok: bool)
    requires Named(v) && PathOk(AllMaps(v), path) && NamesFile(v, path)
    requires ParentOf(AllMaps(v), path) != Resolve(AllMaps(v), ROOT, Comps(path)) || ParentOf(AllMaps(v), path) == 0
    modifies v
    ensures Named(v)
    ensures ok <==> LeafOk(path) && old(Resolve(AllMaps(v), ROOT, Comps(path))) != 0
    ensures ok ==>
      var p, k := ParentOf(old(AllMaps(v)), path), Resolve(old(AllMaps(v)), ROOT, Comps(path));
      p in old(v.Files()) && k in old(v.Files()) && Unlinked(v.geo, old(Now(v)), Now(v), p, Leaf(path), k)
    ensures !ok ==> Now(v) == old(Now(v))
  {
    hide BitmapsOk, CountsOk, UsedIn, LiveIn, Owns, DirList, ToMap, Resolve, Comps, AllMaps, Named, PathOk, LeafOk,
      ParentOf, Unlinked, TreeOf;
    var parent, name, ino;
    ok, parent, name, ino := FindNamed(v, path);
    if ok { ok := UnlinkFrom(v, parent, name, ino); }
  }

  /** The lookups of ext2_unlink: parent, leaf and file of a path that leads somewhere. */
  method FindNamed(v: Volume, path: Path) returns (ok: bool, parent: nat, name: Name, ino: nat)
    requires v.Sound() && PathOk(AllMaps(v), path)
    ensures ok <==> LeafOk(path) && Resolve(AllMaps(v), ROOT, Comps(path)) != 0
    ensures ok ==>
      && parent == ParentOf(AllMaps(v), path) && parent != 0 && name == Leaf(path)
      && ino == Resolve(AllMaps(v), ROOT, Comps(path)) != 0
      && parent in v.Files() && name in MapOfDir(v, parent) && MapOfDir(v, parent)[name] == ino
  {
    hide BitmapsOk, CountsOk, UsedIn, LiveIn, Owns, DirList, ToMap, Resolve, ThroughDirs, Comps, AllMaps, MapOfDir;
    CompsShort(path);
    ino := 0;
    ok, parent, name := SplitAndFindParent(v, path);
    if ok {
      ino := Lookup(v, path);
      InMaps(v, parent);
      ok := parent != 0 && ino != 0;
    }
  }

  /** The steps of ext2_unlink that change the volume. */
  method UnlinkFrom(v: Volume, parent: nat, name: Name, ino: nat) returns (ok: bool)
    requires Named(v) && parent in v.Files() && name in MapOfDir(v, parent) && parent != ino
    requires ino in v.Files() && 1 < ino && !IsDirMode(v.inodes[ino].mode)
    modifies v
    ensures Named(v) && ok && Unlinked(v.geo, old(Now(v)), Now(v), parent, name, ino)
  {
    hide BitmapsOk, CountsOk, UsedIn, LiveIn, Owns, DirList, ToMap, Released, CanAdd, Kept, SameFile, Same, Named,
      TreeOf;
    InTree(v, parent);
    ghost var bs, a := v.geo.blockSize, Now(v);
    DropLink(v, ino);
    ghost var b := Now(v);
    KeptInPlace(bs, a, b, {ino});
    SameHere(bs, a, b, parent);
    SameDir(bs, a, b, parent);
    ok := RemoveName(v, parent, name);
    ghost var c := Now(v);
    KeptTwice(bs, a, b, c, {ino}, {parent});
    assert {ino} + {parent} == {parent, ino};
    SameTwice(bs, a, b, c, parent);
    RegularIff(bs, a, c, {ino}, parent);
    if a.files[ino].links > 1 { KeptOne(bs, b, c, {parent}, ino); }
  }

  lemma KeptOne(bs: nat, a: State, b: State, but: set<nat>, k: nat)
    requires a.Ok() && Kept(bs, a, b, but) && k in a.files && k !in but
    ensures k in b.files && SameFile(bs, a.disk, a.files[k], b.disk, b.files[k])
  {}

  /** `t'` still has every step of `t` that leads to a directory. */
  ghost predicate KeepsDirectories(t: Tree, t': Tree) {
    && (forall c :: c in t ==> c in t')
    && (forall c, n :: c in t && n in t[c] && t[c][n] in t ==> n in t'[c] && t'[c][n] == t[c][n])
  }

  /** Then a path to a directory of `t` leads to the same directory in `t'`. */
  lemma {:induction false} DirectoryKept(t: Tree, t': Tree, cur: nat, comps: seq<Name>, name: Name)
    requires 0 !in t && KeepsDirectories(t, t') && Resolve(t, cur, comps) in t
    ensures Resolve(t', cur, comps) == Resolve(t, cur, comps)
    ensures ThroughDirs(t', cur, comps + [name])
    decreases |comps|
  {
    var c := comps + [name];
    if comps == [] {
      assert c[1..] == [];
    } else {
      assert c[1..] == comps[1..] + [name] && c[0] == comps[0];
      var next := t[cur][comps[0]];
      ResolvedInside(t, next, comps[1..]);
      DirectoryKept(t, t', next, comps[1..], name);
    }
  }

  /** Where a path resolves to a directory, it started at one. */
  lemma ResolvedInside(t: Tree, cur: nat, comps: seq<Name>)
    requires 0 !in t && Resolve(t, cur, comps) in t
    ensures cur in t
  {}

  /** The path of a name in a directory that `t'` keeps: it resolves by that directory's entry in `t'`. */
  lemma PathInKeptDirectory(t: Tree, t': Tree, path: Path)
    requires 0 !in t && 0 !in t' && KeepsDirectories(t, t') && Comps(path) != [] && ParentOf(t, path) in t
    ensures ParentOf(t', path) == ParentOf(t, path) && ThroughDirs(t', ROOT, Comps(path))
    ensures Resolve(t', ROOT, Comps(path)) ==
      var p := ParentOf(t, path); if Leaf(path) in t'[p] then t'[p][Leaf(path)] else 0
  {
    var cs := Comps(path);
    var front := cs[..|cs| - 1];
    assert front + [Leaf(path)] == cs;
    DirectoryKept(t, t', ROOT, front, Leaf(path));
    ResolveLast(t', ROOT, front, Leaf(path));
  }

  /** Creating a file and unlinking it restores the name space and the inodes in use. */
  method CreateThenUnlink(v: Volume, path: Path) returns (ino: nat, ok: bool)
    requires Named(v) && PathOk(TreeOf(v), path)
    modifies v
    ensures Named(v)
    ensures TreeOf(v) == old(TreeOf(v)) && v.Live() == old(v.Live()) && v.freeInodes == old(v.freeInodes)
    ensures ok <==> ino != 0
  {
    hide BitmapsOk, CountsOk, UsedIn, LiveIn, Released, CanAdd, Resolve, ThroughDirs, Comps, Named, TreeOf, AllMaps,
      Kept, Same, SameFile, DirList, ToMap, RegularKept, MapOfDir, DirMap, State.Pairs;
    ghost var t := TreeOf(v);
    ghost var p := ParentOf(t, path);
    TreeInMaps(v);
    PathInTree(t, AllMaps(v), path);
    InMaps(v, p);
    InTree(v, p);
    ino := Create(v, path);
    ok := ino != 0;
    if ok {
      CreatedPath(v, t, path, ino);
      ok := Unlink(v, path);
    }
  }

  /** The path of a file that was just created leads to it. */
  lemma CreatedPath(v: Volume, t: Tree, path: Path, ino: nat)
    requires v.Valid() && 0 !in t && PathOk(t, path) && LeafOk(path) && 1 < ino && ino in v.Files()
    requires !IsDirMode(v.inodes[ino].mode)
    requires var p := ParentOf(t, path); p in t && Leaf(path) !in t[p] && TreeOf(v) == Bind(t, p, Leaf(path), ino)
    ensures PathOk(AllMaps(v), path) && NamesFile(v, path) && Resolve(AllMaps(v), ROOT, Comps(path)) == ino
    ensures ParentOf(AllMaps(v), path) == ParentOf(t, path) != ino
    ensures Unbind(TreeOf(v), ParentOf(t, path), Leaf(path)) == t
  {
    hide BitmapsOk, CountsOk, UsedIn, LiveIn, Resolve, ThroughDirs, Comps, TreeOf, AllMaps, MapOfDir;
    BindKeeps(t, ParentOf(t, path), Leaf(path), ino);
    PathInKeptDirectory(t, TreeOf(v), path);
    TreeInMaps(v);
    PathInTree(TreeOf(v), AllMaps(v), path);
    InTree(v, ino);
  }

  /** Binding an absent name loses no step, and unbinding it restores the tree. */
  lemma BindKeeps(t: Tree, dir: nat, name: Name, child: nat)
    requires dir in t && name !in t[dir]
    ensures KeepsDirectories(t, Bind(t, dir, name, child))
    ensures Unbind(Bind(t, dir, name, child), dir, name) == t
  {
    assert Bind(t, dir, name, child)[dir] - {name} == t[dir];
  }

  // ---- ext2_rename ----------------------------------------------------------------------------------

  /** The name space after the name `from` of file `k` moves to `to`. */
  ghost function Renamed(t: Tree, from: Path, to: Path, k: nat): Tree
    requires Comps(from) != [] && Comps(to) != [] && ParentOf(t, from) in t && ParentOf(t, to) in t
  {
    Unbind(Bind(t, ParentOf(t, to), Leaf(to), k), ParentOf(t, from), Leaf(from))
  }

  /** After the move the new path leads to the file and the old one to nothing. */
  lemma RenamedResolves(t: Tree, from: Path, to: Path, k: nat)
    requires 0 !in t && Comps(from) != [] && Comps(to) != [] && ParentOf(t, from) in t && ParentOf(t, to) in t
    requires k == Resolve(t, ROOT, Comps(from)) && k != 0 && k !in t
    requires Resolve(t, ROOT, Comps(to)) != k && Resolve(t, ROOT, Comps(to)) !in t
    ensures Resolve(Renamed(t, from, to, k), ROOT, Comps(to)) == k
    ensures Resolve(Renamed(t, from, to, k), ROOT, Comps(from)) == 0
  {
    hide Resolve, Comps;
    var t' := Renamed(t, from, to, k);
    PathInKeptDirectory(t, t, from);
    PathInKeptDirectory(t, t, to);
    var s, d := ParentOf(t, from), ParentOf(t, to);
    assert Leaf(from) in t[s] && t[s][Leaf(from)] == k;
    assert s == d ==> Leaf(from) != Leaf(to);
    assert KeepsDirectories(t, t');
    PathInKeptDirectory(t, t', from);
    PathInKeptDirectory(t, t', to);
  }

  /** When a name can move: both leaves valid, both parents found, the target not a directory, and a place
      for the name where there is no target. */
  ghost predicate CanMove(v: Volume, from: Path, to: Path)
    reads v
    requires v.Valid() && from != [] && to != []
  {
    var t := AllMaps(v);
    var s, d, x := ParentOf(t, from), ParentOf(t, to), Resolve(t, ROOT, Comps(to));
    && LeafOk(from) && LeafOk(to) && s in v.Files() && d in v.Files() && x !in TreeOf(v)
    && (x == 0 ==> CanAdd(v.geo, Now(v), d, Leaf(to)))
  }

  /** When a rename succeeds: the file is there, and the new path leads to it already or its name can move. */
  ghost predicate CanRename(v: Volume, from: Path, to: Path)
    reads v
    requires v.Valid() && from != [] && to != []
  {
    var k := Resolve(AllMaps(v), ROOT, Comps(from));
    k != 0 && (Resolve(AllMaps(v), ROOT, Comps(to)) == k || CanMove(v, from, to))
  }

  /** The name `sn` in `s` of file `k` moved to `dn` in `d`, replacing file `x` if that is not 0. No other file
      changed, and what else is not a directory kept inode and contents if and only if both parents are. */
  ghost predicate Moved(bs: nat, a: State, b: State, s: nat, sn: Name, d: nat, dn: Name, k: nat, x: nat)
    requires a.Ok() && s in a.files && d in a.files && (x == 0 || x in a.files)
  {
    && b.tree == Unbind(Bind(a.tree, d, dn, k), s, sn)
    && b.live == a.live - (if x != 0 && a.files[x].links <= 1 then {x} else {})
    && Kept(bs, a, b, {s, d, x})
    && (RegularKept(bs, a, b, {x}) <==> s in a.tree && d in a.tree)
  }

  /** The target of a rename is nothing, a directory, or a live file that is not a parent of the two paths. */
  ghost predicate TargetOk(v: Volume, from: Path, to: Path)
    reads v
    requires v.Valid()
  {
    var t := AllMaps(v);
    var x := Resolve(t, ROOT, Comps(to));
    x == 0 || (1 < x && x in v.Files() && (x in TreeOf(v) || (x != ParentOf(t, from) && x != ParentOf(t, to))))
  }

  /** What a successful rename did, where paths led as `m` says: nothing, when the new path led to the file
      already; else its name moved. */
  ghost predicate RenamedTo(bs: nat, a: State, b: State, m: Tree, from: Path, to: Path)
    requires a.Ok()
  {
    var k, x := Resolve(m, ROOT, Comps(from)), Resolve(m, ROOT, Comps(to));
    if x == k then b == a
    else
      && Comps(from) != [] && Comps(to) != []
      && ParentOf(m, from) in a.files && ParentOf(m, to) in a.files && (x == 0 || x in a.files)
      && Moved(bs, a, b, ParentOf(m, from), Leaf(from), ParentOf(m, to), Leaf(to), k, x)
  }

  /** In the name space the new path leads to the file, and the old one to nothing if and only if the new one led
      elsewhere before. */
  ghost predicate PathsMoved(t: Tree, t': Tree, from: Path, to: Path) {
    var k := Resolve(t, ROOT, Comps(from));
    && Resolve(t', ROOT, Comps(to)) == k
    && (Resolve(t', ROOT, Comps(from)) == 0 <==> Resolve(t, ROOT, Comps(to)) != k)
  }

  /** ext2_rename of a regular file. On success its name moves, and no other name changes -- except when the new
      path led to the same inode already: then nothing changes at all, and the old path still resolves. The moved
      file keeps inode and contents. On failure the name space is as before. */
  method Rename(v: Volume, from: Path, to: Path) returns (ok: bool)
    requires Named(v) && PathOk(AllMaps(v), from) && PathOk(AllMaps(v), to)
    requires NamesFile(v, from) && TargetOk(v, from, to)
    modifies v
    ensures Named(v)
    ensures ok <==> old(CanRename(v, from, to))
    ensures ok ==> RenamedTo(v.geo.blockSize, old(Now(v)), Now(v), old(AllMaps(v)), from, to)
    ensures ok && old(PathOk(TreeOf(v), from) && PathOk(TreeOf(v), to)) ==>
      PathsMoved(old(TreeOf(v)), TreeOf(v), from, to)
    ensures !ok ==> TreeOf(v) == old(TreeOf(v)) && v.Live() == old(v.Live())
  {
    hide BitmapsOk, CountsOk, UsedIn, LiveIn, Owns, DirList, ToMap, CanAdd, Resolve, ThroughDirs, Comps, Kept, Same,
      AllMaps, Named, MapOfDir, TreeOf, Moved;
    CompsShort(from);
    CompsShort(to);
    ghost var a := Now(v);
    var src := Lookup(v, from);
    if src == 0 { return false; }
    var dst := Lookup(v, to);
    InTree(v, dst);
    MovedInTree(v, from, to);
    if dst == src { return true; }
    var ok1, fromDir, fromName := SplitAndFindParent(v, from);
    var ok2, toDir, toName := SplitAndFindParent(v, to);
    InMaps(v, fromDir);
    InMaps(v, toDir);
    if !ok1 || !ok2 || fromDir == 0 || toDir == 0 { return false; }
    if dst != 0 && IsDirMode(v.inodes[dst].mode) { return false; }
    MapValues(v, toDir, toName);
    ok := MoveName(v, to, src, dst, fromDir, fromName, toDir, toName);
    if ok { MovedTree(v.geo.blockSize, a, Now(v), fromDir, fromName, toDir, toName, src, dst); }
  }

  /** What a move means for paths that lead through directories. */
  lemma MovedInTree(v: Volume, from: Path, to: Path)
    requires Named(v) && NamesFile(v, from) && PathOk(AllMaps(v), from) && PathOk(AllMaps(v), to)
    ensures PathOk(TreeOf(v), from) && PathOk(TreeOf(v), to) ==>
      var t, m := TreeOf(v), AllMaps(v);
      var k, x := Resolve(t, ROOT, Comps(from)), Resolve(t, ROOT, Comps(to));
      && k == Resolve(m, ROOT, Comps(from)) && x == Resolve(m, ROOT, Comps(to))
      && (k != 0 && x != k && x !in t && LeafOk(from) && LeafOk(to) && ParentOf(m, to) != 0 ==>
            var s, d := ParentOf(m, from), ParentOf(m, to);
            var t' := Unbind(Bind(t, d, Leaf(to), k), s, Leaf(from));
            && s in t && d in t && Resolve(t', ROOT, Comps(to)) == k && Resolve(t', ROOT, Comps(from)) == 0)
  {
    hide BitmapsOk, CountsOk, UsedIn, LiveIn, Owns, DirList, ToMap, Resolve, ThroughDirs, Comps, AllMaps, Named,
      MapOfDir, TreeOf;
    var t, m := TreeOf(v), AllMaps(v);
    if PathOk(t, from) && PathOk(t, to) {
      TreeInMaps(v);
      PathInTree(t, m, from);
      PathInTree(t, m, to);
      var k, x := Resolve(t, ROOT, Comps(from)), Resolve(t, ROOT, Comps(to));
      InTree(v, k);
      if k != 0 && x != k && x !in t && LeafOk(from) && LeafOk(to) && ParentOf(m, to) != 0 {
        RenamedResolves(t, from, to, k);
      }
    }
  }

  lemma MovedTree(bs: nat, a: State, b: State, s: nat, sn: Name, d: nat, dn: Name, k: nat, x: nat)
    requires a.Ok() && s in a.files && d in a.files && (x == 0 || x in a.files)
    requires Moved(bs, a, b, s, sn, d, dn, k, x)
    ensures b.tree == Unbind(Bind(a.tree, d, dn, k), s, sn)
  {}

  /** The steps of ext2_rename that change the volume. */
  method MoveName(v: Volume, to: Path, src: nat, dst: nat, fromDir: nat, fromName: Name, toDir: nat, toName: Name)
    returns (ok: bool)
    requires Named(v) && PathOk(AllMaps(v), to) && NamesFile(v, to) && LeafOk(to)
    requires dst == Resolve(AllMaps(v), ROOT, Comps(to)) && toDir == ParentOf(AllMaps(v), to) && toName == Leaf(to)
    requires toDir in v.Files() && (if dst == 0 then toName !in MapOfDir(v, toDir) else NameOf(v, toDir, toName, dst))
    requires fromDir in v.Files() && NameOf(v, fromDir, fromName, src) && |fromName| <= 254 && |toName| <= 254
    requires 0 < src < U32 && dst != src && dst != fromDir && dst != toDir
    modifies v
    ensures Named(v)
    ensures ok <==> dst != 0 || CanAdd(v.geo, old(Now(v)), toDir, toName)
    ensures ok ==>
      && (dst == 0 || dst in old(v.Files()))
      && Moved(v.geo.blockSize, old(Now(v)), Now(v), fromDir, fromName, toDir, toName, src, dst)
    ensures !ok ==> TreeOf(v) == old(TreeOf(v)) && v.Live() == old(v.Live())
  {
    hide BitmapsOk, CountsOk, UsedIn, LiveIn, Owns, DirList, ToMap, Resolve, Comps, AllMaps, Named, TreeOf, PathOk,
      LeafOk, ParentOf, Kept, Same, RoomInDir, HasHole, Released, RegularKept, SameFile;
    ghost var bs, a := v.geo.blockSize, Now(v);
    if dst != 0 { var gone := Unlink(v, to); }
    ghost var b := Now(v);
    Cleared(v.geo, a, b, toDir, toName, dst);
    InTree(v, toDir);
    ok := AddName(v, toDir, toName, src, 1);
    ghost var c := Now(v);
    if ok {
      SourceStays(v.geo, a, b, c, fromDir, fromName, toDir, toName, src, dst);
      ok := RemoveName(v, fromDir, fromName);
      MovedBy(v.geo, a, b, c, Now(v), fromDir, fromName, toDir, toName, src, dst);
    }
  }

  /** `name` leads from inode `dir` to `k`. */
  ghost predicate NameOf(v: Volume, dir: nat, name: Name, k: nat)
    reads v
    requires v.Valid() && dir < |v.inodes|
  {
    name in MapOfDir(v, dir) && MapOfDir(v, dir)[name] == k
  }

  /** The target is out of the way: there was none, or it was unlinked. */
  ghost predicate TargetGone(geo: Geometry, a: State, b: State, d: nat, dn: Name, x: nat)
    requires a.Ok() && b.Ok() && d in a.files
  {
    if x == 0 then b == a else x in a.files && Unlinked(geo, a, b, d, dn, x)
  }

  lemma Cleared(geo: Geometry, a: State, b: State, d: nat, dn: Name, x: nat)
    requires a.Ok() && b.Ok() && d in a.files && TargetGone(geo, a, b, d, dn, x)
    ensures d in b.files && Kept(geo.blockSize, a, b, {d, x})
    ensures x != 0 ==> CanAdd(geo, b, d, dn) && (d in a.tree ==> d in b.tree && dn !in b.tree[d])
    ensures b.live == a.live - (if x != 0 && a.files[x].links <= 1 then {x} else {})
  {
    hide SameFile, DirList, ToMap, Released, RegularKept, Kept, RoomInDir, HasHole;
    if x == 0 { KeptInPlace(geo.blockSize, a, a, {d, x}); }
  }

  /** The old name is still there when it is to be removed. */
  lemma SourceStays(geo: Geometry, a: State, b: State, c: State, s: nat, sn: Name, d: nat, dn: Name, k: nat, x: nat)
    requires a.Ok() && b.Ok() && c.Ok() && s in a.files && d in a.files && TargetGone(geo, a, b, d, dn, x)
    requires d in b.files && OnlyIn(geo.blockSize, b, c, d) && Added(geo.blockSize, b, c, d, dn, k)
    requires sn in a.Dir(geo.blockSize, s) && (s == d ==> sn != dn) && s != x
    ensures s in c.files && sn in c.Dir(geo.blockSize, s)
  {
    hide Same, DirList, ToMap, Released, RegularKept, RoomInDir, HasHole, SameFile, LinkDropped, CanAdd;
    var bs := geo.blockSize;
    Cleared(geo, a, b, d, dn, x);
    if s != d {
      assert Same(bs, a, b, s);
      SameIsLive(bs, a, b, s);
      assert Same(bs, b, c, s);
      SameDir(bs, a, b, s);
      SameDir(bs, b, c, s);
    }
  }

  lemma SameIsLive(bs: nat, a: State, b: State, k: nat)
    requires a.Ok() && k in a.files && Same(bs, a, b, k)
    ensures k in b.files
  {}

  /** The three steps together. */
  lemma MovedBy(geo: Geometry, a: State, b: State, c: State, e: State, s: nat, sn: Name, d: nat, dn: Name, k: nat,
                x: nat)
    requires a.Ok() && b.Ok() && c.Ok() && e.Ok() && s in a.files && d in a.files && TargetGone(geo, a, b, d, dn, x)
    requires d in b.files && OnlyIn(geo.blockSize, b, c, d) && Added(geo.blockSize, b, c, d, dn, k)
    requires s in c.files && OnlyIn(geo.blockSize, c, e, s) && sn in c.Dir(geo.blockSize, s)
    requires Removed(geo.blockSize, c, e, s, sn) && s != x && d != x && k != x && (s == d ==> sn != dn)
    requires x != 0 ==> dn in a.Dir(geo.blockSize, d) && a.Dir(geo.blockSize, d)[dn] == x
    ensures Moved(geo.blockSize, a, e, s, sn, d, dn, k, x)
  {
    hide Same, DirList, ToMap, Released, RegularKept, RoomInDir, HasHole, SameFile, LinkDropped, CanAdd, Kept,
      State.Pairs, State.Dir;
    var bs := geo.blockSize;
    Cleared(geo, a, b, d, dn, x);
    KeptTwice(bs, a, b, c, {d, x}, {d});
    KeptTwice(bs, a, c, e, {d, x} + {d}, {s});
    assert {d, x} + {d} + {s} == {s, d, x};
    TreeMoved(geo, a, b, c, d, dn, k, x);
    TargetChanged(geo, a, b, c, e, s, sn, d, dn, k, x);
    if s != d { SourceChanged(bs, a, b, c, e, s, sn, d, x); }
    RegularBoth(bs, a, e, s, d, x);
  }

  lemma TreeMoved(geo: Geometry, a: State, b: State, c: State, d: nat, dn: Name, k: nat, x: nat)
    requires a.Ok() && b.Ok() && c.Ok() && d in a.files && d in b.files && d in c.files
    requires TargetGone(geo, a, b, d, dn, x) && Added(geo.blockSize, b, c, d, dn, k)
    ensures c.tree == Bind(a.tree, d, dn, k)
  {
    hide Same, DirList, ToMap, Released, RegularKept, RoomInDir, HasHole, SameFile, LinkDropped, CanAdd, Kept,
      State.Pairs, State.Dir;
    if x != 0 && d in a.tree { assert (a.tree[d] - {dn})[dn := k] == a.tree[d][dn := k]; }
  }

  /** The new parent has one more record of the moved name: it changed, whatever was there before. */
  lemma TargetChanged(geo: Geometry, a: State, b: State, c: State, e: State, s: nat, sn: Name, d: nat, dn: Name,
                      k: nat, x: nat)
    requires a.Ok() && b.Ok() && c.Ok() && e.Ok() && s in a.files && d in a.files && TargetGone(geo, a, b, d, dn, x)
    requires d in b.files && OnlyIn(geo.blockSize, b, c, d) && Added(geo.blockSize, b, c, d, dn, k)
    requires s in c.files && OnlyIn(geo.blockSize, c, e, s) && sn in c.Dir(geo.blockSize, s)
    requires Removed(geo.blockSize, c, e, s, sn) && k != x && (s == d ==> sn != dn)
    requires x != 0 ==> dn in a.Dir(geo.blockSize, d) && a.Dir(geo.blockSize, d)[dn] == x
    ensures !Same(geo.blockSize, a, e, d)
  {
    hide Same, DirList, ToMap, Released, RegularKept, RoomInDir, HasHole, SameFile, LinkDropped, CanAdd, State.Pairs,
      State.Dir;
    var bs, pair := geo.blockSize, (dn, k);
    assert b.Pairs(bs, d)[pair] == a.Pairs(bs, d)[pair];
    if s != d {
      assert Same(bs, c, e, d);
      SameDir(bs, c, e, d);
    }
    assert e.Pairs(bs, d)[pair] == c.Pairs(bs, d)[pair];
    if Same(bs, a, e, d) { SameDir(bs, a, e, d); }
  }

  lemma SourceChanged(bs: nat, a: State, b: State, c: State, e: State, s: nat, sn: Name, d: nat, x: nat)
    requires a.Ok() && b.Ok() && c.Ok() && e.Ok() && s in a.files && d in a.files && s != d && s != x
    requires Kept(bs, a, b, {d, x}) && Kept(bs, b, c, {d}) && s in c.files && !Same(bs, c, e, s)
    ensures !Same(bs, a, e, s)
  {
    hide Same;
    assert Same(bs, a, b, s);
    SameIsLive(bs, a, b, s);
    assert Same(bs, b, c, s);
    SameTwice(bs, a, b, c, s);
    SameTwice(bs, a, c, e, s);
  }

  lemma RegularBoth(bs: nat, a: State, e: State, s: nat, d: nat, x: nat)
    requires a.Ok() && s in a.files && d in a.files && s != x && d != x
    requires Kept(bs, a, e, {s, d, x}) && !Same(bs, a, e, s) && !Same(bs, a, e, d)
    ensures RegularKept(bs, a, e, {x}) <==> s in a.tree && d in a.tree
  {
    hide Same;
  }

  /** A rename of a file onto its own path succeeds, and the old path still leads to the file. */
  method RenameToSelf(v: Volume, path: Path) returns (ok: bool)
    requires Named(v) && PathOk(AllMaps(v), path) && NamesFile(v, path) && TargetOk(v, path, path)
    requires Resolve(AllMaps(v), ROOT, Comps(path)) != 0
    modifies v
    ensures Named(v) && ok && Now(v) == old(Now(v))
  {
    hide BitmapsOk, CountsOk, UsedIn, LiveIn, Owns, DirList, ToMap, Resolve, ThroughDirs, Comps, Named, TreeOf, Kept,
      SameFile, CanMove, Moved;
    ok := Rename(v, path, path);
  }
}
