/** Reading, writing and truncating files (kernel/fs/ext2.c). Device transfers and kmalloc succeed. */
module Ext2File {
  import opened Machine
  import opened Bytes
  import opened Ext2Map
  import opened Ext2Volume

  /** Blocks of no file keep their contents and stay outside every file. */
  twostate predicate ReservedKept(v: Volume)
    reads v
    requires old(v.Valid()) && v.Valid()
  {
    && old(v.Reserved()) <= v.Reserved()
    && |v.disk| == |old(v.disk)|
    && forall x :: x in old(v.Reserved()) && x < |v.disk| ==> v.disk[x] == old(v.disk)[x]
  }

  /** A step of the block map of file `k`, whose inode copy goes from `f` to `f'`: ownership is kept,
      pointers are only filled in, and every file of the volume reads as before. */
  twostate predicate Extended(v: Volume, files: map<nat, Inode>, k: nat, f': Inode)
    reads v
    requires old(v.Valid()) && FilesOk(files)
  {
    && v.Valid() && v.Live() == old(v.Live()) && ReservedKept(v)
    && k in files && RootsFilled(files[k], f')
    && Owns(v.disk, v.Used(), files[k := f'], v.own)
    && Grown(v.geo.blockSize, old(v.disk), files, v.disk, files[k := f'])
  }

  /** Makes i_block[r] of the inode copy `f` hold a block, allocating one if need be. */
  method EnsureRoot(v: Volume, ghost files: map<nat, Inode>, ghost k: nat, f: Inode, r: nat)
    returns (f': Inode, b: nat)
    requires v.Valid() && FilesOk(files) && k in files && files[k] == f && r < 14
    requires Owns(v.disk, v.Used(), files, v.own)
    modifies v`groups, v`freeBlocks, v`disk, v`own
    ensures Extended(v, files, k, f')
    ensures b == Ptr(v.disk, f', RootSlot(r))
    ensures b == 0 ==> v.freeBlocks == 0
  {
    hide BitmapsOk, CountsOk, UsedIn, LiveIn;
    f', b := f, f.block[r];
    assert files[k := f] == files;
    if b == 0 {
      b := v.AllocBlock();
      if b != 0 {
        AttachRoot(v.geo.blockSize, old(v.disk), old(v.Used()), files, v.own, k, r, b);
        f' := f.(block := f.block[r := b]);
        v.own := v.own[b := (k, RootSlot(r))];
      }
    }
  }

  /** Makes entry `e` of the pointer block `p` held by slot `parent` hold a block. */
  method EnsureEntry(v: Volume, ghost files: map<nat, Inode>, ghost k: nat, ghost parent: Slot, p: nat, e: nat)
    returns (b: nat)
    requires v.Valid() && FilesOk(files) && k in files && !parent.IsData() && e < v.geo.Ptrs()
    requires Owns(v.disk, v.Used(), files, v.own)
    requires p == Ptr(v.disk, files[k], parent) != 0
    modifies v`groups, v`freeBlocks, v`disk, v`own
    ensures Extended(v, files, k, files[k])
    ensures b == Ptr(v.disk, files[k], Child(parent, e))
    ensures b == 0 ==> v.freeBlocks == 0
  {
    hide BitmapsOk, CountsOk, UsedIn, LiveIn, Owns, Grown, Ptr, Child, Get32, Put32, Patch, Geometry.Ok;
    assert files[k := files[k]] == files;
    BlocksFit(v.geo);
    EntryFits(v.geo.blockSize, e);
    EntryRead(v.geo.blockSize, v.disk, v.Used(), files, v.own, k, parent, e);
    b := Get32(v.disk[p], 4 * e);
    if b == 0 {
      b := v.AllocBlock();
      if b != 0 {
        AttachEntry(v.geo.blockSize, old(v.disk), old(v.Used()), files, v.own, k, parent, e, b);
        v.disk := v.disk[p := Patch(v.disk[p], 4 * e, Put32(b))];
        v.own := v.own[b := (k, Child(parent, e))];
      }
    }
  }

  /** Block numbers fit in the 32 bits of a pointer. */
  lemma BlocksFit(geo: Geometry)
    requires geo.Ok()
    ensures geo.blocksCount < U32
  {}

  lemma EntryFits(bs: nat, e: nat)
    requires e < bs / 4
    ensures 4 * e + 4 <= bs
  {}

  /** Reading an entry of an owned pointer block. */
  lemma EntryRead(bs: nat, disk: seq<Block>, used: set<nat>, files: map<nat, Inode>, own: map<nat, Owner>, k: nat,
                  parent: Slot, e: nat)
    requires FilesOk(files) && DiskOk(bs, disk) && Owns(disk, used, files, own) && k in files && !parent.IsData()
    requires 4 * e + 4 <= bs
    requires Ptr(disk, files[k], parent) != 0
    ensures var p := Ptr(disk, files[k], parent);
      && p < |disk| && |disk[p]| == bs && p in used && p in own
      && Ptr(disk, files[k], Child(parent, e)) == Get32(disk[p], 4 * e)
    ensures Grown(bs, disk, files, disk, files)
  {}

  /** EnsureEntry for an inode copy `f` that may differ from the one in `files`. */
  method EnsureBelow(v: Volume, ghost files: map<nat, Inode>, ghost k: nat, ghost f: Inode, ghost parent: Slot,
                     p: nat, e: nat, ghost disk0: seq<Block>)
    returns (b: nat)
    requires v.Valid() && FilesOk(files) && k in files && |f.block| == 15 && !parent.IsData() && e < v.geo.Ptrs()
    requires Owns(v.disk, v.Used(), files[k := f], v.own)
    requires Grown(v.geo.blockSize, disk0, files, v.disk, files[k := f])
    requires p == Ptr(v.disk, f, parent) != 0
    modifies v`groups, v`freeBlocks, v`disk, v`own
    ensures v.Valid() && v.Live() == old(v.Live()) && ReservedKept(v)
    ensures Owns(v.disk, v.Used(), files[k := f], v.own)
    ensures Grown(v.geo.blockSize, disk0, files, v.disk, files[k := f])
    ensures b == Ptr(v.disk, f, Child(parent, e))
    ensures b == 0 ==> v.freeBlocks == 0
  {
    hide BitmapsOk, CountsOk, UsedIn, LiveIn;
    b := EnsureEntry(v, files[k := f], k, parent, p, e);
    assert files[k := f][k := f] == files[k := f];
    GrownTransitive(v.geo.blockSize, disk0, files, old(v.disk), files[k := f], v.disk, files[k := f]);
  }

  /** The double-indirect case: up to three allocations. */
  method MapDouble(v: Volume, ghost files: map<nat, Inode>, ghost k: nat, f: Inode, i: nat, j: nat)
    returns (f': Inode, b: nat)
    requires v.Valid() && FilesOk(files) && k in files && files[k] == f
    requires Owns(v.disk, v.Used(), files, v.own)
    requires i < v.geo.Ptrs() && j < v.geo.Ptrs()
    modifies v`groups, v`freeBlocks, v`disk, v`own
    ensures Extended(v, files, k, f')
    ensures b != 0 ==> b == Ptr(v.disk, f', DblData(i, j))
    ensures b == 0 ==> v.freeBlocks == 0
  {
    hide BitmapsOk, CountsOk, UsedIn, LiveIn;
    f', b := EnsureRoot(v, files, k, f, 13);
    if b != 0 {
      b := EnsureBelow(v, files, k, f', Dbl, b, i, old(v.disk));
      if b != 0 {
        b := EnsureBelow(v, files, k, f', DblInd(i), b, j, old(v.disk));
      }
    }
  }

  /** The single-indirect case: up to two allocations. */
  method MapSingle(v: Volume, ghost files: map<nat, Inode>, ghost k: nat, f: Inode, i: nat)
    returns (f': Inode, b: nat)
    requires v.Valid() && FilesOk(files) && k in files && files[k] == f
    requires Owns(v.disk, v.Used(), files, v.own)
    requires i < v.geo.Ptrs()
    modifies v`groups, v`freeBlocks, v`disk, v`own
    ensures Extended(v, files, k, f')
    ensures b != 0 ==> b == Ptr(v.disk, f', IndData(i))
    ensures b == 0 ==> v.freeBlocks == 0
  {
    hide BitmapsOk, CountsOk, UsedIn, LiveIn;
    f', b := EnsureRoot(v, files, k, f, 12);
    if b != 0 {
      b := EnsureBelow(v, files, k, f', Ind, b, i, old(v.disk));
    }
  }

  /** Finds or creates the data block for logical block `idx` in the inode copy `f`;
      0 when the volume is full or `idx` is past the double-indirect range. */
  method MapIndex(v: Volume, ghost files: map<nat, Inode>, ghost k: nat, f: Inode, idx: nat)
    returns (f': Inode, b: nat)
    requires v.Valid() && FilesOk(files) && k in files && files[k] == f
    requires Owns(v.disk, v.Used(), files, v.own)
    modifies v`groups, v`freeBlocks, v`disk, v`own
    ensures Extended(v, files, k, f')
    ensures b != 0 ==> b == Ptr(v.disk, f', DataSlot(v.geo.Ptrs(), idx))
    ensures b == 0 ==> v.freeBlocks == 0 || idx >= MaxIndex(v.geo.Ptrs())
  {
    hide BitmapsOk, CountsOk, UsedIn, LiveIn, DataSlot, MaxIndex, Row, Column;
    var n := v.geo.Ptrs();
    SlotCases(n, idx);
    if idx < 12 {
      f', b := EnsureRoot(v, files, k, f, idx);
    } else if idx < 12 + n {
      f', b := MapSingle(v, files, k, f, idx - 12);
    } else if idx < MaxIndex(n) {
      f', b := MapDouble(v, files, k, f, Row(n, idx), Column(n, idx));
    } else {
      assert files[k := f] == files;
      f', b := f, 0;
    }
  }

  /** The inode copy differs from the stored inode only by pointers filled in where it had none. */
  ghost predicate RootsFilled(f: Inode, f': Inode) {
    && |f.block| == |f'.block| == 15
    && f' == f.(block := f'.block)
    && forall r :: 0 <= r < 15 ==> f'.block[r] == f.block[r] || f.block[r] == 0
  }

  /** Only the contents of slot `at` of file `k` changed, to `blk`; no pointer was lost. */
  ghost predicate OneBlockChanged(bs: nat, disk: seq<Block>, files: map<nat, Inode>,
                                  disk': seq<Block>, files': map<nat, Inode>, k: nat, at: Slot, blk: Block)
    requires FilesOk(files) && FilesOk(files')
  {
    && files'.Keys == files.Keys
    && (forall j, s :: j in files && Ptr(disk, files[j], s) != 0 ==>
          Ptr(disk', files'[j], s) == Ptr(disk, files[j], s))
    && (forall j, s: Slot :: j in files && s.IsData() ==>
          Content(bs, disk', files'[j], s) == if j == k && s == at then blk else Content(bs, disk, files[j], s))
  }

  /** One round of ext2_write's loop: map the block, then read-modify-write it. */
  method WriteChunk(v: Volume, ghost files: map<nat, Inode>, ghost k: nat, f: Inode, idx: nat, boff: nat, d: seq<Byte>)
    returns (f': Inode, ok: bool)
    requires v.Valid() && FilesOk(files) && k in files && files[k] == f
    requires Owns(v.disk, v.Used(), files, v.own)
    requires boff + |d| <= v.geo.blockSize
    modifies v`groups, v`freeBlocks, v`disk, v`own
    ensures v.Valid() && v.Live() == old(v.Live()) && ReservedKept(v)
    ensures RootsFilled(f, f') && Owns(v.disk, v.Used(), files[k := f'], v.own)
    ensures ok ==>
      var bs, at := v.geo.blockSize, DataSlot(v.geo.Ptrs(), idx);
      && |Content(bs, old(v.disk), f, at)| == bs && Ptr(v.disk, f', at) != 0
      && OneBlockChanged(bs, old(v.disk), files, v.disk, files[k := f'], k, at,
                         Patch(Content(bs, old(v.disk), f, at), boff, d))
    ensures !ok ==>
      && (v.freeBlocks == 0 || idx >= MaxIndex(v.geo.Ptrs()))
      && Grown(v.geo.blockSize, old(v.disk), files, v.disk, files[k := f'])
  {
    hide BitmapsOk, CountsOk, UsedIn, LiveIn, DataSlot, MaxIndex, Owns, OneBlockChanged, Grown, Ptr, Content;
    var bs := v.geo.blockSize;
    ghost var at := DataSlot(v.geo.Ptrs(), idx);
    var b;
    f', b := MapIndex(v, files, k, f, idx);
    ok := b != 0;
    if ok {
      GrownThenWritten(bs, old(v.disk), files, v.disk, v.Used(), files[k := f'], v.own, k, at, boff, d);
      var blk := if boff > 0 || |d| < bs then v.disk[b] else Zeros(bs);
      FullPatch(blk, v.disk[b], boff, d);
      hide Patch;
      v.disk := v.disk[b := Patch(blk, boff, d)];
    }
  }

  /** What a block held does not matter when all of it is overwritten. */
  lemma FullPatch(a: Block, b: Block, boff: nat, d: seq<Byte>)
    requires |a| == |b| && boff + |d| <= |a| && (a == b || (boff == 0 && |d| == |a|))
    ensures Patch(a, boff, d) == Patch(b, boff, d)
  {}

  lemma GrownThenWritten(bs: nat, disk0: seq<Block>, files0: map<nat, Inode>, disk: seq<Block>, used: set<nat>,
                         files: map<nat, Inode>, own: map<nat, Owner>, k: nat, at: Slot, boff: nat, d: seq<Byte>)
    requires FilesOk(files0) && FilesOk(files) && DiskOk(bs, disk) && Grown(bs, disk0, files0, disk, files)
    requires Owns(disk, used, files, own) && k in files && at.IsData() && Ptr(disk, files[k], at) != 0
    requires boff + |d| <= bs
    ensures var b := Ptr(disk, files[k], at);
      && b < |disk| && b in own && Content(bs, disk0, files0[k], at) == disk[b]
      && var disk' := disk[b := Patch(disk[b], boff, d)];
      && Owns(disk', used, files, own) && Ptr(disk', files[k], at) != 0
      && OneBlockChanged(bs, disk0, files0, disk', files, k, at, Patch(disk[b], boff, d))
  {
    var b := Ptr(disk, files[k], at);
    assert Owned(b, |disk|, used, own, (k, at));
    WriteData(bs, disk, used, files, own, k, at, Patch(disk[b], boff, d));
  }

  // ---- ext2_write -----------------------------------------------------------------

  /** One past the last byte position whose block number fits 32 bits. */
  function Reach(bs: nat): (r: nat)
    ensures bs > 0 ==> r >= U32
  {
    bs * U32
  }

  /** How far position `pos` lies behind `off`, counting round at the reach. */
  function Lag(bs: nat, off: nat, pos: nat): nat
    requires bs > 0
  {
    (pos - off) % Reach(bs)
  }

  /** `pos` is one of the `n` positions that a write at `off` covers: block numbers are cut to 32 bits, so
      past the reach it goes on at the start of the file. */
  predicate Covers(bs: nat, off: nat, n: nat, pos: nat)
    requires bs > 0
    ensures Covers(bs, off, n, pos) ==> Lag(bs, off, pos) < n
  {
    pos < Reach(bs) && Lag(bs, off, pos) < n
  }

  /** Byte `i` of a write goes to position `off + i`, cut at the reach. */
  lemma CoversAll(bs: nat, off: nat, n: nat, i: nat)
    requires bs > 0 && i < n < U32
    ensures var pos := (off + i) % Reach(bs); Covers(bs, off, n, pos) && Lag(bs, off, pos) == i
  {
    var r := Reach(bs);
    LagOf(r, off, i, 1, (off + i) % r, (off + i) % r);
  }

  /** A write that ends within reach covers its own range. */
  lemma CoversRange(bs: nat, off: nat, n: nat, pos: nat)
    requires bs > 0 && off + n <= Reach(bs)
    ensures Covers(bs, off, n, pos) <==> off <= pos < off + n
    ensures off <= pos < off + n ==> Lag(bs, off, pos) == pos - off
  {
    var r := Reach(bs);
    if off <= pos < off + n {
      DivModUnique(r, 0, pos - off);
    } else if pos < off && off < r {
      RoundOnce(r, pos, off);
    }
  }

  /** It does so exactly if it ends within reach. */
  lemma CoversOwnRange(bs: nat, off: nat, n: nat)
    requires bs > 0 && n > 0
    ensures (forall pos: nat :: Covers(bs, off, n, pos) <==> off <= pos < off + n) <==> off + n <= Reach(bs)
  {
    if off + n <= Reach(bs) {
      forall pos: nat ensures Covers(bs, off, n, pos) <==> off <= pos < off + n { CoversRange(bs, off, n, pos); }
    } else {
      assert !Covers(bs, off, n, off + n - 1);
    }
  }

  /** A position before `off` is reached by going round once. */
  lemma RoundOnce(r: nat, pos: nat, off: nat)
    requires pos < off < r
    ensures (pos - off) % r == pos + r - off
  {
    var x := pos - off;
    assert x / r * r <= x < x / r * r + r;
    if x / r < -1 { MulLess(x / r, -2, r); }
  }

  lemma MulLess(a: int, b: int, r: nat)
    requires a <= b
    ensures a * r <= b * r
  {}

  /** What a file reads as after `n` bytes of `buf` went in at `off`; the positions covered are mapped. */
  ghost predicate Written(bs: nat, disk0: seq<Block>, f0: Inode, disk: seq<Block>, f: Inode,
                          off: nat, buf: seq<Byte>, n: nat)
    requires bs >= 4 && |f0.block| == |f.block| == 15 && n <= |buf|
    requires DiskOk(bs, disk0) && DiskOk(bs, disk)
  {
    && (forall pos: nat :: ByteAt(bs, disk, f, pos) ==
          if Covers(bs, off, n, pos) then buf[Lag(bs, off, pos)] else ByteAt(bs, disk0, f0, pos))
    && (forall pos: nat :: Covers(bs, off, n, pos) ==> Ptr(disk, f, SlotAt(bs, pos)) != 0)
  }

  /** Every file but `k` reads as before. */
  ghost predicate OthersKept(bs: nat, disk0: seq<Block>, disk: seq<Block>, files: map<nat, Inode>, k: nat)
    requires FilesOk(files)
  {
    forall j, s: Slot :: j in files && j != k && s.IsData() ==>
      Content(bs, disk, files[j], s) == Content(bs, disk0, files[j], s)
  }

  lemma WrittenByNothing(bs: nat, disk0: seq<Block>, files0: map<nat, Inode>, disk: seq<Block>, files: map<nat, Inode>,
                         k: nat, off: nat, buf: seq<Byte>)
    requires bs >= 4 && DiskOk(bs, disk0) && DiskOk(bs, disk)
    requires FilesOk(files0) && FilesOk(files) && k in files0 && Grown(bs, disk0, files0, disk, files)
    ensures Written(bs, disk0, files0[k], disk, files[k], off, buf, 0)
  {}

  /** Growing the map of a file in the middle of a write changes nothing that was written. */
  lemma WrittenGrown(bs: nat, disk0: seq<Block>, f0: Inode, disk: seq<Block>, files: map<nat, Inode>,
                     disk': seq<Block>, files': map<nat, Inode>, k: nat, off: nat, buf: seq<Byte>, n: nat)
    requires bs >= 4 && DiskOk(bs, disk0) && DiskOk(bs, disk) && DiskOk(bs, disk') && n <= |buf|
    requires FilesOk(files) && FilesOk(files') && k in files && |f0.block| == 15
    requires Written(bs, disk0, f0, disk, files[k], off, buf, n) && Grown(bs, disk, files, disk', files')
    ensures Written(bs, disk0, f0, disk', files'[k], off, buf, n)
  {
    hide SlotAt, OffsetIn;
    forall pos: nat ensures ByteAt(bs, disk', files'[k], pos) == ByteAt(bs, disk, files[k], pos) {
      var at := SlotAt(bs, pos);
      assert Content(bs, disk', files'[k], at) == Content(bs, disk, files[k], at);
    }
  }

  /** One more chunk: the patch of one block is the next `m` bytes of the file. */
  lemma WrittenStep(bs: nat, disk0: seq<Block>, f0: Inode, disk: seq<Block>, files: map<nat, Inode>,
                    disk': seq<Block>, files': map<nat, Inode>, k: nat, off: nat, buf: seq<Byte>, n: nat, m: nat)
    requires bs >= 4 && DiskOk(bs, disk0) && DiskOk(bs, disk) && DiskOk(bs, disk')
    requires FilesOk(files) && FilesOk(files') && k in files && k in files' && |f0.block| == 15
    requires n + m <= |buf| < U32
    requires Written(bs, disk0, f0, disk, files[k], off, buf, n)
    requires ChunkStored(bs, disk, files, disk', files', k, (off + n) % Reach(bs), buf[n..n + m])
    ensures Written(bs, disk0, f0, disk', files'[k], off, buf, n + m)
  {
    hide SlotAt, OffsetIn, ByteAt, Ptr, ChunkStored, Covers, Lag, Reach;
    var x := (off + n) % Reach(bs);
    forall pos: nat
      ensures ByteAt(bs, disk', files'[k], pos) ==
        if Covers(bs, off, n + m, pos) then buf[Lag(bs, off, pos)] else ByteAt(bs, disk0, f0, pos)
      ensures Covers(bs, off, n + m, pos) ==> Ptr(disk', files'[k], SlotAt(bs, pos)) != 0
    {
      ByteStep(bs, disk, files, disk', files', k, x, buf[n..n + m], pos);
      ChunkFits(bs, disk, files, disk', files', k, x, buf[n..n + m]);
      CoversNext(bs, off, n, m, pos);
      assert Covers(bs, off, n, pos) ==> Ptr(disk, files[k], SlotAt(bs, pos)) != 0;
      assert ByteAt(bs, disk, files[k], pos) ==
        if Covers(bs, off, n, pos) then buf[Lag(bs, off, pos)] else ByteAt(bs, disk0, f0, pos);
    }
  }

  /** The next `m` positions of a write are those of its next chunk. */
  lemma CoversNext(bs: nat, off: nat, n: nat, m: nat, pos: nat)
    requires bs >= 4 && n + m < U32 && OffsetIn(bs, (off + n) % Reach(bs)) + m <= bs
    ensures var x := (off + n) % Reach(bs);
      && (Covers(bs, off, n + m, pos) <==> Covers(bs, off, n, pos) || x <= pos < x + m)
      && (x <= pos < x + m ==> !Covers(bs, off, n, pos) && Lag(bs, off, pos) == n + (pos - x))
  {
    var r := Reach(bs);
    var x := (off + n) % r;
    BlockEnd(bs, x, m);
    hide OffsetIn;
    if pos < r { LagOf(r, off, n, m, x, pos); }
  }

  /** A chunk that stays in its block stays within reach. */
  lemma BlockEnd(bs: nat, x: nat, m: nat)
    requires bs > 0 && x < Reach(bs) && OffsetIn(bs, x) + m <= bs
    ensures x + m <= Reach(bs)
  {
    var idx := IndexOf(bs, x);
    assert x == idx * bs + OffsetIn(bs, x);
    if idx >= U32 { MulMonotone(U32, idx, bs); }
    MulMonotone(idx + 1, U32, bs);
  }

  lemma LagOf(r: nat, off: nat, n: nat, m: nat, x: nat, pos: nat)
    requires n + m < r && x == (off + n) % r && x + m <= r && pos < r
    ensures n <= (pos - off) % r < n + m <==> x <= pos < x + m
    ensures x <= pos < x + m ==> (pos - off) % r == n + (pos - x)
  {
    var l, q, p := (pos - off) % r, (pos - off) / r, (off + n) / r;
    var k := p + q;
    assert pos - off == q * r + l && off + n == p * r + x;
    assert q * r + p * r == k * r;
    assert pos - x == k * r + (l - n);
    if k > 0 { MulLess(1, k, r); }
    if k < 0 { MulLess(k, -1, r); }
  }

  /** The bytes `d`, which fit in one block, are now in file `k` from position `x` on. */
  ghost predicate ChunkStored(bs: nat, disk: seq<Block>, files: map<nat, Inode>,
                              disk': seq<Block>, files': map<nat, Inode>, k: nat, x: nat, d: seq<Byte>)
    requires bs >= 4 && FilesOk(files) && FilesOk(files')
  {
    && k in files && k in files' && OffsetIn(bs, x) + |d| <= bs
    && var at := SlotAt(bs, x);
    && Ptr(disk', files'[k], at) != 0
    && |Content(bs, disk, files[k], at)| == bs
    && OneBlockChanged(bs, disk, files, disk', files', k, at,
                       Patch(Content(bs, disk, files[k], at), OffsetIn(bs, x), d))
  }

  lemma ByteStep(bs: nat, disk: seq<Block>, files: map<nat, Inode>, disk': seq<Block>, files': map<nat, Inode>,
                 k: nat, x: nat, d: seq<Byte>, pos: nat)
    requires bs >= 4 && DiskOk(bs, disk) && DiskOk(bs, disk') && FilesOk(files) && FilesOk(files')
    requires ChunkStored(bs, disk, files, disk', files', k, x, d)
    ensures ByteAt(bs, disk', files'[k], pos) ==
      if x <= pos < x + |d| then d[pos - x] else ByteAt(bs, disk, files[k], pos)
    ensures x <= pos < x + |d| || Ptr(disk, files[k], SlotAt(bs, pos)) != 0 ==>
      Ptr(disk', files'[k], SlotAt(bs, pos)) != 0
  {
    hide SlotAt, OffsetIn, OneBlockChanged, Ptr;
    ChunkPlace(bs, x, |d|, pos);
    var s, at := SlotAt(bs, pos), SlotAt(bs, x);
    ReadSlot(bs, disk, files, disk', files', k, at, Patch(Content(bs, disk, files[k], at), OffsetIn(bs, x), d), s);
  }

  lemma ReadSlot(bs: nat, disk: seq<Block>, files: map<nat, Inode>, disk': seq<Block>, files': map<nat, Inode>,
                 k: nat, at: Slot, blk: Block, s: Slot)
    requires FilesOk(files) && FilesOk(files') && k in files && s.IsData()
    requires OneBlockChanged(bs, disk, files, disk', files', k, at, blk)
    ensures k in files'
    ensures Content(bs, disk', files'[k], s) == if s == at then blk else Content(bs, disk, files[k], s)
    ensures Ptr(disk, files[k], s) != 0 ==> Ptr(disk', files'[k], s) != 0
  {}

  /** A write that stored nothing: the inode is not written back, and every file, through its stored
      inode, still reads as before and owns its blocks. */
  lemma NotWrittenBack(bs: nat, disk0: seq<Block>, files: map<nat, Inode>, disk: seq<Block>, used: set<nat>,
                       own: map<nat, Owner>, k: nat, f: Inode)
    requires FilesOk(files) && k in files && RootsFilled(files[k], f)
    requires Grown(bs, disk0, files, disk, files[k := f]) && Owns(disk, used, files[k := f], own)
    ensures Owns(disk, used, files, own) && Grown(bs, disk0, files, disk, files)
  {
    var f0 := files[k];
    forall s
      ensures Ptr(disk, f0, s) == 0 || Ptr(disk, f0, s) == Ptr(disk, f, s)
      ensures Ptr(disk0, f0, s) != 0 ==> Ptr(disk, f0, s) != 0
    {
      var r := match s { case Direct(i) => i case Ind => 12 case IndData(_) => 12 case _ => 13 };
      if r < 15 && f0.block[r] == 0 {
        assert Ptr(disk, f0, s) == 0;
      }
      if Ptr(disk0, f0, s) != 0 {
        assert Ptr(disk, files[k := f][k], s) == Ptr(disk0, f0, s);
      }
    }
    forall j, s | j in files && Ptr(disk, files[j], s) != 0
      ensures Owned(Ptr(disk, files[j], s), |disk|, used, own, (j, s))
    {
      assert Ptr(disk, files[k := f][j], s) == Ptr(disk, files[j], s);
    }
    forall j, s: Slot | j in files && s.IsData()
      ensures Content(bs, disk, files[j], s) == Content(bs, disk0, files[j], s)
    {
      assert Content(bs, disk, files[k := f][j], s) == Content(bs, disk0, files[j], s);
    }
  }

  /** Where a write of `buf` to file `k` stands after `n` bytes, with inode copy `f`. */
  ghost predicate Midway(v: Volume, disk0: seq<Block>, files0: map<nat, Inode>, k: nat, f: Inode,
                         off: nat, buf: seq<Byte>, n: nat)
    reads v
    requires FilesOk(files0)
  {
    && v.Valid() && k in files0 && RootsFilled(files0[k], f)
    && DiskOk(v.geo.blockSize, disk0) && n <= |buf|
    && Owns(v.disk, v.Used(), files0[k := f], v.own)
    && OthersKept(v.geo.blockSize, disk0, v.disk, files0, k)
    && Written(v.geo.blockSize, disk0, files0[k], v.disk, f, off, buf, n)
    && (n == 0 ==> Grown(v.geo.blockSize, disk0, files0, v.disk, files0[k := f]))
  }

  /** Carries Midway over one round of the loop that stored `m` bytes. */
  lemma MidwayStored(bs: nat, disk0: seq<Block>, files0: map<nat, Inode>, disk: seq<Block>, f: Inode,
                     disk': seq<Block>, f': Inode, k: nat, off: nat, buf: seq<Byte>, n: nat, m: nat)
    requires bs >= 4 && DiskOk(bs, disk0) && DiskOk(bs, disk) && DiskOk(bs, disk') && FilesOk(files0) && k in files0
    requires RootsFilled(files0[k], f) && RootsFilled(f, f') && n + m <= |buf| < U32
    requires OthersKept(bs, disk0, disk, files0, k)
    requires Written(bs, disk0, files0[k], disk, f, off, buf, n)
    requires ChunkStored(bs, disk, files0[k := f], disk', files0[k := f'], k, (off + n) % Reach(bs), buf[n..n + m])
    ensures Written(bs, disk0, files0[k], disk', f', off, buf, n + m)
  {
    hide SlotAt, OffsetIn, ChunkStored, Written, OthersKept, Reach;
    WrittenStep(bs, disk0, files0[k], disk, files0[k := f], disk', files0[k := f'], k, off, buf, n, m);
  }

  lemma ChunkFits(bs: nat, disk: seq<Block>, files: map<nat, Inode>, disk': seq<Block>, files': map<nat, Inode>,
                  k: nat, x: nat, d: seq<Byte>)
    requires bs >= 4 && FilesOk(files) && FilesOk(files') && ChunkStored(bs, disk, files, disk', files', k, x, d)
    ensures OffsetIn(bs, x) + |d| <= bs
  {}

  lemma OthersStored(bs: nat, disk0: seq<Block>, files0: map<nat, Inode>, disk: seq<Block>, f: Inode,
                     disk': seq<Block>, f': Inode, k: nat, at: Slot, blk: Block)
    requires FilesOk(files0) && k in files0 && |f.block| == |f'.block| == 15
    requires OthersKept(bs, disk0, disk, files0, k)
    requires || OneBlockChanged(bs, disk, files0[k := f], disk', files0[k := f'], k, at, blk)
             || Grown(bs, disk, files0[k := f], disk', files0[k := f'])
    ensures OthersKept(bs, disk0, disk', files0, k)
  {
    forall j, s: Slot | j in files0 && j != k && s.IsData()
      ensures Content(bs, disk', files0[j], s) == Content(bs, disk0, files0[j], s)
    {
      hide Ptr, Content;
      assert Content(bs, disk', files0[k := f'][j], s) == Content(bs, disk, files0[k := f][j], s);
    }
  }

  /** A write stops short only for lack of blocks or where it is to cover the end of the double-indirect range. */
  ghost predicate OutOfRoom(v: Volume, pos: nat)
    reads v
    requires v.Valid()
  {
    v.freeBlocks == 0 || IndexOf(v.geo.blockSize, pos % Reach(v.geo.blockSize)) >= MaxIndex(v.geo.Ptrs())
  }

  /** One round of ext2_write's loop, with the casts of its index arithmetic. */
  method WriteRound(v: Volume, ghost disk0: seq<Block>, ghost files0: map<nat, Inode>, ghost ino: nat, f: Inode,
                    off: nat, buf: seq<Byte>, n: nat)
    returns (f': Inode, n': nat, ok: bool)
    requires FilesOk(files0) && n < |buf| < U32 && off < U64
    requires Midway(v, disk0, files0, ino, f, off, buf, n)
    modifies v`groups, v`freeBlocks, v`disk, v`own
    ensures Midway(v, disk0, files0, ino, f', off, buf, n')
    ensures v.Live() == old(v.Live()) && ReservedKept(v)
    ensures if ok then n < n' <= |buf| else n' == n
    ensures !ok ==> OutOfRoom(v, off + n)
  {
    hide BitmapsOk, CountsOk, UsedIn, LiveIn, DataSlot, MaxIndex, OffsetIn, IndexOf, Ptr, Owns, Grown, OthersKept,
      Written, OneBlockChanged, Reach;
    var bs := v.geo.blockSize;
    CutIndex(bs, off + n);
    var pos := (off + n) % U64;
    var idx, boff := IndexOf(bs, pos) % U32, OffsetIn(bs, pos);
    var m := if bs - boff > |buf| - n then |buf| - n else bs - boff;
    var d := buf[n..n + m];
    f', ok := WriteChunk(v, files0[ino := f], ino, f, idx, boff, d);
    n' := if ok then n + m else n;
    assert files0[ino := f][ino := f'] == files0[ino := f'];
    ghost var at := DataSlot(v.geo.Ptrs(), idx);
    if ok {
      OthersStored(bs, disk0, files0, old(v.disk), f, v.disk, f', ino, at,
        Patch(Content(bs, old(v.disk), f, at), boff, d));
      MidwayStored(bs, disk0, files0, old(v.disk), f, v.disk, f', ino, off, buf, n, m);
    } else {
      OthersStored(bs, disk0, files0, old(v.disk), f, v.disk, f', ino, at, []);
      WrittenGrown(bs, disk0, files0[ino], old(v.disk), files0[ino := f], v.disk, files0[ino := f'], ino, off, buf, n);
      if n == 0 {
        GrownTransitive(bs, disk0, files0, old(v.disk), files0[ino := f], v.disk, files0[ino := f']);
      }
    }
  }

  /** The block number that the driver computes with its 64- and 32-bit casts, and the offset in the block, are
      those of the position cut at the reach. */
  lemma CutIndex(bs: nat, y: nat)
    requires bs in {1024, 2048, 4096}
    ensures var pos, x := y % U64, y % Reach(bs);
      IndexOf(bs, x) == IndexOf(bs, pos) % U32 && OffsetIn(bs, x) == OffsetIn(bs, pos)
  {
    CutWord(bs, y);
    CutOnce(bs, y % U64);
  }

  /** 2^64 is a multiple of the reach. */
  lemma CutWord(bs: nat, y: nat)
    requires bs in {1024, 2048, 4096}
    ensures y % U64 % (bs * U32) == y % (bs * U32)
  {
    var a, z, r := y / U64, y % U64, bs * U32;
    var c, x, k := z / r, z % r, U64 / r;
    assert k * r == U64;
    assert y == (a * k + c) * r + x by { Distribute(a, k, c, r); }
    DivModUnique(r, a * k + c, x);
  }

  lemma CutOnce(bs: nat, pos: nat)
    requires bs > 0
    ensures var x := pos % (bs * U32); x / bs == pos / bs % U32 && x % bs == pos % bs
  {
    var q := pos / bs;
    CutParts(bs, U32, q / U32, q % U32, pos % bs);
    assert pos == q * bs + pos % bs;
    assert q / U32 * U32 + q % U32 == q;
  }

  lemma CutParts(bs: nat, w: nat, c: nat, idx: nat, boff: nat)
    requires idx < w && boff < bs && bs * w > 0
    ensures var x := ((c * w + idx) * bs + boff) % (bs * w); x / bs == idx && x % bs == boff
  {
    var x := idx * bs + boff;
    Distribute(c, w, idx, bs);
    MulMonotone(idx + 1, w, bs);
    assert w * bs == bs * w;
    assert (c * w + idx) * bs + boff == c * (bs * w) + x;
    assert x < bs * w;
    DivModUnique(bs * w, c, x);
    DivModUnique(bs, idx, boff);
  }

  lemma Distribute(a: nat, k: nat, c: nat, r: nat)
    ensures (a * k + c) * r == a * (k * r) + c * r
  {}

  /** ext2_write: stores a prefix of `buf`, all of it unless the volume fills up or the double-indirect
      range ends; no other byte of any file changes, and no block gets a second owner. Past 2^32 blocks it goes
      on at the start of the file, and i_size is cut to 32 bits. */
  method Write(v: Volume, ino: nat, off: nat, buf: seq<Byte>) returns (n: int)
    requires v.Sound() && ino in v.Files() && off < U64 && |buf| < U32
    modifies v
    ensures v.Sound() && ReservedKept(v) && v.Live() == old(v.Live()) && v.freeInodes == old(v.freeInodes)
    ensures buf == [] ==> n == -1 && v.disk == old(v.disk) && v.inodes == old(v.inodes) && v.groups == old(v.groups)
    ensures buf != [] ==> 0 <= n <= |buf|
    ensures v.Files() == old(v.Files())[ino := v.inodes[ino]]
    ensures OthersKept(v.geo.blockSize, old(v.disk), v.disk, old(v.Files()), ino)
    ensures v.inodes[ino] == old(v.inodes[ino]).(size := v.inodes[ino].size, block := v.inodes[ino].block)
    ensures buf != [] ==>
      && Written(v.geo.blockSize, old(v.disk), old(v.inodes[ino]), v.disk, v.inodes[ino], off, buf, n)
      && v.inodes[ino].size == (if n > 0 then NewSize(old(v.inodes[ino].size), off, n) else old(v.inodes[ino].size))
      && (n < |buf| ==> OutOfRoom(v, off + n))
    ensures n > 0 && off + n < U32 ==>
      v.inodes[ino].size == if old(v.inodes[ino].size) < off + n then off + n else old(v.inodes[ino].size)
  {
    hide BitmapsOk, CountsOk, UsedIn, LiveIn, Ptr, Owns, Written, NewSize;
    if buf == [] {
      n := -1;
      return;
    }
    ghost var files0, disk0 := v.Files(), v.disk;
    var f;
    f, n := WriteLoop(v, ino, off, buf);
    WriteBack(v, disk0, files0, ino, f, off, buf, n);
    NewSizeIs(files0[ino].size, off, n);
  }

  method WriteLoop(v: Volume, ino: nat, off: nat, buf: seq<Byte>) returns (f: Inode, n: nat)
    requires v.Sound() && ino in v.Files() && off < U64 && |buf| < U32
    modifies v`groups, v`freeBlocks, v`disk, v`own
    ensures Midway(v, old(v.disk), old(v.Files()), ino, f, off, buf, n)
    ensures v.Live() == old(v.Live()) && ReservedKept(v)
    ensures n < |buf| ==> OutOfRoom(v, off + n)
  {
    hide BitmapsOk, CountsOk, UsedIn, LiveIn, OutOfRoom, Ptr, Owns;
    ghost var files0, disk0 := v.Files(), v.disk;
    var ok := true;
    f, n := v.inodes[ino], 0;
    assert files0[ino := f] == files0;
    while ok && n < |buf|
      invariant Midway(v, disk0, files0, ino, f, off, buf, n)
      invariant v.Live() == old(v.Live()) && ReservedKept(v)
      invariant !ok ==> OutOfRoom(v, off + n)
      decreases ok, |buf| - n
    {
      f, n, ok := WriteRound(v, disk0, files0, ino, f, off, buf, n);
    }
  }

  /** The end of ext2_write: the inode goes back to the table when something was stored. */
  method WriteBack(v: Volume, ghost disk0: seq<Block>, ghost files0: map<nat, Inode>, ino: nat, f: Inode,
                   off: nat, ghost buf: seq<Byte>, n: nat)
    requires v.Valid() && FilesOk(files0) && files0 == v.Files() && off < U64
    requires Midway(v, disk0, files0, ino, f, off, buf, n)
    modifies v`inodes
    ensures v.Sound() && v.Files() == files0[ino := v.inodes[ino]]
    ensures v.inodes[ino] == files0[ino].(size := v.inodes[ino].size, block := v.inodes[ino].block)
    ensures OthersKept(v.geo.blockSize, disk0, v.disk, files0, ino)
    ensures Written(v.geo.blockSize, disk0, files0[ino], v.disk, v.inodes[ino], off, buf, n)
    ensures v.inodes[ino].size == if n > 0 then NewSize(files0[ino].size, off, n) else files0[ino].size
  {
    hide BitmapsOk, CountsOk, UsedIn, LiveIn, Ptr, Owns, Written, OthersKept, Grown, NewSize;
    if n > 0 {
      var size := NewSize(f.size, off, n);
      SizeOnly(v.geo.blockSize, disk0, files0, v.disk, v.Used(), v.own, ino, f, size, off, buf, n);
      v.inodes := v.inodes[ino := f.(size := size)];
      assert v.Files() == files0[ino := v.inodes[ino]];
    } else {
      NotWrittenBack(v.geo.blockSize, disk0, files0, v.disk, v.Used(), v.own, ino, f);
      WrittenByNothing(v.geo.blockSize, disk0, files0, v.disk, files0, ino, off, buf);
      assert v.Files() == files0[ino := v.inodes[ino]];
    }
  }

  /** i_size after storing `n` bytes at `off`, with the 64- and 32-bit casts. */
  function NewSize(size: nat, off: nat, n: nat): nat {
    var end := (off + n) % U64;
    if end > size then end % U32 else size
  }

  /** Below 2^32, i_size never shrinks, and grows no further than the end of the write; above, it is cut. */
  lemma NewSizeIs(size: nat, off: nat, n: nat)
    ensures off + n < U32 ==> NewSize(size, off, n) == if size < off + n then off + n else size
    ensures size < U32 <= off + n < U64 ==> NewSize(size, off, n) == (off + n) % U32
  {}

  /** i_size says where the write ended exactly when that is below 2^32. */
  lemma NewSizeFits(size: nat, off: nat, n: nat)
    requires size < U32
    ensures NewSize(size, off, n) >= off + n <==> off + n < U32
  {}

  /** Setting i_size moves no pointer and no byte. */
  lemma SizeOnly(bs: nat, disk0: seq<Block>, files0: map<nat, Inode>, disk: seq<Block>, used: set<nat>,
                 own: map<nat, Owner>, k: nat, f: Inode, size: nat, off: nat, buf: seq<Byte>, n: nat)
    requires bs >= 4 && DiskOk(bs, disk0) && DiskOk(bs, disk) && FilesOk(files0) && k in files0 && |f.block| == 15
    requires n <= |buf| && Owns(disk, used, files0[k := f], own)
    ensures Owns(disk, used, files0[k := f.(size := size)], own)
    ensures Written(bs, disk0, files0[k], disk, f, off, buf, n) ==>
      Written(bs, disk0, files0[k], disk, f.(size := size), off, buf, n)
  {
    var f' := f.(size := size);
    assert forall s :: Ptr(disk, f', s) == Ptr(disk, f, s);
    forall j, s | j in files0 && Ptr(disk, files0[k := f'][j], s) != 0
      ensures Owned(Ptr(disk, files0[k := f'][j], s), |disk|, used, own, (j, s))
    {
      assert Ptr(disk, files0[k := f'][j], s) == Ptr(disk, files0[k := f][j], s);
    }
    assert forall pos: nat :: ByteAt(bs, disk, f', pos) == ByteAt(bs, disk, f, pos);
  }

  // ---- ext2_read -------------------------------------------------------------------

  datatype Found = Stop | At(b: nat)

  /** By the pointers alone: no pointer block leads to logical block `idx`. A zero pointer in the last place
      does not count: that is a hole, which is there and reads as zeros. */
  predicate Unreachable(n: nat, disk: seq<Block>, f: Inode, idx: nat)
    requires n > 0 && |f.block| == 15
  {
    || (12 <= idx < 12 + n && Ptr(disk, f, Ind) == 0)
    || (12 + n <= idx < 12 + n + n * n && (Ptr(disk, f, Dbl) == 0 || Ptr(disk, f, DblInd((idx - 12 - n) / n)) == 0))
    || idx >= 12 + n + n * n
  }

  /** ext2_read's walk to logical block `idx`: it gives up exactly where no pointer block leads there, and
      otherwise yields the block of its slot, or 0 for a hole. */
  function Walk(n: nat, disk: seq<Block>, f: Inode, idx: nat): (r: Found)
    requires n > 0 && |f.block| == 15
    ensures r.Stop? <==> Unreachable(n, disk, f, idx)
    ensures r.At? ==> r.b == Ptr(disk, f, DataSlot(n, idx))
    ensures Ptr(disk, f, DataSlot(n, idx)) != 0 ==> r.At?
  {
    SlotCases(n, idx);
    if idx < 12 then At(f.block[idx])
    else if idx < 12 + n then
      if f.block[12] == 0 then Stop else At(Follow(disk, f.block[12], idx - 12))
    else if idx < MaxIndex(n) then
      if f.block[13] == 0 then Stop
      else
        var q := Follow(disk, f.block[13], Row(n, idx));
        if q == 0 then Stop else At(Follow(disk, q, Column(n, idx)))
    else Stop
  }

  /** Whether ext2_read gives up at byte `pos`. */
  predicate StopsAt(bs: nat, disk: seq<Block>, f: Inode, pos: nat)
    requires bs >= 4 && |f.block| == 15
  {
    Unreachable(bs / 4, disk, f, IndexOf(bs, pos))
  }

  /** How many bytes are asked for and inside the file. */
  function Available(f: Inode, off: nat, size: nat): nat {
    if off >= f.size then 0 else if off + size > f.size then f.size - off else size
  }

  /** Exactly the positions asked for that lie before the end of the file. */
  lemma AvailableExactly(f: Inode, off: nat, size: nat, i: nat)
    ensures i < Available(f, off, size) <==> i < size && off + i < f.size
  {}

  /** `d` is the byte view from `pos` on, and the walk does not give up within it. */
  ghost predicate ReadsAs(bs: nat, disk: seq<Block>, f: Inode, pos: nat, d: seq<Byte>)
    requires bs >= 4 && |f.block| == 15 && DiskOk(bs, disk)
  {
    forall i :: 0 <= i < |d| ==> d[i] == ByteAt(bs, disk, f, pos + i) && !StopsAt(bs, disk, f, pos + i)
  }

  /** `r` is what reading `want` bytes at `off` yields: the byte view, cut where the walk gives up. */
  ghost predicate ReadResult(bs: nat, disk: seq<Block>, f: Inode, off: nat, want: nat, r: seq<Byte>)
    requires bs >= 4 && |f.block| == 15 && DiskOk(bs, disk)
  {
    && |r| <= want && ReadsAs(bs, disk, f, off, r)
    && (|r| < want ==> StopsAt(bs, disk, f, off + |r|))
  }

  /** ext2_read: exactly the byte view of the range, up to the end of the file or a missing pointer block. */
  method Read(v: Volume, ino: nat, off: nat, size: nat) returns (r: seq<Byte>)
    requires v.Sound() && ino in v.Files()
    ensures ReadResult(v.geo.blockSize, v.disk, v.inodes[ino], off, Available(v.inodes[ino], off, size), r)
  {
    hide BitmapsOk, CountsOk, UsedIn, LiveIn, Walk, OffsetIn, IndexOf, SlotAt, StopsAt, ByteAt, Available, Owns, Ptr;
    var f, bs := v.inodes[ino], v.geo.blockSize;
    var want := Available(f, off, size);
    r := [];
    while |r| < want
      invariant |r| <= want && ReadsAs(bs, v.disk, f, off, r)
    {
      var pos := off + |r|;
      var boff := OffsetIn(bs, pos);
      var m := if bs - boff > want - |r| then want - |r| else bs - boff;
      var found := Walk(bs / 4, v.disk, f, IndexOf(bs, pos));
      ReadChunk(v, ino, pos, m);
      if found.Stop? {
        return;
      }
      var blk := if found.b == 0 then Zeros(bs) else v.disk[found.b];
      var d := blk[boff..boff + m];
      ReadsOn(bs, v.disk, f, off, r, d);
      r := r + d;
    }
  }

  lemma ReadsOn(bs: nat, disk: seq<Block>, f: Inode, off: nat, r: seq<Byte>, d: seq<Byte>)
    requires bs >= 4 && |f.block| == 15 && DiskOk(bs, disk)
    requires ReadsAs(bs, disk, f, off, r) && ReadsAs(bs, disk, f, off + |r|, d)
    ensures ReadsAs(bs, disk, f, off, r + d)
  {
    hide ByteAt, StopsAt;
    forall i | 0 <= i < |r + d| ensures (r + d)[i] == ByteAt(bs, disk, f, off + i) && !StopsAt(bs, disk, f, off + i) {
      if i >= |r| { assert (r + d)[i] == d[i - |r|] == ByteAt(bs, disk, f, off + |r| + (i - |r|)); }
    }
  }

  /** The bytes of one chunk of a read. */
  lemma ReadChunk(v: Volume, ino: nat, pos: nat, m: nat)
    requires v.Sound() && ino in v.Files()
    requires OffsetIn(v.geo.blockSize, pos) + m <= v.geo.blockSize
    ensures var bs, f := v.geo.blockSize, v.inodes[ino];
      var found := Walk(bs / 4, v.disk, f, IndexOf(bs, pos));
      && (found.Stop? <==> StopsAt(bs, v.disk, f, pos))
      && (found.At? ==>
            && found.b < |v.disk|
            && var blk := if found.b == 0 then Zeros(bs) else v.disk[found.b];
            ReadsAs(bs, v.disk, f, pos, blk[OffsetIn(bs, pos)..OffsetIn(bs, pos) + m]))
  {
    hide BitmapsOk, CountsOk, UsedIn, LiveIn, Walk, OffsetIn, DataSlot, IndexOf, Owns, ReadsAs, StopsAt;
    ChunkRead(v.geo.blockSize, v.disk, v.Used(), v.Files(), v.own, ino, pos, m);
  }

  lemma ChunkRead(bs: nat, disk: seq<Block>, used: set<nat>, files: map<nat, Inode>, own: map<nat, Owner>, k: nat,
                  pos: nat, m: nat)
    requires bs >= 4 && FilesOk(files) && DiskOk(bs, disk) && Owns(disk, used, files, own) && k in files && |disk| > 0
    requires OffsetIn(bs, pos) + m <= bs
    ensures var f := files[k];
      var found := Walk(bs / 4, disk, f, IndexOf(bs, pos));
      && (found.Stop? <==> StopsAt(bs, disk, f, pos))
      && (found.At? ==>
            && found.b < |disk|
            && var blk := if found.b == 0 then Zeros(bs) else disk[found.b];
            ReadsAs(bs, disk, f, pos, blk[OffsetIn(bs, pos)..OffsetIn(bs, pos) + m]))
  {
    hide Walk, OffsetIn, DataSlot, IndexOf, ByteAt, Ptr, Owns, StopsAt;
    var f := files[k];
    var found := Walk(bs / 4, disk, f, IndexOf(bs, pos));
    StopsIff(bs, disk, f, pos);
    if found.At? {
      FoundOnDisk(disk, used, files, own, k, SlotAt(bs, pos));
      var blk := if found.b == 0 then Zeros(bs) else disk[found.b];
      var d := blk[OffsetIn(bs, pos)..OffsetIn(bs, pos) + m];
      forall i | 0 <= i < |d|
        ensures d[i] == ByteAt(bs, disk, f, pos + i) && !StopsAt(bs, disk, f, pos + i)
      {
        ChunkByte(bs, disk, f, pos, i, blk);
      }
      assert ReadsAs(bs, disk, f, pos, d);
    }
  }

  lemma StopsIff(bs: nat, disk: seq<Block>, f: Inode, pos: nat)
    requires bs >= 4 && |f.block| == 15
    ensures Walk(bs / 4, disk, f, IndexOf(bs, pos)).Stop? <==> StopsAt(bs, disk, f, pos)
  {
    hide Walk;
  }

  lemma FoundOnDisk(disk: seq<Block>, used: set<nat>, files: map<nat, Inode>, own: map<nat, Owner>, k: nat, s: Slot)
    requires FilesOk(files) && Owns(disk, used, files, own) && k in files
    ensures Ptr(disk, files[k], s) != 0 ==> Ptr(disk, files[k], s) < |disk|
  {}

  /** The i-th byte of a chunk that starts at `pos` in the block found there. */
  lemma ChunkByte(bs: nat, disk: seq<Block>, f: Inode, pos: nat, i: nat, blk: Block)
    requires bs >= 4 && |f.block| == 15 && DiskOk(bs, disk) && OffsetIn(bs, pos) + i < bs && !StopsAt(bs, disk, f, pos)
    requires blk == Content(bs, disk, f, SlotAt(bs, pos))
    ensures !StopsAt(bs, disk, f, pos + i) && |blk| == bs && ByteAt(bs, disk, f, pos + i) == blk[OffsetIn(bs, pos) + i]
  {
    hide Walk, OffsetIn, IndexOf, DataSlot, Ptr;
    NextInBlock(bs, pos, i);
  }

  lemma NextInBlock(bs: nat, pos: nat, i: nat)
    requires bs > 0 && OffsetIn(bs, pos) + i < bs
    ensures IndexOf(bs, pos + i) == IndexOf(bs, pos) && OffsetIn(bs, pos + i) == OffsetIn(bs, pos) + i
  {
    DivModUnique(bs, IndexOf(bs, pos), OffsetIn(bs, pos) + i);
  }

  /** A read is short exactly if no pointer block leads to some position of the range; a hole in it reads
      as zeros. */
  lemma ReadsInFull(bs: nat, disk: seq<Block>, f: Inode, off: nat, want: nat, r: seq<Byte>)
    requires bs >= 4 && |f.block| == 15 && DiskOk(bs, disk) && ReadResult(bs, disk, f, off, want, r)
    ensures |r| == want <==> forall pos :: off <= pos < off + want ==> !StopsAt(bs, disk, f, pos)
    ensures forall i :: 0 <= i < |r| && Ptr(disk, f, SlotAt(bs, off + i)) == 0 ==> r[i] == 0
  {
    hide StopsAt, SlotAt, OffsetIn;
    if |r| == want {
      forall pos | off <= pos < off + want ensures !StopsAt(bs, disk, f, pos) {
        NotStopped(bs, disk, f, off, r, pos - off);
      }
    }
    forall i | 0 <= i < |r| && Ptr(disk, f, SlotAt(bs, off + i)) == 0 ensures r[i] == 0 {
      assert r[i] == ByteAt(bs, disk, f, off + i);
    }
  }

  /** With every pointer block in place a read returns all it was asked for, holes included. */
  lemma ReadsThroughHoles(bs: nat, disk: seq<Block>, f: Inode, off: nat, want: nat, r: seq<Byte>)
    requires bs >= 4 && |f.block| == 15 && DiskOk(bs, disk) && ReadResult(bs, disk, f, off, want, r)
    requires Ptr(disk, f, Ind) != 0 && Ptr(disk, f, Dbl) != 0
    requires forall i: nat :: i < bs / 4 ==> Ptr(disk, f, DblInd(i)) != 0
    requires off + want <= MaxIndex(bs / 4) * bs
    ensures |r| == want
    ensures forall i :: 0 <= i < |r| && Ptr(disk, f, SlotAt(bs, off + i)) == 0 ==> r[i] == 0
  {
    hide SlotAt, OffsetIn, ReadResult, Ptr;
    ReadsInFull(bs, disk, f, off, want, r);
    forall pos | off <= pos < off + want ensures !StopsAt(bs, disk, f, pos) {
      BelowReach(bs, MaxIndex(bs / 4), pos);
      SlotCases(bs / 4, IndexOf(bs, pos));
    }
  }

  lemma BelowReach(bs: nat, m: nat, pos: nat)
    requires bs > 0 && pos < m * bs
    ensures IndexOf(bs, pos) < m
  {
    if pos / bs >= m { MulMonotone(m, pos / bs, bs); }
  }

  /** Reading back a completed write returns exactly the bytes written if and only if it ended below 2^32,
      where i_size still fits. */
  method WriteThenRead(v: Volume, ino: nat, off: nat, buf: seq<Byte>) returns (n: int, r: seq<Byte>)
    requires v.Sound() && ino in v.Files() && buf != [] && off < U64 && |buf| < U32 && v.inodes[ino].size < U32
    modifies v
    ensures v.Sound()
    ensures n == |buf| ==> (r == buf <==> off + |buf| < U32)
  {
    hide BitmapsOk, CountsOk, UsedIn, LiveIn, Walk, OffsetIn, IndexOf, DataSlot, ByteAt, Covers, Lag, NewSize;
    n := Write(v, ino, off, buf);
    r := Read(v, ino, off, |buf|);
    if n == |buf| {
      NewSizeFits(old(v.inodes[ino].size), off, n);
      if off + |buf| < U32 {
        ReadBack(v.geo.blockSize, old(v.disk), old(v.inodes[ino]), v.disk, v.inodes[ino], off, buf, r);
      }
    }
  }

  /** With 4 KiB blocks a file has positions past 2^32, so that the other case is reached. */
  lemma DoubleRangePast4GiB()
    ensures MaxIndex(4096 / 4) * 4096 > U32
  {}

  /** Why: the written range is mapped, so the read cannot give up inside it. */
  lemma ReadBack(bs: nat, disk0: seq<Block>, f0: Inode, disk: seq<Block>, f: Inode, off: nat, buf: seq<Byte>,
                 r: seq<Byte>)
    requires bs >= 4 && DiskOk(bs, disk0) && DiskOk(bs, disk) && |f0.block| == |f.block| == 15
    requires Written(bs, disk0, f0, disk, f, off, buf, |buf|) && off + |buf| <= f.size && off + |buf| <= Reach(bs)
    requires ReadResult(bs, disk, f, off, Available(f, off, |buf|), r)
    ensures r == buf
  {
    hide Walk, OffsetIn, DataSlot, ByteAt, Ptr, Covers, Lag, Reach;
    forall pos: nat | off <= pos < off + |buf|
      ensures !StopsAt(bs, disk, f, pos) && ByteAt(bs, disk, f, pos) == buf[pos - off]
    {
      CoversRange(bs, off, |buf|, pos);
      assert Ptr(disk, f, SlotAt(bs, pos)) != 0;
      StopsIff(bs, disk, f, pos);
    }
    forall i | 0 <= i < |r| ensures r[i] == buf[i] {
      assert ByteAt(bs, disk, f, off + i) == buf[off + i - off];
    }
  }

  // ---- ext2_truncate, and the freeing part of ext2_unlink -----------------------------

  ghost function DirectBlocks(f: Inode, n: nat): set<nat>
    requires n <= 12 && |f.block| == 15
  {
    set i: nat | i < n && f.block[i] != 0 :: f.block[i]
  }

  ghost function IndirectBlocks(disk: seq<Block>, f: Inode, n: nat): set<nat>
    requires |f.block| == 15
  {
    set i: nat | i < n && Ptr(disk, f, IndData(i)) != 0 :: Ptr(disk, f, IndData(i))
  }

  /** The blocks that truncating releases: direct, single-indirect, and the indirect block itself. */
  ghost function Released(n: nat, disk: seq<Block>, f: Inode): set<nat>
    requires |f.block| == 15
  {
    DirectBlocks(f, 12) + if f.block[12] == 0 then {} else IndirectBlocks(disk, f, n) + {f.block[12]}
  }

  function Cleared(f: Inode): (f': Inode)
    requires |f.block| == 15
    ensures |f'.block| == 15
  {
    f.(block := seq(13, _ => 0) + f.block[13..])
  }

  /** A block held by slot `s` of file `k` is none of those held by k's direct slots below `n`. */
  lemma NotDirect(disk: seq<Block>, used: set<nat>, files: map<nat, Inode>, own: map<nat, Owner>, k: nat, s: Slot,
                  n: nat)
    requires FilesOk(files) && Owns(disk, used, files, own) && k in files && n <= 12
    requires Ptr(disk, files[k], s) != 0 && !(s.Direct? && s.i < n)
    ensures Ptr(disk, files[k], s) !in DirectBlocks(files[k], n)
    ensures Owned(Ptr(disk, files[k], s), |disk|, used, own, (k, s))
  {
    assert Owned(Ptr(disk, files[k], s), |disk|, used, own, (k, s));
    forall i: nat | i < n && files[k].block[i] != 0 ensures files[k].block[i] != Ptr(disk, files[k], s) {
      assert Owned(Ptr(disk, files[k], Direct(i)), |disk|, used, own, (k, Direct(i)));
    }
  }

  lemma NotIndirect(disk: seq<Block>, used: set<nat>, files: map<nat, Inode>, own: map<nat, Owner>, k: nat, s: Slot,
                    n: nat)
    requires FilesOk(files) && Owns(disk, used, files, own) && k in files
    requires Ptr(disk, files[k], s) != 0 && !(s.IndData? && s.i < n)
    ensures Ptr(disk, files[k], s) !in IndirectBlocks(disk, files[k], n)
  {}

  /** Frees the direct blocks of file `k`. */
  method FreeDirect(v: Volume, ghost k: nat, f: Inode)
    requires v.Sound() && k in v.Files() && v.Files()[k] == f
    modifies v`groups, v`freeBlocks
    ensures v.Valid() && v.Live() == old(v.Live())
    ensures v.Used() == old(v.Used()) - DirectBlocks(f, 12)
    ensures v.freeBlocks == old(v.freeBlocks) + |DirectBlocks(f, 12)|
  {
    hide BitmapsOk, CountsOk, UsedIn, LiveIn;
    assert DirectBlocks(f, 0) == {};
    for b := 0 to 12
      invariant v.Valid() && v.Live() == old(v.Live())
      invariant v.Used() == old(v.Used()) - DirectBlocks(f, b)
      invariant v.freeBlocks == old(v.freeBlocks) + |DirectBlocks(f, b)|
    {
      if f.block[b] != 0 {
        assert Ptr(v.disk, f, Direct(b)) == f.block[b];
        NotDirect(v.disk, old(v.Used()), old(v.Files()), v.own, k, Direct(b), b);
        v.FreeBlock(f.block[b]);
        assert DirectBlocks(f, b + 1) == DirectBlocks(f, b) + {f.block[b]};
      } else {
        assert DirectBlocks(f, b + 1) == DirectBlocks(f, b);
      }
    }
  }

  /** Frees the blocks listed in the indirect block of file `k`, then the indirect block. */
  method FreeIndirect(v: Volume, ghost files: map<nat, Inode>, ghost used: set<nat>, ghost k: nat, f: Inode)
    requires v.Valid() && FilesOk(files) && k in files && files[k] == f && f.block[12] != 0
    requires Owns(v.disk, used, files, v.own) && v.Used() == used - DirectBlocks(f, 12)
    modifies v`groups, v`freeBlocks
    ensures v.Valid() && v.Live() == old(v.Live())
    ensures v.Used() == used - Released(v.geo.Ptrs(), v.disk, f)
    ensures v.freeBlocks == old(v.freeBlocks) + |IndirectBlocks(v.disk, f, v.geo.Ptrs())| + 1
  {
    hide BitmapsOk, CountsOk, UsedIn, LiveIn, Owns;
    var p := f.block[12];
    assert Ptr(v.disk, f, Ind) == p;
    NotDirect(v.disk, used, files, v.own, k, Ind, 12);
    assert IndirectBlocks(v.disk, f, 0) == {};
    for i := 0 to v.geo.Ptrs()
      invariant v.Valid() && v.Live() == old(v.Live())
      invariant v.Used() == used - DirectBlocks(f, 12) - IndirectBlocks(v.disk, f, i)
      invariant v.freeBlocks == old(v.freeBlocks) + |IndirectBlocks(v.disk, f, i)|
    {
      var b := Get32(v.disk[p], 4 * i);
      assert b == Ptr(v.disk, f, IndData(i));
      if b != 0 {
        NotDirect(v.disk, used, files, v.own, k, IndData(i), 12);
        NotIndirect(v.disk, used, files, v.own, k, IndData(i), i);
        v.FreeBlock(b);
        assert IndirectBlocks(v.disk, f, i + 1) == IndirectBlocks(v.disk, f, i) + {b};
      } else {
        assert IndirectBlocks(v.disk, f, i + 1) == IndirectBlocks(v.disk, f, i);
      }
    }
    NotIndirect(v.disk, used, files, v.own, k, Ind, v.geo.Ptrs());
    v.FreeBlock(p);
  }

  /** Frees what truncation frees, and clears those pointers in the inode copy. */
  method FreeTree(v: Volume, ghost k: nat, f: Inode) returns (f': Inode)
    requires v.Sound() && k in v.Files() && v.Files()[k] == f
    modifies v`groups, v`freeBlocks
    ensures v.Valid() && v.Live() == old(v.Live())
    ensures f' == Cleared(f)
    ensures v.Used() == old(v.Used()) - Released(v.geo.Ptrs(), v.disk, f) && ReservedKept(v)
    ensures Owns(v.disk, v.Used(), old(v.Files())[k := f'], v.own)
    ensures v.freeBlocks == old(v.freeBlocks) + |Released(v.geo.Ptrs(), v.disk, f)|
  {
    hide BitmapsOk, CountsOk, UsedIn, LiveIn;
    ghost var files, used := v.Files(), v.Used();
    FreeDirect(v, k, f);
    if f.block[12] != 0 {
      FreeIndirect(v, files, used, k, f);
    }
    f' := Cleared(f);
    ReleasedCount(v.geo.Ptrs(), v.disk, used, files, v.own, k);
    KeptAfterRelease(v.geo.Ptrs(), v.disk, used, files, v.own, k);
  }

  lemma ReleasedCount(n: nat, disk: seq<Block>, used: set<nat>, files: map<nat, Inode>, own: map<nat, Owner>, k: nat)
    requires FilesOk(files) && Owns(disk, used, files, own) && k in files
    ensures var f := files[k];
      |Released(n, disk, f)| == |DirectBlocks(f, 12)| + if f.block[12] == 0 then 0 else |IndirectBlocks(disk, f, n)| + 1
  {
    var f := files[k];
    if f.block[12] != 0 {
      assert Ptr(disk, f, Ind) == f.block[12];
      NotDirect(disk, used, files, own, k, Ind, 12);
      NotIndirect(disk, used, files, own, k, Ind, n);
      forall b | b in DirectBlocks(f, 12) ensures b !in IndirectBlocks(disk, f, n) {
        var i: nat :| i < 12 && f.block[i] != 0 && b == f.block[i];
        assert Ptr(disk, f, Direct(i)) == b;
        NotIndirect(disk, used, files, own, k, Direct(i), n);
      }
      assert DirectBlocks(f, 12) !! (IndirectBlocks(disk, f, n) + {f.block[12]});
    }
  }

  /** After the release every block still referenced is still in use and in its one slot. */
  lemma KeptAfterRelease(n: nat, disk: seq<Block>, used: set<nat>, files: map<nat, Inode>, own: map<nat, Owner>, k: nat)
    requires FilesOk(files) && Owns(disk, used, files, own) && k in files
    ensures Owns(disk, used - Released(n, disk, files[k]), files[k := Cleared(files[k])], own)
    ensures Released(n, disk, files[k]) <= own.Keys
  {
    var f, files' := files[k], files[k := Cleared(files[k])];
    forall b | b in Released(n, disk, f) ensures b in own {
      if b in DirectBlocks(f, 12) {
        var i: nat :| i < 12 && f.block[i] != 0 && b == f.block[i];
        assert Owned(Ptr(disk, f, Direct(i)), |disk|, used, own, (k, Direct(i)));
      } else if b == f.block[12] {
        assert Owned(Ptr(disk, f, Ind), |disk|, used, own, (k, Ind));
      } else {
        var i: nat :| i < n && Ptr(disk, f, IndData(i)) != 0 && b == Ptr(disk, f, IndData(i));
        assert Owned(Ptr(disk, f, IndData(i)), |disk|, used, own, (k, IndData(i)));
      }
    }
    forall j, s | j in files' && Ptr(disk, files'[j], s) != 0
      ensures Owned(Ptr(disk, files'[j], s), |disk|, used - Released(n, disk, f), own, (j, s))
    {
      var b := Ptr(disk, files'[j], s);
      assert b == Ptr(disk, files[j], s);
      assert Owned(b, |disk|, used, own, (j, s));
      assert j == k ==> s.Dbl? || s.DblInd? || s.DblData?;
      forall i: nat | i < 12 && f.block[i] != 0 ensures f.block[i] != b {
        assert Owned(Ptr(disk, f, Direct(i)), |disk|, used, own, (k, Direct(i)));
      }
      forall i: nat | Ptr(disk, f, IndData(i)) != 0 ensures Ptr(disk, f, IndData(i)) != b {
        assert Owned(Ptr(disk, f, IndData(i)), |disk|, used, own, (k, IndData(i)));
      }
      if f.block[12] != 0 {
        assert Owned(Ptr(disk, f, Ind), |disk|, used, own, (k, Ind));
      }
    }
  }

  /** Truncation returns every block of a file exactly when it has no double-indirect block. */
  lemma ReleasesAllIff(n: nat, disk: seq<Block>, used: set<nat>, files: map<nat, Inode>, own: map<nat, Owner>, k: nat)
    requires FilesOk(files) && Owns(disk, used, files, own) && k in files
    requires DiskOk(4 * n, disk)
    ensures (forall s :: Ptr(disk, files[k], s) != 0 ==> Ptr(disk, files[k], s) in Released(n, disk, files[k]))
      <==> files[k].block[13] == 0
  {
    var f := files[k];
    if f.block[13] != 0 {
      assert Ptr(disk, f, Dbl) == f.block[13];
      NotDirect(disk, used, files, own, k, Dbl, 12);
      NotIndirect(disk, used, files, own, k, Dbl, n);
      if f.block[12] != 0 { assert Owned(Ptr(disk, f, Ind), |disk|, used, own, (k, Ind)); }
      assert Ptr(disk, f, Dbl) !in Released(n, disk, f);
    } else {
      forall s | Ptr(disk, f, s) != 0 ensures Ptr(disk, f, s) in Released(n, disk, f) {
        if s.IndData? { assert s.i < n; }
      }
    }
  }

  /** ext2_truncate: releases the direct and single-indirect blocks and sets the size to 0; a
      double-indirect tree stays attached. No other file is touched. */
  method Truncate(v: Volume, ino: nat) returns (ok: bool)
    requires v.Sound() && ino in v.Files()
    modifies v
    ensures v.Sound() && v.disk == old(v.disk) && v.Live() == old(v.Live()) && ReservedKept(v)
    ensures ok <==> ino >= 2
    ensures !ok ==> v.inodes == old(v.inodes) && v.groups == old(v.groups)
    ensures ok ==>
      && v.Files() == old(v.Files())[ino := Cleared(old(v.inodes[ino])).(size := 0)]
      && v.Used() == old(v.Used()) - Released(v.geo.Ptrs(), v.disk, old(v.inodes[ino]))
      && v.freeBlocks == old(v.freeBlocks) + |Released(v.geo.Ptrs(), v.disk, old(v.inodes[ino]))|
  {
    hide BitmapsOk, CountsOk, UsedIn, LiveIn, Owns, Ptr, Released, Written;
    ok := ino >= 2;
    if ok {
      ghost var files := v.Files();
      var f := FreeTree(v, ino, v.inodes[ino]);
      SizeOnly(v.geo.blockSize, v.disk, files, v.disk, v.Used(), v.own, ino, f, 0, 0, [], 0);
      v.inodes := v.inodes[ino := f.(size := 0)];
      assert v.Files() == files[ino := f.(size := 0)];
    }
  }

  /** A mapped byte past the single-indirect range hangs below i_block[13]. */
  lemma MappedThroughDouble(bs: nat, disk: seq<Block>, f: Inode, pos: nat)
    requires bs >= 4 && |f.block| == 15 && IndexOf(bs, pos) >= 12 + bs / 4 && Ptr(disk, f, SlotAt(bs, pos)) != 0
    ensures f.block[13] != 0
  {
    SlotCases(bs / 4, IndexOf(bs, pos));
  }

  /** Truncation does not undo a write that reached the double-indirect range: the file then has size 0 and
      still holds blocks. */
  method WriteThenTruncate(v: Volume, ino: nat, off: nat, buf: seq<Byte>) returns (n: int)
    requires v.Sound() && ino in v.Files() && ino >= 2 && buf != [] && |buf| < U32 && off < U64
    requires var bs := v.geo.blockSize; IndexOf(bs, (off + |buf| - 1) % Reach(bs)) >= 12 + v.geo.Ptrs()
    modifies v
    ensures v.Sound() && ino in v.Files() && v.inodes[ino].size == 0
    ensures n == |buf| ==> v.inodes[ino].block[13] != 0 && v.inodes[ino].block[13] in v.Used()
  {
    hide BitmapsOk, CountsOk, UsedIn, LiveIn, Owns, Released, OthersKept, SlotAt, IndexOf, ByteAt, Covers, Lag, Reach;
    n := Write(v, ino, off, buf);
    if n == |buf| {
      ghost var last := (off + n - 1) % Reach(v.geo.blockSize);
      CoversAll(v.geo.blockSize, off, n, n - 1);
      assert Ptr(v.disk, v.inodes[ino], SlotAt(v.geo.blockSize, last)) != 0;
      MappedThroughDouble(v.geo.blockSize, v.disk, v.inodes[ino], last);
    }
    hide Ptr, Written;
    var ok := Truncate(v, ino);
    if n == |buf| { HeldIsUsed(v.disk, v.Used(), v.Files(), v.own, ino); }
  }

  lemma HeldIsUsed(disk: seq<Block>, used: set<nat>, files: map<nat, Inode>, own: map<nat, Owner>, k: nat)
    requires FilesOk(files) && Owns(disk, used, files, own) && k in files && files[k].block[13] != 0
    ensures files[k].block[13] in used
  {
    assert Owned(Ptr(disk, files[k], Dbl), |disk|, used, own, (k, Dbl));
  }

  /** A file without an indirect block reads at most its first twelve blocks, whatever its size. */
  method ReadPastHole(v: Volume, ino: nat, off: nat, size: nat) returns (r: seq<Byte>)
    requires v.Sound() && ino in v.Files() && v.inodes[ino].block[12] == 0
    requires var end := 12 * v.geo.blockSize; off <= end < v.inodes[ino].size && end < off + size
    ensures |r| == 12 * v.geo.blockSize - off < Available(v.inodes[ino], off, size)
  {
    hide BitmapsOk, CountsOk, UsedIn, LiveIn, Owns, ByteAt, StopsAt;
    r := Read(v, ino, off, size);
    ghost var bs, f, end := v.geo.blockSize, v.inodes[ino], 12 * v.geo.blockSize;
    if end - off < |r| { NotStopped(bs, v.disk, f, off, r, end - off); }
    StopsExactly(bs, v.disk, f, end);
    StopsExactly(bs, v.disk, f, off + |r|);
  }

  lemma NotStopped(bs: nat, disk: seq<Block>, f: Inode, off: nat, r: seq<Byte>, i: nat)
    requires bs >= 4 && |f.block| == 15 && DiskOk(bs, disk) && ReadsAs(bs, disk, f, off, r) && i < |r|
    ensures !StopsAt(bs, disk, f, off + i)
  {
    assert r[i] == ByteAt(bs, disk, f, off + i);
  }

  /** Around the end of the direct blocks of such a file, the walk gives up exactly past that end. */
  lemma StopsExactly(bs: nat, disk: seq<Block>, f: Inode, pos: nat)
    requires bs >= 4 && |f.block| == 15 && f.block[12] == 0
    ensures pos < 12 * bs ==> !StopsAt(bs, disk, f, pos)
    ensures pos == 12 * bs ==> StopsAt(bs, disk, f, pos)
  {
    if pos == 12 * bs { DivModUnique(bs, 12, 0); }
    if pos < 12 * bs && IndexOf(bs, pos) >= 12 { MulMonotone(12, IndexOf(bs, pos), bs); }
  }

  /** A write at block 2^32 of a file lands in its first block. */
  method WriteWraps(v: Volume, ino: nat, buf: seq<Byte>) returns (n: int)
    requires v.Sound() && ino in v.Files() && buf != [] && |buf| < U32
    modifies v
    ensures v.Sound() && ino in v.Files()
    ensures 0 <= n <= |buf|
    ensures forall i :: 0 <= i < n ==> ByteAt(v.geo.blockSize, v.disk, v.inodes[ino], i) == buf[i]
    ensures n > 0 ==> v.inodes[ino].block[0] != 0
  {
    hide BitmapsOk, CountsOk, UsedIn, LiveIn, Owns, OthersKept, ByteAt, Covers, Lag, OutOfRoom, Reach, SlotAt, Ptr,
      Written;
    var bs := v.geo.blockSize;
    ReachFits(bs);
    n := Write(v, ino, Reach(bs), buf);
    forall i | 0 <= i < n
      ensures ByteAt(bs, v.disk, v.inodes[ino], i) == buf[i] && Ptr(v.disk, v.inodes[ino], SlotAt(bs, i)) != 0
    {
      CoversFromStart(bs, n, i);
      WrittenAt(bs, old(v.disk), old(v.inodes[ino]), v.disk, v.inodes[ino], Reach(bs), buf, n, i);
    }
    FirstSlot(bs, v.disk, v.inodes[ino]);
  }

  lemma WrittenAt(bs: nat, disk0: seq<Block>, f0: Inode, disk: seq<Block>, f: Inode, off: nat, buf: seq<Byte>, n: nat,
                  pos: nat)
    requires bs >= 4 && |f0.block| == |f.block| == 15 && n <= |buf| && DiskOk(bs, disk0) && DiskOk(bs, disk)
    requires Written(bs, disk0, f0, disk, f, off, buf, n) && Covers(bs, off, n, pos)
    ensures ByteAt(bs, disk, f, pos) == buf[Lag(bs, off, pos)] && Ptr(disk, f, SlotAt(bs, pos)) != 0
  {}

  lemma ReachFits(bs: nat)
    requires bs in {1024, 2048, 4096}
    ensures Reach(bs) < U64
  {}

  lemma CoversFromStart(bs: nat, n: nat, i: nat)
    requires bs > 0 && i < n < U32
    ensures Covers(bs, Reach(bs), n, i) && Lag(bs, Reach(bs), i) == i
  {
    CoversAll(bs, Reach(bs), n, i);
    DivModUnique(Reach(bs), 1, i);
  }

  lemma FirstSlot(bs: nat, disk: seq<Block>, f: Inode)
    requires bs >= 4 && |f.block| == 15
    ensures Ptr(disk, f, SlotAt(bs, 0)) == f.block[0]
  {}

  // ---- Whole runs ----------------------------------------------------------------------

  datatype FileOp = WriteOp(ino: nat, off: nat, buf: seq<Byte>) | TruncateOp(ino: nat)

  /** Any sequence of writes (full, short or failed) and truncations keeps the volume sound,
      and never touches a block outside the files. */
  method RunFileOps(v: Volume, ops: seq<FileOp>)
    requires v.Sound()
    requires forall i :: 0 <= i < |ops| ==> ops[i].ino in v.Files()
    requires forall i :: 0 <= i < |ops| && ops[i].WriteOp? ==> ops[i].off < U64 && |ops[i].buf| < U32
    modifies v
    ensures v.Sound() && v.Files().Keys == old(v.Files()).Keys
    ensures forall b :: b in old(v.Reserved()) && b < |v.disk| ==> b in v.Reserved() && v.disk[b] == old(v.disk)[b]
  {
    hide BitmapsOk, CountsOk, UsedIn, LiveIn, Owns, Released, OthersKept, Written;
    for i := 0 to |ops|
      invariant v.Sound() && v.Files().Keys == old(v.Files()).Keys && |v.disk| == |old(v.disk)|
      invariant forall b :: b in old(v.Reserved()) && b < |v.disk| ==> b in v.Reserved() && v.disk[b] == old(v.disk)[b]
    {
      match ops[i]
      case WriteOp(ino, off, buf) =>
        var n := Write(v, ino, off, buf);
      case TruncateOp(ino) =>
        var ok := Truncate(v, ino);
    }
  }
}
