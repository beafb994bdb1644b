/** The block map of an inode: direct, single- and double-indirect pointers stored in the very
    blocks the volume allocates, and who owns which block (kernel/fs/ext2.c). */
module Ext2Map {
  import opened Machine
  import opened Bytes

  /** The inode fields the driver acts on. `block`: 12 direct, indirect, double, triple. */
  datatype Inode = Inode(mode: nat, links: nat, size: nat, block: seq<nat>)

  /** The places of one inode that can hold a block number. */
  datatype Slot =
    | Direct(i: nat)            // i_block[i], i < 12
    | Ind                       // i_block[12]
    | IndData(i: nat)           // entry i of the indirect block
    | Dbl                       // i_block[13]
    | DblInd(i: nat)            // entry i of the double-indirect block
    | DblData(i: nat, j: nat)   // entry j of the indirect block under entry i
  {
    predicate IsData() { Direct? || IndData? || DblData? }
  }

  type Owner = (nat, Slot)

  // ---- Pointers -----------------------------------------------------------------

  /** Entry `i` of pointer block `b`; 0 through a null pointer. */
  function Follow(disk: seq<Block>, b: nat, i: nat): nat {
    if b == 0 || b >= |disk| || |disk[b]| < 4 * i + 4 then 0 else Get32(disk[b], 4 * i)
  }

  function Ptr(disk: seq<Block>, f: Inode, s: Slot): nat
    requires |f.block| == 15
  {
    match s
    case Direct(i) => if i < 12 then f.block[i] else 0
    case Ind => f.block[12]
    case IndData(i) => Follow(disk, f.block[12], i)
    case Dbl => f.block[13]
    case DblInd(i) => Follow(disk, f.block[13], i)
    case DblData(i, j) => Follow(disk, Follow(disk, f.block[13], i), j)
  }

  /** The slot for logical block `idx`, with `n` pointers to a block. Past the double-indirect
      range the slot is one that never holds a block. */
  function DataSlot(n: nat, idx: nat): (s: Slot)
    requires n > 0
    ensures s.IsData()
  {
    if idx < 12 then Direct(idx)
    else if idx < 12 + n then IndData(idx - 12)
    else if idx < MaxIndex(n) then DblData(Row(n, idx), Column(n, idx))
    else Direct(idx)
  }

  /** One past the last logical block that the driver can map. */
  function MaxIndex(n: nat): nat { 12 + n + n * n }

  function Row(n: nat, idx: nat): nat
    requires 0 < n && 12 + n <= idx
  {
    (idx - 12 - n) / n
  }

  function Column(n: nat, idx: nat): nat
    requires 0 < n && 12 + n <= idx
  {
    (idx - 12 - n) % n
  }

  lemma SlotCases(n: nat, idx: nat)
    requires n > 0
    ensures idx < 12 ==> DataSlot(n, idx) == Direct(idx)
    ensures 12 <= idx < 12 + n ==> DataSlot(n, idx) == IndData(idx - 12)
    ensures 12 + n <= idx < MaxIndex(n) ==>
      DataSlot(n, idx) == DblData(Row(n, idx), Column(n, idx)) && Row(n, idx) < n && Column(n, idx) < n
    ensures MaxIndex(n) <= idx ==> DataSlot(n, idx) == Direct(idx)
    ensures MaxIndex(n) >= 12 + n
  {
    MulMonotone(0, n, n);
    if 12 + n <= idx < MaxIndex(n) { QuotientBelow(n, idx - 12 - n); }
  }

  lemma QuotientBelow(n: nat, x: nat)
    requires n > 0 && x < n * n
    ensures x / n < n
  {
    if x / n >= n { MulMonotone(n, x / n, n); }
  }

  /** The double-indirect range is numbered row by row: one row after the other, each through one block. */
  lemma RowByRow(n: nat, row: nat, column: nat)
    requires row < n && column < n
    ensures DataSlot(n, 12 + n + row * n + column) == DblData(row, column)
  {
    DivModUnique(n, row, column);
    BelowMax(n, row, column);
    SlotCases(n, 12 + n + row * n + column);
  }

  lemma BelowMax(n: nat, row: nat, column: nat)
    requires row < n && column < n
    ensures 12 + n + row * n + column < MaxIndex(n)
  {
    MulMonotone(row + 1, n, n);
  }

  lemma DataSlotInjective(n: nat, x: nat, y: nat)
    requires n > 0 && DataSlot(n, x) == DataSlot(n, y)
    ensures x == y
  {}

  /** A data slot's contents: the block, or zeros where nothing is mapped. */
  function Content(bs: nat, disk: seq<Block>, f: Inode, s: Slot): Block
    requires |f.block| == 15
  {
    var b := Ptr(disk, f, s);
    if b == 0 || b >= |disk| then Zeros(bs) else disk[b]
  }

  /** The byte view of a file: an unmapped block reads as 0. */
  function ByteAt(bs: nat, disk: seq<Block>, f: Inode, pos: nat): Byte
    requires bs >= 4 && |f.block| == 15
    requires forall b :: 0 <= b < |disk| ==> |disk[b]| == bs
  {
    Content(bs, disk, f, SlotAt(bs, pos))[OffsetIn(bs, pos)]
  }

  /** Logical block of a byte position, and the offset within it. */
  function IndexOf(bs: nat, pos: nat): nat
    requires bs > 0
  {
    pos / bs
  }

  function OffsetIn(bs: nat, pos: nat): (o: nat)
    requires bs > 0
    ensures o < bs
  {
    pos % bs
  }

  function SlotAt(bs: nat, pos: nat): (s: Slot)
    requires bs >= 4
    ensures s.IsData()
  {
    DataSlot(bs / 4, IndexOf(bs, pos))
  }

  /** The `m` bytes from `x` on, if they stay in x's block, are offsets of that block. */
  lemma ChunkPlace(bs: nat, x: nat, m: nat, pos: nat)
    requires bs >= 4 && OffsetIn(bs, x) + m <= bs
    ensures x <= pos < x + m <==>
      SlotAt(bs, pos) == SlotAt(bs, x) && OffsetIn(bs, x) <= OffsetIn(bs, pos) < OffsetIn(bs, x) + m
    ensures SlotAt(bs, pos) == SlotAt(bs, x) ==> OffsetIn(bs, pos) - OffsetIn(bs, x) == pos - x
  {
    var idx := IndexOf(bs, x);
    assert x == idx * bs + OffsetIn(bs, x) && pos == IndexOf(bs, pos) * bs + OffsetIn(bs, pos);
    if SlotAt(bs, pos) == SlotAt(bs, x) {
      DataSlotInjective(bs / 4, IndexOf(bs, pos), idx);
    } else if x <= pos < x + m {
      DivModUnique(bs, idx, pos - idx * bs);
    }
  }

  // ---- Ownership ------------------------------------------------------------------

  ghost predicate DiskOk(bs: nat, disk: seq<Block>) {
    forall b :: 0 <= b < |disk| ==> |disk[b]| == bs
  }

  ghost predicate FilesOk(files: map<nat, Inode>) {
    forall k :: k in files ==> |files[k].block| == 15
  }

  /** Every block that a slot of a file holds is on the volume, marked used, and recorded in
      `own` as held by that slot of that file: so no block is in two slots. */
  ghost predicate Owns(disk: seq<Block>, used: set<nat>, files: map<nat, Inode>, own: map<nat, Owner>)
    requires FilesOk(files)
  {
    forall k, s :: k in files && Ptr(disk, files[k], s) != 0 ==>
      Owned(Ptr(disk, files[k], s), |disk|, used, own, (k, s))
  }

  ghost predicate Owned(b: nat, size: nat, used: set<nat>, own: map<nat, Owner>, o: Owner) {
    b < size && b in used && b in own && own[b] == o
  }

  /** Ownership in plain words: a block sits in exactly one slot of one inode. */
  lemma OneSlotPerBlock(disk: seq<Block>, used: set<nat>, files: map<nat, Inode>, own: map<nat, Owner>,
                        k: nat, s: Slot, k': nat, s': Slot)
    requires FilesOk(files) && Owns(disk, used, files, own) && k in files && k' in files
    requires Ptr(disk, files[k], s) == Ptr(disk, files[k'], s') != 0
    ensures k == k' && s == s' && Ptr(disk, files[k], s) in used
  {}

  /** Same files, pointers only added, and every data slot reads as before. */
  ghost predicate Grown(bs: nat, disk: seq<Block>, files: map<nat, Inode>, disk': seq<Block>, files': map<nat, Inode>)
    requires FilesOk(files) && FilesOk(files')
  {
    && files'.Keys == files.Keys
    && (forall k, s :: k in files && Ptr(disk, files[k], s) != 0 ==>
          Ptr(disk', files'[k], s) == Ptr(disk, files[k], s))
    && (forall k, s: Slot :: k in files && s.IsData() ==>
          Content(bs, disk', files'[k], s) == Content(bs, disk, files[k], s))
  }

  lemma GrownTransitive(bs: nat, d0: seq<Block>, f0: map<nat, Inode>, d1: seq<Block>, f1: map<nat, Inode>,
                        d2: seq<Block>, f2: map<nat, Inode>)
    requires FilesOk(f0) && FilesOk(f1) && FilesOk(f2)
    requires Grown(bs, d0, f0, d1, f1) && Grown(bs, d1, f1, d2, f2)
    ensures Grown(bs, d0, f0, d2, f2)
  {}

  /** Pointers depend only on the inode and on its pointer blocks. */
  lemma PtrFrame(disk: seq<Block>, disk': seq<Block>, f: Inode)
    requires |disk| == |disk'| && |f.block| == 15
    requires forall s: Slot :: !s.IsData() && 0 < Ptr(disk, f, s) < |disk| ==>
      disk'[Ptr(disk, f, s)] == disk[Ptr(disk, f, s)]
    ensures forall s :: Ptr(disk', f, s) == Ptr(disk, f, s)
  {
    assert Ptr(disk, f, Ind) == f.block[12];
    assert Ptr(disk, f, Dbl) == f.block[13];
    forall s ensures Ptr(disk', f, s) == Ptr(disk, f, s) {
      if s.DblData? {
        assert Ptr(disk, f, DblInd(s.i)) == Follow(disk, f.block[13], s.i);
      }
    }
  }

  /** Attaching a fresh zero block `n` at slot `at` of file `k`, given how the pointers moved. */
  lemma Attach(bs: nat, disk: seq<Block>, used: set<nat>, files: map<nat, Inode>, own: map<nat, Owner>,
               disk': seq<Block>, f': Inode, k: nat, at: Slot, n: nat)
    requires DiskOk(bs, disk) && DiskOk(bs, disk') && |disk'| == |disk|
    requires FilesOk(files) && Owns(disk, used, files, own) && k in files && |f'.block| == 15
    requires n !in used && 0 < n < |disk| && disk'[n] == Zeros(bs)
    requires Ptr(disk, files[k], at) == 0
    requires forall s :: Ptr(disk', f', s) == if s == at then n else Ptr(disk, files[k], s)
    requires forall b :: 0 <= b < |disk| && b != n && disk'[b] != disk[b] ==>
      b in own && own[b].0 == k && !own[b].1.IsData()
    ensures Owns(disk', used + {n}, files[k := f'], own[n := (k, at)])
    ensures Grown(bs, disk, files, disk', files[k := f'])
  {
    forall j | j in files && j != k
      ensures forall s :: Ptr(disk', files[j], s) == Ptr(disk, files[j], s)
    {
      forall s: Slot | !s.IsData() && 0 < Ptr(disk, files[j], s) < |disk|
        ensures disk'[Ptr(disk, files[j], s)] == disk[Ptr(disk, files[j], s)]
      {
        assert Owned(Ptr(disk, files[j], s), |disk|, used, own, (j, s));
      }
      PtrFrame(disk, disk', files[j]);
    }
    var files', own' := files[k := f'], own[n := (k, at)];
    forall j, s | j in files' && Ptr(disk', files'[j], s) != 0
      ensures Owned(Ptr(disk', files'[j], s), |disk'|, used + {n}, own', (j, s))
    {
      if j == k && s == at {
      } else {
        assert Ptr(disk', files'[j], s) == Ptr(disk, files[j], s);
        assert Owned(Ptr(disk, files[j], s), |disk|, used, own, (j, s));
      }
    }
    forall j, s: Slot | j in files && s.IsData()
      ensures Content(bs, disk', files'[j], s) == Content(bs, disk, files[j], s)
    {
      if j == k && s == at {
      } else if Ptr(disk, files[j], s) != 0 {
        assert Owned(Ptr(disk, files[j], s), |disk|, used, own, (j, s));
      }
    }
  }

  function RootSlot(r: nat): Slot
    requires r < 14
  {
    if r < 12 then Direct(r) else if r == 12 then Ind else Dbl
  }

  /** Slot of entry `e` in the pointer block held by `parent`. */
  function Child(parent: Slot, e: nat): Slot
    requires !parent.IsData()
  {
    match parent
    case Ind => IndData(e)
    case Dbl => DblInd(e)
    case DblInd(i) => DblData(i, e)
  }

  lemma ZeroEntries(bs: nat, i: nat)
    requires 4 * i + 4 <= bs
    ensures Get32(Zeros(bs), 4 * i) == 0
  {}

  lemma PatchedEntry(blk: Block, e: nat, n: nat, i: nat)
    requires 4 * e + 4 <= |blk| && 4 * i + 4 <= |blk| && n < U32
    ensures Get32(Patch(blk, 4 * e, Put32(n)), 4 * i) == if i == e then n else Get32(blk, 4 * i)
  {}

  /** A fresh block stored in i_block[r]. */
  lemma AttachRoot(bs: nat, disk: seq<Block>, used: set<nat>, files: map<nat, Inode>, own: map<nat, Owner>,
                   k: nat, r: nat, n: nat)
    requires DiskOk(bs, disk) && FilesOk(files) && Owns(disk, used, files, own) && k in files
    requires r < 14 && files[k].block[r] == 0
    requires n !in used && 0 < n < |disk|
    ensures var disk', f' := disk[n := Zeros(bs)], files[k].(block := files[k].block[r := n]);
      && Owns(disk', used + {n}, files[k := f'], own[n := (k, RootSlot(r))])
      && Grown(bs, disk, files, disk', files[k := f'])
      && Ptr(disk', f', RootSlot(r)) == n
  {
    var f := files[k];
    var disk', f' := disk[n := Zeros(bs)], f.(block := f.block[r := n]);
    forall s ensures Ptr(disk', f', s) == if s == RootSlot(r) then n else Ptr(disk, f, s) {
      if !s.Direct? && !s.Ind? && !s.Dbl? && Ptr(disk, f, Ind) != 0 {
        assert Owned(Ptr(disk, f, Ind), |disk|, used, own, (k, Ind));
      }
      if !s.Direct? && !s.Ind? && !s.Dbl? && Ptr(disk, f, Dbl) != 0 {
        assert Owned(Ptr(disk, f, Dbl), |disk|, used, own, (k, Dbl));
        if s.DblData? && Ptr(disk, f, DblInd(s.i)) != 0 {
          assert Owned(Ptr(disk, f, DblInd(s.i)), |disk|, used, own, (k, DblInd(s.i)));
        }
      }
      forall i: nat | 4 * i + 4 <= bs ensures Get32(Zeros(bs), 4 * i) == 0 { ZeroEntries(bs, i); }
    }
    Attach(bs, disk, used, files, own, disk', f', k, RootSlot(r), n);
  }

  /** A fresh block stored in entry `e` of the pointer block that slot `parent` holds. */
  lemma AttachEntry(bs: nat, disk: seq<Block>, used: set<nat>, files: map<nat, Inode>, own: map<nat, Owner>,
                    k: nat, parent: Slot, e: nat, n: nat)
    requires DiskOk(bs, disk) && FilesOk(files) && Owns(disk, used, files, own) && k in files
    requires !parent.IsData() && 4 * e + 4 <= bs
    requires Ptr(disk, files[k], parent) != 0 && Ptr(disk, files[k], Child(parent, e)) == 0
    requires n !in used && 0 < n < |disk| && n < U32
    ensures var p := Ptr(disk, files[k], parent);
      && p < |disk| && p != n
      && var disk' := disk[n := Zeros(bs)][p := Patch(disk[p], 4 * e, Put32(n))];
      && Owns(disk', used + {n}, files, own[n := (k, Child(parent, e))])
      && Grown(bs, disk, files, disk', files)
      && Ptr(disk', files[k], Child(parent, e)) == n
  {
    var f, p, at := files[k], Ptr(disk, files[k], parent), Child(parent, e);
    assert Owned(p, |disk|, used, own, (k, parent));
    var disk' := disk[n := Zeros(bs)][p := Patch(disk[p], 4 * e, Put32(n))];
    forall s ensures Ptr(disk', f, s) == if s == at then n else Ptr(disk, f, s) {
      if Ptr(disk, f, Ind) != 0 { assert Owned(Ptr(disk, f, Ind), |disk|, used, own, (k, Ind)); }
      if Ptr(disk, f, Dbl) != 0 { assert Owned(Ptr(disk, f, Dbl), |disk|, used, own, (k, Dbl)); }
      if s.DblData? && Ptr(disk, f, DblInd(s.i)) != 0 {
        assert Owned(Ptr(disk, f, DblInd(s.i)), |disk|, used, own, (k, DblInd(s.i)));
      }
      forall i: nat | 4 * i + 4 <= bs
        ensures Get32(Zeros(bs), 4 * i) == 0
        ensures Get32(disk'[p], 4 * i) == if i == e then n else Get32(disk[p], 4 * i)
      {
        ZeroEntries(bs, i);
        PatchedEntry(disk[p], e, n, i);
      }
    }
    assert files[k := f] == files;
    Attach(bs, disk, used, files, own, disk', f, k, at, n);
  }

  /** Overwriting a data block changes the contents of its own slot and nothing else. */
  lemma WriteData(bs: nat, disk: seq<Block>, used: set<nat>, files: map<nat, Inode>, own: map<nat, Owner>,
                  k: nat, at: Slot, blk: Block)
    requires DiskOk(bs, disk) && FilesOk(files) && Owns(disk, used, files, own) && k in files
    requires at.IsData() && Ptr(disk, files[k], at) != 0 && |blk| == bs
    ensures var b := Ptr(disk, files[k], at);
      && b < |disk|
      && var disk' := disk[b := blk];
      && Owns(disk', used, files, own)
      && (forall j, s :: j in files ==> Ptr(disk', files[j], s) == Ptr(disk, files[j], s))
      && (forall j, s: Slot :: j in files && s.IsData() ==>
            Content(bs, disk', files[j], s) == if j == k && s == at then blk else Content(bs, disk, files[j], s))
  {
    var b := Ptr(disk, files[k], at);
    assert Owned(b, |disk|, used, own, (k, at));
    var disk' := disk[b := blk];
    forall j | j in files ensures forall s :: Ptr(disk', files[j], s) == Ptr(disk, files[j], s) {
      forall s: Slot | !s.IsData() && 0 < Ptr(disk, files[j], s) < |disk|
        ensures disk'[Ptr(disk, files[j], s)] == disk[Ptr(disk, files[j], s)]
      {
        assert Owned(Ptr(disk, files[j], s), |disk|, used, own, (j, s));
      }
      PtrFrame(disk, disk', files[j]);
    }
    forall j, s: Slot | j in files && s.IsData()
      ensures Content(bs, disk', files[j], s) == if j == k && s == at then blk else Content(bs, disk, files[j], s)
    {
      if Ptr(disk, files[j], s) != 0 {
        assert Owned(Ptr(disk, files[j], s), |disk|, used, own, (j, s));
      }
    }
  }
}
