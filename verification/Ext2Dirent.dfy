/** Packed variable-length directory records inside one block (kernel/fs/ext2.c). */
module Ext2Dirent {
  import opened Machine
  import opened Bytes

  /** One record: inode (0 = deleted), record length, name. */
  datatype Entry = Entry(ino: nat, recLen: nat, name: Name)

  /** Header plus the name rounded up to four bytes. */
  function RecordSize(nameLen: nat): nat { 8 + (nameLen + 3) / 4 * 4 }

  /** The least multiple of four that has room for header and name. */
  lemma RecordSizeLeast(nameLen: nat, m: nat)
    ensures RecordSize(nameLen) % 4 == 0 && RecordSize(nameLen) >= 8 + nameLen
    ensures m % 4 == 0 && m >= 8 + nameLen ==> m >= RecordSize(nameLen)
  {}

  predicate DirentValid(blk: Block, p: nat)
    ensures DirentValid(blk, p) ==> p + 8 <= |blk| && 8 <= Get16(blk, p + 4) <= |blk| - p
  {
    && p + 8 <= |blk|
    && Get16(blk, p + 4) >= RecordSize(blk[p + 6])
    && p + Get16(blk, p + 4) <= |blk|
  }

  function EntryAt(blk: Block, p: nat): Entry
    requires DirentValid(blk, p)
  {
    Entry(Get32(blk, p), Get16(blk, p + 4), blk[p + 8..p + 8 + blk[p + 6] as int])
  }

  /** The records that a walk from `p` visits: it ends at the first invalid one, whatever the bytes. */
  function Entries(blk: Block, p: nat): seq<Entry>
    decreases |blk| - p
  {
    if DirentValid(blk, p) then [EntryAt(blk, p)] + Entries(blk, p + Get16(blk, p + 4)) else []
  }

  /** Names and inodes of the live records, in order. */
  function Live(es: seq<Entry>): seq<(Name, nat)> {
    if es == [] then []
    else (if es[0].ino != 0 then [(es[0].name, es[0].ino)] else []) + Live(es[1..])
  }

  function Names(blk: Block): seq<(Name, nat)> { Live(Entries(blk, 0)) }

  /** Inode of the first pair with this name, or 0. */
  function Get(l: seq<(Name, nat)>, name: Name): nat {
    if l == [] then 0 else if l[0].0 == name then l[0].1 else Get(l[1..], name)
  }

  lemma {:induction false} LiveConcat(a: seq<Entry>, b: seq<Entry>)
    ensures Live(a + b) == Live(a) + Live(b)
  {
    if a == [] {
      assert a + b == b;
    } else {
      assert (a + b)[1..] == a[1..] + b;
      LiveConcat(a[1..], b);
    }
  }

  lemma {:induction false} GetConcat(a: seq<(Name, nat)>, b: seq<(Name, nat)>, name: Name)
    requires forall i :: 0 <= i < |a| ==> a[i].1 != 0
    ensures Get(a + b, name) == if Get(a, name) != 0 then Get(a, name) else Get(b, name)
  {
    if a == [] {
      assert a + b == b;
    } else {
      assert (a + b)[1..] == a[1..] + b;
      GetConcat(a[1..], b, name);
    }
  }

  lemma {:induction false} LiveNonzero(es: seq<Entry>)
    ensures forall i :: 0 <= i < |Live(es)| ==> Live(es)[i].1 != 0
  {
    if es != [] { LiveNonzero(es[1..]); }
  }

  // ---- A walk up to a position, and what it depends on ------------------------------

  ghost predicate WalkTo(blk: Block, q: nat, p: nat)
    decreases |blk| - q
  {
    q == p || (DirentValid(blk, q) && q + Get16(blk, q + 4) <= p && WalkTo(blk, q + Get16(blk, q + 4), p))
  }

  ghost function Before(blk: Block, q: nat, p: nat): seq<Entry>
    requires WalkTo(blk, q, p)
    decreases |blk| - q
  {
    if q == p then [] else [EntryAt(blk, q)] + Before(blk, q + Get16(blk, q + 4), p)
  }

  lemma {:induction false} WalkStep(blk: Block, q: nat, p: nat)
    requires WalkTo(blk, q, p) && DirentValid(blk, p)
    ensures WalkTo(blk, q, p + Get16(blk, p + 4))
    decreases |blk| - q
  {
    if q != p { WalkStep(blk, q + Get16(blk, q + 4), p); }
  }

  lemma {:induction false} SplitWalk(blk: Block, q: nat, p: nat)
    requires WalkTo(blk, q, p)
    ensures Entries(blk, q) == Before(blk, q, p) + Entries(blk, p)
    decreases |blk| - q
  {
    hide EntryAt;
    if q != p {
      var n := q + Get16(blk, q + 4);
      SplitWalk(blk, n, p);
      var e := [EntryAt(blk, q)];
      assert e + (Before(blk, n, p) + Entries(blk, p)) == e + Before(blk, n, p) + Entries(blk, p);
    }
  }

  /** Blocks that agree before `p` have the same records before `p`. */
  lemma {:induction false} SamePrefix(blk: Block, blk': Block, q: nat, p: nat)
    requires WalkTo(blk, q, p) && q <= p <= |blk| == |blk'|
    requires forall i :: q <= i < p ==> blk'[i] == blk[i]
    ensures WalkTo(blk', q, p) && Before(blk', q, p) == Before(blk, q, p)
    decreases |blk| - q
  {
    hide EntryAt;
    if q != p {
      SameRecord(blk, blk', q);
      SamePrefix(blk, blk', q + Get16(blk, q + 4), p);
    }
  }

  lemma SameRecord(blk: Block, blk': Block, q: nat)
    requires DirentValid(blk, q) && |blk| == |blk'|
    requires forall i :: q <= i < q + Get16(blk, q + 4) ==> blk'[i] == blk[i]
    ensures DirentValid(blk', q) && EntryAt(blk', q) == EntryAt(blk, q) && Get16(blk', q + 4) == Get16(blk, q + 4)
  {}

  lemma {:induction false} SameSuffix(blk: Block, blk': Block, p: nat)
    requires p <= |blk| == |blk'| && forall i :: p <= i < |blk| ==> blk'[i] == blk[i]
    ensures Entries(blk', p) == Entries(blk, p)
    decreases |blk| - p
  {
    hide EntryAt, RecordSize, Entries;
    if DirentValid(blk, p) {
      SameRecord(blk, blk', p);
      FirstEntry(blk, p);
      FirstEntry(blk', p);
      SameSuffix(blk, blk', p + Get16(blk, p + 4));
    } else {
      NoEntries(blk, p);
      NoEntries(blk', p);
    }
  }

  lemma NoEntries(blk: Block, p: nat)
    requires !DirentValid(blk, p)
    ensures Entries(blk, p) == []
  {}

  // ---- Tiling ---------------------------------------------------------------------------

  /** The records cover the block: each starts where the one before ends, and the last ends the block. */
  ghost predicate Tiled(blk: Block) { WalkTo(blk, 0, |blk|) }

  lemma {:induction false} WalkJoin(blk: Block, q: nat, p: nat, e: nat)
    requires WalkTo(blk, q, p) && WalkTo(blk, p, e) && p <= e
    ensures WalkTo(blk, q, e)
    decreases |blk| - q
  {
    if q != p { WalkJoin(blk, q + Get16(blk, q + 4), p, e); }
  }

  lemma {:induction false} WalkRest(blk: Block, q: nat, p: nat)
    requires WalkTo(blk, q, p) && WalkTo(blk, q, |blk|)
    ensures WalkTo(blk, p, |blk|)
    decreases |blk| - q
  {
    if q != p { WalkRest(blk, q + Get16(blk, q + 4), p); }
  }

  /** Records that take the exact place of the record at `p` keep the tiling. */
  lemma ReplaceTiled(blk: Block, blk': Block, p: nat)
    requires Tiled(blk) && WalkTo(blk, 0, p) && DirentValid(blk, p) && |blk| == |blk'|
    requires var n := p + Get16(blk, p + 4);
      && (forall i :: 0 <= i < p || n <= i < |blk| ==> blk'[i] == blk[i])
      && WalkTo(blk', p, n)
    ensures Tiled(blk')
  {
    var n := p + Get16(blk, p + 4);
    WalkStep(blk, 0, p);
    WalkRest(blk, 0, n);
    hide WalkTo, DirentValid, Get16;
    SamePrefix(blk, blk', 0, p);
    SamePrefix(blk, blk', n, |blk|);
    WalkJoin(blk', 0, p, n);
    WalkJoin(blk', 0, n, |blk|);
  }

  /** A record that fills the space from `p` to `n` leads there. */
  lemma WalkOne(blk: Block, p: nat, n: nat)
    requires DirentValid(blk, p) && n == p + Get16(blk, p + 4)
    ensures WalkTo(blk, p, n)
  {
    hide DirentValid, Get16;
    assert WalkTo(blk, n, n);
  }

  // ---- dir_find_in_block ---------------------------------------------------------------

  /** One record of a search. */
  lemma SearchStep(blk: Block, p: nat, name: Name)
    requires DirentValid(blk, p)
    ensures var e := EntryAt(blk, p);
      && p < p + e.recLen <= |blk|
      && Get(Live(Entries(blk, p)), name) ==
         if e.ino != 0 && e.name == name then e.ino else Get(Live(Entries(blk, p + e.recLen)), name)
  {
    hide Entries, EntryAt, DirentValid, Live, Get, Get16;
    FirstEntry(blk, p);
    var e := EntryAt(blk, p);
    var rest := Entries(blk, p + e.recLen);
    LiveConcat([e], rest);
    LiveOne(e);
    if e.ino != 0 {
      GetFirst((e.name, e.ino), Live(rest), name);
    } else {
      assert [] + Live(rest) == Live(rest);
    }
  }

  lemma GetFirst(x: (Name, nat), l: seq<(Name, nat)>, name: Name)
    ensures Get([x] + l, name) == if x.0 == name then x.1 else Get(l, name)
  {}

  /** The walk ends at an invalid record. */
  lemma SearchEnd(blk: Block, p: nat, name: Name)
    requires !DirentValid(blk, p)
    ensures Get(Live(Entries(blk, p)), name) == 0
  {}

  lemma PastEnd(blk: Block, p: nat)
    requires p >= |blk|
    ensures !DirentValid(blk, p)
  {}

  /** The walk of dir_find_in_block finds the first live record with this name. */
  method FindInBlock(blk: Block, name: Name) returns (ino: nat)
    ensures ino == Get(Names(blk), name)
  {
    hide Entries, Live, Get, EntryAt, DirentValid;
    var p := 0;
    while p < |blk|
      invariant p <= |blk| && Get(Names(blk), name) == Get(Live(Entries(blk, p)), name)
    {
      if !DirentValid(blk, p) { break; }
      SearchStep(blk, p, name);
      var e := EntryAt(blk, p);
      if e.ino != 0 && e.name == name {
        return e.ino;
      }
      p := p + e.recLen;
    }
    if p >= |blk| { PastEnd(blk, p); }
    SearchEnd(blk, p, name);
    ino := 0;
  }

  // ---- Changing one record ---------------------------------------------------------------

  /** `l'` is `l` with `x` put in somewhere. */
  ghost predicate Inserted(l: seq<(Name, nat)>, l': seq<(Name, nat)>, x: (Name, nat)) {
    exists i :: 0 <= i <= |l| && InsertedAt(l, l', x, i)
  }

  ghost predicate InsertedAt(l: seq<(Name, nat)>, l': seq<(Name, nat)>, x: (Name, nat), i: nat)
    requires i <= |l|
  {
    l' == l[..i] + [x] + l[i..]
  }

  lemma InsertedBetween(a: seq<(Name, nat)>, b: seq<(Name, nat)>, x: (Name, nat))
    ensures Inserted(a + b, a + [x] + b, x)
  {
    assert (a + b)[..|a|] == a && (a + b)[|a|..] == b;
    assert InsertedAt(a + b, a + [x] + b, x, |a|);
  }

  /** Rewriting the bytes of the record at `p` to hold the records `mid` leaves all others alone. */
  lemma ReplaceRecord(blk: Block, blk': Block, p: nat, mid: seq<Entry>)
    requires WalkTo(blk, 0, p) && DirentValid(blk, p) && |blk| == |blk'|
    requires var n := p + Get16(blk, p + 4);
      && (forall i :: 0 <= i < p || n <= i < |blk| ==> blk'[i] == blk[i])
      && Entries(blk', p) == mid + Entries(blk', n)
    ensures var a, b := Live(Before(blk, 0, p)), Live(Entries(blk, p + Get16(blk, p + 4)));
      && Names(blk) == a + Live([EntryAt(blk, p)]) + b
      && Names(blk') == a + Live(mid) + b
  {
    hide EntryAt, Live, Get16, Entries, Before, WalkTo, DirentValid;
    FirstEntry(blk, p);
    var n := p + Get16(blk, p + 4);
    SamePrefix(blk, blk', 0, p);
    SplitWalk(blk, 0, p);
    SplitWalk(blk', 0, p);
    SameSuffix(blk, blk', n);
    LiveThree(Before(blk, 0, p), [EntryAt(blk, p)], Entries(blk, n));
    LiveThree(Before(blk, 0, p), mid, Entries(blk, n));
  }

  lemma FirstEntry(blk: Block, p: nat)
    requires DirentValid(blk, p)
    ensures p + Get16(blk, p + 4) <= |blk| && Entries(blk, p) == [EntryAt(blk, p)] + Entries(blk, p + Get16(blk, p + 4))
    ensures EntryAt(blk, p).recLen == Get16(blk, p + 4)
  {}

  lemma LiveThree(a: seq<Entry>, m: seq<Entry>, b: seq<Entry>)
    ensures Live(a + (m + b)) == Live(a) + Live(m) + Live(b)
  {
    LiveConcat(a, m + b);
    LiveConcat(m, b);
  }

  /** A record's bytes, as the driver stores them: inode, record length, name length, type, name. */
  ghost predicate RecordAt(blk: Block, p: nat, e: Entry) {
    && p + 8 <= |blk| && RecordSize(|e.name|) <= e.recLen <= |blk| - p
    && Get32(blk, p) == e.ino && Get16(blk, p + 4) == e.recLen
    && |e.name| == blk[p + 6] as int && blk[p + 8..p + 8 + |e.name|] == e.name
  }

  lemma RecordRead(blk: Block, p: nat, e: Entry)
    requires RecordAt(blk, p, e)
    ensures DirentValid(blk, p) && EntryAt(blk, p) == e && Get16(blk, p + 4) == e.recLen
    ensures Entries(blk, p) == [e] + Entries(blk, p + e.recLen)
  {}

  // ---- dir_remove_entry, within a block ----------------------------------------------------

  /** Soft delete: the inode number of the first live record with this name becomes 0. */
  method RemoveInBlock(blk: Block, name: Name) returns (ok: bool, blk': Block)
    ensures |blk'| == |blk|
    ensures ok <==> Get(Names(blk), name) != 0
    ensures ok ==> Inserted(Names(blk'), Names(blk), (name, Get(Names(blk), name)))
    ensures ok ==> HasRoom(blk', 0, RecordSize(|name|))
    ensures Tiled(blk) ==> Tiled(blk')
    ensures !ok ==> blk' == blk
  {
    hide Entries, Live, Get, HasRoom, Inserted, Tiled;
    blk', ok := blk, false;
    var p := 0;
    while p < |blk|
      invariant p <= |blk| && WalkTo(blk, 0, p)
      invariant Get(Names(blk), name) == Get(Live(Entries(blk, p)), name)
    {
      if !DirentValid(blk, p) { break; }
      SearchStep(blk, p, name);
      var e := EntryAt(blk, p);
      if e.ino != 0 && e.name == name {
        blk' := Patch(blk, p, Put32(0));
        ok := true;
        Deleted(blk, p);
        return;
      }
      WalkStep(blk, 0, p);
      p := p + e.recLen;
    }
    SearchEnd(blk, p, name);
  }

  lemma Deleted(blk: Block, p: nat)
    requires WalkTo(blk, 0, p) && DirentValid(blk, p) && EntryAt(blk, p).ino != 0
    ensures var e := EntryAt(blk, p);
      && Inserted(Names(Patch(blk, p, Put32(0))), Names(blk), (e.name, e.ino))
      && HasRoom(Patch(blk, p, Put32(0)), 0, RecordSize(|e.name|))
      && (Tiled(blk) ==> Tiled(Patch(blk, p, Put32(0))))
  {
    hide Get32, Get16, Put32, EntryAt, Entries, Inserted, HasRoom, Live, Before, WalkTo, DirentValid, RecordAt, Tiled;
    var e, blk' := EntryAt(blk, p), Patch(blk, p, Put32(0));
    var dead := Entry(0, e.recLen, e.name);
    DeletedBytes(blk, p);
    RecordRead(blk', p, dead);
    SamePrefix(blk, blk', 0, p);
    RoomAt(blk', 0, p, RecordSize(|e.name|));
    WalkOne(blk', p, p + e.recLen);
    if Tiled(blk) { ReplaceTiled(blk, blk', p); }
    ReplaceRecord(blk, blk', p, [dead]);
    var a, b := Live(Before(blk, 0, p)), Live(Entries(blk, p + Get16(blk, p + 4)));
    LiveOne(dead);
    LiveOne(e);
    InsertedBetween(a, b, (e.name, e.ino));
    assert a + [] + b == a + b;
  }

  lemma LiveOne(e: Entry)
    ensures Live([e]) == if e.ino != 0 then [(e.name, e.ino)] else []
  {}

  lemma {:induction false} RoomAt(blk: Block, q: nat, p: nat, needed: nat)
    requires WalkTo(blk, q, p) && DirentValid(blk, p) && Fits(blk, p, needed)
    ensures HasRoom(blk, q, needed)
    decreases |blk| - q
  {
    hide Fits;
    if q != p { RoomAt(blk, q + Get16(blk, q + 4), p, needed); }
  }

  lemma DeletedBytes(blk: Block, p: nat)
    requires DirentValid(blk, p)
    ensures RecordAt(Patch(blk, p, Put32(0)), p, EntryAt(blk, p).(ino := 0))
    ensures EntryAt(blk, p).recLen == Get16(blk, p + 4)
  {}

  // ---- dir_add_entry, within a block ---------------------------------------------------------

  /** Where dir_add_entry can put a record of `needed` bytes: a deleted record long enough, or the
      slack of a live record that ends the block. */
  predicate Fits(blk: Block, p: nat, needed: nat)
    requires DirentValid(blk, p)
  {
    var e := EntryAt(blk, p);
    if e.ino == 0 then e.recLen >= needed
    else p + e.recLen == |blk| && e.recLen - RecordSize(|e.name|) >= needed
  }

  ghost predicate HasRoom(blk: Block, p: nat, needed: nat)
    decreases |blk| - p
  {
    DirentValid(blk, p) && (Fits(blk, p, needed) || HasRoom(blk, p + Get16(blk, p + 4), needed))
  }

  /** The bytes of a whole new record. */
  function Record(e: Entry, ftype: Byte): (d: seq<Byte>)
    requires e.ino < U32 && e.recLen < U16 && |e.name| < 256
    ensures |d| == 8 + |e.name|
  {
    Put32(e.ino) + Put16(e.recLen) + [|e.name|, ftype] + e.name
  }

  function Reuse(blk: Block, p: nat, ino: nat, name: Name, ftype: Byte): (r: Block)
    requires p + 8 + |name| <= |blk| && ino < U32 && |name| < 256
    ensures |r| == |blk|
  {
    Patch(Patch(blk, p, Put32(ino)), p + 6, [|name|, ftype] + name)
  }

  /** Shrinks the record at `p` to `actual` bytes and appends a record in the rest. */
  function Append(blk: Block, p: nat, actual: nat, e: Entry, ftype: Byte): (r: Block)
    requires p + 6 <= |blk| && actual < U16 && e.ino < U32 && e.recLen < U16 && |e.name| < 256
    requires p + actual + 8 + |e.name| <= |blk|
    ensures |r| == |blk|
  {
    Patch(Patch(blk, p + 4, Put16(actual)), p + actual, Record(e, ftype))
  }

  lemma RecordWritten(blk: Block, p: nat, e: Entry, ftype: Byte)
    requires e.ino < U32 && e.recLen < U16 && |e.name| < 256
    requires p + 8 + |e.name| <= |blk| && RecordSize(|e.name|) <= e.recLen <= |blk| - p
    ensures RecordAt(Patch(blk, p, Record(e, ftype)), p, e)
  {}

  lemma ReusedBytes(blk: Block, p: nat, ino: nat, name: Name, ftype: Byte)
    requires DirentValid(blk, p) && ino < U32 && |name| < 256 && Get16(blk, p + 4) >= RecordSize(|name|)
    ensures p + 8 + |name| <= |blk|
    ensures RecordAt(Reuse(blk, p, ino, name, ftype), p, Entry(ino, Get16(blk, p + 4), name))
  {}

  lemma AppendedBytes(blk: Block, p: nat, ino: nat, name: Name, ftype: Byte)
    requires DirentValid(blk, p) && ino < U32 && |name| < 256
    requires var e := EntryAt(blk, p); p + e.recLen == |blk| && e.recLen - RecordSize(|e.name|) >= RecordSize(|name|)
    ensures var e := EntryAt(blk, p);
      var actual := RecordSize(|e.name|);
      var ne := Entry(ino, e.recLen - actual, name);
      && p + actual + 8 + |name| <= |blk|
      && var r := Append(blk, p, actual, ne, ftype);
      && RecordAt(r, p, Entry(e.ino, actual, e.name))
      && RecordAt(r, p + actual, ne)
      && (forall i :: 0 <= i < p ==> r[i] == blk[i])
  {}

  lemma Reused(blk: Block, p: nat, ino: nat, name: Name, ftype: Byte)
    requires WalkTo(blk, 0, p) && DirentValid(blk, p) && EntryAt(blk, p).ino == 0
    requires 0 < ino < U32 && |name| < 256 && Get16(blk, p + 4) >= RecordSize(|name|)
    ensures p + 8 + |name| <= |blk|
    ensures Inserted(Names(blk), Names(Reuse(blk, p, ino, name, ftype)), (name, ino))
    ensures Tiled(blk) ==> Tiled(Reuse(blk, p, ino, name, ftype))
  {
    hide Get32, Get16, Put32, EntryAt, Entries, Inserted, Live, Before, WalkTo, DirentValid, RecordAt, Tiled;
    ReusedBytes(blk, p, ino, name, ftype);
    var blk', e := Reuse(blk, p, ino, name, ftype), Entry(ino, Get16(blk, p + 4), name);
    RecordRead(blk', p, e);
    WalkOne(blk', p, p + e.recLen);
    if Tiled(blk) { ReplaceTiled(blk, blk', p); }
    ReplaceRecord(blk, blk', p, [e]);
    var a, b := Live(Before(blk, 0, p)), Live(Entries(blk, p + Get16(blk, p + 4)));
    LiveOne(EntryAt(blk, p));
    LiveOne(e);
    InsertedBetween(a, b, (name, ino));
    assert a + [] + b == a + b;
  }

  lemma Appended(blk: Block, p: nat, ino: nat, name: Name, ftype: Byte)
    requires WalkTo(blk, 0, p) && DirentValid(blk, p) && EntryAt(blk, p).ino != 0
    requires 0 < ino < U32 && |name| < 256
    requires var e := EntryAt(blk, p); p + e.recLen == |blk| && e.recLen - RecordSize(|e.name|) >= RecordSize(|name|)
    ensures var e := EntryAt(blk, p);
      var actual := RecordSize(|e.name|);
      && p + actual + 8 + |name| <= |blk|
      && var r := Append(blk, p, actual, Entry(ino, e.recLen - actual, name), ftype);
      && Inserted(Names(blk), Names(r), (name, ino)) && (Tiled(blk) ==> Tiled(r))
  {
    hide Get32, Put32, Inserted, Append, Live, Before, WalkTo, Entries, RecordAt, Tiled;
    AppendedBytes(blk, p, ino, name, ftype);
    var e := EntryAt(blk, p);
    var actual := RecordSize(|e.name|);
    var ne, e' := Entry(ino, e.recLen - actual, name), Entry(e.ino, actual, e.name);
    var blk' := Append(blk, p, actual, ne, ftype);
    RecordRead(blk', p, e');
    RecordRead(blk', p + actual, ne);
    assert [e'] + ([ne] + Entries(blk', |blk|)) == [e', ne] + Entries(blk', |blk|);
    WalkOne(blk', p, p + actual);
    WalkStep(blk', p, p + actual);
    if Tiled(blk) { ReplaceTiled(blk, blk', p); }
    ReplaceRecord(blk, blk', p, [e', ne]);
    hide DirentValid, EntryAt;
    var a, b := Live(Before(blk, 0, p)), Live(Entries(blk, |blk|));
    LiveConcat([e'], [ne]);
    assert [e'] + [ne] == [e', ne];
    LiveOne(e);
    LiveOne(e');
    LiveOne(ne);
    InsertedBetween(a + Live([e]), b, (name, ino));
    assert a + (Live([e]) + [(name, ino)]) + b == a + Live([e]) + [(name, ino)] + b;
  }

  /** dir_add_entry within one block: succeeds exactly when some place fits, and then the new name is
      in the list and every other record reads as before. */
  method AddInBlock(blk: Block, name: Name, ino: nat, ftype: Byte) returns (ok: bool, blk': Block)
    requires 0 < ino < U32 && |name| < 256
    ensures |blk'| == |blk|
    ensures ok <==> HasRoom(blk, 0, RecordSize(|name|))
    ensures ok ==> Inserted(Names(blk), Names(blk'), (name, ino))
    ensures Tiled(blk) ==> Tiled(blk')
    ensures !ok ==> blk' == blk
  {
    hide Get32, Names, Inserted, Reuse, Append, Tiled;
    var needed := RecordSize(|name|);
    blk', ok := blk, false;
    var p := 0;
    while p < |blk|
      invariant p <= |blk| && WalkTo(blk, 0, p)
      invariant HasRoom(blk, 0, needed) <==> HasRoom(blk, p, needed)
    {
      if !DirentValid(blk, p) { break; }
      var e := EntryAt(blk, p);
      if e.ino == 0 && e.recLen >= needed {
        Reused(blk, p, ino, name, ftype);
        blk', ok := Reuse(blk, p, ino, name, ftype), true;
        return;
      }
      var actual := RecordSize(|e.name|);
      if p + e.recLen >= |blk| && e.ino != 0 && e.recLen - actual >= needed {
        Appended(blk, p, ino, name, ftype);
        blk', ok := Append(blk, p, actual, Entry(ino, e.recLen - actual, name), ftype), true;
        return;
      }
      WalkStep(blk, 0, p);
      p := p + e.recLen;
    }
  }

  /** A fresh directory block holding one record. */
  function FreshBlock(bs: nat, ino: nat, name: Name, ftype: Byte): (blk: Block)
    requires RecordSize(|name|) <= bs < U16 && 0 < ino < U32 && |name| < 256
    ensures |blk| == bs
  {
    Patch(Zeros(bs), 0, Record(Entry(ino, bs, name), ftype))
  }

  lemma FreshNames(bs: nat, ino: nat, name: Name, ftype: Byte)
    requires RecordSize(|name|) <= bs < U16 && 0 < ino < U32 && |name| < 256
    ensures Names(FreshBlock(bs, ino, name, ftype)) == [(name, ino)] && Tiled(FreshBlock(bs, ino, name, ftype))
  {
    var e := Entry(ino, bs, name);
    RecordWritten(Zeros(bs), 0, e, ftype);
    RecordRead(FreshBlock(bs, ino, name, ftype), 0, e);
    WalkOne(FreshBlock(bs, ino, name, ftype), 0, bs);
    assert Live([e]) == [(name, ino)];
  }

  /** It takes a second record exactly if the two together are no longer than the block. */
  lemma FreshRoom(bs: nat, ino: nat, name: Name, ftype: Byte, needed: nat)
    requires RecordSize(|name|) <= bs < U16 && 0 < ino < U32 && |name| < 256
    ensures HasRoom(FreshBlock(bs, ino, name, ftype), 0, needed) <==> RecordSize(|name|) + needed <= bs
  {
    var e := Entry(ino, bs, name);
    RecordWritten(Zeros(bs), 0, e, ftype);
    var blk := FreshBlock(bs, ino, name, ftype);
    RecordRead(blk, 0, e);
    hide FreshBlock, Get32, EntryAt;
    assert DirentValid(blk, 0) && EntryAt(blk, 0) == e && Get16(blk, 4) == bs;
    assert !DirentValid(blk, bs);
  }

  /** The fields of a record in the order of the on-disk format: inode, rec_len, name_len, file_type; the name
      follows. A record so laid out is read so. */
  lemma RecordDecodes(blk: Block, p: nat, e: Entry, ftype: nat)
    requires e.ino < U32 && e.recLen < U16 && |e.name| < 256
    requires RecordSize(|e.name|) <= e.recLen && p + e.recLen <= |blk|
    requires blk[p..p + 8] == Packed([(4, e.ino), (2, e.recLen), (1, |e.name|), (1, ftype)])
    requires blk[p + 8..p + 8 + |e.name|] == e.name
    ensures DirentValid(blk, p) && EntryAt(blk, p) == e
  {
    var f := [(4, e.ino), (2, e.recLen), (1, |e.name|), (1, ftype)];
    assert OffsetOf(f, 1) == 4;
    assert OffsetOf(f, 2) == 6;
    PackedField(f, 2);
    assert Little(1, |e.name|) == [|e.name|];
    assert blk[p..p + 8][6..7] == [|e.name|];
    assert blk[p + 6] == blk[p..p + 8][6] == blk[p..p + 8][6..7][0];
    FitsWidth(e.ino);
    FitsWidth(e.recLen);
    hide Get16, Get32, Packed, OffsetOf, Bytes.Fits, RecordSize;
    ReadField(blk, p, f, 0);
    ReadField(blk, p, f, 1);
    RecordSizeLeast(|e.name|, 0);
  }
}
