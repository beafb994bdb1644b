/** Bytes, little-endian integers inside byte buffers, sequence patching, and bitmaps. */
module Bytes {
  import opened Machine

  type Byte = x: int | 0 <= x < 256

  type Block = seq<Byte>   // a disk block
  type Name = seq<Byte>    // one component of a path

  function Zeros(n: nat): (z: seq<Byte>)
    ensures |z| == n && forall i :: 0 <= i < n ==> z[i] == 0
  {
    seq(n, _ => 0)
  }

  /** Overwrites `s` from position `at` on with `d`: the effect of memcpy(s + at, d, |d|). */
  function Patch(s: seq<Byte>, at: nat, d: seq<Byte>): (r: seq<Byte>)
    requires at + |d| <= |s|
    ensures |r| == |s|
    ensures forall i :: 0 <= i < |s| ==> r[i] == if at <= i < at + |d| then d[i - at] else s[i]
  {
    s[..at] + d + s[at + |d|..]
  }

  function Get16(s: seq<Byte>, p: nat): (v: int)
    requires p + 2 <= |s|
    ensures 0 <= v < U16
  {
    s[p] as int + 256 * s[p + 1] as int
  }

  function Get32(s: seq<Byte>, p: nat): (v: int)
    requires p + 4 <= |s|
    ensures 0 <= v < U32
  {
    s[p] as int + 256 * (s[p + 1] as int + 256 * (s[p + 2] as int + 256 * s[p + 3] as int))
  }

  function Get64(s: seq<Byte>, p: nat): (v: int)
    requires p + 8 <= |s|
    ensures 0 <= v < U64
  {
    Get32(s, p) + U32 * Get32(s, p + 4)
  }

  function Put16(v: int): (d: seq<Byte>)
    requires 0 <= v < U16
    ensures |d| == 2 && Get16(d, 0) == v
  {
    [v % 256, v / 256]
  }

  function Put32(v: int): (d: seq<Byte>)
    requires 0 <= v < U32
    ensures |d| == 4 && Get32(d, 0) == v
  {
    var v1 := v / 256;
    var v2 := v1 / 256;
    [v % 256, v1 % 256, v2 % 256, v2 / 256]
  }

  // ---- Little-endian, at any width ------------------------------------------------------------------------

  /** The number that the bytes stand for: the first counts ones, and each next one 256 times as much. */
  function Value(d: seq<Byte>): nat { if d == [] then 0 else d[0] as int + 256 * Value(d[1..]) }

  /** The low `w` bytes of `v`, lowest first. */
  function Little(w: nat, v: nat): (d: seq<Byte>)
    ensures |d| == w
  {
    if w == 0 then [] else [v % 256] + Little(w - 1, v / 256)
  }

  /** `v` has no more than `w` bytes. */
  predicate Fits(w: nat, v: nat) { if w == 0 then v == 0 else Fits(w - 1, v / 256) }

  lemma {:induction false} LittleValue(w: nat, v: nat)
    requires Fits(w, v)
    ensures Value(Little(w, v)) == v
  {
    if w > 0 {
      LittleValue(w - 1, v / 256);
      assert Little(w, v)[1..] == Little(w - 1, v / 256);
    }
  }

  /** The accessors read the bytes of their width so. */
  lemma GetIsValue(s: seq<Byte>, p: nat)
    ensures p + 2 <= |s| ==> Get16(s, p) == Value(s[p..p + 2])
    ensures p + 4 <= |s| ==> Get32(s, p) == Value(s[p..p + 4])
    ensures p + 8 <= |s| ==> Get64(s, p) == Value(s[p..p + 8])
  {
    if p + 2 <= |s| { ValueFirst(s, p, p + 2); }
    if p + 4 <= |s| { ValueFirst(s, p, p + 4); }
    if p + 8 <= |s| { ValueFirst(s, p, p + 8); }
  }

  /** The first bytes of a range of `s`, taken off one by one. */
  lemma {:induction false} ValueFirst(s: seq<Byte>, p: nat, q: nat)
    requires p <= q <= |s|
    ensures Value(s[p..q]) == if p == q then 0 else s[p] as int + 256 * Value(s[p + 1..q])
    ensures forall i :: p <= i < q ==> Value(s[i..q]) == s[i] as int + 256 * Value(s[i + 1..q])
    ensures Value(s[q..q]) == 0
    decreases q - p
  {
    if p < q {
      assert s[p..q][1..] == s[p + 1..q];
      ValueFirst(s, p + 1, q);
    }
  }

  /** A byte alone in front has its own value. */
  lemma LowByteFirst(b: Byte)
    ensures Get16([b, 0], 0) == Get32([b, 0, 0, 0], 0) == Get64([b, 0, 0, 0, 0, 0, 0, 0], 0) == b
  {}

  // ---- Records of fields ------------------------------------------------------------------------------------

  /** Fields, each with its width in bytes and its value, one after the other without gaps. */
  function Packed(fields: seq<(nat, nat)>): seq<Byte> {
    if fields == [] then [] else Little(fields[0].0, fields[0].1) + Packed(fields[1..])
  }

  /** Where field `i` starts. */
  function OffsetOf(fields: seq<(nat, nat)>, i: nat): nat
    requires i <= |fields|
  {
    if i == 0 then 0 else OffsetOf(fields, i - 1) + fields[i - 1].0
  }

  lemma {:induction false} OffsetTail(fields: seq<(nat, nat)>, i: nat)
    requires 0 < i <= |fields|
    ensures OffsetOf(fields, i) == fields[0].0 + OffsetOf(fields[1..], i - 1)
  {
    if i > 1 { OffsetTail(fields, i - 1); }
  }

  lemma {:induction false} PackedField(fields: seq<(nat, nat)>, i: nat)
    requires i < |fields|
    ensures OffsetOf(fields, i) + fields[i].0 <= |Packed(fields)|
    ensures Packed(fields)[OffsetOf(fields, i)..OffsetOf(fields, i) + fields[i].0] == Little(fields[i].0, fields[i].1)
  {
    if i > 0 {
      OffsetTail(fields, i);
      PackedField(fields[1..], i - 1);
      var rest, o, w := Packed(fields[1..]), OffsetOf(fields[1..], i - 1), fields[0].0;
      assert Packed(fields) == Little(w, fields[0].1) + rest;
      assert Packed(fields)[w + o..w + o + fields[i].0] == rest[o..o + fields[i].0];
    }
  }

  lemma {:induction false} PackedSize(fields: seq<(nat, nat)>)
    ensures |Packed(fields)| == OffsetOf(fields, |fields|)
  {
    if fields != [] {
      PackedSize(fields[1..]);
      OffsetTail(fields, |fields|);
    }
  }

  lemma FitsTwo(w: nat, v: nat)
    requires w >= 2
    ensures Fits(w, v) <==> Fits(w - 2, v / U16)
  {
    assert Fits(w, v) == Fits(w - 1, v / 256) == Fits(w - 2, v / 256 / 256);
  }

  lemma FitsWidth(v: nat)
    ensures v < U16 ==> Fits(2, v)
    ensures v < U32 ==> Fits(4, v)
    ensures v < U64 ==> Fits(8, v)
  {
    assert Fits(0, 0);
    hide Fits;
    var a := v / U16;
    var b := a / U16;
    var c := b / U16;
    FitsTwo(2, v);
    FitsTwo(4, v);
    FitsTwo(2, a);
    FitsTwo(8, v);
    FitsTwo(6, a);
    FitsTwo(4, b);
    FitsTwo(2, c);
  }

  lemma SliceOfSlice(s: seq<Byte>, p: nat, n: nat, o: nat, w: nat)
    requires p + n <= |s| && o + w <= n
    ensures s[p..p + n][o..o + w] == s[p + o..p + o + w]
  {
    var a, b := s[p..p + n][o..o + w], s[p + o..p + o + w];
    forall i | 0 <= i < w ensures a[i] == b[i] { assert a[i] == s[p..p + n][o + i] == s[p + (o + i)]; }
  }

  /** What an accessor reads from a field of a record at position `p`. */
  lemma ReadField(s: seq<Byte>, p: nat, fields: seq<(nat, nat)>, i: nat)
    requires p + |Packed(fields)| <= |s| && s[p..p + |Packed(fields)|] == Packed(fields)
    requires i < |fields| && Fits(fields[i].0, fields[i].1)
    ensures p + OffsetOf(fields, i) + fields[i].0 <= |s|
    ensures fields[i].0 == 2 ==> Get16(s, p + OffsetOf(fields, i)) == fields[i].1
    ensures fields[i].0 == 4 ==> Get32(s, p + OffsetOf(fields, i)) == fields[i].1
    ensures fields[i].0 == 8 ==> Get64(s, p + OffsetOf(fields, i)) == fields[i].1
  {
    hide Get16, Get32, Get64, Value, Little, Fits, Packed, OffsetOf;
    PackedField(fields, i);
    var o, w := OffsetOf(fields, i), fields[i].0;
    SliceOfSlice(s, p, |Packed(fields)|, o, w);
    LittleValue(w, fields[i].1);
    GetIsValue(s, p + o);
  }

  lemma MulMonotone(a: nat, b: nat, n: nat)
    requires a <= b
    ensures a * n <= b * n
  {}

  lemma DivModUnique(n: nat, q: nat, r: nat)
    requires r < n
    ensures (q * n + r) / n == q && (q * n + r) % n == r
  {
    var x := q * n + r;
    var q' := x / n;
    assert q' * n <= x < q' * n + n;
    if q < q' { MulMonotone(q + 1, q', n); }
    if q' < q { MulMonotone(q' + 1, q, n); }
  }

  /** Index of the first clear bit among the first `n`, or `n` when there is none. */
  method FirstClear(bm: seq<bool>, n: nat) returns (i: nat)
    requires n <= |bm|
    ensures i <= n && (i < n ==> !bm[i])
    ensures forall j :: 0 <= j < i ==> bm[j]
  {
    i := 0;
    while i < n && bm[i]
      invariant i <= n
      invariant forall j :: 0 <= j < i ==> bm[j]
    {
      i := i + 1;
    }
  }
}
