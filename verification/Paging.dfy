/** Four-level page tables as values: entries, the walk, and the shape of a forest of address spaces that
    share their kernel half (kernel/mem/vmm.c; section 4.5 of the Intel SDM, Volume 3A). */
module Paging {
  import opened Machine
  import opened Bytes
  import opened Pmm

  type Frame = nat

  // ---- Entries ---------------------------------------------------------------------------------------

  predicate Present(e: nat) { e % 2 == 1 }

  predicate Large(e: nat) { e / 128 % 2 == 1 }

  predicate Writable(e: nat) { e / 2 % 2 == 1 }

  predicate UserAccess(e: nat) { e / 4 % 2 == 1 }

  /** Bits 12 to 51 of an entry or a physical address. */
  function FrameOf(e: nat): nat { e / 4096 % 0x100_0000_0000 }

  /** Flag bits lie outside the address bits: bits 0 to 11 and 52 to 63. */
  predicate FlagsOk(flags: nat)
    ensures flags < 4096 ==> FlagsOk(flags)
  {
    FrameOf(flags) == 0
  }

  /** (phys & PAGE_MASK) | flags | PAGE_PRESENT, for flags outside the address bits. */
  function MakeEntry(phys: nat, flags: nat): nat {
    FrameOf(phys) * 4096 + if flags % 2 == 0 then flags + 1 else flags
  }

  /** The bits of an entry: 0 present, 1 writable, 2 user access, 7 large, 12 to 51 the frame number. */
  lemma EntryLayout(present: bool, write: bool, user: bool, large: bool, mid: nat, high: nat, frame: nat, top: nat)
    requires mid < 16 && high < 16 && frame < 0x100_0000_0000
    ensures var e := Bit(present, 1) + Bit(write, 2) + Bit(user, 4) + mid * 8 + Bit(large, 128) + high * 256
                   + frame * 4096 + top * 0x10_0000_0000_0000;
      && (Present(e) <==> present) && (Writable(e) <==> write) && (UserAccess(e) <==> user) && (Large(e) <==> large)
      && FrameOf(e) == frame
  {
    var low := Bit(present, 1) + Bit(write, 2) + Bit(user, 4) + mid * 8 + Bit(large, 128) + high * 256;
    var e := low + frame * 4096 + top * 0x10_0000_0000_0000;
    assert e == (top * 0x100_0000_0000 + frame) * 4096 + low;
    DivModUnique(4096, top * 0x100_0000_0000 + frame, low);
    DivModUnique(0x100_0000_0000, top, frame);
    LowBits(present, write, user, large, mid, high);
    BitInPage(e, 1, 2048);
    BitInPage(e, 2, 1024);
    BitInPage(e, 4, 512);
    BitInPage(e, 128, 16);
  }

  function Bit(on: bool, n: nat): nat { if on then n else 0 }

  lemma LowBits(present: bool, write: bool, user: bool, large: bool, mid: nat, high: nat)
    requires mid < 16 && high < 16
    ensures var low := Bit(present, 1) + Bit(write, 2) + Bit(user, 4) + mid * 8 + Bit(large, 128) + high * 256;
      && low < 4096 && (low % 2 == 1 <==> present) && (low / 2 % 2 == 1 <==> write)
      && (low / 4 % 2 == 1 <==> user) && (low / 128 % 2 == 1 <==> large)
  {
    var x7 := Bit(large, 1) + 2 * high;
    var x2 := Bit(user, 1) + 2 * (mid + 16 * x7);
    var x1 := Bit(write, 1) + 2 * x2;
    DivModUnique(2, x1, Bit(present, 1));
    DivModUnique(4, x2, Bit(present, 1) + Bit(write, 2));
    DivModUnique(128, x7, Bit(present, 1) + Bit(write, 2) + Bit(user, 4) + mid * 8);
    EvenPlus(x2, Bit(write, 1));
    EvenPlus(mid + 16 * x7, Bit(user, 1));
    EvenPlus(high, Bit(large, 1));
  }

  /** An entry has the frame of the address and the flags it was made with. */
  lemma EntryFields(phys: nat, flags: nat)
    requires FlagsOk(flags)
    ensures var e := MakeEntry(phys, flags);
      Present(e) && FrameOf(e) == FrameOf(phys) && (Large(e) <==> flags / 128 % 2 == 1)
  {
    EntryLow(phys, flags);
    BitInPage(MakeEntry(phys, flags), 1, 2048);
    EntryBit(phys, flags, 128, 16);
  }

  lemma EntryFlags(phys: nat, flags: nat)
    requires FlagsOk(flags)
    ensures var e := MakeEntry(phys, flags);
      (Writable(e) <==> flags / 2 % 2 == 1) && (UserAccess(e) <==> flags / 4 % 2 == 1)
  {
    EntryBit(phys, flags, 2, 1024);
    EntryBit(phys, flags, 4, 512);
  }

  /** The address bits come from the address, the low bits from the flags. */
  lemma EntryLow(phys: nat, flags: nat)
    requires FlagsOk(flags)
    ensures var e := MakeEntry(phys, flags);
      FrameOf(e) == FrameOf(phys) && e % 4096 == flags % 4096 + (1 - flags % 2) && e % 4096 % 2 == 1
  {
    var f, low, top := FrameOf(phys), flags % 4096 + (1 - flags % 2), flags / 4096 / 0x100_0000_0000;
    BitInPage(flags, 1, 2048);
    assert flags / 4096 == top * 0x100_0000_0000;
    assert MakeEntry(phys, flags) == (top * 0x100_0000_0000 + f) * 4096 + low;
    DivModUnique(4096, top * 0x100_0000_0000 + f, low);
    DivModUnique(0x100_0000_0000, top, f);
  }

  /** Bits 1 to 11 of an entry are those of the flags. */
  lemma EntryBit(phys: nat, flags: nat, b: nat, c: nat)
    requires FlagsOk(flags) && (b == 2 || b == 4 || b == 128) && b * c * 2 == 4096
    ensures MakeEntry(phys, flags) / b % 2 == flags / b % 2
  {
    var e := MakeEntry(phys, flags);
    EntryLow(phys, flags);
    BitInPage(e, b, c);
    BitInPage(flags, b, c);
    BitInPage(flags, 1, 2048);
    if flags % 2 == 0 { OddNext(flags % 4096); }
  }

  /** Setting bit 0 leaves the higher bits. */
  lemma OddNext(x: nat)
    requires x % 2 == 0
    ensures (x + 1) / 2 == x / 2 && (x + 1) / 4 == x / 4 && (x + 1) / 128 == x / 128
  {}

  /** A bit of a page offset, read from the whole number. */
  lemma BitInPage(x: nat, b: nat, c: nat)
    requires b > 0 && b * c * 2 == 4096
    ensures x / b % 2 == x % 4096 / b % 2
  {
    var a, low := x / 4096, x % 4096;
    assert x == (2 * (a * c) + low / b) * b + low % b;
    DivModUnique(b, 2 * (a * c) + low / b, low % b);
    EvenPlus(a * c, low / b);
  }

  lemma EvenPlus(x: nat, y: nat)
    ensures (2 * x + y) % 2 == y % 2
  {}

  // ---- Memory ------------------------------------------------------------------------------------------

  /** What a page frame holds: a table of 512 entries, or bytes. */
  datatype Contents = Table(entries: seq<nat>) | Data(bytes: seq<Byte>)

  type Ram = map<Frame, Contents>

  predicate IsTable(ram: Ram, f: Frame) { f in ram && ram[f].Table? && |ram[f].entries| == 512 }

  function Get(ram: Ram, f: Frame, i: nat): nat {
    if f in ram && ram[f].Table? && i < |ram[f].entries| then ram[f].entries[i] else 0
  }

  function Put(ram: Ram, f: Frame, i: nat, e: nat): Ram
    requires IsTable(ram, f) && i < 512
  {
    ram[f := Table(ram[f].entries[i := e])]
  }

  function EmptyTable(): Contents { Table(seq(512, _ => 0)) }

  // ---- Addresses -----------------------------------------------------------------------------------------

  /** The bytes that one entry spans, by level: 1 is the page table, 4 the PML4. */
  function Span(level: nat): (n: nat)
    ensures n > 0
  {
    if level <= 1 then 0x1000 else if level == 2 then 0x20_0000 else if level == 3 then 0x4000_0000 else 0x80_0000_0000
  }

  /** The indices into the PML4, PDPT, PD and PT. */
  function PathOf(v: nat): (p: seq<nat>)
    ensures |p| == 4 && forall d :: 0 <= d < 4 ==> p[d] < 512
  {
    [v / Span(4) % 512, v / Span(3) % 512, v / Span(2) % 512, v / Span(1) % 512]
  }

  /** The 4 KiB page of the 48-bit space. */
  function Page(v: nat): nat { v / 4096 % 0x10_0000_0000 }

  lemma PathIsPage(v: nat, w: nat)
    ensures PathOf(v) == PathOf(w) <==> Page(v) == Page(w)
  {
    PathDigits(v);
    PathDigits(w);
    hide PathOf, Page;
    if PathOf(v) == PathOf(w) {
      assert Page(v) == Page(w);
    }
    if Page(v) == Page(w) {
      DigitsUnique(PathOf(v), PathOf(w));
    }
  }

  function Number(p: seq<nat>): nat
    requires |p| == 4
  {
    ((p[0] * 512 + p[1]) * 512 + p[2]) * 512 + p[3]
  }

  lemma PathDigits(v: nat)
    ensures Page(v) == Number(PathOf(v))
  {
    var a := v / 0x1000;
    DivDiv(v, 0x1000);
    DivDiv(v, 0x20_0000);
    DivDiv(v, 0x4000_0000);
    Digits(a, a / 512, a / 512 / 512, a / 512 / 512 / 512, a / 512 / 512 / 512 / 512);
  }

  lemma DivDiv(v: nat, n: nat)
    requires n > 0
    ensures v / (n * 512) == v / n / 512
  {
    var q, r := v / n / 512, v / n % 512;
    assert v == (q * 512 + r) * n + v % n;
    assert v == q * (n * 512) + (r * n + v % n);
    MulMonotone(r, 511, n);
    DivModUnique(n * 512, q, r * n + v % n);
  }

  lemma Digits(a: nat, b: nat, c: nat, d: nat, e: nat)
    requires b == a / 512 && c == b / 512 && d == c / 512 && e == d / 512
    ensures a % 0x10_0000_0000 == ((d % 512 * 512 + c % 512) * 512 + b % 512) * 512 + a % 512
  {}

  lemma DigitsUnique(p: seq<nat>, q: seq<nat>)
    requires |p| == |q| == 4 && (forall d :: 0 <= d < 4 ==> p[d] < 512 && q[d] < 512) && Number(p) == Number(q)
    ensures p == q
  {
    var a, b := p[0] * 512 + p[1], q[0] * 512 + q[1];
    TopDigits(a * 512 + p[2], p[3], b * 512 + q[2], q[3]);
    TopDigits(a, p[2], b, q[2]);
    TopDigits(p[0], p[1], q[0], q[1]);
  }

  lemma TopDigits(a: nat, d: nat, b: nat, e: nat)
    requires d < 512 && e < 512 && a * 512 + d == b * 512 + e
    ensures a == b && d == e
  {}

  // ---- The walk ------------------------------------------------------------------------------------------

  datatype Hit = Hit(entry: nat, level: nat)

  /** The entry that maps the page named by `path`, from the table in frame `f` at depth `d`. */
  function Lookup(ram: Ram, f: Frame, path: seq<nat>, d: nat): Option<Hit>
    requires |path| == 4 && d < 4
    decreases 4 - d
  {
    var e := Get(ram, f, path[d]);
    if !Present(e) then None
    else if d == 3 || (d >= 1 && Large(e)) then Some(Hit(e, 4 - d))
    else Lookup(ram, FrameOf(e), path, d + 1)
  }

  function Walk(ram: Ram, root: Frame, v: nat): Option<Hit> { Lookup(ram, root, PathOf(v), 0) }

  function Translate(ram: Ram, root: Frame, v: nat): Option<nat> {
    match Walk(ram, root, v)
    case None => None
    case Some(h) => Some(FrameOf(h.entry) * 4096 + v % Span(h.level))
  }

  /** `v` and `w` lie in one region of the size that an entry at `level` maps: 4 KiB, 2 MiB or 1 GiB. */
  predicate SameRegion(level: nat, v: nat, w: nat) {
    || (level == 1 && v / 0x1000 == w / 0x1000)
    || (level == 2 && v / 0x20_0000 == w / 0x20_0000)
    || (level == 3 && v / 0x4000_0000 == w / 0x4000_0000)
  }

  /** `v` is the first address of such a region. */
  predicate RegionStart(level: nat, v: nat) {
    (level == 1 && v % 0x1000 == 0) || (level == 2 && v % 0x20_0000 == 0) || (level == 3 && v % 0x4000_0000 == 0)
  }

  /** The walk of an address finds a page of one of the three sizes. All addresses of its region are mapped with it,
      as far apart as they are themselves, and the first one to the frame that the entry names. */
  lemma RegionTranslates(ram: Ram, root: Frame, v: nat, w: nat)
    requires Walk(ram, root, v).Some?
    ensures var h := Walk(ram, root, v).value;
      && 1 <= h.level <= 3
      && (SameRegion(h.level, v, w) ==>
            && Walk(ram, root, w) == Some(h) && Translate(ram, root, v).Some? && Translate(ram, root, w).Some?
            && Translate(ram, root, w).value - Translate(ram, root, v).value == w - v)
      && (RegionStart(h.level, v) ==> Translate(ram, root, v) == Some(FrameOf(h.entry) * 4096))
  {
    var h := Walk(ram, root, v).value;
    LookupLevel(ram, root, PathOf(v), 0);
    RegionOffset(h.level, v, w);
    hide Lookup, FrameOf, PathOf, SameRegion, RegionStart, Span;
    if SameRegion(h.level, v, w) {
      RegionPath(h.level, v, w);
      LookupPrefix(ram, root, PathOf(v), PathOf(w), 0);
    }
  }

  lemma RegionOffset(level: nat, v: nat, w: nat)
    ensures SameRegion(level, v, w) ==> w % Span(level) - v % Span(level) == w - v
    ensures RegionStart(level, v) ==> v % Span(level) == 0
  {}

  /** Addresses of one region have the same indices down to its level. */
  lemma RegionPath(level: nat, v: nat, w: nat)
    requires 1 <= level <= 3 && SameRegion(level, v, w)
    ensures forall d :: 0 <= d <= 4 - level ==> PathOf(v)[d] == PathOf(w)[d]
  {
    DivDiv(v, 0x1000);
    DivDiv(v, 0x20_0000);
    DivDiv(v, 0x4000_0000);
    DivDiv(w, 0x1000);
    DivDiv(w, 0x20_0000);
    DivDiv(w, 0x4000_0000);
  }

  lemma {:induction false} LookupLevel(ram: Ram, f: Frame, path: seq<nat>, d: nat)
    requires |path| == 4 && d < 4 && Lookup(ram, f, path, d).Some?
    ensures 1 <= Lookup(ram, f, path, d).value.level <= if d == 0 then 3 else 4 - d
    decreases 4 - d
  {
    var e := Get(ram, f, path[d]);
    if d < 3 && !(d >= 1 && Large(e)) { LookupLevel(ram, FrameOf(e), path, d + 1); }
  }

  /** A walk that ends at some level does not look at the indices below. */
  lemma {:induction false} LookupPrefix(ram: Ram, f: Frame, p: seq<nat>, q: seq<nat>, d: nat)
    requires |p| == |q| == 4 && d < 4 && Lookup(ram, f, p, d).Some?
    requires forall j :: d <= j <= 4 - Lookup(ram, f, p, d).value.level && j < 4 ==> p[j] == q[j]
    ensures Lookup(ram, f, q, d) == Lookup(ram, f, p, d)
    decreases 4 - d
  {
    LookupLevel(ram, f, p, d);
    var e := Get(ram, f, p[d]);
    if d < 3 && !(d >= 1 && Large(e)) { LookupPrefix(ram, FrameOf(e), p, q, d + 1); }
  }

  // ---- The forest ----------------------------------------------------------------------------------------

  /** A table by the space whose it is and the indices that lead to it. */
  datatype Node = Node(root: Frame, path: seq<nat>)

  /** The table under slot `i`. The kernel half of every space leads into the kernel's tables. */
  function Child(k: Frame, n: Node, i: nat): Node {
    if n.path == [] && i >= 256 then Node(k, [i]) else Node(n.root, n.path + [i])
  }

  function Parent(n: Node): Node
    requires n.path != []
  {
    Node(n.root, n.path[..|n.path| - 1])
  }

  function LastOf(n: Node): nat
    requires n.path != []
  {
    n.path[|n.path| - 1]
  }

  ghost predicate Leads(ram: Ram, f: Frame, i: nat, g: Frame) {
    Present(Get(ram, f, i)) && !Large(Get(ram, f, i)) && FrameOf(Get(ram, f, i)) == g
  }

  /** A table: of a known space, in a frame of its own, and hanging from its parent. */
  ghost predicate NodeOk(ram: Ram, at: map<Node, Frame>, k: Frame, spaces: set<Frame>, n: Node)
    requires n in at
  {
    && |n.path| <= 3 && (forall d :: 0 <= d < |n.path| ==> n.path[d] < 512)
    && IsTable(ram, at[n]) && (n.root == k || n.root in spaces)
    && (n.path == [] ==> at[n] == n.root)
    && (n.path != [] && n.root != k ==> n.path[0] < 256)
    && (n.path != [] ==> Parent(n) in at && Leads(ram, at[Parent(n)], LastOf(n), at[n]))
  }

  /** A slot above the lowest level: absent, or leading to its table, or a large page of the kernel. */
  ghost predicate DownOk(ram: Ram, at: map<Node, Frame>, k: Frame, n: Node, i: nat)
    requires n in at
  {
    var e := Get(ram, at[n], i);
    Present(e) ==>
      if Large(e) then n.root == k && n.path != [] else Child(k, n, i) in at && at[Child(k, n, i)] == FrameOf(e)
  }

  ghost predicate Injective(at: map<Node, Frame>) { forall n, m :: n in at && m in at && at[n] == at[m] ==> n == m }

  ghost predicate Rooted(at: map<Node, Frame>, k: Frame, spaces: set<Frame>) {
    k !in spaces && forall r :: r in spaces || r == k ==> Node(r, []) in at
  }

  /** Kernel slots that a space has are the kernel's. */
  ghost predicate Shared(ram: Ram, k: Frame, spaces: set<Frame>) {
    forall r, i :: r in spaces && 256 <= i < 512 && Present(Get(ram, r, i)) ==> Get(ram, r, i) == Get(ram, k, i)
  }

  ghost predicate Nodes(ram: Ram, at: map<Node, Frame>, k: Frame, spaces: set<Frame>) {
    forall n :: n in at ==> NodeOk(ram, at, k, spaces, n)
  }

  ghost predicate Downs(ram: Ram, at: map<Node, Frame>, k: Frame) {
    forall n, i :: n in at && |n.path| < 3 && 0 <= i < 512 ==> DownOk(ram, at, k, n, i)
  }

  /** The kernel's tables and those of all spaces, every table in its own frame. */
  ghost predicate Forest(ram: Ram, at: map<Node, Frame>, k: Frame, spaces: set<Frame>) {
    Rooted(at, k, spaces) && Nodes(ram, at, k, spaces) && Injective(at) && Downs(ram, at, k) && Shared(ram, k, spaces)
  }

  /** The table that the walk of `path` from root `r` visits at depth `d`. */
  function WalkNode(k: Frame, r: Frame, path: seq<nat>, d: nat): Node
    requires d <= |path| && |path| > 0
  {
    if d == 0 then Node(r, []) else Node(if path[0] >= 256 then k else r, path[..d])
  }

  lemma WalkChild(k: Frame, r: Frame, path: seq<nat>, d: nat)
    requires d < |path|
    ensures Child(k, WalkNode(k, r, path, d), path[d]) == WalkNode(k, r, path, d + 1)
  {}

  // ---- What a write changes --------------------------------------------------------------------------------

  /** Memories that agree on every slot the walk visits give the same result. */
  lemma {:induction false} WalkSame(ram: Ram, ram': Ram, at: map<Node, Frame>, k: Frame, spaces: set<Frame>,
                                    r: Frame, path: seq<nat>, d: nat)
    requires Forest(ram, at, k, spaces) && |path| == 4 && (forall i :: 0 <= i < 4 ==> path[i] < 512) && d < 4
    requires WalkNode(k, r, path, d) in at
    requires forall j :: d <= j < 4 && WalkNode(k, r, path, j) in at ==>
      Get(ram', at[WalkNode(k, r, path, j)], path[j]) == Get(ram, at[WalkNode(k, r, path, j)], path[j])
    ensures Lookup(ram', at[WalkNode(k, r, path, d)], path, d) == Lookup(ram, at[WalkNode(k, r, path, d)], path, d)
    decreases 4 - d
  {
    var n := WalkNode(k, r, path, d);
    var e := Get(ram, at[n], path[d]);
    assert Get(ram', at[n], path[d]) == e;
    if Present(e) && d < 3 && !Large(e) {
      assert |n.path| < 3 && DownOk(ram, at, k, n, path[d]);
      WalkChild(k, r, path, d);
      hide Forest, DownOk, Get, Present, Large, FrameOf, WalkNode;
      WalkSame(ram, ram', at, k, spaces, r, path, d + 1);
    }
    assert d == 0 && Present(e) ==> !Large(e) by { if d == 0 { assert DownOk(ram, at, k, n, path[d]); } }
  }

  ghost predicate Unused(at: map<Node, Frame>, f: Frame) { forall n :: n in at ==> at[n] != f }

  ghost predicate IsPath(path: seq<nat>) { |path| == 4 && forall d :: 0 <= d < 4 ==> path[d] < 512 }

  ghost predicate IsRoot(k: Frame, spaces: set<Frame>, r: Frame) { r == k || r in spaces }

  /** Two memories give every walk from every root the same result. */
  ghost predicate SameWalks(ram: Ram, ram': Ram, k: Frame, spaces: set<Frame>) {
    forall r, path :: IsRoot(k, spaces, r) && IsPath(path) ==> Lookup(ram', r, path, 0) == Lookup(ram, r, path, 0)
  }

  /** The slots of all tables above the lowest level are as before. */
  ghost predicate UpperSame(ram: Ram, ram': Ram, at: map<Node, Frame>) {
    && (forall n :: n in at ==> IsTable(ram', at[n]))
    && (forall n, i: nat :: n in at && |n.path| < 3 ==> Get(ram', at[n], i) == Get(ram, at[n], i))
  }

  /** Then so is the shape of the forest. */
  lemma ForestSame(ram: Ram, ram': Ram, at: map<Node, Frame>, k: Frame, spaces: set<Frame>)
    requires Forest(ram, at, k, spaces) && UpperSame(ram, ram', at)
    ensures Forest(ram', at, k, spaces)
  {
    RootFrames(ram, at, k, spaces);
    hide Get, IsTable, Injective, NodeOk, DownOk;
    forall n | n in at ensures NodeOk(ram', at, k, spaces, n) { NodeSame(ram, ram', at, k, spaces, n); }
    forall n, i | n in at && |n.path| < 3 && 0 <= i < 512 ensures DownOk(ram', at, k, n, i) {
      DownSame(ram, ram', at, k, n, i);
    }
    assert forall r, i: nat :: r in spaces || r == k ==> Get(ram', at[Node(r, [])], i) == Get(ram, at[Node(r, [])], i);
  }

  lemma NodeSame(ram: Ram, ram': Ram, at: map<Node, Frame>, k: Frame, spaces: set<Frame>, n: Node)
    requires n in at && NodeOk(ram, at, k, spaces, n) && UpperSame(ram, ram', at)
    ensures NodeOk(ram', at, k, spaces, n)
  {
    hide Get, IsTable;
  }

  lemma DownSame(ram: Ram, ram': Ram, at: map<Node, Frame>, k: Frame, n: Node, i: nat)
    requires n in at && |n.path| < 3 && DownOk(ram, at, k, n, i) && UpperSame(ram, ram', at)
    ensures DownOk(ram', at, k, n, i)
  {
    hide Get, IsTable;
  }

  /** Writing a frame that holds no table. */
  lemma FrameWritten(ram: Ram, at: map<Node, Frame>, k: Frame, spaces: set<Frame>, f: Frame, c: Contents)
    requires Forest(ram, at, k, spaces) && Unused(at, f)
    ensures Forest(ram[f := c], at, k, spaces) && SameWalks(ram, ram[f := c], k, spaces)
  {
    var ram' := ram[f := c];
    OtherFrames(ram, at, k, spaces, f, c);
    hide Get, IsTable, Unused;
    ForestSame(ram, ram', at, k, spaces);
    RootFrames(ram, at, k, spaces);
    hide Forest;
    forall r, path | IsRoot(k, spaces, r) && IsPath(path) ensures Lookup(ram', r, path, 0) == Lookup(ram, r, path, 0) {
      WalkSame(ram, ram', at, k, spaces, r, path, 0);
    }
  }

  lemma OtherFrames(ram: Ram, at: map<Node, Frame>, k: Frame, spaces: set<Frame>, f: Frame, c: Contents)
    requires Forest(ram, at, k, spaces) && Unused(at, f)
    ensures UpperSame(ram, ram[f := c], at)
    ensures forall n, i: nat :: n in at ==> Get(ram[f := c], at[n], i) == Get(ram, at[n], i)
  {
    var ram' := ram[f := c];
    forall n | n in at ensures IsTable(ram', at[n]) { assert NodeOk(ram, at, k, spaces, n); }
  }

  lemma RootFrames(ram: Ram, at: map<Node, Frame>, k: Frame, spaces: set<Frame>)
    requires Forest(ram, at, k, spaces)
    ensures forall r :: r in spaces || r == k ==> Node(r, []) in at && at[Node(r, [])] == r
  {}

  lemma GetPut(ram: Ram, f: Frame, i: nat, e: nat)
    requires IsTable(ram, f) && i < 512
    ensures forall g, j: nat :: Get(Put(ram, f, i, e), g, j) == if g == f && j == i then e else Get(ram, g, j)
    ensures forall g :: IsTable(Put(ram, f, i, e), g) <==> IsTable(ram, g)
  {}

  /** Walks from root `r` along `path` go through slot `i` of table `n`. */
  ghost predicate Via(k: Frame, r: Frame, path: seq<nat>, n: Node, i: nat)
    requires |path| == 4
  {
    |n.path| < 4 && WalkNode(k, r, path, |n.path|) == n && path[|n.path|] == i
  }

  /** A slot write leaves alone every walk that does not go through the slot. */
  lemma PutLocal(ram: Ram, at: map<Node, Frame>, k: Frame, spaces: set<Frame>, n: Node, i: nat, e: nat, r: Frame,
                 path: seq<nat>)
    requires Forest(ram, at, k, spaces) && n in at && IsTable(ram, at[n]) && i < 512 && IsRoot(k, spaces, r)
    requires IsPath(path)
    requires !Via(k, r, path, n, i)
    ensures Lookup(Put(ram, at[n], i, e), r, path, 0) == Lookup(ram, r, path, 0)
  {
    var ram' := Put(ram, at[n], i, e);
    GetPut(ram, at[n], i, e);
    RootFrames(ram, at, k, spaces);
    assert NodeOk(ram, at, k, spaces, n);
    forall j | 0 <= j < 4 && WalkNode(k, r, path, j) in at
      ensures Get(ram', at[WalkNode(k, r, path, j)], path[j]) == Get(ram, at[WalkNode(k, r, path, j)], path[j])
    {
      var m := WalkNode(k, r, path, j);
      assert at[m] == at[n] ==> m == n && |n.path| == j;
    }
    hide Get, Put, NodeOk;
    WalkSame(ram, ram', at, k, spaces, r, path, 0);
  }

  /** A write into a lowest-level table keeps the forest. */
  lemma PutLeafKeeps(ram: Ram, at: map<Node, Frame>, k: Frame, spaces: set<Frame>, n: Node, i: nat, e: nat)
    requires Forest(ram, at, k, spaces) && n in at && |n.path| == 3 && IsTable(ram, at[n]) && i < 512
    ensures Forest(Put(ram, at[n], i, e), at, k, spaces)
  {
    GetPut(ram, at[n], i, e);
    hide Get, IsTable, Put;
    forall m | m in at ensures IsTable(Put(ram, at[n], i, e), at[m]) { assert NodeOk(ram, at, k, spaces, m); }
    ForestSame(ram, Put(ram, at[n], i, e), at, k, spaces);
  }

  /** The space `r` lacks the kernel slot that `path` needs. */
  ghost predicate NoSlot(ram: Ram, spaces: set<Frame>, r: Frame, path: seq<nat>)
    requires |path| == 4
  {
    r in spaces && path[0] >= 256 && !Present(Get(ram, r, path[0]))
  }

  /** If the forest has the table that the walk should visit at depth `d`, the walk gets there. */
  lemma {:induction false} Arrives(ram: Ram, at: map<Node, Frame>, k: Frame, spaces: set<Frame>, r: Frame,
                                   path: seq<nat>, d: nat)
    requires Forest(ram, at, k, spaces) && IsRoot(k, spaces, r) && IsPath(path) && d < 4
    requires WalkNode(k, r, path, d) in at && (d > 0 ==> !NoSlot(ram, spaces, r, path))
    ensures Lookup(ram, r, path, 0) == Lookup(ram, at[WalkNode(k, r, path, d)], path, d)
  {
    RootFrames(ram, at, k, spaces);
    if d > 0 {
      var n := WalkNode(k, r, path, d);
      assert NodeOk(ram, at, k, spaces, n);
      assert n.path[..d - 1] == path[..d - 1];
      if d == 1 {
        assert Get(ram, r, path[0]) == Get(ram, n.root, path[0]);
      } else {
        assert Parent(n) == WalkNode(k, r, path, d - 1);
        hide Forest, Get, FrameOf, Present, Large;
        Arrives(ram, at, k, spaces, r, path, d - 1);
      }
    }
  }

  lemma NoSlotNoWalk(ram: Ram, spaces: set<Frame>, r: Frame, path: seq<nat>)
    requires IsPath(path) && NoSlot(ram, spaces, r, path)
    ensures Lookup(ram, r, path, 0) == None
  {}

  // ---- Adding a table ----------------------------------------------------------------------------------------

  /** The memory and the forest once an empty table in frame `f` hangs from slot `i` of table `n`. */
  function Grown(ram: Ram, g: Frame, i: nat, f: Frame, e: nat): Ram
    requires IsTable(ram, g) && f != g && i < 512
  {
    Put(ram[f := EmptyTable()], g, i, e)
  }

  ghost predicate CanGrow(ram: Ram, at: map<Node, Frame>, k: Frame, spaces: set<Frame>, n: Node, i: nat, f: Frame,
                          e: nat) {
    && Forest(ram, at, k, spaces) && n in at && |n.path| < 3 && i < 512 && IsTable(ram, at[n])
    && !Present(Get(ram, at[n], i)) && Unused(at, f) && f != at[n]
    && (n.path == [] && i >= 256 ==> n.root == k)
    && Present(e) && !Large(e) && FrameOf(e) == f
  }

  lemma GrownSlots(ram: Ram, g: Frame, i: nat, f: Frame, e: nat)
    requires IsTable(ram, g) && f != g && i < 512
    ensures var ram' := Grown(ram, g, i, f, e);
      && (forall h, j: nat :: Get(ram', h, j) == if h == g && j == i then e else if h == f then 0 else Get(ram, h, j))
      && IsTable(ram', f) && (forall h :: IsTable(ram, h) ==> IsTable(ram', h))
  {}

  lemma NewChild(ram: Ram, at: map<Node, Frame>, k: Frame, spaces: set<Frame>, n: Node, i: nat, f: Frame, e: nat)
    requires CanGrow(ram, at, k, spaces, n, i, f, e)
    ensures var c := Child(k, n, i);
      && c !in at && c.path != [] && Parent(c) == n && LastOf(c) == i && |c.path| == |n.path| + 1 && c.root == n.root
  {}

  lemma GrowNodes(ram: Ram, at: map<Node, Frame>, k: Frame, spaces: set<Frame>, n: Node, i: nat, f: Frame, e: nat)
    requires CanGrow(ram, at, k, spaces, n, i, f, e)
    ensures Nodes(Grown(ram, at[n], i, f, e), at[Child(k, n, i) := f], k, spaces)
  {
    var c, ram' := Child(k, n, i), Grown(ram, at[n], i, f, e);
    var at' := at[c := f];
    NewChild(ram, at, k, spaces, n, i, f, e);
    GrownSlots(ram, at[n], i, f, e);
    hide Get, IsTable, Grown;
    assert NodeOk(ram, at, k, spaces, n);
    assert Leads(ram', at[n], i, f);
    forall m | m in at' ensures NodeOk(ram', at', k, spaces, m) {
      if m != c {
        assert NodeOk(ram, at, k, spaces, m);
        if m.path != [] { assert !(Parent(m) == n && LastOf(m) == i); }
      }
    }
  }

  lemma GrowDowns(ram: Ram, at: map<Node, Frame>, k: Frame, spaces: set<Frame>, n: Node, i: nat, f: Frame, e: nat)
    requires CanGrow(ram, at, k, spaces, n, i, f, e)
    ensures Downs(Grown(ram, at[n], i, f, e), at[Child(k, n, i) := f], k)
  {
    var c, ram' := Child(k, n, i), Grown(ram, at[n], i, f, e);
    var at' := at[c := f];
    NewChild(ram, at, k, spaces, n, i, f, e);
    GrownSlots(ram, at[n], i, f, e);
    hide Get, IsTable, Grown, DownOk;
    forall m, j | m in at' && |m.path| < 3 && 0 <= j < 512 ensures DownOk(ram', at', k, m, j) {
      if m == c {
        EmptyDown(ram', at', k, c, j);
      } else {
        GrowDown(ram, ram', at, k, n, i, f, e, m, j);
      }
    }
  }

  lemma EmptyDown(ram: Ram, at: map<Node, Frame>, k: Frame, n: Node, i: nat)
    requires n in at && Get(ram, at[n], i) == 0
    ensures DownOk(ram, at, k, n, i)
  {}

  lemma GrowDown(ram: Ram, ram': Ram, at: map<Node, Frame>, k: Frame, n: Node, i: nat, f: Frame, e: nat, m: Node,
                 j: nat)
    requires n in at && m in at && Child(k, n, i) !in at && DownOk(ram, at, k, m, j)
    requires Get(ram', at[m], j) == if m == n && j == i then e else Get(ram, at[m], j)
    requires Present(e) && !Large(e) && FrameOf(e) == f
    ensures DownOk(ram', at[Child(k, n, i) := f], k, m, j)
  {
    hide Get, Present, Large, FrameOf;
  }

  /** Adding an empty table keeps the forest and changes no walk. */
  lemma Grow(ram: Ram, at: map<Node, Frame>, k: Frame, spaces: set<Frame>, n: Node, i: nat, f: Frame, e: nat)
    requires CanGrow(ram, at, k, spaces, n, i, f, e)
    ensures Forest(Grown(ram, at[n], i, f, e), at[Child(k, n, i) := f], k, spaces)
    ensures SameWalks(ram, Grown(ram, at[n], i, f, e), k, spaces)
  {
    var c, ram' := Child(k, n, i), Grown(ram, at[n], i, f, e);
    var at' := at[c := f];
    GrowNodes(ram, at, k, spaces, n, i, f, e);
    GrowDowns(ram, at, k, spaces, n, i, f, e);
    NewChild(ram, at, k, spaces, n, i, f, e);
    GrownSlots(ram, at[n], i, f, e);
    RootFrames(ram, at, k, spaces);
    hide Get, IsTable, Grown, Nodes, Downs;
    assert Injective(at');
    assert Shared(ram', k, spaces);
    forall r, path | IsRoot(k, spaces, r) && IsPath(path) ensures Lookup(ram', r, path, 0) == Lookup(ram, r, path, 0) {
      GrowWalk(ram, at, k, spaces, n, i, f, e, r, path);
    }
  }

  lemma GrowWalk(ram: Ram, at: map<Node, Frame>, k: Frame, spaces: set<Frame>, n: Node, i: nat, f: Frame, e: nat,
                 r: Frame, path: seq<nat>)
    requires CanGrow(ram, at, k, spaces, n, i, f, e) && IsRoot(k, spaces, r) && IsPath(path)
    requires Forest(Grown(ram, at[n], i, f, e), at[Child(k, n, i) := f], k, spaces)
    ensures Lookup(Grown(ram, at[n], i, f, e), r, path, 0) == Lookup(ram, r, path, 0)
  {
    var c, ram1, ram' := Child(k, n, i), ram[f := EmptyTable()], Grown(ram, at[n], i, f, e);
    var at' := at[c := f];
    FrameWritten(ram, at, k, spaces, f, EmptyTable());
    if !Via(k, r, path, n, i) {
      PutLocal(ram1, at, k, spaces, n, i, e, r, path);
    } else {
      var d := |n.path|;
      WalkChild(k, r, path, d);
      GrownSlots(ram, at[n], i, f, e);
      RootFrames(ram, at, k, spaces);
      hide Forest, Get, Grown;
      ViaNew(ram, at, k, spaces, n, i, f, e, r, path);
    }
  }

  lemma ViaNew(ram: Ram, at: map<Node, Frame>, k: Frame, spaces: set<Frame>, n: Node, i: nat, f: Frame, e: nat,
               r: Frame, path: seq<nat>)
    requires CanGrow(ram, at, k, spaces, n, i, f, e) && IsRoot(k, spaces, r) && IsPath(path) && Via(k, r, path, n, i)
    requires Forest(Grown(ram, at[n], i, f, e), at[Child(k, n, i) := f], k, spaces)
    ensures Lookup(Grown(ram, at[n], i, f, e), r, path, 0) == Lookup(ram, r, path, 0) == None
  {
    var ram', at' := Grown(ram, at[n], i, f, e), at[Child(k, n, i) := f];
    var d := |n.path|;
    WalkChild(k, r, path, d);
    GrownSlots(ram, at[n], i, f, e);
    hide Forest, Grown, WalkNode;
    StopsHere(ram, at, k, spaces, r, path, d);
    StopsHere(ram', at', k, spaces, r, path, d + 1);
  }

  /** The walk ends at an absent slot. */
  lemma StopsHere(ram: Ram, at: map<Node, Frame>, k: Frame, spaces: set<Frame>, r: Frame, path: seq<nat>, d: nat)
    requires Forest(ram, at, k, spaces) && IsRoot(k, spaces, r) && IsPath(path) && d < 4
    requires WalkNode(k, r, path, d) in at && !Present(Get(ram, at[WalkNode(k, r, path, d)], path[d]))
    ensures Lookup(ram, r, path, 0) == None
  {
    if d > 0 && NoSlot(ram, spaces, r, path) {
      NoSlotNoWalk(ram, spaces, r, path);
    } else {
      hide Forest;
      Arrives(ram, at, k, spaces, r, path, d);
    }
  }

  // ---- Writing a page's entry ----------------------------------------------------------------------------------

  /** Walks from root `r` end at the lowest-level table that walks of `path` from `r0` end at. */
  ghost predicate SameLeaf(ram: Ram, k: Frame, r0: Frame, r: Frame, path: seq<nat>)
    requires |path| == 4
  {
    r == r0 || (r0 == k && path[0] >= 256 && Present(Get(ram, r, path[0])))
  }

  function Result(e: nat): Option<Hit> { if Present(e) then Some(Hit(e, 1)) else None }

  /** Writing the entry of one page changes the walk of that page, and of no other. */
  lemma PutLeaf(ram: Ram, at: map<Node, Frame>, k: Frame, spaces: set<Frame>, r0: Frame, path0: seq<nat>, e: nat,
                r: Frame, path: seq<nat>)
    requires Forest(ram, at, k, spaces) && IsRoot(k, spaces, r0) && IsPath(path0) && (r0 == k || path0[0] < 256)
    requires WalkNode(k, r0, path0, 3) in at && IsTable(ram, at[WalkNode(k, r0, path0, 3)])
    requires IsRoot(k, spaces, r) && IsPath(path)
    ensures Lookup(Put(ram, at[WalkNode(k, r0, path0, 3)], path0[3], e), r, path, 0)
      == if path == path0 && SameLeaf(ram, k, r0, r, path) then Result(e) else Lookup(ram, r, path, 0)
  {
    assert k !in spaces;
    hide Forest, Get, Put, Lookup, Present;
    var n := WalkNode(k, r0, path0, 3);
    if Via(k, r, path, n, path0[3]) {
      assert path == path[..3] + [path[3]] == path0[..3] + [path0[3]] == path0;
      PutLeafVia(ram, at, k, spaces, n, e, r, path);
    } else {
      assert !(path == path0 && SameLeaf(ram, k, r0, r, path));
      PutLocal(ram, at, k, spaces, n, path0[3], e, r, path);
    }
  }

  /** A walk that goes through the written slot finds the new entry, unless its space lacks the kernel slot. */
  lemma PutLeafVia(ram: Ram, at: map<Node, Frame>, k: Frame, spaces: set<Frame>, n: Node, e: nat, r: Frame,
                   path: seq<nat>)
    requires Forest(ram, at, k, spaces) && n in at && IsTable(ram, at[n]) && IsRoot(k, spaces, r) && IsPath(path)
    requires |n.path| == 3 && Via(k, r, path, n, path[3])
    ensures Lookup(Put(ram, at[n], path[3], e), r, path, 0) ==
      if NoSlot(ram, spaces, r, path) then Lookup(ram, r, path, 0) else Result(e)
  {
    var ram' := Put(ram, at[n], path[3], e);
    GetPut(ram, at[n], path[3], e);
    RootFrames(ram, at, k, spaces);
    assert at[n] != r by { assert Injective(at) && Node(r, []) != n; }
    PutLeafKeeps(ram, at, k, spaces, n, path[3], e);
    assert k !in spaces;
    hide Forest, Get, Put;
    if NoSlot(ram', spaces, r, path) {
      NoSlotNoWalk(ram', spaces, r, path);
      NoSlotNoWalk(ram, spaces, r, path);
    } else {
      Arrives(ram', at, k, spaces, r, path, 3);
    }
  }

  /** In a space that has the kernel's slot, the kernel's mappings under it are the space's own. */
  lemma KernelShared(ram: Ram, at: map<Node, Frame>, k: Frame, spaces: set<Frame>, r: Frame, v: nat)
    requires Forest(ram, at, k, spaces) && r in spaces && PathOf(v)[0] >= 256 && Present(Get(ram, r, PathOf(v)[0]))
    ensures Walk(ram, r, v) == Walk(ram, k, v) && Translate(ram, r, v) == Translate(ram, k, v)
  {}

  // ---- The pages of the user half ------------------------------------------------------------------------------

  /** The frame mapped at each page of each space's user half: exactly the present lowest-level entries. */
  ghost predicate Leaves(ram: Ram, at: map<Node, Frame>, leaf: map<Node, Frame>, spaces: set<Frame>) {
    && (forall n :: n in leaf ==> LeafOk(ram, at, spaces, n, leaf[n]))
    && (forall n, i :: n in at && 0 <= i < 512 ==> SlotOk(ram, at, leaf, spaces, n, i))
  }

  ghost predicate SlotOk(ram: Ram, at: map<Node, Frame>, leaf: map<Node, Frame>, spaces: set<Frame>, n: Node, i: nat)
    requires n in at
  {
    n.root in spaces && |n.path| == 3 && Present(Get(ram, at[n], i)) ==> Node(n.root, n.path + [i]) in leaf
  }

  ghost predicate LeafOk(ram: Ram, at: map<Node, Frame>, spaces: set<Frame>, n: Node, f: Frame) {
    && IsPath(n.path) && n.root in spaces && n.path[0] < 256 && Parent(n) in at
    && Present(Get(ram, at[Parent(n)], LastOf(n))) && FrameOf(Get(ram, at[Parent(n)], LastOf(n))) == f
  }

  /** Every mapped user frame is the allocator's, is mapped once, and is neither a table nor free. */
  ghost predicate Exclusive(at: map<Node, Frame>, leaf: map<Node, Frame>, free: set<Frame>) {
    && Injective(leaf)
    && (forall n :: n in leaf ==> Unused(at, leaf[n]) && leaf[n] !in free && 0 < leaf[n] < MAX_PAGES)
  }

  /** The frames that space `r` has taken: its tables and its mapped pages. */
  ghost function Owned(at: map<Node, Frame>, leaf: map<Node, Frame>, r: Frame): set<Frame> {
    (set n | n in at && n.root == r :: at[n]) + (set n | n in leaf && n.root == r :: leaf[n])
  }

  lemma GrowLeaves(ram: Ram, at: map<Node, Frame>, leaf: map<Node, Frame>, k: Frame, spaces: set<Frame>, n: Node,
                   i: nat, f: Frame, e: nat)
    requires CanGrow(ram, at, k, spaces, n, i, f, e) && Leaves(ram, at, leaf, spaces)
    ensures Leaves(Grown(ram, at[n], i, f, e), at[Child(k, n, i) := f], leaf, spaces)
  {
    var c, ram' := Child(k, n, i), Grown(ram, at[n], i, f, e);
    var at' := at[c := f];
    NewChild(ram, at, k, spaces, n, i, f, e);
    GrownSlots(ram, at[n], i, f, e);
    hide Get, IsTable, Grown, Forest, Child, FrameOf, Injective, LeafOk, SlotOk;
    forall m | m in leaf ensures LeafOk(ram', at', spaces, m, leaf[m]) {
      GrowLeaf(ram, ram', at, k, spaces, n, i, f, m, leaf[m]);
    }
    forall m, j | m in at' && 0 <= j < 512 ensures SlotOk(ram', at', leaf, spaces, m, j) {
      GrowSlot(ram, ram', at, leaf, spaces, n, i, c, f, m, j);
    }
  }

  lemma GrowLeaf(ram: Ram, ram': Ram, at: map<Node, Frame>, k: Frame, spaces: set<Frame>, n: Node, i: nat, f: Frame,
                 m: Node, g: Frame)
    requires Forest(ram, at, k, spaces) && LeafOk(ram, at, spaces, m, g) && Unused(at, f) && n in at && |n.path| < 3
    requires Child(k, n, i) !in at
    requires forall h, j: nat :: h != at[n] && h != f ==> Get(ram', h, j) == Get(ram, h, j)
    ensures LeafOk(ram', at[Child(k, n, i) := f], spaces, m, g)
  {
    hide Get, Nodes, Downs, Shared, FrameOf, Present;
    var p := Parent(m);
    assert p != n && p in at && p != Child(k, n, i);
    assert at[p] != at[n] by { assert Injective(at); }
  }

  lemma GrowSlot(ram: Ram, ram': Ram, at: map<Node, Frame>, leaf: map<Node, Frame>, spaces: set<Frame>, n: Node, i: nat,
                 c: Node, f: Frame, m: Node, j: nat)
    requires n in at && |n.path| < 3 && Unused(at, f) && (m == c || m in at) && Injective(at)
    requires m in at ==> SlotOk(ram, at, leaf, spaces, m, j)
    requires forall h, j: nat :: h != at[n] && h != f ==> Get(ram', h, j) == Get(ram, h, j)
    requires forall j: nat :: Get(ram', f, j) == 0
    ensures SlotOk(ram', at[c := f], leaf, spaces, m, j)
  {}

  /** A page's entry is written in a space's user half: that page is now mapped to that frame. */
  lemma PutLeafLeaves(ram: Ram, at: map<Node, Frame>, leaf: map<Node, Frame>, k: Frame, spaces: set<Frame>, n: Node,
                      i: nat, e: nat)
    requires Forest(ram, at, k, spaces) && Leaves(ram, at, leaf, spaces)
    requires n in at && |n.path| == 3 && IsTable(ram, at[n]) && i < 512
    requires n.root in spaces ==> Present(e)
    ensures var leaf' := if n.root in spaces then leaf[Node(n.root, n.path + [i]) := FrameOf(e)] else leaf;
      Leaves(Put(ram, at[n], i, e), at, leaf', spaces)
  {
    hide Get, IsTable, Put, Forest, FrameOf, Present, LeafOk, SlotOk;
    var ram' := Put(ram, at[n], i, e);
    var l := Node(n.root, n.path + [i]);
    var leaf' := if n.root in spaces then leaf[l := FrameOf(e)] else leaf;
    GetPut(ram, at[n], i, e);
    PutLeafKeeps(ram, at, k, spaces, n, i, e);
    forall m | m in leaf' ensures LeafOk(ram', at, spaces, m, leaf'[m]) {
      if m == l && n.root in spaces {
        PutLeafNew(ram', at, k, spaces, n, i, e);
      } else {
        assert n.root !in spaces && m == l ==> m !in leaf by { NoKernelLeaf(ram, at, leaf, spaces, m); }
        PutLeafOther(ram, ram', at, k, spaces, n, i, m, leaf[m]);
      }
    }
    forall m, j | m in at && 0 <= j < 512 ensures SlotOk(ram', at, leaf', spaces, m, j) {
      PutSlot(ram, ram', at, leaf, leaf', k, spaces, n, i, m, j);
    }
  }

  lemma NoKernelLeaf(ram: Ram, at: map<Node, Frame>, leaf: map<Node, Frame>, spaces: set<Frame>, m: Node)
    requires Leaves(ram, at, leaf, spaces)
    ensures m in leaf ==> m.root in spaces
  {}

  lemma PutLeafNew(ram: Ram, at: map<Node, Frame>, k: Frame, spaces: set<Frame>, n: Node, i: nat, e: nat)
    requires Forest(ram, at, k, spaces) && n in at && |n.path| == 3 && i < 512 && n.root in spaces && Present(e)
    requires Get(ram, at[n], i) == e
    ensures LeafOk(ram, at, spaces, Node(n.root, n.path + [i]), FrameOf(e))
  {}

  lemma PutLeafOther(ram: Ram, ram': Ram, at: map<Node, Frame>, k: Frame, spaces: set<Frame>, n: Node, i: nat, m: Node,
                     g: Frame)
    requires Forest(ram, at, k, spaces) && n in at && LeafOk(ram, at, spaces, m, g) && m != Node(n.root, n.path + [i])
    requires forall h, j: nat :: !(h == at[n] && j == i) ==> Get(ram', h, j) == Get(ram, h, j)
    ensures LeafOk(ram', at, spaces, m, g)
  {}

  lemma PutSlot(ram: Ram, ram': Ram, at: map<Node, Frame>, leaf: map<Node, Frame>, leaf': map<Node, Frame>, k: Frame,
                spaces: set<Frame>, n: Node, i: nat, m: Node, j: nat)
    requires Forest(ram, at, k, spaces) && n in at && m in at && SlotOk(ram, at, leaf, spaces, m, j)
    requires leaf'.Keys == if n.root in spaces then leaf.Keys + {Node(n.root, n.path + [i])} else leaf.Keys
    requires forall h, j: nat :: !(h == at[n] && j == i) ==> Get(ram', h, j) == Get(ram, h, j)
    ensures SlotOk(ram', at, leaf', spaces, m, j)
  {}
}
