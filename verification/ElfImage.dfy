/** ELF64 images as byte strings, and the page images that a segment must produce (kernel/exec/elf.c;
    Program Header and Program Loading in chapter 5 of the System V gABI). */
module ElfImage {
  import opened Machine
  import opened Bytes

  const EHDR: nat := 64
  const PHDR: nat := 56
  const STACK_PAGES: nat := 4
  const STACK_TOP: nat := 0x8000_0000_0000
  const STACK_BASE: nat := STACK_TOP - STACK_PAGES * PAGE

  datatype Header = Header(entry: nat, phoff: nat, phentsize: nat, phnum: nat)

  datatype Segment = Segment(kind: nat, flags: nat, offset: nat, vaddr: nat, filesz: nat, memsz: nat)

  /** Magic, 64-bit class, executable, x86-64, and some program headers. */
  predicate HeaderOk(image: seq<Byte>) {
    && |image| >= EHDR
    && image[0] == 0x7f && image[1] == 'E' as int && image[2] == 'L' as int && image[3] == 'F' as int && image[4] == 2
    && Get16(image, 16) == 2 && Get16(image, 18) == 62
    && Get64(image, 32) != 0 && Get16(image, 56) != 0
  }

  function HeaderOf(image: seq<Byte>): (h: Header)
    requires |image| >= EHDR
    ensures h.phoff < U64 && h.phentsize < U16 && h.phnum < U16
  {
    Header(Get64(image, 24), Get64(image, 32), Get16(image, 54), Get16(image, 56))
  }

  function SegmentAt(image: seq<Byte>, p: nat): (s: Segment)
    requires p + PHDR <= |image|
    ensures s.offset < U64 && s.vaddr < U64 && s.filesz < U64 && s.memsz < U64
  {
    Segment(Get32(image, p), Get32(image, p + 4), Get64(image, p + 8), Get64(image, p + 16),
            Get64(image, p + 32), Get64(image, p + 40))
  }

  // ---- The layout of the two headers ------------------------------------------------------------------------

  /** The fields of an Elf64_Phdr in the gABI's order: p_type, p_flags, p_offset, p_vaddr, p_paddr, p_filesz,
      p_memsz, p_align. */
  function PhdrFields(s: Segment, paddr: nat, align: nat): seq<(nat, nat)> {
    [(4, s.kind), (4, s.flags), (8, s.offset), (8, s.vaddr), (8, paddr), (8, s.filesz), (8, s.memsz), (8, align)]
  }

  /** A program header that is laid out so is read as the segment that it describes. */
  lemma SegmentDecodes(image: seq<Byte>, p: nat, s: Segment, paddr: nat, align: nat)
    requires s.kind < U32 && s.flags < U32 && s.offset < U64 && s.vaddr < U64 && s.filesz < U64 && s.memsz < U64
    requires var b := Packed(PhdrFields(s, paddr, align)); p + |b| <= |image| && image[p..p + |b|] == b
    ensures |Packed(PhdrFields(s, paddr, align))| == PHDR && SegmentAt(image, p) == s
  {
    var f := PhdrFields(s, paddr, align);
    PackedSize(f);
    PhdrOffsets(f);
    FitsWidth(s.kind);
    FitsWidth(s.flags);
    FitsWidth(s.offset);
    FitsWidth(s.vaddr);
    FitsWidth(s.filesz);
    FitsWidth(s.memsz);
    hide Packed, Fits, Get32, Get64, OffsetOf;
    ReadField(image, p, f, 0);
    ReadField(image, p, f, 1);
    ReadField(image, p, f, 2);
    ReadField(image, p, f, 3);
    ReadField(image, p, f, 5);
    ReadField(image, p, f, 6);
  }

  lemma PhdrOffsets(f: seq<(nat, nat)>)
    requires |f| == 8 && f[0].0 == f[1].0 == 4 && forall i :: 2 <= i < 8 ==> f[i].0 == 8
    ensures OffsetOf(f, 0) == 0 && OffsetOf(f, 1) == 4
    ensures forall i :: 2 <= i <= 8 ==> OffsetOf(f, i) == 8 * (i - 1)
  {
    assert OffsetOf(f, 1) == 4;
    var i := 2;
    while i < 8
      invariant 2 <= i <= 8 && forall j :: 2 <= j <= i ==> OffsetOf(f, j) == 8 * (j - 1)
    {
      i := i + 1;
    }
  }

  /** The fields of an Elf64_Ehdr behind its 16 identification bytes, in the gABI's order: e_type, e_machine,
      e_version, e_entry, e_phoff, e_shoff, e_flags, e_ehsize, e_phentsize, e_phnum, and `rest` for the three of
      the section headers. */
  function EhdrFields(kind: nat, machine: nat, h: Header, version: nat, shoff: nat, flags: nat, ehsize: nat,
                      rest: seq<(nat, nat)>): seq<(nat, nat)> {
    [(2, kind), (2, machine), (4, version), (8, h.entry), (8, h.phoff), (8, shoff), (4, flags), (2, ehsize),
     (2, h.phentsize), (2, h.phnum)] + rest
  }

  /** A file header that is laid out so is read so, and accepted exactly for an x86-64 executable with program
      headers. */
  lemma HeaderDecodes(image: seq<Byte>, kind: nat, machine: nat, h: Header, version: nat, shoff: nat, flags: nat,
                      ehsize: nat, rest: seq<(nat, nat)>)
    requires kind < U16 && machine < U16 && h.entry < U64 && h.phoff < U64 && h.phentsize < U16 && h.phnum < U16
    requires |image| >= EHDR
    requires var b := Packed(EhdrFields(kind, machine, h, version, shoff, flags, ehsize, rest));
      16 + |b| <= |image| && image[16..16 + |b|] == b
    ensures HeaderOf(image) == h
    ensures HeaderOk(image) <==>
      && image[..5] == [0x7f, 'E' as int, 'L' as int, 'F' as int, 2]
      && kind == 2 && machine == 62 && h.phoff != 0 && h.phnum != 0
  {
    HeaderReads(image, EhdrFields(kind, machine, h, version, shoff, flags, ehsize, rest));
    hide Packed, Get16, Get64, EhdrFields;
    assert image[..5] == [image[0], image[1], image[2], image[3], image[4]];
  }

  lemma HeaderReads(image: seq<Byte>, f: seq<(nat, nat)>)
    requires |f| >= 10 && f[0].0 == f[1].0 == 2 && f[2].0 == 4 && f[3].0 == f[4].0 == f[5].0 == 8 && f[6].0 == 4
    requires f[7].0 == f[8].0 == f[9].0 == 2
    requires f[0].1 < U16 && f[1].1 < U16 && f[3].1 < U64 && f[4].1 < U64 && f[8].1 < U16 && f[9].1 < U16
    requires |image| >= EHDR && 16 + |Packed(f)| <= |image| && image[16..16 + |Packed(f)|] == Packed(f)
    ensures Get16(image, 16) == f[0].1 && Get16(image, 18) == f[1].1
    ensures Get64(image, 24) == f[3].1 && Get64(image, 32) == f[4].1
    ensures Get16(image, 54) == f[8].1 && Get16(image, 56) == f[9].1
  {
    hide Packed, Fits, Get16, Get64, OffsetOf;
    EhdrOffsets(f);
    FitsWidth(f[0].1);
    FitsWidth(f[1].1);
    FitsWidth(f[3].1);
    FitsWidth(f[4].1);
    FitsWidth(f[8].1);
    FitsWidth(f[9].1);
    ReadField(image, 16, f, 0);
    ReadField(image, 16, f, 1);
    ReadField(image, 16, f, 3);
    ReadField(image, 16, f, 4);
    ReadField(image, 16, f, 8);
    ReadField(image, 16, f, 9);
  }

  lemma EhdrOffsets(f: seq<(nat, nat)>)
    requires |f| >= 10 && f[0].0 == f[1].0 == 2 && f[2].0 == 4 && f[3].0 == f[4].0 == f[5].0 == 8 && f[6].0 == 4
    requires f[7].0 == f[8].0 == f[9].0 == 2
    ensures OffsetOf(f, 0) == 0 && OffsetOf(f, 1) == 2 && OffsetOf(f, 3) == 8 && OffsetOf(f, 4) == 16
    ensures OffsetOf(f, 8) == 38 && OffsetOf(f, 9) == 40
  {
    assert OffsetOf(f, 1) == 2;
    assert OffsetOf(f, 2) == 4;
    assert OffsetOf(f, 3) == 8;
    assert OffsetOf(f, 4) == 16;
    assert OffsetOf(f, 5) == 24;
    assert OffsetOf(f, 6) == 32;
    assert OffsetOf(f, 7) == 36;
  }

  /** Where the i-th program header starts. */
  function HeaderAt(h: Header, i: nat): nat { h.phoff + i * h.phentsize }

  predicate HeaderInside(image: seq<Byte>, i: nat)
    requires |image| >= EHDR
  {
    HeaderAt(HeaderOf(image), i) + PHDR <= |image|
  }

  function SegmentNo(image: seq<Byte>, i: nat): (s: Segment)
    requires |image| >= EHDR && HeaderInside(image, i)
  {
    SegmentAt(image, HeaderAt(HeaderOf(image), i))
  }

  predicate Loadable(s: Segment) { s.kind == 1 && s.memsz != 0 }

  /** File data inside the image, memory inside the user range. */
  predicate SegmentOk(image: seq<Byte>, s: Segment) {
    s.offset + s.filesz <= |image| && s.vaddr + s.memsz <= STACK_TOP
  }

  function FirstPage(s: Segment): nat { s.vaddr / PAGE }

  /** The number of pages that the segment touches. */
  function PageCount(s: Segment): nat { (s.vaddr + s.memsz - s.vaddr / PAGE * PAGE + PAGE - 1) / PAGE }

  lemma PagesCover(s: Segment, a: nat)
    requires s.vaddr <= a < s.vaddr + s.memsz
    ensures FirstPage(s) <= a / PAGE < FirstPage(s) + PageCount(s)
  {}

  /** No page more than that: the last one holds the last byte. */
  lemma PagesExact(s: Segment)
    requires s.memsz > 0
    ensures (s.vaddr + s.memsz - 1) / PAGE == FirstPage(s) + PageCount(s) - 1
  {}

  // ---- What a segment's pages must hold ------------------------------------------------------------------

  /** The byte at address `a`: from the file, or zero past the file data. */
  function SegmentByte(image: seq<Byte>, s: Segment, a: nat): Byte
    requires SegmentOk(image, s) && s.vaddr <= a
  {
    if a - s.vaddr < s.filesz then image[s.offset + (a - s.vaddr)] else 0
  }

  function Min(a: nat, b: nat): nat { if a < b then a else b }

  /** File bytes copied before page `p`. */
  function Copied(s: Segment, p: nat): nat {
    if p == 0 then 0 else Min(s.filesz, PAGE - s.vaddr % PAGE + (p - 1) * PAGE)
  }

  function PageOff(s: Segment, p: nat): nat { if p == 0 then s.vaddr % PAGE else 0 }

  function CopyLen(s: Segment, p: nat): (n: nat)
    ensures PageOff(s, p) + n <= PAGE && Copied(s, p) + n <= s.filesz
  {
    Min(s.filesz - Copied(s, p), PAGE - PageOff(s, p))
  }

  function SegmentPage(image: seq<Byte>, s: Segment, p: nat): (b: seq<Byte>)
    requires SegmentOk(image, s)
    ensures |b| == PAGE
  {
    Patch(Zeros(PAGE), PageOff(s, p), image[s.offset + Copied(s, p)..s.offset + Copied(s, p) + CopyLen(s, p)])
  }

  /** Page by page, the pages hold the segment. */
  lemma PageHolds(image: seq<Byte>, s: Segment, a: nat)
    requires SegmentOk(image, s) && s.vaddr <= a < s.vaddr + s.memsz
    ensures FirstPage(s) <= a / PAGE
    ensures SegmentPage(image, s, a / PAGE - FirstPage(s))[a % PAGE] == SegmentByte(image, s, a)
  {}

  // ---- Which pages a segment takes ----------------------------------------------------------------------------

  /** The segments that are loaded take different pages, and none of the stack's. */
  ghost predicate PageDisjoint(image: seq<Byte>)
    requires |image| >= EHDR
  {
    forall i :: 0 <= i < HeaderOf(image).phnum && Loads(image, i) ==>
      && FirstPage(SegmentNo(image, i)) + PageCount(SegmentNo(image, i)) <= STACK_BASE / PAGE
      && forall j :: 0 <= j < i && Loads(image, j) ==> Apart(SegmentNo(image, i), SegmentNo(image, j))
  }

  ghost predicate Loads(image: seq<Byte>, i: nat)
    requires |image| >= EHDR
  {
    HeaderInside(image, i) && Loadable(SegmentNo(image, i))
  }

  predicate Apart(s: Segment, t: Segment) {
    FirstPage(s) + PageCount(s) <= FirstPage(t) || FirstPage(t) + PageCount(t) <= FirstPage(s)
  }
}
