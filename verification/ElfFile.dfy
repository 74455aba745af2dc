/**
 * An executable as the bytes on disk: the ELF header and the program header table, field by field in the
 * order of the System V gABI (chapter 4, "ELF Header", and chapter 5, "Program Header"), and what a
 * program finds in memory after such a file has been loaded.
 */
module ElfFile {
  import opened Arith
  import opened BuddySpec
  import opened BuddyAllocator
  import opened PageTree
  import opened PageTables
  import opened UserImage
  import opened LittleEndian
  import opened WordBytes
  import opened Elf
  import opened ElfLoad

  /** The ELF header: sixteen bytes of identification, then what the file is and where its tables are. */
  datatype FileHeader = FileHeader(ident: seq<u8>, etype: nat, machine: nat, version: nat, entry: nat, phoff: nat,
    shoff: nat, flags: nat, ehsize: nat, phentsize: nat, phnum: nat, shentsize: nat, shnum: nat, shstrndx: nat)

  /** A program header. */
  datatype Segment = Segment(ptype: nat, flags: nat, offset: nat, vaddr: nat, paddr: nat, filesz: nat, memsz: nat,
    align: nat)

  /** The header behind its identification bytes. */
  function HeaderFields(h: FileHeader): seq<Field> {
    [Field(h.etype, 2), Field(h.machine, 2), Field(h.version, 4), Field(h.entry, 8), Field(h.phoff, 8),
     Field(h.shoff, 8), Field(h.flags, 4), Field(h.ehsize, 2), Field(h.phentsize, 2), Field(h.phnum, 2),
     Field(h.shentsize, 2), Field(h.shnum, 2), Field(h.shstrndx, 2)]
  }

  function SegmentFields(g: Segment): seq<Field> {
    [Field(g.ptype, 4), Field(g.flags, 4), Field(g.offset, 8), Field(g.vaddr, 8), Field(g.paddr, 8),
     Field(g.filesz, 8), Field(g.memsz, 8), Field(g.align, 8)]
  }

  /** The bytes of a structure stand at byte at. */
  predicate Stands(elf: seq<u8>, at: nat, fields: seq<Field>) {
    var bytes := Packed(fields, |fields|);
    at + |bytes| <= |elf| && elf[at..at + |bytes|] == bytes && Fitting(fields)
  }

  /** A file with this header and these program headers, wherever the rest of it lies. */
  predicate FileOf(elf: seq<u8>, h: FileHeader, segs: seq<Segment>) {
    && HeaderStands(elf, h) && h.phnum == |segs|
    && forall i :: 0 <= i < |segs| ==> SegmentStands(elf, h, segs, i)
  }

  predicate HeaderStands(elf: seq<u8>, h: FileHeader) {
    |h.ident| == 16 <= |elf| && elf[..16] == h.ident && Stands(elf, 16, HeaderFields(h))
  }

  predicate SegmentStands(elf: seq<u8>, h: FileHeader, segs: seq<Segment>, i: nat)
    requires i < |segs|
  {
    Stands(elf, h.phoff + 56 * i, SegmentFields(segs[i]))
  }

  /** What the kernel loads: a 64-bit ELF file for x86-64. */
  predicate Loadable(h: FileHeader)
    requires |h.ident| == 16
  {
    h.ident[..5] == [0x7F, 0x45, 0x4C, 0x46, 2] && h.machine == 62
  }

  lemma OffsetNext(fs: seq<Field>, k: nat)
    requires k < |fs|
    ensures Offset(fs, 0) == 0 && Offset(fs, k + 1) == Offset(fs, k) + fs[k].size
  {
  }

  lemma HeaderOffsets(h: FileHeader)
    ensures var fs := HeaderFields(h);
            && |fs| == 13 && |Packed(fs, 13)| == 48 && fs[1] == Field(h.machine, 2) && fs[3] == Field(h.entry, 8)
            && fs[4] == Field(h.phoff, 8) && fs[9] == Field(h.phnum, 2)
            && Offset(fs, 1) == 2 && Offset(fs, 3) == 8 && Offset(fs, 4) == 16 && Offset(fs, 9) == 40
  {
    var fs := HeaderFields(h);
    PackedPrefix(fs, 13, 13);
    hide Offset, Packed;
    OffsetNext(fs, 0);
    OffsetNext(fs, 1);
    OffsetNext(fs, 2);
    OffsetNext(fs, 3);
    OffsetNext(fs, 4);
    OffsetNext(fs, 5);
    OffsetNext(fs, 6);
    OffsetNext(fs, 7);
    OffsetNext(fs, 8);
    OffsetNext(fs, 9);
    OffsetNext(fs, 10);
    OffsetNext(fs, 11);
    OffsetNext(fs, 12);
  }

  lemma SegmentOffsets(g: Segment)
    ensures var fs := SegmentFields(g);
            && |fs| == 8 && |Packed(fs, 8)| == 56 && fs[0] == Field(g.ptype, 4) && fs[1] == Field(g.flags, 4)
            && fs[2] == Field(g.offset, 8) && fs[3] == Field(g.vaddr, 8) && fs[5] == Field(g.filesz, 8)
            && fs[6] == Field(g.memsz, 8) && Offset(fs, 0) == 0 && Offset(fs, 1) == 4 && Offset(fs, 2) == 8
            && Offset(fs, 3) == 16 && Offset(fs, 5) == 32 && Offset(fs, 6) == 40
  {
    var fs := SegmentFields(g);
    PackedPrefix(fs, 8, 8);
    hide Offset, Packed;
    OffsetNext(fs, 0);
    OffsetNext(fs, 1);
    OffsetNext(fs, 2);
    OffsetNext(fs, 3);
    OffsetNext(fs, 4);
    OffsetNext(fs, 5);
    OffsetNext(fs, 6);
    OffsetNext(fs, 7);
  }

  /** What the loader reads of the header is what stands there. */
  lemma HeaderRead(elf: seq<u8>, h: FileHeader)
    requires HeaderStands(elf, h)
    ensures 64 <= |elf| && |h.ident| == 16
    ensures Le(elf, 18, 2) == h.machine && Le(elf, 24, 8) == h.entry && Le(elf, 32, 8) == h.phoff
    ensures Le(elf, 56, 2) == h.phnum && elf[..16] == h.ident
  {
    var fs := HeaderFields(h);
    HeaderOffsets(h);
    hide Packed, Offset, Fitting, Le, HeaderFields;
    FieldRead(elf, 16, fs, 1);
    FieldRead(elf, 16, fs, 3);
    FieldRead(elf, 16, fs, 4);
    FieldRead(elf, 16, fs, 9);
  }

  /** What the kernel checks is that it can load the file. */
  lemma HeaderChecked(elf: seq<u8>, h: FileHeader)
    requires HeaderStands(elf, h)
    ensures 64 <= |elf| && EHDR_SIZE == 64 && |h.ident| == 16
    ensures (HeaderOk(elf) <==> Loadable(h)) && Count(elf) == h.phnum
  {
    HeaderRead(elf, h);
    MagicBytes(elf);
    hide Le, Stands;
    assert forall i :: 0 <= i < 5 ==> elf[i] == h.ident[i];
  }

  /** The magic number is these four bytes. */
  lemma MagicBytes(elf: seq<u8>)
    requires |elf| >= 5
    ensures Le(elf, 0, 4) == ELF_MAGIC <==> elf[..4] == [0x7F, 0x45, 0x4C, 0x46]
    ensures Le(elf, 4, 1) == elf[4]
  {
    var a: int, b: int, c: int, d: int := elf[0], elf[1], elf[2], elf[3];
    assert Le(elf, 4, 0) == 0 && Le(elf, 5, 0) == 0;
    assert Le(elf, 3, 1) == d;
    assert Le(elf, 2, 2) == c + 256 * d;
    assert Le(elf, 1, 3) == b + 256 * (c + 256 * d);
    assert Le(elf, 0, 4) == a + 256 * (b + 256 * (c + 256 * d));
  }

  /** What the loader makes of a program header. */
  function PhdrOf(g: Segment): Phdr {
    Phdr(g.ptype, g.flags, g.offset, g.vaddr, g.filesz, g.memsz)
  }

  lemma SegmentRead(elf: seq<u8>, at: nat, g: Segment)
    requires Stands(elf, at, SegmentFields(g))
    ensures at + 56 <= |elf| && PHDR_SIZE == 56 && ReadPhdr(elf, at) == PhdrOf(g)
  {
    var fs := SegmentFields(g);
    SegmentOffsets(g);
    hide Packed, Offset, Fitting, Le;
    FieldRead(elf, at, fs, 0);
    FieldRead(elf, at, fs, 1);
    FieldRead(elf, at, fs, 2);
    FieldRead(elf, at, fs, 3);
    FieldRead(elf, at, fs, 5);
    FieldRead(elf, at, fs, 6);
  }

  /** The loader's view of a file is its headers. */
  lemma FileRead(elf: seq<u8>, h: FileHeader, segs: seq<Segment>)
    requires FileOf(elf, h, segs)
    ensures 64 <= |elf| && EHDR_SIZE == 64 && PHDR_SIZE == 56 && |h.ident| == 16
    ensures HeaderOk(elf) <==> Loadable(h)
    ensures Count(elf) == |segs| && Le(elf, 24, 8) == h.entry
    ensures segs != [] ==> Le(elf, 32, 8) + 56 * |segs| <= |elf|
    ensures Le(elf, 32, 8) + 56 * |segs| <= |elf| ==>
              |Segments(elf)| == |segs| && forall i :: 0 <= i < |segs| ==> Segments(elf)[i] == PhdrOf(segs[i])
  {
    HeaderRead(elf, h);
    HeaderChecked(elf, h);
    hide Stands, Packed, Fitting, Le, HeaderFields, SegmentFields, ReadPhdr, PhdrOf, HeaderOk, Loadable;
    forall i | 0 <= i < |segs|
      ensures h.phoff + 56 * i + 56 <= |elf| && ReadPhdr(elf, h.phoff + 56 * i) == PhdrOf(segs[i])
    {
      assert SegmentStands(elf, h, segs, i);
      SegmentRead(elf, h.phoff + 56 * i, segs[i]);
    }
    if segs != [] { assert h.phoff + 56 * (|segs| - 1) + 56 <= |elf|; }
  }

  /** The pages of a loadable segment: those its memory reaches into. */
  predicate Covers(g: Segment, a: nat) {
    g.ptype == 1 && g.vaddr / 4096 <= a / 4096 < (g.vaddr + g.memsz + 4095) / 4096
  }

  /** Segment i is the last in the file to cover the page of address a. */
  predicate LastToCover(segs: seq<Segment>, i: int, a: nat) {
    0 <= i < |segs| && Covers(segs[i], a) && forall j :: i < j < |segs| ==> !Covers(segs[j], a)
  }

  predicate OnStack(a: nat) {
    0x7F_FFFF_E000 <= a < 0x80_0000_0000
  }

  /** The byte a segment of the file puts at address a. */
  function SegmentByte(elf: seq<u8>, g: Segment, a: nat): u8 {
    if g.vaddr <= a < g.vaddr + g.filesz && g.offset + (a - g.vaddr) < |elf| then elf[g.offset + (a - g.vaddr)] else 0
  }

  /** Every loadable segment lies in the file and in user space, and so does the table in the file. */
  predicate Sane(elf: seq<u8>, h: FileHeader, segs: seq<Segment>) {
    && h.phoff + 56 * |segs| <= |elf|
    && forall i :: 0 <= i < |segs| && segs[i].ptype == 1 ==>
         segs[i].offset + segs[i].filesz <= |elf| && segs[i].vaddr + segs[i].memsz + 4096 <= 0x8000_0000_0000
  }

  /** Such a file is one the loader may be given. */
  lemma SaneFile(elf: seq<u8>, h: FileHeader, segs: seq<Segment>)
    requires FileOf(elf, h, segs) && Sane(elf, h, segs)
    ensures WellFormed(elf)
  {
    FileRead(elf, h, segs);
    TableAt(elf, h, segs);
    hide FileOf, Le, HeaderOk, Segments;
  }

  lemma TableAt(elf: seq<u8>, h: FileHeader, segs: seq<Segment>)
    requires FileOf(elf, h, segs)
    ensures 64 <= |elf| && Le(elf, 32, 8) == h.phoff
  {
    HeaderRead(elf, h);
  }

  lemma SameCover(g: Segment, a: nat)
    ensures InSegment(PhdrOf(g), a / PAGE_SIZE) <==> Covers(g, a)
  {
  }

  /**
   * What a program finds at address a once its file is loaded: zeros it may write on the stack; elsewhere
   * the byte of the last segment to cover the page, which it may write exactly if that segment's flags say
   * so; and nothing at all where no segment is.
   */
  lemma ProgramLoaded(ram: Memory, root: nat, elf: seq<u8>, h: FileHeader, segs: seq<Segment>, a: nat)
    requires FileOf(elf, h, segs) && Sane(elf, h, segs) && WellFormed(elf) && WholeImage(ram, root, elf)
    requires a < 0x8000_0000_0000
    ensures OnStack(a) ==> ReadsAs(ram, root, a, true, 0)
    ensures forall i :: 0 <= i < |segs| && !OnStack(a) && LastToCover(segs, i, a) ==>
              ReadsAs(ram, root, a, segs[i].flags / 2 % 2 == 1, SegmentByte(elf, segs[i], a))
    ensures !OnStack(a) && (forall i :: 0 <= i < |segs| ==> !Covers(segs[i], a)) ==>
              Walk(ram, root, 4, PathOf(a)) == Absent
  {
    hide *;
    FileRead(elf, h, segs);
    TableAt(elf, h, segs);
    SaneTable(elf, h, segs);
    WholeParts(ram, root, elf);
    LoadedStack(ram, root, elf, a);
    StackAddresses(a);
    forall i | 0 <= i < |segs| && !OnStack(a) && LastToCover(segs, i, a)
      ensures ReadsAs(ram, root, a, segs[i].flags / 2 % 2 == 1, SegmentByte(elf, segs[i], a))
    {
      LastSame(elf, segs, i, a);
      LoadedBytes(ram, root, elf, i, a);
      SameBytes(elf, segs[i], a);
    }
    if !OnStack(a) && (forall i :: 0 <= i < |segs| ==> !Covers(segs[i], a)) && Walk(ram, root, 4, PathOf(a)).Mapped? {
      var i: nat :| i < Count(elf) && InSegment(Segments(elf)[i], a / PAGE_SIZE);
      SameCover(segs[i], a);
    }
  }

  lemma SaneTable(elf: seq<u8>, h: FileHeader, segs: seq<Segment>)
    requires Sane(elf, h, segs)
    ensures h.phoff + 56 * |segs| <= |elf|
  {
  }

  lemma StackAddresses(a: nat)
    ensures OnStack(a) <==> USER_STACK_BASE <= a < USER_STACK_TOP + PAGE_SIZE
    ensures a / PAGE_SIZE in StackPages() <==> OnStack(a)
  {
  }

  lemma SameBytes(elf: seq<u8>, g: Segment, a: nat)
    requires g.offset + g.filesz <= |elf|
    ensures Writable(PhdrOf(g)) <==> g.flags / 2 % 2 == 1
    ensures var ph := PhdrOf(g);
            && ph.offset + ph.filesz <= |elf|
            && SegmentByte(elf, g, a) ==
               if ph.vaddr <= a < ph.vaddr + ph.filesz then elf[ph.offset + (a - ph.vaddr)] else 0
  {
  }

  lemma LastSame(elf: seq<u8>, segs: seq<Segment>, i: int, a: nat)
    requires EHDR_SIZE <= |elf| && Le(elf, 32, 8) + PHDR_SIZE * Count(elf) <= |elf| && Count(elf) == |segs|
    requires |Segments(elf)| == |segs| && forall j :: 0 <= j < |segs| ==> Segments(elf)[j] == PhdrOf(segs[j])
    requires LastToCover(segs, i, a) && !OnStack(a) && AllInBounds(elf, Segments(elf))
    ensures 0 <= i < |segs| && LastAt(Segments(elf), i, a / PAGE_SIZE)
    ensures segs[i].offset + segs[i].filesz <= |elf|
  {
    StackAddresses(a);
    hide Segments, Le, Covers, InSegment, PhdrOf, StackPages, OnStack;
    SameCover(segs[i], a);
    forall j | i < j < |segs| ensures !InSegment(Segments(elf)[j], a / PAGE_SIZE) {
      SameCover(segs[j], a);
    }
    CoverBounds(elf, segs[i], a) by { assert InBounds(elf, Segments(elf)[i]); }
  }

  lemma CoverBounds(elf: seq<u8>, g: Segment, a: nat)
    requires Covers(g, a) && InBounds(elf, PhdrOf(g))
    ensures g.offset + g.filesz <= |elf|
  {
  }
}
