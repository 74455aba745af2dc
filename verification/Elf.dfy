/**
 * What an ELF executable asks for: the flat image its program headers describe (System V gABI,
 * chapter 5, "Program Header"), as a map from user pages to bytes and permission, and the order in
 * which the loader visits those pages.
 */
module Elf {
  import opened Arith
  import opened BuddyAllocator
  import opened BuddySpec
  import opened PageTree
  import opened UserImage
  import opened LittleEndian
  import opened WordBytes

  const ELF_MAGIC: nat := 0x464C_457F
  const ELFCLASS64: nat := 2
  const EM_X86_64: nat := 62
  const PT_LOAD: nat := 1
  const PF_W: nat := 2
  const USER_STACK_BASE: nat := 0x7F_FFFF_E000
  const USER_STACK_TOP: nat := 0x7F_FFFF_F000
  const EHDR_SIZE: nat := 64
  const PHDR_SIZE: nat := 56

  datatype Phdr = Phdr(ptype: nat, flags: nat, offset: nat, vaddr: nat, filesz: nat, memsz: nat)

  function ReadPhdr(elf: seq<u8>, at: nat): Phdr
    requires at + PHDR_SIZE <= |elf|
  {
    Phdr(Le(elf, at, 4), Le(elf, at + 4, 4), Le(elf, at + 8, 8), Le(elf, at + 16, 8), Le(elf, at + 32, 8),
      Le(elf, at + 40, 8))
  }

  /** The checks on the ELF header. */
  predicate HeaderOk(elf: seq<u8>)
    requires EHDR_SIZE <= |elf|
  {
    Le(elf, 0, 4) == ELF_MAGIC && Le(elf, 4, 1) == ELFCLASS64 && Le(elf, 18, 2) == EM_X86_64
  }

  function Count(elf: seq<u8>): nat
    requires EHDR_SIZE <= |elf|
  {
    Le(elf, 56, 2)
  }

  /** Program header i, where the table lies inside the file. */
  function PhdrAt(elf: seq<u8>, i: nat): Phdr
    requires EHDR_SIZE <= |elf| && Le(elf, 32, 8) + PHDR_SIZE * Count(elf) <= |elf| && i < Count(elf)
  {
    ReadPhdr(elf, Le(elf, 32, 8) + PHDR_SIZE * i)
  }

  /** A loadable segment lies in the file and in user space. */
  predicate InBounds(elf: seq<u8>, ph: Phdr) {
    ph.ptype == PT_LOAD ==> ph.offset + ph.filesz <= |elf| && ph.vaddr + ph.memsz + PAGE_SIZE <= 0x8000_0000_0000
  }

  /** The program header table. */
  function Segments(elf: seq<u8>): (segs: seq<Phdr>)
    requires EHDR_SIZE <= |elf| && Le(elf, 32, 8) + PHDR_SIZE * Count(elf) <= |elf|
    ensures |segs| == Count(elf) && forall i :: 0 <= i < |segs| ==> segs[i] == PhdrAt(elf, i)
  {
    seq(Count(elf), i requires 0 <= i < Count(elf) => PhdrAt(elf, i))
  }

  ghost predicate AllInBounds(elf: seq<u8>, segs: seq<Phdr>) {
    forall i :: 0 <= i < |segs| ==> InBounds(elf, segs[i])
  }

  ghost predicate WellFormed(elf: seq<u8>) {
    && EHDR_SIZE <= |elf|
    && (HeaderOk(elf) ==> Le(elf, 32, 8) + PHDR_SIZE * Count(elf) <= |elf| && AllInBounds(elf, Segments(elf)))
  }

  /** First page of a segment, and the page after its last. */
  function FirstPage(ph: Phdr): nat {
    ph.vaddr / PAGE_SIZE
  }

  function EndPage(ph: Phdr): nat {
    (ph.vaddr + ph.memsz + PAGE_SIZE - 1) / PAGE_SIZE
  }

  /** The byte the segment puts at address a. */
  function ImageByte(elf: seq<u8>, ph: Phdr, a: nat): u8 {
    if ph.vaddr <= a < ph.vaddr + ph.filesz && ph.offset + (a - ph.vaddr) < |elf|
    then elf[ph.offset + (a - ph.vaddr)] else 0
  }

  /** The first n bytes the segment puts at a and up. */
  function Image(elf: seq<u8>, ph: Phdr, a: nat, n: nat): (s: seq<u8>)
    ensures |s| == n && forall j :: 0 <= j < n ==> s[j] == ImageByte(elf, ph, a + j)
  {
    if n == 0 then [] else Image(elf, ph, a, n - 1) + [ImageByte(elf, ph, a + n - 1)]
  }

  function PageImage(elf: seq<u8>, ph: Phdr, page: nat): Bytes {
    Image(elf, ph, PAGE_SIZE * page, 4096)
  }

  function Writable(ph: Phdr): bool {
    ph.flags / PF_W % 2 == 1
  }

  /** The flags of a user page's entry. */
  function EntryFlags(writable: bool): nat {
    PRESENT + USER + if writable then WRITE else 0
  }

  /** Pages [first, end) of a segment. */
  ghost function SegmentPages(elf: seq<u8>, ph: Phdr, end: nat): map<nat, Mapping>
    requires ph.offset + ph.filesz <= |elf|
  {
    map page: nat | FirstPage(ph) <= page < end :: Mapping(ToWords(PageImage(elf, ph, page)), EntryFlags(Writable(ph)))
  }

  /** The pages of the first n segments, a later one covering an earlier. */
  ghost function Loaded(elf: seq<u8>, segs: seq<Phdr>, n: nat): map<nat, Mapping>
    requires AllInBounds(elf, segs) && n <= |segs|
  {
    if n == 0 then map[]
    else if segs[n - 1].ptype != PT_LOAD then Loaded(elf, segs, n - 1)
    else Loaded(elf, segs, n - 1) + SegmentPages(elf, segs[n - 1], EndPage(segs[n - 1]))
  }

  ghost function StackPages(): map<nat, Mapping> {
    var zeros := Mapping(Filled(0), EntryFlags(true));
    map[USER_STACK_BASE / PAGE_SIZE := zeros, USER_STACK_TOP / PAGE_SIZE := zeros]
  }

  /** The pages from first up to end, in order. */
  function PagesIn(first: nat, end: nat): (s: seq<nat>)
    ensures |s| == if end <= first then 0 else end - first
    ensures forall i :: 0 <= i < |s| ==> s[i] == first + i
  {
    if end <= first then [] else PagesIn(first, end - 1) + [end - 1]
  }

  /** The pages the loader maps for a program header. */
  function SegmentVisits(ph: Phdr): seq<nat> {
    if ph.ptype != PT_LOAD then [] else PagesIn(FirstPage(ph), EndPage(ph))
  }

  /** The pages it maps for the first n headers, in the order of their loading. */
  function Visits(segs: seq<Phdr>, n: nat): seq<nat>
    requires n <= |segs|
  {
    if n == 0 then [] else Visits(segs, n - 1) + SegmentVisits(segs[n - 1])
  }

  const STACK_VISITS: seq<nat> := [USER_STACK_BASE / PAGE_SIZE, USER_STACK_TOP / PAGE_SIZE]

  /** All the pages it maps, the two of the stack last. */
  function AllVisits(elf: seq<u8>): seq<nat>
    requires EHDR_SIZE <= |elf| && Le(elf, 32, 8) + PHDR_SIZE * Count(elf) <= |elf|
  {
    Visits(Segments(elf), Count(elf)) + STACK_VISITS
  }

  predicate InSegment(ph: Phdr, page: nat) {
    ph.ptype == PT_LOAD && FirstPage(ph) <= page < EndPage(ph)
  }

  /** No page of one segment is a page of another or of the stack. */
  ghost predicate PageDisjoint(segs: seq<Phdr>) {
    && (forall i, j, page: nat :: 0 <= i < j < |segs| && InSegment(segs[i], page) ==> !InSegment(segs[j], page))
    && (forall i, page: nat :: 0 <= i < |segs| && InSegment(segs[i], page) ==> page !in StackPages())
  }

  /** Segment i is the last one to cover the page, and the stack does not. */
  ghost predicate LastAt(segs: seq<Phdr>, i: nat, page: nat) {
    && i < |segs| && InSegment(segs[i], page) && page !in StackPages()
    && forall j :: i < j < |segs| ==> !InSegment(segs[j], page)
  }

  lemma DisjointLast(segs: seq<Phdr>, i: nat, page: nat)
    requires PageDisjoint(segs) && i < |segs| && InSegment(segs[i], page)
    ensures LastAt(segs, i, page)
  {
    hide StackPages, FirstPage, EndPage;
  }

  lemma {:induction false} LoadedPage(elf: seq<u8>, segs: seq<Phdr>, n: nat, i: nat, page: nat)
    requires AllInBounds(elf, segs) && i < n <= |segs| && InSegment(segs[i], page)
    requires forall j :: i < j < n ==> !InSegment(segs[j], page)
    ensures InBounds(elf, segs[i])
    ensures page in Loaded(elf, segs, n)
    ensures Loaded(elf, segs, n)[page] == Mapping(ToWords(PageImage(elf, segs[i], page)), EntryFlags(Writable(segs[i])))
    decreases n
  {
    hide PageImage, Writable, StackPages, FirstPage, EndPage;
    if i < n - 1 {
      LoadedPage(elf, segs, n - 1, i, page);
      assert !InSegment(segs[n - 1], page);
    }
  }

  lemma {:induction false} OnlyLoaded(elf: seq<u8>, segs: seq<Phdr>, n: nat, page: nat)
    requires AllInBounds(elf, segs) && n <= |segs| && page in Loaded(elf, segs, n)
    ensures exists i: nat :: i < n && InSegment(segs[i], page)
    decreases n
  {
    hide PageImage, Writable, FirstPage, EndPage;
    if n > 0 && page in Loaded(elf, segs, n - 1) {
      OnlyLoaded(elf, segs, n - 1, page);
    } else {
      assert InSegment(segs[n - 1], page);
    }
  }

  /** The byte at address a, where a is mapped. */
  function ByteAt(pages: map<nat, Mapping>, a: nat): u8
    requires a / PAGE_SIZE in pages
  {
    ByteIn(pages[a / PAGE_SIZE].content, a % PAGE_SIZE)
  }

  /** The pages of a segment are those with a byte of it in memory, padded to whole pages. */
  lemma SegmentAddresses(ph: Phdr, a: nat)
    ensures ph.vaddr <= a < ph.vaddr + ph.memsz ==> FirstPage(ph) <= a / PAGE_SIZE < EndPage(ph)
    ensures FirstPage(ph) <= a / PAGE_SIZE < EndPage(ph) && ph.memsz > 0 ==>
              exists b: nat :: b / PAGE_SIZE == a / PAGE_SIZE && ph.vaddr <= b < ph.vaddr + ph.memsz
  {
    if FirstPage(ph) <= a / PAGE_SIZE < EndPage(ph) && ph.memsz > 0 {
      var start := a / PAGE_SIZE * PAGE_SIZE;
      var b := if start < ph.vaddr then ph.vaddr else start;
      assert b / PAGE_SIZE == a / PAGE_SIZE;
    }
  }

  /** Byte a of the last segment that covers its page, in the flat image. */
  lemma FlatBytes(elf: seq<u8>, segs: seq<Phdr>, i: nat, a: nat)
    requires AllInBounds(elf, segs) && LastAt(segs, i, a / PAGE_SIZE)
    ensures var ph, pages := segs[i], Loaded(elf, segs, |segs|) + StackPages();
            && InBounds(elf, ph) && a / PAGE_SIZE in pages && pages[a / PAGE_SIZE].flags == EntryFlags(Writable(ph))
            && ByteAt(pages, a) == if ph.vaddr <= a < ph.vaddr + ph.filesz then elf[ph.offset + (a - ph.vaddr)] else 0
  {
    LoadedPage(elf, segs, |segs|, i, a / PAGE_SIZE);
    assert a / PAGE_SIZE !in StackPages();
    WrittenByte(elf, segs[i], a);
    hide AllInBounds, LastAt, InSegment, Loaded, StackPages, Writable, EntryFlags, ByteIn, PageImage, ToWords;
  }

  lemma WrittenByte(elf: seq<u8>, ph: Phdr, a: nat)
    ensures ByteIn(ToWords(PageImage(elf, ph, a / PAGE_SIZE)), a % PAGE_SIZE) == ImageByte(elf, ph, a)
  {
    ByteInWords(PageImage(elf, ph, a / PAGE_SIZE), a % PAGE_SIZE);
    hide ByteIn, ToWords, ImageByte;
    assert a == PAGE_SIZE * (a / PAGE_SIZE) + a % PAGE_SIZE;
  }

  /** The stack in the flat image, and what else is in it. */
  lemma FlatStack(elf: seq<u8>, segs: seq<Phdr>, a: nat)
    requires AllInBounds(elf, segs)
    ensures var pages := Loaded(elf, segs, |segs|) + StackPages();
            && (USER_STACK_BASE <= a < USER_STACK_TOP + PAGE_SIZE ==>
                  a / PAGE_SIZE in pages && pages[a / PAGE_SIZE].flags == EntryFlags(true) && ByteAt(pages, a) == 0)
            && (a / PAGE_SIZE in pages && !(USER_STACK_BASE <= a < USER_STACK_TOP + PAGE_SIZE) ==>
                  exists i: nat :: i < |segs| && InSegment(segs[i], a / PAGE_SIZE))
  {
    if a / PAGE_SIZE in Loaded(elf, segs, |segs|) {
      OnlyLoaded(elf, segs, |segs|, a / PAGE_SIZE);
    }
    ZeroByte(a % PAGE_SIZE);
    hide AllInBounds, InSegment, Loaded, ByteIn, EntryFlags;
  }

  /** Two segments in one page: the page is taken twice, and the bytes of the first segment are lost. */
  lemma SharedPage(elf: seq<u8>) returns (segs: seq<Phdr>)
    requires |elf| >= 0x1000 && elf[0] != 0
    ensures AllInBounds(elf, segs) && |segs| == 2 && segs[0].vaddr + segs[0].memsz == segs[1].vaddr
    ensures ImageByte(elf, segs[0], segs[0].vaddr) == elf[0] && segs[0].vaddr / PAGE_SIZE in Loaded(elf, segs, 2)
    ensures ByteAt(Loaded(elf, segs, 2), segs[0].vaddr) == 0 && Repeats(Visits(segs, 2)) == 1
  {
    var text, data := Phdr(PT_LOAD, 5, 0, 0x40_0000, 0x800, 0x800), Phdr(PT_LOAD, 6, 0x800, 0x40_0800, 0x800, 0x800);
    segs := [text, data];
    assert segs[..1] == [text];
    LoadedPage(elf, segs, 2, 1, 0x400);
    WrittenByte(elf, data, 0x40_0000);
    hide ByteIn, ToWords, PageImage, Visits, Loaded;
    SharedVisits(segs, text, data);
  }

  lemma SharedVisits(segs: seq<Phdr>, text: Phdr, data: Phdr)
    requires segs == [text, data] && text.ptype == PT_LOAD == data.ptype
    requires text.vaddr == 0x40_0000 && data.vaddr == 0x40_0800 && text.memsz == 0x800 == data.memsz
    ensures Repeats(Visits(segs, 2)) == 1
  {
    assert PagesIn(0x400, 0x401) == [0x400];
    assert Visits(segs, 0) == [];
    assert Visits(segs, 1) == [0x400];
    assert Visits(segs, 2) == [0x400] + [0x400];
    RepeatsStep([], 0x400);
    RepeatsStep([0x400], 0x400);
    assert [] + [0x400] == [0x400];
  }
}
