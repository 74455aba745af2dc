/**
 * elf_load_segments on the page allocator and the page tables: every page is allocated, zeroed, filled
 * with the part of the file that falls into it and mapped; the page tables then stand for the flat image.
 */
module ElfLoad {
  import opened Arith
  import opened Blocks
  import opened BuddySpec
  import opened BuddyAllocator
  import opened PageTree
  import opened PageTables
  import opened AddressSpaces
  import opened LittleEndian
  import opened WordBytes
  import opened UserImage
  import opened Elf

  /** What one page of a segment is filled with: zeros, and the part of the file that falls into it. */
  method FillPage(b: Buddy, page: nat, elf: seq<u8>, ph: Phdr, va: nat)
    requires b.Ok() && page < |b.ram| && page !in b.free
    requires ph.offset + ph.filesz <= |elf| && va % PAGE_SIZE == 0
    modifies b`ram
    ensures b.Ok() && b.ram == old(b.ram)[page := ToWords(PageImage(elf, ph, va / PAGE_SIZE))]
  {
    hide *;
    ghost var r0 := b.ram;
    PageStart(va);
    ZeroTable(b, page);
    var segStart, segFileEnd := ph.vaddr, ph.vaddr + ph.filesz;
    if va + 4096 > segStart && va < segFileEnd {
      var copyStart := if va > segStart then va else segStart;
      var copyEnd := if va + 4096 < segFileEnd then va + 4096 else segFileEnd;
      var srcOff := ph.offset + (copyStart - segStart);
      var dstOff := copyStart - va;
      ZerosLength();
      var bytes := Zeros()[..dstOff] + elf[srcOff..srcOff + (copyEnd - copyStart)]
        + Zeros()[dstOff + (copyEnd - copyStart)..];
      ClampedCopy(elf, ph, va, copyStart, copyEnd);
      b.Store(page, ToWords(bytes));
      assert b.ram == r0[page := ToWords(bytes)];
    } else {
      NothingToCopy(elf, ph, va);
    }
  }

  lemma PageStart(va: nat)
    requires va % PAGE_SIZE == 0
    ensures va == 4096 * (va / PAGE_SIZE) && PAGE_SIZE == 4096
  {
  }

  lemma ZerosLength()
    ensures |Zeros()| == 4096
  {
  }

  lemma ClampedCopy(elf: seq<u8>, ph: Phdr, va: nat, copyStart: nat, copyEnd: nat)
    requires ph.offset + ph.filesz <= |elf| && va % PAGE_SIZE == 0
    requires va + PAGE_SIZE > ph.vaddr && va < ph.vaddr + ph.filesz
    requires copyStart == if va > ph.vaddr then va else ph.vaddr
    requires copyEnd == if va + PAGE_SIZE < ph.vaddr + ph.filesz then va + PAGE_SIZE else ph.vaddr + ph.filesz
    ensures var srcOff, dstOff := ph.offset + (copyStart - ph.vaddr), copyStart - va;
            && copyStart <= copyEnd && srcOff + (copyEnd - copyStart) <= |elf| && dstOff + (copyEnd - copyStart) <= 4096
            && Zeros()[..dstOff] + elf[srcOff..srcOff + (copyEnd - copyStart)]
               + Zeros()[dstOff + (copyEnd - copyStart)..]
               == PageImage(elf, ph, va / PAGE_SIZE)
  {
    PageStart(va);
  }

  lemma NothingToCopy(elf: seq<u8>, ph: Phdr, va: nat)
    requires va % PAGE_SIZE == 0 && !(va + 4096 > ph.vaddr && va < ph.vaddr + ph.filesz)
    ensures ToWords(PageImage(elf, ph, va / PAGE_SIZE)) == Filled(0)
  {
    PageStart(va);
    ZeroWords();
    assert PageImage(elf, ph, va / PAGE_SIZE) == Zeros();
  }

  /** One page of a segment: allocate it, fill it, map it. */
  method LoadPage(b: Buddy, root: nat, elf: seq<u8>, ph: Phdr, va: nat, ghost k: nat, ghost s: Start,
                  ghost pr: Progress)
    returns (ok: bool, ghost pr': Progress)
    requires b.Ok() && ph.offset + ph.filesz <= |elf| && va == 4096 * k && k < USER_PAGES
    requires Loading(s, b.ram, b.free, b.live, root, pr)
    requires b.free == {} || Cost(pr.visited + [k]) - Cost(pr.visited) <= |b.free|
    modifies b`ram, b`lists, b`free, b`live, b.freeLists
    ensures b.Ok() && Loading(s, b.ram, b.free, b.live, root, pr')
    ensures ok <==> old(b.free) != {}
    ensures !ok ==> pr' == pr && b.free == {}
    ensures ok ==>
              && pr'.pages == pr.pages[k := Mapping(ToWords(PageImage(elf, ph, k)), EntryFlags(Writable(ph)))]
              && pr'.visited == pr.visited + [k]
  {
    hide *;
    ghost var r1, free1 := b.ram, b.free;
    pr' := pr;
    LoadingParts(s, r1, free1, b.live, root, pr);
    var addr, page := AllocPage(b);
    ok := addr != 0;
    if !ok { return; }
    PageOf(k);
    ghost var r2 := b.ram;
    FillPage(b, page, elf, ph, va);
    ghost var content := ToWords(PageImage(elf, ph, k));
    FillingIntro(r1, r2, b.ram, free1, page, content);
    var flags := if Writable(ph) then USER + WRITE else USER;
    LeafFlags(Writable(ph));
    pr' := MapData(b, root, va, page, flags, content, k, s, r1, pr);
  }

  /** The flags the loader passes on, and the entry they make. */
  lemma LeafFlags(writable: bool)
    ensures var flags := if writable then USER + WRITE else USER;
            flags < 4096 && IsUser(flags) && OrPresent(flags) == EntryFlags(writable)
  {
  }

  lemma PageOf(k: nat)
    ensures PAGE_SIZE == 4096 && 4096 * k / PAGE_SIZE == k && 4096 * k % PAGE_SIZE == 0
  {
  }

  /** One page of the stack. */
  method LoadStackPage(b: Buddy, root: nat, va: nat, ghost k: nat, ghost s: Start, ghost pr: Progress)
    returns (ok: bool, ghost pr': Progress)
    requires b.Ok() && va == 4096 * k && k < USER_PAGES
    requires Loading(s, b.ram, b.free, b.live, root, pr)
    requires b.free == {} || Cost(pr.visited + [k]) - Cost(pr.visited) <= |b.free|
    modifies b`ram, b`lists, b`free, b`live, b.freeLists
    ensures b.Ok() && Loading(s, b.ram, b.free, b.live, root, pr')
    ensures ok <==> old(b.free) != {}
    ensures !ok ==> pr' == pr && b.free == {}
    ensures ok ==> pr'.pages == pr.pages[k := Mapping(Filled(0), EntryFlags(true))] && pr'.visited == pr.visited + [k]
  {
    hide *;
    ghost var r1, free1 := b.ram, b.free;
    pr' := pr;
    LoadingParts(s, r1, free1, b.live, root, pr);
    var addr, page := AllocPage(b);
    ok := addr != 0;
    if !ok { return; }
    PageOf(k);
    ghost var r2 := b.ram;
    ZeroTable(b, page);
    FillingIntro(r1, r2, b.ram, free1, page, Filled(0));
    LeafFlags(true);
    pr' := MapData(b, root, va, page, USER + WRITE, Filled(0), k, s, r1, pr);
  }

  /** The pages still to be mapped after pr are those of all, and memory is ample for them. */
  ghost predicate Ahead(s: Start, pr: Progress, next: seq<nat>, all: seq<nat>) {
    pr.visited + next <= all && Ample(all, |s.free|)
  }

  /** The next page's tables fit if there is a page for its data. */
  lemma NextFits(s: Start, ram: Memory, free: set<nat>, live: set<Block>, root: nat, pr: Progress, next: seq<nat>,
                 all: seq<nat>)
    requires Loading(s, ram, free, live, root, pr) && Ahead(s, pr, next, all) && next != []
    ensures free == {} || Cost(pr.visited + [next[0]]) - Cost(pr.visited) <= |free|
    ensures pr.visited < all
  {
    hide *;
    LoadingParts(s, ram, free, live, root, pr);
    AheadParts(s, pr, next, all);
    AmpleNext(all, |s.free|, pr.visited, next[0]);
  }

  lemma AheadParts(s: Start, pr: Progress, next: seq<nat>, all: seq<nat>)
    requires Ahead(s, pr, next, all) && next != []
    ensures Ample(all, |s.free|) && pr.visited + [next[0]] <= all && pr.visited < all
  {
    hide Ample;
    assert pr.visited + [next[0]] <= pr.visited + next;
  }

  /** The loop over the pages of one segment. */
  method LoadSegment(b: Buddy, root: nat, elf: seq<u8>, ph: Phdr, ghost s: Start, ghost pr: Progress,
                     ghost all: seq<nat>)
    returns (rc: int, ghost pr': Progress)
    requires b.Ok() && ph.ptype == PT_LOAD && InBounds(elf, ph)
    requires Loading(s, b.ram, b.free, b.live, root, pr) && Ahead(s, pr, SegmentVisits(ph), all)
    modifies b`ram, b`lists, b`free, b`live, b.freeLists
    ensures b.Ok() && Loading(s, b.ram, b.free, b.live, root, pr') && (rc == 0 || rc == -1)
    ensures ph.offset + ph.filesz <= |elf|
    ensures rc == 0 ==>
              && pr'.pages == pr.pages + SegmentPages(elf, ph, EndPage(ph))
              && pr'.visited == pr.visited + SegmentVisits(ph)
    ensures rc != 0 ==> b.free == {} && pr'.visited < all
  {
    hide *;
    var vaStart, vaEnd := FirstPage(ph) * 4096, EndPage(ph) * 4096;
    var va := vaStart;
    ghost var k := FirstPage(ph);
    pr' := pr;
    SegmentStart(pr, elf, ph);
    while va < vaEnd
      invariant va == 4096 * k && FirstPage(ph) <= k <= EndPage(ph)
      invariant b.Ok() && Loading(s, b.ram, b.free, b.live, root, pr')
      invariant pr'.pages == pr.pages + SegmentPages(elf, ph, k)
      invariant pr'.visited == pr.visited + PagesIn(FirstPage(ph), k)
    {
      SegmentAhead(s, pr, pr', elf, ph, k, all);
      NextFits(s, b.ram, b.free, b.live, root, pr', [k], all);
      SegmentMore(pr.pages, elf, ph, k);
      var ok;
      ok, pr' := LoadPage(b, root, elf, ph, va, k, s, pr');
      if !ok { return -1, pr'; }
      va := va + 4096;
      k := k + 1;
    }
    SegmentEnd(ph);
    rc := 0;
  }

  lemma SegmentStart(pr: Progress, elf: seq<u8>, ph: Phdr)
    requires InBounds(elf, ph) && ph.ptype == PT_LOAD
    ensures ph.offset + ph.filesz <= |elf| && FirstPage(ph) <= EndPage(ph)
    ensures pr.pages == pr.pages + SegmentPages(elf, ph, FirstPage(ph))
    ensures pr.visited == pr.visited + PagesIn(FirstPage(ph), FirstPage(ph))
  {
  }

  lemma SegmentEnd(ph: Phdr)
    requires ph.ptype == PT_LOAD
    ensures SegmentVisits(ph) == PagesIn(FirstPage(ph), EndPage(ph))
  {
  }

  lemma SegmentAhead(s: Start, pr: Progress, pr': Progress, elf: seq<u8>, ph: Phdr, k: nat, all: seq<nat>)
    requires InBounds(elf, ph) && ph.ptype == PT_LOAD && FirstPage(ph) <= k < EndPage(ph)
    requires Ahead(s, pr, SegmentVisits(ph), all) && pr'.visited == pr.visited + PagesIn(FirstPage(ph), k)
    ensures Ahead(s, pr', [k], all) && k < USER_PAGES
  {
    SegmentUpTo(elf, ph, k);
    hide Ample, SegmentVisits, PagesIn, FirstPage, EndPage;
    assert pr'.visited + [k] == pr.visited + (PagesIn(FirstPage(ph), k) + [k]);
  }

  lemma SegmentUpTo(elf: seq<u8>, ph: Phdr, k: nat)
    requires InBounds(elf, ph) && ph.ptype == PT_LOAD && FirstPage(ph) <= k < EndPage(ph)
    ensures PagesIn(FirstPage(ph), k) + [k] <= SegmentVisits(ph) && k < USER_PAGES
  {
    PagesStart(FirstPage(ph), k, EndPage(ph));
  }

  lemma PagesStart(first: nat, k: nat, end: nat)
    requires first <= k < end
    ensures PagesIn(first, k) + [k] <= PagesIn(first, end)
  {
  }

  lemma SegmentMore(pages: map<nat, Mapping>, elf: seq<u8>, ph: Phdr, end: nat)
    requires InBounds(elf, ph) && ph.ptype == PT_LOAD && FirstPage(ph) <= end
    ensures ph.offset + ph.filesz <= |elf|
    ensures (pages + SegmentPages(elf, ph, end))[end :=
            Mapping(ToWords(PageImage(elf, ph, end)), EntryFlags(Writable(ph)))]
         == pages + SegmentPages(elf, ph, end + 1)
    ensures PagesIn(FirstPage(ph), end + 1) == PagesIn(FirstPage(ph), end) + [end]
  {
    hide PageImage, Writable, FirstPage;
  }

  /** The loop over the two pages of the user stack. */
  method MapStack(b: Buddy, root: nat, ghost s: Start, ghost pr: Progress, ghost all: seq<nat>)
    returns (rc: int, ghost pr': Progress)
    requires b.Ok() && Loading(s, b.ram, b.free, b.live, root, pr) && Ahead(s, pr, STACK_VISITS, all)
    modifies b`ram, b`lists, b`free, b`live, b.freeLists
    ensures b.Ok() && Loading(s, b.ram, b.free, b.live, root, pr') && (rc == 0 || rc == -1)
    ensures rc == 0 ==> pr'.pages == pr.pages + StackPages() && pr'.visited == pr.visited + STACK_VISITS
    ensures rc != 0 ==> b.free == {} && pr'.visited < all
  {
    hide *;
    StackNumbers();
    pr' := pr;
    var va := USER_STACK_BASE;
    ghost var i := 0;
    StackStart(pr);
    while va < USER_STACK_TOP + 4096
      invariant i <= 2 && va == USER_STACK_BASE + 4096 * i
      invariant b.Ok() && Loading(s, b.ram, b.free, b.live, root, pr')
      invariant StackSoFar(pr, pr', i)
    {
      ghost var k := STACK_VISITS[i];
      StackAhead(s, pr, pr', i, all);
      NextFits(s, b.ram, b.free, b.live, root, pr', [k], all);
      ghost var before := pr';
      var ok;
      ok, pr' := LoadStackPage(b, root, va, k, s, pr');
      if !ok { return -1, pr'; }
      StackMore(pr, before, pr', i);
      va := va + 4096;
      i := i + 1;
    }
    StackDone(pr, pr');
    rc := 0;
  }

  lemma StackNumbers()
    ensures USER_STACK_BASE == 0x7F_FFFF_E000 && USER_STACK_TOP == 0x7F_FFFF_F000
    ensures |STACK_VISITS| == 2 && STACK_VISITS[0] == 0x7FF_FFFE && STACK_VISITS[1] == 0x7FF_FFFF
    ensures USER_PAGES == 0x8_0000_0000
  {
  }

  ghost predicate StackSoFar(pr: Progress, pr': Progress, i: nat) {
    && i <= 2 && pr'.visited == pr.visited + STACK_VISITS[..i]
    && pr'.pages == if i == 0 then pr.pages
                    else if i == 1 then pr.pages[STACK_VISITS[0] := Mapping(Filled(0), EntryFlags(true))]
                    else pr.pages + StackPages()
  }

  lemma StackStart(pr: Progress)
    ensures StackSoFar(pr, pr, 0)
  {
  }

  lemma StackAhead(s: Start, pr: Progress, pr': Progress, i: nat, all: seq<nat>)
    requires Ahead(s, pr, STACK_VISITS, all) && StackSoFar(pr, pr', i) && i < 2
    ensures Ahead(s, pr', [STACK_VISITS[i]], all)
  {
    hide Ample;
    assert STACK_VISITS[..i] + [STACK_VISITS[i]] <= STACK_VISITS;
    assert pr'.visited + [STACK_VISITS[i]] == pr.visited + (STACK_VISITS[..i] + [STACK_VISITS[i]]);
  }

  lemma StackMore(pr: Progress, before: Progress, after: Progress, i: nat)
    requires StackSoFar(pr, before, i) && i < 2
    requires after.pages == before.pages[STACK_VISITS[i] := Mapping(Filled(0), EntryFlags(true))]
    requires after.visited == before.visited + [STACK_VISITS[i]]
    ensures StackSoFar(pr, after, i + 1)
  {
    hide Zeros;
  }

  lemma StackDone(pr: Progress, pr': Progress)
    requires StackSoFar(pr, pr', 2)
    ensures pr'.pages == pr.pages + StackPages() && pr'.visited == pr.visited + STACK_VISITS
  {
  }

  /** What loading needs to begin with: a fresh root, and memory that suits the file. */
  ghost predicate CanLoad(ram: Memory, free: set<nat>, root: nat, elf: seq<u8>) {
    && WellFormed(elf) && Fresh(ram, free, root)
    && (HeaderOk(elf) ==> Ample(AllVisits(elf), |free|))
  }

  /**
   * elf_load_segments into a fresh address space. It succeeds exactly when the header is right and the
   * data pages and all their tables fit in free memory; the page tables then stand for the segments,
   * a later one covering an earlier, and the stack, and map nothing else. When it fails for want of
   * memory none is left.
   */
  method LoadSegments(b: Buddy, root: nat, elf: seq<u8>) returns (rc: int, entry: nat, ghost pr: Progress)
    requires b.Ok() && CanLoad(b.ram, b.free, root, elf)
    modifies b`ram, b`lists, b`free, b`live, b.freeLists
    ensures b.Ok() && (rc == 0 || rc == -1) && WellFormed(elf)
    ensures Loading(old(Start(b.ram, b.free, b.live)), b.ram, b.free, b.live, root, pr)
    ensures rc == 0 <==> HeaderOk(elf) && Cost(AllVisits(elf)) <= |old(b.free)|
    ensures rc == 0 ==> entry == Le(elf, 24, 8) && pr.visited == AllVisits(elf) && WholeImage(b.ram, root, elf)
    ensures rc != 0 && HeaderOk(elf) ==> b.free == {} && pr.visited < AllVisits(elf)
    ensures !HeaderOk(elf) ==> b.ram == old(b.ram) && b.free == old(b.free) && b.live == old(b.live) && pr.visited == []
  {
    hide *;
    ghost var s := Start(b.ram, b.free, b.live);
    CanLoadParts(s, root, elf);
    pr := Progress(map[], [], {});
    entry := 0;
    if !HeaderOk(elf) { return -1, entry, pr; }
    ghost var segs, all := Segments(elf), AllVisits(elf);
    LoadStart(elf);
    for i := 0 to Count(elf)
      invariant b.Ok() && Loading(s, b.ram, b.free, b.live, root, pr)
      invariant pr.pages == Loaded(elf, segs, i) && pr.visited == Visits(segs, i)
    {
      var ph := PhdrAt(elf, i);
      LoadNext(s, pr, elf, i);
      if ph.ptype == PT_LOAD {
        rc, pr := LoadSegment(b, root, elf, ph, s, pr, all);
        if rc != 0 {
          LoadFailed(s, b.ram, b.free, b.live, root, pr, all);
          return -1, entry, pr;
        }
      }
    }
    StackNext(s, pr, elf);
    rc, pr := MapStack(b, root, s, pr, all);
    if rc != 0 {
      LoadFailed(s, b.ram, b.free, b.live, root, pr, all);
      return -1, entry, pr;
    }
    LoadDone(s, b.ram, b.free, b.live, root, pr, elf);
    entry := Le(elf, 24, 8);
  }

  /** The page tables stand for the segments and the stack. */
  ghost predicate WholeImage(ram: Memory, root: nat, elf: seq<u8>)
    requires WellFormed(elf)
  {
    && HeaderOk(elf) && Tree(ram, root, 4) && OpenTables(ram, root, 4)
    && Refines(ram, root, Loaded(elf, Segments(elf), Count(elf)) + StackPages())
  }

  lemma CanLoadParts(s: Start, root: nat, elf: seq<u8>)
    requires CanLoad(s.ram, s.free, root, elf)
    ensures WellFormed(elf) && EHDR_SIZE <= |elf|
    ensures Loading(s, s.ram, s.free, s.live, root, Progress(map[], [], {}))
    ensures HeaderOk(elf) ==> Le(elf, 32, 8) + PHDR_SIZE * Count(elf) <= |elf| && Ample(AllVisits(elf), |s.free|)
  {
    FreshLoading(s, root);
    hide Tree, Footprint, Ample, Loading, Unmapped, AllVisits;
  }

  lemma LoadStart(elf: seq<u8>)
    requires WellFormed(elf) && EHDR_SIZE <= |elf| && HeaderOk(elf)
    ensures Le(elf, 32, 8) + PHDR_SIZE * Count(elf) <= |elf| && AllInBounds(elf, Segments(elf))
    ensures 64 <= |elf| && |Segments(elf)| == Count(elf)
    ensures Loaded(elf, Segments(elf), 0) == map[] && Visits(Segments(elf), 0) == []
  {
  }

  lemma {:induction false} VisitsPrefix(segs: seq<Phdr>, i: nat, n: nat)
    requires i <= n <= |segs|
    ensures Visits(segs, i) <= Visits(segs, n)
    decreases n
  {
    hide SegmentVisits;
    if i < n { VisitsPrefix(segs, i, n - 1); }
  }

  lemma LoadNext(s: Start, pr: Progress, elf: seq<u8>, i: nat)
    requires WellFormed(elf) && EHDR_SIZE <= |elf| && HeaderOk(elf) && i < Count(elf)
    requires Le(elf, 32, 8) + PHDR_SIZE * Count(elf) <= |elf| && AllInBounds(elf, Segments(elf))
    requires pr.visited == Visits(Segments(elf), i) && Ample(AllVisits(elf), |s.free|)
    ensures var segs, ph := Segments(elf), PhdrAt(elf, i);
            && InBounds(elf, ph) && Ahead(s, pr, SegmentVisits(ph), AllVisits(elf))
            && Visits(segs, i + 1) == Visits(segs, i) + SegmentVisits(ph)
            && (ph.ptype != PT_LOAD ==> SegmentVisits(ph) == [] && Loaded(elf, segs, i + 1) == Loaded(elf, segs, i))
            && (ph.ptype == PT_LOAD ==>
                  && ph.offset + ph.filesz <= |elf|
                  && Loaded(elf, segs, i + 1) == Loaded(elf, segs, i) + SegmentPages(elf, ph, EndPage(ph)))
  {
    hide *;
    var segs, n := Segments(elf), i + 1;
    SegmentAt(elf, i);
    VisitsPrefix(segs, n, Count(elf));
    LoadedStep(elf, segs, i);
    AllVisitsIs(elf);
    AheadIntro(s, pr, SegmentVisits(segs[i]), Visits(segs, Count(elf)), STACK_VISITS);
  }

  lemma SegmentAt(elf: seq<u8>, i: nat)
    requires EHDR_SIZE <= |elf| && Le(elf, 32, 8) + PHDR_SIZE * Count(elf) <= |elf| && i < Count(elf)
    requires AllInBounds(elf, Segments(elf))
    ensures |Segments(elf)| == Count(elf) && Segments(elf)[i] == PhdrAt(elf, i) && InBounds(elf, PhdrAt(elf, i))
    ensures PhdrAt(elf, i).ptype == PT_LOAD ==> PhdrAt(elf, i).offset + PhdrAt(elf, i).filesz <= |elf|
  {
    hide Le, ReadPhdr, PhdrAt, Segments;
    assert InBounds(elf, Segments(elf)[i]);
  }

  lemma LoadedStep(elf: seq<u8>, segs: seq<Phdr>, i: nat)
    requires AllInBounds(elf, segs) && i < |segs|
    ensures var ph := segs[i];
            && Visits(segs, i + 1) == Visits(segs, i) + SegmentVisits(ph)
            && (ph.ptype != PT_LOAD ==> SegmentVisits(ph) == [] && Loaded(elf, segs, i + 1) == Loaded(elf, segs, i))
            && (ph.ptype == PT_LOAD ==>
                  && ph.offset + ph.filesz <= |elf|
                  && Loaded(elf, segs, i + 1) == Loaded(elf, segs, i) + SegmentPages(elf, ph, EndPage(ph)))
  {
    hide SegmentPages, PagesIn, EndPage, FirstPage;
    assert InBounds(elf, segs[i]);
  }

  lemma AllVisitsIs(elf: seq<u8>)
    requires EHDR_SIZE <= |elf| && Le(elf, 32, 8) + PHDR_SIZE * Count(elf) <= |elf|
    ensures AllVisits(elf) == Visits(Segments(elf), Count(elf)) + STACK_VISITS
  {
    hide Le, Segments, Visits;
  }

  lemma AheadIntro(s: Start, pr: Progress, next: seq<nat>, most: seq<nat>, rest: seq<nat>)
    requires pr.visited + next <= most && Ample(most + rest, |s.free|)
    ensures Ahead(s, pr, next, most + rest)
  {
    hide Ample;
  }

  lemma StackNext(s: Start, pr: Progress, elf: seq<u8>)
    requires WellFormed(elf) && EHDR_SIZE <= |elf| && HeaderOk(elf)
    requires Le(elf, 32, 8) + PHDR_SIZE * Count(elf) <= |elf|
    requires pr.visited == Visits(Segments(elf), Count(elf)) && Ample(AllVisits(elf), |s.free|)
    ensures Ahead(s, pr, STACK_VISITS, AllVisits(elf)) && AllVisits(elf) == pr.visited + STACK_VISITS
  {
    hide *;
    AllVisitsIs(elf);
    assert AllVisits(elf) + [] == AllVisits(elf);
    AheadIntro(s, pr, STACK_VISITS, AllVisits(elf), []);
  }

  lemma LoadFailed(s: Start, ram: Memory, free: set<nat>, live: set<Block>, root: nat, pr: Progress, all: seq<nat>)
    requires Loading(s, ram, free, live, root, pr) && free == {} && pr.visited < all
    ensures Cost(all) > |s.free|
  {
    hide *;
    LoadingParts(s, ram, free, live, root, pr);
    CostMono(pr.visited, all);
  }

  lemma LoadDone(s: Start, ram: Memory, free: set<nat>, live: set<Block>, root: nat, pr: Progress, elf: seq<u8>)
    requires WellFormed(elf) && EHDR_SIZE <= |elf| && HeaderOk(elf)
    requires Le(elf, 32, 8) + PHDR_SIZE * Count(elf) <= |elf| && AllInBounds(elf, Segments(elf))
    requires Loading(s, ram, free, live, root, pr) && pr.visited == AllVisits(elf)
    requires pr.pages == Loaded(elf, Segments(elf), Count(elf)) + StackPages()
    ensures WholeImage(ram, root, elf) && Cost(AllVisits(elf)) <= |s.free|
  {
    LoadingParts(s, ram, free, live, root, pr);
    hide Le, HeaderOk, Segments, AllVisits, Loaded, StackPages, Refines, Loading, Cost, Tree, OpenTables;
  }

  /** User mode reads this byte at address a, and may write there or not. */
  ghost predicate ReadsAs(ram: Memory, root: nat, a: nat, writable: bool, byte: nat)
    requires a < 0x8000_0000_0000
  {
    var e := Walk(ram, root, 4, PathOf(a));
    && e.Mapped? && UserMay(ram, root, 4, PathOf(a)) && (MayWrite(ram, root, 4, PathOf(a)) <==> writable)
    && Frame(e.pte) < |ram| && ByteIn(ram[Frame(e.pte)], a % 4096) == byte
  }

  /** Reading through the page tables is reading the flat map. */
  lemma RefinesByte(ram: Memory, root: nat, pages: map<nat, Mapping>, a: nat, writable: bool)
    requires Refines(ram, root, pages) && Tree(ram, root, 4) && OpenTables(ram, root, 4) && a < 0x8000_0000_0000
    ensures a / 4096 in pages && pages[a / 4096].flags == EntryFlags(writable) ==>
              ReadsAs(ram, root, a, writable, ByteIn(pages[a / 4096].content, a % 4096))
    ensures a / 4096 !in pages ==> Walk(ram, root, 4, PathOf(a)) == Absent
  {
    VaOfPath(a);
    RefinesAt(ram, root, pages, PathOf(a));
    Rights(ram, root, 4, PathOf(a));
    EntryBits(writable);
    hide Walk, Refines, PathOf, Va, ByteIn, EntryFlags, Tree, OpenTables, UserMay, MayWrite;
    if a / 4096 in pages && pages[a / 4096].flags == EntryFlags(writable) {
      FlagBits(Walk(ram, root, 4, PathOf(a)).pte, EntryFlags(writable));
    }
  }

  lemma EntryBits(writable: bool)
    ensures var flags := EntryFlags(writable);
            Flags(flags) == flags && flags / 4 % 2 == 1 && (flags / 2 % 2 == 1 <==> writable)
  {
  }

  /**
   * After a successful load the byte the processor reads at address a, in a page that segment i is the
   * last to cover, is the file's byte p_offset + (a - p_vaddr) below p_filesz, and 0 elsewhere.
   */
  lemma LoadedBytes(ram: Memory, root: nat, elf: seq<u8>, i: nat, a: nat)
    requires WellFormed(elf) && WholeImage(ram, root, elf) && LastAt(Segments(elf), i, a / PAGE_SIZE)
    ensures var ph := Segments(elf)[i];
            && InBounds(elf, ph) && a < 0x8000_0000_0000
            && ReadsAs(ram, root, a, Writable(ph),
                       if ph.vaddr <= a < ph.vaddr + ph.filesz then elf[ph.offset + (a - ph.vaddr)] else 0)
  {
    hide *;
    WholeParts(ram, root, elf);
    FlatBytes(elf, Segments(elf), i, a);
    SegmentUser(elf, Segments(elf), i, a);
    ByteAtIs(Loaded(elf, Segments(elf), Count(elf)) + StackPages(), a);
    RefinesByte(ram, root, Loaded(elf, Segments(elf), Count(elf)) + StackPages(), a, Writable(Segments(elf)[i]));
  }

  lemma WholeParts(ram: Memory, root: nat, elf: seq<u8>)
    requires WellFormed(elf) && WholeImage(ram, root, elf)
    ensures EHDR_SIZE <= |elf| && HeaderOk(elf) && Le(elf, 32, 8) + PHDR_SIZE * Count(elf) <= |elf|
    ensures |Segments(elf)| == Count(elf) && AllInBounds(elf, Segments(elf))
    ensures Refines(ram, root, Loaded(elf, Segments(elf), Count(elf)) + StackPages())
    ensures Tree(ram, root, 4) && OpenTables(ram, root, 4) && PAGE_SIZE == 4096
  {
    hide Le, HeaderOk, Refines, Loaded, StackPages, AllInBounds, Tree, OpenTables;
  }

  lemma ByteAtIs(pages: map<nat, Mapping>, a: nat)
    ensures PAGE_SIZE == 4096
    ensures a / PAGE_SIZE in pages ==> ByteAt(pages, a) == ByteIn(pages[a / 4096].content, a % 4096)
  {
  }

  lemma SegmentUser(elf: seq<u8>, segs: seq<Phdr>, i: nat, a: nat)
    requires AllInBounds(elf, segs) && LastAt(segs, i, a / PAGE_SIZE)
    ensures i < |segs| && a < 0x8000_0000_0000
  {
    assert InBounds(elf, segs[i]);
  }

  /** Both stack pages read as zeros and may be written, and nothing but segments and stack is mapped. */
  lemma LoadedStack(ram: Memory, root: nat, elf: seq<u8>, a: nat)
    requires WellFormed(elf) && WholeImage(ram, root, elf) && a < 0x8000_0000_0000
    ensures USER_STACK_BASE <= a < USER_STACK_TOP + PAGE_SIZE ==> ReadsAs(ram, root, a, true, 0)
    ensures Walk(ram, root, 4, PathOf(a)).Mapped? && !(USER_STACK_BASE <= a < USER_STACK_TOP + PAGE_SIZE) ==>
              exists i: nat :: i < Count(elf) && InSegment(Segments(elf)[i], a / PAGE_SIZE)
  {
    hide *;
    WholeParts(ram, root, elf);
    FlatStack(elf, Segments(elf), a);
    ByteAtIs(Loaded(elf, Segments(elf), Count(elf)) + StackPages(), a);
    RefinesByte(ram, root, Loaded(elf, Segments(elf), Count(elf)) + StackPages(), a, true);
  }

  /**
   * How proc_create and proc_exec make the space of a program: create_user_pml4, then
   * elf_load_segments, and when that fails free_user_pml4 and kfree of the root. A failure leaves the
   * allocator as it was but for the frames of pages that were mapped over, one for each page mapped
   * again; with page-disjoint segments there are none.
   */
  method CreateImage(b: Buddy, kernelPml4: nat, elf: seq<u8>)
    returns (ok: bool, root: nat, entry: nat, ghost pr: Progress, ghost lost: set<nat>)
    requires b.Ok() && kernelPml4 < |b.ram| && kernelPml4 !in b.free && WellFormed(elf)
    requires HeaderOk(elf) && b.free != {} ==> Ample(AllVisits(elf), |b.free| - 1)
    modifies b`ram, b`lists, b`free, b`live, b.freeLists
    ensures b.Ok() && |b.ram| == |old(b.ram)| && lost <= old(b.free)
    ensures forall p :: 0 <= p < |b.ram| && p !in old(b.free) ==> b.ram[p] == old(b.ram)[p]
    ensures ok <==> HeaderOk(elf) && 1 + Cost(AllVisits(elf)) <= |old(b.free)|
    ensures ok ==> WholeImage(b.ram, root, elf) && entry == Le(elf, 24, 8) && root < |b.ram|
    ensures ok ==> forall j :: 256 <= j < 512 ==> b.ram[root][j] == old(b.ram)[kernelPml4][j]
    ensures !ok ==> b.free == old(b.free) - lost && b.live == old(b.live) + Singles(lost)
    ensures !ok ==> |lost| == Repeats(pr.visited) && (HeaderOk(elf) ==> pr.visited <= AllVisits(elf))
    ensures !ok && (HeaderOk(elf) ==> PageDisjoint(Segments(elf))) ==> b.State() == old(b.State())
  {
    hide *;
    ghost var s0 := Start(b.ram, b.free, b.live);
    pr, lost, entry := Progress(map[], [], {}), {}, 0;
    FreeNotLive(b);
    StateParts(b);
    NothingLost(s0);
    WellFormedParts(elf);
    var addr;
    addr, root := CreateUserPml4(b, kernelPml4);
    ok := addr != 0;
    if !ok {
      StateParts(b);
      return;
    }
    ghost var s := Start(b.ram, b.free, b.live);
    RootTaken(s0, s, root, elf);
    var rc;
    rc, entry, pr := LoadSegments(b, root, elf);
    ok := rc == 0;
    LoadingParts(s, b.ram, b.free, b.live, root, pr);
    LoadKeeps(s0, s, b.ram, root, kernelPml4);
    if !ok {
      lost := Discard(b, root, s0, s, pr);
      StateParts(b);
      if HeaderOk(elf) ==> PageDisjoint(Segments(elf)) { NoOrphans(s0, elf, pr, lost); }
    }
  }

  lemma WellFormedParts(elf: seq<u8>)
    requires WellFormed(elf)
    ensures EHDR_SIZE <= |elf|
    ensures HeaderOk(elf) ==> Le(elf, 32, 8) + PHDR_SIZE * Count(elf) <= |elf| && AllInBounds(elf, Segments(elf))
  {
    hide Le, HeaderOk, Segments, AllInBounds;
  }

  /** Creating and loading change no page that was in use before, and the kernel half is the kernel's. */
  lemma LoadKeeps(s0: Start, s: Start, ram: Memory, root: nat, kernelPml4: nat)
    requires OthersSame(s, ram, root) && root in s0.free && s.free == s0.free - {root} && |s.ram| == |s0.ram|
    requires kernelPml4 < |s0.ram| && root < |s.ram|
    requires forall p :: 0 <= p < |s.ram| && p !in s0.free ==> s.ram[p] == s0.ram[p]
    requires forall j :: 256 <= j < 512 ==> s.ram[root][j] == s0.ram[kernelPml4][j]
    ensures |ram| == |s0.ram| && forall p :: 0 <= p < |ram| && p !in s0.free ==> ram[p] == s0.ram[p]
    ensures forall j :: 256 <= j < 512 ==> ram[root][j] == s0.ram[kernelPml4][j]
  {
  }

  lemma RootTaken(s0: Start, s: Start, root: nat, elf: seq<u8>)
    requires WellFormed(elf) && EHDR_SIZE <= |elf|
    requires HeaderOk(elf) && s0.free != {} ==> Ample(AllVisits(elf), |s0.free| - 1)
    requires root in s0.free && s.free == s0.free - {root} && root < |s.ram|
    requires Tree(s.ram, root, 4) && Footprint(s.ram, root, 4) == {root} && Unmapped(s.ram, root)
    ensures CanLoad(s.ram, s.free, root, elf) && |s.free| == |s0.free| - 1
  {
    hide Tree, Footprint, Unmapped, WellFormed, HeaderOk, Ample, AllVisits;
  }

  /** Segments that share no page leave nothing behind. */
  lemma NoOrphans(s: Start, elf: seq<u8>, pr: Progress, lost: set<nat>)
    requires WellFormed(elf) && EHDR_SIZE <= |elf| && |lost| == Repeats(pr.visited)
    requires if HeaderOk(elf) then PageDisjoint(Segments(elf)) && pr.visited <= AllVisits(elf) else pr.visited == []
    ensures s.free - lost == s.free && s.live + Singles(lost) == s.live
  {
    hide *;
    WellFormedParts(elf);
    RepeatsStep([], 0);
    if HeaderOk(elf) {
      VisitsOnce(elf);
      RepeatsNone(AllVisits(elf));
      RepeatsMono(pr.visited, AllVisits(elf));
    }
    assert lost == {};
    NothingLost(s);
  }

  /** With page-disjoint segments the loader visits no page twice. */
  lemma VisitsOnce(elf: seq<u8>)
    requires EHDR_SIZE <= |elf| && Le(elf, 32, 8) + PHDR_SIZE * Count(elf) <= |elf| && PageDisjoint(Segments(elf))
    ensures Distinct(AllVisits(elf))
  {
    hide *;
    var segs, n := Segments(elf), Count(elf);
    AllVisitsIs(elf);
    SegmentsOnce(segs, n);
    StackOnce();
    forall i | 0 <= i < |Visits(segs, n)| ensures Visits(segs, n)[i] !in STACK_VISITS {
      NotStack(segs, n, Visits(segs, n)[i]);
    }
    DistinctSum(Visits(segs, n), STACK_VISITS);
  }

  lemma StackOnce()
    ensures Distinct(STACK_VISITS)
  {
  }

  lemma NotStack(segs: seq<Phdr>, n: nat, page: nat)
    requires PageDisjoint(segs) && n <= |segs| && page in Visits(segs, n)
    ensures page !in STACK_VISITS
  {
    var i := VisitedBy(segs, n, page);
    hide InSegment, Visits;
    assert page !in StackPages();
  }

  lemma {:induction false} VisitedBy(segs: seq<Phdr>, n: nat, page: nat) returns (i: nat)
    requires n <= |segs| && page in Visits(segs, n)
    ensures i < n && InSegment(segs[i], page)
    decreases n
  {
    VisitsStep(segs, n);
    hide *;
    if page in Visits(segs, n - 1) {
      i := VisitedBy(segs, n - 1, page);
    } else {
      i := n - 1;
      SegmentHas(segs[i], page);
    }
  }

  lemma VisitsStep(segs: seq<Phdr>, n: nat)
    requires n <= |segs|
    ensures n == 0 ==> Visits(segs, n) == []
    ensures n > 0 ==> Visits(segs, n) == Visits(segs, n - 1) + SegmentVisits(segs[n - 1])
  {
    hide SegmentVisits;
  }

  lemma SegmentHas(ph: Phdr, page: nat)
    ensures page in SegmentVisits(ph) <==> InSegment(ph, page)
    ensures Distinct(SegmentVisits(ph))
  {
    hide FirstPage, EndPage;
    if InSegment(ph, page) {
      assert PagesIn(FirstPage(ph), EndPage(ph))[page - FirstPage(ph)] == page;
    }
  }

  lemma {:induction false} SegmentsOnce(segs: seq<Phdr>, n: nat)
    requires PageDisjoint(segs) && n <= |segs|
    ensures Distinct(Visits(segs, n))
    decreases n
  {
    hide *;
    VisitsStep(segs, n);
    if n == 0 {
      NoVisits();
    } else {
      SegmentsOnce(segs, n - 1);
      SegmentHas(segs[n - 1], 0);
      var v, w := Visits(segs, n - 1), SegmentVisits(segs[n - 1]);
      forall i | 0 <= i < |v| ensures v[i] !in w {
        var k := VisitedBy(segs, n - 1, v[i]);
        SegmentHas(segs[n - 1], v[i]);
        OtherSegment(segs, k, n - 1, v[i]);
      }
      DistinctSum(v, w);
    }
  }

  lemma NoVisits()
    ensures Distinct([])
  {
  }

  lemma OtherSegment(segs: seq<Phdr>, i: nat, j: nat, page: nat)
    requires PageDisjoint(segs) && i < j < |segs| && InSegment(segs[i], page)
    ensures !InSegment(segs[j], page)
  {
    hide InSegment, StackPages;
  }
}
