/**
 * Building, copying and releasing user address spaces on top of the page allocator. Tables are named
 * by page number; an entry is only ever read or written while its table is not free.
 */
module PageTables {
  import Arith
  import opened Bits
  import opened Blocks
  import opened BuddySpec
  import opened BuddyAllocator
  import opened PageTree

  ghost function Singles(pages: set<nat>): set<Block> {
    set p | p in pages :: Block(p, 0)
  }

  lemma SinglesSum(a: set<nat>, b: set<nat>)
    ensures Singles({}) == {} && Singles(a + b) == Singles(a) + Singles(b)
  {
  }

  lemma SinglePage(p: nat)
    ensures Block(p, 0).Pages() == {p} && Block(p, 0).FirstPage() == p && OrderFor(1) == 0 && FreeOrder(1) == 0
    ensures forall free: set<nat> :: WhollyFree(free, Block(p, 0)) <==> p in free
  {
    OrderUnique(1, 0);
    assert Block(p, 0).Has(p);
  }

  lemma OnePage(free: set<nat>)
    ensures Satisfiable(free, 1) <==> free != {}
  {
    forall p: nat ensures WhollyFree(free, Block(p, 0)) <==> p in free {
      SinglePage(p);
    }
    OrderUnique(1, 0);
    if free != {} {
      var p :| p in free;
      assert WhollyFree(free, Block(p, OrderFor(1)));
    }
  }

  /** kalloc(1): null exactly when no page is free. */
  method AllocPage(b: Buddy) returns (addr: nat, page: nat)
    requires b.Ok()
    modifies b`ram, b`lists, b`free, b`live, b.freeLists
    ensures b.Ok() && |b.ram| == |old(b.ram)|
    ensures addr == 0 <==> old(b.free) == {}
    ensures addr == 0 ==> b.free == old(b.free) && b.live == old(b.live) && b.ram == old(b.ram)
    ensures addr != 0 ==>
              && page in old(b.free) && page < |b.ram|
              && b.free == old(b.free) - {page} && b.live == old(b.live) + Singles({page})
    ensures forall p :: 0 <= p < |b.ram| && p !in old(b.free) ==> b.ram[p] == old(b.ram[p])
  {
    ghost var block;
    ghost var h := b.State();
    addr, block := b.Kalloc(1);
    AllocOne(h, if addr == 0 then Null else Got(block), b.State());
    hide *;
    page := if addr == 0 then 0 else PageNumber(b, addr, block.num);
  }

  lemma AllocOne(h: Heap, outcome: Outcome, h': Heap)
    requires Step(h, Alloc(1, outcome), h')
    ensures outcome.Null? ==> h' == h && h.free == {}
    ensures outcome.Got? ==>
              var p := outcome.block.num;
              outcome.block == Block(p, 0) && p in h.free && h'.free == h.free - {p} && h'.live == h.live + Singles({p})
  {
    OnePage(h.free);
    if outcome.Got? {
      SinglePage(outcome.block.num);
      assert outcome.block == Block(outcome.block.num, 0);
    }
  }

  function PageNumber(b: Buddy, addr: nat, ghost p: nat): (page: nat)
    requires addr == b.AddrOf(Block(p, 0).FirstPage())
    reads b
    ensures page == p
  {
    b.PageOf(addr)
  }

  /** kfree(page, 1) of a page allocated on its own. */
  method FreePage(b: Buddy, page: nat)
    requires b.Ok() && Block(page, 0) in b.live
    modifies b`ram, b`lists, b`free, b`live, b.freeLists
    ensures b.Ok() && |b.ram| == |old(b.ram)|
    ensures b.free == old(b.free) + {page} && b.live == old(b.live) - Singles({page})
    ensures forall p :: 0 <= p < |b.ram| && p !in b.free ==> b.ram[p] == old(b.ram[p])
  {
    ghost var h := b.State();
    PageAddr(b, page);
    var addr := b.AddrOf(page);
    hide *;
    b.Kfree(addr, 1);
    FreeOne(b, h, page);
  }

  /** The address kfree is given names the page's block. */
  lemma PageAddr(b: Buddy, page: nat)
    requires b.Ok()
    ensures var addr := b.AddrOf(page);
            && addr == b.AddrOf(Block(page, 0).FirstPage()) && addr >= b.hhdm && addr % PAGE_SIZE == 0
            && b.BlockAt(addr, FreeOrder(1)) == Block(page, 0)
  {
    hide *;
    SinglePage(page);
    b.BlockAtStart(Block(page, 0));
    PageAligned(b.hhdm, page);
    BaseAligned(b);
  }

  lemma BaseAligned(b: Buddy)
    requires b.Ok()
    ensures b.hhdm % 0x80_0000 == 0 && forall page: nat :: b.AddrOf(page) == b.hhdm + 4096 * page
  {
  }

  lemma PageAligned(hhdm: nat, page: nat)
    ensures hhdm % 0x80_0000 == 0 ==> (hhdm + 4096 * page) % PAGE_SIZE == 0
  {
    var m, r := hhdm / 0x80_0000, hhdm % 0x80_0000;
    assert hhdm + 4096 * page == 4096 * (2048 * m + page) + r;
  }

  lemma FreeOne(b: Buddy, h: Heap, page: nat)
    requires Step(h, Free(Block(page, 0)), b.State())
    ensures b.free == h.free + {page} && b.live == h.live - Singles({page})
  {
    SinglePage(page);
  }

  method ReadEntry(b: Buddy, t: nat, i: nat) returns (pte: u64)
    requires t < |b.ram| && i < 512 && t !in b.free
    ensures pte == b.ram[t][i]
  {
    pte := b.ram[t][i];
  }

  method WriteEntry(b: Buddy, t: nat, i: nat, pte: u64)
    requires b.Ok() && t < |b.ram| && i < 512 && t !in b.free
    modifies b`ram
    ensures b.Ok() && b.ram == old(b.ram)[t := old(b.ram)[t][i := pte]]
  {
    b.Store(t, b.ram[t][i := pte]);
  }

  /** The user half maps nothing. */
  ghost predicate Unmapped(ram: Memory, root: nat) {
    forall path :: InRange(path, 4) ==> Walk(ram, root, 4, path) == Absent
  }

  /** Every walk of the user half finds in ram' what it finds in ram. */
  ghost predicate SameWalks(ram: Memory, ram': Memory, root: nat) {
    forall path :: InRange(path, 4) ==> Walk(ram', root, 4, path) == Walk(ram, root, 4, path)
  }

  /** The data pages mapped in ram hold in ram' what they held in ram. */
  ghost predicate SameFrames(ram: Memory, ram': Memory, root: nat) {
    && |ram'| == |ram|
    && forall path :: InRange(path, 4) && Walk(ram, root, 4, path).Mapped? && IsUser(Walk(ram, root, 4, path).pte) ==>
         var f := Frame(Walk(ram, root, 4, path).pte); f < |ram| && ram'[f] == ram[f]
  }

  /** Writing only free pages and one table of the tree changes no mapped data page. */
  lemma FramesKept(ram: Memory, ram': Memory, root: nat, prefix: seq<nat>, free: set<nat>)
    requires Tree(ram, root, 4) && Spine(ram, root, 4, prefix) && Footprint(ram, root, 4) !! free && |ram'| == |ram|
    requires forall p :: 0 <= p < |ram| && p !in free && p != Bottom(ram, root, 4, prefix) ==> ram'[p] == ram[p]
    ensures SameFrames(ram, ram', root)
  {
    forall path | InRange(path, 4) && Walk(ram, root, 4, path).Mapped? && IsUser(Walk(ram, root, 4, path).pte)
      ensures var f := Frame(Walk(ram, root, 4, path).pte); f < |ram| && ram'[f] == ram[f]
    {
      hide Tree, Spine, Bottom, Walk;
      WalkFinds(ram, root, 4, path);
      FrameNotTable(ram, root, 4, path, prefix);
    }
  }

  /** Allocate and zero a table and make entry i of t point at it. */
  method CreateTable(b: Buddy, t: nat, i: nat) returns (page: nat)
    requires b.Ok() && t < |b.ram| && t !in b.free && i < 512 && b.free != {}
    modifies b`ram, b`lists, b`free, b`live, b.freeLists
    ensures b.Ok() && |b.ram| == |old(b.ram)|
    ensures page in old(b.free) && b.free == old(b.free) - {page} && b.live == old(b.live) + Singles({page})
    ensures page < |b.ram| && page != t && b.ram[page] == Filled(0)
    ensures 4096 * page + 7 < ADDRESS_SPACE && b.ram[t] == old(b.ram)[t][i := 4096 * page + 7]
    ensures forall p :: 0 <= p < |b.ram| && p !in old(b.free) && p != t ==> b.ram[p] == old(b.ram)[p]
  {
    hide *;
    var addr;
    addr, page := AllocPage(b);
    Bounded(b, page);
    ZeroTable(b, page);
    TableFlags();
    var pte: u64 := 4096 * page + PRESENT + WRITE + USER;
    WriteEntry(b, t, i, pte);
  }

  /** memset(page, 0, PAGE_SIZE) */
  method ZeroTable(b: Buddy, page: nat)
    requires b.Ok() && page < |b.ram| && page !in b.free
    modifies b`ram
    ensures b.Ok() && b.ram == old(b.ram)[page := Filled(0)]
  {
    hide *;
    b.Memset(page, 1, 0);
    assert b.ram == old(b.ram)[page := Filled(0)];
  }

  lemma TableFlags()
    ensures PRESENT + WRITE + USER == 7
  {
  }

  lemma Bounded(b: Buddy, page: nat)
    requires b.Ok() && page < |b.ram|
    ensures 4096 * page + 7 < 0x1_0000_0000_0000_0000 == ADDRESS_SPACE
  {
  }

  /**
   * The tree under root is intact and apart from the free pages, prefix leads to table t, and the
   * tables missing below t on the way rest fit in the free pages.
   */
  ghost predicate Ready(ram: Memory, free: set<nat>, root: nat, prefix: seq<nat>, t: nat, rest: seq<nat>) {
    && Tree(ram, root, 4) && Footprint(ram, root, 4) !! free
    && Spine(ram, root, 4, prefix) && t == Bottom(ram, root, 4, prefix) && t < |ram|
    && Indices(rest) && Missing(ram, t, rest) <= |free|
  }

  /**
   * The step map_page_pml4 takes at each level: follow entry i of t, creating a zeroed table there
   * first if there is none.
   */
  method Descend(b: Buddy, ghost root: nat, ghost prefix: seq<nat>, t: nat, i: nat, ghost rest: seq<nat>)
    returns (child: nat, ghost tables: set<nat>)
    requires b.Ok() && |prefix| < 3 && i < Limit(4 - |prefix|) && Ready(b.ram, b.free, root, prefix, t, [i] + rest)
    modifies b`ram, b`lists, b`free, b`live, b.freeLists
    ensures b.Ok() && |b.ram| == |old(b.ram)|
    ensures Grown(old(b.ram), b.ram, root, tables, old(b.free))
    ensures Ready(b.ram, b.free, root, prefix + [i], child, rest)
    ensures tables <= old(b.free) && b.free == old(b.free) - tables && b.live == old(b.live) + Singles(tables)
    ensures Indices(rest) && Indices([i] + rest)
            && |tables| + Missing(b.ram, child, rest) == Missing(old(b.ram), t, [i] + rest)
    ensures Branched(old(b.ram), b.ram, root, prefix + [i])
    ensures OpenTables(old(b.ram), root, 4) ==> OpenTables(b.ram, root, 4)
  {
    hide *;
    ReadyTable(b.ram, b.free, root, prefix, t, i, rest);
    ghost var ram0, free0 := b.ram, b.free;
    tables := {};
    SinglesSum({}, {});
    var pte := ReadEntry(b, t, i);
    if !IsPresent(pte) {
      var page := CreateTable(b, t, i);
      HungIntro(ram0, b.ram, Footprint(ram0, root, 4), t, i, page);
      NewTable(ram0, b.ram, root, prefix, i, page);
      NewBranch(ram0, b.ram, root, prefix, i, page);
      if OpenTables(ram0, root, 4) { NewOpen(ram0, b.ram, root, prefix, i, page); }
      tables := {page};
      HungEntry(ram0, b.ram, Footprint(ram0, root, 4), t, i, page);
      pte := ReadEntry(b, t, i);
    } else {
      OldTable(ram0, root, prefix, i);
      BranchedSame(ram0, root, prefix + [i]);
    }
    child := Frame(pte);
    FrameChild(b.ram, t, i);
    FramesKept(ram0, b.ram, root, prefix, free0);
    MissingStep(ram0, b.ram, t, i, child, tables, rest);
    GrownIntro(ram0, b.ram, root, prefix, i, tables, free0);
    ReadyNext(ram0, b.ram, root, prefix, t, i, child, tables, free0, rest);
  }

  lemma ReadyTable(ram: Memory, free: set<nat>, root: nat, prefix: seq<nat>, t: nat, i: nat, rest: seq<nat>)
    requires |prefix| < 3 && i < Limit(4 - |prefix|) && Ready(ram, free, root, prefix, t, [i] + rest)
    ensures Tree(ram, root, 4) && Footprint(ram, root, 4) !! free && Spine(ram, root, 4, prefix)
            && t == Bottom(ram, root, 4, prefix)
    ensures t < |ram| && i < 512 && t in Footprint(ram, root, 4) && Indices([i] + rest) && Indices(rest)
    ensures !IsPresent(ram[t][i]) ==> free != {}
  {
    BottomInside(ram, root, 4, prefix);
    assert t in Footprint(ram, t, 4 - |prefix|);
    assert ([i] + rest)[1..] == rest;
    assert ([i] + rest)[0] == i;
    assert forall j :: 0 <= j < |rest| ==> rest[j] == ([i] + rest)[j + 1];
  }

  lemma ReadyNext(ram: Memory, ram': Memory, root: nat, prefix: seq<nat>, t: nat, i: nat, child: nat, tables: set<nat>,
                  free: set<nat>, rest: seq<nat>)
    requires |prefix| < 3 && i < Limit(4 - |prefix|) && Ready(ram, free, root, prefix, t, [i] + rest)
    requires Grown(ram, ram', root, tables, free) && tables <= free
    requires Spine(ram', root, 4, prefix + [i]) && child == Bottom(ram', root, 4, prefix + [i])
    requires Indices(rest) && |tables| + Missing(ram', child, rest) == Missing(ram, t, [i] + rest)
    ensures Ready(ram', free - tables, root, prefix + [i], child, rest)
  {
    BottomInside(ram', root, 4, prefix + [i]);
    assert |free - tables| == |free| - |tables|;
  }

  lemma MissingStep(ram: Memory, ram': Memory, t: nat, i: nat, child: nat, tables: set<nat>, rest: seq<nat>)
    requires t < |ram| && i < 512 && Indices([i] + rest) && Indices(rest)
    requires if IsPresent(ram[t][i]) then tables == {} && child == Child(ram, t, i) && ram' == ram
             else tables == {child} && child < |ram'| && ram'[child] == Filled(0)
    ensures |tables| + Missing(ram', child, rest) == Missing(ram, t, [i] + rest)
  {
    assert ([i] + rest)[1..] == rest;
  }

  lemma FrameChild(ram: Memory, t: nat, i: nat)
    requires t < |ram| && i < 512
    ensures Frame(ram[t][i]) == Child(ram, t, i)
  {
  }

  lemma HungIntro(ram: Memory, ram': Memory, pages: set<nat>, t: nat, i: nat, page: nat)
    requires page < |ram| == |ram'| && page !in pages && t in pages && t < |ram| && i < 512 && !IsPresent(ram[t][i])
    requires 4096 * page + 7 < ADDRESS_SPACE && ram'[t] == ram[t][i := 4096 * page + 7]
    requires forall p :: 0 <= p < |ram| && p in pages && p != t ==> ram'[p] == ram[p]
    requires ram'[page] == Filled(0)
    ensures Hung(ram, ram', pages, t, i, page)
  {
  }

  /**
   * ram' is ram after new tables, taken from the pages free, were hung into the tree: no walk and no
   * mapped data page has changed, nor the kernel half of the root, nor any page outside tree and free.
   */
  ghost predicate Grown(ram: Memory, ram': Memory, root: nat, tables: set<nat>, free: set<nat>) {
    && |ram'| == |ram| && root < |ram|
    && Changed(ram, ram', root, 4, {}, tables) && SameWalks(ram, ram', root) && SameFrames(ram, ram', root)
    && (forall p :: 0 <= p < |ram| && p !in free && p !in Footprint(ram, root, 4) ==> ram'[p] == ram[p])
    && forall j :: 256 <= j < 512 ==> ram'[root][j] == ram[root][j]
  }

  lemma GrownIntro(ram: Memory, ram': Memory, root: nat, prefix: seq<nat>, i: nat, tables: set<nat>, free: set<nat>)
    requires Tree(ram, root, 4) && Spine(ram, root, 4, prefix) && |prefix| < 3 && i < Limit(4 - |prefix|)
             && |ram'| == |ram|
    requires Changed(ram, ram', root, 4, {}, tables) && SameWalks(ram, ram', root) && SameFrames(ram, ram', root)
    requires var t := Bottom(ram, root, 4, prefix);
             && t < |ram|
             && (forall p :: 0 <= p < |ram| && p !in free && p != t ==> ram'[p] == ram[p])
             && forall j :: 0 <= j < 512 && j != i ==> ram'[t][j] == ram[t][j]
    requires Footprint(ram, root, 4) !! free
    ensures Grown(ram, ram', root, tables, free)
  {
    var t := Bottom(ram, root, 4, prefix);
    BottomInside(ram, root, 4, prefix);
    if prefix != [] { BottomNotRoot(ram, root, 4, prefix); }
    assert root in Footprint(ram, root, 4) && t in Footprint(ram, root, 4);
  }

  lemma GrownCompose(r0: Memory, r1: Memory, r2: Memory, root: nat, t1: set<nat>, t2: set<nat>, free: set<nat>)
    requires Grown(r0, r1, root, t1, free) && Grown(r1, r2, root, t2, free - t1)
    requires t1 <= free && t2 <= free - t1 && Footprint(r0, root, 4) !! free
    ensures Grown(r0, r2, root, t1 + t2, free)
  {
    ChangedCompose(r0, r1, r2, root, 4, t1, {}, t2);
  }

  lemma OldTable(ram: Memory, root: nat, prefix: seq<nat>, i: nat)
    requires Tree(ram, root, 4) && |prefix| < 3 && Spine(ram, root, 4, prefix) && i < Limit(4 - |prefix|)
    requires var t := Bottom(ram, root, 4, prefix); t < |ram| && IsPresent(ram[t][i])
    ensures Changed(ram, ram, root, 4, {}, {}) && SameWalks(ram, ram, root)
    ensures Spine(ram, root, 4, prefix + [i])
            && Bottom(ram, root, 4, prefix + [i]) == Child(ram, Bottom(ram, root, 4, prefix), i)
  {
    BottomInside(ram, root, 4, prefix);
    var t := Bottom(ram, root, 4, prefix);
    ChildTree(ram, t, 4 - |prefix|, i);
    SpineExtend(ram, root, 4, prefix, i);
  }

  /** ram' is ram with a fresh zeroed table hung under the unused entry i of table t. */
  ghost predicate Hung(ram: Memory, ram': Memory, pages: set<nat>, t: nat, i: nat, page: nat) {
    && page < |ram| == |ram'| && page !in pages && t in pages && t < |ram| && i < 512 && !IsPresent(ram[t][i])
    && 4096 * page + 7 < ADDRESS_SPACE && ram'[t] == ram[t][i := 4096 * page + 7]
    && (forall p :: 0 <= p < |ram| && p in pages && p != t ==> ram'[p] == ram[p])
    && ram'[page] == Filled(0)
  }

  lemma NewTable(ram: Memory, ram': Memory, root: nat, prefix: seq<nat>, i: nat, page: nat)
    requires Tree(ram, root, 4) && |prefix| < 3 && Spine(ram, root, 4, prefix) && i < Limit(4 - |prefix|)
    requires Hung(ram, ram', Footprint(ram, root, 4), Bottom(ram, root, 4, prefix), i, page)
    ensures Changed(ram, ram', root, 4, {}, {page}) && SameWalks(ram, ram', root)
    ensures Spine(ram', root, 4, prefix + [i]) && Bottom(ram', root, 4, prefix + [i]) == page
  {
    var t, level := Bottom(ram, root, 4, prefix), 4 - |prefix|;
    hide *;
    BottomInside(ram, root, 4, prefix);
    HungEntry(ram, ram', Footprint(ram, root, 4), t, i, page);
    HungShrink(ram, ram', Footprint(ram, root, 4), Footprint(ram, t, level), t, i, page);
    HungLocal(ram, ram', t, level, i, page);
    SpineLift(ram, ram', root, 4, prefix, {}, {page});
    SpineExtend(ram', root, 4, prefix, i);
    WalksLift(ram, ram', root, prefix);
  }

  lemma NewBranch(ram: Memory, ram': Memory, root: nat, prefix: seq<nat>, i: nat, page: nat)
    requires Tree(ram, root, 4) && |prefix| < 3 && Spine(ram, root, 4, prefix) && i < Limit(4 - |prefix|)
    requires Hung(ram, ram', Footprint(ram, root, 4), Bottom(ram, root, 4, prefix), i, page)
    ensures Branched(ram, ram', root, prefix + [i])
  {
    var t, level, path := Bottom(ram, root, 4, prefix), 4 - |prefix|, prefix + [i];
    hide *;
    BottomInside(ram, root, 4, prefix);
    HungEntry(ram, ram', Footprint(ram, root, 4), t, i, page);
    HungShrink(ram, ram', Footprint(ram, root, 4), Footprint(ram, t, level), t, i, page);
    forall q | |q| < 4 ensures Spine(ram', root, 4, q) <==> Spine(ram, root, 4, q) || q <= path {
      NewBranchAt(ram, ram', root, prefix, i, page, q);
    }
    BranchedIntro(ram, ram', root, path);
  }

  lemma NewBranchAt(ram: Memory, ram': Memory, root: nat, prefix: seq<nat>, i: nat, page: nat, q: seq<nat>)
    requires Tree(ram, root, 4) && |prefix| < 3 && Spine(ram, root, 4, prefix) && i < Limit(4 - |prefix|) && |q| < 4
    requires var t, level := Bottom(ram, root, 4, prefix), 4 - |prefix|;
             && Tree(ram, t, level) && Hung(ram, ram', Footprint(ram, t, level), t, i, page)
             && SameOutside(ram, ram', Footprint(ram, root, 4), Footprint(ram, t, level))
    ensures Spine(ram', root, 4, q) <==> Spine(ram, root, 4, q) || q <= prefix + [i]
  {
    hide *;
    SpineChange(ram, ram', root, 4, prefix, q);
    if prefix <= q {
      var rest := q[|prefix|..];
      assert q == prefix + rest;
      SameOutsideSelf(ram, Footprint(ram, root, 4), Footprint(ram, Bottom(ram, root, 4, prefix), 4 - |prefix|));
      SpineChange(ram, ram, root, 4, prefix, q);
      HungSpine(ram, ram', Bottom(ram, root, 4, prefix), 4 - |prefix|, i, page, rest);
      RestStart(prefix, rest, i);
    } else if q <= prefix + [i] {
      ShortStart(prefix, q, i);
      SpineStart(ram, root, 4, prefix, q);
    }
  }

  lemma SameOutsideSelf(ram: Memory, all: set<nat>, part: set<nat>)
    ensures SameOutside(ram, ram, all, part)
  {
  }

  /** A new table hung in with both bits set leaves all tables open. */
  lemma NewOpen(ram: Memory, ram': Memory, root: nat, prefix: seq<nat>, i: nat, page: nat)
    requires Tree(ram, root, 4) && OpenTables(ram, root, 4)
    requires |prefix| < 3 && Spine(ram, root, 4, prefix) && i < Limit(4 - |prefix|)
    requires Hung(ram, ram', Footprint(ram, root, 4), Bottom(ram, root, 4, prefix), i, page)
    ensures OpenTables(ram', root, 4)
  {
    var t, level := Bottom(ram, root, 4, prefix), 4 - |prefix|;
    hide *;
    BottomInside(ram, root, 4, prefix);
    HungEntry(ram, ram', Footprint(ram, root, 4), t, i, page);
    HungShrink(ram, ram', Footprint(ram, root, 4), Footprint(ram, t, level), t, i, page);
    BottomOpen(ram, root, 4, prefix);
    HungOpen(ram, ram', t, level, i, page);
    OpenLift(ram, ram', root, 4, prefix);
  }

  lemma {:induction false} BottomOpen(ram: Memory, t: nat, level: nat, prefix: seq<nat>)
    requires Tree(ram, t, level) && OpenTables(ram, t, level) && Spine(ram, t, level, prefix)
    ensures OpenTables(ram, Bottom(ram, t, level, prefix), level - |prefix|)
    decreases |prefix|
  {
    if prefix != [] {
      assert Owns(ram, t, level, prefix[0]);
      assert OpenEntry(ram, t, level, prefix[0]);
      ChildTree(ram, t, level, prefix[0]);
      hide Tree, OpenTables;
      BottomOpen(ram, Child(ram, t, prefix[0]), level - 1, prefix[1..]);
    }
  }

  lemma HungOpen(ram: Memory, ram': Memory, t: nat, level: nat, i: nat, page: nat)
    requires 1 < level <= 4 && Tree(ram, t, level) && OpenTables(ram, t, level) && i < Limit(level)
    requires Hung(ram, ram', Footprint(ram, t, level), t, i, page)
    ensures OpenTables(ram', t, level)
  {
    TableEntry(page);
    TableBits(page);
    forall j | 0 <= j < Limit(level) && Owns(ram', t, level, j) ensures OpenEntry(ram', t, level, j) {
      if j == i {
        EmptyOpen(ram', page, level - 1);
      } else {
        assert Owns(ram, t, level, j);
        assert OpenEntry(ram, t, level, j);
        ChildTree(ram, t, level, j);
        ChildInside(ram, t, level, j);
        OpenFrame(ram, ram', Child(ram, t, j), level - 1);
      }
    }
  }

  lemma TableBits(page: nat)
    ensures (4096 * page + 7) / 4 % 2 == 1 && (4096 * page + 7) / 2 % 2 == 1
  {
    Arith.DivUnique(4096 * page + 7, 4, 1024 * page + 1, 3);
    Arith.DivUnique(1024 * page + 1, 2, 512 * page, 1);
    Arith.DivUnique(4096 * page + 7, 2, 2048 * page + 3, 1);
    Arith.DivUnique(2048 * page + 3, 2, 1024 * page + 1, 1);
  }

  lemma EmptyOpen(ram: Memory, page: nat, level: nat)
    requires page < |ram| && ram[page] == Filled(0)
    ensures OpenTables(ram, page, level)
  {
  }

  lemma RestStart(prefix: seq<nat>, rest: seq<nat>, i: nat)
    ensures prefix + rest <= prefix + [i] <==> rest <= [i]
  {
    if prefix + rest <= prefix + [i] {
      assert forall k :: 0 <= k < |rest| ==> rest[k] == (prefix + rest)[|prefix| + k] == (prefix + [i])[|prefix| + k];
    }
  }

  lemma ShortStart(prefix: seq<nat>, q: seq<nat>, i: nat)
    requires q <= prefix + [i] && !(prefix <= q)
    ensures q <= prefix
  {
  }

  lemma BranchedIntro(ram: Memory, ram': Memory, root: nat, path: seq<nat>)
    requires forall q :: |q| < 4 ==> (Spine(ram', root, 4, q) <==> Spine(ram, root, 4, q) || q <= path)
    ensures Branched(ram, ram', root, path)
  {
  }

  /** Below a table with a new, empty table at entry i only that table is new. */
  lemma HungSpine(ram: Memory, ram': Memory, t: nat, level: nat, i: nat, page: nat, rest: seq<nat>)
    requires 1 < level <= 4 && Tree(ram, t, level) && i < Limit(level) && |rest| < level
    requires Hung(ram, ram', Footprint(ram, t, level), t, i, page)
    ensures Spine(ram', t, level, rest) <==> Spine(ram, t, level, rest) || rest <= [i]
  {
    TableEntry(page);
    if rest != [] && rest[0] != i && rest[0] < Limit(level) && IsPresent(ram[t][rest[0]]) {
      assert Owns(ram, t, level, rest[0]);
      ChildTree(ram, t, level, rest[0]);
      ChildInside(ram, t, level, rest[0]);
      SpineFrame(ram, ram', Child(ram, t, rest[0]), level - 1, rest[1..]);
    }
  }

  lemma HungEntry(ram: Memory, ram': Memory, pages: set<nat>, t: nat, i: nat, page: nat)
    requires Hung(ram, ram', pages, t, i, page)
    ensures t < |ram| == |ram'| && page < |ram'| && page !in pages && i < 512
    ensures IsPresent(ram'[t][i]) && Child(ram', t, i) == page
  {
    TableEntry(page);
  }

  lemma HungShrink(ram: Memory, ram': Memory, big: set<nat>, small: set<nat>, t: nat, i: nat, page: nat)
    requires Hung(ram, ram', big, t, i, page) && small <= big && t in small
    ensures Hung(ram, ram', small, t, i, page) && SameOutside(ram, ram', big, small)
  {
  }

  /** If no walk from the end of the spine changes, no walk from the root does. */
  lemma WalksLift(ram: Memory, ram': Memory, root: nat, prefix: seq<nat>)
    requires Tree(ram, root, 4) && Spine(ram, root, 4, prefix)
    requires var t, level := Bottom(ram, root, 4, prefix), 4 - |prefix|;
             && SameOutside(ram, ram', Footprint(ram, root, 4), Footprint(ram, t, level))
             && forall path :: InRange(path, level) ==> Walk(ram', t, level, path) == Walk(ram, t, level, path)
    ensures SameWalks(ram, ram', root)
  {
    hide Tree, Spine, Bottom, Walk;
    forall path | InRange(path, 4) ensures Walk(ram', root, 4, path) == Walk(ram, root, 4, path) {
      SpineWalk(ram, ram', root, 4, prefix, path);
      SpineWalk(ram, ram, root, 4, prefix, path);
      if prefix <= path { RestInRange(path, prefix); }
    }
  }

  lemma RestInRange(path: seq<nat>, prefix: seq<nat>)
    requires InRange(path, 4) && prefix <= path
    ensures InRange(path[|prefix|..], 4 - |prefix|)
  {
  }

  lemma HungLocal(ram: Memory, ram': Memory, t: nat, level: nat, i: nat, page: nat)
    requires 1 < level <= 4 && Tree(ram, t, level) && i < Limit(level)
             && Hung(ram, ram', Footprint(ram, t, level), t, i, page)
    ensures Changed(ram, ram', t, level, {}, {page})
    ensures forall path :: InRange(path, level) ==> Walk(ram', t, level, path) == Walk(ram, t, level, path)
  {
    TableEntry(page);
    EmptyTable(ram', page, level - 1);
    SetEntry(ram, ram', t, level, i, 4096 * page + 7, {}, {page});
    forall path | InRange(path, level) ensures Walk(ram', t, level, path) == Walk(ram, t, level, path) {
      HungWalk(ram, ram', t, level, i, page, path);
    }
  }

  lemma TableEntry(page: nat)
    ensures IsPresent(4096 * page + 7) && Frame(4096 * page + 7) == page
  {
  }

  lemma HungWalk(ram: Memory, ram': Memory, t: nat, level: nat, i: nat, page: nat, path: seq<nat>)
    requires 1 < level <= 4 && Tree(ram, t, level) && i < Limit(level)
             && Hung(ram, ram', Footprint(ram, t, level), t, i, page)
    requires InRange(path, level)
    ensures Walk(ram', t, level, path) == Walk(ram, t, level, path)
  {
    TableEntry(page);
    if path[0] != i && IsPresent(ram[t][path[0]]) {
      assert Owns(ram, t, level, path[0]);
      assert Subtree(ram, t, level, path[0]);
      ChildInside(ram, t, level, path[0]);
      WalkFrame(ram, ram', Child(ram, t, path[0]), level - 1, path[1..]);
    }
  }

  /** flags | PTE_PRESENT */
  function OrPresent(flags: nat): nat {
    if flags % 2 == 1 then flags else flags + 1
  }

  function LeafEntry(phys: nat, flags: nat): nat {
    4096 * Frame(phys) + OrPresent(flags)
  }

  /** The three steps down to the page table that holds the leaf entry. */
  method DescendToLeaf(b: Buddy, root: nat, i4: nat, i3: nat, i2: nat) returns (pt: nat, ghost tables: set<nat>)
    requires b.Ok() && i4 < Limit(4) && i3 < Limit(3) && i2 < Limit(2)
             && Ready(b.ram, b.free, root, [], root, [i4, i3, i2])
    modifies b`ram, b`lists, b`free, b`live, b.freeLists
    ensures b.Ok() && |b.ram| == |old(b.ram)|
    ensures Grown(old(b.ram), b.ram, root, tables, old(b.free))
    ensures Ready(b.ram, b.free, root, [i4, i3, i2], pt, [])
    ensures tables <= old(b.free) && b.free == old(b.free) - tables && b.live == old(b.live) + Singles(tables)
    ensures Indices([i4, i3, i2]) && |tables| == Missing(old(b.ram), root, [i4, i3, i2])
    ensures Branched(old(b.ram), b.ram, root, [i4, i3, i2])
    ensures OpenTables(old(b.ram), root, 4) ==> OpenTables(b.ram, root, 4)
  {
    hide *;
    ghost var ram0, free0 := b.ram, b.free;
    ReadyApart(ram0, free0, root, [], root, [i4, i3, i2]);
    var pdpt, pd;
    ghost var t3, t2, t1;
    assert [i4] + [i3, i2] == [i4, i3, i2] && [] + [i4] == [i4];
    pdpt, t3 := Descend(b, root, [], root, i4, [i3, i2]);
    ghost var ram1 := b.ram;
    assert [i3] + [i2] == [i3, i2] && [i4] + [i3] == [i4, i3];
    pd, t2 := Descend(b, root, [i4], pdpt, i3, [i2]);
    ghost var ram2 := b.ram;
    GrownCompose(ram0, ram1, ram2, root, t3, t2, free0);
    BranchedCompose(ram0, ram1, ram2, root, [i4], [i4, i3]);
    assert [i2] + [] == [i2] && [i4, i3] + [i2] == [i4, i3, i2];
    pt, t1 := Descend(b, root, [i4, i3], pd, i2, []);
    assert free0 - t3 - t2 == free0 - (t3 + t2);
    GrownCompose(ram0, ram2, b.ram, root, t3 + t2, t1, free0);
    BranchedCompose(ram0, ram2, b.ram, root, [i4, i3], [i4, i3, i2]);
    tables := t3 + t2 + t1;
    SinglesSum(t3, t2);
    SinglesSum(t3 + t2, t1);
    MissingNone(b.ram, pt);
    assert |t3 + t2| == |t3| + |t2| && |t3 + t2 + t1| == |t3 + t2| + |t1|;
  }

  lemma ReadyApart(ram: Memory, free: set<nat>, root: nat, prefix: seq<nat>, t: nat, rest: seq<nat>)
    requires Ready(ram, free, root, prefix, t, rest)
    ensures Footprint(ram, root, 4) !! free && Indices(rest)
  {
  }

  lemma MissingNone(ram: Memory, t: nat)
    ensures Indices([]) && Missing(ram, t, []) == 0
  {
  }

  /**
   * map_page_pml4: map the page of virt to the frame of phys. The tables missing on the way must fit in
   * free memory, and a user frame must belong neither to the tree nor to the allocator.
   */
  method MapPagePml4(b: Buddy, pml4: nat, virt: nat, phys: nat, flags: nat) returns (ghost tables: set<nat>)
    requires b.Ok() && virt < 0x8000_0000_0000 && Ready(b.ram, b.free, pml4, [], pml4, PathOf(virt)[..3])
    requires flags < 4096 && Frame(phys) < |b.ram|
    requires IsUser(flags) ==> Frame(phys) !in b.free && Frame(phys) !in Footprint(b.ram, pml4, 4)
    modifies b`ram, b`lists, b`free, b`live, b.freeLists
    ensures b.Ok() && |b.ram| == |old(b.ram)|
    ensures Remapped(old(b.ram), b.ram, pml4, PathOf(virt), LeafEntry(phys, flags), tables, old(b.free))
    ensures tables <= old(b.free) && b.free == old(b.free) - tables && b.live == old(b.live) + Singles(tables)
    ensures |tables| == Missing(old(b.ram), pml4, PathOf(virt)[..3])
    ensures Branched(old(b.ram), b.ram, pml4, PathOf(virt))
    ensures OpenTables(old(b.ram), pml4, 4) ==> OpenTables(b.ram, pml4, 4)
    ensures OpenTables(old(b.ram), pml4, 4) ==>
              && (UserMay(b.ram, pml4, 4, PathOf(virt)) <==> flags / 4 % 2 == 1)
              && (MayWrite(b.ram, pml4, 4, PathOf(virt)) <==> flags / 2 % 2 == 1)
    ensures OpenTables(old(b.ram), pml4, 4) ==> OtherRights(old(b.ram), b.ram, pml4, PathOf(virt))
  {
    hide *;
    var i4, i3, i2, i1 := virt / 0x80_0000_0000 % 512, virt / 0x4000_0000 % 512, virt / 0x20_0000 % 512,
      virt / 0x1000 % 512;
    PathIndices(virt, i4, i3, i2, i1);
    ghost var ram0, free0 := b.ram, b.free;
    ReadyApart(ram0, free0, pml4, [], pml4, [i4, i3, i2]);
    var pt;
    pt, tables := DescendToLeaf(b, pml4, i4, i3, i2);
    ghost var ram1 := b.ram;
    LeafTable(ram0, ram1, b.free, pml4, [i4, i3, i2], pt, tables, free0);
    LeafBound(b, phys, flags);
    WriteEntry(b, pt, i1, LeafEntry(phys, flags));
    LeafWritten(ram0, ram1, b.ram, pml4, [i4, i3, i2], i1, LeafEntry(phys, flags), tables, free0);
    LeafBranched(ram0, ram1, b.ram, pml4, [i4, i3, i2], i1, LeafEntry(phys, flags));
    if OpenTables(ram0, pml4, 4) {
      LeafOpen(ram1, b.ram, pml4, [i4, i3, i2], i1, LeafEntry(phys, flags));
      MappedRights(ram0, b.ram, pml4, PathOf(virt), phys, flags, tables, free0);
    }
  }

  /**
   * ram' is ram with path mapped to the entry pte: every other walk finds what it did, no data page
   * mapped before has changed, and the tree has gained the tables and the page mapped and lost only
   * the page path was mapped to before.
   */
  ghost predicate Remapped(ram: Memory, ram': Memory, root: nat, path: seq<nat>, pte: nat, tables: set<nat>,
                           free: set<nat>) {
    && |ram'| == |ram| && root < |ram| && InRange(path, 4) && pte < ADDRESS_SPACE
    && Changed(ram, ram', root, 4, UserFrame(Walk(ram, root, 4, path)), tables + UserFrame(Mapped(pte)))
    && (forall p :: InRange(p, 4) ==>
          Walk(ram', root, 4, p) == if p == path then Mapped(pte) else Walk(ram, root, 4, p))
    && SameFrames(ram, ram', root) && Spine(ram', root, 4, path[..3])
    && (forall p :: 0 <= p < |ram| && p !in free && p !in Footprint(ram, root, 4) ==> ram'[p] == ram[p])
    && forall j :: 256 <= j < 512 ==> ram'[root][j] == ram[root][j]
  }

  lemma PathIndices(virt: nat, i4: nat, i3: nat, i2: nat, i1: nat)
    requires virt < 0x8000_0000_0000
    requires i4 == virt / 0x80_0000_0000 % 512 && i3 == virt / 0x4000_0000 % 512 && i2 == virt / 0x20_0000 % 512
             && i1 == virt / 0x1000 % 512
    ensures PathOf(virt) == [i4, i3, i2] + [i1] && PathOf(virt)[..3] == [i4, i3, i2]
    ensures i4 < Limit(4) && i3 < Limit(3) && i2 < Limit(2) && i1 < 512
  {
  }

  lemma EntryParts(frame: nat, low: nat)
    requires low < 4096
    ensures Frame(4096 * frame + low) == frame && Flags(4096 * frame + low) == low
    ensures IsPresent(4096 * frame + low) == IsPresent(low)
  {
  }

  lemma EntryUser(frame: nat, low: nat)
    requires low < 4096
    ensures IsUser(4096 * frame + low) == IsUser(low)
  {
    var k, r := low / 4, low % 4;
    Arith.DivUnique(4096 * frame + low, 4, 1024 * frame + k, r);
    Arith.DivUnique(1024 * frame + k, 2, 512 * frame + k / 2, k % 2);
  }

  lemma LeafBound(b: Buddy, phys: nat, flags: nat)
    requires b.Ok() && Frame(phys) < |b.ram| && flags < 4096
    ensures LeafEntry(phys, flags) < 0x1_0000_0000_0000_0000 == ADDRESS_SPACE && IsPresent(LeafEntry(phys, flags))
    ensures Frame(LeafEntry(phys, flags)) == Frame(phys) && Flags(LeafEntry(phys, flags)) == OrPresent(flags)
    ensures IsUser(LeafEntry(phys, flags)) == IsUser(flags)
  {
    EntryParts(Frame(phys), OrPresent(flags));
    EntryUser(Frame(phys), OrPresent(flags));
    assert OrPresent(flags) / 4 == flags / 4;
  }

  lemma LeafTable(ram: Memory, ram': Memory, free': set<nat>, root: nat, prefix: seq<nat>, pt: nat, tables: set<nat>,
                  free: set<nat>)
    requires Ready(ram', free', root, prefix, pt, []) && |prefix| == 3 && Grown(ram, ram', root, tables, free)
    ensures pt < |ram'| && pt !in free'
    ensures Footprint(ram', root, 4) == Footprint(ram, root, 4) + tables
    ensures Tree(ram', root, 4) && Spine(ram', root, 4, prefix) && pt == Bottom(ram', root, 4, prefix)
  {
    BottomInside(ram', root, 4, prefix);
    assert pt in Footprint(ram', pt, 1);
  }

  lemma LeafWritten(r0: Memory, r1: Memory, r2: Memory, root: nat, prefix: seq<nat>, i: nat, pte: u64, tables: set<nat>,
                    free: set<nat>)
    requires Grown(r0, r1, root, tables, free) && tables <= free && Footprint(r0, root, 4) !! free
    requires |prefix| == 3 && Spine(r1, root, 4, prefix) && i < 512 && InRange(prefix + [i], 4) && IsPresent(pte)
    requires var pt := Bottom(r1, root, 4, prefix); pt < |r1| && r2 == r1[pt := r1[pt][i := pte]]
    requires IsUser(pte) ==> Frame(pte) < |r0| && Frame(pte) !in free && Frame(pte) !in Footprint(r0, root, 4)
    ensures Remapped(r0, r2, root, prefix + [i], pte, tables, free)
  {
    hide *;
    var pt, path := Bottom(r1, root, 4, prefix), prefix + [i];
    GrownParts(r0, r1, root, tables, free);
    BottomInside(r1, root, 4, prefix);
    var gone, added := UserFrame(Walk(r0, root, 4, path)), UserFrame(Mapped(pte));
    LeafWalk(r0, r1, root, prefix, i);
    LeafOutside(r0, r1, root, tables, free, pte);
    LeafChanged(r1, r2, pt, i, pte);
    SameOutsideIntro(r1, r2, Footprint(r1, root, 4), Footprint(r1, pt, 1), pt);
    SpineLift(r1, r2, root, 4, prefix, gone, added);
    GoneInside(r0, root, path, free, tables);
    ChangedCompose(r0, r1, r2, root, 4, tables, gone, added);
    forall p | InRange(p, 4) ensures Walk(r2, root, 4, p) == if p == path then Mapped(pte) else Walk(r0, root, 4, p) {
      LeafWalks(r0, r1, r2, root, prefix, i, pte, p);
    }
    FramesKept(r1, r2, root, prefix, {});
    SameFramesCompose(r0, r1, r2, root);
    BottomNotRoot(r1, root, 4, prefix);
    assert path[..3] == prefix;
    RemappedIntro(r0, r2, root, path, pte, tables, free);
  }

  lemma LeafBranched(r0: Memory, r1: Memory, r2: Memory, root: nat, prefix: seq<nat>, i: nat, pte: u64)
    requires Branched(r0, r1, root, prefix) && Tree(r1, root, 4) && |prefix| == 3 && Spine(r1, root, 4, prefix)
             && i < 512
    requires var pt := Bottom(r1, root, 4, prefix); pt < |r1| && r2 == r1[pt := r1[pt][i := pte]]
    ensures Branched(r0, r2, root, prefix + [i])
  {
    hide *;
    var pt, path := Bottom(r1, root, 4, prefix), prefix + [i];
    BottomInside(r1, root, 4, prefix);
    SameOutsideIntro(r1, r2, Footprint(r1, root, 4), Footprint(r1, pt, 1), pt);
    forall q | |q| < 4 ensures Spine(r2, root, 4, q) <==> Spine(r0, root, 4, q) || q <= path {
      SpineChange(r1, r2, root, 4, prefix, q);
      BranchedAt(r0, r1, root, prefix, q);
      if prefix <= q {
        assert q == prefix && q[3..] == [];
        NoSteps(r2, pt, 1);
      } else if q <= path {
        assert q <= prefix by { ShortStart(prefix, q, i); }
      }
    }
    BranchedIntro(r0, r2, root, path);
  }

  lemma LeafOpen(r1: Memory, r2: Memory, root: nat, prefix: seq<nat>, i: nat, pte: u64)
    requires Tree(r1, root, 4) && OpenTables(r1, root, 4) && |prefix| == 3 && Spine(r1, root, 4, prefix) && i < 512
    requires var pt := Bottom(r1, root, 4, prefix); pt < |r1| && r2 == r1[pt := r1[pt][i := pte]]
    ensures OpenTables(r2, root, 4)
  {
    hide *;
    var pt := Bottom(r1, root, 4, prefix);
    BottomInside(r1, root, 4, prefix);
    SameOutsideIntro(r1, r2, Footprint(r1, root, 4), Footprint(r1, pt, 1), pt);
    LastOpen(r2, pt);
    OpenLift(r1, r2, root, 4, prefix);
  }

  lemma LastOpen(ram: Memory, t: nat)
    ensures OpenTables(ram, t, 1)
  {
  }

  /** The rights of every page but that at path are what they were. */
  ghost predicate OtherRights(ram: Memory, ram': Memory, root: nat, path: seq<nat>) {
    forall p :: InRange(p, 4) && p != path ==>
      && (UserMay(ram', root, 4, p) <==> UserMay(ram, root, 4, p))
      && (MayWrite(ram', root, 4, p) <==> MayWrite(ram, root, 4, p))
  }

  /** The page mapped has the rights of its flags, every other page the rights it had. */
  lemma MappedRights(ram: Memory, ram': Memory, root: nat, path: seq<nat>, phys: nat, flags: nat, tables: set<nat>,
                     free: set<nat>)
    requires Remapped(ram, ram', root, path, LeafEntry(phys, flags), tables, free) && flags < 4096
    requires OpenTables(ram, root, 4) && OpenTables(ram', root, 4)
    ensures InRange(path, 4) && OtherRights(ram, ram', root, path)
    ensures UserMay(ram', root, 4, path) <==> flags / 4 % 2 == 1
    ensures MayWrite(ram', root, 4, path) <==> flags / 2 % 2 == 1
  {
    hide *;
    RemappedTrees(ram, ram', root, path, LeafEntry(phys, flags), tables, free);
    LeafBits(phys, flags);
    Rights(ram', root, 4, path);
    forall p | InRange(p, 4) && p != path
      ensures UserMay(ram', root, 4, p) <==> UserMay(ram, root, 4, p)
      ensures MayWrite(ram', root, 4, p) <==> MayWrite(ram, root, 4, p)
    {
      RemappedAt(ram, ram', root, path, LeafEntry(phys, flags), tables, free, p);
      Rights(ram, root, 4, p);
      Rights(ram', root, 4, p);
    }
    OtherRightsIntro(ram, ram', root, path);
  }

  lemma RemappedTrees(ram: Memory, ram': Memory, root: nat, path: seq<nat>, e: nat, tables: set<nat>, free: set<nat>)
    requires Remapped(ram, ram', root, path, e, tables, free)
    ensures Tree(ram, root, 4) && Tree(ram', root, 4) && InRange(path, 4)
    ensures e < ADDRESS_SPACE == 0x1_0000_0000_0000_0000 && Walk(ram', root, 4, path) == Mapped(e)
  {
    hide Tree, Walk, Footprint, SameFrames, Spine;
  }

  lemma RemappedAt(ram: Memory, ram': Memory, root: nat, path: seq<nat>, e: nat, tables: set<nat>, free: set<nat>,
                   p: seq<nat>)
    requires Remapped(ram, ram', root, path, e, tables, free) && InRange(p, 4) && p != path
    ensures Walk(ram', root, 4, p) == Walk(ram, root, 4, p)
  {
    hide Tree, Walk, Footprint, SameFrames, Spine, Changed;
  }

  lemma OtherRightsIntro(ram: Memory, ram': Memory, root: nat, path: seq<nat>)
    requires forall p :: InRange(p, 4) && p != path ==>
               && (UserMay(ram', root, 4, p) <==> UserMay(ram, root, 4, p))
               && (MayWrite(ram', root, 4, p) <==> MayWrite(ram, root, 4, p))
    ensures OtherRights(ram, ram', root, path)
  {
  }

  lemma LeafBits(phys: nat, flags: nat)
    requires flags < 4096
    ensures LeafEntry(phys, flags) / 4 % 2 == flags / 4 % 2 && LeafEntry(phys, flags) / 2 % 2 == flags / 2 % 2
  {
    var low := OrPresent(flags);
    LowBits(Frame(phys), low);
    assert low / 4 == flags / 4 && low / 2 == flags / 2;
  }

  /** Bits 1 and 2 of an entry are those of its flags. */
  lemma LowBits(frame: nat, low: nat)
    requires low < 4096
    ensures (4096 * frame + low) / 4 % 2 == low / 4 % 2 && (4096 * frame + low) / 2 % 2 == low / 2 % 2
  {
    EntryUser(frame, low);
    Arith.DivUnique(4096 * frame + low, 2, 2048 * frame + low / 2, low % 2);
    Arith.DivUnique(2048 * frame + low / 2, 2, 1024 * frame + low / 4, low / 2 % 2);
  }

  /** Entries with the same flags have the same bits. */
  lemma FlagBits(a: nat, b: nat)
    requires Flags(a) == Flags(b)
    ensures a / 2 % 2 == b / 2 % 2 && a / 4 % 2 == b / 4 % 2
  {
    assert a == 4096 * Frame(a) + Flags(a) && b == 4096 * Frame(b) + Flags(b);
    LowBits(Frame(a), Flags(a));
    LowBits(Frame(b), Flags(b));
  }

  lemma NoSteps(ram: Memory, t: nat, level: nat)
    requires level > 0
    ensures Spine(ram, t, level, []) <==> t < |ram|
  {
  }

  lemma BranchedAt(ram: Memory, ram': Memory, root: nat, path: seq<nat>, q: seq<nat>)
    requires Branched(ram, ram', root, path) && |q| < 4
    ensures Spine(ram', root, 4, q) <==> Spine(ram, root, 4, q) || q <= path
  {
  }

  lemma GrownParts(r0: Memory, r1: Memory, root: nat, tables: set<nat>, free: set<nat>)
    requires Grown(r0, r1, root, tables, free)
    ensures |r1| == |r0| && root < |r0| && Tree(r0, root, 4) && Tree(r1, root, 4)
            && Footprint(r1, root, 4) == Footprint(r0, root, 4) + tables
    ensures Changed(r0, r1, root, 4, {}, tables) && SameWalks(r0, r1, root) && SameFrames(r0, r1, root)
    ensures forall p :: 0 <= p < |r0| && p !in free && p !in Footprint(r0, root, 4) ==> r1[p] == r0[p]
    ensures forall j :: 256 <= j < 512 ==> r1[root][j] == r0[root][j]
  {
  }

  lemma RemappedIntro(ram: Memory, ram': Memory, root: nat, path: seq<nat>, pte: u64, tables: set<nat>, free: set<nat>)
    requires |ram'| == |ram| && root < |ram| && InRange(path, 4)
    requires Changed(ram, ram', root, 4, UserFrame(Walk(ram, root, 4, path)), tables + UserFrame(Mapped(pte)))
    requires forall p :: InRange(p, 4) ==>
             Walk(ram', root, 4, p) == if p == path then Mapped(pte) else Walk(ram, root, 4, p)
    requires SameFrames(ram, ram', root) && Spine(ram', root, 4, path[..3])
    requires forall p :: 0 <= p < |ram| && p !in free && p !in Footprint(ram, root, 4) ==> ram'[p] == ram[p]
    requires forall j :: 256 <= j < 512 ==> ram'[root][j] == ram[root][j]
    ensures Remapped(ram, ram', root, path, pte, tables, free)
  {
  }

  lemma LeafWalk(r0: Memory, r1: Memory, root: nat, prefix: seq<nat>, i: nat)
    requires SameWalks(r0, r1, root) && Tree(r1, root, 4) && |prefix| == 3 && Spine(r1, root, 4, prefix)
             && InRange(prefix + [i], 4)
    ensures Indices([i]) && Walk(r1, Bottom(r1, root, 4, prefix), 1, [i]) == Walk(r0, root, 4, prefix + [i])
  {
    var path := prefix + [i];
    assert path[3..] == [i] && prefix <= path && path[3] == i;
    SpineWalk(r1, r1, root, 4, prefix, path);
  }

  lemma LeafOutside(r0: Memory, r1: Memory, root: nat, tables: set<nat>, free: set<nat>, pte: u64)
    requires Footprint(r1, root, 4) == Footprint(r0, root, 4) + tables && tables <= free
    requires IsUser(pte) && IsPresent(pte) ==> Frame(pte) !in free && Frame(pte) !in Footprint(r0, root, 4)
    ensures IsUser(pte) && IsPresent(pte) ==> UserFrame(Mapped(pte)) !! Footprint(r1, root, 4)
    ensures !IsUser(pte) ==> UserFrame(Mapped(pte)) == {}
  {
  }

  lemma SameOutsideIntro(ram: Memory, ram': Memory, all: set<nat>, part: set<nat>, t: nat)
    requires |ram'| == |ram| && t in part && forall p :: 0 <= p < |ram| && p != t ==> ram'[p] == ram[p]
    ensures SameOutside(ram, ram', all, part)
  {
  }

  lemma GoneInside(ram: Memory, root: nat, path: seq<nat>, free: set<nat>, tables: set<nat>)
    requires Tree(ram, root, 4) && InRange(path, 4) && Footprint(ram, root, 4) !! free && tables <= free
    ensures UserFrame(Walk(ram, root, 4, path)) !! tables
  {
    if Walk(ram, root, 4, path).Mapped? && IsUser(Walk(ram, root, 4, path).pte) {
      WalkFinds(ram, root, 4, path);
    }
  }

  lemma LeafWalks(r0: Memory, r1: Memory, r2: Memory, root: nat, prefix: seq<nat>, i: nat, pte: u64, p: seq<nat>)
    requires SameWalks(r0, r1, root) && Tree(r1, root, 4) && |prefix| == 3 && Spine(r1, root, 4, prefix)
             && InRange(p, 4)
    requires var pt := Bottom(r1, root, 4, prefix);
             && SameOutside(r1, r2, Footprint(r1, root, 4), Footprint(r1, pt, 1))
             && forall q :: InRange(q, 1) ==> Walk(r2, pt, 1, q) == if q == [i] then Mapped(pte) else Walk(r1, pt, 1, q)
    ensures Walk(r2, root, 4, p) == if p == prefix + [i] then Mapped(pte) else Walk(r0, root, 4, p)
  {
    SpineWalk(r1, r2, root, 4, prefix, p);
    SpineWalk(r1, r1, root, 4, prefix, p);
    hide Tree, Spine, Bottom, Walk;
    if prefix <= p {
      RestInRange(p, prefix);
      assert p == prefix + [p[3]] && p[3..] == [p[3]];
    } else {
      assert p != prefix + [i];
    }
  }

  lemma SameFramesCompose(r0: Memory, r1: Memory, r2: Memory, root: nat)
    requires SameFrames(r0, r1, root) && SameFrames(r1, r2, root) && SameWalks(r0, r1, root)
    ensures SameFrames(r0, r2, root)
  {
  }
}
