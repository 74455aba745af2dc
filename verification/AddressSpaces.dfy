/**
 * Whole user address spaces: creating one, releasing one, and the round trip of fork. The nested loops
 * over the levels of tables are one method that calls itself a level down.
 */
module AddressSpaces {
  import opened Blocks
  import opened BuddySpec
  import opened BuddyAllocator
  import opened PageTree
  import opened PageTables
  import opened UserImage
  import opened CopySpace

  /** create_user_pml4: a root with an empty user half and the kernel half of the current one. */
  method CreateUserPml4(b: Buddy, kernelPml4: nat) returns (addr: nat, page: nat)
    requires b.Ok() && kernelPml4 < |b.ram| && kernelPml4 !in b.free
    modifies b`ram, b`lists, b`free, b`live, b.freeLists
    ensures b.Ok() && |b.ram| == |old(b.ram)|
    ensures addr == 0 <==> old(b.free) == {}
    ensures addr == 0 ==> b.free == old(b.free) && b.live == old(b.live) && b.ram == old(b.ram)
    ensures addr != 0 ==>
              && page in old(b.free) && b.free == old(b.free) - {page} && b.live == old(b.live) + Singles({page})
              && Tree(b.ram, page, 4) && Footprint(b.ram, page, 4) == {page} && page < |b.ram|
              && Unmapped(b.ram, page)
              && forall j :: 256 <= j < 512 ==> b.ram[page][j] == old(b.ram)[kernelPml4][j]
    ensures forall p :: 0 <= p < |b.ram| && p !in old(b.free) ==> b.ram[p] == old(b.ram)[p]
  {
    addr, page := AllocPage(b);
    hide *;
    if addr == 0 {
      return;
    }
    ZeroTable(b, page);
    CopyKernelHalf(b, page, kernelPml4);
    FreshRoot(b.ram, page);
  }

  /** The loop of create_user_pml4: entries 256 to 511 are those of the kernel's root. */
  method CopyKernelHalf(b: Buddy, page: nat, kernelPml4: nat)
    requires b.Ok() && page < |b.ram| && page !in b.free && kernelPml4 < |b.ram| && kernelPml4 !in b.free
             && page != kernelPml4
    requires b.ram[page] == Filled(0)
    modifies b`ram
    ensures b.Ok() && |b.ram| == |old(b.ram)|
    ensures forall p :: 0 <= p < |b.ram| && p != page ==> b.ram[p] == old(b.ram)[p]
    ensures forall j :: 0 <= j < 512 ==> b.ram[page][j] == if 256 <= j then old(b.ram)[kernelPml4][j] else 0
  {
    hide *;
    ghost var r1 := b.ram;
    ZeroPage();
    for i := 256 to 512
      invariant b.Ok() && |b.ram| == |r1|
      invariant forall p :: 0 <= p < |b.ram| && p != page ==> b.ram[p] == r1[p]
      invariant forall j :: 0 <= j < 512 ==> b.ram[page][j] == if 256 <= j < i then r1[kernelPml4][j] else 0
    {
      var pte := ReadEntry(b, kernelPml4, i);
      WriteEntry(b, page, i, pte);
    }
  }

  lemma ZeroPage()
    ensures forall j :: 0 <= j < 512 ==> Filled(0)[j] == 0
  {
  }

  lemma FreshRoot(ram: Memory, page: nat)
    requires page < |ram| && forall j :: 0 <= j < 256 ==> ram[page][j] == 0
    ensures Tree(ram, page, 4) && Footprint(ram, page, 4) == {page} && Unmapped(ram, page)
  {
    EmptyTable(ram, page, 4);
  }

  /** The pages of the subtree t are all live single pages, none of them free. */
  ghost predicate CanFree(ram: Memory, h: Heap, t: nat, level: nat) {
    Tree(ram, t, level) && Footprint(ram, t, level) !! h.free && Singles(Footprint(ram, t, level)) <= h.live
  }

  ghost function Released(h: Heap, pages: set<nat>): Heap {
    Heap(h.free + pages, h.live - Singles(pages))
  }

  /** Only pages that are now free have lost their contents. */
  ghost predicate OthersKept(ram: Memory, ram': Memory, free: set<nat>) {
    |ram'| == |ram| && forall p :: 0 <= p < |ram| && p !in free ==> ram'[p] == ram[p]
  }

  /** Where releasing the subtree t stands: the pages under its first n entries are free again. */
  ghost predicate Freeing(r0: Memory, r: Memory, h0: Heap, h: Heap, t: nat, level: nat, n: nat) {
    && 0 < level <= 4 && n <= Limit(level) && CanFree(r0, h0, t, level)
    && h == Released(h0, Kids(r0, t, level, n)) && OthersKept(r0, r, h.free)
  }

  /**
   * free_user_pml4 below the root: release everything under table t, then t itself. Every entry is
   * read while its table is still live.
   */
  method FreeLevel(b: Buddy, t: nat, level: nat)
    requires b.Ok() && CanFree(b.ram, b.State(), t, level) && 0 < level < 4
    modifies b`ram, b`lists, b`free, b`live, b.freeLists
    ensures b.Ok() && b.State() == Released(old(b.State()), Footprint(old(b.ram), t, level))
    ensures OthersKept(old(b.ram), b.ram, b.free)
    decreases level, 1
  {
    hide *;
    ghost var r0, h0 := b.ram, b.State();
    FreeStart(r0, h0, t, level);
    for i := 0 to Limit(level)
      invariant b.Ok() && Freeing(r0, b.ram, h0, b.State(), t, level, i)
    {
      FreeEntry(b, r0, h0, t, level, i);
    }
    ghost var r1, h1 := b.ram, b.State();
    FreeLast(r0, r1, h0, h1, t, level);
    StateParts(b);
    FreePage(b, t);
    StateParts(b);
    FreeDone(r0, r1, b.ram, h0, h1, t, level);
  }

  /** The body of the loop: release what entry i of t owns. */
  method FreeEntry(b: Buddy, ghost r0: Memory, ghost h0: Heap, t: nat, level: nat, i: nat)
    requires b.Ok() && Freeing(r0, b.ram, h0, b.State(), t, level, i) && i < Limit(level)
    modifies b`ram, b`lists, b`free, b`live, b.freeLists
    ensures b.Ok() && Freeing(r0, b.ram, h0, b.State(), t, level, i + 1)
    decreases level, 0
  {
    hide *;
    ghost var r1, h1 := b.ram, b.State();
    FreeNext(r0, r1, h0, h1, t, level, i);
    StateParts(b);
    var pte := ReadEntry(b, t, i);
    if IsPresent(pte) && (level > 1 || IsUser(pte)) {
      if level == 1 {
        FreePage(b, Frame(pte));
        StateParts(b);
        FreedLeaf(h1, b.State(), r1, b.ram, Frame(pte));
      } else {
        FreeLevel(b, Frame(pte), level - 1);
        StateParts(b);
      }
      FreeStep(r0, r1, b.ram, h0, h1, b.State(), t, level, i);
    } else {
      FreeSkip(r0, r1, h0, h1, t, level, i);
    }
  }

  lemma StateParts(b: Buddy)
    ensures b.State() == Heap(b.free, b.live)
  {
  }

  lemma FreeStart(ram: Memory, h: Heap, t: nat, level: nat)
    requires CanFree(ram, h, t, level) && 0 < level <= 4
    ensures Freeing(ram, ram, h, h, t, level, 0)
  {
    hide Tree, Footprint;
    SinglesSum({}, {});
    assert h.free + {} == h.free && h.live - {} == h.live;
    assert Released(h, {}) == h;
  }

  /** The table being emptied is still live, and so is all that the next entry leads to. */
  lemma FreeNext(r0: Memory, r1: Memory, h0: Heap, h1: Heap, t: nat, level: nat, i: nat)
    requires Freeing(r0, r1, h0, h1, t, level, i) && i < Limit(level)
    ensures 0 < level <= 4 && t < |r1| && i < 512 && t !in h1.free && Tree(r0, t, level)
    ensures Owns(r0, t, level, i) <==> IsPresent(r1[t][i]) && (level > 1 || IsUser(r1[t][i]))
    ensures Owns(r0, t, level, i) ==>
              var c := Frame(r1[t][i]);
              && CanFree(r1, h1, c, level - 1) && Footprint(r1, c, level - 1) == Target(r0, t, level, i)
              && (level == 1 ==> Target(r0, t, level, i) == {c} && Block(c, 0) in h1.live)
  {
    hide Tree, Footprint, Kids;
    TableKept(r0, h0, t, level, i);
    if Owns(r0, t, level, i) {
      NextSubtree(r0, r1, h0, h1, t, level, i);
    }
  }

  lemma TableKept(ram: Memory, h: Heap, t: nat, level: nat, i: nat)
    requires CanFree(ram, h, t, level) && 0 < level <= 4 && i < Limit(level)
    ensures t < |ram| && t !in h.free && t !in Kids(ram, t, level, i) && t in Footprint(ram, t, level)
    ensures Kids(ram, t, level, i) <= Footprint(ram, t, level)
    ensures Target(ram, t, level, i) <= Footprint(ram, t, level) && Target(ram, t, level, i) !! Kids(ram, t, level, i)
  {
    KidsStep(ram, t, level, i);
    KidsTotal(ram, t, level, i);
    KidsTotal(ram, t, level, i + 1);
  }

  lemma NextSubtree(r0: Memory, r1: Memory, h0: Heap, h1: Heap, t: nat, level: nat, i: nat)
    requires Freeing(r0, r1, h0, h1, t, level, i) && Owns(r0, t, level, i) && t < |r1| && r1[t] == r0[t]
    ensures 0 < level && i < 512
    ensures var c := Frame(r1[t][i]);
            && CanFree(r1, h1, c, level - 1) && Footprint(r1, c, level - 1) == Target(r0, t, level, i)
            && (level == 1 ==> Target(r0, t, level, i) == {c} && Block(c, 0) in h1.live)
  {
    hide Tree, Kids;
    var c, kids := Child(r0, t, i), Kids(r0, t, level, i);
    ChildTree(r0, t, level, i);
    TableKept(r0, h0, t, level, i);
    TreeFrame(r0, r1, c, level - 1);
    SinglesApart(h0.live, Footprint(r0, t, level), kids, Footprint(r0, c, level - 1));
    assert level == 1 ==> Footprint(r0, c, level - 1) == {c};
    assert level == 1 ==> Block(c, 0) in Singles({c});
  }

  lemma SinglesApart(live: set<Block>, all: set<nat>, gone: set<nat>, rest: set<nat>)
    requires Singles(all) <= live && rest <= all && rest !! gone
    ensures Singles(rest) <= live - Singles(gone)
  {
  }

  lemma FreedLeaf(h1: Heap, h2: Heap, r1: Memory, r2: Memory, c: nat)
    requires |r2| == |r1| && h2.free == h1.free + {c} && h2.live == h1.live - Singles({c})
    requires forall p :: 0 <= p < |r1| && p !in h2.free ==> r2[p] == r1[p]
    ensures h2 == Released(h1, {c}) && OthersKept(r1, r2, h2.free)
  {
  }

  lemma ReleasedTwice(h: Heap, a: set<nat>, b: set<nat>)
    ensures Released(Released(h, a), b) == Released(h, a + b)
  {
    SinglesSum(a, b);
    assert h.free + a + b == h.free + (a + b);
    assert h.live - Singles(a) - Singles(b) == h.live - (Singles(a) + Singles(b));
  }

  lemma FreeStep(r0: Memory, r1: Memory, r2: Memory, h0: Heap, h1: Heap, h2: Heap, t: nat, level: nat, i: nat)
    requires Freeing(r0, r1, h0, h1, t, level, i) && i < Limit(level)
    requires h2 == Released(h1, Target(r0, t, level, i)) && OthersKept(r1, r2, h2.free)
    ensures Freeing(r0, r2, h0, h2, t, level, i + 1)
  {
    hide Tree, Footprint, Kids, Target;
    KidsStep(r0, t, level, i);
    ReleasedTwice(h0, Kids(r0, t, level, i), Target(r0, t, level, i));
  }

  lemma FreeSkip(r0: Memory, r1: Memory, h0: Heap, h1: Heap, t: nat, level: nat, i: nat)
    requires Freeing(r0, r1, h0, h1, t, level, i) && i < Limit(level) && !Owns(r0, t, level, i)
    ensures Freeing(r0, r1, h0, h1, t, level, i + 1)
  {
    hide Tree, Footprint, Kids;
    KidsStep(r0, t, level, i);
    assert Kids(r0, t, level, i) + {} == Kids(r0, t, level, i);
  }

  lemma FreeLast(r0: Memory, r1: Memory, h0: Heap, h1: Heap, t: nat, level: nat)
    requires Freeing(r0, r1, h0, h1, t, level, Limit(level))
    ensures Block(t, 0) in h1.live && 0 < level
  {
    hide Tree, Footprint, Kids;
    var kids := Kids(r0, t, level, Limit(level));
    KidsTotal(r0, t, level, Limit(level));
    KidsStep(r0, t, level, Limit(level) - 1);
    SinglesApart(h0.live, Footprint(r0, t, level), kids, {t});
    assert Block(t, 0) in Singles({t});
  }

  lemma FreeDone(r0: Memory, r1: Memory, r2: Memory, h0: Heap, h1: Heap, t: nat, level: nat)
    requires Freeing(r0, r1, h0, h1, t, level, Limit(level)) && |r2| == |r1|
    requires forall p :: 0 <= p < |r1| && p !in h1.free + {t} ==> r2[p] == r1[p]
    ensures Heap(h1.free + {t}, h1.live - Singles({t})) == Released(h0, Footprint(r0, t, level))
    ensures OthersKept(r0, r2, h1.free + {t})
  {
    hide Tree, Footprint, Kids;
    var kids := Kids(r0, t, level, Limit(level));
    KidsTotal(r0, t, level, Limit(level));
    ReleasedTwice(h0, kids, {t});
    assert kids + {t} == {t} + kids;
  }

  /** Where free_user_pml4 stands after n entries of the root: those are cleared, the rest as they were. */
  ghost predicate Emptying(r0: Memory, r: Memory, h0: Heap, h: Heap, root: nat, n: nat) {
    && n <= 256 && CanFree(r0, h0, root, 4) && root < |r0| == |r|
    && h == Released(h0, Kids(r0, root, 4, n))
    && (forall p :: 0 <= p < |r| && p !in h.free && p != root ==> r[p] == r0[p])
    && forall j :: 0 <= j < 512 ==> r[root][j] == if j < n && IsPresent(r0[root][j]) then 0 else r0[root][j]
  }

  /**
   * free_user_pml4: every user page and every table below the root goes back to the allocator, once;
   * the user half of the root is cleared and the kernel half left alone.
   */
  method FreeUserPml4(b: Buddy, pml4: nat)
    requires b.Ok() && CanFree(b.ram, b.State(), pml4, 4)
    modifies b`ram, b`lists, b`free, b`live, b.freeLists
    ensures b.Ok() && b.State() == Released(old(b.State()), Footprint(old(b.ram), pml4, 4) - {pml4})
    ensures Tree(b.ram, pml4, 4) && Footprint(b.ram, pml4, 4) == {pml4} && pml4 !in b.free && Unmapped(b.ram, pml4)
    ensures pml4 < |b.ram| == |old(b.ram)|
    ensures forall j :: 256 <= j < 512 ==> b.ram[pml4][j] == old(b.ram)[pml4][j]
    ensures forall p :: 0 <= p < |b.ram| && p !in b.free && p != pml4 ==> b.ram[p] == old(b.ram)[p]
  {
    hide *;
    ghost var r0, h0 := b.ram, b.State();
    EmptyStart(r0, h0, pml4);
    for i := 0 to 256
      invariant b.Ok() && Emptying(r0, b.ram, h0, b.State(), pml4, i)
    {
      ghost var r1, h1 := b.ram, b.State();
      EmptyNext(r0, r1, h0, h1, pml4, i);
      StateParts(b);
      var pte := ReadEntry(b, pml4, i);
      if IsPresent(pte) {
        FreeLevel(b, Frame(pte), 3);
        StateParts(b);
        ghost var r2 := b.ram;
        EmptyKeepsRoot(r0, r1, r2, h0, h1, b.State(), pml4, i);
        WriteEntry(b, pml4, i, 0);
        StateParts(b);
        EmptyStep(r0, r1, r2, b.ram, h0, h1, b.State(), pml4, i);
      } else {
        EmptySkip(r0, r1, h0, h1, pml4, i);
      }
    }
    StateParts(b);
    EmptyDone(r0, b.ram, h0, b.State(), pml4);
  }

  lemma EmptyStart(ram: Memory, h: Heap, root: nat)
    requires CanFree(ram, h, root, 4)
    ensures Emptying(ram, ram, h, h, root, 0)
  {
    FreeStart(ram, h, root, 4);
  }

  lemma EmptyNext(r0: Memory, r1: Memory, h0: Heap, h1: Heap, root: nat, i: nat)
    requires Emptying(r0, r1, h0, h1, root, i) && i < 256
    ensures root < |r1| && root !in h1.free && Limit(4) == 256 && r1[root][i] == r0[root][i]
    ensures Owns(r0, root, 4, i) <==> IsPresent(r1[root][i])
    ensures Owns(r0, root, 4, i) ==>
              CanFree(r1, h1, Frame(r1[root][i]), 3) && Footprint(r1, Frame(r1[root][i]), 3) == Target(r0, root, 4, i)
  {
    hide Tree, Footprint, Kids;
    TableKept(r0, h0, root, 4, i);
    if Owns(r0, root, 4, i) {
      var c, kids := Child(r0, root, i), Kids(r0, root, 4, i);
      ChildTree(r0, root, 4, i);
      TreeFrame(r0, r1, c, 3);
      SinglesApart(h0.live, Footprint(r0, root, 4), kids, Footprint(r0, c, 3));
    }
  }

  lemma EmptyKeepsRoot(r0: Memory, r1: Memory, r2: Memory, h0: Heap, h1: Heap, h2: Heap, root: nat, i: nat)
    requires Emptying(r0, r1, h0, h1, root, i) && i < 256
    requires h2 == Released(h1, Target(r0, root, 4, i)) && OthersKept(r1, r2, h2.free)
    ensures root < |r2| && root !in h2.free && r2[root] == r1[root]
  {
    hide Tree, Footprint, Kids, Target;
    TableKept(r0, h0, root, 4, i);
    KidsStep(r0, root, 4, i);
  }

  lemma EmptyStep(r0: Memory, r1: Memory, r2: Memory, r3: Memory, h0: Heap, h1: Heap, h2: Heap, root: nat, i: nat)
    requires Emptying(r0, r1, h0, h1, root, i) && i < 256 && Owns(r0, root, 4, i)
    requires h2 == Released(h1, Target(r0, root, 4, i)) && OthersKept(r1, r2, h2.free)
    requires root < |r2| && r2[root] == r1[root] && r3 == r2[root := r2[root][i := 0]]
    ensures Emptying(r0, r3, h0, h2, root, i + 1)
  {
    hide Tree, Footprint, Kids, Target;
    KidsStep(r0, root, 4, i);
    ReleasedTwice(h0, Kids(r0, root, 4, i), Target(r0, root, 4, i));
  }

  lemma EmptySkip(r0: Memory, r1: Memory, h0: Heap, h1: Heap, root: nat, i: nat)
    requires Emptying(r0, r1, h0, h1, root, i) && i < 256 && !Owns(r0, root, 4, i)
    ensures Emptying(r0, r1, h0, h1, root, i + 1)
  {
    hide Tree, Footprint, Kids;
    KidsStep(r0, root, 4, i);
    assert Kids(r0, root, 4, i) + {} == Kids(r0, root, 4, i);
  }

  lemma EmptyDone(r0: Memory, r: Memory, h0: Heap, h: Heap, root: nat)
    requires Emptying(r0, r, h0, h, root, 256)
    ensures h == Released(h0, Footprint(r0, root, 4) - {root}) && root < |r| == |r0| && root !in h.free
    ensures Tree(r, root, 4) && Footprint(r, root, 4) == {root} && Unmapped(r, root)
    ensures forall j :: 256 <= j < 512 ==> r[root][j] == r0[root][j]
    ensures forall p :: 0 <= p < |r| && p !in h.free && p != root ==> r[p] == r0[p]
  {
    hide Tree, Footprint, Kids;
    KidsTotal(r0, root, 4, 256);
    KidsStep(r0, root, 4, 255);
    EmptyTable(r, root, 4);
    assert Footprint(r0, root, 4) - {root} == Kids(r0, root, 4, 256);
    EmptyUnmapped(r, root);
  }

  lemma EmptyUnmapped(ram: Memory, root: nat)
    requires root < |ram| && forall j :: 0 <= j < 256 ==> !IsPresent(ram[root][j])
    ensures Unmapped(ram, root)
  {
  }

  lemma FreeNotLive(b: Buddy)
    requires b.Ok()
    ensures forall p :: p in b.free ==> Block(p, 0) !in b.live
  {
    forall p | p in b.free ensures Block(p, 0) !in b.live {
      SinglePage(p);
      assert Block(p, 0).Has(p);
    }
  }

  /** Of the pages taken for a space, those no longer in it: the frames that lost their last mapping. */
  ghost function Orphans(ram: Memory, root: nat, pr: Progress): set<nat> {
    pr.taken - Footprint(ram, root, 4)
  }

  /**
   * free_user_pml4 and kfree of the root, after some pages were mapped into a fresh space: all the
   * memory taken is free again but for one frame for each page that was mapped over.
   */
  method Discard(b: Buddy, root: nat, ghost s0: Start, ghost s: Start, ghost pr: Progress)
    returns (ghost lost: set<nat>)
    requires b.Ok() && Loading(s, b.ram, b.free, b.live, root, pr)
    requires root in s0.free && s.free == s0.free - {root} && s.live == s0.live + Singles({root})
    requires forall p :: p in s0.free ==> Block(p, 0) !in s0.live
    modifies b`ram, b`lists, b`free, b`live, b.freeLists
    ensures b.Ok() && |b.ram| == |old(b.ram)| && lost == Orphans(old(b.ram), root, pr) <= s0.free
    ensures b.free == s0.free - lost && b.live == s0.live + Singles(lost) && |lost| == Repeats(pr.visited)
    ensures forall p :: 0 <= p < |b.ram| && p !in s0.free ==> b.ram[p] == old(b.ram)[p]
  {
    hide *;
    ghost var r1 := b.ram;
    lost := Orphans(r1, root, pr);
    LoadingParts(s, r1, b.free, b.live, root, pr);
    Releasable(s0, s, r1, b.free, b.live, root, pr);
    StateParts(b);
    FreeUserPml4(b, root);
    StateParts(b);
    Undone(s0, s, r1, root, pr);
    FreePage(b, root);
  }

  /** A space with some pages mapped into it can be released like any other. */
  lemma Releasable(s0: Start, s: Start, ram: Memory, free: set<nat>, live: set<Block>, root: nat, pr: Progress)
    requires Loading(s, ram, free, live, root, pr) && s.live == s0.live + Singles({root})
    ensures CanFree(ram, Heap(free, live), root, 4)
  {
    hide *;
    LoadingParts(s, ram, free, live, root, pr);
    OwnsParts(ram, root, pr);
    SinglesSum({root}, pr.taken);
    SinglesWithin(Footprint(ram, root, 4), {root} + pr.taken);
    CanFreeIntro(ram, Heap(free, live), root);
  }

  lemma SinglesWithin(a: set<nat>, c: set<nat>)
    requires a <= c
    ensures Singles(a) <= Singles(c)
  {
  }

  lemma CanFreeIntro(ram: Memory, h: Heap, root: nat)
    requires Tree(ram, root, 4) && Footprint(ram, root, 4) !! h.free && Singles(Footprint(ram, root, 4)) <= h.live
    ensures CanFree(ram, h, root, 4)
  {
    hide Tree, Footprint;
  }

  /** What releasing the space and its root gives back. */
  lemma Undone(s0: Start, s: Start, ram: Memory, root: nat, pr: Progress)
    requires Loading(s, ram, s.free - pr.taken, s.live + Singles(pr.taken), root, pr)
    requires root in s0.free && s.free == s0.free - {root} && s.live == s0.live + Singles({root})
    requires forall p :: p in s0.free ==> Block(p, 0) !in s0.live
    ensures var h := Released(Heap(s.free - pr.taken, s.live + Singles(pr.taken)), Footprint(ram, root, 4) - {root});
            && Block(root, 0) in h.live && h.free + {root} == s0.free - Orphans(ram, root, pr)
            && h.live - Singles({root}) == s0.live + Singles(Orphans(ram, root, pr)) && h.free <= s0.free
    ensures Orphans(ram, root, pr) <= s0.free && |Orphans(ram, root, pr)| == Repeats(pr.visited)
  {
    hide *;
    LoadingParts(s, ram, s.free - pr.taken, s.live + Singles(pr.taken), root, pr);
    OwnsParts(ram, root, pr);
    RootOwned(ram, root);
    CostIs(pr.visited);
    OrphansAre(ram, root, pr);
    ReleasedLess(s0, root, pr.taken, Footprint(ram, root, 4), s.live + Singles(pr.taken));
    OrphanCount(Footprint(ram, root, 4), pr.taken, root);
    RepeatsIs(pr.visited);
  }

  lemma RootOwned(ram: Memory, root: nat)
    ensures root in Footprint(ram, root, 4)
  {
  }

  lemma OrphansAre(ram: Memory, root: nat, pr: Progress)
    ensures Orphans(ram, root, pr) == pr.taken - Footprint(ram, root, 4)
  {
    hide Footprint;
  }

  lemma OrphanCount(f: set<nat>, taken: set<nat>, root: nat)
    requires root in f && f <= {root} + taken && root !in taken
    ensures |taken - f| == |taken| + 1 - |f|
  {
    assert taken == (taken - f) + (f - {root});
    assert |f - {root}| == |f| - 1;
  }

  lemma ReleasedLess(s0: Start, root: nat, taken: set<nat>, f: set<nat>, live: set<Block>)
    requires root in s0.free && root in f && taken <= s0.free - {root} && f <= {root} + taken
    requires live == s0.live + Singles({root}) + Singles(taken)
    requires forall p :: p in s0.free ==> Block(p, 0) !in s0.live
    ensures var h := Released(Heap(s0.free - {root} - taken, live), f - {root});
            && Block(root, 0) in h.live && h.free + {root} == s0.free - (taken - f)
            && h.live - Singles({root}) == s0.live + Singles(taken - f) && h.free <= s0.free
  {
    var lost, held := taken - f, f - {root};
    assert taken == lost + held;
    SinglesSum(lost, held);
    assert Block(root, 0) in Singles({root});
    assert s0.free - {root} - taken + held + {root} == s0.free - lost;
    LiveLess(s0.live, Singles({root}), Singles(lost), Singles(held));
  }

  lemma LiveLess(live: set<Block>, a: set<Block>, c: set<Block>, d: set<Block>)
    requires live !! a && live !! d && a !! c && a !! d && c !! d
    ensures live + a + (c + d) - d - a == live + c
  {
  }

  lemma NothingLost(s: Start)
    ensures s.free - {} == s.free && s.live + Singles({}) == s.live && Repeats([]) == 0
  {
    RepeatsStep([], 0);
    SinglesSum({}, {});
  }

  /**
   * A fork followed at once by the reaping of the child: create, deep-copy, release, free the root.
   * The allocator ends exactly as it began, and the parent's space is untouched, whether the copy is
   * complete, cut short by memory, or not even the new root fits.
   */
  method ForkThenReap(b: Buddy, kernelPml4: nat, parent: nat) returns (ok: bool)
    requires b.Ok() && Tree(b.ram, parent, 4) && Footprint(b.ram, parent, 4) !! b.free
    requires kernelPml4 < |b.ram| && kernelPml4 !in b.free
    requires b.free != {} ==> Ample(PagesOf(b.ram, parent), |b.free| - 1)
    modifies b`ram, b`lists, b`free, b`live, b.freeLists
    ensures b.Ok() && b.State() == old(b.State()) && |b.ram| == |old(b.ram)|
    ensures ok <==> old(b.free) != {}
    ensures forall p :: 0 <= p < |b.ram| && p !in b.free ==> b.ram[p] == old(b.ram)[p]
  {
    hide *;
    ghost var s0 := Start(b.ram, b.free, b.live);
    FreeNotLive(b);
    StateParts(b);
    var addr, root := CreateUserPml4(b, kernelPml4);
    ok := addr != 0;
    if !ok {
      StateParts(b);
      return;
    }
    ghost var s := Start(b.ram, b.free, b.live);
    ForkReady(s0, s, parent, root);
    ghost var pr := CopyUserPml4(b, root, parent);
    LoadingParts(s, b.ram, b.free, b.live, root, pr);
    OthersKeptBy(s, b.ram, root);
    ForkOnce(s, parent, pr);
    ghost var lost := Discard(b, root, s0, s, pr);
    NothingLost(s0);
    assert lost == {};
    StateParts(b);
  }

  lemma ForkReady(s0: Start, s: Start, parent: nat, root: nat)
    requires Tree(s0.ram, parent, 4) && Footprint(s0.ram, parent, 4) !! s0.free
    requires s0.free != {} ==> Ample(PagesOf(s0.ram, parent), |s0.free| - 1)
    requires root in s0.free && s.free == s0.free - {root} && root < |s.ram| == |s0.ram|
    requires Tree(s.ram, root, 4) && Footprint(s.ram, root, 4) == {root} && Unmapped(s.ram, root)
    requires forall p :: 0 <= p < |s.ram| && p !in s0.free ==> s.ram[p] == s0.ram[p]
    ensures Fresh(s.ram, s.free, root) && Tree(s.ram, parent, 4) && Footprint(s.ram, parent, 4) !! s.free
    ensures root !in Footprint(s.ram, parent, 4) && Ample(PagesOf(s.ram, parent), |s.free|)
  {
    hide *;
    TreeFrame(s0.ram, s.ram, parent, 4);
    LimitBound(4);
    PagesFrame(s0.ram, s.ram, parent, 4, [], Limit(4));
    PagesOfIs(s0.ram, parent);
    PagesOfIs(s.ram, parent);
    FreshIntro(s.ram, s.free, root);
    assert |s.free| == |s0.free| - 1;
  }

  lemma ForkOnce(s: Start, parent: nat, pr: Progress)
    requires Tree(s.ram, parent, 4) && pr.visited <= PagesOf(s.ram, parent)
    ensures Repeats(pr.visited) == 0
  {
    hide *;
    PagesOfSpace(s.ram, parent);
    DistinctPart(pr.visited, PagesOf(s.ram, parent));
    RepeatsNone(pr.visited);
  }
}
