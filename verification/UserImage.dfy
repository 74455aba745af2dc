/**
 * A user address space in physical memory as the flat map of pages it stands for, the tables it takes,
 * and what mapping one more page does to both.
 */
module UserImage {
  import opened Blocks
  import opened BuddySpec
  import opened BuddyAllocator
  import opened PageTree
  import opened PageTables

  const USER_PAGES: nat := 0x8_0000_0000

  /** A user page: its contents and the flags of its entry. */
  datatype Mapping = Mapping(content: Page, flags: nat)

  /** The table indices of a user page. */
  function PagePath(page: nat): (path: seq<nat>)
    ensures |path| == 4 && Indices(path)
  {
    [page / 0x800_0000 % 512, page / 0x4_0000 % 512, page / 0x200 % 512, page % 512]
  }

  lemma PagePathOf(page: nat)
    requires page < USER_PAGES
    ensures 4096 * page < 0x8000_0000_0000 && InRange(PagePath(page), 4) && PathOf(4096 * page) == PagePath(page)
    ensures Va(PagePath(page)) / 4096 == page
  {
    var virt := 4096 * page;
    assert virt / 0x1000 == page && virt / 0x20_0000 == page / 0x200;
    assert virt / 0x4000_0000 == page / 0x4_0000 && virt / 0x80_0000_0000 == page / 0x800_0000;
    VaOfPath(virt);
  }

  lemma PagePathUnique(p: seq<nat>, page: nat)
    requires InRange(p, 4) && page < USER_PAGES
    ensures p == PagePath(page) <==> Va(p) / 4096 == page
  {
    PagePathOf(page);
    VaRoundTrip(p);
    if Va(p) / 4096 == page { SamePath(Va(p), 4096 * page); }
  }

  /** Flags of a present entry of a user page. */
  predicate UserFlags(flags: nat) {
    flags < 4096 && IsPresent(flags) && IsUser(flags)
  }

  lemma EntryOf(page: nat, flags: nat)
    requires UserFlags(flags)
    ensures Frame(4096 * page + flags) == page && Flags(4096 * page + flags) == flags && IsUser(4096 * page + flags)
  {
    EntryParts(page, flags);
    EntryUser(page, flags);
  }

  /** Entry e is what the flat map says of the page: the right frame contents and flags, or nothing. */
  ghost predicate Shows(ram: Memory, e: Entry, page: nat, pages: map<nat, Mapping>) {
    if page in pages then
      && e.Mapped? && IsUser(e.pte) && Flags(e.pte) == pages[page].flags
      && Frame(e.pte) < |ram| && ram[Frame(e.pte)] == pages[page].content
    else e == Absent
  }

  /** What the hardware finds under root is exactly the flat map. */
  ghost predicate Refines(ram: Memory, root: nat, pages: map<nat, Mapping>) {
    forall p :: InRange(p, 4) ==> Shows(ram, Walk(ram, root, 4, p), Va(p) / 4096, pages)
  }

  /** The tables above a page, named by the indices that lead to them. */
  function Above(page: nat): set<seq<nat>> {
    {PagePath(page)[..1], PagePath(page)[..2], PagePath(page)[..3]}
  }

  /** The tables above all the pages of v. */
  function TablePaths(v: seq<nat>): set<seq<nat>> {
    if v == [] then {} else TablePaths(v[..|v| - 1]) + Above(v[|v| - 1])
  }

  /** How many pages of memory mapping the pages of v in turn takes: one each, and the tables. */
  function Cost(v: seq<nat>): nat {
    |v| + |TablePaths(v)|
  }

  /** The pages of v, each once. */
  function Seen(v: seq<nat>): set<nat> {
    set page | page in v
  }

  /** How many of the pages of v were there before. */
  function Repeats(v: seq<nat>): int {
    |v| - |Seen(v)|
  }

  /** The tables under root are those above the pages of v. */
  ghost predicate Tabled(ram: Memory, root: nat, v: seq<nat>) {
    forall q :: 0 < |q| < 4 ==> (Spine(ram, root, 4, q) <==> q in TablePaths(v))
  }

  lemma TablePathsStep(v: seq<nat>, page: nat)
    ensures TablePaths([]) == {} && TablePaths(v + [page]) == TablePaths(v) + Above(page)
  {
    assert (v + [page])[..|v|] == v;
  }

  lemma CostStep(v: seq<nat>, page: nat)
    ensures Cost(v) < Cost(v + [page])
  {
    TablePathsStep(v, page);
    SubsetSize(TablePaths(v), TablePaths(v + [page]));
  }

  lemma {:induction false} CostMono(v: seq<nat>, w: seq<nat>)
    requires v <= w
    ensures Cost(v) <= Cost(w) && (v != w ==> Cost(v) < Cost(w))
    decreases |w|
  {
    if v != w {
      var u := w[..|w| - 1];
      assert w == u + [w[|w| - 1]];
      CostStep(u, w[|w| - 1]);
      CostMono(v, u);
    }
  }

  /** Of the tables above a page, those missing are the ones that are new. */
  lemma MissingCost(ram: Memory, root: nat, v: seq<nat>, page: nat)
    requires Tree(ram, root, 4) && Tabled(ram, root, v) && page < USER_PAGES
    ensures Cost(v + [page]) == Cost(v) + 1 + Missing(ram, root, PagePath(page)[..3])
  {
    hide *;
    var path := PagePath(page);
    var p1, p2, p3 := path[..1], path[..2], path[..3];
    TablePathsStep(v, page);
    CostIs(v);
    CostIs(v + [page]);
    AboveIs(page);
    PagePathOf(page);
    TabledAt(ram, root, v, p1);
    TabledAt(ram, root, v, p2);
    TabledAt(ram, root, v, p3);
    NoSpine(ram, root);
    var j := SpineDepth(ram, root, p3);
    PathBounds(path);
    MissingAfter(ram, root, 4, p3, j);
    assert p3[..1] == p1 && p3[..2] == p2 && p3[..3] == p3 && p3[..0] == [];
    DepthNew(ram, root, v, p1, p2, p3, j);
  }

  lemma CostIs(v: seq<nat>)
    ensures Cost(v) == |v| + |TablePaths(v)|
  {
  }

  lemma AboveIs(page: nat)
    ensures Above(page) == {PagePath(page)[..1], PagePath(page)[..2], PagePath(page)[..3]}
  {
  }

  lemma TabledAt(ram: Memory, root: nat, v: seq<nat>, q: seq<nat>)
    requires Tabled(ram, root, v) && 0 < |q| < 4
    ensures Spine(ram, root, 4, q) <==> q in TablePaths(v)
  {
  }

  lemma NoSpine(ram: Memory, root: nat)
    requires Tree(ram, root, 4)
    ensures Spine(ram, root, 4, []) && root < |ram|
  {
  }

  lemma PathBounds(path: seq<nat>)
    requires InRange(path, 4)
    ensures |path| == 4 && Indices(path[..3]) && |path[..3]| == 3
    ensures forall i :: 0 <= i < 3 ==> path[..3][i] < Limit(4 - i)
  {
  }

  /** How far down a path the tables exist. */
  lemma SpineDepth(ram: Memory, root: nat, q: seq<nat>) returns (j: nat)
    requires |q| == 3 && Spine(ram, root, 4, [])
    ensures j <= 3 && Spine(ram, root, 4, q[..j]) && (j == 3 || !Spine(ram, root, 4, q[..j + 1]))
    ensures forall k :: 0 <= k <= 3 ==> (Spine(ram, root, 4, q[..k]) <==> k <= j)
  {
    hide Spine;
    assert q[..0] == [];
    j := if !Spine(ram, root, 4, q[..1]) then 0 else if !Spine(ram, root, 4, q[..2]) then 1
         else if !Spine(ram, root, 4, q[..3]) then 2 else 3;
    forall k | 0 <= k <= 3 ensures Spine(ram, root, 4, q[..k]) <==> k <= j {
      if Spine(ram, root, 4, q[..3]) {
        SpineStart(ram, root, 4, q[..3], q[..2]);
        SpineStart(ram, root, 4, q[..3], q[..1]);
      }
      if Spine(ram, root, 4, q[..2]) { SpineStart(ram, root, 4, q[..2], q[..1]); }
    }
  }

  lemma DepthNew(ram: Memory, root: nat, v: seq<nat>, p1: seq<nat>, p2: seq<nat>, p3: seq<nat>, j: nat)
    requires |p3| == 3 && p1 == p3[..1] && p2 == p3[..2] && j <= 3
    requires p1 in TablePaths(v) <==> 1 <= j
    requires p2 in TablePaths(v) <==> 2 <= j
    requires p3 in TablePaths(v) <==> 3 <= j
    ensures |TablePaths(v) + {p1, p2, p3}| == |TablePaths(v)| + 3 - j
  {
    hide TablePaths;
    var old', new' := TablePaths(v), {p1, p2, p3};
    assert |p1| == 1 && |p2| == 2;
    var extra := if j == 0 then {p1, p2, p3} else if j == 1 then {p2, p3} else if j == 2 then {p3} else {};
    assert old' + new' == old' + extra;
  }

  /** Memory as it was before the first page was mapped. */
  datatype Start = Start(ram: Memory, free: set<nat>, live: set<Block>)

  /** What has been mapped: the flat map, the pages in the order they were mapped, the memory taken for it. */
  datatype Progress = Progress(pages: map<nat, Mapping>, visited: seq<nat>, taken: set<nat>)

  /** The pages under root were all taken for it, one for each user page and one for each table. */
  ghost predicate OwnsTaken(ram: Memory, root: nat, pr: Progress) {
    && Tree(ram, root, 4) && Footprint(ram, root, 4) <= {root} + pr.taken
    && |Footprint(ram, root, 4)| == 1 + |Seen(pr.visited)| + |TablePaths(pr.visited)|
  }

  /** Nothing else in use has changed, nor has the kernel half of the root. */
  ghost predicate OthersSame(s: Start, ram: Memory, root: nat) {
    && |ram| == |s.ram| && root < |ram|
    && (forall p :: 0 <= p < |ram| && p !in s.free && p != root ==> ram[p] == s.ram[p])
    && forall j :: 256 <= j < 512 ==> ram[root][j] == s.ram[root][j]
  }

  /** The free and live pages are those of the start but for the pages taken, whose number is the cost. */
  ghost predicate Accounts(s: Start, free: set<nat>, live: set<Block>, pr: Progress) {
    && pr.taken <= s.free && free == s.free - pr.taken && live == s.live + Singles(pr.taken)
    && |pr.taken| == Cost(pr.visited)
  }

  /** The space under root stands for the pages mapped so far, and for nothing else. */
  ghost predicate Loading(s: Start, ram: Memory, free: set<nat>, live: set<Block>, root: nat, pr: Progress) {
    && root !in s.free && Accounts(s, free, live, pr) && OthersSame(s, ram, root) && OwnsTaken(ram, root, pr)
    && Refines(ram, root, pr.pages) && Tabled(ram, root, pr.visited) && pr.pages.Keys == Seen(pr.visited)
    && OpenTables(ram, root, 4)
  }

  lemma LoadingParts(s: Start, ram: Memory, free: set<nat>, live: set<Block>, root: nat, pr: Progress)
    requires Loading(s, ram, free, live, root, pr)
    ensures root !in s.free && Accounts(s, free, live, pr) && OthersSame(s, ram, root) && OwnsTaken(ram, root, pr)
    ensures Refines(ram, root, pr.pages) && Tabled(ram, root, pr.visited) && pr.pages.Keys == Seen(pr.visited)
    ensures OpenTables(ram, root, 4)
    ensures Tree(ram, root, 4) && Footprint(ram, root, 4) !! free && root < |ram| == |s.ram|
    ensures free == s.free - pr.taken && live == s.live + Singles(pr.taken) && pr.taken <= s.free
    ensures |pr.taken| == Cost(pr.visited) && |free| == |s.free| - Cost(pr.visited)
  {
    hide Tree, Footprint, Refines, Tabled, Cost, Seen, TablePaths;
    assert |s.free - pr.taken| == |s.free| - |pr.taken|;
  }

  lemma OthersKeptBy(s: Start, ram: Memory, root: nat)
    requires OthersSame(s, ram, root)
    ensures |ram| == |s.ram| && root < |ram|
    ensures forall j :: 256 <= j < 512 ==> ram[root][j] == s.ram[root][j]
    ensures forall p :: 0 <= p < |ram| && p !in s.free && p != root ==> ram[p] == s.ram[p]
  {
  }

  /** Page number page has been taken and filled, nothing else that matters has changed. */
  ghost predicate Filling(ram: Memory, ram': Memory, free: set<nat>, page: nat, content: Page) {
    && page in free && page < |ram| == |ram'| && ram'[page] == content
    && forall p :: 0 <= p < |ram| && p !in free ==> ram'[p] == ram[p]
  }

  /** Map the user page at va, number vp, to page, which holds content. */
  method MapData(b: Buddy, root: nat, va: nat, page: nat, flags: nat, ghost content: Page, ghost vp: nat,
                 ghost s: Start, ghost r1: Memory, ghost pr: Progress)
    returns (ghost pr': Progress)
    requires b.Ok() && vp < USER_PAGES && va == 4096 * vp && page in s.free - pr.taken
    requires flags < 4096 && IsUser(flags)
    requires Loading(s, r1, s.free - pr.taken, s.live + Singles(pr.taken), root, pr)
    requires Filling(r1, b.ram, s.free - pr.taken, page, content)
    requires b.free == s.free - pr.taken - {page} && b.live == s.live + Singles(pr.taken) + Singles({page})
    requires Cost(pr.visited + [vp]) - Cost(pr.visited) <= |s.free - pr.taken|
    modifies b`ram, b`lists, b`free, b`live, b.freeLists
    ensures b.Ok() && Loading(s, b.ram, b.free, b.live, root, pr')
    ensures pr'.pages == pr.pages[vp := Mapping(content, OrPresent(flags))] && pr'.visited == pr.visited + [vp]
  {
    hide *;
    ghost var r2, free1, m := b.ram, s.free - pr.taken, Mapping(content, OrPresent(flags));
    PagePathOf(vp);
    Prepared(s, r1, r2, root, pr, vp, page, content);
    PassedFlags(flags, page);
    ghost var tables := MapPagePml4(b, root, va, 4096 * page, flags);
    pr' := Progress(pr.pages[vp := m], pr.visited + [vp], pr.taken + {page} + tables);
    SinglesSum(pr.taken, {page});
    SinglesSum(pr.taken + {page}, tables);
    assert s.live + Singles(pr.taken) + Singles({page}) + Singles(tables) == s.live + Singles(pr'.taken);
    assert s.free - pr.taken - {page} - tables == s.free - pr'.taken;
    Added(s, r1, r2, b.ram, root, pr, pr', vp, page, m, tables);
  }

  lemma PassedFlags(flags: nat, page: nat)
    requires flags < 4096 && IsUser(flags)
    ensures UserFlags(OrPresent(flags)) && Frame(4096 * page) == page
    ensures LeafEntry(4096 * page, flags) == 4096 * page + OrPresent(flags)
  {
    assert OrPresent(flags) / 4 == flags / 4;
  }

  /** Filling a page taken from the free ones leaves the space as it was and ready for one page more. */
  lemma Prepared(s: Start, r1: Memory, r2: Memory, root: nat, pr: Progress, vp: nat, page: nat, content: Page)
    requires vp < USER_PAGES && Filling(r1, r2, s.free - pr.taken, page, content)
    requires Loading(s, r1, s.free - pr.taken, s.live + Singles(pr.taken), root, pr)
    requires Cost(pr.visited + [vp]) - Cost(pr.visited) <= |s.free - pr.taken|
    ensures Ready(r2, s.free - pr.taken - {page}, root, [], root, PagePath(vp)[..3])
    ensures Cost(pr.visited + [vp]) == Cost(pr.visited) + 1 + Missing(r2, root, PagePath(vp)[..3])
    ensures Tree(r2, root, 4) && Footprint(r2, root, 4) == Footprint(r1, root, 4) && page !in Footprint(r2, root, 4)
    ensures page < |r2| && page !in s.free - pr.taken - {page} && OpenTables(r2, root, 4)
  {
    hide *;
    var free1 := s.free - pr.taken;
    LoadingParts(s, r1, free1, s.live + Singles(pr.taken), root, pr);
    FillingParts(r1, r2, free1, page, content);
    MissingCost(r1, root, pr.visited, vp);
    PagePathOf(vp);
    PathBounds(PagePath(vp));
    TreeFrame(r1, r2, root, 4);
    OpenFrame(r1, r2, root, 4);
    MissingFrame(r1, r2, root, 4, PagePath(vp)[..3]);
    assert |free1 - {page}| == |free1| - 1;
    ReadyIntro(r2, free1 - {page}, root, PagePath(vp)[..3]);
  }

  lemma FillingIntro(r1: Memory, r2: Memory, r3: Memory, free: set<nat>, page: nat, content: Page)
    requires page in free && page < |r1| == |r2| && r3 == r2[page := content]
    requires forall p :: 0 <= p < |r1| && p !in free ==> r2[p] == r1[p]
    ensures Filling(r1, r3, free, page, content)
  {
  }

  lemma FillingParts(ram: Memory, ram': Memory, free: set<nat>, page: nat, content: Page)
    requires Filling(ram, ram', free, page, content)
    ensures page in free && page < |ram| == |ram'| && ram'[page] == content
    ensures forall p :: 0 <= p < |ram| && p !in free ==> ram'[p] == ram[p]
  {
      }

  lemma ReadyIntro(ram: Memory, free: set<nat>, root: nat, rest: seq<nat>)
    requires Tree(ram, root, 4) && Footprint(ram, root, 4) !! free && Indices(rest)
             && Missing(ram, root, rest) <= |free|
    ensures Ready(ram, free, root, [], root, rest)
  {
  }

  /** One page more has been mapped. */
  lemma Added(s: Start, r1: Memory, r2: Memory, r3: Memory, root: nat, pr: Progress, pr': Progress, vp: nat, page: nat,
              m: Mapping, tables: set<nat>)
    requires vp < USER_PAGES && UserFlags(m.flags) && Filling(r1, r2, s.free - pr.taken, page, m.content)
    requires Loading(s, r1, s.free - pr.taken, s.live + Singles(pr.taken), root, pr)
    requires Footprint(r2, root, 4) == Footprint(r1, root, 4) && Tree(r2, root, 4)
    requires Remapped(r2, r3, root, PagePath(vp), 4096 * page + m.flags, tables,
             s.free - pr.taken - {page})
    requires Branched(r2, r3, root, PagePath(vp)) && OpenTables(r3, root, 4) && tables <= s.free - pr.taken - {page}
    requires Cost(pr.visited + [vp]) == Cost(pr.visited) + 1 + |tables|
    requires pr' == Progress(pr.pages[vp := m], pr.visited + [vp], pr.taken + {page} + tables)
    ensures Loading(s, r3, s.free - pr'.taken, s.live + Singles(pr'.taken), root, pr')
  {
    hide *;
    var free1 := s.free - pr.taken;
    LoadingParts(s, r1, free1, s.live + Singles(pr.taken), root, pr);
    AddedOthers(s, r1, r2, r3, root, pr, vp, page, m, tables);
    FillingParts(r1, r2, free1, page, m.content);
    AddedAccounts(s, pr, pr', vp, page, tables);
    AddedRefines(s, r1, r2, r3, root, pr, vp, page, m, tables);
    AddedTabled(r1, r2, r3, root, pr, free1, page, m.content, vp);
    AddedOwns(s, r1, r2, r3, root, pr, pr', vp, page, m, tables);
    SeenStep(pr.visited, vp);
    LoadingIntro(s, r3, s.free - pr'.taken, s.live + Singles(pr'.taken), root, pr');
  }

  lemma SeenStep(v: seq<nat>, page: nat)
    ensures Seen([]) == {} && Seen(v + [page]) == Seen(v) + {page}
  {
  }

  lemma LoadingIntro(s: Start, ram: Memory, free: set<nat>, live: set<Block>, root: nat, pr: Progress)
    requires root !in s.free && Accounts(s, free, live, pr) && OthersSame(s, ram, root) && OwnsTaken(ram, root, pr)
    requires Refines(ram, root, pr.pages) && Tabled(ram, root, pr.visited) && pr.pages.Keys == Seen(pr.visited)
    requires OpenTables(ram, root, 4)
    ensures Loading(s, ram, free, live, root, pr)
  {
  }

  lemma AddedOthers(s: Start, r1: Memory, r2: Memory, r3: Memory, root: nat, pr: Progress, vp: nat, page: nat,
                    m: Mapping, tables: set<nat>)
    requires OthersSame(s, r1, root) && OwnsTaken(r1, root, pr) && pr.taken <= s.free && root !in s.free
    requires Filling(r1, r2, s.free - pr.taken, page, m.content) && Footprint(r2, root, 4) == Footprint(r1, root, 4)
    requires Remapped(r2, r3, root, PagePath(vp), 4096 * page + m.flags, tables,
             s.free - pr.taken - {page})
    ensures OthersSame(s, r3, root)
  {
    hide Tree, Footprint, Walk, Changed, SameFrames, Spine, PagePath, TablePaths, Seen;
  }

  lemma AddedAccounts(s: Start, pr: Progress, pr': Progress, vp: nat, page: nat, tables: set<nat>)
    requires pr.taken <= s.free && |pr.taken| == Cost(pr.visited)
    requires page in s.free - pr.taken && tables <= s.free - pr.taken - {page}
    requires Cost(pr.visited + [vp]) == Cost(pr.visited) + 1 + |tables|
    requires pr'.taken == pr.taken + {page} + tables && pr'.visited == pr.visited + [vp]
    ensures Accounts(s, s.free - pr'.taken, s.live + Singles(pr'.taken), pr')
  {
    hide Cost;
    assert |pr.taken + {page}| == |pr.taken| + 1;
    assert |pr.taken + {page} + tables| == |pr.taken + {page}| + |tables|;
  }

  lemma AddedRefines(s: Start, r1: Memory, r2: Memory, r3: Memory, root: nat, pr: Progress, vp: nat, page: nat,
                     m: Mapping, tables: set<nat>)
    requires vp < USER_PAGES && UserFlags(m.flags) && Refines(r1, root, pr.pages) && Tree(r1, root, 4)
    requires Footprint(r1, root, 4) !! s.free - pr.taken && Footprint(r2, root, 4) == Footprint(r1, root, 4)
    requires Filling(r1, r2, s.free - pr.taken, page, m.content)
    requires Remapped(r2, r3, root, PagePath(vp), 4096 * page + m.flags, tables,
             s.free - pr.taken - {page})
    ensures Refines(r3, root, pr.pages[vp := m])
  {
    hide *;
    var free1 := s.free - pr.taken;
    FillingParts(r1, r2, free1, page, m.content);
    forall p | InRange(p, 4)
      ensures Shows(r3, Walk(r3, root, 4, p), Va(p) / 4096, pr.pages[vp := m])
    {
      PagePathUnique(p, vp);
      RefinesAt(r1, root, pr.pages, p);
      WalkFrame(r1, r2, root, 4, p);
      var e := 4096 * page + m.flags;
      if p == PagePath(vp) {
        AddedHere(r1, r2, r3, root, page, m, vp, tables, free1, pr.pages);
      } else {
        AddedElsewhere(r1, r2, r3, root, PagePath(vp), e, tables, free1, page, p, pr.pages, vp, m);
      }
    }
    RefinesIntro(r3, root, pr.pages[vp := m]);
  }

  lemma RefinesAt(ram: Memory, root: nat, pages: map<nat, Mapping>, p: seq<nat>)
    requires Refines(ram, root, pages) && InRange(p, 4)
    ensures Shows(ram, Walk(ram, root, 4, p), Va(p) / 4096, pages)
  {
  }

  lemma RefinesIntro(ram: Memory, root: nat, pages: map<nat, Mapping>)
    requires forall p :: InRange(p, 4) ==> Shows(ram, Walk(ram, root, 4, p), Va(p) / 4096, pages)
    ensures Refines(ram, root, pages)
  {
  }

  lemma AddedHere(r1: Memory, r2: Memory, r3: Memory, root: nat, page: nat, m: Mapping, vp: nat, tables: set<nat>,
                  free: set<nat>, pages: map<nat, Mapping>)
    requires Filling(r1, r2, free, page, m.content) && vp < USER_PAGES && UserFlags(m.flags)
    requires Footprint(r2, root, 4) !! free
    requires Remapped(r2, r3, root, PagePath(vp), 4096 * page + m.flags, tables, free - {page})
    ensures InRange(PagePath(vp), 4)
    ensures Shows(r3, Walk(r3, root, 4, PagePath(vp)), vp, pages[vp := m])
  {
    EntryOf(page, m.flags);
    PagePathOf(vp);
    hide Tree, Footprint, Walk, Changed, SameFrames, Spine, PagePath, InRange;
  }

  lemma AddedElsewhere(r1: Memory, r2: Memory, r3: Memory, root: nat, path: seq<nat>, e: nat, tables: set<nat>,
                       free: set<nat>, page: nat, p: seq<nat>, pages: map<nat, Mapping>, vp: nat, m: Mapping)
    requires InRange(p, 4) && p != path && Va(p) / 4096 != vp
    requires Tree(r1, root, 4) && Footprint(r1, root, 4) !! free && Filling(r1, r2, free, page, m.content)
    requires Remapped(r2, r3, root, path, e, tables, free - {page})
    requires Walk(r2, root, 4, p) == Walk(r1, root, 4, p)
    requires Shows(r1, Walk(r1, root, 4, p), Va(p) / 4096, pages)
    ensures Shows(r3, Walk(r3, root, 4, p), Va(p) / 4096, pages[vp := m])
  {
    hide *;
    var entry, other := Walk(r1, root, 4, p), Va(p) / 4096;
    FillingParts(r1, r2, free, page, m.content);
    ShownFrame(r1, entry, other, pages);
    if other in pages { WalkFinds(r1, root, 4, p); }
    RemappedElsewhere(r2, r3, root, path, e, tables, free - {page}, p);
    ShowsAgain(r1, r3, entry, other, pages, vp, m);
  }

  lemma RemappedElsewhere(r2: Memory, r3: Memory, root: nat, path: seq<nat>, e: nat, tables: set<nat>, free: set<nat>,
                          p: seq<nat>)
    requires Remapped(r2, r3, root, path, e, tables, free) && InRange(p, 4) && p != path
    ensures Walk(r3, root, 4, p) == Walk(r2, root, 4, p) && |r3| == |r2|
    ensures Walk(r2, root, 4, p).Mapped? && IsUser(Walk(r2, root, 4, p).pte) ==>
              var f := Frame(Walk(r2, root, 4, p).pte); f < |r2| && r3[f] == r2[f]
  {
    hide Tree, Footprint, Walk, Changed, Spine;
  }

  lemma ShowsAgain(r1: Memory, r3: Memory, e: Entry, page: nat, pages: map<nat, Mapping>, vp: nat, m: Mapping)
    requires Shows(r1, e, page, pages) && page != vp && |r3| == |r1|
    requires page in pages ==> e.Mapped? && Frame(e.pte) < |r1| && r3[Frame(e.pte)] == r1[Frame(e.pte)]
    ensures Shows(r3, e, page, pages[vp := m])
  {
  }

  lemma AddedTabled(r1: Memory, r2: Memory, r3: Memory, root: nat, pr: Progress, free: set<nat>, page: nat,
                    content: Page,
                    vp: nat)
    requires Tabled(r1, root, pr.visited) && Tree(r1, root, 4) && Footprint(r1, root, 4) !! free
    requires Filling(r1, r2, free, page, content) && Branched(r2, r3, root, PagePath(vp))
    ensures Tabled(r3, root, pr.visited + [vp])
  {
    hide *;
    FillingParts(r1, r2, free, page, content);
    TablePathsStep(pr.visited, vp);
    AboveIs(vp);
    var path := PagePath(vp);
    forall q | 0 < |q| < 4 ensures Spine(r3, root, 4, q) <==> q in TablePaths(pr.visited + [vp]) {
      BranchedAt(r2, r3, root, path, q);
      SpineFrame(r1, r2, root, 4, q);
      TabledAt(r1, root, pr.visited, q);
      assert q <= path <==> q == path[..|q|];
    }
    TabledIntro(r3, root, pr.visited + [vp]);
  }

  lemma TabledIntro(ram: Memory, root: nat, v: seq<nat>)
    requires forall q :: 0 < |q| < 4 ==> (Spine(ram, root, 4, q) <==> q in TablePaths(v))
    ensures Tabled(ram, root, v)
  {
  }

  lemma AddedOwns(s: Start, r1: Memory, r2: Memory, r3: Memory, root: nat, pr: Progress, pr': Progress, vp: nat,
                  page: nat,
                  m: Mapping, tables: set<nat>)
    requires vp < USER_PAGES && UserFlags(m.flags) && OwnsTaken(r1, root, pr)
             && Footprint(r2, root, 4) == Footprint(r1, root, 4)
    requires Tree(r1, root, 4) && Footprint(r1, root, 4) !! s.free - pr.taken && Refines(r1, root, pr.pages)
    requires pr.pages.Keys == Seen(pr.visited) && Filling(r1, r2, s.free - pr.taken, page, m.content)
    requires Remapped(r2, r3, root, PagePath(vp), 4096 * page + m.flags, tables,
             s.free - pr.taken - {page})
    requires tables <= s.free - pr.taken - {page} && Cost(pr.visited + [vp]) == Cost(pr.visited) + 1 + |tables|
    requires pr' == Progress(pr.pages[vp := m], pr.visited + [vp], pr.taken + {page} + tables)
    ensures OwnsTaken(r3, root, pr')
  {
    hide *;
    var gone := UserFrame(Walk(r2, root, 4, PagePath(vp)));
    FillingParts(r1, r2, s.free - pr.taken, page, m.content);
    GoneCount(r1, r2, root, pr, s.free - pr.taken, vp, page, m.content);
    EntryOf(page, m.flags);
    FootprintAfter(r2, r3, root, PagePath(vp), page, 4096 * page + m.flags, tables,
      s.free - pr.taken - {page});
    SeenStep(pr.visited, vp);
    CostIs(pr.visited);
    CostIs(pr'.visited);
    OwnsCount(s, r1, r3, root, pr, pr', gone, page, tables, vp);
  }

  /** What the page was mapped to before leaves the tree: one frame if it was mapped. */
  lemma GoneCount(r1: Memory, r2: Memory, root: nat, pr: Progress, free: set<nat>, vp: nat, page: nat, content: Page)
    requires vp < USER_PAGES && Tree(r1, root, 4) && Footprint(r1, root, 4) !! free
             && Filling(r1, r2, free, page, content)
    requires Refines(r1, root, pr.pages) && pr.pages.Keys == Seen(pr.visited)
    ensures UserFrame(Walk(r2, root, 4, PagePath(vp))) <= Footprint(r1, root, 4)
    ensures |UserFrame(Walk(r2, root, 4, PagePath(vp)))| == if vp in Seen(pr.visited) then 1 else 0
  {
    hide *;
    var path := PagePath(vp);
    PagePathOf(vp);
    FillingParts(r1, r2, free, page, content);
    WalkFrame(r1, r2, root, 4, path);
    RefinesAt(r1, root, pr.pages, path);
    ShownFrame(r1, Walk(r1, root, 4, path), vp, pr.pages);
    if vp in pr.pages { WalkFinds(r1, root, 4, path); }
  }

  lemma ShownFrame(ram: Memory, e: Entry, page: nat, pages: map<nat, Mapping>)
    requires Shows(ram, e, page, pages)
    ensures page in pages ==> e.Mapped? && IsUser(e.pte) && UserFrame(e) == {Frame(e.pte)}
    ensures page !in pages ==> UserFrame(e) == {}
  {
  }

  lemma FootprintAfter(r2: Memory, r3: Memory, root: nat, path: seq<nat>, page: nat, e: nat, tables: set<nat>,
                       free: set<nat>)
    requires Remapped(r2, r3, root, path, e, tables, free) && IsUser(e) && Frame(e) == page
    ensures InRange(path, 4) && Tree(r3, root, 4)
    ensures Footprint(r3, root, 4) == Footprint(r2, root, 4) - UserFrame(Walk(r2, root, 4, path)) + (tables + {page})
  {
    hide Tree, Footprint, Walk, SameFrames, Spine;
  }

  lemma OwnsCount(s: Start, r1: Memory, r3: Memory, root: nat, pr: Progress, pr': Progress, gone: set<nat>, page: nat,
                  tables: set<nat>, vp: nat)
    requires OwnsTaken(r1, root, pr) && Tree(r3, root, 4) && Footprint(r1, root, 4) !! s.free - pr.taken
    requires gone <= Footprint(r1, root, 4) && |gone| == if vp in Seen(pr.visited) then 1 else 0
    requires Footprint(r3, root, 4) == Footprint(r1, root, 4) - gone + (tables + {page})
    requires page in s.free - pr.taken && tables <= s.free - pr.taken - {page}
    requires pr'.visited == pr.visited + [vp] && pr'.taken == pr.taken + {page} + tables
    requires Seen(pr'.visited) == Seen(pr.visited) + {vp}
    requires |pr'.visited| + |TablePaths(pr'.visited)| == |pr.visited| + |TablePaths(pr.visited)| + 1 + |tables|
    ensures OwnsTaken(r3, root, pr')
  {
    hide *;
    var f := Footprint(r1, root, 4);
    OwnsParts(r1, root, pr);
    SetTrade(f, gone, tables, page);
    WithOne(Seen(pr.visited), vp);
    TakenMore(f, gone, pr.taken, root, page, tables);
    OwnsIntro(r3, root, pr');
  }

  lemma OwnsParts(ram: Memory, root: nat, pr: Progress)
    requires OwnsTaken(ram, root, pr)
    ensures Tree(ram, root, 4) && Footprint(ram, root, 4) <= {root} + pr.taken
    ensures |Footprint(ram, root, 4)| == 1 + |Seen(pr.visited)| + |TablePaths(pr.visited)|
  {
  }

  lemma OwnsIntro(ram: Memory, root: nat, pr: Progress)
    requires Tree(ram, root, 4) && Footprint(ram, root, 4) <= {root} + pr.taken
    requires |Footprint(ram, root, 4)| == 1 + |Seen(pr.visited)| + |TablePaths(pr.visited)|
    ensures OwnsTaken(ram, root, pr)
  {
  }

  lemma WithOne(a: set<nat>, x: nat)
    ensures |a + {x}| == |a| + if x in a then 0 else 1
  {
    if x in a { assert a + {x} == a; }
  }

  lemma TakenMore(f: set<nat>, gone: set<nat>, taken: set<nat>, root: nat, page: nat, tables: set<nat>)
    requires f <= {root} + taken
    ensures f - gone + (tables + {page}) <= {root} + (taken + {page} + tables)
  {
  }

  lemma SetTrade(f: set<nat>, gone: set<nat>, tables: set<nat>, page: nat)
    requires gone <= f && page !in f && page !in tables && f !! tables
    ensures |f - gone + (tables + {page})| == |f| - |gone| + |tables| + 1
  {
    assert |f - gone| == |f| - |gone|;
    assert |tables + {page}| == |tables| + 1;
    assert |f - gone + (tables + {page})| == |f - gone| + |tables + {page}|;
  }

  /** A root with nothing below it. */
  ghost predicate Fresh(ram: Memory, free: set<nat>, root: nat) {
    && root < |ram| && root !in free
    && Tree(ram, root, 4) && Footprint(ram, root, 4) == {root} && Unmapped(ram, root)
  }

  lemma FreshIntro(ram: Memory, free: set<nat>, root: nat)
    requires root < |ram| && root !in free
    requires Tree(ram, root, 4) && Footprint(ram, root, 4) == {root} && Unmapped(ram, root)
    ensures Fresh(ram, free, root)
  {
    hide Tree, Footprint, Unmapped;
  }

  /** A root with nothing mapped, and no table below it, is where loading starts. */
  lemma FreshLoading(s: Start, root: nat)
    requires Fresh(s.ram, s.free, root)
    ensures Loading(s, s.ram, s.free, s.live, root, Progress(map[], [], {}))
  {
    hide *;
    var none := Progress(map[], [], {});
    FreshParts(s.ram, s.free, root);
    FreshAccounts(s, root);
    FreshRefines(s.ram, root);
    FreshTabled(s.ram, root);
    SeenStep([], 0);
    TablePathsStep([], 0);
    OwnsIntro(s.ram, root, none);
    FreshOpen(s.ram, root);
    LoadingIntro(s, s.ram, s.free, s.live, root, none);
  }

  lemma FreshParts(ram: Memory, free: set<nat>, root: nat)
    requires Fresh(ram, free, root)
    ensures root < |ram| && root !in free
    ensures Tree(ram, root, 4) && Footprint(ram, root, 4) == {root} && Unmapped(ram, root)
  {
    hide Tree, Footprint, Unmapped;
  }

  lemma FreshAccounts(s: Start, root: nat)
    requires root < |s.ram|
    ensures Accounts(s, s.free, s.live, Progress(map[], [], {})) && OthersSame(s, s.ram, root)
  {
    SinglesSum({}, {});
    assert s.free - {} == s.free && s.live + {} == s.live;
  }

  lemma FreshRefines(ram: Memory, root: nat)
    requires Unmapped(ram, root)
    ensures Refines(ram, root, map[])
  {
    hide Walk;
    forall p | InRange(p, 4) ensures Walk(ram, root, 4, p) == Absent {
      assert [] <= p;
    }
  }

  lemma FreshTabled(ram: Memory, root: nat)
    requires Tree(ram, root, 4) && Footprint(ram, root, 4) == {root}
    ensures Tabled(ram, root, [])
  {
    hide Spine, Tree, Footprint;
    forall q | 0 < |q| < 4 ensures !Spine(ram, root, 4, q) {
      if Spine(ram, root, 4, q) {
        SpineFirst(ram, root, q);
        NoChild(ram, root, q[0]);
      }
    }
  }

  lemma FreshOpen(ram: Memory, root: nat)
    requires Tree(ram, root, 4) && Footprint(ram, root, 4) == {root}
    ensures OpenTables(ram, root, 4)
  {
    forall i | 0 <= i < Limit(4) ensures !Owns(ram, root, 4, i) {
      NoChild(ram, root, i);
    }
  }

  lemma NoChild(ram: Memory, root: nat, i: nat)
    requires Tree(ram, root, 4) && Footprint(ram, root, 4) == {root}
    ensures !Owns(ram, root, 4, i)
  {
    hide Tree, Footprint;
    if Owns(ram, root, 4, i) {
      ChildTree(ram, root, 4, i);
      ChildInside(ram, root, 4, i);
    }
  }

  lemma SpineFirst(ram: Memory, root: nat, q: seq<nat>)
    requires Spine(ram, root, 4, q) && q != []
    ensures Owns(ram, root, 4, q[0])
  {
  }

  /**
   * With this much memory no table is ever missing for want of a page: each time there is a page left
   * for the data of the next one, there are enough for its tables as well.
   */
  ghost predicate Ample(all: seq<nat>, room: nat) {
    forall i :: 0 <= i < |all| ==> AmpleAt(all, room, i)
  }

  ghost predicate AmpleAt(all: seq<nat>, room: nat, i: nat)
    requires i < |all|
  {
    room <= Cost(all[..i]) || Cost(all[..i + 1]) <= room
  }

  lemma AmpleNext(all: seq<nat>, room: nat, v: seq<nat>, page: nat)
    requires Ample(all, room) && v + [page] <= all
    ensures room <= Cost(v) || Cost(v + [page]) <= room
  {
    hide Cost;
    assert AmpleAt(all, room, |v|);
    assert all[..|v|] == v && all[..|v| + 1] == v + [page];
  }

  predicate Distinct(v: seq<nat>) {
    forall i, j :: 0 <= i < j < |v| ==> v[i] != v[j]
  }

  lemma RepeatsStep(v: seq<nat>, page: nat)
    ensures Repeats([]) == 0
    ensures Repeats(v + [page]) == Repeats(v) + if page in v then 1 else 0
  {
    SeenStep(v, page);
    WithOne(Seen(v), page);
  }

  lemma {:induction false} RepeatsMono(v: seq<nat>, w: seq<nat>)
    requires v <= w
    ensures 0 <= Repeats(v) <= Repeats(w)
    decreases |w|
  {
    hide Repeats;
    if w == [] {
      RepeatsStep(w, 0);
    } else {
      var u := w[..|w| - 1];
      assert w == u + [w[|w| - 1]];
      RepeatsStep(u, w[|w| - 1]);
      if v != w { RepeatsMono(v, u); } else { RepeatsMono(u, u); }
    }
  }

  /** Nothing is mapped over exactly when no page comes twice. */
  lemma {:induction false} RepeatsNone(v: seq<nat>)
    ensures Repeats(v) == 0 <==> Distinct(v)
    decreases |v|
  {
    hide Repeats;
    RepeatsStep(v, 0);
    if v != [] {
      var u, page := v[..|v| - 1], v[|v| - 1];
      assert v == u + [page];
      RepeatsNone(u);
      RepeatsStep(u, page);
      RepeatsMono(u, u);
      if page in u {
        var i :| 0 <= i < |u| && u[i] == page;
        assert v[i] == v[|v| - 1];
      }
      assert Distinct(v) <==> Distinct(u) && page !in u;
    }
  }

  lemma DistinctSum(v: seq<nat>, w: seq<nat>)
    requires Distinct(v) && Distinct(w) && forall i :: 0 <= i < |v| ==> v[i] !in w
    ensures Distinct(v + w)
  {
    forall i, j | 0 <= i < j < |v + w| ensures (v + w)[i] != (v + w)[j] {
      if i < |v| <= j { assert (v + w)[j] == w[j - |v|] && v[i] !in w; }
    }
  }

  /** When no page was mapped twice the space owns all that was taken for it. */
  lemma OwnsAll(s: Start, ram: Memory, free: set<nat>, live: set<Block>, root: nat, pr: Progress)
    requires Loading(s, ram, free, live, root, pr) && Distinct(pr.visited)
    ensures Footprint(ram, root, 4) == {root} + pr.taken
  {
    hide *;
    LoadingParts(s, ram, free, live, root, pr);
    OwnsParts(ram, root, pr);
    RepeatsNone(pr.visited);
    RepeatsIs(pr.visited);
    CostIs(pr.visited);
    assert |{root} + pr.taken| <= 1 + |pr.taken|;
    SameSize(Footprint(ram, root, 4), {root} + pr.taken);
  }

  lemma RepeatsIs(v: seq<nat>)
    ensures Repeats(v) == |v| - |Seen(v)|
  {
  }

  lemma SameSize(a: set<nat>, c: set<nat>)
    requires a <= c && |c| <= |a|
    ensures a == c
  {
    assert c == a + (c - a) && |c| == |a| + |c - a|;
  }
}
