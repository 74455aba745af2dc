/**
 * copy_user_pml4: deep-copying a user address space for fork, page by page in address order. The nested
 * loops over the four levels of tables are one method that calls itself a level down.
 */
module CopySpace {
  import opened Blocks
  import opened BuddySpec
  import opened BuddyAllocator
  import opened PageTree
  import opened PageTables
  import opened UserImage

  /** The number of the page that indices lead to. */
  function Number(path: seq<nat>): nat {
    if path == [] then 0 else 512 * Number(path[..|path| - 1]) + path[|path| - 1]
  }

  lemma NumberStep(prefix: seq<nat>, i: nat)
    ensures Number([]) == 0 && Number(prefix + [i]) == 512 * Number(prefix) + i
  {
    assert (prefix + [i])[..|prefix|] == prefix;
  }

  lemma NumberOf(p: seq<nat>)
    requires InRange(p, 4)
    ensures Va(p) == 4096 * Number(p) && Va(p) / 4096 == Number(p) < USER_PAGES && PagePath(Number(p)) == p
  {
    NumberStep([], p[0]);
    NumberStep([p[0]], p[1]);
    NumberStep([p[0], p[1]], p[2]);
    NumberStep([p[0], p[1], p[2]], p[3]);
    assert [] + [p[0]] == [p[0]] && [p[0]] + [p[1]] == [p[0], p[1]];
    assert [p[0], p[1]] + [p[2]] == [p[0], p[1], p[2]] && [p[0], p[1], p[2]] + [p[3]] == p;
    hide Number, PagePath;
    PagePathUnique(p, Number(p));
  }

  lemma NumberSame(p: seq<nat>, q: seq<nat>)
    requires InRange(p, 4) && InRange(q, 4)
    ensures Number(p) == Number(q) <==> p == q
  {
    NumberOf(p);
    NumberOf(q);
  }

  /** prefix names a table slot: the start of some path. */
  predicate PathStart(prefix: seq<nat>) {
    |prefix| < 4 && Indices(prefix) && forall i :: 0 <= i < |prefix| ==> prefix[i] < Limit(4 - i)
  }

  /** The user pages entry i of t leads to, in address order; prefix leads to t. */
  ghost function EntryPages(ram: Memory, t: nat, level: nat, prefix: seq<nat>, i: nat): seq<nat>
    requires level > 0
    decreases level, 0, i, t
  {
    if !Owns(ram, t, level, i) then []
    else if level == 1 then [Number(prefix + [i])]
    else UserPages(ram, Child(ram, t, i), level - 1, prefix + [i], Limit(level - 1))
  }

  /** The user pages the first n entries of t lead to, in address order. */
  ghost function UserPages(ram: Memory, t: nat, level: nat, prefix: seq<nat>, n: nat): seq<nat>
    requires level > 0
    decreases level, 1, n, t
  {
    if n == 0 then [] else UserPages(ram, t, level, prefix, n - 1) + EntryPages(ram, t, level, prefix, n - 1)
  }

  /** All the user pages of a space. */
  ghost function PagesOf(ram: Memory, root: nat): seq<nat> {
    UserPages(ram, root, 4, [], Limit(4))
  }

  lemma PagesStep(ram: Memory, t: nat, level: nat, prefix: seq<nat>, n: nat)
    requires level > 0
    ensures UserPages(ram, t, level, prefix, 0) == []
    ensures UserPages(ram, t, level, prefix, n + 1) ==
            UserPages(ram, t, level, prefix, n) + EntryPages(ram, t, level, prefix, n)
  {
  }

  lemma EntryPagesIs(ram: Memory, t: nat, level: nat, prefix: seq<nat>, i: nat)
    requires level > 0
    ensures !Owns(ram, t, level, i) ==> EntryPages(ram, t, level, prefix, i) == []
    ensures Owns(ram, t, level, i) && level == 1 ==> EntryPages(ram, t, level, prefix, i) == [Number(prefix + [i])]
    ensures Owns(ram, t, level, i) && level > 1 ==>
              EntryPages(ram, t, level, prefix, i) ==
              UserPages(ram, Child(ram, t, i), level - 1, prefix + [i], Limit(level - 1))
  {
  }

  lemma {:induction false} PagesPrefix(ram: Memory, t: nat, level: nat, prefix: seq<nat>, m: nat, n: nat)
    requires level > 0 && m <= n
    ensures UserPages(ram, t, level, prefix, m) <= UserPages(ram, t, level, prefix, n)
    decreases n
  {
    if m < n {
      PagesPrefix(ram, t, level, prefix, m, n - 1);
      PagesStep(ram, t, level, prefix, n - 1);
    }
  }

  /** A walk from t that ends at a user page. */
  predicate UserAt(ram: Memory, t: nat, level: nat, rest: seq<nat>)
    requires level > 0 && |rest| == level && Indices(rest)
  {
    Walk(ram, t, level, rest).Mapped? && Walk(ram, t, level, rest).pte / 4 % 2 == 1
  }

  /** The pages listed are exactly those a walk finds mapped for the user. */
  lemma {:induction false} PagesHas(ram: Memory, t: nat, level: nat, prefix: seq<nat>, n: nat, p: seq<nat>)
    requires 0 < level <= 4 && PathStart(prefix) && |prefix| == 4 - level && n <= Limit(level)
    requires Tree(ram, t, level) && InRange(p, 4)
    ensures Number(p) in UserPages(ram, t, level, prefix, n) <==>
            prefix <= p && p[|prefix|] < n && UserAt(ram, t, level, p[|prefix|..])
    decreases level, 1, n
  {
    hide *;
    PagesStep(ram, t, level, prefix, if n == 0 then 0 else n - 1);
    if n > 0 {
      var i := n - 1;
      PagesHas(ram, t, level, prefix, i, p);
      LimitAt(level, i);
      EntryHas(ram, t, level, prefix, i, p);
      StartMore(prefix, i, p);
    }
  }

  lemma LimitAt(level: nat, i: nat)
    ensures i + 1 <= Limit(level) ==> i < Limit(level) <= 512
  {
  }

  lemma StartMore(prefix: seq<nat>, i: nat, p: seq<nat>)
    requires |prefix| < |p|
    ensures prefix + [i] <= p <==> prefix <= p && p[|prefix|] == i
  {
    if prefix <= p && p[|prefix|] == i {
      assert p[..|prefix| + 1] == prefix + [i];
    }
  }

  lemma {:induction false} EntryHas(ram: Memory, t: nat, level: nat, prefix: seq<nat>, i: nat, p: seq<nat>)
    requires 0 < level <= 4 && PathStart(prefix) && |prefix| == 4 - level && i < Limit(level)
    requires Tree(ram, t, level) && InRange(p, 4)
    ensures Number(p) in EntryPages(ram, t, level, prefix, i) <==>
            prefix + [i] <= p && UserAt(ram, t, level, p[|prefix|..])
    decreases level, 0, i
  {
    hide *;
    EntryPagesIs(ram, t, level, prefix, i);
    StartMore(prefix, i, p);
    if prefix + [i] <= p {
      RestInRange(p, prefix);
      UserDown(ram, t, level, i, p[|prefix|..]);
    }
    if Owns(ram, t, level, i) {
      OwnsBounds(ram, t, level, i);
      if level == 1 {
        LeafPath(prefix, i);
        NumberSame(p, prefix + [i]);
      } else {
        var below, path := level - 1, prefix + [i];
        ChildTree(ram, t, level, i);
        StartDown(prefix, i, level);
        PagesHas(ram, Child(ram, t, i), below, path, Limit(below), p);
        if path <= p { RestOf(prefix, i, p, level); }
      }
    }
  }

  lemma OwnsBounds(ram: Memory, t: nat, level: nat, i: nat)
    requires Owns(ram, t, level, i)
    ensures t < |ram| && i < Limit(level) && i < 512 && Frame(ram[t][i]) == Child(ram, t, i)
  {
  }

  /** One step of a walk, for the entry it goes through. */
  lemma UserDown(ram: Memory, t: nat, level: nat, i: nat, rest: seq<nat>)
    requires 0 < level && Tree(ram, t, level) && |rest| == level && Indices(rest) && rest[0] == i < Limit(level)
    ensures !Owns(ram, t, level, i) ==> !UserAt(ram, t, level, rest)
    ensures Owns(ram, t, level, i) && level == 1 ==> UserAt(ram, t, level, rest)
    ensures Owns(ram, t, level, i) && level > 1 ==>
              Indices(rest[1..])
              && (UserAt(ram, t, level, rest) <==> UserAt(ram, Child(ram, t, i), level - 1, rest[1..]))
  {
    hide Tree;
  }

  lemma LeafPath(prefix: seq<nat>, i: nat)
    requires PathStart(prefix) && |prefix| == 3 && i < Limit(1)
    ensures InRange(prefix + [i], 4) && Indices(prefix)
  {
  }

  lemma StartDown(prefix: seq<nat>, i: nat, level: nat)
    requires PathStart(prefix) && 1 < level <= 4 && |prefix| == 4 - level && i < Limit(level)
    ensures PathStart(prefix + [i])
  {
  }

  lemma RestOf(prefix: seq<nat>, i: nat, p: seq<nat>, level: nat)
    requires InRange(p, 4) && 1 < level <= 4 && |prefix| == 4 - level && prefix + [i] <= p
    ensures p[|prefix|..][1..] == p[|prefix| + 1..] && p[|prefix| + 1] < Limit(level - 1)
  {
  }

  predicate Increasing(v: seq<nat>) {
    forall i, j :: 0 <= i < j < |v| ==> v[i] < v[j]
  }

  predicate Between(v: seq<nat>, low: nat, high: nat) {
    forall i :: 0 <= i < |v| ==> low <= v[i] < high
  }

  lemma IncreasingSum(v: seq<nat>, w: seq<nat>, low: nat, mid: nat, high: nat)
    requires Increasing(v) && Increasing(w) && Between(v, low, mid) && Between(w, mid, high) && low <= mid <= high
    ensures Increasing(v + w) && Between(v + w, low, high)
  {
  }

  /** How many pages lie under an entry of a table one level up. */
  function Span(level: nat): nat {
    if level == 0 then 1 else 512 * Span(level - 1)
  }

  /** The pages are listed in address order. */
  lemma {:induction false} PagesIncrease(ram: Memory, t: nat, level: nat, prefix: seq<nat>, n: nat)
    requires 0 < level && n <= 512
    ensures var low := Number(prefix) * Span(level);
            && Increasing(UserPages(ram, t, level, prefix, n))
            && Between(UserPages(ram, t, level, prefix, n), low, low + n * Span(level - 1))
    decreases level, 1, n
  {
    hide *;
    var low, unit := Number(prefix) * Span(level), Span(level - 1);
    PagesStep(ram, t, level, prefix, if n == 0 then 0 else n - 1);
    if n == 0 {
      NoPages(low, low + n * unit);
    } else {
      var i := n - 1;
      PagesIncrease(ram, t, level, prefix, i);
      EntryIncreases(ram, t, level, prefix, i);
      Steps(i, unit);
      IncreasingSum(UserPages(ram, t, level, prefix, i), EntryPages(ram, t, level, prefix, i),
        low, low + i * unit, low + n * unit);
    }
  }

  lemma NoPages(low: nat, high: nat)
    ensures Increasing([]) && Between([], low, high)
  {
  }

  lemma Steps(i: nat, unit: nat)
    ensures (i + 1) * unit == i * unit + unit && i * unit >= 0
  {
  }

  lemma {:induction false} EntryIncreases(ram: Memory, t: nat, level: nat, prefix: seq<nat>, i: nat)
    requires 0 < level && i < 512
    ensures var low, unit := Number(prefix) * Span(level), Span(level - 1);
            && Increasing(EntryPages(ram, t, level, prefix, i))
            && Between(EntryPages(ram, t, level, prefix, i), low + i * unit, low + i * unit + unit)
    decreases level, 0, i
  {
    hide *;
    var low, unit := Number(prefix) * Span(level), Span(level - 1);
    EntryPagesIs(ram, t, level, prefix, i);
    NumberStep(prefix, i);
    SpanIs(level);
    if !Owns(ram, t, level, i) {
      NoPages(low + i * unit, low + i * unit + unit);
    } else if level == 1 {
      OnePage(Number(prefix + [i]));
    } else {
      var below := level - 1;
      OwnsBounds(ram, t, level, i);
      LimitBound(below);
      PagesIncrease(ram, Child(ram, t, i), below, prefix + [i], Limit(below));
      SpanIs(below);
      Parts(Number(prefix), i, unit);
      MulLe(Limit(below), 512, Span(below - 1));
      Widen(EntryPages(ram, t, level, prefix, i), low + i * unit, low + i * unit + Limit(below) * Span(below - 1),
        low + i * unit + unit);
    }
  }

  lemma SpanIs(level: nat)
    requires level > 0
    ensures Span(0) == 1 && Span(level) == 512 * Span(level - 1)
  {
  }

  lemma LimitBound(level: nat)
    ensures Limit(level) <= 512
  {
  }

  lemma OnePage(x: nat)
    ensures Increasing([x]) && Between([x], x, x + 1)
  {
  }

  lemma Parts(n: nat, i: nat, unit: nat)
    ensures (512 * n + i) * unit == n * (512 * unit) + i * unit
  {
  }

  lemma Widen(v: seq<nat>, low: nat, mid: nat, high: nat)
    requires Between(v, low, mid) && mid <= high
    ensures Between(v, low, high)
  {
  }

  /** The pages of a space: each once, in address order, exactly the user pages a walk finds. */
  lemma PagesOfSpace(ram: Memory, root: nat)
    requires Tree(ram, root, 4)
    ensures Increasing(PagesOf(ram, root)) && Distinct(PagesOf(ram, root))
    ensures forall p :: InRange(p, 4) ==> (Number(p) in PagesOf(ram, root) <==> UserAt(ram, root, 4, p))
  {
    hide *;
    PagesOfIs(ram, root);
    LimitBound(4);
    PagesIncrease(ram, root, 4, [], Limit(4));
    IncreasingDistinct(PagesOf(ram, root));
    forall p | InRange(p, 4) ensures Number(p) in PagesOf(ram, root) <==> UserAt(ram, root, 4, p) {
      RootStart(p);
      PagesHas(ram, root, 4, [], Limit(4), p);
    }
  }

  lemma PagesOfIs(ram: Memory, root: nat)
    ensures PagesOf(ram, root) == UserPages(ram, root, 4, [], Limit(4))
  {
    hide UserPages;
  }

  lemma RootStart(p: seq<nat>)
    requires InRange(p, 4)
    ensures PathStart([]) && [] <= p && p[0..] == p && p[0] < Limit(4)
  {
  }

  lemma IncreasingDistinct(v: seq<nat>)
    requires Increasing(v)
    ensures Distinct(v)
  {
  }

  /** The pages listed depend only on the pages of the tree. */
  lemma {:induction false} PagesFrame(ram: Memory, ram': Memory, t: nat, level: nat, prefix: seq<nat>, n: nat)
    requires 0 < level && Tree(ram, t, level) && |ram'| == |ram| && n <= Limit(level)
    requires forall p :: 0 <= p < |ram| && p in Footprint(ram, t, level) ==> ram'[p] == ram[p]
    ensures UserPages(ram', t, level, prefix, n) == UserPages(ram, t, level, prefix, n)
    decreases level, 1, n
  {
    hide *;
    PagesStep(ram, t, level, prefix, if n == 0 then 0 else n - 1);
    PagesStep(ram', t, level, prefix, if n == 0 then 0 else n - 1);
    if n > 0 {
      var i := n - 1;
      LimitAt(level, i);
      PagesFrame(ram, ram', t, level, prefix, i);
      EntryFrame(ram, ram', t, level, prefix, i);
    }
  }

  lemma {:induction false} EntryFrame(ram: Memory, ram': Memory, t: nat, level: nat, prefix: seq<nat>, i: nat)
    requires 0 < level && Tree(ram, t, level) && |ram'| == |ram| && i < Limit(level)
    requires forall p :: 0 <= p < |ram| && p in Footprint(ram, t, level) ==> ram'[p] == ram[p]
    ensures EntryPages(ram', t, level, prefix, i) == EntryPages(ram, t, level, prefix, i)
    decreases level, 0, i
  {
    hide *;
    EntryPagesIs(ram, t, level, prefix, i);
    EntryPagesIs(ram', t, level, prefix, i);
    SameEntry(ram, ram', t, level, i);
    if Owns(ram, t, level, i) && level > 1 {
      var below := level - 1;
      ChildTree(ram, t, level, i);
      ChildInside(ram, t, level, i);
      PagesFrame(ram, ram', Child(ram, t, i), below, prefix + [i], Limit(below));
    }
  }

  lemma SameEntry(ram: Memory, ram': Memory, t: nat, level: nat, i: nat)
    requires Tree(ram, t, level) && |ram'| == |ram| && i < Limit(level)
    requires forall p :: 0 <= p < |ram| && p in Footprint(ram, t, level) ==> ram'[p] == ram[p]
    ensures Owns(ram', t, level, i) <==> Owns(ram, t, level, i)
    ensures Owns(ram, t, level, i) ==> t < |ram| && i < 512 && Child(ram', t, i) == Child(ram, t, i)
  {
    assert t in Footprint(ram, t, level);
  }

  /** What the old space maps a user page to. */
  function MappingAt(ram: Memory, root: nat, page: nat): Mapping {
    var e := Walk(ram, root, 4, PagePath(page));
    if e.Mapped? && Frame(e.pte) < |ram| then Mapping(ram[Frame(e.pte)], Flags(e.pte)) else Mapping(Filled(0), 0)
  }

  /** The old space as a flat map, of the pages in v only. */
  ghost function FlatOf(ram: Memory, root: nat, v: seq<nat>): map<nat, Mapping> {
    map page: nat | page in v :: MappingAt(ram, root, page)
  }

  lemma FlatStep(ram: Memory, root: nat, v: seq<nat>, page: nat)
    ensures FlatOf(ram, root, []) == map[]
    ensures FlatOf(ram, root, v + [page]) == FlatOf(ram, root, v)[page := MappingAt(ram, root, page)]
  {
    hide MappingAt;
  }

  /** The old space is intact and apart from the free pages and from the new root. */
  ghost predicate Source(s: Start, root: nat, source: nat) {
    Tree(s.ram, source, 4) && Footprint(s.ram, source, 4) !! s.free && root !in Footprint(s.ram, source, 4)
  }

  /** The new space stands for the pages of the old one copied so far. */
  ghost predicate Copying(s: Start, ram: Memory, free: set<nat>, live: set<Block>, root: nat, source: nat,
                          pr: Progress) {
    Loading(s, ram, free, live, root, pr) && Source(s, root, source) && pr.pages == FlatOf(s.ram, source, pr.visited)
  }

  lemma CopyingParts(s: Start, ram: Memory, free: set<nat>, live: set<Block>, root: nat, source: nat, pr: Progress)
    requires Copying(s, ram, free, live, root, source, pr)
    ensures Loading(s, ram, free, live, root, pr) && Source(s, root, source)
    ensures pr.pages == FlatOf(s.ram, source, pr.visited) && |ram| == |s.ram|
    ensures forall p :: 0 <= p < |ram| && p in Footprint(s.ram, source, 4) ==> ram[p] == s.ram[p] && p !in free
  {
    LoadingParts(s, ram, free, live, root, pr);
    hide Loading, Tree, Footprint, FlatOf;
  }

  /** Table t is part of the old space, reached through prefix. */
  ghost predicate Under(ram: Memory, source: nat, t: nat, level: nat, prefix: seq<nat>) {
    && 0 < level <= 4 && PathStart(prefix) && |prefix| == 4 - level
    && Tree(ram, t, level) && Footprint(ram, t, level) <= Footprint(ram, source, 4)
    && forall p :: InRange(p, 4) && prefix <= p ==> Walk(ram, source, 4, p) == Walk(ram, t, level, p[|prefix|..])
  }

  lemma UnderTable(ram: Memory, source: nat, t: nat, level: nat, prefix: seq<nat>)
    requires Under(ram, source, t, level, prefix)
    ensures 0 < level <= 4 && PathStart(prefix) && |prefix| == 4 - level && Tree(ram, t, level)
    ensures t < |ram| && t in Footprint(ram, source, 4)
  {
    assert t in Footprint(ram, t, level);
  }

  lemma UnderRoot(ram: Memory, source: nat)
    requires Tree(ram, source, 4)
    ensures Under(ram, source, source, 4, [])
  {
    hide Tree, Footprint, Walk;
    forall p | InRange(p, 4) ensures p[0..] == p {
    }
  }

  lemma UnderChild(ram: Memory, source: nat, t: nat, level: nat, prefix: seq<nat>, i: nat)
    requires Under(ram, source, t, level, prefix) && level > 1 && Owns(ram, t, level, i)
    ensures Under(ram, source, Child(ram, t, i), level - 1, prefix + [i])
  {
    var c, path, below := Child(ram, t, i), prefix + [i], level - 1;
    ChildTree(ram, t, level, i);
    ChildInside(ram, t, level, i);
    StartDown(prefix, i, level);
    forall p | InRange(p, 4) && path <= p
      ensures Walk(ram, source, 4, p) == Walk(ram, c, below, p[|path|..])
    {
      StartMore(prefix, i, p);
      RestInRange(p, prefix);
      RestOf(prefix, i, p, level);
      WalkDown(ram, t, level, i, p[|prefix|..]);
    }
  }

  lemma WalkDown(ram: Memory, t: nat, level: nat, i: nat, rest: seq<nat>)
    requires level > 1 && Owns(ram, t, level, i) && |rest| == level && Indices(rest) && rest[0] == i
    ensures Indices(rest[1..]) && Walk(ram, t, level, rest) == Walk(ram, Child(ram, t, i), level - 1, rest[1..])
  {
  }

  /** Duplicate the page that entry i of table t maps into a freshly allocated one, if there is one. */
  method Duplicate(b: Buddy, t: nat, i: nat) returns (ok: bool, pte: u64, page: nat)
    requires b.Ok() && t < |b.ram| && i < 512 && t !in b.free
    requires Frame(b.ram[t][i]) < |b.ram| && Frame(b.ram[t][i]) !in b.free
    modifies b`ram, b`lists, b`free, b`live, b.freeLists
    ensures b.Ok() && pte == old(b.ram)[t][i] && Frame(pte) < |old(b.ram)|
    ensures ok <==> old(b.free) != {}
    ensures !ok ==> b.free == old(b.free) && b.live == old(b.live) && b.ram == old(b.ram)
    ensures ok ==>
              && Filling(old(b.ram), b.ram, old(b.free), page, old(b.ram)[Frame(pte)])
              && page in old(b.free) && b.free == old(b.free) - {page} && b.live == old(b.live) + Singles({page})
  {
    hide *;
    pte := ReadEntry(b, t, i);
    ghost var r0 := b.ram;
    var addr;
    addr, page := AllocPage(b);
    ok := addr != 0;
    if ok {
      ghost var r1 := b.ram;
      b.Store(page, b.ram[Frame(pte)]);
      FillingIntro(r0, r1, b.ram, old(b.free), page, r0[Frame(pte)]);
    }
  }

  /** Copy the one user page that entry i of page table t maps; skip it when no page is free. */
  method CopyLeaf(b: Buddy, root: nat, t: nat, prefix: seq<nat>, i: nat, ghost s: Start, ghost source: nat,
                  ghost pr: Progress)
    returns (ghost pr': Progress)
    requires b.Ok() && Copying(s, b.ram, b.free, b.live, root, source, pr)
    requires Under(s.ram, source, t, 1, prefix) && Owns(s.ram, t, 1, i)
    requires b.free == {} || Cost(pr.visited + [Number(prefix + [i])]) - Cost(pr.visited) <= |b.free|
    modifies b`ram, b`lists, b`free, b`live, b.freeLists
    ensures b.Ok() && Copying(s, b.ram, b.free, b.live, root, source, pr')
    ensures old(b.free) == {} ==> pr' == pr && b.ram == old(b.ram) && b.free == {}
    ensures old(b.free) != {} ==> pr'.visited == pr.visited + [Number(prefix + [i])]
  {
    hide *;
    ghost var r1, free1, vp := b.ram, b.free, Number(prefix + [i]);
    CopyingParts(s, r1, free1, b.live, root, source, pr);
    LoadingParts(s, r1, free1, b.live, root, pr);
    LeafSource(s.ram, source, t, prefix, i);
    pr' := pr;
    var ok, pte, page := Duplicate(b, t, i);
    if !ok { return; }
    NumberOf(prefix + [i]);
    LeafFlags(pte);
    ghost var content := s.ram[Frame(pte)];
    pr' := MapData(b, root, Va(prefix + [i]), page, Flags(pte) - 1, content, vp, s, r1, pr);
    FlatStep(s.ram, source, pr.visited, vp);
    CopyingIntro(s, b.ram, b.free, b.live, root, source, pr');
  }

  lemma CopyingIntro(s: Start, ram: Memory, free: set<nat>, live: set<Block>, root: nat, source: nat, pr: Progress)
    requires Loading(s, ram, free, live, root, pr) && Source(s, root, source)
    requires pr.pages == FlatOf(s.ram, source, pr.visited)
    ensures Copying(s, ram, free, live, root, source, pr)
  {
    hide Loading, Source, FlatOf;
  }

  /** The leaf entry and the page it maps, in the old space. */
  lemma LeafSource(ram: Memory, source: nat, t: nat, prefix: seq<nat>, i: nat)
    requires Under(ram, source, t, 1, prefix) && Owns(ram, t, 1, i)
    ensures InRange(prefix + [i], 4) && t < |ram| && i < 512 && t in Footprint(ram, source, 4)
    ensures var pte := ram[t][i];
            && IsPresent(pte) && IsUser(pte) && Frame(pte) < |ram| && Frame(pte) in Footprint(ram, source, 4)
            && MappingAt(ram, source, Number(prefix + [i])) == Mapping(ram[Frame(pte)], Flags(pte))
  {
    var path := prefix + [i];
    UnderTable(ram, source, t, 1, prefix);
    LeafPath(prefix, i);
    OwnsBounds(ram, t, 1, i);
    ChildTree(ram, t, 1, i);
    ChildInside(ram, t, 1, i);
    NumberOf(path);
    assert Child(ram, t, i) in Footprint(ram, Child(ram, t, i), 0);
    hide Number, PagePath, Tree, Footprint;
    assert path[3..] == [i];
    assert Walk(ram, source, 4, path) == Walk(ram, t, 1, [i]);
  }

  /** The flags passed on are those of the entry without PRESENT, and make the same entry flags again. */
  lemma LeafFlags(pte: nat)
    requires IsPresent(pte) && IsUser(pte)
    ensures 0 < Flags(pte) <= 4096 && IsUser(Flags(pte) - 1) && OrPresent(Flags(pte) - 1) == Flags(pte)
  {
    EntryParts(Frame(pte), Flags(pte));
    EntryUser(Frame(pte), Flags(pte));
    assert pte == 4096 * Frame(pte) + Flags(pte);
  }

  /** The pages next follow those of pr, as far as memory goes: all of them unless none is left. */
  ghost predicate Got(pr: Progress, pr': Progress, next: seq<nat>, free: set<nat>) {
    && pr.visited <= pr'.visited <= pr.visited + next
    && (free != {} ==> pr'.visited == pr.visited + next)
  }

  lemma GotNone(pr: Progress, free: set<nat>)
    ensures Got(pr, pr, [], free)
  {
  }

  lemma GotMore(p0: Progress, p1: Progress, p2: Progress, u: seq<nat>, e: seq<nat>, free1: set<nat>, free2: set<nat>)
    requires Got(p0, p1, u, free1) && Got(p1, p2, e, free2) && (free1 == {} ==> p2 == p1 && free2 == {})
    ensures Got(p0, p2, u + e, free2)
  {
    assert p0.visited + u + e == p0.visited + (u + e);
  }

  /** While a page is free, what has been copied and what is next are the start of all there is. */
  lemma GotAhead(p0: Progress, p1: Progress, u: seq<nat>, e: seq<nat>, whole: seq<nat>, all: seq<nat>, free: set<nat>)
    requires Got(p0, p1, u, free) && free != {} && u + e <= whole && p0.visited + whole <= all
    ensures p1.visited + e <= all
  {
    assert p0.visited + u + e == p0.visited + (u + e);
  }

  /**
   * copy_user_pml4, from table t down: the user pages under t are copied in address order, as far as
   * memory goes; those that find no free page are skipped.
   */
  method CopyLevel(b: Buddy, root: nat, t: nat, level: nat, prefix: seq<nat>, ghost s: Start, ghost source: nat,
                   ghost pr: Progress, ghost all: seq<nat>)
    returns (ghost pr': Progress)
    requires b.Ok() && Copying(s, b.ram, b.free, b.live, root, source, pr) && Ample(all, |s.free|)
    requires level > 0 && Under(s.ram, source, t, level, prefix)
    requires b.free == {} || pr.visited + UserPages(s.ram, t, level, prefix, Limit(level)) <= all
    modifies b`ram, b`lists, b`free, b`live, b.freeLists
    ensures b.Ok() && Copying(s, b.ram, b.free, b.live, root, source, pr')
    ensures Got(pr, pr', UserPages(s.ram, t, level, prefix, Limit(level)), b.free)
    ensures old(b.free) == {} ==> pr' == pr && b.ram == old(b.ram) && b.free == {}
    decreases level, 1
  {
    hide *;
    ghost var r0, free0 := b.ram, b.free;
    pr' := pr;
    PagesStep(s.ram, t, level, prefix, 0);
    GotNone(pr, free0);
    for i := 0 to Limit(level)
      invariant b.Ok() && Copying(s, b.ram, b.free, b.live, root, source, pr')
      invariant Got(pr, pr', UserPages(s.ram, t, level, prefix, i), b.free)
      invariant free0 == {} ==> pr' == pr && b.ram == r0 && b.free == {}
    {
      ghost var pr1, free1, n := pr', b.free, i + 1;
      PagesStep(s.ram, t, level, prefix, i);
      LimitAt(level, i);
      PagesPrefix(s.ram, t, level, prefix, n, Limit(level));
      ghost var done, next := UserPages(s.ram, t, level, prefix, i), EntryPages(s.ram, t, level, prefix, i);
      if free1 != {} {
        GotAhead(pr, pr1, done, next, UserPages(s.ram, t, level, prefix, Limit(level)), all, free1);
      }
      pr' := CopyEntry(b, root, t, level, prefix, i, s, source, pr', all);
      GotMore(pr, pr1, pr', done, next, free1, b.free);
    }
  }

  /** The body of the loop: skip, copy the page of a leaf entry, or go down a level. */
  method CopyEntry(b: Buddy, root: nat, t: nat, level: nat, prefix: seq<nat>, i: nat, ghost s: Start,
                   ghost source: nat, ghost pr: Progress, ghost all: seq<nat>)
    returns (ghost pr': Progress)
    requires b.Ok() && Copying(s, b.ram, b.free, b.live, root, source, pr) && Ample(all, |s.free|)
    requires level > 0 && Under(s.ram, source, t, level, prefix) && i < Limit(level)
    requires b.free == {} || pr.visited + EntryPages(s.ram, t, level, prefix, i) <= all
    modifies b`ram, b`lists, b`free, b`live, b.freeLists
    ensures b.Ok() && Copying(s, b.ram, b.free, b.live, root, source, pr')
    ensures Got(pr, pr', EntryPages(s.ram, t, level, prefix, i), b.free)
    ensures old(b.free) == {} ==> pr' == pr && b.ram == old(b.ram) && b.free == {}
    decreases level, 0
  {
    hide *;
    ghost var r1, free1 := b.ram, b.free;
    pr' := pr;
    CopyingParts(s, r1, free1, b.live, root, source, pr);
    UnderTable(s.ram, source, t, level, prefix);
    LimitBound(level);
    EntryPagesIs(s.ram, t, level, prefix, i);
    GotNone(pr, free1);
    var pte := ReadEntry(b, t, i);
    OwnsIs(s.ram, t, level, i);
    if !IsPresent(pte) || (level == 1 && !IsUser(pte)) {
      return;
    }
    OwnsBounds(s.ram, t, level, i);
    if level == 1 {
      LeafFits(s, r1, free1, b.live, root, source, pr, Number(prefix + [i]), all);
      pr' := CopyLeaf(b, root, t, prefix, i, s, source, pr);
      GotOne(pr, pr', Number(prefix + [i]), free1, b.free);
    } else {
      UnderChild(s.ram, source, t, level, prefix, i);
      pr' := CopyLevel(b, root, Frame(pte), level - 1, prefix + [i], s, source, pr, all);
    }
  }

  lemma OwnsIs(ram: Memory, t: nat, level: nat, i: nat)
    requires t < |ram| && i < Limit(level) && i < 512
    ensures Owns(ram, t, level, i) <==> IsPresent(ram[t][i]) && (level > 1 || IsUser(ram[t][i]))
  {
  }

  lemma LeafFits(s: Start, ram: Memory, free: set<nat>, live: set<Block>, root: nat, source: nat, pr: Progress, vp: nat,
                 all: seq<nat>)
    requires Copying(s, ram, free, live, root, source, pr) && Ample(all, |s.free|)
    requires free == {} || pr.visited + [vp] <= all
    ensures free == {} || Cost(pr.visited + [vp]) - Cost(pr.visited) <= |free|
  {
    hide *;
    CopyingParts(s, ram, free, live, root, source, pr);
    LoadingParts(s, ram, free, live, root, pr);
    if free != {} { AmpleNext(all, |s.free|, pr.visited, vp); }
  }

  lemma GotOne(pr: Progress, pr': Progress, vp: nat, free1: set<nat>, free2: set<nat>)
    requires if free1 == {} then pr' == pr && free2 == {} else pr'.visited == pr.visited + [vp]
    ensures Got(pr, pr', [vp], free2)
  {
  }

  /**
   * At p root maps a private copy of what source maps there: the same flags, the same contents, in a page
   * of added, open to user mode, and to writes where the old entry is.
   */
  ghost predicate CopyAt(ram: Memory, source: nat, ram': Memory, root: nat, p: seq<nat>, added: set<nat>)
    requires InRange(p, 4)
  {
    var e, e' := Walk(ram, source, 4, p), Walk(ram', root, 4, p);
    && e.Mapped? && e'.Mapped? && Flags(e'.pte) == Flags(e.pte) && Frame(e'.pte) in added
    && Frame(e.pte) < |ram| && Frame(e'.pte) < |ram'| && ram'[Frame(e'.pte)] == ram[Frame(e.pte)]
    && UserMay(ram', root, 4, p) && (MayWrite(ram', root, 4, p) <==> e.pte / 2 % 2 == 1)
  }

  /** The user pages in v, and nothing else, are mapped at the same address by root, as private copies. */
  ghost predicate CopyOfPages(ram: Memory, ram': Memory, root: nat, source: nat, v: seq<nat>, added: set<nat>) {
    forall p :: InRange(p, 4) ==>
      if Number(p) in v then UserAt(ram, source, 4, p) && CopyAt(ram, source, ram', root, p, added)
      else Walk(ram', root, 4, p) == Absent
  }

  /** Every user page old maps, and nothing else, is mapped at the same address by root, as a private copy. */
  ghost predicate DeepCopy(ram: Memory, ram': Memory, root: nat, source: nat, added: set<nat>) {
    forall p :: InRange(p, 4) ==>
      if UserAt(ram, source, 4, p) then CopyAt(ram, source, ram', root, p, added)
      else Walk(ram', root, 4, p) == Absent
  }

  /** Where no table of the old space closes what is below it, every page of a deep copy has the rights it had. */
  lemma CopyRights(ram: Memory, ram': Memory, root: nat, source: nat, added: set<nat>, p: seq<nat>)
    requires DeepCopy(ram, ram', root, source, added) && InRange(p, 4) && UserAt(ram, source, 4, p)
    requires Tree(ram, source, 4) && OpenTables(ram, source, 4)
    ensures UserMay(ram, source, 4, p) && UserMay(ram', root, 4, p)
    ensures MayWrite(ram', root, 4, p) <==> MayWrite(ram, source, 4, p)
  {
    Rights(ram, source, 4, p);
    hide Tree, OpenTables, Walk, UserMay, MayWrite;
  }

  /**
   * copy_user_pml4 into a fresh root. The pages are copied in address order until memory runs out: all of
   * them exactly when data pages and tables fit in free memory, and otherwise as many as fit, with no
   * page left free; the rest are missing from the copy without notice.
   */
  method CopyUserPml4(b: Buddy, newPml4: nat, oldPml4: nat) returns (ghost pr: Progress)
    requires b.Ok() && Fresh(b.ram, b.free, newPml4)
    requires Tree(b.ram, oldPml4, 4) && Footprint(b.ram, oldPml4, 4) !! b.free
    requires newPml4 !in Footprint(b.ram, oldPml4, 4) && Ample(PagesOf(b.ram, oldPml4), |b.free|)
    modifies b`ram, b`lists, b`free, b`live, b.freeLists
    ensures b.Ok() && Loading(old(Start(b.ram, b.free, b.live)), b.ram, b.free, b.live, newPml4, pr)
    ensures var all := PagesOf(old(b.ram), oldPml4);
            && pr.visited <= all && (pr.visited != all ==> b.free == {})
            && (pr.visited == all <==> Cost(all) <= |old(b.free)|)
    ensures CopyOfPages(old(b.ram), b.ram, newPml4, oldPml4, pr.visited, pr.taken)
    ensures pr.visited == PagesOf(old(b.ram), oldPml4) ==>
              DeepCopy(old(b.ram), b.ram, newPml4, oldPml4, pr.taken)
    ensures Tree(b.ram, newPml4, 4) && Footprint(b.ram, newPml4, 4) == {newPml4} + pr.taken
    ensures Tree(b.ram, oldPml4, 4) && Footprint(b.ram, oldPml4, 4) == Footprint(old(b.ram), oldPml4, 4)
    ensures forall p :: 0 <= p < |b.ram| && p in Footprint(old(b.ram), oldPml4, 4) ==> b.ram[p] == old(b.ram)[p]
  {
    hide *;
    ghost var s := Start(b.ram, b.free, b.live);
    ghost var all := PagesOf(b.ram, oldPml4);
    pr := Progress(map[], [], {});
    CopyStart(s, newPml4, oldPml4);
    pr := CopyLevel(b, newPml4, oldPml4, 4, [], s, oldPml4, pr, all);
    CopyEnd(s, b.ram, b.free, b.live, newPml4, oldPml4, pr);
  }

  lemma CopyStart(s: Start, root: nat, source: nat)
    requires Fresh(s.ram, s.free, root) && Tree(s.ram, source, 4) && Footprint(s.ram, source, 4) !! s.free
    requires root !in Footprint(s.ram, source, 4)
    ensures Copying(s, s.ram, s.free, s.live, root, source, Progress(map[], [], {}))
    ensures Under(s.ram, source, source, 4, [])
    ensures [] + UserPages(s.ram, source, 4, [], Limit(4)) <= PagesOf(s.ram, source)
  {
    FreshLoading(s, root);
    UnderRoot(s.ram, source);
    FlatStep(s.ram, source, [], 0);
    hide Loading, Tree, Footprint, Under, FlatOf, UserPages;
  }

  lemma CopyEnd(s: Start, ram: Memory, free: set<nat>, live: set<Block>, root: nat, source: nat, pr: Progress)
    requires Copying(s, ram, free, live, root, source, pr)
    requires Got(Progress(map[], [], {}), pr, UserPages(s.ram, source, 4, [], Limit(4)), free)
    ensures Loading(s, ram, free, live, root, pr)
    ensures var all := PagesOf(s.ram, source);
            && pr.visited <= all && (pr.visited != all ==> free == {}) && (pr.visited == all <==> Cost(all) <= |s.free|)
    ensures CopyOfPages(s.ram, ram, root, source, pr.visited, pr.taken)
    ensures pr.visited == PagesOf(s.ram, source) ==> DeepCopy(s.ram, ram, root, source, pr.taken)
    ensures Tree(ram, root, 4) && Footprint(ram, root, 4) == {root} + pr.taken
    ensures Tree(ram, source, 4) && Footprint(ram, source, 4) == Footprint(s.ram, source, 4)
    ensures |ram| == |s.ram|
    ensures forall p :: 0 <= p < |ram| && p in Footprint(s.ram, source, 4) ==> ram[p] == s.ram[p]
  {
    hide *;
    var all := PagesOf(s.ram, source);
    PagesOfIs(s.ram, source);
    CopyingParts(s, ram, free, live, root, source, pr);
    LoadingParts(s, ram, free, live, root, pr);
    SourceTree(s, root, source);
    TreeFrame(s.ram, ram, source, 4);
    PagesOfSpace(s.ram, source);
    GotPart(pr, all, free);
    CostMono(pr.visited, all);
    DistinctPart(pr.visited, all);
    OwnsAll(s, ram, free, live, root, pr);
    forall p | InRange(p, 4)
      ensures if Number(p) in pr.visited
              then UserAt(s.ram, source, 4, p)
                   && CopyAt(s.ram, source, ram, root, p, pr.taken)
              else Walk(ram, root, 4, p) == Absent
    {
      InPart(pr.visited, all, Number(p));
      CopiedAt(s, ram, root, source, pr, p);
    }
    CopyIntro(s.ram, ram, root, source, pr.visited, pr.taken);
    if pr.visited == all { CopyWhole(s.ram, ram, root, source, pr.taken); }
  }

  lemma SourceTree(s: Start, root: nat, source: nat)
    requires Source(s, root, source)
    ensures Tree(s.ram, source, 4)
  {
  }

  lemma GotPart(pr: Progress, all: seq<nat>, free: set<nat>)
    requires Got(Progress(map[], [], {}), pr, all, free)
    ensures pr.visited <= all && (pr.visited != all ==> free == {})
  {
    assert [] + all == all;
  }

  lemma DistinctPart(v: seq<nat>, all: seq<nat>)
    requires v <= all && Distinct(all)
    ensures Distinct(v)
  {
  }

  lemma InPart(v: seq<nat>, all: seq<nat>, page: nat)
    requires v <= all
    ensures page in v ==> page in all
  {
  }

  lemma CopyIntro(ram: Memory, ram': Memory, root: nat, source: nat, v: seq<nat>, added: set<nat>)
    requires forall p :: InRange(p, 4) ==>
      if Number(p) in v then UserAt(ram, source, 4, p) && CopyAt(ram, source, ram', root, p, added)
      else Walk(ram', root, 4, p) == Absent
    ensures CopyOfPages(ram, ram', root, source, v, added)
  {
  }

  /** A copy of all the pages is a deep copy. */
  lemma CopyWhole(ram: Memory, ram': Memory, root: nat, source: nat, added: set<nat>)
    requires Tree(ram, source, 4) && CopyOfPages(ram, ram', root, source, PagesOf(ram, source), added)
    ensures DeepCopy(ram, ram', root, source, added)
  {
    PagesOfSpace(ram, source);
    hide Tree, Walk, PagesOf, Number, CopyAt, UserAt;
    forall p | InRange(p, 4)
      ensures if UserAt(ram, source, 4, p) then CopyAt(ram, source, ram', root, p, added)
              else Walk(ram', root, 4, p) == Absent
    {
      assert Number(p) in PagesOf(ram, source) <==> UserAt(ram, source, 4, p);
    }
  }

  /** What the new space maps at p, from what its flat map says. */
  lemma CopiedAt(s: Start, ram: Memory, root: nat, source: nat, pr: Progress, p: seq<nat>)
    requires InRange(p, 4) && Refines(ram, root, pr.pages) && pr.pages == FlatOf(s.ram, source, pr.visited)
    requires Tree(s.ram, source, 4) && Tree(ram, root, 4) && Footprint(ram, root, 4) == {root} + pr.taken
    requires OpenTables(ram, root, 4)
    requires Number(p) in pr.visited ==> UserAt(s.ram, source, 4, p)
    ensures if Number(p) in pr.visited
            then CopyAt(s.ram, source, ram, root, p, pr.taken)
            else Walk(ram, root, 4, p) == Absent
  {
    NumberOf(p);
    RefinesAt(ram, root, pr.pages, p);
    if Number(p) in pr.visited {
      WalkFinds(s.ram, source, 4, p);
      ShownFrame(ram, Walk(ram, root, 4, p), Number(p), pr.pages);
      WalkFinds(ram, root, 4, p);
      Rights(ram, root, 4, p);
      FlagBits(Walk(s.ram, source, 4, p).pte, Walk(ram, root, 4, p).pte);
    }
    hide Tree, Walk, Footprint, Number, Refines, PagePath, UserMay, MayWrite, OpenTables;
  }
}
