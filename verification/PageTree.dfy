/**
 * Four-level page tables as trees in physical memory. Level 4 is the root (only its lower, user half
 * counts), level 1 holds the leaf entries, level 0 is a user data page. Pages are named by number.
 */
module PageTree {
  import opened BuddyAllocator

  const PRESENT: nat := 1
  const WRITE: nat := 2
  const USER: nat := 4

  type Memory = seq<Page>

  datatype Entry = Absent | Mapped(pte: u64)

  predicate IsPresent(pte: nat) {
    pte % 2 == 1
  }

  predicate IsUser(pte: nat) {
    pte / 4 % 2 == 1
  }

  /** The page a table entry points at: the bits above the low twelve. */
  function Frame(pte: nat): nat {
    pte / 4096
  }

  function Flags(pte: nat): nat {
    pte % 4096
  }

  /** How many entries of a table belong to user space. */
  function Limit(level: nat): nat {
    if level == 4 then 256 else 512
  }

  /** Entry i of table t owns the page it points at: tables own tables, leaves own user pages. */
  predicate Owns(ram: Memory, t: nat, level: nat, i: nat) {
    t < |ram| && i < Limit(level) && IsPresent(ram[t][i]) && (level > 1 || IsUser(ram[t][i]))
  }

  function Child(ram: Memory, t: nat, i: nat): nat
    requires t < |ram| && i < 512
  {
    Frame(ram[t][i])
  }

  /** Every page that belongs to the tree under t, t included. */
  ghost function Footprint(ram: Memory, t: nat, level: nat): (s: set<nat>)
    ensures t in s
    decreases level, 1, t
  {
    {t} + if level == 0 then {} else Kids(ram, t, level, Limit(level))
  }

  /** The pages under the first n entries of t. */
  ghost function Kids(ram: Memory, t: nat, level: nat, n: nat): set<nat>
    requires level > 0
    decreases level, 0, n, t
  {
    if n == 0 then {}
    else Kids(ram, t, level, n - 1)
         + if Owns(ram, t, level, n - 1) then Footprint(ram, Child(ram, t, n - 1), level - 1) else {}
  }

  /** The pages under entry i of t. */
  ghost function Target(ram: Memory, t: nat, level: nat, i: nat): set<nat>
    requires level > 0
  {
    if Owns(ram, t, level, i) then Footprint(ram, Child(ram, t, i), level - 1) else {}
  }

  /** No page of the tree under t is reached by two paths. */
  ghost predicate Tree(ram: Memory, t: nat, level: nat)
    decreases level, 1, t
  {
    && t < |ram|
    && (level > 0 ==>
      && (forall i :: 0 <= i < Limit(level) && Owns(ram, t, level, i) ==> Subtree(ram, t, level, i))
      && (forall i, j :: 0 <= i < j < Limit(level) && Owns(ram, t, level, i) && Owns(ram, t, level, j) ==>
            Footprint(ram, Child(ram, t, i), level - 1) !! Footprint(ram, Child(ram, t, j), level - 1)))
  }

  ghost predicate Subtree(ram: Memory, t: nat, level: nat, i: nat)
    requires level > 0 && Owns(ram, t, level, i)
    decreases level, 0, t
  {
    Tree(ram, Child(ram, t, i), level - 1) && t !in Footprint(ram, Child(ram, t, i), level - 1)
  }

  predicate Indices(path: seq<nat>) {
    forall i :: 0 <= i < |path| ==> path[i] < 512
  }

  /** A path names an entry of each table on the way down. */
  predicate InRange(path: seq<nat>, level: nat)
    ensures InRange(path, level) ==> |path| == level && Indices(path)
  {
    |path| == level && forall i :: 0 <= i < level ==> path[i] < Limit(level - i)
  }

  /** The entry the hardware finds for a page, walking from table t. */
  function Walk(ram: Memory, t: nat, level: nat, path: seq<nat>): Entry
    requires level > 0 && |path| == level && Indices(path)
    decreases level, t
  {
    if t >= |ram| || ram[t][path[0]] % 2 == 0 then Absent
    else if level == 1 then Mapped(ram[t][path[0]])
    else Walk(ram, Child(ram, t, path[0]), level - 1, path[1..])
  }

  lemma {:induction false} KidsMember(ram: Memory, t: nat, level: nat, n: nat, q: nat)
    requires level > 0
    ensures q in Kids(ram, t, level, n) <==> exists i: nat :: i < n && q in Target(ram, t, level, i)
  {
    if n > 0 {
      KidsMember(ram, t, level, n - 1, q);
      assert q in Kids(ram, t, level, n) <==> q in Kids(ram, t, level, n - 1) || q in Target(ram, t, level, n - 1);
    }
  }

  lemma FootprintMember(ram: Memory, t: nat, level: nat, q: nat)
    requires level > 0
    ensures q in Footprint(ram, t, level) <==>
            q == t || exists i: nat :: i < Limit(level) && q in Target(ram, t, level, i)
  {
    KidsMember(ram, t, level, Limit(level), q);
  }

  /** A page lies under one entry only, and t lies under none. */
  lemma UnderOne(ram: Memory, t: nat, level: nat, i: nat, j: nat, q: nat)
    requires level > 0 && Tree(ram, t, level) && q in Target(ram, t, level, i) && q in Target(ram, t, level, j)
    ensures i == j && q != t
  {
    assert Subtree(ram, t, level, i);
  }

  /** The tree under t depends only on its own pages, and of the data pages not on their contents. */
  lemma {:induction false} TreeFrame(ram: Memory, ram': Memory, t: nat, level: nat)
    requires Tree(ram, t, level) && |ram'| == |ram|
    requires forall p :: 0 <= p < |ram| && p in Footprint(ram, t, level) ==> ram'[p] == ram[p]
    ensures Tree(ram', t, level) && Footprint(ram', t, level) == Footprint(ram, t, level)
    decreases level
  {
    if level > 0 {
      assert ram'[t] == ram[t];
      forall i | 0 <= i < Limit(level) && Owns(ram, t, level, i)
        ensures Owns(ram', t, level, i) && Subtree(ram', t, level, i)
        ensures Footprint(ram', Child(ram, t, i), level - 1) == Footprint(ram, Child(ram, t, i), level - 1)
      {
        assert Subtree(ram, t, level, i);
        ChildInside(ram, t, level, i);
        TreeFrame(ram, ram', Child(ram, t, i), level - 1);
      }
      KidsFrame(ram, ram', t, level, Limit(level));
    }
  }

  lemma KidsFrame(ram: Memory, ram': Memory, t: nat, level: nat, n: nat)
    requires level > 0 && t < |ram| == |ram'| && ram'[t] == ram[t] && n <= Limit(level)
    requires forall i :: 0 <= i < n && Owns(ram, t, level, i) ==>
               Footprint(ram', Child(ram, t, i), level - 1) == Footprint(ram, Child(ram, t, i), level - 1)
    ensures Kids(ram', t, level, n) == Kids(ram, t, level, n)
  {
    forall q ensures q in Kids(ram', t, level, n) <==> q in Kids(ram, t, level, n) {
      KidsMember(ram, t, level, n, q);
      KidsMember(ram', t, level, n, q);
      forall i | 0 <= i < n ensures q in Target(ram', t, level, i) <==> q in Target(ram, t, level, i) {
        assert Owns(ram', t, level, i) <==> Owns(ram, t, level, i);
      }
    }
  }

  lemma ChildTree(ram: Memory, t: nat, level: nat, i: nat)
    requires level > 0 && Tree(ram, t, level) && Owns(ram, t, level, i)
    ensures Tree(ram, Child(ram, t, i), level - 1) && Child(ram, t, i) < |ram|
            && t !in Footprint(ram, Child(ram, t, i), level - 1)
  {
    assert Subtree(ram, t, level, i);
  }

  lemma ChildInside(ram: Memory, t: nat, level: nat, i: nat)
    requires level > 0 && Owns(ram, t, level, i)
    ensures Footprint(ram, Child(ram, t, i), level - 1) <= Footprint(ram, t, level)
  {
    forall q | q in Footprint(ram, Child(ram, t, i), level - 1) ensures q in Footprint(ram, t, level) {
      FootprintMember(ram, t, level, q);
      assert q in Target(ram, t, level, i);
    }
  }

  lemma {:induction false} WalkFrame(ram: Memory, ram': Memory, t: nat, level: nat, path: seq<nat>)
    requires level > 0 && Tree(ram, t, level) && |ram'| == |ram| && InRange(path, level)
    requires forall p :: 0 <= p < |ram| && p in Footprint(ram, t, level) ==> ram'[p] == ram[p]
    ensures Walk(ram', t, level, path) == Walk(ram, t, level, path)
    decreases level
  {
    if level > 1 && IsPresent(ram[t][path[0]]) {
      assert Owns(ram, t, level, path[0]);
      assert Subtree(ram, t, level, path[0]);
      ChildInside(ram, t, level, path[0]);
      WalkFrame(ram, ram', Child(ram, t, path[0]), level - 1, path[1..]);
    }
  }

  /**
   * A change confined to the subtree under entry i carries over to the whole tree: it stays a tree,
   * trades the pages in gone for those in added, and only walks through entry i can differ.
   */
  ghost predicate Changed(ram: Memory, ram': Memory, t: nat, level: nat, gone: set<nat>, added: set<nat>) {
    && |ram'| == |ram| && Tree(ram, t, level) && Tree(ram', t, level)
    && gone <= Footprint(ram, t, level)
    && Footprint(ram', t, level) == (Footprint(ram, t, level) - gone) + added
  }

  /** The memories agree on the pages of all that are not among those of part. */
  ghost predicate SameOutside(ram: Memory, ram': Memory, all: set<nat>, part: set<nat>) {
    |ram'| == |ram| && forall p :: 0 <= p < |ram| && p in all && p !in part ==> ram'[p] == ram[p]
  }

  lemma Lift(ram: Memory, ram': Memory, t: nat, level: nat, i: nat, gone: set<nat>, added: set<nat>)
    requires level > 0 && Tree(ram, t, level) && Owns(ram, t, level, i)
    requires Changed(ram, ram', Child(ram, t, i), level - 1, gone, added)
    requires added !! Footprint(ram, t, level)
    requires SameOutside(ram, ram', Footprint(ram, t, level), Footprint(ram, Child(ram, t, i), level - 1))
    ensures Changed(ram, ram', t, level, gone, added)
  {
    var c := Child(ram, t, i);
    assert Subtree(ram, t, level, i);
    assert ram'[t] == ram[t];
    ChildInside(ram, t, level, i);
    forall j | 0 <= j < Limit(level) && Owns(ram, t, level, j)
      ensures Owns(ram', t, level, j) && Subtree(ram', t, level, j)
      ensures j != i ==> Footprint(ram', Child(ram, t, j), level - 1) == Footprint(ram, Child(ram, t, j), level - 1)
    {
      assert Subtree(ram, t, level, j);
      ChildInside(ram, t, level, j);
      if j != i {
        TreeFrame(ram, ram', Child(ram, t, j), level - 1);
      }
    }
    LiftFootprint(ram, ram', t, level, i, gone, added);
    LiftTree(ram, ram', t, level, i, gone, added);
  }

  lemma LiftFootprint(ram: Memory, ram': Memory, t: nat, level: nat, i: nat, gone: set<nat>, added: set<nat>)
    requires level > 0 && Tree(ram, t, level) && Owns(ram, t, level, i) && |ram'| == |ram| && ram'[t] == ram[t]
    requires gone <= Footprint(ram, Child(ram, t, i), level - 1)
    requires Footprint(ram', Child(ram, t, i), level - 1)
             == (Footprint(ram, Child(ram, t, i), level - 1) - gone) + added
    requires forall j :: 0 <= j < Limit(level) && Owns(ram, t, level, j) && j != i ==>
               Footprint(ram', Child(ram, t, j), level - 1) == Footprint(ram, Child(ram, t, j), level - 1)
    ensures Footprint(ram', t, level) == (Footprint(ram, t, level) - gone) + added
  {
    assert Subtree(ram, t, level, i);
    forall q ensures q in Footprint(ram', t, level) <==> q in (Footprint(ram, t, level) - gone) + added {
      forall j | 0 <= j < Limit(level) && j != i
        ensures q in Target(ram', t, level, j) <==> q in Target(ram, t, level, j)
      {
        assert Owns(ram', t, level, j) <==> Owns(ram, t, level, j);
      }
      assert q in Target(ram', t, level, i) <==> (q in Target(ram, t, level, i) && q !in gone) || q in added;
      assert q in gone ==> q in Target(ram, t, level, i);
      LiftMember(ram, ram', t, level, i, gone, added, q);
    }
  }

  lemma LiftMember(ram: Memory, ram': Memory, t: nat, level: nat, i: nat, gone: set<nat>, added: set<nat>, q: nat)
    requires level > 0 && Tree(ram, t, level) && i < Limit(level)
    requires forall j :: 0 <= j < Limit(level) && j != i ==>
             (q in Target(ram', t, level, j) <==> q in Target(ram, t, level, j))
    requires q in Target(ram', t, level, i) <==> (q in Target(ram, t, level, i) && q !in gone) || q in added
    requires q in gone ==> q in Target(ram, t, level, i)
    ensures q in Footprint(ram', t, level) <==> q in (Footprint(ram, t, level) - gone) + added
  {
    FootprintMember(ram, t, level, q);
    FootprintMember(ram', t, level, q);
    forall j | 0 <= j < Limit(level) && q in Target(ram, t, level, j) && q in gone ensures j == i {
      UnderOne(ram, t, level, i, j, q);
    }
    if q in gone { UnderOne(ram, t, level, i, i, q); }
  }

  lemma LiftTree(ram: Memory, ram': Memory, t: nat, level: nat, i: nat, gone: set<nat>, added: set<nat>)
    requires level > 0 && Tree(ram, t, level) && Owns(ram, t, level, i) && |ram'| == |ram| && ram'[t] == ram[t]
    requires forall j :: 0 <= j < Limit(level) && Owns(ram, t, level, j) ==>
             Owns(ram', t, level, j) && Subtree(ram', t, level, j)
    requires added !! Footprint(ram, t, level)
    requires Footprint(ram', Child(ram, t, i), level - 1)
             == (Footprint(ram, Child(ram, t, i), level - 1) - gone) + added
    requires forall j :: 0 <= j < Limit(level) && Owns(ram, t, level, j) && j != i ==>
               Footprint(ram', Child(ram, t, j), level - 1) == Footprint(ram, Child(ram, t, j), level - 1)
    ensures Tree(ram', t, level)
  {
    forall j, k | 0 <= j < k < Limit(level) && Owns(ram', t, level, j) && Owns(ram', t, level, k)
      ensures Footprint(ram', Child(ram', t, j), level - 1) !! Footprint(ram', Child(ram', t, k), level - 1)
    {
      assert Owns(ram, t, level, j) && Owns(ram, t, level, k);
      ChildInside(ram, t, level, j);
      ChildInside(ram, t, level, k);
    }
  }

  /** Every table named by prefix, going down from t, is present. */
  predicate Spine(ram: Memory, t: nat, level: nat, prefix: seq<nat>)
    decreases |prefix|
  {
    && |prefix| < level && t < |ram|
    && (prefix == [] || (prefix[0] < Limit(level) && IsPresent(ram[t][prefix[0]])
                         && Spine(ram, Child(ram, t, prefix[0]), level - 1, prefix[1..])))
  }

  /** The table that prefix leads to. */
  function Bottom(ram: Memory, t: nat, level: nat, prefix: seq<nat>): nat
    requires Spine(ram, t, level, prefix)
    decreases |prefix|
  {
    if prefix == [] then t else Bottom(ram, Child(ram, t, prefix[0]), level - 1, prefix[1..])
  }

  lemma {:induction false} BottomInside(ram: Memory, t: nat, level: nat, prefix: seq<nat>)
    requires Tree(ram, t, level) && Spine(ram, t, level, prefix)
    ensures var u := Bottom(ram, t, level, prefix);
            Tree(ram, u, level - |prefix|) && Footprint(ram, u, level - |prefix|) <= Footprint(ram, t, level)
    decreases |prefix|
  {
    if prefix != [] {
      assert Owns(ram, t, level, prefix[0]);
      assert Subtree(ram, t, level, prefix[0]);
      ChildInside(ram, t, level, prefix[0]);
      BottomInside(ram, Child(ram, t, prefix[0]), level - 1, prefix[1..]);
    }
  }

  lemma SpineDown(ram: Memory, ram': Memory, t: nat, level: nat, prefix: seq<nat>)
    requires Tree(ram, t, level) && Spine(ram, t, level, prefix) && prefix != []
    requires SameOutside(ram, ram', Footprint(ram, t, level),
             Footprint(ram, Bottom(ram, t, level, prefix), level - |prefix|))
    ensures Owns(ram, t, level, prefix[0])
    ensures var c, u := Child(ram, t, prefix[0]), Bottom(ram, t, level, prefix);
            && Tree(ram, c, level - 1) && Spine(ram, c, level - 1, prefix[1..])
            && Bottom(ram, c, level - 1, prefix[1..]) == u
            && Footprint(ram, u, level - |prefix|) <= Footprint(ram, c, level - 1) <= Footprint(ram, t, level)
            && SameOutside(ram, ram', Footprint(ram, c, level - 1), Footprint(ram, u, level - |prefix|))
            && SameOutside(ram, ram', Footprint(ram, t, level), Footprint(ram, c, level - 1))
            && ram'[t] == ram[t]
  {
    assert Owns(ram, t, level, prefix[0]);
    assert Subtree(ram, t, level, prefix[0]);
    ChildInside(ram, t, level, prefix[0]);
    BottomInside(ram, Child(ram, t, prefix[0]), level - 1, prefix[1..]);
  }

  /** A change below the end of a spine is a change of the whole tree, seen only by walks through it. */
  lemma {:induction false} SpineLift(ram: Memory, ram': Memory, t: nat, level: nat, prefix: seq<nat>, gone: set<nat>,
                                     added: set<nat>)
    requires Tree(ram, t, level) && Spine(ram, t, level, prefix)
    requires Changed(ram, ram', Bottom(ram, t, level, prefix), level - |prefix|, gone, added)
    requires added !! Footprint(ram, t, level)
    requires SameOutside(ram, ram', Footprint(ram, t, level),
             Footprint(ram, Bottom(ram, t, level, prefix), level - |prefix|))
    ensures Changed(ram, ram', t, level, gone, added)
    ensures Spine(ram', t, level, prefix) && Bottom(ram', t, level, prefix) == Bottom(ram, t, level, prefix)
    decreases |prefix|
  {
    if prefix != [] {
      var i, c := prefix[0], Child(ram, t, prefix[0]);
      SpineDown(ram, ram', t, level, prefix);
      hide SameOutside, Tree, Spine, Bottom;
      SpineLift(ram, ram', c, level - 1, prefix[1..], gone, added);
      Lift(ram, ram', t, level, i, gone, added);
      SpineStep(ram, ram', t, level, prefix);
    }
  }

  lemma SpineStep(ram: Memory, ram': Memory, t: nat, level: nat, prefix: seq<nat>)
    requires Spine(ram, t, level, prefix) && prefix != [] && |ram'| == |ram| && ram'[t] == ram[t]
    requires Spine(ram', Child(ram, t, prefix[0]), level - 1, prefix[1..])
    requires Bottom(ram', Child(ram, t, prefix[0]), level - 1, prefix[1..]) == Bottom(ram, t, level, prefix)
    ensures Spine(ram', t, level, prefix) && Bottom(ram', t, level, prefix) == Bottom(ram, t, level, prefix)
  {
  }

  lemma {:induction false} SpineWalk(ram: Memory, ram': Memory, t: nat, level: nat, prefix: seq<nat>, path: seq<nat>)
    requires Tree(ram, t, level) && Spine(ram, t, level, prefix) && InRange(path, level)
    requires SameOutside(ram, ram', Footprint(ram, t, level),
             Footprint(ram, Bottom(ram, t, level, prefix), level - |prefix|))
    ensures Walk(ram', t, level, path) ==
            if prefix <= path then Walk(ram', Bottom(ram, t, level, prefix), level - |prefix|, path[|prefix|..])
            else Walk(ram, t, level, path)
    decreases |prefix|
  {
    if prefix == [] {
      assert path[0..] == path;
    } else {
      var i, c := prefix[0], Child(ram, t, prefix[0]);
      SpineDown(ram, ram', t, level, prefix);
      if path[0] == i {
        PathTail(path, prefix, level);
        hide InRange, SameOutside, Tree;
        SpineWalk(ram, ram', c, level - 1, prefix[1..], path[1..]);
      } else {
        SiblingWalk(ram, ram', t, level, i, path);
      }
    }
  }

  lemma PathTail(path: seq<nat>, prefix: seq<nat>, level: nat)
    requires InRange(path, level) && 0 < |prefix| < level && path[0] == prefix[0]
    ensures InRange(path[1..], level - 1)
    ensures prefix <= path <==> prefix[1..] <= path[1..]
    ensures path[1..][|prefix| - 1..] == path[|prefix|..]
  {
    assert path == [path[0]] + path[1..] && prefix == [prefix[0]] + prefix[1..];
  }

  lemma SiblingWalk(ram: Memory, ram': Memory, t: nat, level: nat, i: nat, path: seq<nat>)
    requires level > 1 && Tree(ram, t, level) && Owns(ram, t, level, i) && |ram'| == |ram| && InRange(path, level)
    requires path[0] != i && ram'[t] == ram[t]
    requires forall p ::
               0 <= p < |ram| && p in Footprint(ram, t, level) && p !in Footprint(ram, Child(ram, t, i), level - 1) ==>
                 ram'[p] == ram[p]
    ensures Walk(ram', t, level, path) == Walk(ram, t, level, path)
  {
    if IsPresent(ram[t][path[0]]) {
      assert Owns(ram, t, level, path[0]);
      assert Subtree(ram, t, level, path[0]);
      ChildInside(ram, t, level, path[0]);
      SiblingsApart(ram, t, level, i, path[0]);
      WalkFrame(ram, ram', Child(ram, t, path[0]), level - 1, path[1..]);
    }
  }

  lemma SiblingsApart(ram: Memory, t: nat, level: nat, i: nat, j: nat)
    requires level > 0 && Tree(ram, t, level) && Owns(ram, t, level, i) && Owns(ram, t, level, j) && i != j
    ensures Footprint(ram, Child(ram, t, i), level - 1) !! Footprint(ram, Child(ram, t, j), level - 1)
  {
  }

  /** A zeroed page is a table with no entries. */
  lemma EmptyTable(ram: Memory, t: nat, level: nat)
    requires level > 0 && t < |ram| && forall i :: 0 <= i < Limit(level) ==> !IsPresent(ram[t][i])
    ensures Tree(ram, t, level) && Footprint(ram, t, level) == {t}
  {
    forall q | q in Footprint(ram, t, level) ensures q == t {
      FootprintMember(ram, t, level, q);
    }
  }

  /** Setting entry i of t, which owned the pages gone and now owns those under c. */
  lemma SetEntry(ram: Memory, ram': Memory, t: nat, level: nat, i: nat, pte: u64, gone: set<nat>, added: set<nat>)
    requires level > 0 && Tree(ram, t, level) && i < Limit(level) && |ram'| == |ram|
    requires ram'[t] == ram[t][i := pte] && forall p :: 0 <= p < |ram| && p in Footprint(ram, t, level) && p != t ==>
             ram'[p] == ram[p]
    requires gone == if Owns(ram, t, level, i) then Footprint(ram, Child(ram, t, i), level - 1) else {}
    requires Owns(ram', t, level, i) ==> Tree(ram', Frame(pte), level - 1)
    requires added == if Owns(ram', t, level, i) then Footprint(ram', Frame(pte), level - 1) else {}
    requires added !! Footprint(ram, t, level)
    ensures Changed(ram, ram', t, level, gone, added)
  {
    forall j | 0 <= j < Limit(level) && j != i && Owns(ram', t, level, j)
      ensures Owns(ram, t, level, j) && Subtree(ram', t, level, j)
      ensures Footprint(ram', Child(ram, t, j), level - 1) == Footprint(ram, Child(ram, t, j), level - 1)
    {
      assert Owns(ram, t, level, j);
      assert Subtree(ram, t, level, j);
      ChildInside(ram, t, level, j);
      TreeFrame(ram, ram', Child(ram, t, j), level - 1);
    }
    if Owns(ram, t, level, i) {
      assert Subtree(ram, t, level, i);
      ChildInside(ram, t, level, i);
    }
    SetEntryTree(ram, ram', t, level, i, pte, added);
    SetEntryFootprint(ram, ram', t, level, i, pte, gone, added);
  }

  lemma SetEntryTree(ram: Memory, ram': Memory, t: nat, level: nat, i: nat, pte: u64, added: set<nat>)
    requires level > 0 && Tree(ram, t, level) && i < Limit(level) && |ram'| == |ram| && ram'[t] == ram[t][i := pte]
    requires Owns(ram', t, level, i) ==>
             Tree(ram', Frame(pte), level - 1) && added == Footprint(ram', Frame(pte), level - 1)
    requires added !! Footprint(ram, t, level)
    requires forall j :: 0 <= j < Limit(level) && j != i && Owns(ram', t, level, j) ==>
               Subtree(ram', t, level, j)
                 && Footprint(ram', Child(ram, t, j), level - 1) == Footprint(ram, Child(ram, t, j), level - 1)
    ensures Tree(ram', t, level)
  {
    forall j | 0 <= j < Limit(level) && Owns(ram', t, level, j)
      ensures Subtree(ram', t, level, j)
    {
      assert j == i ==> Child(ram', t, i) == Frame(pte);
    }
    forall j, k | 0 <= j < k < Limit(level) && Owns(ram', t, level, j) && Owns(ram', t, level, k)
      ensures Footprint(ram', Child(ram', t, j), level - 1) !! Footprint(ram', Child(ram', t, k), level - 1)
    {
      if j != i {
        assert Owns(ram, t, level, j);
        ChildInside(ram, t, level, j);
      }
      if k != i {
        assert Owns(ram, t, level, k);
        ChildInside(ram, t, level, k);
      }
    }
  }

  lemma SetEntryFootprint(ram: Memory, ram': Memory, t: nat, level: nat, i: nat, pte: u64, gone: set<nat>,
                          added: set<nat>)
    requires level > 0 && Tree(ram, t, level) && i < Limit(level) && |ram'| == |ram| && ram'[t] == ram[t][i := pte]
    requires gone == if Owns(ram, t, level, i) then Footprint(ram, Child(ram, t, i), level - 1) else {}
    requires added == if Owns(ram', t, level, i) then Footprint(ram', Frame(pte), level - 1) else {}
    requires forall j :: 0 <= j < Limit(level) && j != i && Owns(ram', t, level, j) ==>
               Footprint(ram', Child(ram, t, j), level - 1) == Footprint(ram, Child(ram, t, j), level - 1)
    ensures Footprint(ram', t, level) == (Footprint(ram, t, level) - gone) + added
  {
    forall q ensures q in Footprint(ram', t, level) <==> q in (Footprint(ram, t, level) - gone) + added {
      forall j | 0 <= j < Limit(level) && j != i
        ensures q in Target(ram', t, level, j) <==> q in Target(ram, t, level, j)
      {
        assert Owns(ram', t, level, j) <==> Owns(ram, t, level, j);
      }
      assert q in Target(ram', t, level, i) <==> q in added;
      assert q in Target(ram, t, level, i) <==> q in gone;
      SetEntryMember(ram, ram', t, level, i, gone, added, q);
    }
  }

  lemma SetEntryMember(ram: Memory, ram': Memory, t: nat, level: nat, i: nat, gone: set<nat>, added: set<nat>, q: nat)
    requires level > 0 && Tree(ram, t, level) && i < Limit(level)
    requires forall j :: 0 <= j < Limit(level) && j != i ==>
             (q in Target(ram', t, level, j) <==> q in Target(ram, t, level, j))
    requires q in Target(ram', t, level, i) <==> q in added
    requires q in Target(ram, t, level, i) <==> q in gone
    ensures q in Footprint(ram', t, level) <==> q in (Footprint(ram, t, level) - gone) + added
  {
    FootprintMember(ram, t, level, q);
    FootprintMember(ram', t, level, q);
    forall j | 0 <= j < Limit(level) && q in Target(ram, t, level, j) && q in gone ensures j == i {
      UnderOne(ram, t, level, i, j, q);
    }
    if q in gone { UnderOne(ram, t, level, i, i, q); }
  }

  lemma {:induction false} SpineExtend(ram: Memory, t: nat, level: nat, prefix: seq<nat>, i: nat)
    requires Spine(ram, t, level, prefix) && |prefix| + 1 < level && i < Limit(level - |prefix|)
    requires var u := Bottom(ram, t, level, prefix);
             u < |ram| && IsPresent(ram[u][i]) && Child(ram, u, i) < |ram|
    ensures Spine(ram, t, level, prefix + [i])
    ensures Bottom(ram, t, level, prefix + [i]) == Child(ram, Bottom(ram, t, level, prefix), i)
    decreases |prefix|
  {
    if prefix != [] {
      SpineExtend(ram, Child(ram, t, prefix[0]), level - 1, prefix[1..], i);
      assert (prefix + [i])[1..] == prefix[1..] + [i];
    } else {
      assert (prefix + [i])[1..] == [];
    }
  }

  /** How many tables on the way down prefix do not exist yet. */
  function Missing(ram: Memory, t: nat, prefix: seq<nat>): (m: nat)
    requires Indices(prefix)
    ensures m <= |prefix|
    decreases |prefix|
  {
    if prefix == [] then 0
    else if t < |ram| && IsPresent(ram[t][prefix[0]]) then Missing(ram, Child(ram, t, prefix[0]), prefix[1..])
    else |prefix|
  }

  lemma {:induction false} MissingSpine(ram: Memory, t: nat, level: nat, prefix: seq<nat>, rest: seq<nat>)
    requires Spine(ram, t, level, prefix) && Indices(prefix + rest) && Indices(rest)
    ensures Missing(ram, t, prefix + rest) == Missing(ram, Bottom(ram, t, level, prefix), rest)
    decreases |prefix|
  {
    if prefix == [] {
      assert prefix + rest == rest;
    } else {
      assert (prefix + rest)[1..] == prefix[1..] + rest;
      MissingSpine(ram, Child(ram, t, prefix[0]), level - 1, prefix[1..], rest);
    }
  }

  lemma {:induction false} MissingExtend(ram: Memory, t: nat, prefix: seq<nat>, i: nat)
    requires i < 512 && Indices(prefix)
    ensures Missing(ram, t, prefix) <= Missing(ram, t, prefix + [i]) <= Missing(ram, t, prefix) + 1
    decreases |prefix|
  {
    if prefix != [] {
      assert (prefix + [i])[1..] == prefix[1..] + [i];
      if t < |ram| && IsPresent(ram[t][prefix[0]]) {
        MissingExtend(ram, Child(ram, t, prefix[0]), prefix[1..], i);
      }
    } else {
      assert (prefix + [i])[1..] == [];
    }
  }

  /** What a walk finds under the tree: a user page inside the footprint that is none of the tables walked. */
  lemma {:induction false} WalkFinds(ram: Memory, t: nat, level: nat, path: seq<nat>)
    requires level > 0 && Tree(ram, t, level) && InRange(path, level)
    requires Walk(ram, t, level, path).Mapped? && IsUser(Walk(ram, t, level, path).pte)
    ensures var f := Frame(Walk(ram, t, level, path).pte); f in Footprint(ram, t, level) && f < |ram| && f != t
    decreases level
  {
    var i := path[0];
    assert Owns(ram, t, level, i);
    ChildTree(ram, t, level, i);
    ChildInside(ram, t, level, i);
    if level > 1 {
      WalkFinds(ram, Child(ram, t, i), level - 1, path[1..]);
    }
  }

  lemma {:induction false} FrameNotTable(ram: Memory, t: nat, level: nat, path: seq<nat>, prefix: seq<nat>)
    requires level > 0 && Tree(ram, t, level) && InRange(path, level) && Spine(ram, t, level, prefix)
    requires Walk(ram, t, level, path).Mapped? && IsUser(Walk(ram, t, level, path).pte)
    ensures Frame(Walk(ram, t, level, path).pte) != Bottom(ram, t, level, prefix)
    decreases |prefix|
  {
    WalkFinds(ram, t, level, path);
    if prefix != [] {
      var i, j := path[0], prefix[0];
      assert Owns(ram, t, level, i) && Owns(ram, t, level, j);
      assert Subtree(ram, t, level, i) && Subtree(ram, t, level, j);
      BottomInside(ram, Child(ram, t, j), level - 1, prefix[1..]);
      if i == j {
        FrameNotTable(ram, Child(ram, t, i), level - 1, path[1..], prefix[1..]);
      } else {
        SiblingsApart(ram, t, level, i, j);
        if level > 1 { WalkFinds(ram, Child(ram, t, i), level - 1, path[1..]); }
      }
    }
  }

  /** Two virtual pages never share a user frame. */
  lemma {:induction false} FramesDistinct(ram: Memory, t: nat, level: nat, p: seq<nat>, q: seq<nat>)
    requires level > 0 && Tree(ram, t, level) && InRange(p, level) && InRange(q, level) && p != q
    requires Walk(ram, t, level, p).Mapped? && IsUser(Walk(ram, t, level, p).pte)
    requires Walk(ram, t, level, q).Mapped? && IsUser(Walk(ram, t, level, q).pte)
    ensures Frame(Walk(ram, t, level, p).pte) != Frame(Walk(ram, t, level, q).pte)
    decreases level
  {
    var i, j := p[0], q[0];
    assert Owns(ram, t, level, i) && Owns(ram, t, level, j);
    assert Subtree(ram, t, level, i) && Subtree(ram, t, level, j);
    if i == j {
      assert p == [i] + p[1..] && q == [j] + q[1..];
      if level > 1 {
        FramesDistinct(ram, Child(ram, t, i), level - 1, p[1..], q[1..]);
      }
    } else {
      SiblingsApart(ram, t, level, i, j);
      if level > 1 {
        WalkFinds(ram, Child(ram, t, i), level - 1, p[1..]);
        WalkFinds(ram, Child(ram, t, j), level - 1, q[1..]);
      }
    }
  }

  /** The four table indices of a user virtual address. */
  function PathOf(virt: nat): (path: seq<nat>)
    requires virt < 0x8000_0000_0000
    ensures InRange(path, 4)
  {
    [virt / 0x80_0000_0000 % 512, virt / 0x4000_0000 % 512, virt / 0x20_0000 % 512, virt / 0x1000 % 512]
  }

  /** The virtual address the four indices make up. */
  function Va(path: seq<nat>): (virt: nat)
    requires InRange(path, 4)
    ensures virt < 0x8000_0000_0000
  {
    path[0] * 0x80_0000_0000 + path[1] * 0x4000_0000 + path[2] * 0x20_0000 + path[3] * 0x1000
  }

  lemma Digit(high: nat, digit: nat, low: nat, unit: nat)
    requires digit < 512 && low < unit
    ensures (high * 512 + digit) * unit + low == high * (512 * unit) + digit * unit + low
    ensures ((high * 512 + digit) * unit + low) / unit % 512 == digit
  {
    var n := high * 512 + digit;
    DivideBack(n, unit, low);
  }

  lemma DivideBack(n: nat, unit: nat, low: nat)
    requires low < unit
    ensures (n * unit + low) / unit == n
  {
    var q := (n * unit + low) / unit;
    assert q * unit <= n * unit + low < (q + 1) * unit;
    if q < n {
      MulLe(q + 1, n, unit);
    } else if q > n {
      MulLe(n + 1, q, unit);
    }
  }

  lemma MulLe(a: nat, b: nat, c: nat)
    requires a <= b
    ensures a * c <= b * c
  {
  }

  lemma VaRoundTrip(path: seq<nat>)
    requires InRange(path, 4)
    ensures PathOf(Va(path)) == path
  {
    hide PathOf;
    Digit(0, path[0], path[1] * 0x4000_0000 + path[2] * 0x20_0000 + path[3] * 0x1000, 0x80_0000_0000);
    Digit(path[0], path[1], path[2] * 0x20_0000 + path[3] * 0x1000, 0x4000_0000);
    Digit(path[0] * 512 + path[1], path[2], path[3] * 0x1000, 0x20_0000);
    Digit((path[0] * 512 + path[1]) * 512 + path[2], path[3], 0, 0x1000);
    PathDigits(Va(path), path);
  }

  lemma PathDigits(virt: nat, path: seq<nat>)
    requires virt < 0x8000_0000_0000 && |path| == 4
    requires virt / 0x80_0000_0000 % 512 == path[0] && virt / 0x4000_0000 % 512 == path[1]
    requires virt / 0x20_0000 % 512 == path[2] && virt / 0x1000 % 512 == path[3]
    ensures PathOf(virt) == path
  {
  }

  /** The other way round: the indices of an address make up the start of its page. */
  lemma VaOfPath(virt: nat)
    requires virt < 0x8000_0000_0000
    ensures Va(PathOf(virt)) == virt / 0x1000 * 0x1000
  {
    var d := virt / 0x1000;
    var c := d / 512;
    var b := c / 512;
    var a := b / 512;
    assert virt / 0x20_0000 == c;
    assert virt / 0x4000_0000 == b;
    assert virt / 0x80_0000_0000 == a < 256;
  }

  /** Two user addresses take the same path exactly when they are in the same page. */
  lemma SamePath(v: nat, w: nat)
    requires v < 0x8000_0000_0000 && w < 0x8000_0000_0000
    ensures PathOf(v) == PathOf(w) <==> v / 0x1000 == w / 0x1000
  {
    VaOfPath(v);
    VaOfPath(w);
    hide Va;
    if v / 0x1000 == w / 0x1000 {
      assert v / 0x20_0000 == v / 0x1000 / 512 && w / 0x20_0000 == w / 0x1000 / 512;
      assert v / 0x4000_0000 == v / 0x1000 / 0x4_0000 && w / 0x4000_0000 == w / 0x1000 / 0x4_0000;
      assert v / 0x80_0000_0000 == v / 0x1000 / 0x800_0000 && w / 0x80_0000_0000 == w / 0x1000 / 0x800_0000;
    }
  }

  /** Which tables exist depends only on the pages of the tree. */
  lemma {:induction false} SpineFrame(ram: Memory, ram': Memory, t: nat, level: nat, q: seq<nat>)
    requires Tree(ram, t, level) && |ram'| == |ram|
    requires forall p :: 0 <= p < |ram| && p in Footprint(ram, t, level) ==> ram'[p] == ram[p]
    ensures Spine(ram', t, level, q) <==> Spine(ram, t, level, q)
    decreases |q|
  {
    if q != [] && |q| < level && q[0] < Limit(level) && IsPresent(ram[t][q[0]]) {
      assert Owns(ram, t, level, q[0]);
      ChildTree(ram, t, level, q[0]);
      ChildInside(ram, t, level, q[0]);
      hide Tree, Footprint;
      SpineFrame(ram, ram', Child(ram, t, q[0]), level - 1, q[1..]);
    }
  }

  /** A change below the end of a spine adds and removes no table elsewhere. */
  lemma {:induction false} SpineChange(ram: Memory, ram': Memory, t: nat, level: nat, prefix: seq<nat>, q: seq<nat>)
    requires Tree(ram, t, level) && Spine(ram, t, level, prefix) && |q| < level
    requires SameOutside(ram, ram', Footprint(ram, t, level),
             Footprint(ram, Bottom(ram, t, level, prefix), level - |prefix|))
    ensures Spine(ram', t, level, q) <==>
            if prefix <= q then Spine(ram', Bottom(ram, t, level, prefix), level - |prefix|, q[|prefix|..])
            else Spine(ram, t, level, q)
    decreases |prefix|
  {
    if prefix == [] {
      assert q[0..] == q;
    } else {
      var i, c := prefix[0], Child(ram, t, prefix[0]);
      SpineDown(ram, ram', t, level, prefix);
      if q == [] {
        assert !(prefix <= q);
      } else if q[0] == i {
        SpineTail(q, prefix);
        hide SameOutside, Tree;
        SpineChange(ram, ram', c, level - 1, prefix[1..], q[1..]);
      } else {
        SpineSibling(ram, ram', t, level, i, q);
      }
    }
  }

  lemma SpineTail(q: seq<nat>, prefix: seq<nat>)
    requires 0 < |prefix| && 0 < |q| && q[0] == prefix[0]
    ensures prefix <= q <==> prefix[1..] <= q[1..]
    ensures prefix <= q ==> q[1..][|prefix| - 1..] == q[|prefix|..]
  {
    assert q == [q[0]] + q[1..] && prefix == [prefix[0]] + prefix[1..];
  }

  lemma SpineSibling(ram: Memory, ram': Memory, t: nat, level: nat, i: nat, q: seq<nat>)
    requires level > 1 && Tree(ram, t, level) && Owns(ram, t, level, i) && |ram'| == |ram|
    requires 0 < |q| < level && q[0] != i && ram'[t] == ram[t]
    requires SameOutside(ram, ram', Footprint(ram, t, level), Footprint(ram, Child(ram, t, i), level - 1))
    ensures Spine(ram', t, level, q) <==> Spine(ram, t, level, q)
  {
    if q[0] < Limit(level) && IsPresent(ram[t][q[0]]) {
      assert Owns(ram, t, level, q[0]);
      ChildTree(ram, t, level, q[0]);
      ChildInside(ram, t, level, q[0]);
      SiblingsApart(ram, t, level, i, q[0]);
      SpineFrame(ram, ram', Child(ram, t, q[0]), level - 1, q[1..]);
    }
  }

  /** ram' has the tables of ram and those on the way down path, and no others. */
  ghost predicate Branched(ram: Memory, ram': Memory, root: nat, path: seq<nat>) {
    forall q :: |q| < 4 ==> (Spine(ram', root, 4, q) <==> Spine(ram, root, 4, q) || q <= path)
  }

  lemma {:induction false} SpineStart(ram: Memory, t: nat, level: nat, prefix: seq<nat>, q: seq<nat>)
    requires Spine(ram, t, level, prefix) && q <= prefix
    ensures Spine(ram, t, level, q)
    decreases |q|
  {
    if q != [] {
      assert q[1..] <= prefix[1..];
      SpineStart(ram, Child(ram, t, prefix[0]), level - 1, prefix[1..], q[1..]);
    }
  }

  lemma BranchedSame(ram: Memory, root: nat, path: seq<nat>)
    requires Spine(ram, root, 4, path)
    ensures Branched(ram, ram, root, path)
  {
    forall q | |q| < 4 && q <= path ensures Spine(ram, root, 4, q) {
      SpineStart(ram, root, 4, path, q);
    }
  }

  lemma BranchedCompose(r0: Memory, r1: Memory, r2: Memory, root: nat, p1: seq<nat>, p2: seq<nat>)
    requires Branched(r0, r1, root, p1) && Branched(r1, r2, root, p2) && p1 <= p2
    ensures Branched(r0, r2, root, p2)
  {
    hide Spine;
  }

  /** User mode gets through to the page at path: bit 2 is set in every entry of the walk. */
  predicate UserMay(ram: Memory, t: nat, level: nat, path: seq<nat>)
    requires level > 0 && |path| == level && Indices(path)
    decreases level, t
  {
    && t < |ram| && ram[t][path[0]] % 2 == 1 && ram[t][path[0]] / 4 % 2 == 1
    && (level == 1 || UserMay(ram, Child(ram, t, path[0]), level - 1, path[1..]))
  }

  /** The page at path may be written: bit 1 is set in every entry of the walk. */
  predicate MayWrite(ram: Memory, t: nat, level: nat, path: seq<nat>)
    requires level > 0 && |path| == level && Indices(path)
    decreases level, t
  {
    && t < |ram| && ram[t][path[0]] % 2 == 1 && ram[t][path[0]] / 2 % 2 == 1
    && (level == 1 || MayWrite(ram, Child(ram, t, path[0]), level - 1, path[1..]))
  }

  /** An entry that points at a table has both bits, and so have the entries below it. */
  ghost predicate OpenEntry(ram: Memory, t: nat, level: nat, i: nat)
    requires level > 1 && Owns(ram, t, level, i)
    decreases level, 0, t
  {
    ram[t][i] / 4 % 2 == 1 && ram[t][i] / 2 % 2 == 1 && OpenTables(ram, Child(ram, t, i), level - 1)
  }

  /** No table under t closes what lies below it: a page's rights are those of its leaf entry. */
  ghost predicate OpenTables(ram: Memory, t: nat, level: nat)
    decreases level, 1, t
  {
    level > 1 ==> forall i :: 0 <= i < Limit(level) && Owns(ram, t, level, i) ==> OpenEntry(ram, t, level, i)
  }

  /** Under open tables the rights of a page are the bits of its leaf entry. */
  lemma {:induction false} Rights(ram: Memory, t: nat, level: nat, path: seq<nat>)
    requires level > 0 && Tree(ram, t, level) && OpenTables(ram, t, level) && InRange(path, level)
    ensures var e := Walk(ram, t, level, path);
            && (UserMay(ram, t, level, path) <==> e.Mapped? && e.pte / 4 % 2 == 1)
            && (MayWrite(ram, t, level, path) <==> e.Mapped? && e.pte / 2 % 2 == 1)
    decreases level
  {
    if level > 1 && IsPresent(ram[t][path[0]]) {
      assert Owns(ram, t, level, path[0]);
      assert OpenEntry(ram, t, level, path[0]);
      ChildTree(ram, t, level, path[0]);
      hide Tree, OpenTables;
      Rights(ram, Child(ram, t, path[0]), level - 1, path[1..]);
    }
  }

  lemma {:induction false} OpenFrame(ram: Memory, ram': Memory, t: nat, level: nat)
    requires Tree(ram, t, level) && OpenTables(ram, t, level) && |ram'| == |ram|
    requires forall p :: 0 <= p < |ram| && p in Footprint(ram, t, level) ==> ram'[p] == ram[p]
    ensures OpenTables(ram', t, level)
    decreases level
  {
    if level > 1 {
      assert ram'[t] == ram[t];
      forall i | 0 <= i < Limit(level) && Owns(ram', t, level, i) ensures OpenEntry(ram', t, level, i) {
        assert Owns(ram, t, level, i);
        assert OpenEntry(ram, t, level, i);
        ChildTree(ram, t, level, i);
        ChildInside(ram, t, level, i);
        hide Tree, Footprint, OpenTables;
        OpenFrame(ram, ram', Child(ram, t, i), level - 1);
      }
    }
  }

  /** A change below the end of a spine that keeps the tables there open keeps all of them open. */
  lemma {:induction false} OpenLift(ram: Memory, ram': Memory, t: nat, level: nat, prefix: seq<nat>)
    requires Tree(ram, t, level) && OpenTables(ram, t, level) && Spine(ram, t, level, prefix)
    requires OpenTables(ram', Bottom(ram, t, level, prefix), level - |prefix|)
    requires SameOutside(ram, ram', Footprint(ram, t, level),
               Footprint(ram, Bottom(ram, t, level, prefix), level - |prefix|))
    ensures OpenTables(ram', t, level)
    decreases |prefix|
  {
    if prefix != [] {
      SpineDown(ram, ram', t, level, prefix);
      forall i | 0 <= i < Limit(level) && Owns(ram', t, level, i) ensures OpenEntry(ram', t, level, i) {
        assert Owns(ram, t, level, i);
        assert OpenEntry(ram, t, level, i);
        ChildTree(ram, t, level, i);
        ChildInside(ram, t, level, i);
        if i == prefix[0] {
          OpenLift(ram, ram', Child(ram, t, i), level - 1, prefix[1..]);
        } else {
          SiblingsApart(ram, t, level, prefix[0], i);
          OpenFrame(ram, ram', Child(ram, t, i), level - 1);
        }
      }
    }
  }

  /** How many tables are missing is how many of the starts of prefix name no table. */
  lemma {:induction false} MissingAfter(ram: Memory, t: nat, level: nat, prefix: seq<nat>, j: nat)
    requires Tree(ram, t, level) && |prefix| < level && Indices(prefix) && j <= |prefix|
    requires forall i :: 0 <= i < |prefix| ==> prefix[i] < Limit(level - i)
    requires Spine(ram, t, level, prefix[..j]) && (j == |prefix| || !Spine(ram, t, level, prefix[..j + 1]))
    ensures Missing(ram, t, prefix) == |prefix| - j
    decreases |prefix|
  {
    hide *;
    MissingStep(ram, t, prefix);
    if j > 0 {
      var tail := prefix[1..];
      SpineAfter(ram, t, level, prefix, j);
      ChildTree(ram, t, level, prefix[0]);
      MissingAfter(ram, Child(ram, t, prefix[0]), level - 1, tail, j - 1);
    } else if |prefix| > 0 {
      SpineOne(ram, t, level, prefix);
    }
  }

  lemma MissingStep(ram: Memory, t: nat, prefix: seq<nat>)
    requires Indices(prefix)
    ensures prefix == [] ==> Missing(ram, t, prefix) == 0
    ensures prefix != [] ==>
              && prefix[0] < 512 && Indices(prefix[1..])
              && Missing(ram, t, prefix) == if t < |ram| && IsPresent(ram[t][prefix[0]])
                                            then Missing(ram, Child(ram, t, prefix[0]), prefix[1..]) else |prefix|
  {
  }

  /** A spine below t, seen from the first table on it. */
  lemma SpineAfter(ram: Memory, t: nat, level: nat, prefix: seq<nat>, j: nat)
    requires 0 < j <= |prefix| < level && Spine(ram, t, level, prefix[..j])
    requires forall i :: 0 <= i < |prefix| ==> prefix[i] < Limit(level - i)
    ensures Owns(ram, t, level, prefix[0]) && t < |ram| && IsPresent(ram[t][prefix[0]])
    ensures forall i :: 0 <= i < |prefix| - 1 ==> prefix[1..][i] < Limit(level - 1 - i)
    ensures var c, tail := Child(ram, t, prefix[0]), prefix[1..];
            && Spine(ram, c, level - 1, tail[..j - 1])
            && (j < |prefix| ==> (Spine(ram, t, level, prefix[..j + 1]) <==> Spine(ram, c, level - 1, tail[..j])))
  {
    SliceTail(prefix, j);
    if j < |prefix| { SliceTail(prefix, j + 1); }
    assert forall i :: 0 <= i < |prefix| - 1 ==> prefix[1..][i] == prefix[i + 1];
  }

  lemma SliceTail(s: seq<nat>, j: nat)
    requires 0 < j <= |s|
    ensures s[..j][1..] == s[1..][..j - 1] && s[..j][0] == s[0] && s[..j] != []
  {
  }

  lemma SpineOne(ram: Memory, t: nat, level: nat, prefix: seq<nat>)
    requires Tree(ram, t, level) && 0 < |prefix| < level && prefix[0] < Limit(level)
    ensures t < |ram| && prefix[0] < 512 && (Spine(ram, t, level, prefix[..1]) <==> IsPresent(ram[t][prefix[0]]))
  {
    assert prefix[..1][1..] == [];
    if IsPresent(ram[t][prefix[0]]) {
      assert Owns(ram, t, level, prefix[0]);
      ChildTree(ram, t, level, prefix[0]);
    }
  }

  lemma BottomNotRoot(ram: Memory, t: nat, level: nat, prefix: seq<nat>)
    requires Tree(ram, t, level) && Spine(ram, t, level, prefix) && prefix != []
    ensures Bottom(ram, t, level, prefix) != t
  {
    assert Owns(ram, t, level, prefix[0]);
    assert Subtree(ram, t, level, prefix[0]);
    BottomInside(ram, Child(ram, t, prefix[0]), level - 1, prefix[1..]);
  }

  lemma ChangedCompose(r0: Memory, r1: Memory, r2: Memory, t: nat, level: nat, a1: set<nat>, gone: set<nat>,
                       a2: set<nat>)
    requires Changed(r0, r1, t, level, {}, a1) && Changed(r1, r2, t, level, gone, a2)
    requires a1 !! Footprint(r0, t, level) && gone !! a1
    ensures Changed(r0, r2, t, level, gone, a1 + a2)
  {
  }

  /** Setting the leaf entry at the end of a full spine. */
  lemma LeafChanged(ram: Memory, ram': Memory, t: nat, i: nat, pte: u64)
    requires Tree(ram, t, 1) && i < 512 && |ram'| == |ram| && ram'[t] == ram[t][i := pte] && IsPresent(pte)
    requires forall p :: 0 <= p < |ram| && p in Footprint(ram, t, 1) && p != t ==> ram'[p] == ram[p]
    requires IsUser(pte) ==> Frame(pte) < |ram| && Frame(pte) !in Footprint(ram, t, 1)
    ensures Changed(ram, ram', t, 1, UserFrame(Walk(ram, t, 1, [i])), UserFrame(Mapped(pte)))
    ensures forall path :: InRange(path, 1) ==>
            Walk(ram', t, 1, path) == if path == [i] then Mapped(pte) else Walk(ram, t, 1, path)
  {
    var gone, added := UserFrame(Walk(ram, t, 1, [i])), UserFrame(Mapped(pte));
    assert Owns(ram, t, 1, i) ==> Footprint(ram, Child(ram, t, i), 0) == {Child(ram, t, i)};
    assert Owns(ram', t, 1, i) ==> Footprint(ram', Frame(pte), 0) == {Frame(pte)};
    SetEntry(ram, ram', t, 1, i, pte, gone, added);
    forall path | InRange(path, 1) ensures path == [path[0]] {
    }
  }

  /** The data page an entry owns. */
  function UserFrame(e: Entry): set<nat> {
    if e.Mapped? && IsUser(e.pte) then {Frame(e.pte)} else {}
  }

  lemma {:induction false} MissingFrame(ram: Memory, ram': Memory, t: nat, level: nat, prefix: seq<nat>)
    requires Tree(ram, t, level) && |ram'| == |ram| && |prefix| < level && Indices(prefix)
    requires forall i :: 0 <= i < |prefix| ==> prefix[i] < Limit(level - i)
    requires forall p :: 0 <= p < |ram| && p in Footprint(ram, t, level) ==> ram'[p] == ram[p]
    ensures Missing(ram', t, prefix) == Missing(ram, t, prefix)
    decreases |prefix|
  {
    if prefix != [] {
      assert ram'[t] == ram[t];
      if IsPresent(ram[t][prefix[0]]) {
        ChildTree(ram, t, level, prefix[0]);
        ChildInside(ram, t, level, prefix[0]);
        MissingFrame(ram, ram', Child(ram, t, prefix[0]), level - 1, prefix[1..]);
      }
    }
  }

  lemma {:induction false} SpineNotMissing(ram: Memory, t: nat, level: nat, prefix: seq<nat>)
    requires Spine(ram, t, level, prefix) && Indices(prefix)
    ensures Missing(ram, t, prefix) == 0
    decreases |prefix|
  {
    if prefix != [] {
      SpineNotMissing(ram, Child(ram, t, prefix[0]), level - 1, prefix[1..]);
    }
  }

  /** Going through the entries in turn, each one's pages are new. */
  lemma KidsStep(ram: Memory, t: nat, level: nat, n: nat)
    requires level > 0 && Tree(ram, t, level) && n < Limit(level)
    ensures Kids(ram, t, level, n + 1) == Kids(ram, t, level, n) + Target(ram, t, level, n)
    ensures Kids(ram, t, level, n) !! Target(ram, t, level, n) && t !in Kids(ram, t, level, n + 1)
    ensures |Kids(ram, t, level, n + 1)| == |Kids(ram, t, level, n)| + |Target(ram, t, level, n)|
  {
    forall q | q in Kids(ram, t, level, n) ensures q !in Target(ram, t, level, n) {
      KidsMember(ram, t, level, n, q);
      if q in Target(ram, t, level, n) {
        var i: nat :| i < n && q in Target(ram, t, level, i);
        UnderOne(ram, t, level, i, n, q);
      }
    }
    if t in Kids(ram, t, level, n + 1) {
      KidsMember(ram, t, level, n + 1, t);
      var i: nat :| i < n + 1 && t in Target(ram, t, level, i);
      UnderOne(ram, t, level, i, i, t);
    }
  }

  lemma KidsTotal(ram: Memory, t: nat, level: nat, n: nat)
    requires level > 0 && Tree(ram, t, level) && n <= Limit(level)
    ensures Kids(ram, t, level, n) <= Kids(ram, t, level, Limit(level))
    ensures |Kids(ram, t, level, n)| <= |Kids(ram, t, level, Limit(level))|
    ensures Footprint(ram, t, level) == {t} + Kids(ram, t, level, Limit(level))
    ensures |Footprint(ram, t, level)| == 1 + |Kids(ram, t, level, Limit(level))|
  {
    forall q | q in Kids(ram, t, level, n) ensures q in Kids(ram, t, level, Limit(level)) {
      KidsMember(ram, t, level, n, q);
      KidsMember(ram, t, level, Limit(level), q);
    }
    SubsetSize(Kids(ram, t, level, n), Kids(ram, t, level, Limit(level)));
    KidsStep(ram, t, level, Limit(level) - 1);
  }

  lemma SubsetSize<T>(a: set<T>, b: set<T>)
    requires a <= b
    ensures |a| <= |b|
  {
    assert b == a + (b - a);
  }
}
