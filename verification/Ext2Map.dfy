/**
 * Where ext2 keeps block lbn of a file: twelve direct pointers and three trees of pointer blocks.
 */
module Ext2Map {
  import opened Arith
  import opened LittleEndian

  type Inode = b: seq<u32> | |b| == 15 witness seq(15, _ => 0)

  /** The volume: a block size of at most a page and the contents of every block. */
  datatype Volume = Volume(blockSize: nat, disk: nat -> seq<u8>) {
    ghost predicate Valid() {
      (blockSize == 1024 || blockSize == 2048 || blockSize == 4096) && forall n: nat :: |disk(n)| == blockSize
    }

    /** Pointers in a block. */
    function Ptrs(): nat {
      blockSize / 4
    }
  }

  /** Word i of a block of pointers. */
  function Word(b: seq<u8>, i: nat): u32
    requires 4 * i + 4 <= |b|
  {
    WordValues(b, 4 * i);
    Le(b, 4 * i, 4)
  }

  /** Pointer i of the pointer block at blk. */
  function Pointer(v: Volume, blk: nat, i: nat): u32
    requires v.Valid() && i < v.Ptrs()
  {
    Word(v.disk(blk), i)
  }

  /** How many blocks the direct pointers and the three trees can hold. */
  function MaxBlocks(p: nat): nat {
    12 + p + p * p + p * p * p
  }

  /** Leaf n of the tree under a single, double or triple indirect pointer; 0 once a pointer is 0. */
  function Single(v: Volume, ptr: u32, n: nat): u32
    requires v.Valid() && n < v.Ptrs()
  {
    if ptr == 0 then 0 else Pointer(v, ptr, n)
  }

  /** Pointer j of the block that pointer i of block ptr names. */
  function Pair(v: Volume, ptr: u32, i: nat, j: nat): u32
    requires v.Valid() && i < v.Ptrs() && j < v.Ptrs()
  {
    Single(v, Single(v, ptr, i), j)
  }

  /** The top one of three digits to the base p. */
  function Hi(p: nat, n: nat): (r: nat)
    requires p > 0 && n < p * p * p
    ensures r < p && r == n / (p * p)
  {
    QuotientBound(n, p * p, p);
    n / (p * p)
  }

  function Mid(p: nat, n: nat): (r: nat)
    requires p > 0
    ensures r < p && r == n / p % p
  {
    n / p % p
  }

  function Low(p: nat, n: nat): (r: nat)
    requires p > 0
    ensures r < p && r == n % p
  {
    n % p
  }

  function Double(v: Volume, ptr: u32, n: nat): u32
    requires v.Valid() && n < v.Ptrs() * v.Ptrs()
  {
    IndexBounds(v.Ptrs(), n);
    Pair(v, ptr, n / v.Ptrs(), n % v.Ptrs())
  }

  function Triple(v: Volume, ptr: u32, n: nat): u32
    requires v.Valid() && n < v.Ptrs() * v.Ptrs() * v.Ptrs()
  {
    Pair(v, Single(v, ptr, Hi(v.Ptrs(), n)), Mid(v.Ptrs(), n), Low(v.Ptrs(), n))
  }

  /** ext2_block_map: the block that holds block lbn of the file, 0 for a hole. */
  function BlockMap(v: Volume, ei: Inode, lbn: nat): u32
    requires v.Valid() && lbn < MaxBlocks(v.Ptrs())
  {
    var ptrs := v.Ptrs();
    if lbn < 12 then ei[lbn]
    else if lbn - 12 < ptrs then Single(v, ei[12], lbn - 12)
    else if lbn - 12 - ptrs < ptrs * ptrs then Double(v, ei[13], lbn - 12 - ptrs)
    else Triple(v, ei[14], lbn - 12 - ptrs - ptrs * ptrs)
  }

  /** n is a * p^2 + b * p + c, and these are the digits the code computes. */
  lemma ThreeDigits(p: nat, n: nat, a: nat, b: nat, c: nat)
    requires p > 0 && b < p && c < p && n == p * p * a + p * b + c
    ensures n / (p * p) == a && n % (p * p) == p * b + c && n / p == p * a + b && n / p % p == b && n % p == c
  {
    MulMono(p, b, p - 1);
    assert p * p > 0;
    DivUnique(n, p * p, a, p * b + c);
    assert p * (p * a + b) == p * p * a + p * b;
    DivUnique(n, p, p * a + b, c);
    DivUnique(p * a + b, p, a, b);
  }

  /** Every number has such digits. */
  lemma DigitsOf(p: nat, n: nat) returns (a: nat, b: nat, c: nat)
    requires p > 0
    ensures b < p && c < p && n == p * p * a + p * b + c
    ensures n / (p * p) == a && n / p % p == b && n % p == c && n / p == p * a + b && n % (p * p) == p * b + c
  {
    a, b, c := n / p / p, n / p % p, n % p;
    assert p * (p * a + b) == p * p * a + p * b;
    ThreeDigits(p, n, a, b, c);
  }

  /** The indices the double and triple trees use stay inside a pointer block, exactly for such n. */
  lemma IndexBounds(p: nat, n: nat)
    requires p > 0
    ensures n / p < p <==> n < p * p
    ensures n / (p * p) < p <==> n < p * p * p
    ensures n / p % p < p && n % p < p && p * p > 0
  {
    QuotientBound(n, p, p);
    QuotientBound(n, p * p, p);
  }

  /**
   * Past the limit the bound fails at once: the first block number beyond it, which 32 bits still hold,
   * makes the triple tree's top index P, one past the pointer block.
   */
  lemma PastTheLimit(v: Volume)
    requires v.Valid()
    ensures var p, lbn := v.Ptrs(), MaxBlocks(v.Ptrs());
            lbn < 0x1_0000_0000 && (lbn - 12 - p - p * p) / (p * p) == p
  {
    var p := v.Ptrs();
    assert p == 256 || p == 512 || p == 1024;
    DivUnique(p * p * p, p * p, p, 0);
  }

  /** The reference: from pointer ptr down a tree of height h to leaf n. */
  function Reach(v: Volume, ptr: u32, h: nat, n: nat): u32
    requires v.Valid() && n < Power(v.Ptrs(), h)
    decreases h
  {
    if h == 0 || ptr == 0 then ptr
    else Reach(v, Pointer(v, ptr, Digit(v.Ptrs(), h, n)), h - 1, Rest(v.Ptrs(), h, n))
  }

  /** The top one of the h digits of n to the base p, and the number the others make. */
  function Digit(p: nat, h: nat, n: nat): (d: nat)
    requires p > 0 && h > 0 && n < Power(p, h)
    ensures d < p
  {
    Below(p, h, n);
    n / Power(p, h - 1)
  }

  function Rest(p: nat, h: nat, n: nat): (r: nat)
    requires p > 0 && h > 0 && n < Power(p, h)
    ensures r < Power(p, h - 1)
  {
    Below(p, h, n);
    n % Power(p, h - 1)
  }

  function Power(p: nat, h: nat): (r: nat)
    ensures p > 0 ==> r > 0
  {
    if h == 0 then 1
    else
      if p > 0 then MulMono(p, 1, Power(p, h - 1)); p * Power(p, h - 1) else p * Power(p, h - 1)
  }

  lemma Below(p: nat, h: nat, n: nat)
    requires p > 0 && h > 0 && n < Power(p, h)
    ensures Power(p, h - 1) > 0 && n / Power(p, h - 1) < p && n % Power(p, h - 1) < Power(p, h - 1)
  {
    var d := Power(p, h - 1);
    var q := n / d;
    assert n == d * q + n % d;
    if q >= p {
      MulMono(d, p, q);
    }
  }

  /** Which pointer of the inode leads to block lbn, down how tall a tree, to which leaf. */
  function Root(p: nat, lbn: nat): (nat, nat, nat) {
    if lbn < 12 then (lbn, 0, 0)
    else if lbn - 12 < p then (12, 1, lbn - 12)
    else if lbn - 12 - p < p * p then (13, 2, lbn - 12 - p)
    else if lbn - 12 - p - p * p < p * p * p then (14, 3, lbn - 12 - p - p * p)
    else (15, 0, 0)
  }

  lemma Powers(p: nat)
    ensures Power(p, 0) == 1 && Power(p, 1) == p && Power(p, 2) == p * p && Power(p, 3) == p * p * p
  {
    assert Power(p, 1) == p * Power(p, 0);
    assert Power(p, 2) == p * Power(p, 1);
    assert Power(p, 3) == p * Power(p, 2);
    assert p * (p * p) == p * p * p;
  }

  /** Below its limit the code's arithmetic is the walk of the tree. */
  lemma BlockMapReaches(v: Volume, ei: Inode, lbn: nat)
    requires v.Valid() && lbn < MaxBlocks(v.Ptrs())
    ensures var (i, h, n) := Root(v.Ptrs(), lbn);
            i < 15 && n < Power(v.Ptrs(), h) && BlockMap(v, ei, lbn) == Reach(v, ei[i], h, n)
  {
    var (i, h, n) := Root(v.Ptrs(), lbn);
    hide Reach, Single, Double, Triple, Power, Pointer;
    Powers(v.Ptrs());
    if h == 0 {
      ReachLeaf(v, ei[i]);
    } else if h == 1 {
      ReachSingle(v, ei[12], n);
    } else if h == 2 {
      ReachDouble(v, ei[13], n);
    } else {
      ReachTriple(v, ei[14], n);
    }
  }

  lemma ReachLeaf(v: Volume, ptr: u32)
    requires v.Valid()
    ensures Power(v.Ptrs(), 0) == 1 && Reach(v, ptr, 0, 0) == ptr
  {
  }

  /** One level of a walk. */
  lemma ReachStep(v: Volume, ptr: u32, h: nat, n: nat)
    requires v.Valid() && h > 0 && n < Power(v.Ptrs(), h) && ptr != 0
    ensures Reach(v, ptr, h, n) == Reach(v, Pointer(v, ptr, Digit(v.Ptrs(), h, n)), h - 1, Rest(v.Ptrs(), h, n))
  {
  }

  lemma ReachNothing(v: Volume, h: nat, n: nat)
    requires v.Valid() && n < Power(v.Ptrs(), h)
    ensures Reach(v, 0, h, n) == 0
  {
  }

  lemma ReachSingle(v: Volume, ptr: u32, n: nat)
    requires v.Valid() && n < v.Ptrs()
    ensures n < Power(v.Ptrs(), 1) && Reach(v, ptr, 1, n) == Single(v, ptr, n)
  {
    OneDigit(v.Ptrs(), n);
    hide Power, Pointer, Digit, Rest, Reach;
    if ptr != 0 {
      ReachStep(v, ptr, 1, n);
      ReachLeaf(v, Pointer(v, ptr, n));
    } else {
      ReachNothing(v, 1, n);
    }
  }

  lemma OneDigit(p: nat, n: nat)
    requires p > 0 && n < p
    ensures n < Power(p, 1) && Digit(p, 1, n) == n && Rest(p, 1, n) == 0
  {
    Powers(p);
    assert n / 1 == n && n % 1 == 0;
  }

  lemma ReachDouble(v: Volume, ptr: u32, n: nat)
    requires v.Valid() && n < v.Ptrs() * v.Ptrs()
    ensures n < Power(v.Ptrs(), 2) && Reach(v, ptr, 2, n) == Double(v, ptr, n)
  {
    TwoDigits(v.Ptrs(), n);
    hide Power, Pointer, Digit, Rest, Reach;
    if ptr != 0 {
      ReachStep(v, ptr, 2, n);
      ReachSingle(v, Pointer(v, ptr, n / v.Ptrs()), n % v.Ptrs());
    } else {
      ReachNothing(v, 2, n);
    }
  }

  lemma TwoDigits(p: nat, n: nat)
    requires p > 0 && n < p * p
    ensures n / p < p && n % p < p && n < Power(p, 2) && Digit(p, 2, n) == n / p && Rest(p, 2, n) == n % p
  {
    Powers(p);
    IndexBounds(p, n);
    hide Power;
  }

  lemma ReachTriple(v: Volume, ptr: u32, n: nat)
    requires v.Valid() && n < v.Ptrs() * v.Ptrs() * v.Ptrs()
    ensures n < Power(v.Ptrs(), 3) && Reach(v, ptr, 3, n) == Triple(v, ptr, n)
  {
    var p := v.Ptrs();
    var rest := TopOfThree(p, n);
    hide *;
    TripleIs(v, ptr, n, rest);
    if ptr != 0 {
      ReachStep(v, ptr, 3, n);
      ReachDouble(v, Pointer(v, ptr, Hi(p, n)), rest);
    } else {
      ReachNothing(v, 3, n);
    }
  }

  /** The top digit and the rest of a three-digit number, and the digits of the rest. */
  lemma TopOfThree(p: nat, n: nat) returns (rest: nat)
    requires p > 0 && n < p * p * p
    ensures n < Power(p, 3) && Digit(p, 3, n) == Hi(p, n) && Rest(p, 3, n) == rest < p * p
    ensures rest / p == Mid(p, n) && rest % p == Low(p, n)
  {
    Powers(p);
    var a, b, c := DigitsOf(p, n);
    DivUnique(p * b + c, p, b, c);
    IndexBounds(p, n);
    rest := n % (p * p);
  }

  lemma TripleIs(v: Volume, ptr: u32, n: nat, rest: nat)
    requires v.Valid() && n < v.Ptrs() * v.Ptrs() * v.Ptrs() && rest < v.Ptrs() * v.Ptrs()
    requires rest / v.Ptrs() == Mid(v.Ptrs(), n) && rest % v.Ptrs() == Low(v.Ptrs(), n)
    ensures Triple(v, ptr, n) == if ptr == 0 then 0 else Double(v, Pointer(v, ptr, Hi(v.Ptrs(), n)), rest)
  {
    hide Hi, Mid, Low, Pointer;
  }

  /** A place that holds a block pointer: one of the inode's fifteen, or a word of a pointer block. */
  datatype Cell = InInode(i: nat) | InBlock(blk: u32, i: nat)

  /** A path names a pointer: one of the inode's, then an index at each level below it. */
  predicate IsPath(p: nat, path: seq<nat>) {
    && 1 <= |path| && path[0] < 15 && |path| <= (if path[0] < 12 then 1 else path[0] - 10)
    && forall i :: 1 <= i < |path| ==> path[i] < p
  }

  function Follow(v: Volume, ei: Inode, path: seq<nat>): u32
    requires v.Valid() && IsPath(v.Ptrs(), path)
  {
    if |path| == 1 then ei[path[0]]
    else Single(v, Follow(v, ei, path[..|path| - 1]), path[|path| - 1])
  }

  function CellAt(v: Volume, ei: Inode, path: seq<nat>): Cell
    requires v.Valid() && IsPath(v.Ptrs(), path)
  {
    if |path| == 1 then InInode(path[0])
    else InBlock(Follow(v, ei, path[..|path| - 1]), path[|path| - 1])
  }

  /** No block is pointed at from two places. */
  ghost predicate Unshared(v: Volume, ei: Inode)
    requires v.Valid()
  {
    forall p, q ::
      IsPath(v.Ptrs(), p) && IsPath(v.Ptrs(), q) && Follow(v, ei, p) != 0 && Follow(v, ei, p) == Follow(v, ei, q) ==>
        CellAt(v, ei, p) == CellAt(v, ei, q)
  }

  lemma {:induction false} OnePath(v: Volume, ei: Inode, p: seq<nat>, q: seq<nat>)
    requires v.Valid() && Unshared(v, ei) && IsPath(v.Ptrs(), p) && IsPath(v.Ptrs(), q)
    requires Follow(v, ei, p) != 0 && Follow(v, ei, p) == Follow(v, ei, q)
    ensures p == q
    decreases |p|
  {
    assert CellAt(v, ei, p) == CellAt(v, ei, q);
    if |p| > 1 {
      OnePath(v, ei, p[..|p| - 1], q[..|q| - 1]);
      assert p == p[..|p| - 1] + [p[|p| - 1]] && q == q[..|q| - 1] + [q[|q| - 1]];
    }
  }

  /** The path to the pointer of block lbn. */
  function PathTo(p: nat, lbn: nat): seq<nat>
    requires p > 0
  {
    if lbn < 12 then [lbn]
    else if lbn - 12 < p then [12, lbn - 12]
    else if lbn - 12 - p < p * p then var n := lbn - 12 - p; [13, n / p, n % p]
    else var n := lbn - 12 - p - p * p; IndexBounds(p, n); [14, n / (p * p), n / p % p, n % p]
  }

  lemma PathsTo(p: nat, lbn: nat)
    requires p > 0 && lbn < MaxBlocks(p)
    ensures IsPath(p, PathTo(p, lbn))
  {
    if lbn >= 12 + p { IndexBounds(p, lbn - 12 - p); }
    if lbn >= 12 + p + p * p { IndexBounds(p, lbn - 12 - p - p * p); }
  }

  /** Different blocks of a file have different pointers. */
  lemma PathsDiffer(p: nat, m: nat, n: nat)
    requires p > 0 && m < MaxBlocks(p) && n < MaxBlocks(p) && PathTo(p, m) == PathTo(p, n)
    ensures m == n
  {
    LbnOfPath(p, m);
    LbnOfPath(p, n);
  }

  /** The block a path is for. */
  function LbnOf(p: nat, path: seq<nat>): nat {
    if |path| == 1 then path[0]
    else if |path| == 2 then 12 + path[1]
    else if |path| == 3 then 12 + p + (p * path[1] + path[2])
    else if |path| == 4 then 12 + p + p * p + (p * p * path[1] + p * path[2] + path[3])
    else 0
  }

  lemma LbnOfPath(p: nat, lbn: nat)
    requires p > 0 && lbn < MaxBlocks(p)
    ensures LbnOf(p, PathTo(p, lbn)) == lbn
  {
    if lbn < 12 + p {
    } else if lbn - 12 - p < p * p {
      var n := lbn - 12 - p;
      assert n == p * (n / p) + n % p;
    } else {
      var a, b, c := DigitsOf(p, lbn - 12 - p - p * p);
    }
  }

  lemma BlockMapFollows(v: Volume, ei: Inode, lbn: nat)
    requires v.Valid() && lbn < MaxBlocks(v.Ptrs())
    ensures IsPath(v.Ptrs(), PathTo(v.Ptrs(), lbn)) && BlockMap(v, ei, lbn) == Follow(v, ei, PathTo(v.Ptrs(), lbn))
  {
    var p, path := v.Ptrs(), PathTo(v.Ptrs(), lbn);
    PathsTo(p, lbn);
    hide Pointer, Single;
    if |path| == 1 {
    } else if |path| == 2 {
      FollowTwo(v, ei, path);
    } else if |path| == 3 {
      FollowThree(v, ei, path);
    } else {
      FollowFour(v, ei, path);
    }
  }

  lemma FollowTwo(v: Volume, ei: Inode, path: seq<nat>)
    requires v.Valid() && IsPath(v.Ptrs(), path) && |path| == 2
    ensures Follow(v, ei, path) == Single(v, ei[path[0]], path[1])
  {
    assert path[..1] == [path[0]];
  }

  lemma FollowThree(v: Volume, ei: Inode, path: seq<nat>)
    requires v.Valid() && IsPath(v.Ptrs(), path) && |path| == 3
    ensures Follow(v, ei, path) == Pair(v, ei[path[0]], path[1], path[2])
  {
    FollowTwo(v, ei, path[..2]);
  }

  lemma FollowFour(v: Volume, ei: Inode, path: seq<nat>)
    requires v.Valid() && IsPath(v.Ptrs(), path) && |path| == 4
    ensures Follow(v, ei, path) == Pair(v, Single(v, ei[path[0]], path[1]), path[2], path[3])
  {
    FollowThree(v, ei, path[..3]);
  }

  /** The pointer itself exists: it is in the inode, or the pointer block it is in is no hole. */
  predicate HasCell(v: Volume, ei: Inode, path: seq<nat>)
    requires v.Valid() && IsPath(v.Ptrs(), path)
  {
    |path| == 1 || Follow(v, ei, path[..|path| - 1]) != 0
  }

  /** When no block is shared, different blocks of a file have their pointers in different places. */
  lemma CellsDiffer(v: Volume, ei: Inode, m: nat, n: nat)
    requires v.Valid() && Unshared(v, ei) && m < MaxBlocks(v.Ptrs()) && n < MaxBlocks(v.Ptrs()) && m != n
    ensures var p := v.Ptrs();
            && IsPath(p, PathTo(p, m)) && IsPath(p, PathTo(p, n))
            && (HasCell(v, ei, PathTo(p, m)) ==> CellAt(v, ei, PathTo(p, m)) != CellAt(v, ei, PathTo(p, n)))
  {
    var p := v.Ptrs();
    PathsTo(p, m);
    PathsTo(p, n);
    hide PathTo, Unshared, Volume.Valid, Volume.Ptrs, MaxBlocks;
    if HasCell(v, ei, PathTo(p, m)) && CellAt(v, ei, PathTo(p, m)) == CellAt(v, ei, PathTo(p, n)) {
      SameCell(v, ei, PathTo(p, m), PathTo(p, n));
      PathsDiffer(p, m, n);
    }
  }

  lemma SameCell(v: Volume, ei: Inode, p: seq<nat>, q: seq<nat>)
    requires v.Valid() && Unshared(v, ei) && IsPath(v.Ptrs(), p) && IsPath(v.Ptrs(), q)
    requires HasCell(v, ei, p) && CellAt(v, ei, p) == CellAt(v, ei, q)
    ensures p == q
  {
    hide Unshared, Volume.Valid, Volume.Ptrs;
    if |p| > 1 {
      OnePath(v, ei, p[..|p| - 1], q[..|q| - 1]);
      assert p == p[..|p| - 1] + [p[|p| - 1]] && q == q[..|q| - 1] + [q[|q| - 1]];
    } else {
      assert p == [p[0]] && q == [q[0]];
    }
  }

  /** When no block is shared, two blocks of a file that are not holes are different disk blocks. */
  lemma BlockMapInjective(v: Volume, ei: Inode, m: nat, n: nat)
    requires v.Valid() && Unshared(v, ei) && m < MaxBlocks(v.Ptrs()) && n < MaxBlocks(v.Ptrs()) && m != n
    requires BlockMap(v, ei, m) != 0
    ensures BlockMap(v, ei, m) != BlockMap(v, ei, n)
  {
    var p := v.Ptrs();
    BlockMapFollows(v, ei, m);
    BlockMapFollows(v, ei, n);
    hide BlockMap, PathTo, Follow, Unshared, IsPath;
    if BlockMap(v, ei, m) == BlockMap(v, ei, n) {
      OnePath(v, ei, PathTo(p, m), PathTo(p, n));
      PathsDiffer(p, m, n);
      assert false;
    }
  }
}
