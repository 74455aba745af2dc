/**
 * The mathematics of binary buddy blocks. The block with number n at order k holds the 2^k pages q
 * with q >> k == n. The canonical decomposition of a set of free pages is the set of its maximal
 * blocks: blocks wholly free whose parent is not.
 */
module Blocks {
  import opened Bits

  const MAX_ORDER: nat := 12

  datatype Block = Block(num: nat, order: nat) {
    function FirstPage(): nat {
      Shl(num, order)
    }

    predicate Has(q: nat) {
      FirstPage() <= q < FirstPage() + Shl(1, order)
    }

    ghost function Pages(): (s: set<nat>)
      ensures forall q: nat :: q in s <==> Has(q)
    {
      set q: nat | FirstPage() <= q < FirstPage() + Shl(1, order) && Has(q)
    }

    function Parent(): Block {
      Block(num / 2, order + 1)
    }

    function Buddy(): Block {
      Block(Flip(num), order)
    }
  }

  ghost predicate WhollyFree(free: set<nat>, b: Block) {
    forall q: nat :: b.Has(q) ==> q in free
  }

  /** b is one of the blocks of the canonical decomposition of free. */
  ghost predicate Maximal(free: set<nat>, b: Block) {
    b.order < MAX_ORDER && WhollyFree(free, b) && (b.order == MAX_ORDER - 1 || !WhollyFree(free, b.Parent()))
  }

  lemma FirstPageIn(b: Block)
    ensures b.Has(b.FirstPage())
  {
  }

  lemma HasShr(b: Block, q: nat)
    ensures b.Has(q) <==> Shr(q, b.order) == b.num
  {
    ShlSum(b.num, 1, b.order);
    ShrBounds(q, b.order);
    if b.Has(q) { ShrUnique(q, b.order, b.num); }
  }

  /** Two blocks that share a page are nested: the larger holds every page of the smaller. */
  lemma Nested(a: Block, b: Block, q: nat)
    requires a.Has(q) && b.Has(q) && a.order <= b.order
    ensures b.num == Shr(a.num, b.order - a.order)
    ensures forall r: nat :: a.Has(r) ==> b.Has(r)
  {
    forall r: nat | a.Has(r)
      ensures Shr(a.num, b.order - a.order) == Shr(r, b.order)
      ensures b.Has(r) <==> Shr(r, b.order) == b.num
    {
      HasShr(a, r);
      HasShr(b, r);
      ShrAdd(r, a.order, b.order - a.order);
    }
  }

  lemma ParentHas(b: Block, q: nat)
    ensures b.Parent().Has(q) <==> b.Has(q) || b.Buddy().Has(q)
  {
    HasShr(b, q);
    HasShr(b.Buddy(), q);
    HasShr(b.Parent(), q);
  }

  /** Blocks of one order that share a page are the same block. */
  lemma SameOrder(a: Block, b: Block, q: nat)
    requires a.Has(q) && b.Has(q) && a.order == b.order
    ensures a == b
  {
    HasShr(a, q);
    HasShr(b, q);
  }

  /** Maximal blocks never overlap. */
  lemma MaximalUnique(free: set<nat>, a: Block, b: Block, q: nat)
    requires Maximal(free, a) && Maximal(free, b) && a.Has(q) && b.Has(q)
    ensures a == b
  {
    if a.order < b.order {
      ParentInside(free, a, b, q);
    } else if b.order < a.order {
      ParentInside(free, b, a, q);
    } else {
      SameOrder(a, b, q);
    }
  }

  /** A wholly free block cannot strictly contain a maximal one. */
  lemma ParentInside(free: set<nat>, small: Block, big: Block, q: nat)
    requires Maximal(free, small) && WhollyFree(free, big) && small.Has(q) && big.Has(q)
    requires big.order < MAX_ORDER
    ensures big.order <= small.order
  {
    if small.order < big.order {
      ParentHas(small, q);
      Nested(small.Parent(), big, q);
    }
  }

  /**
   * Taking one maximal block away leaves the rest of the decomposition as it was. Read forwards it
   * is why unlinking is right; read backwards, why linking a block whose buddy is not free is.
   */
  lemma RemoveMaximal(free: set<nat>, b: Block, x: Block)
    requires Maximal(free, b)
    ensures Maximal(free - b.Pages(), x) <==> Maximal(free, x) && x != b
  {
    var rest := free - b.Pages();
    FirstPageIn(x);
    FirstPageIn(b);
    var q := x.FirstPage();
    if Maximal(free, x) && x != b {
      forall r: nat | x.Has(r) ensures r in rest {
        if b.Has(r) { MaximalUnique(free, x, b, r); }
      }
      assert WhollyFree(rest, x);
      assert WhollyFree(rest, x.Parent()) ==> WhollyFree(free, x.Parent());
    }
    if Maximal(rest, x) {
      assert WhollyFree(free, x);
      assert x != b by { assert q in rest; }
      if x.order < MAX_ORDER - 1 && WhollyFree(free, x.Parent()) {
        var r: nat :| x.Parent().Has(r) && r !in rest;
        ParentInside(free, b, x.Parent(), r);
        ParentHas(x, q);
        Nested(x.Parent(), b, r);
        assert false;
      }
    }
  }

  /**
   * A block outside free whose buddy is not wholly free is maximal once it is added, and every other
   * maximal block stays one: the decomposition gains exactly that block.
   */
  lemma AddMaximal(free: set<nat>, b: Block)
    requires b.order < MAX_ORDER && forall q: nat :: b.Has(q) ==> q !in free
    requires b.order == MAX_ORDER - 1 || !Maximal(free, b.Buddy())
    ensures Maximal(free + b.Pages(), b)
    ensures (free + b.Pages()) - b.Pages() == free
    ensures forall x :: Maximal(free + b.Pages(), x) <==> x == b || Maximal(free, x)
  {
    AddedMaximal(free, b);
    hide Maximal;
    forall x ensures Maximal(free + b.Pages(), x) <==> x == b || Maximal(free, x) {
      RemoveMaximal(free + b.Pages(), b, x);
    }
  }

  lemma AddedMaximal(free: set<nat>, b: Block)
    requires b.order < MAX_ORDER && forall q: nat :: b.Has(q) ==> q !in free
    requires b.order == MAX_ORDER - 1 || !Maximal(free, b.Buddy())
    ensures Maximal(free + b.Pages(), b)
    ensures (free + b.Pages()) - b.Pages() == free
  {
    if b.order < MAX_ORDER - 1 {
      FirstPageIn(b);
      var q := b.FirstPage();
      assert b.Buddy().Parent() == b.Parent();
      ParentHas(b, q);
      assert !WhollyFree(free, b.Parent()) by { assert q !in free; }
      assert !WhollyFree(free, b.Buddy());
      var r: nat :| b.Buddy().Has(r) && r !in free;
      ParentHas(b, r);
      assert !b.Has(r) by {
        if b.Has(r) { SameOrder(b, b.Buddy(), r); }
      }
      assert r !in free + b.Pages();
    }
  }

  /** Every wholly free block lies inside a maximal one. */
  lemma {:induction false} Climb(free: set<nat>, b: Block) returns (m: Block)
    requires b.order < MAX_ORDER && WhollyFree(free, b)
    ensures Maximal(free, m) && m.order >= b.order && Shr(b.num, m.order - b.order) == m.num
    decreases MAX_ORDER - b.order
  {
    if Maximal(free, b) {
      m := b;
    } else {
      m := Climb(free, b.Parent());
      ShrAdd(b.num, 1, m.order - b.order - 1);
      assert Shr(b.num, 1) == b.num / 2;
    }
  }

  /** The maximal blocks of free partition it: each free page lies in exactly one of them, no other page in any. */
  lemma MaximalPartition(free: set<nat>, q: nat)
    ensures q in free <==> exists m :: Maximal(free, m) && m.Has(q)
    ensures forall m, m' :: Maximal(free, m) && Maximal(free, m') && m.Has(q) && m'.Has(q) ==> m == m'
  {
    forall m, m' | Maximal(free, m) && Maximal(free, m') && m.Has(q) && m'.Has(q) ensures m == m' {
      MaximalUnique(free, m, m', q);
    }
    if q in free {
      var page := Block(q, 0);
      assert forall r: nat :: page.Has(r) ==> r == q;
      var m := Climb(free, page);
      HasShr(m, q);
    }
  }
}
