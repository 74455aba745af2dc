/** The allocator's blocks, requests and frees in plain numbers of pages. */
module BuddySizes {
  import opened Bits
  import opened Blocks
  import opened BuddySpec

  /** The sizes a block can have, in pages. */
  predicate BlockSize(size: nat) {
    size in {1, 2, 4, 8, 16, 32, 64, 128, 256, 512, 1024, 2048}
  }

  /** The pages from size * x up to size * (x + 1) are all free. */
  ghost predicate FreeRun(free: set<nat>, size: nat, x: nat) {
    forall q: nat :: size * x <= q < size * x + size ==> q in free
  }

  lemma {:induction false} ShlTimes(n: nat, k: nat)
    ensures Shl(n, k) == Shl(1, k) * n
  {
    if k > 0 {
      ShlTimes(n, k - 1);
      var one := Shl(1, k - 1);
      assert 2 * (one * n) == (2 * one) * n;
    }
  }

  lemma OrderSize(k: nat)
    requires k < 12
    ensures BlockSize(Shl(1, k))
  {
    ShlValues();
  }

  lemma ShlValues()
    ensures Shl(1, 0) == 1 && Shl(1, 1) == 2 && Shl(1, 2) == 4 && Shl(1, 3) == 8 && Shl(1, 4) == 16 && Shl(1, 5) == 32
    ensures Shl(1, 6) == 64 && Shl(1, 7) == 128 && Shl(1, 8) == 256 && Shl(1, 9) == 512 && Shl(1, 10) == 1024
    ensures Shl(1, 11) == 2048
  {
    ShlThree(1);
    ShlMore(1, 3);
    ShlMore(1, 6);
    ShlMore(1, 8);
    assert Shl(1, 1) == 2 && Shl(1, 4) == 16 && Shl(1, 7) == 128 && Shl(1, 10) == 1024;
  }

  lemma SizeOrder(size: nat) returns (k: nat)
    requires BlockSize(size)
    ensures k < 12 && Shl(1, k) == size
  {
    ShlValues();
    k :| k in {0, 1, 2, 3, 4, 5, 6, 7, 8, 9, 10, 11} && Shl(1, k) == size;
  }

  /** A block is a run of a power of two of pages, aligned to its size. */
  lemma BlockPagesAre(b: Block)
    requires b.order < 12
    ensures var size := Shl(1, b.order);
            && BlockSize(size) && b.FirstPage() == size * b.num
            && forall q: nat :: b.Has(q) <==> size * b.num <= q < size * b.num + size
  {
    OrderSize(b.order);
    ShlTimes(b.num, b.order);
  }

  /**
   * A request for n pages can be met exactly when it is for 1 to 2048 pages and some aligned run is
   * free whose size is n rounded up to a power of two.
   */
  lemma SatisfiableMeans(free: set<nat>, n: nat)
    ensures Satisfiable(free, n) <==>
            1 <= n <= 2048 && exists size: nat, x: nat :: BlockSize(size) && n <= size < 2 * n && FreeRun(free, size, x)
  {
    if Satisfiable(free, n) {
      var o := OrderFor(n);
      var x: nat :| WhollyFree(free, Block(x, o));
      RunOfBlock(free, Block(x, o));
      RoundedUp(n, o);
      assert FreeRun(free, Shl(1, o), x);
    }
    if 1 <= n <= 2048 && exists size: nat, x: nat :: BlockSize(size) && n <= size < 2 * n && FreeRun(free, size, x) {
      var size: nat, x: nat :| BlockSize(size) && n <= size < 2 * n && FreeRun(free, size, x);
      var k := SizeOrder(size);
      RunOfBlock(free, Block(x, k));
      HalfSize(k);
      OrderUnique(n, k);
      assert WhollyFree(free, Block(x, OrderFor(n)));
    }
  }

  lemma RunOfBlock(free: set<nat>, b: Block)
    requires b.order < 12
    ensures WhollyFree(free, b) <==> FreeRun(free, Shl(1, b.order), b.num)
  {
    BlockPagesAre(b);
  }

  lemma HalfSize(k: nat)
    ensures k > 0 ==> Shl(1, k) == 2 * Shl(1, k - 1)
  {
  }

  /** The size a request is rounded up to: the only block size from n up to twice n. */
  lemma RoundedUp(n: nat, o: nat)
    requires n > 0 && o == OrderFor(n) < 12
    ensures n <= Shl(1, o) < 2 * n && BlockSize(Shl(1, o)) && n <= 2048
  {
    HalfSize(o);
    OrderSize(o);
    ShlZero();
  }

  /** kfree takes a count as kalloc does, and any count above 2048 as 2048. */
  lemma FreeSize(n: nat)
    requires n > 0
    ensures FreeOrder(n) < 12 && BlockSize(Shl(1, FreeOrder(n)))
    ensures if n <= 2048 then n <= Shl(1, FreeOrder(n)) < 2 * n else Shl(1, FreeOrder(n)) == 2048
  {
    var o := OrderFor(n);
    ShlValues();
    if o < 12 {
      RoundedUp(n, o);
    } else {
      PowerMono(11, o - 1);
    }
  }

  lemma ShlZero()
    ensures Shl(1, 0) == 1
  {
  }

  /** A request that was met is freed with the same number of pages: both are rounded to the same order. */
  lemma SameOrderBack(h: Heap, n: nat, b: Block, h': Heap)
    requires Step(h, Alloc(n, Got(b)), h')
    ensures n > 0 && FreeOrder(n) == b.order && b in h'.live
  {
    hide WhollyFree, CarvedFrom;
  }

  /** Freeing what a request has just been given puts the heap back as it was. */
  lemma AllocThenFree(h: Heap, n: nat, b: Block, h': Heap, h'': Heap)
    requires Disjoint(h) && Step(h, Alloc(n, Got(b)), h') && Step(h', Free(b), h'')
    ensures h'' == h
  {
    FirstPageIn(b);
    assert b !in h.live;
    assert h.free - b.Pages() + b.Pages() == h.free by {
      forall q | q in b.Pages() ensures q in h.free {
      }
    }
    assert h.live + {b} - {b} == h.live;
  }
}
