/**
 * What the page allocator promises, on its abstract state: the set of free pages and the set of
 * live blocks. The calls are a step relation; the theorems are about every run of it.
 */
module BuddySpec {
  import opened Bits
  import opened Blocks

  const PAGE_SIZE: nat := 4096

  /** The order a request is rounded up to: the least o with 2^o >= n. */
  function OrderFor(n: nat): (o: nat)
    requires n > 0
    ensures Shl(1, o) >= n && (o > 0 ==> Shl(1, o - 1) < n)
  {
    OrderFrom(n, 0)
  }

  function OrderFrom(n: nat, o: nat): (r: nat)
    requires o > 0 ==> Shl(1, o - 1) < n
    ensures Shl(1, r) >= n && (r > 0 ==> Shl(1, r - 1) < n)
    decreases n - Shl(1, o)
  {
    if Shl(1, o) < n then OrderFrom(n, o + 1) else o
  }

  lemma {:induction false} PowerMono(a: nat, b: nat)
    requires a <= b
    ensures Shl(1, a) <= Shl(1, b)
  {
    if a < b {
      PowerMono(a, b - 1);
    }
  }

  lemma OrderUnique(n: nat, o: nat)
    requires n > 0 && Shl(1, o) >= n && (o > 0 ==> Shl(1, o - 1) < n)
    ensures OrderFor(n) == o
  {
    var r := OrderFor(n);
    if r < o { PowerMono(r, o - 1); }
    if o < r { PowerMono(o, r - 1); }
  }

  /** kfree rounds like kalloc and clamps to the largest order. */
  function FreeOrder(npages: nat): nat
    requires npages > 0
  {
    if OrderFor(npages) >= MAX_ORDER then MAX_ORDER - 1 else OrderFor(npages)
  }

  /** Live blocks are inside memory, off the free set and pairwise disjoint. */
  ghost predicate Sound(free: set<nat>, live: set<Block>, limit: nat) {
    && (forall b, q: nat :: b in live && b.Has(q) ==> q < limit && q !in free)
    && (forall b, c, q: nat :: b in live && c in live && b.Has(q) && c.Has(q) ==> b == c)
    && (forall b :: b in live ==> b.order < MAX_ORDER)
  }

  /** b is the lowest sub-block of m, a maximal block of the least order that can hold it. */
  ghost predicate CarvedFrom(free: set<nat>, b: Block, m: Block) {
    && Maximal(free, m) && b.order <= m.order && b.num == Shl(m.num, m.order - b.order)
    && forall x :: Maximal(free, x) && b.order <= x.order ==> m.order <= x.order
  }

  /** Page q lies wholly inside the physical addresses [start, end). */
  predicate WholePage(q: nat, start: nat, end: nat) {
    start <= PAGE_SIZE * q && PAGE_SIZE * q + PAGE_SIZE <= end
  }

  datatype Heap = Heap(free: set<nat>, live: set<Block>)

  datatype Outcome = Null | Got(block: Block)

  datatype Call = Alloc(npages: nat, outcome: Outcome) | Free(block: Block) | Range(start: nat, end: nat)

  /** What one call does to the heap. */
  ghost predicate Step(h: Heap, call: Call, h': Heap) {
    match call
    case Alloc(npages, Null) =>
      h' == h && !Satisfiable(h.free, npages)
    case Alloc(npages, Got(b)) =>
      && Satisfiable(h.free, npages) && b.order == OrderFor(npages)
      && WhollyFree(h.free, b) && h' == Heap(h.free - b.Pages(), h.live + {b})
      && exists m :: CarvedFrom(h.free, b, m)
    case Free(b) =>
      b in h.live && h' == Heap(h.free + b.Pages(), h.live - {b})
    case Range(start, end) =>
      && h'.live == h.live
      && (forall q: nat :: WholePage(q, start, end) ==> q !in h.free && forall b :: b in h.live ==> !b.Has(q))
      && forall q: nat :: q in h'.free <==> q in h.free || WholePage(q, start, end)
  }

  /** Some aligned block of the rounded size is wholly free. */
  ghost predicate Satisfiable(free: set<nat>, npages: nat) {
    npages > 0 && OrderFor(npages) < MAX_ORDER && exists n: nat :: WhollyFree(free, Block(n, OrderFor(npages)))
  }

  ghost predicate IsRun(hs: seq<Heap>, calls: seq<Call>) {
    |hs| == |calls| + 1 && forall i :: 0 <= i < |calls| ==> Step(hs[i], calls[i], hs[i + 1])
  }

  /** Page q is accounted for: it is free or inside a live block. */
  ghost predicate Held(h: Heap, q: nat) {
    q in h.free || exists b :: b in h.live && b.Has(q)
  }

  ghost predicate HandedIn(calls: seq<Call>, q: nat) {
    exists i :: 0 <= i < |calls| && calls[i].Range? && WholePage(q, calls[i].start, calls[i].end)
  }

  ghost predicate Disjoint(h: Heap) {
    && (forall b, q: nat :: b in h.live && b.Has(q) ==> q !in h.free)
    && (forall b, c, q: nat :: b in h.live && c in h.live && b.Has(q) && c.Has(q) ==> b == c)
  }

  lemma StepKeeps(h: Heap, call: Call, h': Heap)
    requires Disjoint(h) && Step(h, call, h')
    ensures Disjoint(h')
    ensures forall q: nat :: Held(h', q) <==> Held(h, q) || HandedIn([call], q)
  {
    forall q: nat ensures Held(h', q) <==> Held(h, q) || HandedIn([call], q) {
      assert call == [call][0];
      if call.Alloc? && call.outcome.Got? {
        assert call.outcome.block in h'.live;
      }
    }
  }

  /**
   * Over every run, live blocks stay disjoint from each other and from the free pages, and together
   * they are exactly the pages the run began with and those handed in since.
   */
  lemma {:induction false} RunPartition(hs: seq<Heap>, calls: seq<Call>)
    requires IsRun(hs, calls) && Disjoint(hs[0])
    ensures Disjoint(hs[|calls|])
    ensures forall q: nat :: Held(hs[|calls|], q) <==> Held(hs[0], q) || HandedIn(calls, q)
  {
    if |calls| > 0 {
      var n := |calls| - 1;
      var front := calls[..n];
      RunPartition(hs[..n + 1], front);
      StepKeeps(hs[n], calls[n], hs[n + 1]);
      assert hs[..n + 1][n] == hs[n];
      forall q: nat ensures HandedIn(calls, q) <==> HandedIn(front, q) || HandedIn([calls[n]], q) {
        if HandedIn(front, q) {
          var i :| 0 <= i < n && front[i].Range? && WholePage(q, front[i].start, front[i].end);
          assert calls[i] == front[i];
        }
        if HandedIn([calls[n]], q) {
          assert calls[n] == [calls[n]][0];
        }
        if HandedIn(calls, q) {
          var i :| 0 <= i < |calls| && calls[i].Range? && WholePage(q, calls[i].start, calls[i].end);
          assert if i < n then front[i] == calls[i] else [calls[n]][0] == calls[i];
        }
      }
    }
  }

  /**
   * A run that hands in nothing and ends with the live blocks it began with ends with the very same
   * free pages, so with the same block sets on every list.
   */
  lemma RunRestores(hs: seq<Heap>, calls: seq<Call>)
    requires IsRun(hs, calls) && Disjoint(hs[0])
    requires forall i :: 0 <= i < |calls| ==> !calls[i].Range?
    requires hs[|calls|].live == hs[0].live
    ensures hs[|calls|].free == hs[0].free
    ensures forall b :: Maximal(hs[|calls|].free, b) <==> Maximal(hs[0].free, b)
  {
    RunPartition(hs, calls);
    forall q: nat ensures q in hs[|calls|].free <==> q in hs[0].free {
      assert Held(hs[|calls|], q) <==> Held(hs[0], q);
    }
  }
}
