/**
 * The kernel's page allocator: per-order free lists threaded through the free blocks themselves.
 * Physical memory is a sequence of pages of 512 words; the first word of a free block is its link.
 */
module BuddyAllocator {
  import opened Bits
  import opened Blocks
  import opened BuddySizes
  import opened BuddySpec

  const FREE_PATTERN: u64 := 0x0101_0101_0101_0101
  const ALLOC_PATTERN: u64 := 0x0505_0505_0505_0505
  const ADDRESS_SPACE: nat := 0x1_0000_0000_0000_0000

  type u64 = x: nat | x < 0x1_0000_0000_0000_0000
  type Page = p: seq<u64> | |p| == 512 witness seq(512, _ => 0)

  function Filled(w: u64): Page {
    seq(512, _ => w)
  }

  /** The first words of pages apart, memory is the same. */
  ghost predicate LinksOnly(ram: seq<Page>, ram': seq<Page>) {
    |ram'| == |ram| && forall p :: 0 <= p < |ram| ==> ram'[p][1..] == ram[p][1..]
  }

  /** First words apart, the pages of b hold the byte 1 throughout and other pages are the same. */
  ghost predicate Wiped(ram: seq<Page>, ram': seq<Page>, b: Block) {
    && |ram'| == |ram|
    && forall p :: 0 <= p < |ram| ==>
       if b.Has(p) then forall j :: 1 <= j < 512 ==> ram'[p][j] == 0x0101_0101_0101_0101
       else ram'[p][1..] == ram[p][1..]
  }

  lemma LinkWritten(ram: seq<Page>, page: nat, w: u64)
    requires page < |ram|
    ensures LinksOnly(ram, ram[page := ram[page][0 := w]])
  {
  }

  lemma LinksChain(a: seq<Page>, b: seq<Page>, c: seq<Page>)
    requires LinksOnly(a, b) && LinksOnly(b, c)
    ensures LinksOnly(a, c)
  {
  }

  lemma LinksSame(ram: seq<Page>)
    ensures LinksOnly(ram, ram)
  {
  }

  /** The lists hold exactly the maximal blocks of free, each once. */
  ghost predicate Canonical(lists: seq<seq<nat>>, free: set<nat>) {
    && |lists| == MAX_ORDER
    && (forall k, i, j :: 0 <= k < MAX_ORDER && 0 <= i < j < |lists[k]| ==> lists[k][i] != lists[k][j])
    && (forall k, n: nat :: 0 <= k < MAX_ORDER ==> (n in lists[k] <==> Maximal(free, Block(n, k))))
  }

  lemma CanonicalRemove(lists: seq<seq<nat>>, free: set<nat>, b: Block, i: nat)
    requires Canonical(lists, free) && b.order < MAX_ORDER && i < |lists[b.order]| && lists[b.order][i] == b.num
    ensures Canonical(lists[b.order := lists[b.order][..i] + lists[b.order][i + 1..]], free - b.Pages())
  {
    var s := lists[b.order];
    var lists' := lists[b.order := s[..i] + s[i + 1..]];
    forall k, n: nat | 0 <= k < MAX_ORDER ensures n in lists'[k] <==> Maximal(free - b.Pages(), Block(n, k)) {
      RemoveMaximal(free, b, Block(n, k));
    }
  }

  lemma CanonicalAdd(lists: seq<seq<nat>>, free: set<nat>, b: Block)
    requires Canonical(lists, free) && b.order < MAX_ORDER && forall q: nat :: b.Has(q) ==> q !in free
    requires b.order == MAX_ORDER - 1 || !Maximal(free, b.Buddy())
    ensures Canonical(lists[b.order := [b.num] + lists[b.order]], free + b.Pages())
  {
    var lists' := lists[b.order := [b.num] + lists[b.order]];
    AddMaximal(free, b);
    FirstPageIn(b);
    forall k, n: nat | 0 <= k < MAX_ORDER ensures n in lists'[k] <==> Maximal(free + b.Pages(), Block(n, k)) {
      RemoveMaximal(free + b.Pages(), b, Block(n, k));
    }
    assert b.num !in lists[b.order];
  }

  /** A page that starts a listed block is free, and starts no other listed block. */
  lemma ListedApart(lists: seq<seq<nat>>, free: set<nat>, k: nat, n: nat, k': nat, n': nat)
    requires Canonical(lists, free) && k < MAX_ORDER && k' < MAX_ORDER && n in lists[k] && n' in lists[k']
    ensures Block(n, k).FirstPage() in free
    ensures Block(n, k).FirstPage() == Block(n', k').FirstPage() ==> k == k' && n == n'
  {
    FirstPageIn(Block(n, k));
    FirstPageIn(Block(n', k'));
    if Block(n, k).FirstPage() == Block(n', k').FirstPage() {
      MaximalUnique(free, Block(n, k), Block(n', k'), Block(n, k).FirstPage());
    }
  }

  /** hhdm is an even number of blocks of any order below the largest. */
  lemma EvenBase(hhdm: nat, k: nat) returns (m: nat)
    requires hhdm % 0x80_0000 == 0 && k < MAX_ORDER - 1
    ensures hhdm == Shl(2 * m, 12 + k)
  {
    var base := hhdm / 0x80_0000;
    ShlSmall(base);
    m := Shl(base, 10 - k);
    ShlAdd(base, 11 - k, 12 + k);
  }

  /** Which multiple of its own size a block's address is. */
  lemma AddressBit(hhdm: nat, m: nat, n: nat, k: nat)
    requires hhdm == Shl(2 * m, 12 + k)
    ensures hhdm + 4096 * Shl(n, k) == Shl(2 * m + n, 12 + k)
  {
    ShlAdd(n, k, 12);
    ShlSmall(Shl(n, k));
    ShlSum(2 * m, n, 12 + k);
  }

  lemma AddressBits(hhdm: nat, m: nat, n: nat, k: nat, a: nat, bit: nat, r: nat)
    requires hhdm == Shl(2 * m, 12 + k)
    requires a == hhdm + 4096 * Shl(n, k) && bit == 4096 * Shl(1, k) && r == hhdm + 4096 * Shl(Flip(n), k)
    ensures a == Shl(2 * m + n, 12 + k) && bit == Shl(1, 12 + k) && r == Shl(Flip(2 * m + n), 12 + k)
  {
    ShlAdd(1, k, 12);
    ShlSmall(Shl(1, k));
    AddressBit(hhdm, m, n, k);
    AddressBit(hhdm, m, Flip(n), k);
    assert 2 * m + Flip(n) == Flip(2 * m + n);
  }

  lemma AddressFlip(hhdm: nat, m: nat, n: nat, k: nat, a: nat, bit: nat, r: nat)
    requires hhdm == Shl(2 * m, 12 + k)
    requires a == hhdm + 4096 * Shl(n, k) && bit == 4096 * Shl(1, k) && r == hhdm + 4096 * Shl(Flip(n), k)
    ensures Xor(a, bit) == r
  {
    AddressBits(hhdm, m, n, k, a, bit, r);
    XorShifted(2 * m + n, 12 + k);
  }

  /** Flipping the block's bit in its address gives its buddy's address. */
  lemma BuddyAddress(hhdm: nat, b: Block)
    requires hhdm % 0x80_0000 == 0 && b.order < MAX_ORDER - 1
    ensures Xor(hhdm + 4096 * b.FirstPage(), 4096 * Shl(1, b.order)) == hhdm + 4096 * b.Buddy().FirstPage()
  {
    var m := EvenBase(hhdm, b.order);
    AddressFlip(hhdm, m, b.num, b.order, hhdm + 4096 * b.FirstPage(), 4096 * Shl(1, b.order),
      hhdm + 4096 * b.Buddy().FirstPage());
  }

  lemma ParentPages(b: Block)
    ensures b.Parent().Pages() == b.Pages() + b.Buddy().Pages()
  {
    forall q: nat ensures q in b.Parent().Pages() <==> q in b.Pages() + b.Buddy().Pages() {
      ParentHas(b, q);
    }
  }

  lemma ParentAddress(b: Block)
    ensures b.Parent().FirstPage() ==
            if b.Buddy().FirstPage() < b.FirstPage() then b.Buddy().FirstPage() else b.FirstPage()
  {
    ShlDouble(b.num / 2, b.order);
    ShlSum(b.num / 2 * 2, 1, b.order);
  }

  lemma SameFirstPage(m: nat, n: nat, k: nat)
    requires Block(m, k).FirstPage() == Block(n, k).FirstPage()
    ensures m == n
  {
    SameOrder(Block(m, k), Block(n, k), Block(m, k).FirstPage());
  }

  /** Listed blocks start on free pages, no two on the same one. */
  lemma FirstPagesApart(lists: seq<seq<nat>>, free: set<nat>)
    requires Canonical(lists, free)
    ensures forall k, n :: 0 <= k < MAX_ORDER && n in lists[k] ==> Block(n, k).FirstPage() in free
    ensures forall k, n, k', n' :: 0 <= k < MAX_ORDER && 0 <= k' < MAX_ORDER && n in lists[k] && n' in lists[k'] ==>
              (Block(n, k).FirstPage() == Block(n', k').FirstPage() ==> k == k' && n == n')
  {
    forall k, n, k', n' | 0 <= k < MAX_ORDER && 0 <= k' < MAX_ORDER && n in lists[k] && n' in lists[k']
      ensures Block(n, k).FirstPage() in free
      ensures Block(n, k).FirstPage() == Block(n', k').FirstPage() ==> k == k' && n == n'
    {
      ListedApart(lists, free, k, n, k', n');
    }
  }

  /** The address of list element i, or null past the end. */
  function ElementAddr(base: nat, s: seq<nat>, order: nat, i: nat): nat {
    if i < |s| then base + 4096 * Block(s[i], order).FirstPage() else 0
  }

  /** The link of list element i holds the address of element i + 1. */
  ghost predicate LinkAt(base: nat, ram: seq<Page>, s: seq<nat>, k: nat, i: nat) {
    && i < |s|
    && Block(s[i], k).FirstPage() < |ram|
    && ram[Block(s[i], k).FirstPage()][0] == ElementAddr(base, s, k, i + 1)
  }

  /** head and the links in ram spell out the list s of order-k blocks, ending in null. */
  ghost predicate Chain(base: nat, head: nat, ram: seq<Page>, s: seq<nat>, k: nat) {
    && head == ElementAddr(base, s, k, 0)
    && forall i: nat {:trigger LinkAt(base, ram, s, k, i)} :: i < |s| ==> LinkAt(base, ram, s, k, i)
  }

  lemma ChainUnlinkHead(base: nat, head: nat, ram: seq<Page>, s: seq<nat>, k: nat)
    requires Chain(base, head, ram, s, k) && |s| > 0
    ensures Chain(base, ElementAddr(base, s, k, 1), ram, s[1..], k)
  {
    forall i: nat | i < |s| - 1 ensures LinkAt(base, ram, s[1..], k, i) {
      assert LinkAt(base, ram, s, k, i + 1);
    }
  }

  lemma ChainUnlink(base: nat, head: nat, ram: seq<Page>, s: seq<nat>, k: nat, i: nat, ram': seq<Page>)
    requires Chain(base, head, ram, s, k) && 0 < i < |s| && |ram'| == |ram|
    requires forall j :: 0 <= j < |s| && j != i - 1 ==> Block(s[j], k).FirstPage() != Block(s[i - 1], k).FirstPage()
    requires forall p :: 0 <= p < |ram| && p != Block(s[i - 1], k).FirstPage() ==> ram'[p] == ram[p]
    requires Block(s[i - 1], k).FirstPage() < |ram|
             && ram'[Block(s[i - 1], k).FirstPage()][0] == ElementAddr(base, s, k, i + 1)
    ensures Chain(base, head, ram', s[..i] + s[i + 1..], k)
  {
    var s' := s[..i] + s[i + 1..];
    forall j: nat | j < |s'| ensures LinkAt(base, ram', s', k, j) {
      var j' := if j < i then j else j + 1;
      assert LinkAt(base, ram, s, k, j');
      assert s'[j] == s[j'];
    }
  }

  /** Writing pages that start no block of the list leaves the chain alone. */
  lemma ChainFrame(base: nat, head: nat, ram: seq<Page>, s: seq<nat>, k: nat, ram': seq<Page>)
    requires Chain(base, head, ram, s, k) && |ram'| == |ram|
    requires forall n :: n in s && Block(n, k).FirstPage() < |ram| ==>
             ram'[Block(n, k).FirstPage()] == ram[Block(n, k).FirstPage()]
    ensures Chain(base, head, ram', s, k)
  {
    forall i: nat | i < |s| ensures LinkAt(base, ram', s, k, i) {
      assert LinkAt(base, ram, s, k, i);
    }
  }

  lemma ChainPush(base: nat, head: nat, ram: seq<Page>, s: seq<nat>, k: nat, n: nat)
    requires Chain(base, head, ram, s, k)
    requires Block(n, k).FirstPage() < |ram| && ram[Block(n, k).FirstPage()][0] == head
    ensures Chain(base, base + 4096 * Block(n, k).FirstPage(), ram, [n] + s, k)
  {
    forall i: nat | i < |s| + 1 ensures LinkAt(base, ram, [n] + s, k, i) {
      if i > 0 {
        assert LinkAt(base, ram, s, k, i - 1);
      }
    }
  }

  /** The chains survive any write that leaves the free pages alone. */
  lemma ChainsFrame(base: nat, heads: seq<u64>, ram: seq<Page>, lists: seq<seq<nat>>, free: set<nat>, ram': seq<Page>)
    requires Canonical(lists, free) && |heads| == MAX_ORDER && |ram'| == |ram|
    requires forall k :: 0 <= k < MAX_ORDER ==> Chain(base, heads[k], ram, lists[k], k)
    requires forall p :: 0 <= p < |ram| && p in free ==> ram'[p] == ram[p]
    ensures forall k :: 0 <= k < MAX_ORDER ==> Chain(base, heads[k], ram', lists[k], k)
  {
    FirstPagesApart(lists, free);
    forall k | 0 <= k < MAX_ORDER ensures Chain(base, heads[k], ram', lists[k], k) {
      ChainFrame(base, heads[k], ram, lists[k], k, ram');
    }
  }

  lemma NothingFits(free: set<nat>, order: nat)
    requires order < MAX_ORDER && forall x :: Maximal(free, x) ==> x.order < order
    ensures forall n: nat :: !WhollyFree(free, Block(n, order))
  {
    forall n: nat ensures !WhollyFree(free, Block(n, order)) {
      if WhollyFree(free, Block(n, order)) {
        var m := Climb(free, Block(n, order));
      }
    }
  }

  predicate Between(lo: nat, q: nat, hi: nat) {
    lo <= q < hi
  }

  ghost function Span(lo: nat, hi: nat): set<nat> {
    set q: nat | lo <= q < hi && Between(lo, q, hi)
  }

  /** Number of trailing zero bits. */
  function Ctz(n: nat): nat
    requires n > 0
  {
    if n % 2 == 1 then 0 else 1 + Ctz(n / 2)
  }

  /** Page number n is a multiple of 2^k. */
  predicate Aligned(n: nat, k: nat) {
    Shl(Shr(n, k), k) == n
  }

  /** The trailing zero bits are exactly the orders a page number other than 0 is aligned to. */
  lemma {:induction false} CtzAligned(n: nat, k: nat)
    ensures Aligned(n, k) <==> n == 0 || k <= Ctz(n)
  {
    if k > 0 {
      ShrAdd(n, 1, k - 1);
      assert Shr(n, 1) == n / 2 && Shr(n, k) == Shr(n / 2, k - 1);
      CtzAligned(n / 2, k - 1);
      if n % 2 == 1 {
        assert Shl(Shr(n, k), k) == 2 * Shl(Shr(n, k), k - 1);
      }
    }
  }

  /** A block of order o at physical address p is aligned and ends inside the range. */
  predicate Placeable(p: nat, physEnd: nat, page: nat, o: nat) {
    Aligned(page, o) && p + 4096 * Shl(1, o) <= physEnd
  }

  /** The order freerange gives the block at p: the largest its alignment and the range allow. */
  method FitOrder(p: nat, physEnd: nat, ghost page: nat) returns (order: nat)
    requires p == 4096 * page && p + PAGE_SIZE <= physEnd
    ensures order < MAX_ORDER && Placeable(p, physEnd, page, order)
    ensures forall o :: order < o < MAX_ORDER ==> !Placeable(p, physEnd, page, o)
  {
    var idx := p / PAGE_SIZE;
    order := if idx == 0 then MAX_ORDER - 1 else Ctz(idx);
    if order >= MAX_ORDER {
      order := MAX_ORDER - 1;
    }
    forall o | order < o < MAX_ORDER ensures !Placeable(p, physEnd, page, o) {
      CtzAligned(page, o);
    }
    while order > 0 && p + 4096 * Shl(1, order) > physEnd
      invariant order < MAX_ORDER && (idx > 0 ==> order <= Ctz(idx))
      invariant forall o :: order < o < MAX_ORDER ==> !Placeable(p, physEnd, page, o)
    {
      order := order - 1;
    }
    CtzAligned(page, order);
  }

  /** Where a list walk stands: the head slot of the list or the link inside a block. */
  datatype Slot = Head | Link(addr: nat)

  class Buddy {
    const hhdm: nat
    const freeLists: array<u64>
    var ram: seq<Page>

    ghost var lists: seq<seq<nat>>
    ghost var free: set<nat>
    ghost var live: set<Block>

    ghost predicate AddressesOk()
      reads this
    {
      0 < hhdm && hhdm % 0x80_0000 == 0 && hhdm + 4096 * |ram| < ADDRESS_SPACE
    }

    function AddrOf(page: nat): nat {
      hhdm + 4096 * page
    }

    function PageOf(addr: nat): int {
      (addr - hhdm) / 4096
    }

    ghost predicate Linked()
      requires freeLists.Length == |lists| == MAX_ORDER
      reads this, freeLists
    {
      forall k :: 0 <= k < MAX_ORDER ==> Chain(hhdm, freeLists[k], ram, lists[k], k)
    }

    /** The free lists are exactly the canonical decomposition of free, each block once. */
    ghost predicate Valid()
      reads this, freeLists
    {
      && freeLists.Length == MAX_ORDER
      && AddressesOk()
      && (forall q :: q in free ==> q < |ram|)
      && Canonical(lists, free)
      && Linked()
    }

    constructor (hhdm: nat, memory: seq<Page>)
      requires 0 < hhdm && hhdm % 0x80_0000 == 0 && hhdm + 4096 * |memory| < ADDRESS_SPACE
      ensures Valid() && fresh(freeLists) && ram == memory && free == {} && live == {} && this.hhdm == hhdm
    {
      this.hhdm := hhdm;
      freeLists := new u64[MAX_ORDER](_ => 0);
      ram := memory;
      lists := seq(MAX_ORDER, _ => []);
      free := {};
      live := {};
      new;
      forall k, n: nat | 0 <= k < MAX_ORDER ensures !Maximal(free, Block(n, k)) {
        FirstPageIn(Block(n, k));
      }
    }

    method Load(slot: Slot, order: nat) returns (v: nat)
      requires order < freeLists.Length
      requires slot.Link? ==> 0 <= PageOf(slot.addr) < |ram|
      ensures v == if slot.Head? then freeLists[order] else ram[PageOf(slot.addr)][0]
    {
      v := if slot.Head? then freeLists[order] else ram[PageOf(slot.addr)][0];
    }

    /** *pp = (*pp)->next, where pp is the slot that holds element i of list order. */
    method Unlink(pp: Slot, order: nat, next: u64, ghost i: nat)
      requires Valid() && order < MAX_ORDER && i < |lists[order]|
      requires pp == if i == 0 then Head else Link(ElementAddr(hhdm, lists[order], order, i - 1))
      requires next == ElementAddr(hhdm, lists[order], order, i + 1)
      modifies this`ram, this`lists, this`free, freeLists
      ensures Valid() && |ram| == |old(ram)|
      ensures lists == old(lists)[order := old(lists[order])[..i] + old(lists[order])[i + 1..]]
      ensures free == old(free) - Block(old(lists[order])[i], order).Pages()
      ensures forall p :: 0 <= p < |ram| && p !in old(free) ==> ram[p] == old(ram[p])
      ensures LinksOnly(old(ram), ram)
    {
      hide LinksOnly, Chain, Maximal;
      ghost var s, ram0 := lists[order], ram;
      ghost var lists' := lists[order := s[..i] + s[i + 1..]];
      match pp {
        case Head =>
          LinksSame(ram);
          ChainUnlinkHead(hhdm, freeLists[order], ram, s, order);
          assert s[..i] + s[i + 1..] == s[1..];
          freeLists[order] := next;
        case Link(a) =>
          UnlinkFrame(order, i);
          LinkWritten(ram, PageOf(a), next);
          ram := ram[PageOf(a) := ram[PageOf(a)][0 := next]];
          ChainUnlink(hhdm, freeLists[order], ram0, s, order, i, ram);
          forall k | 0 <= k < MAX_ORDER && k != order ensures Chain(hhdm, freeLists[k], ram, lists[k], k) {
            ChainFrame(hhdm, freeLists[k], ram0, lists[k], k, ram);
          }
      }
      CanonicalRemove(lists, free, Block(s[i], order), i);
      lists := lists';
      free := free - Block(s[i], order).Pages();
    }

    /** The page whose link changes is free and starts no other listed block. */
    lemma UnlinkFrame(order: nat, i: nat)
      requires Valid() && order < MAX_ORDER && 0 < i < |lists[order]|
      ensures Block(lists[order][i - 1], order).FirstPage() in free
      ensures forall j :: 0 <= j < |lists[order]| && j != i - 1 ==>
                Block(lists[order][j], order).FirstPage() != Block(lists[order][i - 1], order).FirstPage()
      ensures forall k, n :: 0 <= k < MAX_ORDER && k != order && n in lists[k] ==>
                Block(n, k).FirstPage() != Block(lists[order][i - 1], order).FirstPage()
    {
      FirstPagesApart(lists, free);
      assert lists[order][i - 1] in lists[order];
    }

    /** The walk of buddy_remove: pp is the slot that points at the block with the given address. */
    method FindSlot(addr: nat, order: nat, ghost num: nat, ghost s: seq<nat>)
      returns (found: bool, pp: Slot, ghost i: nat)
      requires order < freeLists.Length && 0 < hhdm && Chain(hhdm, freeLists[order], ram, s, order)
      requires addr == AddrOf(Block(num, order).FirstPage())
      ensures found <==> num in s
      ensures found ==>
                i < |s| && s[i] == num
                && pp == if i == 0 then Head else Link(ElementAddr(hhdm, s, order, i - 1))
    {
      i := 0;
      pp := Head;
      var cur := Load(pp, order);
      while cur != 0
        invariant 0 <= i <= |s| && cur == ElementAddr(hhdm, s, order, i)
        invariant pp == if i == 0 then Head else Link(ElementAddr(hhdm, s, order, i - 1))
        invariant num !in s[..i]
        decreases |s| - i
      {
        assert LinkAt(hhdm, ram, s, order, i);
        assert PageOf(cur) == Block(s[i], order).FirstPage();
        if cur == addr {
          SameFirstPage(s[i], num, order);
          return true, pp, i;
        }
        assert s[..i + 1] == s[..i] + [s[i]];
        pp := Link(cur);
        cur := Load(pp, order);
        i := i + 1;
      }
      found := false;
    }

    /** buddy_remove: unlink the block at addr from list order, if it is there. */
    method BuddyRemove(addr: nat, order: nat, ghost num: nat) returns (found: bool)
      requires Valid() && order < MAX_ORDER && addr == AddrOf(Block(num, order).FirstPage())
      modifies this`ram, this`lists, this`free, freeLists
      ensures Valid() && |ram| == |old(ram)|
      ensures found <==> old(Maximal(free, Block(num, order)))
      ensures free == if found then old(free) - Block(num, order).Pages() else old(free)
      ensures forall p :: 0 <= p < |ram| && p !in old(free) ==> ram[p] == old(ram[p])
      ensures LinksOnly(old(ram), ram)
    {
      var pp;
      ghost var i;
      LinksSame(ram);
      found, pp, i := FindSlot(addr, order, num, lists[order]);
      assert num in lists[order] <==> Maximal(free, Block(num, order));
      if found {
        assert PageOf(addr) == Block(num, order).FirstPage();
        assert LinkAt(hhdm, ram, lists[order], order, i);
        var next: u64 := ram[PageOf(addr)][0];
        Unlink(pp, order, next, i);
      }
    }

    /** Link the block at addr at the front of list order. */
    method Push(addr: nat, order: nat, ghost b: Block)
      requires Valid() && order == b.order < MAX_ORDER && addr == AddrOf(b.FirstPage())
      requires forall q: nat :: b.Has(q) ==> q < |ram| && q !in free
      requires b.order == MAX_ORDER - 1 || !Maximal(free, b.Buddy())
      modifies this`ram, this`lists, this`free, freeLists
      ensures Valid() && |ram| == |old(ram)| && free == old(free) + b.Pages()
      ensures forall p :: 0 <= p < |ram| && p != b.FirstPage() ==> ram[p] == old(ram[p])
      ensures LinksOnly(old(ram), ram)
    {
      var page: nat := PageOf(addr);
      FirstPageIn(b);
      assert page == b.FirstPage();
      PushFrame(b);
      ghost var ram0 := ram;
      LinkWritten(ram, page, freeLists[order]);
      ram := ram[page := ram[page][0 := freeLists[order]]];
      forall k | 0 <= k < MAX_ORDER ensures Chain(hhdm, freeLists[k], ram, lists[k], k) {
        ChainFrame(hhdm, freeLists[k], ram0, lists[k], k, ram);
      }
      ChainPush(hhdm, freeLists[order], ram, lists[order], order, b.num);
      freeLists[order] := addr;
      CanonicalAdd(lists, free, b);
      lists := lists[order := [b.num] + lists[order]];
      free := free + b.Pages();
    }

    lemma PushFrame(b: Block)
      requires Valid() && b.FirstPage() !in free
      ensures forall k, n :: 0 <= k < MAX_ORDER && n in lists[k] ==> Block(n, k).FirstPage() != b.FirstPage()
    {
      FirstPagesApart(lists, free);
    }

    method BuddyAddr(addr: nat, order: nat, ghost b: Block) returns (r: nat)
      requires AddressesOk() && order == b.order < MAX_ORDER - 1 && addr == AddrOf(b.FirstPage())
      ensures r == AddrOf(b.Buddy().FirstPage())
    {
      BuddyAddress(hhdm, b);
      r := Xor(addr, 4096 * Shl(1, order));
    }

    /** One turn of the merge loop: unlink the buddy and take the lower of the two addresses. */
    method MergeStep(addr: nat, order: nat, ghost b: Block) returns (found: bool, merged: nat)
      requires Valid() && order == b.order < MAX_ORDER - 1 && addr == AddrOf(b.FirstPage())
      modifies this`ram, this`lists, this`free, freeLists
      ensures Valid() && |ram| == |old(ram)|
      ensures found <==> old(Maximal(free, b.Buddy()))
      ensures !found ==> free == old(free) && merged == addr
      ensures found ==> b.Buddy().Pages() <= old(free)
      ensures found ==> free == old(free) - b.Buddy().Pages() && merged == AddrOf(b.Parent().FirstPage())
      ensures forall p :: 0 <= p < |ram| && p !in old(free) ==> ram[p] == old(ram[p])
      ensures LinksOnly(old(ram), ram)
    {
      var buddyAddr := BuddyAddr(addr, order, b);
      assert Block(b.Buddy().num, order) == b.Buddy();
      found := BuddyRemove(buddyAddr, order, b.Buddy().num);
      merged := addr;
      if found {
        ParentAddress(b);
        if buddyAddr < addr {
          merged := buddyAddr;
        }
      }
    }

    /**
     * The loop shared by kfree and freerange: merge the block at addr with its buddy for as long as
     * the buddy is listed, then link what results.
     */
    method InsertMerging(start: nat, startOrder: nat, ghost b: Block)
      requires Valid() && startOrder == b.order < MAX_ORDER && start == AddrOf(b.FirstPage())
      requires forall q: nat :: b.Has(q) ==> q < |ram| && q !in free
      modifies this`ram, this`lists, this`free, freeLists
      ensures Valid() && |ram| == |old(ram)| && free == old(free) + b.Pages()
      ensures forall p :: 0 <= p < |ram| && p !in free ==> ram[p] == old(ram[p])
      ensures LinksOnly(old(ram), ram)
    {
      hide Maximal, Canonical, Chain, LinksOnly;
      LinksSame(ram);
      var addr, order := start, startOrder;
      ghost var c := b;
      while order < MAX_ORDER - 1
        invariant Valid() && |ram| == |old(ram)| && LinksOnly(old(ram), ram)
        invariant order == c.order < MAX_ORDER && addr == AddrOf(c.FirstPage())
        invariant free <= old(free) && free !! c.Pages() && free + c.Pages() == old(free) + b.Pages()
        invariant forall p :: 0 <= p < |ram| && p !in old(free) ==> ram[p] == old(ram[p])
      {
        var found;
        ghost var ram0 := ram;
        found, addr := MergeStep(addr, order, c);
        LinksChain(old(ram), ram0, ram);
        if !found {
          break;
        }
        ParentPages(c);
        order := order + 1;
        c := c.Parent();
      }
      FirstPageIn(c);
      ghost var ram1 := ram;
      Push(addr, order, c);
      LinksChain(old(ram), ram1, ram);
      assert c.FirstPage() in free;
    }

    ghost function State(): Heap
      reads this
    {
      Heap(free, live)
    }

    ghost predicate Ok()
      reads this, freeLists
    {
      Valid() && Sound(free, live, |ram|)
    }

    /** The block of the given order that starts at address v. */
    function BlockAt(v: nat, order: nat): Block
      requires v >= hhdm
    {
      Block(Shr(PageOf(v), order), order)
    }

    lemma BlockAtStart(b: Block)
      ensures BlockAt(AddrOf(b.FirstPage()), b.order) == b
    {
      HasShr(b, b.FirstPage());
    }

    /** Any store to pages off the free set; the owner of a live page may do this at any time. */
    method Store(page: nat, content: Page)
      requires Ok() && page < |ram| && page !in free
      modifies this`ram
      ensures Ok() && ram == old(ram)[page := content]
    {
      ghost var ram0 := ram;
      ram := ram[page := content];
      ChainsFrame(hhdm, freeLists[..], ram0, lists, free, ram);
    }

    method Memset(page: nat, count: nat, w: u64)
      requires Ok() && page + count <= |ram| && forall p :: page <= p < page + count ==> p !in free
      modifies this`ram
      ensures Ok() && |ram| == |old(ram)|
      ensures forall p :: 0 <= p < |ram| ==> ram[p] == if page <= p < page + count then Filled(w) else old(ram[p])
    {
      hide *;
      for i := 0 to count
        invariant Ok() && |ram| == |old(ram)|
        invariant forall p :: 0 <= p < |ram| ==> ram[p] == if page <= p < page + i then Filled(w) else old(ram[p])
      {
        Store(page + i, Filled(w));
      }
    }

    /** kfree: merge the block back, its contents overwritten with the free pattern. */
    method Kfree(v: nat, npages: nat)
      requires Ok()
      requires v % PAGE_SIZE == 0 && npages > 0 ==>
                 v >= hhdm && BlockAt(v, FreeOrder(npages)) in live
                   && v == AddrOf(BlockAt(v, FreeOrder(npages)).FirstPage())
      modifies this`ram, this`lists, this`free, this`live, freeLists
      ensures Ok() && |ram| == |old(ram)|
      ensures v % PAGE_SIZE != 0 || npages == 0 ==> State() == old(State()) && ram == old(ram)
      ensures v % PAGE_SIZE == 0 && npages > 0 ==> Step(old(State()), Free(BlockAt(v, FreeOrder(npages))), State())
      ensures forall p :: 0 <= p < |ram| && p !in free ==> ram[p] == old(ram[p])
      ensures v % PAGE_SIZE == 0 && npages > 0 ==> Wiped(old(ram), ram, BlockAt(v, FreeOrder(npages)))
    {
      if v % PAGE_SIZE != 0 || npages == 0 {
        return;
      }
      var order := OrderFor(npages);
      if order >= MAX_ORDER {
        order := MAX_ORDER - 1;
      }
      var blockPages := Shl(1, order);
      ghost var b := BlockAt(v, order);
      Freed(free, live, b, |ram|);
      var page: nat := PageOf(v);
      assert page == b.FirstPage() && blockPages == Shl(1, b.order);
      hide *;
      Memset(page, blockPages, FREE_PATTERN);
      Release(v, order, b);
    }

    lemma Freed(free: set<nat>, live: set<Block>, b: Block, limit: nat)
      requires Sound(free, live, limit) && b in live
      ensures Sound(free + b.Pages(), live - {b}, limit)
      ensures b.FirstPage() + Shl(1, b.order) <= limit
      ensures forall q :: b.FirstPage() <= q < b.FirstPage() + Shl(1, b.order) ==> q !in free
    {
      assert b.Has(b.FirstPage() + Shl(1, b.order) - 1);
      forall q | b.FirstPage() <= q < b.FirstPage() + Shl(1, b.order) ensures q !in free {
        assert b.Has(q);
      }
    }

    /** Whatever kalloc returned for n pages may be handed to kfree with the same n. */
    lemma KfreeTakesBack(h: Heap, npages: nat, b: Block)
      requires Ok() && Step(h, Alloc(npages, Got(b)), State())
      ensures var v := AddrOf(b.FirstPage());
              && v % PAGE_SIZE == 0 && npages > 0 && v >= hhdm
              && BlockAt(v, FreeOrder(npages)) == b && b in live
    {
      SameOrderBack(h, npages, b, State());
      BlockAtStart(b);
      hide BlockAt, FreeOrder;
      AddressAligned(b.FirstPage());
    }

    lemma AddressAligned(page: nat)
      requires Ok()
      ensures AddrOf(page) % 4096 == 0 && AddrOf(page) >= hhdm
    {
      hide Canonical, Linked, Sound;
      var base := hhdm / 0x80_0000;
      assert AddrOf(page) == 4096 * (2048 * base + page);
    }

    /** The part of kfree after the pages are filled. */
    method Release(v: nat, order: nat, ghost b: Block)
      requires Ok() && b in live && order == b.order < MAX_ORDER && v == AddrOf(b.FirstPage())
      modifies this`ram, this`lists, this`free, this`live, freeLists
      ensures Ok() && |ram| == |old(ram)| && Step(old(State()), Free(b), State())
      ensures forall p :: 0 <= p < |ram| && p !in free ==> ram[p] == old(ram[p])
      ensures LinksOnly(old(ram), ram)
    {
      Freed(free, live, b, |ram|);
      InsertMerging(v, order, b);
      live := live - {b};
    }

    /** kalloc: the lowest part of the first block of the least order that will do; 0 if there is none. */
    method Kalloc(npages: nat) returns (r: nat, ghost b: Block)
      requires Ok()
      modifies this`ram, this`lists, this`free, this`live, freeLists
      ensures Ok() && |ram| == |old(ram)|
      ensures Step(old(State()), Alloc(npages, if r == 0 then Null else Got(b)), State())
      ensures r == 0 ==> ram == old(ram)
      ensures r != 0 ==>
                && r == AddrOf(b.FirstPage())
                && forall p :: b.FirstPage() <= p < b.FirstPage() + npages ==>
                p < |ram| && forall j :: 0 <= j < 512 ==> ram[p][j] == 0x0505_0505_0505_0505
      ensures forall p :: 0 <= p < |ram| && p !in old(free) ==> ram[p] == old(ram[p])
    {
      hide *;
      OkParts();
      b := Block(0, 0);
      if npages == 0 {
        NullStep(npages);
        return 0, b;
      }
      var order := OrderFor(npages);
      if order >= MAX_ORDER {
        NullStep(npages);
        return 0, b;
      }
      var k := FirstFit(order);
      if k == MAX_ORDER {
        NoneFits(order);
        NullStep(npages);
        return 0, b;
      }
      StateIs();
      ghost var h := State();
      r, b := Take(k, order, npages);
      GotParts(h, npages, b, State());
      StateIs();
      assert h.free == old(free);
      Filling(r, b, npages);
      Memset(PageOf(r), npages, ALLOC_PATTERN);
      AllocFill();
      StateIs();
    }

    lemma AllocFill()
      ensures forall j :: 0 <= j < 512 ==> Filled(ALLOC_PATTERN)[j] == 0x0505_0505_0505_0505
    {
    }

    lemma NoneFits(order: nat)
      requires order < MAX_ORDER && LeastOrder(free, order, MAX_ORDER)
      ensures forall n: nat :: !WhollyFree(free, Block(n, order))
    {
      MaximalOrder(free);
      NothingFits(free, order);
    }

    lemma NullStep(npages: nat)
      requires npages == 0 || OrderFor(npages) >= MAX_ORDER
               || forall n: nat :: !WhollyFree(free, Block(n, OrderFor(npages)))
      ensures Step(State(), Alloc(npages, Null), State())
    {
      hide WhollyFree;
    }

    lemma GotParts(h: Heap, npages: nat, b: Block, h': Heap)
      requires Step(h, Alloc(npages, Got(b)), h')
      ensures npages > 0 && b in h'.live && b.order == OrderFor(npages)
      ensures forall p: nat :: b.FirstPage() <= p < b.FirstPage() + npages ==> p in h.free
    {
      BlockPages(b, npages);
      hide CarvedFrom, Satisfiable;
      assert WhollyFree(h.free, b);
    }

    /** Take a block of the given order off list k, which has one. */
    method Take(k: nat, order: nat, npages: nat) returns (r: nat, ghost b: Block)
      requires Ok() && npages > 0 && order == OrderFor(npages) <= k < MAX_ORDER && freeLists[k] != 0
      requires LeastOrder(free, order, k)
      modifies this`ram, this`lists, this`free, this`live, freeLists
      ensures Ok() && |ram| == |old(ram)| && r == AddrOf(b.FirstPage())
      ensures Step(old(State()), Alloc(npages, Got(b)), State())
      ensures forall p :: 0 <= p < |ram| && p !in old(free) ==> ram[p] == old(ram[p])
    {
      hide *;
      OkParts();
      StateIs();
      ghost var m, h := FirstOfList(k), State();
      b := Block(Shl(m.num, k - order), order);
      r := PopAndSplit(k, order, m);
      TakeStep(h, npages, b, m, k, |ram|, free);
      Enlist(b);
      StateIs();
    }

    /** The block carved out of the first block of the least order is what the request is entitled to. */
    lemma TakeStep(h: Heap, npages: nat, b: Block, m: Block, k: nat, limit: nat, free: set<nat>)
      requires Sound(h.free, h.live, limit) && forall q :: q in h.free ==> q < limit
      requires npages > 0 && Maximal(h.free, m) && m.order == k && LeastOrder(h.free, b.order, k)
      requires b.order == OrderFor(npages) <= k < MAX_ORDER && b.num == Shl(m.num, k - b.order)
      requires WhollyFree(h.free, b) && free == h.free - b.Pages()
      ensures Sound(free, h.live + {b}, limit) && Step(h, Alloc(npages, Got(b)), Heap(free, h.live + {b}))
    {
      hide Maximal, Sound, WhollyFree, CarvedFrom, Satisfiable, Shl, OrderFor, Step;
      Carved(h.free, b, m, npages);
      Allocated(h.free, free, h.live, b, limit);
      Taken(h, npages, b, m, Heap(free, h.live + {b}));
    }

    lemma OkParts()
      requires Ok()
      ensures Valid() && Sound(free, live, |ram|) && forall q :: q in free ==> q < |ram|
    {
    }

    /** Record a block as live. */
    ghost method Enlist(b: Block)
      requires Valid() && Sound(free, live + {b}, |ram|)
      modifies this`live
      ensures Ok() && live == old(live) + {b}
    {
      live := live + {b};
    }

    lemma StateIs()
      ensures State() == Heap(free, live)
    {
    }

    lemma Taken(h: Heap, npages: nat, b: Block, m: Block, h': Heap)
      requires CarvedFrom(h.free, b, m) && WhollyFree(h.free, b) && Satisfiable(h.free, npages) && npages > 0
               && b.order == OrderFor(npages)
      requires h' == Heap(h.free - b.Pages(), h.live + {b})
      ensures Step(h, Alloc(npages, Got(b)), h')
    {
      hide CarvedFrom, WhollyFree, Satisfiable;
    }

    /** The pages the request fills are in the block, so neither free nor outside memory. */
    lemma Filling(r: nat, b: Block, npages: nat)
      requires Ok() && b in live && r == AddrOf(b.FirstPage()) && npages > 0 && b.order == OrderFor(npages)
      ensures r != 0 && PageOf(r) == b.FirstPage() && b.FirstPage() + npages <= |ram|
      ensures forall p :: b.FirstPage() <= p < b.FirstPage() + npages ==> p !in free
    {
      BlockPages(b, npages);
      assert b.Has(b.FirstPage() + npages - 1);
      hide Valid, Shl;
      forall p | b.FirstPage() <= p < b.FirstPage() + npages ensures p !in free {
        assert b.Has(p);
      }
      BasePositive();
    }

    lemma BasePositive()
      requires Ok()
      ensures hhdm > 0
    {
    }

    /** No maximal block of at least the given order is of an order below k. */
    ghost predicate LeastOrder(free: set<nat>, order: nat, k: nat) {
      forall x :: Maximal(free, x) && order <= x.order ==> k <= x.order
    }

    /** The search for the least order with a block on its list. */
    method FirstFit(order: nat) returns (k: nat)
      requires Valid() && order < MAX_ORDER
      ensures order <= k <= MAX_ORDER && (k < MAX_ORDER ==> freeLists[k] != 0)
      ensures LeastOrder(free, order, k)
    {
      k := order;
      hide Canonical, Chain, Maximal;
      while k < MAX_ORDER && freeLists[k] == 0
        invariant order <= k <= MAX_ORDER
        invariant forall x :: Maximal(free, x) && order <= x.order ==> k <= x.order
      {
        EmptyList(k);
        k := k + 1;
      }
    }

    /** The block handed out is the one the request is entitled to. */
    lemma Carved(free: set<nat>, b: Block, m: Block, npages: nat)
      requires npages > 0 && Maximal(free, m) && b.order == OrderFor(npages) <= m.order
               && b.num == Shl(m.num, m.order - b.order)
      requires WhollyFree(free, b) && b.order < MAX_ORDER
      requires forall x :: Maximal(free, x) && b.order <= x.order ==> m.order <= x.order
      ensures CarvedFrom(free, b, m) && Satisfiable(free, npages)
    {
      hide Maximal, OrderFor, Shl;
      assert b == Block(b.num, OrderFor(npages));
    }

    lemma BlockPages(b: Block, npages: nat)
      requires npages > 0 && b.order == OrderFor(npages)
      ensures npages <= Shl(1, b.order) && b.Has(b.FirstPage())
      ensures forall p: nat :: b.FirstPage() <= p < b.FirstPage() + npages ==> b.Has(p)
    {
      FirstPageIn(b);
    }

    lemma MaximalOrder(free: set<nat>)
      ensures forall x :: Maximal(free, x) ==> x.order < MAX_ORDER
    {
    }

    lemma Allocated(was: set<nat>, free: set<nat>, live: set<Block>, b: Block, limit: nat)
      requires Sound(was, live, limit) && b.order < MAX_ORDER && WhollyFree(was, b) && free == was - b.Pages()
      requires forall q :: q in was ==> q < limit
      ensures Sound(free, live + {b}, limit) && b !in live
    {
      FirstPageIn(b);
    }

    lemma EmptyList(k: nat)
      requires Valid() && k < MAX_ORDER && freeLists[k] == 0
      ensures forall x :: Maximal(free, x) ==> x.order != k
    {
      assert Chain(hhdm, freeLists[k], ram, lists[k], k);
      forall x | Maximal(free, x) ensures x.order != k {
        assert x == Block(x.num, x.order);
        assert x.num in lists[x.order];
      }
    }

    ghost function FirstOfList(k: nat): (m: Block)
      requires Valid() && k < MAX_ORDER && freeLists[k] != 0
      reads this, freeLists
      ensures Maximal(free, m) && m.order == k && freeLists[k] == AddrOf(m.FirstPage())
    {
      assert Chain(hhdm, freeLists[k], ram, lists[k], k);
      assert lists[k][0] in lists[k];
      Block(lists[k][0], k)
    }

    /** Take the first block m of list k and give back its upper halves until order is reached. */
    method PopAndSplit(k0: nat, order: nat, ghost m: Block) returns (block: nat)
      requires Valid() && order <= k0 < MAX_ORDER && freeLists[k0] != 0 && m == FirstOfList(k0)
      modifies this`ram, this`lists, this`free, freeLists
      ensures Valid() && |ram| == |old(ram)|
      ensures var b := Block(Shl(m.num, k0 - order), order);
              block == AddrOf(b.FirstPage()) && WhollyFree(old(free), b) && free == old(free) - b.Pages()
      ensures forall p :: 0 <= p < |ram| && p !in old(free) ==> ram[p] == old(ram[p])
    {
      block := freeLists[k0];
      Pop(k0, m);
      SplitDown(block, k0, order, old(free), m);
      PagesFree(old(free), Block(Shl(m.num, k0 - order), order));
    }

    method SplitDown(block: nat, k0: nat, order: nat, ghost free0: set<nat>, ghost m: Block)
      requires Valid() && order <= k0 == m.order < MAX_ORDER && block == AddrOf(m.FirstPage())
      requires free == free0 - m.Pages() && m.Pages() <= free0 && forall q :: q in free0 ==> q < |ram|
      modifies this`ram, this`lists, this`free, freeLists
      ensures Valid() && |ram| == |old(ram)|
      ensures var b := Block(Shl(m.num, k0 - order), order);
              block == AddrOf(b.FirstPage()) && free == free0 - b.Pages() && b.Pages() <= free0
      ensures forall p :: 0 <= p < |ram| && p !in free0 ==> ram[p] == old(ram[p])
    {
      hide *;
      var k := k0;
      ghost var c := m;
      ShlZero(m.num);
      while k > order
        invariant Valid() && |ram| == |old(ram)|
        invariant order <= k <= k0 && c == Block(Shl(m.num, k0 - k), k) && block == AddrOf(c.FirstPage())
        invariant free == free0 - c.Pages() && c.Pages() <= free0
        invariant forall p :: 0 <= p < |ram| && p !in free0 ==> ram[p] == old(ram[p])
      {
        k := k - 1;
        Split(block, k, free0, c);
        c := Block(2 * c.num, k);
        ShlStep(m.num, k0 - k);
      }
    }

    lemma ShlZero(n: nat)
      ensures Shl(n, 0) == n
    {
    }

    lemma ShlStep(n: nat, k: nat)
      requires k > 0
      ensures Shl(n, k) == 2 * Shl(n, k - 1)
    {
    }

    lemma PagesFree(free: set<nat>, b: Block)
      ensures WhollyFree(free, b) <==> b.Pages() <= free
    {
      if b.Pages() <= free {
        forall q: nat | b.Has(q) ensures q in free {
          assert q in b.Pages();
        }
      }
    }

    /** Unlink the block at the head of list k. */
    method Pop(k: nat, ghost m: Block)
      requires Valid() && k < MAX_ORDER && freeLists[k] != 0 && m == FirstOfList(k)
      modifies this`ram, this`lists, this`free, freeLists
      ensures Valid() && |ram| == |old(ram)|
      ensures m.Pages() <= old(free) && free == old(free) - m.Pages()
      ensures forall p :: 0 <= p < |ram| && p !in old(free) ==> ram[p] == old(ram[p])
    {
      PagesFree(free, m);
      var block := freeLists[k];
      assert Chain(hhdm, freeLists[k], ram, lists[k], k);
      assert LinkAt(hhdm, ram, lists[k], k, 0);
      assert PageOf(block) == m.FirstPage();
      var next: u64 := ram[PageOf(block)][0];
      Unlink(Head, k, next, 0);
    }

    /** One turn of the splitting loop: list the upper half of the block c that is being carved. */
    method Split(block: nat, k: nat, ghost free0: set<nat>, ghost c: Block)
      requires Valid() && c.order == k + 1 < MAX_ORDER && block == AddrOf(c.FirstPage())
      requires free == free0 - c.Pages() && c.Pages() <= free0 && forall q :: q in free0 ==> q < |ram|
      modifies this`ram, this`lists, this`free, freeLists
      ensures Valid() && |ram| == |old(ram)|
      ensures var lower := Block(2 * c.num, k);
              block == AddrOf(lower.FirstPage()) && free == free0 - lower.Pages() && lower.Pages() <= free0
      ensures forall p :: 0 <= p < |ram| && p !in free0 ==> ram[p] == old(ram[p])
    {
      CarveStep(free0, c);
      hide *;
      Push(block + 4096 * Shl(1, k), k, Block(2 * c.num + 1, k));
    }

    /** Listing the upper half of c leaves free0 without the lower half, and cannot merge. */
    lemma CarveStep(free0: set<nat>, c: Block)
      requires c.order > 0 && c.Pages() <= free0
      ensures var lower, upper, free :=
              Block(2 * c.num, c.order - 1), Block(2 * c.num + 1, c.order - 1), free0 - c.Pages();
              && free + upper.Pages() == free0 - lower.Pages() && lower.Pages() <= free0
              && (forall q: nat :: upper.Has(q) ==> q in free0 && q !in free)
              && !Maximal(free, upper.Buddy())
              && AddrOf(lower.FirstPage()) == AddrOf(c.FirstPage())
              && AddrOf(upper.FirstPage()) == AddrOf(c.FirstPage()) + 4096 * Shl(1, c.order - 1)
              && upper.FirstPage() in free0
    {
      Halves(c);
      var lower, upper := Block(2 * c.num, c.order - 1), Block(2 * c.num + 1, c.order - 1);
      assert upper.Buddy() == lower;
      FirstPageIn(upper);
      forall q: nat | upper.Has(q) ensures q in free0 && q !in free0 - c.Pages() {
        assert q in upper.Pages();
      }
      FirstPageIn(lower);
      assert lower.FirstPage() in lower.Pages();
      NotMaximal(free0 - c.Pages(), lower);
    }

    lemma NotMaximal(free: set<nat>, b: Block)
      requires b.FirstPage() !in free
      ensures !Maximal(free, b)
    {
      FirstPageIn(b);
    }

    lemma Halves(c: Block)
      requires c.order > 0
      ensures var lower, upper := Block(2 * c.num, c.order - 1), Block(2 * c.num + 1, c.order - 1);
              && c.Pages() == lower.Pages() + upper.Pages() && lower.Pages() !! upper.Pages()
              && lower.FirstPage() == c.FirstPage() && upper.FirstPage() == c.FirstPage() + Shl(1, c.order - 1)
    {
      var lower := Block(2 * c.num, c.order - 1);
      assert lower.Parent() == c && lower.Buddy() == Block(2 * c.num + 1, c.order - 1);
      ParentPages(lower);
      ShlDouble(c.num, c.order - 1);
      ShlSum(2 * c.num, 1, c.order - 1);
    }

    /** Hand a physical address range to the allocator, in the largest aligned blocks that fit. */
    method Freerange(physStart: nat, physEnd: nat)
      requires Ok() && physStart + PAGE_SIZE <= ADDRESS_SPACE
      requires forall q: nat :: WholePage(q, physStart, physEnd) ==>
                 q < |ram| && q !in free && forall b :: b in live ==> !b.Has(q)
      modifies this`ram, this`lists, this`free, freeLists
      ensures Ok() && |ram| == |old(ram)|
      ensures Step(old(State()), Range(physStart, physEnd), State())
      ensures forall p :: 0 <= p < |ram| && p !in free ==> ram[p] == old(ram[p])
    {
      hide Maximal, Canonical, Chain, Shl, Shr;
      var p := (physStart + PAGE_SIZE - 1) / PAGE_SIZE * PAGE_SIZE;
      ghost var first := p / PAGE_SIZE;
      ghost var i := first;
      while p + PAGE_SIZE <= physEnd
        invariant Valid() && |ram| == |old(ram)|
        invariant first <= i && p == 4096 * i && physStart <= 4096 * first < physStart + 4096
        invariant free == old(free) + Span(first, i) && (i == first || p <= physEnd)
        invariant forall p :: 0 <= p < |ram| && p !in free ==> ram[p] == old(ram[p])
        decreases physEnd - p
      {
        var order := FitOrder(p, physEnd, i);
        assert Shl(Shr(i, order), order) == i && p + 4096 * Shl(1, order) <= physEnd;
        ghost var b := Block(Shr(i, order), order);
        RangeBlock(old(free), physStart, physEnd, first, i, b);
        InsertMerging(hhdm + p, order, b);
        i := i + Shl(1, order);
        p := p + 4096 * Shl(1, order);
      }
      SpanWhole(physStart, physEnd, first, i);
    }

    lemma RangeBlock(free0: set<nat>, start: nat, end: nat, first: nat, i: nat, b: Block)
      requires first <= i && start <= 4096 * first && b.FirstPage() == i && 4096 * (i + Shl(1, b.order)) <= end
      ensures Span(first, i) + b.Pages() == Span(first, i + Shl(1, b.order))
      ensures forall q: nat :: b.Has(q) ==> WholePage(q, start, end) && q !in Span(first, i)
    {
    }

    lemma SpanWhole(start: nat, end: nat, first: nat, i: nat)
      requires first <= i && start <= 4096 * first < start + 4096 && 4096 * i + 4096 > end
               && (i == first || 4096 * i <= end)
      ensures forall q: nat :: q in Span(first, i) <==> WholePage(q, start, end)
    {
    }
  }
}
