/**
 * Reading a file of an ext2 volume: the loop with one cached block against the file byte by byte.
 */
module Ext2File {
  import opened Arith
  import opened Ext2Map

  const VFS_ENOMEM: int := -12

  /** A file as its inode describes it; the inode's blocks can hold all of it. */
  datatype File = File(v: Volume, ei: Inode, size: nat) {
    ghost predicate Valid() {
      v.Valid() && size <= v.blockSize * MaxBlocks(v.Ptrs()) && size < 0x1_0000_0000_0000_0000
    }
  }

  /** The block of the file that byte k is in. */
  function BlockOf(f: File, k: nat): (lbn: nat)
    requires f.Valid() && k < f.size
    ensures lbn < MaxBlocks(f.v.Ptrs())
  {
    QuotientBound(k, f.v.blockSize, MaxBlocks(f.v.Ptrs()));
    k / f.v.blockSize
  }

  /** Where in its block byte k is. */
  function OffsetIn(f: File, k: nat): (i: nat)
    requires f.Valid() && k < f.size
    ensures i < f.v.blockSize
  {
    k % f.v.blockSize
  }

  predicate Hole(f: File, k: nat)
    requires f.Valid() && k < f.size
  {
    BlockMap(f.v, f.ei, BlockOf(f, k)) == 0
  }

  function ByteAt(f: File, k: nat): u8
    requires f.Valid() && k < f.size
  {
    f.v.disk(BlockMap(f.v, f.ei, BlockOf(f, k)))[OffsetIn(f, k)]
  }

  /** The bytes from off on, at most n of them, up to the first hole. */
  function Bytes(f: File, off: nat, n: nat): (s: seq<u8>)
    requires f.Valid() && off + n <= f.size
    ensures |s| <= n
    decreases n
  {
    if n == 0 || Hole(f, off) then [] else [ByteAt(f, off)] + Bytes(f, off + 1, n - 1)
  }

  /** What a read of count bytes at off may yield: not past the end of the file. */
  function Wanted(f: File, off: nat, count: nat): (n: nat)
    ensures off < f.size ==> off + n <= f.size
    ensures n <= count && (off >= f.size ==> n == 0)
  {
    if off >= f.size then 0 else if off + count > f.size then f.size - off else count
  }

  /** Read: the file from off up to count bytes, the end or the first hole. */
  function ReadSpec(f: File, off: nat, count: nat): (s: seq<u8>)
    requires f.Valid()
    ensures |s| <= count
  {
    if off >= f.size then [] else Bytes(f, off, Wanted(f, off, count))
  }

  /** The file as far as byte end. */
  function UpTo(f: File, end: nat): File {
    f.(size := if f.size < end then f.size else end)
  }

  /** What a read yields does not depend on what lies behind it. */
  lemma SamePart(f: File, off: nat, count: nat)
    requires off < f.size && UpTo(f, off + count).Valid()
    ensures f.Valid() ==> ReadSpec(UpTo(f, off + count), off, count) == ReadSpec(f, off, count)
  {
    if f.Valid() {
      var g := UpTo(f, off + count);
      hide File.Valid, Volume.Valid, Bytes;
      if count > 0 {
        assert Wanted(g, off, count) == Wanted(f, off, count);
        SameBytes(f, g, off, Wanted(f, off, count));
      } else {
        SameBytes(f, f, off, 0);
      }
    }
  }

  lemma WantedBytes(f: File, off: nat, count: nat, want: nat)
    requires off < f.size && want == if off + count > f.size then f.size - off else count
    requires UpTo(f, off + count).Valid()
    ensures off + want <= UpTo(f, off + count).size
    ensures ReadSpec(UpTo(f, off + count), off, count) == Bytes(UpTo(f, off + count), off, want)
  {
    hide File.Valid, Volume.Valid;
  }

  lemma {:induction false} SameBytes(f: File, g: File, off: nat, n: nat)
    requires f.Valid() && g.Valid() && g == f.(size := g.size) && off + n <= f.size && off + n <= g.size
    ensures Bytes(g, off, n) == Bytes(f, off, n) && (n == 0 ==> Bytes(f, off, n) == [])
    decreases n
  {
    hide BlockMap, MaxBlocks;
    if n > 0 { SameBytes(f, g, off + 1, n - 1); }
  }

  /** Byte k of the file is x, and not in a hole. */
  predicate Reads(f: File, k: nat, x: u8)
    requires f.Valid()
  {
    k < f.size && !Hole(f, k) && x == ByteAt(f, k)
  }

  /** Exactly: the bytes in order, all that was asked for or up to the first byte in a hole. */
  lemma {:induction false} BytesExact(f: File, off: nat, n: nat)
    requires f.Valid() && off + n <= f.size
    ensures var s := Bytes(f, off, n);
            && (forall i :: 0 <= i < |s| ==> Reads(f, off + i, s[i]))
            && (|s| < n ==> Hole(f, off + |s|))
    decreases n
  {
    hide Hole, ByteAt, BlockOf, OffsetIn, BlockMap, MaxBlocks, File.Valid, Volume.Valid;
    if n > 0 && !Hole(f, off) {
      BytesExact(f, off + 1, n - 1);
      var s, t := Bytes(f, off, n), Bytes(f, off + 1, n - 1);
      assert s == [ByteAt(f, off)] + t;
      forall i | 0 <= i < |s| ensures Reads(f, off + i, s[i]) {
        if i > 0 {
          assert Reads(f, off + 1 + (i - 1), t[i - 1]);
          assert off + 1 + (i - 1) == off + i;
        }
      }
    }
  }

  /** On a stretch without holes nothing is cut short. */
  lemma ReadInFull(f: File, off: nat, count: nat)
    requires f.Valid() && forall k :: off <= k < off + Wanted(f, off, count) && k < f.size ==> !Hole(f, k)
    ensures |ReadSpec(f, off, count)| == Wanted(f, off, count)
  {
    if off < f.size {
      BytesExact(f, off, Wanted(f, off, count));
    }
  }

  lemma {:induction false} BytesSplit(f: File, off: nat, a: nat, b: nat)
    requires f.Valid() && off + a + b <= f.size
    ensures var s := Bytes(f, off, a); Bytes(f, off, a + b) == if |s| < a then s else s + Bytes(f, off + a, b)
    decreases a
  {
    hide *;
    BytesStep(f, off, a);
    BytesStep(f, off, a + b);
    if a == 0 {
      assert [] + Bytes(f, off, b) == Bytes(f, off, b);
    } else if !Hole(f, off) {
      BytesSplit(f, off + 1, a - 1, b);
      var x, t, rest := [ByteAt(f, off)], Bytes(f, off + 1, a - 1), Bytes(f, off + a, b);
      assert off + 1 + (a - 1) == off + a && a - 1 + b == a + b - 1;
      assert x + (t + rest) == (x + t) + rest;
    }
  }

  lemma BytesStep(f: File, off: nat, n: nat)
    requires f.Valid() && off + n <= f.size
    ensures n == 0 ==> Bytes(f, off, n) == []
    ensures n > 0 ==> Bytes(f, off, n) == if Hole(f, off) then [] else [ByteAt(f, off)] + Bytes(f, off + 1, n - 1)
  {
  }

  /** One read split into two, the second from where the first stopped, yields the same bytes, holes or not. */
  lemma SplitRead(f: File, off: nat, a: nat, b: nat)
    requires f.Valid()
    ensures var s := ReadSpec(f, off, a); ReadSpec(f, off, a + b) == s + ReadSpec(f, off + |s|, b) || |s| < a
    ensures var s := ReadSpec(f, off, a); |s| < a ==> ReadSpec(f, off, a + b) == s && ReadSpec(f, off + |s|, b) == []
  {
    hide Hole, ByteAt, BlockOf, OffsetIn, BlockMap, MaxBlocks, File.Valid, Volume.Valid;
    if off < f.size {
      var n, m := Wanted(f, off, a), Wanted(f, off, a + b);
      BytesSplit(f, off, n, m - n);
      BytesExact(f, off, n);
      var s := ReadSpec(f, off, a);
      assert n + (m - n) == m;
      if |s| == n && off + n < f.size {
        assert n == a && Wanted(f, off + a, b) == m - n;
      }
    }
  }

  /** A chunk inside one block is a stretch of that block. */
  lemma {:induction false} Chunk(f: File, off: nat, n: nat, c: nat, b: seq<u8>, i: nat)
    requires f.Valid() && 0 < c <= n && off + n <= f.size && !Hole(f, off) && f.v.blockSize > 0
    requires b == f.v.disk(BlockMap(f.v, f.ei, BlockOf(f, off))) && i == OffsetIn(f, off) && i + c <= f.v.blockSize
    ensures |b| == f.v.blockSize && Bytes(f, off, n) == b[i..i + c] + Bytes(f, off + c, n - c)
    decreases c
  {
    hide Hole, ByteAt, BlockOf, OffsetIn, BlockMap, MaxBlocks, File.Valid, Volume.Valid;
    FirstByte(f, off);
    if c == 1 {
      assert b[i..i + 1] == [b[i]];
    } else {
      NextByte(f, off);
      Chunk(f, off + 1, n - 1, c - 1, b, i + 1);
      var rest := Bytes(f, off + c, n - c);
      assert Bytes(f, off, n) == [b[i]] + (b[i + 1..i + c] + rest);
      hide Bytes;
      assert b[i..i + c] == [b[i]] + b[i + 1..i + c];
      assert [b[i]] + (b[i + 1..i + c] + rest) == ([b[i]] + b[i + 1..i + c]) + rest;
    }
  }

  lemma FirstByte(f: File, off: nat)
    requires f.Valid() && off < f.size
    ensures var b, i := f.v.disk(BlockMap(f.v, f.ei, BlockOf(f, off))), OffsetIn(f, off);
            |b| == f.v.blockSize > 0 && i < |b| && ByteAt(f, off) == b[i]
  {
  }

  /** The next byte is in the same block, one further on. */
  lemma NextByte(f: File, off: nat)
    requires f.Valid() && off + 1 < f.size && f.v.blockSize > 0 && OffsetIn(f, off) + 1 < f.v.blockSize
    ensures BlockOf(f, off + 1) == BlockOf(f, off) && OffsetIn(f, off + 1) == OffsetIn(f, off) + 1
    ensures Hole(f, off + 1) == Hole(f, off)
  {
    hide BlockMap, MaxBlocks;
    DivUnique(off + 1, f.v.blockSize, off / f.v.blockSize, off % f.v.blockSize + 1);
  }

  /** No block has this number: the cache is empty. */
  const NO_BLOCK: nat := 0xFFFF_FFFF

  /** Have the block of byte k in the buffer, reading it unless it is there already; not for a hole. */
  method Fetch(f: File, k: nat, curBlk: nat, block: seq<u8>) returns (found: bool, curBlk': nat, block': seq<u8>)
    requires f.Valid() && k < f.size && (curBlk != NO_BLOCK ==> Cached(f, curBlk, block))
    ensures found <==> !Hole(f, k)
    ensures curBlk' != NO_BLOCK ==> Cached(f, curBlk', block')
    ensures found ==> curBlk' == BlockOf(f, k) != NO_BLOCK
  {
    FileSize(f);
    NotSentinel(f, k);
    curBlk', block' := curBlk, block;
    var lbn := BlockOf(f, k);
    hide MaxBlocks, File.Valid, Volume.Valid;
    if lbn != curBlk {
      var phys := BlockMap(f.v, f.ei, lbn);
      if phys == 0 { return false, curBlk, block; }
      block' := f.v.disk(phys);
      curBlk' := lbn;
    }
    found := true;
  }

  class OpenFile {
    const f: File
    var pos: nat

    constructor (f: File)
      ensures this.f == f && pos == 0
    {
      this.f := f;
      pos := 0;
    }

    /**
     * ext2_read; page says whether the one-page block buffer could be allocated. The file may be larger
     * than its pointers reach, as long as this read stays where they do.
     */
    method Read(buf: array<u8>, count: nat, page: bool) returns (rc: int)
      requires f.v.Valid() && f.size < 0x1_0000_0000_0000_0000
      requires pos < f.size && page ==> UpTo(f, pos + count).Valid()
      requires count <= buf.Length && pos + count < 0x1_0000_0000_0000_0000
      modifies buf, this`pos
      ensures pos < f.size && !page ==> rc == -12 && pos == old(pos) && buf[..] == old(buf[..])
      ensures old(pos) >= f.size ==> rc == 0 && pos == old(pos) && buf[..] == old(buf[..])
      ensures old(pos) < f.size && page ==>
                var s := ReadSpec(UpTo(f, old(pos) + count), old(pos), count);
                rc == |s| && pos == old(pos) + rc && buf[..] == s + old(buf[..])[|s|..]
      ensures f.Valid() && old(pos) < f.size && page ==>
                ReadSpec(UpTo(f, old(pos) + count), old(pos), count) == ReadSpec(f, old(pos), count)
    {
      if pos >= f.size { return 0; }
      var want := if pos + count > f.size then f.size - pos else count;
      if !page { return VFS_ENOMEM; }
      hide *;
      SamePart(f, pos, count);
      WantedBytes(f, pos, count, want);
      var done := Fill(UpTo(f, pos + count), pos, buf, want);
      pos := pos + done;
      rc := done;
    }

    /** The loop of ext2_read. */
    static method Fill(f: File, pos: nat, buf: array<u8>, want: nat) returns (done: nat)
      requires f.Valid() && want <= buf.Length && pos + want <= f.size
      modifies buf
      ensures var s := Bytes(f, pos, want); done == |s| && buf[..] == s + old(buf[..])[|s|..]
    {
      hide *;
      FileSize(f);
      var bs := f.v.blockSize;
      var curBlk: nat, block: seq<u8> := NO_BLOCK, [];
      done := 0;
      ghost var all := Bytes(f, pos, want);
      AheadStart(f, pos, want, all);
      OverlaidNone(buf[..], all);
      while done < want
        invariant Ahead(f, pos, want, done, all)
        invariant Overlaid(old(buf[..]), buf[..], all, done)
        invariant curBlk != NO_BLOCK ==> Cached(f, curBlk, block)
      {
        var off := OffsetIn(f, pos + done);
        var chunk := if bs - off > want - done then want - done else bs - off;
        var found;
        found, curBlk, block := Fetch(f, pos + done, curBlk, block);
        if !found {
          AtHole(f, pos, want, done, all);
          break;
        }
        AheadMore(f, pos, want, done, all, chunk, block, off);
        ghost var was := buf[..];
        Copy(buf, done, block[off..off + chunk]);
        OverlaidMore(old(buf[..]), was, buf[..], all, done, chunk);
        done := done + chunk;
      }
      AheadDone(f, pos, want, done, all);
      OverlaidAll(old(buf[..]), buf[..], all, done);
    }

    /** memcpy */
    static method Copy(buf: array<u8>, at: nat, s: seq<u8>)
      requires at + |s| <= buf.Length
      modifies buf
      ensures Spliced(old(buf[..]), buf[..], at, s)
    {
      for i := 0 to |s|
        invariant forall j :: 0 <= j < buf.Length ==> buf[j] == if at <= j < at + i then s[j - at] else old(buf[j])
      {
        buf[at + i] := s[i];
      }
    }
  }

  lemma BlockNumberSmall(p: nat, lbn: nat)
    requires (p == 256 || p == 512 || p == 1024) && lbn < MaxBlocks(p)
    ensures lbn < NO_BLOCK
  {
  }

  /** now is was with s written over it at index at. */
  ghost predicate Spliced(was: seq<u8>, now: seq<u8>, at: nat, s: seq<u8>) {
    |now| == |was| && at + |s| <= |was| && forall i :: 0 <= i < |now| ==>
      now[i] == if at <= i < at + |s| then s[i - at] else was[i]
  }

  /** now is was with the first n bytes of s written over its start. */
  ghost predicate Overlaid(was: seq<u8>, now: seq<u8>, s: seq<u8>, n: nat) {
    |now| == |was| && n <= |s| && n <= |was| && forall i :: 0 <= i < |now| ==> now[i] == if i < n then s[i] else was[i]
  }

  lemma OverlaidNone(was: seq<u8>, s: seq<u8>)
    ensures Overlaid(was, was, s, 0)
  {
  }

  lemma OverlaidMore(was: seq<u8>, b: seq<u8>, b': seq<u8>, s: seq<u8>, n: nat, c: nat)
    requires Overlaid(was, b, s, n) && n + c <= |s| && Spliced(b, b', n, s[n..n + c])
    ensures Overlaid(was, b', s, n + c)
  {
  }

  lemma OverlaidAll(was: seq<u8>, now: seq<u8>, s: seq<u8>, n: nat)
    requires Overlaid(was, now, s, n)
    ensures n == |s| ==> now == s + was[|s|..]
  {
  }

  lemma NotSentinel(f: File, k: nat)
    requires f.Valid() && k < f.size
    ensures BlockOf(f, k) != NO_BLOCK
  {
    BlockNumberSmall(f.v.Ptrs(), BlockOf(f, k));
  }

  lemma FileSize(f: File)
    requires f.Valid()
    ensures f.v.blockSize > 0 && f.v.Valid()
  {
  }

  /** What the block buffer holds. */
  ghost predicate Cached(f: File, lbn: nat, block: seq<u8>)
    requires f.Valid()
  {
    lbn < MaxBlocks(f.v.Ptrs()) && BlockMap(f.v, f.ei, lbn) != 0 && block == f.v.disk(BlockMap(f.v, f.ei, lbn))
  }

  lemma CacheHit(f: File, k: nat, block: seq<u8>)
    requires f.Valid() && k < f.size && Cached(f, BlockOf(f, k), block)
    ensures !Hole(f, k) && block == f.v.disk(BlockMap(f.v, f.ei, BlockOf(f, k))) && |block| == f.v.blockSize
    ensures BlockOf(f, k) != NO_BLOCK
  {
    BlockNumberSmall(f.v.Ptrs(), BlockOf(f, k));
  }

  /** all is what the whole read will yield; its first done bytes are read, the rest lie ahead. */
  ghost predicate Ahead(f: File, pos: nat, want: nat, done: nat, all: seq<u8>)
    requires f.Valid() && pos + want <= f.size
    ensures Ahead(f, pos, want, done, all) ==> done <= want && done <= |all|
  {
    && done <= want && done <= |all| && all == Bytes(f, pos, want)
    && all == all[..done] + Bytes(f, pos + done, want - done)
  }

  lemma AheadStart(f: File, pos: nat, want: nat, all: seq<u8>)
    requires f.Valid() && pos + want <= f.size && all == Bytes(f, pos, want)
    ensures Ahead(f, pos, want, 0, all)
  {
    hide Bytes, File.Valid, Volume.Valid;
  }

  lemma AheadMore(f: File, pos: nat, want: nat, done: nat, all: seq<u8>, c: nat, block: seq<u8>, i: nat)
    requires f.Valid() && pos + want <= f.size && Ahead(f, pos, want, done, all) && 0 < c <= want - done
    requires Cached(f, BlockOf(f, pos + done), block) && i == OffsetIn(f, pos + done) && i + c <= f.v.blockSize
    ensures Ahead(f, pos, want, done + c, all) && |block| == f.v.blockSize && all[done..done + c] == block[i..i + c]
  {
    hide *;
    CacheHit(f, pos + done, block);
    AheadRest(f, pos, want, done, all);
    Chunk(f, pos + done, want - done, c, block, i);
    Grown(all, done, c, block[i..i + c], Bytes(f, pos + done + c, want - done - c));
    AheadIntro(f, pos, want, done + c, all, Bytes(f, pos + done + c, want - done - c));
  }

  lemma AheadRest(f: File, pos: nat, want: nat, done: nat, all: seq<u8>)
    requires f.Valid() && pos + want <= f.size && Ahead(f, pos, want, done, all)
    ensures all == Bytes(f, pos, want) && all == all[..done] + Bytes(f, pos + done, want - done)
    ensures done < want ==> f.v.blockSize > 0
  {
  }

  lemma AheadIntro(f: File, pos: nat, want: nat, done: nat, all: seq<u8>, rest: seq<u8>)
    requires f.Valid() && pos + want <= f.size && done <= want && done <= |all| && all == Bytes(f, pos, want)
    requires rest == Bytes(f, pos + done, want - done) && all == all[..done] + rest
    ensures Ahead(f, pos, want, done, all)
  {
  }

  lemma AtHole(f: File, pos: nat, want: nat, done: nat, all: seq<u8>)
    requires f.Valid() && pos + want <= f.size && Ahead(f, pos, want, done, all) && done < want
    requires Hole(f, pos + done)
    ensures |all| == done
  {
    hide File.Valid, Volume.Valid, Hole;
    assert Bytes(f, pos + done, want - done) == [];
  }

  lemma AheadDone(f: File, pos: nat, want: nat, done: nat, all: seq<u8>)
    requires f.Valid() && pos + want <= f.size && Ahead(f, pos, want, done, all)
    ensures done == want ==> |all| == done
  {
  }

  lemma Grown(all: seq<u8>, done: nat, c: nat, s: seq<u8>, rest: seq<u8>)
    requires done <= |all| && |s| == c && all == all[..done] + (s + rest)
    ensures done + c <= |all| && all[done..done + c] == s && all == all[..done + c] + rest
  {
    assert all == (all[..done] + s) + rest;
  }
}
