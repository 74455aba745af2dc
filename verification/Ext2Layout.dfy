/**
 * The ext2 format as a writer lays it out: blocks of pointers, the blocks of a file in order, and the
 * records of a directory. What the reading code computes is what was laid out.
 */
module Ext2Layout {
  import opened Arith
  import opened Ext2Dir
  import opened Ext2File
  import opened Ext2Map
  import opened Flattening
  import opened LittleEndian

  /** The block is the pointers ws, each written in four little-endian bytes. */
  predicate PointerBlock(b: seq<u8>, ws: seq<u32>) {
    b == Flat(Quads(ws))
  }

  function Quads(ws: seq<u32>): seq<seq<u8>> {
    seq(|ws|, i requires 0 <= i < |ws| => LeBytes(ws[i], 4))
  }

  /** A block of pointers is read back pointer by pointer. */
  lemma PointersRead(v: Volume, blk: nat, ws: seq<u32>, i: nat)
    requires v.Valid() && PointerBlock(v.disk(blk), ws) && i < |ws|
    ensures v.Ptrs() == |ws| && Pointer(v, blk, i) == ws[i]
  {
    var b, quads := v.disk(blk), Quads(ws);
    assert Pieces(4, quads);
    FlatLength(4, quads);
    FlatSlice(4, quads, i, i + 1);
    FlatOne(quads[i]);
    assert quads[i..i + 1] == [quads[i]];
    assert b[4 * i..4 * i + 4] == LeBytes(ws[i], 4);
    FourBytes();
    LeOfBytes(b, 4 * i, ws[i], 4);
  }

  lemma FourBytes()
    ensures PowerOf256(4) == 0x1_0000_0000
  {
    assert PowerOf256(2) == 0x1_0000;
  }

  /** The leaves of the tree of height h under ptr, from left to right; a tree under 0 has only zeros. */
  ghost function Leaves(v: Volume, ptr: u32, h: nat): seq<u32>
    requires v.Valid()
    decreases h
  {
    if h == 0 then [ptr] else Flat(Subtrees(v, ptr, h))
  }

  ghost function Subtrees(v: Volume, ptr: u32, h: nat): (s: seq<seq<u32>>)
    requires v.Valid() && h > 0
    ensures |s| == v.Ptrs()
    decreases h, 0
  {
    seq(v.Ptrs(), i requires 0 <= i < v.Ptrs() => Leaves(v, if ptr == 0 then 0 else Pointer(v, ptr, i), h - 1))
  }

  lemma {:induction false} LeavesLength(v: Volume, ptr: u32, h: nat)
    requires v.Valid()
    ensures |Leaves(v, ptr, h)| == Power(v.Ptrs(), h)
    ensures h > 0 ==> Pieces(Power(v.Ptrs(), h - 1), Subtrees(v, ptr, h))
    decreases h
  {
    if h > 0 {
      var s, d := Subtrees(v, ptr, h), Power(v.Ptrs(), h - 1);
      forall i | 0 <= i < |s| ensures |s[i]| == d {
        LeavesLength(v, if ptr == 0 then 0 else Pointer(v, ptr, i), h - 1);
      }
      FlatLength(d, s);
    }
  }

  /** The walk to leaf n ends at the n-th leaf from the left. */
  lemma {:induction false} LeafReached(v: Volume, ptr: u32, h: nat, n: nat)
    requires v.Valid() && n < Power(v.Ptrs(), h)
    ensures n < |Leaves(v, ptr, h)| && Leaves(v, ptr, h)[n] == Reach(v, ptr, h, n)
    decreases h
  {
    assert v.Ptrs() > 0;
    hide *;
    LeavesLength(v, ptr, h);
    if h == 0 {
      LeafItself(v, ptr, n);
    } else {
      var d, q, r := Power(v.Ptrs(), h - 1), Digit(v.Ptrs(), h, n), Rest(v.Ptrs(), h, n);
      DigitRest(v.Ptrs(), h, n);
      var child := Child(v, ptr, q);
      LeafReached(v, child, h - 1, r);
      SubtreeAt(v, ptr, h, q);
      FlatAt(d, Subtrees(v, ptr, h), q, r);
      LeavesFlat(v, ptr, h);
      if ptr == 0 {
        ReachNothing(v, h - 1, r);
        ReachNothing(v, h, n);
      } else {
        ReachStep(v, ptr, h, n);
      }
      ChildIs(v, ptr, q);
    }
  }

  ghost function Child(v: Volume, ptr: u32, i: nat): u32
    requires v.Valid() && i < v.Ptrs()
  {
    if ptr == 0 then 0 else Pointer(v, ptr, i)
  }

  lemma ChildIs(v: Volume, ptr: u32, i: nat)
    requires v.Valid() && i < v.Ptrs()
    ensures Child(v, ptr, i) == if ptr == 0 then 0 else Pointer(v, ptr, i)
  {
  }

  lemma LeafItself(v: Volume, ptr: u32, n: nat)
    requires v.Valid() && n < Power(v.Ptrs(), 0)
    ensures n < |Leaves(v, ptr, 0)| && Leaves(v, ptr, 0)[n] == Reach(v, ptr, 0, n)
  {
  }

  lemma DigitRest(p: nat, h: nat, n: nat)
    requires p > 0 && h > 0 && n < Power(p, h)
    ensures Digit(p, h, n) * Power(p, h - 1) + Rest(p, h, n) == n
  {
    Below(p, h, n);
    hide Power;
  }

  lemma SubtreeAt(v: Volume, ptr: u32, h: nat, i: nat)
    requires v.Valid() && h > 0 && i < v.Ptrs()
    ensures Subtrees(v, ptr, h)[i] == Leaves(v, Child(v, ptr, i), h - 1)
  {
    hide Leaves;
  }

  lemma LeavesFlat(v: Volume, ptr: u32, h: nat)
    requires v.Valid() && h > 0
    ensures Leaves(v, ptr, h) == Flat(Subtrees(v, ptr, h))
  {
    hide Subtrees;
  }

  /** The blocks of a file in order: twelve in the inode, then the leaves of the three trees. */
  ghost function BlocksOf(v: Volume, ei: Inode): seq<u32>
    requires v.Valid()
  {
    ei[..12] + Leaves(v, ei[12], 1) + Leaves(v, ei[13], 2) + Leaves(v, ei[14], 3)
  }

  /** The map's arithmetic finds block lbn in that order, for exactly as many blocks as there are. */
  lemma BlockMapInOrder(v: Volume, ei: Inode, lbn: nat)
    requires v.Valid() && lbn < |BlocksOf(v, ei)|
    ensures lbn < MaxBlocks(v.Ptrs()) && BlockMap(v, ei, lbn) == BlocksOf(v, ei)[lbn]
  {
    var p := v.Ptrs();
    var x, y, z := Leaves(v, ei[12], 1), Leaves(v, ei[13], 2), Leaves(v, ei[14], 3);
    Powers(p);
    LeavesLength(v, ei[12], 1);
    LeavesLength(v, ei[13], 2);
    LeavesLength(v, ei[14], 3);
    BlockMapReaches(v, ei, lbn);
    hide Leaves, Power, Reach, BlockMap, Volume.Valid, Volume.Ptrs;
    if lbn < 12 {
      ReachLeaf(v, ei[lbn]);
    } else if lbn - 12 < p {
      LeafReached(v, ei[12], 1, lbn - 12);
    } else if lbn - 12 - p < p * p {
      LeafReached(v, ei[13], 2, lbn - 12 - p);
    } else {
      LeafReached(v, ei[14], 3, lbn - 12 - p - p * p);
    }
  }

  lemma BlockCount(v: Volume, ei: Inode)
    requires v.Valid()
    ensures var p := v.blockSize / 4; |BlocksOf(v, ei)| == 12 + p + p * p + p * p * p
    ensures |BlocksOf(v, ei)| == MaxBlocks(v.Ptrs())
  {
    Powers(v.Ptrs());
    LeavesLength(v, ei[12], 1);
    LeavesLength(v, ei[13], 2);
    LeavesLength(v, ei[14], 3);
    hide Leaves, Power;
  }

  /** The contents of the first m blocks of a file, one after the other. */
  ghost function Contents(f: File, m: nat): seq<u8>
    requires f.v.Valid() && m <= |BlocksOf(f.v, f.ei)|
  {
    Flat(seq(m, k requires 0 <= k < m => f.v.disk(BlocksOf(f.v, f.ei)[k])))
  }

  lemma ContentsAt(f: File, m: nat, k: nat)
    requires f.Valid() && m <= |BlocksOf(f.v, f.ei)| && k < f.size && k < m * f.v.blockSize
    ensures |Contents(f, m)| == m * f.v.blockSize && k / f.v.blockSize < m
    ensures Hole(f, k) <==> BlocksOf(f.v, f.ei)[k / f.v.blockSize] == 0
    ensures ByteAt(f, k) == Contents(f, m)[k]
  {
    var bs, ds := f.v.blockSize, BlocksOf(f.v, f.ei);
    var s := seq(m, i requires 0 <= i < m => f.v.disk(ds[i]));
    assert Pieces(bs, s);
    FlatLength(bs, s);
    QuotientBound(k, bs, m);
    FlatAt(bs, s, k / bs, k % bs);
    BlockMapInOrder(f.v, f.ei, k / bs);
    hide Flat, BlocksOf, BlockMap, MaxBlocks, Pieces;
    assert k / bs * bs + k % bs == k;
  }

  /** The least of three. */
  function Least(a: nat, b: nat, c: nat): nat {
    if a <= b && a <= c then a else if b <= c then b else c
  }

  /**
   * A read at off yields the bytes of the blocks in order, from off up to off + count, the end of the
   * file, or the end of the m-th block when the next is the first hole.
   */
  lemma ReadIsSlice(f: File, off: nat, count: nat, m: nat)
    requires f.Valid() && m <= |BlocksOf(f.v, f.ei)| && off < f.size && off <= m * f.v.blockSize
    requires forall k :: off / f.v.blockSize <= k < m ==> BlocksOf(f.v, f.ei)[k] != 0
    requires m * f.v.blockSize >= f.size || (m < |BlocksOf(f.v, f.ei)| && BlocksOf(f.v, f.ei)[m] == 0)
    ensures var end := Least(off + count, f.size, m * f.v.blockSize);
            off <= end <= |Contents(f, m)| && ReadSpec(f, off, count) == Contents(f, m)[off..end]
  {
    var c, s, end := Contents(f, m), ReadSpec(f, off, count), Least(off + count, f.size, m * f.v.blockSize);
    ContentsLength(f, m);
    hide *;
    forall i | 0 <= i < |s| ensures off + i < |c| && s[i] == c[off + i] {
      ReadByte(f, off, count, m, m * f.v.blockSize, i);
    }
    ReadLength(f, off, count, m);
    SliceOf(c, off, s);
  }

  lemma SliceOf(c: seq<u8>, off: nat, s: seq<u8>)
    requires off + |s| <= |c| && forall i :: 0 <= i < |s| ==> s[i] == c[off + i]
    ensures s == c[off..off + |s|]
  {
  }

  lemma ReadByte(f: File, off: nat, count: nat, m: nat, end: nat, i: nat)
    requires f.Valid() && m <= |BlocksOf(f.v, f.ei)| && off < f.size && end == m * f.v.blockSize && off <= end
    requires end >= f.size || (m < |BlocksOf(f.v, f.ei)| && BlocksOf(f.v, f.ei)[m] == 0)
    requires i < |ReadSpec(f, off, count)|
    ensures off + i < f.size && off + i < end == |Contents(f, m)|
    ensures ReadSpec(f, off, count)[i] == Contents(f, m)[off + i]
  {
    ContentsLength(f, m);
    hide *;
    IsRead(f, off, count, i);
    NotPast(f, off, count, m, end, i);
    ContentsAt(f, m, off + i);
  }

  /** No byte behind a hole is read. */
  lemma NotPast(f: File, off: nat, count: nat, m: nat, end: nat, i: nat)
    requires f.Valid() && m <= |BlocksOf(f.v, f.ei)| && off < f.size && end == m * f.v.blockSize && off <= end
    requires end >= f.size || (m < |BlocksOf(f.v, f.ei)| && BlocksOf(f.v, f.ei)[m] == 0)
    requires i < |ReadSpec(f, off, count)|
    ensures off + i < end
  {
    hide *;
    IsRead(f, off, count, i);
    if off + i >= end {
      var x: nat := end - off;
      IsRead(f, off, count, x);
      HoleAt(f, m);
    }
  }

  lemma ReadBytes(f: File, off: nat, count: nat)
    requires f.Valid() && off < f.size
    ensures off + Wanted(f, off, count) <= f.size && Wanted(f, off, count) <= count
    ensures ReadSpec(f, off, count) == Bytes(f, off, Wanted(f, off, count))
    ensures Wanted(f, off, count) == if off + count > f.size then f.size - off else count
  {
  }

  lemma IsRead(f: File, off: nat, count: nat, i: nat)
    requires f.Valid() && off < f.size && i < |ReadSpec(f, off, count)|
    ensures off + i < f.size && !Hole(f, off + i) && ReadSpec(f, off, count)[i] == ByteAt(f, off + i)
  {
    hide *;
    ReadBytes(f, off, count);
    IsByte(f, off, Wanted(f, off, count), i);
  }

  lemma {:induction false} IsByte(f: File, off: nat, n: nat, i: nat)
    requires f.Valid() && off + n <= f.size && i < |Bytes(f, off, n)|
    ensures off + i < f.size && !Hole(f, off + i) && Bytes(f, off, n)[i] == ByteAt(f, off + i)
    decreases n
  {
    hide *;
    BytesStep(f, off, n);
    if i > 0 {
      IsByte(f, off + 1, n - 1, i - 1);
      assert off + 1 + (i - 1) == off + i;
    }
  }

  /** What stops a read short is a hole. */
  lemma StopsAtHole(f: File, off: nat, count: nat)
    requires f.Valid() && off < f.size && |ReadSpec(f, off, count)| < Wanted(f, off, count)
    ensures off + |ReadSpec(f, off, count)| < f.size && Hole(f, off + |ReadSpec(f, off, count)|)
  {
    hide *;
    ReadBytes(f, off, count);
    BytesExact(f, off, Wanted(f, off, count));
  }

  lemma ReadLength(f: File, off: nat, count: nat, m: nat)
    requires f.Valid() && m <= |BlocksOf(f.v, f.ei)| && off < f.size && off <= m * f.v.blockSize
    requires forall k :: off / f.v.blockSize <= k < m ==> BlocksOf(f.v, f.ei)[k] != 0
    requires m * f.v.blockSize >= f.size || (m < |BlocksOf(f.v, f.ei)| && BlocksOf(f.v, f.ei)[m] == 0)
    ensures off + |ReadSpec(f, off, count)| == Least(off + count, f.size, m * f.v.blockSize)
  {
    var n, s := Wanted(f, off, count), ReadSpec(f, off, count);
    ContentsLength(f, m);
    hide BlocksOf, Contents, Bytes, Hole, ByteAt, Wanted, ReadSpec, MaxBlocks, File.Valid, Volume.Valid, Reads;
    ReadBytes(f, off, count);
    if s != [] {
      NotPast(f, off, count, m, m * f.v.blockSize, |s| - 1);
    }
    if |s| < n && off + |s| < m * f.v.blockSize {
      StopsAtHole(f, off, count);
      ContentsAt(f, m, off + |s|);
      SameOrLater(off, off + |s|, f.v.blockSize);
      assert false;
    }
  }

  lemma HoleAt(f: File, m: nat)
    requires f.Valid() && m < |BlocksOf(f.v, f.ei)| && BlocksOf(f.v, f.ei)[m] == 0 && m * f.v.blockSize < f.size
    ensures Hole(f, m * f.v.blockSize)
  {
    DivUnique(m * f.v.blockSize, f.v.blockSize, m, 0);
    BlockMapInOrder(f.v, f.ei, m);
  }

  lemma SameOrLater(a: nat, b: nat, d: nat)
    requires d > 0 && a <= b
    ensures a / d <= b / d
  {
    QuotientBound(b, d, a / d);
    assert d * (a / d) <= a;
  }

  lemma ContentsLength(f: File, m: nat)
    requires f.v.Valid() && m <= |BlocksOf(f.v, f.ei)|
    ensures |Contents(f, m)| == m * f.v.blockSize && f.v.blockSize > 0
  {
    var ds := BlocksOf(f.v, f.ei);
    var s := seq(m, i requires 0 <= i < m => f.v.disk(ds[i]));
    assert Pieces(f.v.blockSize, s);
    FlatLength(f.v.blockSize, s);
  }

  /** The header of a directory record: inode, record length, name length and type. */
  function Header(r: Record): seq<Field> {
    [Field(r.ino, 4), Field(r.len, 2), Field(|r.name|, 1), Field(r.kind, 1)]
  }

  /** The record as its writer lays it out: the header, the name, and filling up to its length. */
  predicate Written(r: Record, b: seq<u8>) {
    && |b| == r.len < 0x1_0000 && r.kind < 256 && |r.name| < 256 && 8 + |r.name| <= r.len
    && b[..8] == Packed(Header(r), 4) && b[8..8 + |r.name|] == r.name
  }

  /** A record that lies anywhere in a block is read back field by field. */
  lemma RecordRead(b: seq<u8>, i: nat, r: Record)
    requires i + r.len <= |b| && Written(r, b[i..i + r.len])
    ensures RecordIn(b, i, r)
  {
    var part, fields := b[i..i + r.len], Header(r);
    FieldSizes();
    HeaderPlaces(r);
    SliceAt(b, i, part, 0, 8);
    SliceAt(b, i, part, 8, |r.name|);
    assert part[..8][0..] == part[..8] && part[..8 + |r.name|][8..] == part[8..8 + |r.name|];
    assert b[i..i + 8] == Packed(fields, 4);
    hide Packed, Offset, Written;
    FieldRead(b, i, fields, 0);
    FieldRead(b, i, fields, 1);
    FieldRead(b, i, fields, 2);
    FieldRead(b, i, fields, 3);
    OneByte(b, i + 6);
    OneByte(b, i + 7);
  }

  lemma OneByte(b: seq<u8>, at: nat)
    requires at < |b|
    ensures Le(b, at, 1) == b[at]
  {
    assert Le(b, at + 1, 0) == 0;
  }

  lemma FieldSizes()
    ensures PowerOf256(1) == 0x100 && PowerOf256(2) == 0x1_0000 && PowerOf256(4) == 0x1_0000_0000
  {
    FourBytes();
  }

  lemma HeaderPlaces(r: Record)
    ensures var fields := Header(r);
            && Offset(fields, 0) == 0 && Offset(fields, 1) == 4 && Offset(fields, 2) == 6 && Offset(fields, 3) == 7
            && Offset(fields, 4) == 8 && |Packed(fields, 4)| == 8
  {
    var fields := Header(r);
    PackedPrefix(fields, 4, 4);
    assert Offset(fields, 1) == 4;
    assert Offset(fields, 2) == 6;
    assert Offset(fields, 3) == 7;
  }

  /** A block written record after record is tiled by those records. */
  lemma BlockWritten(b: seq<u8>, recs: seq<Record>, parts: seq<seq<u8>>)
    requires b == Flat(parts) && |parts| == |recs| && forall k :: 0 <= k < |recs| ==> Written(recs[k], parts[k])
    ensures Tiles(b, recs)
  {
    hide Written, RecordIn;
    PartsLength(recs, parts, |recs|);
    assert parts[..|parts|] == parts && recs[..|recs|] == recs;
    forall k | 0 <= k < |recs| ensures RecordIn(b, Length(recs[..k]), recs[k]) {
      PartAt(recs, parts, k);
      RecordRead(b, Length(recs[..k]), recs[k]);
    }
  }

  lemma {:induction false} PartsLength(recs: seq<Record>, parts: seq<seq<u8>>, k: nat)
    requires k <= |parts| == |recs| && forall j :: 0 <= j < |recs| ==> Written(recs[j], parts[j])
    ensures |Flat(parts[..k])| == Length(recs[..k])
  {
    if k > 0 {
      var j := k - 1;
      PartsLength(recs, parts, j);
      FlatSum(parts[..j], [parts[j]]);
      FlatOne(parts[j]);
      assert parts[..k] == parts[..j] + [parts[j]];
      assert recs[..k][..j] == recs[..j] && recs[..k][j] == recs[j];
      WrittenLength(recs[j], parts[j]);
    }
  }

  lemma WrittenLength(r: Record, b: seq<u8>)
    requires Written(r, b)
    ensures |b| == r.len
  {
  }

  lemma PartAt(recs: seq<Record>, parts: seq<seq<u8>>, k: nat)
    requires k < |parts| == |recs| && forall j :: 0 <= j < |recs| ==> Written(recs[j], parts[j])
    ensures var at := Length(recs[..k]);
            at + recs[k].len <= |Flat(parts)| && Flat(parts)[at..at + recs[k].len] == parts[k]
  {
    hide Written;
    PartsLength(recs, parts, k);
    WrittenLength(recs[k], parts[k]);
    FlatSum(parts[..k], parts[k..]);
    FlatSum([parts[k]], parts[k + 1..]);
    FlatOne(parts[k]);
    assert parts == parts[..k] + parts[k..] && parts[k..] == [parts[k]] + parts[k + 1..];
    assert Flat(parts) == Flat(parts[..k]) + (parts[k] + Flat(parts[k + 1..]));
  }
}
