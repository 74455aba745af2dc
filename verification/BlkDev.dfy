/**
 * A disk of sectors seen through a byte-addressed device file: unaligned reads, and writes that read,
 * change and write back whole sectors.
 */
module BlkDev {
  import opened Arith
  import opened Flattening

  const VFS_ENOMEM: int := -12

  /** A buffer cut into n sectors. */
  function Cut(ss: nat, b: seq<u8>, n: nat): (s: seq<seq<u8>>)
    requires |b| == n * ss
    ensures |s| == n
    decreases n
  {
    if n == 0 then []
    else
      CutStep(ss, n);
      [b[..ss]] + Cut(ss, b[ss..], n - 1)
  }

  lemma CutStep(ss: nat, n: nat)
    requires n > 0
    ensures n * ss == ss + (n - 1) * ss
  {
  }

  lemma {:induction false} CutFlat(ss: nat, b: seq<u8>, n: nat)
    requires |b| == n * ss
    ensures Pieces(ss, Cut(ss, b, n)) && Flat(Cut(ss, b, n)) == b
    decreases n
  {
    if n > 0 {
      CutStep(ss, n);
      CutFlat(ss, b[ss..], n - 1);
      var s := Cut(ss, b, n);
      assert s[1..] == Cut(ss, b[ss..], n - 1) && s[0] == b[..ss];
      assert b == b[..ss] + b[ss..];
    }
  }

  /** The sectors that cover count bytes at off: first, one past the last, and where off is in the first. */
  lemma Cover(ss: nat, off: nat, count: nat, start: nat, end: nat)
    requires ss > 0 && start == off / ss && end == (off + count + ss - 1) / ss
    ensures start <= end && start * ss <= off < start * ss + ss && off + count <= end * ss < off + count + ss
  {
    MulOrder(ss, start, end, off, count);
  }

  lemma MulOrder(ss: nat, start: nat, end: nat, off: nat, count: nat)
    requires ss > 0 && start == off / ss && end == (off + count + ss - 1) / ss
    ensures start <= end && start * ss <= off < start * ss + ss && off + count <= end * ss < off + count + ss
  {
    assert off == start * ss + off % ss;
    var top := off + count + ss - 1;
    assert top == end * ss + top % ss;
    if end < start { MulMono(ss, end + 1, start); }
  }

  /** The sectors fit on the disk exactly when the bytes do. */
  lemma Fits(ss: nat, off: nat, count: nat, end: nat, n: nat)
    requires ss > 0 && off + count <= end * ss < off + count + ss
    ensures end <= n <==> off + count <= n * ss
  {
    if end <= n { MulMono(ss, end, n); } else { MulMono(ss, n + 1, end); }
  }

  class BlockDevice {
    const ss: nat
    var sectors: seq<seq<u8>>

    ghost predicate Valid()
      reads this
    {
      0 < ss < 0x1_0000_0000 && Pieces(ss, sectors)
    }

    function Bytes(): seq<u8>
      reads this
    {
      Flat(sectors)
    }

    constructor (ss: nat, sectors: seq<seq<u8>>)
      requires 0 < ss < 0x1_0000_0000 && Pieces(ss, sectors)
      ensures Valid() && this.ss == ss && this.sectors == sectors
    {
      this.ss := ss;
      this.sectors := sectors;
    }

    /** blk_read: succeeds for sectors on the disk. */
    method BlkRead(lba: nat, count: nat) returns (rc: int, tmp: seq<u8>)
      requires Valid()
      ensures rc == if lba + count <= |sectors| then 0 else -1
      ensures |tmp| == count * ss
      ensures rc == 0 ==> tmp == Flat(sectors[lba..lba + count])
    {
      if lba + count <= |sectors| {
        FlatLength(ss, sectors[lba..lba + count]);
        return 0, Flat(sectors[lba..lba + count]);
      }
      tmp := seq(count * ss, _ => 0);
      rc := -1;
    }

    /** blk_write */
    method BlkWrite(lba: nat, count: nat, tmp: seq<u8>) returns (rc: int)
      requires Valid() && |tmp| == count * ss
      modifies this
      ensures Valid() && rc == if lba + count <= |old(sectors)| then 0 else -1
      ensures rc != 0 ==> sectors == old(sectors)
      ensures rc == 0 ==>
                |sectors| == |old(sectors)|
                && Bytes() == Flat(old(sectors)[..lba]) + tmp + Flat(old(sectors)[lba + count..])
    {
      if lba + count > |sectors| { return -1; }
      CutFlat(ss, tmp, count);
      FlatSum(sectors[..lba] + Cut(ss, tmp, count), sectors[lba + count..]);
      FlatSum(sectors[..lba], Cut(ss, tmp, count));
      sectors := sectors[..lba] + Cut(ss, tmp, count) + sectors[lba + count..];
      rc := 0;
    }

    /** blkdev_read; room says whether the bounce buffer could be allocated. */
    method Read(pos: nat, count: nat, room: bool) returns (rc: int, out: seq<u8>, pos': nat)
      requires Valid() && pos + count + ss < 0x1_0000_0000_0000_0000
      ensures !room ==> rc == -12
      ensures room && pos + count > |Bytes()| ==> rc == -1
      ensures rc < 0 ==> out == [] && pos' == pos
      ensures room && pos + count <= |Bytes()| ==>
              rc == count && pos' == pos + count && out == Bytes()[pos..pos + count]
    {
      var start, end := pos / ss, (pos + count + ss - 1) / ss;
      Cover(ss, pos, count, start, end);
      FlatLength(ss, sectors);
      Fits(ss, pos, count, end, |sectors|);
      hide Flat, Pieces;
      out, pos' := [], pos;
      if !room { return VFS_ENOMEM, out, pos'; }
      var tmp;
      rc, tmp := BlkRead(start, end - start);
      if rc != 0 { return -1, out, pos'; }
      Delta(start, end);
      var delta := pos - start * ss;
      var avail := (end - start) * ss - delta;
      if avail > count { avail := count; }
      out := tmp[delta..delta + avail];
      pos' := pos + avail;
      rc := avail;
      ReadEffect(sectors, start, end, pos, tmp, count);
    }

    lemma ReadEffect(s: seq<seq<u8>>, start: nat, end: nat, pos: nat, tmp: seq<u8>, count: nat)
      requires Pieces(ss, s) && start <= end <= |s| && start * ss <= pos && pos + count <= end * ss
      requires tmp == Flat(s[start..end]) && |tmp| == end * ss - start * ss
      ensures pos + count <= |Flat(s)| && tmp[pos - start * ss..pos - start * ss + count] == Flat(s)[pos..pos + count]
    {
      hide *;
      FlatSlice(ss, s, start, end);
      var bytes, a, b := Flat(s), start * ss, end * ss;
      assert tmp == bytes[a..b];
      SliceOfSlice(bytes, a, b, pos - a, count);
    }

    lemma Delta(start: nat, end: nat)
      requires start <= end
      ensures (end - start) * ss == end * ss - start * ss
    {
    }

    static lemma SliceOfSlice(s: seq<u8>, a: nat, b: nat, d: nat, n: nat)
      requires a + d + n <= b <= |s|
      ensures s[a..b][d..d + n] == s[a + d..a + d + n]
    {
      var x, y := s[a..b][d..d + n], s[a + d..a + d + n];
      assert |x| == |y|;
      forall i | 0 <= i < n ensures x[i] == y[i] {
      }
    }

    /** blkdev_write: exactly the bytes at pos change. */
    method Write(pos: nat, data: seq<u8>, room: bool) returns (rc: int, pos': nat)
      requires Valid() && pos + |data| + ss < 0x1_0000_0000_0000_0000
      modifies this
      ensures Valid()
      ensures !room ==> rc == -12
      ensures room && pos + |data| > old(|Bytes()|) ==> rc == -1
      ensures rc < 0 ==> sectors == old(sectors) && pos' == pos
      ensures room && pos + |data| <= old(|Bytes()|) ==>
                && rc == |data| && pos' == pos + |data|
                && Bytes() == old(Bytes())[..pos] + data + old(Bytes())[pos + |data|..]
    {
      var count := |data|;
      var start, end := pos / ss, (pos + count + ss - 1) / ss;
      Cover(ss, pos, count, start, end);
      FlatLength(ss, sectors);
      Fits(ss, pos, count, end, |sectors|);
      hide Flat, Pieces;
      pos' := pos;
      if !room { return VFS_ENOMEM, pos'; }
      var tmp;
      rc, tmp := BlkRead(start, end - start);
      Delta(start, end);
      var delta := pos - start * ss;
      ghost var before, was := sectors, tmp;
      tmp := tmp[..delta] + data + tmp[delta + count..];
      rc := BlkWrite(start, end - start, tmp);
      if rc != 0 { return -1, pos'; }
      WriteEffect(before, start, end, pos, was, tmp, data);
      pos' := pos + count;
      rc := count;
    }

    lemma WriteEffect(s: seq<seq<u8>>, start: nat, end: nat, pos: nat, was: seq<u8>, tmp: seq<u8>, data: seq<u8>)
      requires Pieces(ss, s) && start <= end <= |s| && start * ss <= pos && pos + |data| <= end * ss
      requires was == Flat(s[start..end]) && |was| == end * ss - start * ss
      requires var d := pos - start * ss; tmp == was[..d] + data + was[d + |data|..]
      ensures pos + |data| <= |Flat(s)|
      ensures Flat(s[..start]) + tmp + Flat(s[end..]) == Flat(s)[..pos] + data + Flat(s)[pos + |data|..]
    {
      hide *;
      FlatSlice(ss, s, start, end);
      var bytes, a, b := Flat(s), start * ss, end * ss;
      assert was == bytes[a..b];
      Patched(bytes, a, b, pos - a, data);
    }

    static lemma Patched(s: seq<u8>, a: nat, b: nat, d: nat, data: seq<u8>)
      requires a + d + |data| <= b <= |s|
      ensures s[..a] + (s[a..b][..d] + data + s[a..b][d + |data|..]) + s[b..] == s[..a + d] + data + s[a + d + |data|..]
    {
    }
  }
}
