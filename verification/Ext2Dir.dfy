/**
 * Directories of an ext2 volume: readdir and lookup against the list of live records.
 */
module Ext2Dir {
  import opened Arith
  import opened Ext2Map
  import opened LittleEndian
  import opened Ext2File

  const VFS_OK: int := 0
  const VFS_ENOENT: int := -2

  datatype Option<T> = None | Some(value: T)

  datatype Entry = Entry(ino: u32, name: seq<u8>, kind: u8)

  /** The fields of the record at byte i of a block. */
  function Ino(b: seq<u8>, i: nat): u32
    requires i + 8 <= |b|
  {
    WordValues(b, i);
    Le(b, i, 4)
  }

  function RecLen(b: seq<u8>, i: nat): (n: nat)
    requires i + 8 <= |b|
    ensures n < 0x1_0000
  {
    HalfValues(b, i + 4);
    Le(b, i + 4, 2)
  }

  function NameLen(b: seq<u8>, i: nat): u8
    requires i + 8 <= |b|
  {
    b[i + 6]
  }

  function EntryAt(b: seq<u8>, i: nat): Entry
    requires i + 8 <= |b| && i + 8 + NameLen(b, i) <= |b|
  {
    Entry(Ino(b, i), b[i + 8..i + 8 + NameLen(b, i)], b[i + 7])
  }

  /** The block of the directory that byte k is in. */
  function BlockAt(f: File, k: nat): (b: seq<u8>)
    requires f.Valid() && k < f.size
    ensures |b| == f.v.blockSize
  {
    f.v.disk(BlockMap(f.v, f.ei, BlockOf(f, k)))
  }

  /** The scan goes past byte off: there is a record there, long enough to be one. */
  predicate Scans(f: File, off: nat)
    requires f.Valid()
  {
    && off < f.size && !Hole(f, off) && OffsetIn(f, off) + 8 <= f.v.blockSize
    && RecLen(BlockAt(f, off), OffsetIn(f, off)) >= 8
  }

  /** Every record a scan from off meets has its header, and if it is live its name, inside its block. */
  ghost predicate Readable(f: File, off: nat)
    requires f.Valid()
    decreases if off < f.size then f.size - off else 0
  {
    off < f.size && !Hole(f, off) ==>
      var b, i := BlockAt(f, off), OffsetIn(f, off);
      && i + 8 <= |b|
      && (RecLen(b, i) >= 8 ==> (Ino(b, i) != 0 ==> i + 8 + NameLen(b, i) <= |b|) && Readable(f, off + RecLen(b, i)))
  }

  /** The live entries from off on, in disk order, up to the end, a hole or a record too short to be one. */
  function Entries(f: File, off: nat): seq<Entry>
    requires f.Valid() && Readable(f, off)
    decreases if off < f.size then f.size - off else 0
  {
    if !Scans(f, off) then []
    else
      var b, i := BlockAt(f, off), OffsetIn(f, off);
      (if Ino(b, i) == 0 then [] else [EntryAt(b, i)]) + Entries(f, off + RecLen(b, i))
  }

  function FirstMatch(es: seq<Entry>, name: seq<u8>): Option<u32> {
    if es == [] then None
    else if es[0].name == name then Some(es[0].ino)
    else FirstMatch(es[1..], name)
  }

  /** A name is found exactly when some entry has it, and then the first such entry gives the inode. */
  lemma {:induction false} FirstMatchExact(es: seq<Entry>, name: seq<u8>)
    ensures FirstMatch(es, name).None? <==> forall i :: 0 <= i < |es| ==> es[i].name != name
    ensures forall i :: 0 <= i < |es| && es[i].name == name && (forall j :: 0 <= j < i ==> es[j].name != name) ==>
              FirstMatch(es, name) == Some(es[i].ino)
  {
    if es != [] {
      FirstMatchExact(es[1..], name);
      forall i | 0 <= i < |es| && es[i].name == name && (forall j :: 0 <= j < i ==> es[j].name != name)
        ensures FirstMatch(es, name) == Some(es[i].ino)
      {
        if i > 0 {
          assert es[1..][i - 1] == es[i];
          assert forall j :: 0 <= j < i - 1 ==> es[1..][j] == es[j + 1];
        }
      }
      assert forall i :: 0 < i < |es| ==> es[i] == es[1..][i - 1];
    }
  }

  /** A record as it is laid out on disk: its length, and for a live one the entry. */
  datatype Record = Record(len: nat, ino: u32, kind: u8, name: seq<u8>)

  /** The bytes that records take up together. */
  function Length(recs: seq<Record>): nat {
    if recs == [] then 0 else Length(recs[..|recs| - 1]) + recs[|recs| - 1].len
  }

  /** Record r lies at byte i of block b: at least a header long, and long enough for its name. */
  predicate RecordIn(b: seq<u8>, i: nat, r: Record) {
    && 8 <= r.len && i + r.len <= |b| && RecLen(b, i) == r.len && Ino(b, i) == r.ino
    && (r.ino != 0 ==>
          && NameLen(b, i) == |r.name| && 8 + |r.name| <= r.len
          && b[i + 8..i + 8 + |r.name|] == r.name && b[i + 7] == r.kind)
  }

  /** The records tile the block: one after the other, from its start to its end. */
  ghost predicate Tiles(b: seq<u8>, recs: seq<Record>) {
    Length(recs) == |b| && forall k :: 0 <= k < |recs| ==> RecordIn(b, Length(recs[..k]), recs[k])
  }

  ghost predicate BlockTiled(f: File, recs: seq<Record>, j: nat)
    requires f.Valid() && j < MaxBlocks(f.v.Ptrs())
  {
    BlockMap(f.v, f.ei, j) != 0 && Tiles(f.v.disk(BlockMap(f.v, f.ei, j)), recs)
  }

  /** A well-formed directory: whole blocks, none of them a hole, each tiled by its records. */
  ghost predicate LaidOut(f: File, blocks: seq<seq<Record>>) {
    && f.Valid() && f.size == |blocks| * f.v.blockSize && f.size + 0x1_0000 <= 0x1_0000_0000
    && |blocks| <= MaxBlocks(f.v.Ptrs()) && forall j :: 0 <= j < |blocks| ==> BlockTiled(f, blocks[j], j)
  }

  /** The entries of the records that are in use, in order. */
  function Live(recs: seq<Record>): seq<Entry> {
    if recs == [] then []
    else (if recs[0].ino == 0 then [] else [Entry(recs[0].ino, recs[0].name, recs[0].kind)]) + Live(recs[1..])
  }

  /** Those of all blocks, block by block. */
  function LiveAll(blocks: seq<seq<Record>>): seq<Entry> {
    if blocks == [] then [] else Live(blocks[0]) + LiveAll(blocks[1..])
  }

  /** Where record k of block j starts. */
  function Place(f: File, blocks: seq<seq<Record>>, j: nat, k: nat): nat
    requires j < |blocks| && k <= |blocks[j]|
  {
    j * f.v.blockSize + Length(blocks[j][..k])
  }

  /** The scan from record k of block j finds the live records from there on. */
  lemma {:induction false} ScanLayout(f: File, blocks: seq<seq<Record>>, j: nat, k: nat)
    requires LaidOut(f, blocks) && j < |blocks| && k <= |blocks[j]|
    ensures f.Valid() && Readable(f, Place(f, blocks, j, k))
    ensures Entries(f, Place(f, blocks, j, k)) == Live(blocks[j][k..]) + LiveAll(blocks[j + 1..])
    decreases |blocks| - j, |blocks[j]| - k
  {
    hide *;
    LayoutParts(f, blocks, j);
    if k < |blocks[j]| {
      RecordHere(f, blocks, j, k);
      ScanLayout(f, blocks, j, k + 1);
      ScanOne(f, Place(f, blocks, j, k), Place(f, blocks, j, k + 1), blocks[j][k]);
      LiveOne(blocks[j], k);
      Append(LiveHere(blocks[j][k]), Live(blocks[j][k + 1..]), LiveAll(blocks[j + 1..]));
    } else {
      BlockDone(f, blocks, j);
      if j + 1 < |blocks| {
        ScanLayout(f, blocks, j + 1, 0);
        LiveNext(blocks, j);
      } else {
        NothingLeft(f, Place(f, blocks, j, k));
        LiveLast(blocks, j);
      }
    }
  }

  function LiveHere(r: Record): seq<Entry> {
    if r.ino == 0 then [] else [Entry(r.ino, r.name, r.kind)]
  }

  lemma LayoutParts(f: File, blocks: seq<seq<Record>>, j: nat)
    requires LaidOut(f, blocks) && j < |blocks|
    ensures f.Valid() && f.size == |blocks| * f.v.blockSize && j < MaxBlocks(f.v.Ptrs()) && BlockTiled(f, blocks[j], j)
  {
    hide MaxBlocks;
  }

  /** What the scan needs to know of the record at off, which reaches to next. */
  ghost predicate RecordAtByte(f: File, off: nat, next: nat, r: Record)
    requires f.Valid()
  {
    off < f.size && !Hole(f, off) && next == off + r.len && RecordIn(BlockAt(f, off), OffsetIn(f, off), r)
  }

  lemma RecordHere(f: File, blocks: seq<seq<Record>>, j: nat, k: nat)
    requires LaidOut(f, blocks) && j < |blocks| && k < |blocks[j]| && f.Valid()
    ensures RecordAtByte(f, Place(f, blocks, j, k), Place(f, blocks, j, k + 1), blocks[j][k])
  {
    LayoutParts(f, blocks, j);
    var bs, at := f.v.blockSize, Length(blocks[j][..k]);
    assert blocks[j][..k + 1][..k] == blocks[j][..k];
    assert RecordIn(f.v.disk(BlockMap(f.v, f.ei, j)), at, blocks[j][k]);
    ByteInBlock(f, j, at, |blocks|);
    hide BlockMap, MaxBlocks, RecordIn, LaidOut;
  }

  lemma ByteInBlock(f: File, j: nat, at: nat, n: nat)
    requires f.Valid() && j < n && f.size == n * f.v.blockSize && at < f.v.blockSize
    ensures j * f.v.blockSize + at < f.size
    ensures BlockOf(f, j * f.v.blockSize + at) == j && OffsetIn(f, j * f.v.blockSize + at) == at
  {
    hide BlockMap, MaxBlocks;
    var bs := f.v.blockSize;
    MulMono(bs, j + 1, n);
    DivUnique(j * bs + at, bs, j, at);
  }

  lemma ScanOne(f: File, off: nat, next: nat, r: Record)
    requires f.Valid() && RecordAtByte(f, off, next, r) && Readable(f, next)
    ensures Readable(f, off) && Entries(f, off) == LiveHere(r) + Entries(f, next)
  {
    hide Hole, BlockAt, OffsetIn, BlockOf, BlockMap, MaxBlocks, File.Valid, Volume.Valid, Ino, RecLen, NameLen;
  }

  lemma BlockDone(f: File, blocks: seq<seq<Record>>, j: nat)
    requires LaidOut(f, blocks) && j < |blocks|
    ensures var end := Place(f, blocks, j, |blocks[j]|);
            && (j + 1 < |blocks| ==> end == Place(f, blocks, j + 1, 0)) && (j + 1 == |blocks| ==> end == f.size)
  {
    LayoutParts(f, blocks, j);
    assert blocks[j][..|blocks[j]|] == blocks[j];
    hide BlockMap, MaxBlocks;
    assert (j + 1) * f.v.blockSize == j * f.v.blockSize + f.v.blockSize;
  }

  lemma NothingLeft(f: File, off: nat)
    requires f.Valid() && off >= f.size
    ensures Readable(f, off) && Entries(f, off) == []
  {
  }

  lemma LiveOne(recs: seq<Record>, k: nat)
    requires k < |recs|
    ensures Live(recs[k..]) == LiveHere(recs[k]) + Live(recs[k + 1..])
  {
    assert recs[k..][1..] == recs[k + 1..];
  }

  lemma LiveNext(blocks: seq<seq<Record>>, j: nat)
    requires j + 1 < |blocks|
    ensures var b := blocks[j];
            Live(b[|b|..]) + LiveAll(blocks[j + 1..]) == Live(blocks[j + 1][0..]) + LiveAll(blocks[j + 2..])
  {
    assert blocks[j + 1..][1..] == blocks[j + 2..] && blocks[j + 1][0..] == blocks[j + 1];
    assert [] + LiveAll(blocks[j + 1..]) == LiveAll(blocks[j + 1..]);
  }

  lemma LiveLast(blocks: seq<seq<Record>>, j: nat)
    requires j + 1 == |blocks|
    ensures Live(blocks[j][|blocks[j]|..]) + LiveAll(blocks[j + 1..]) == []
  {
  }

  lemma Append(a: seq<Entry>, b: seq<Entry>, c: seq<Entry>)
    ensures (a + b) + c == a + (b + c)
  {
  }

  /** On a well-formed directory the scan finds exactly the live records, block by block, in order. */
  lemma LayoutEntries(f: File, blocks: seq<seq<Record>>)
    requires LaidOut(f, blocks)
    ensures IsDirectory(f) && Entries(f, 0) == LiveAll(blocks)
  {
    hide BlockMap, MaxBlocks, Readable, Entries, BlockTiled;
    if blocks == [] {
      NothingLeft(f, 0);
    } else {
      ScanLayout(f, blocks, 0, 0);
      assert blocks[0][..0] == [] && blocks[0][0..] == blocks[0] && Place(f, blocks, 0, 0) == 0;
    }
  }

  /** A directory that a 32-bit offset can scan. */
  ghost predicate IsDirectory(f: File) {
    f.Valid() && f.size + 0x1_0000 <= 0x1_0000_0000 && Readable(f, 0)
  }

  lemma DirectoryParts(f: File)
    requires IsDirectory(f)
    ensures f.Valid() && f.size + 0x1_0000 <= 0x1_0000_0000 && Readable(f, 0)
  {
  }

  /** What the scan finds at off when the record there is in the buffer. */
  lemma RecordFound(f: File, off: nat)
    requires f.Valid() && Readable(f, off) && off < f.size && !Hole(f, off)
    ensures var b, i := BlockAt(f, off), OffsetIn(f, off);
            && i + 8 <= |b|
            && (RecLen(b, i) < 8 ==> Entries(f, off) == [])
            && (RecLen(b, i) >= 8 ==>
                  && Readable(f, off + RecLen(b, i)) && (Ino(b, i) != 0 ==> i + 8 + NameLen(b, i) <= |b|)
                  && Entries(f, off) == (if Ino(b, i) == 0 then [] else [EntryAt(b, i)])
                  + Entries(f, off + RecLen(b, i)))
  {
    hide File.Valid, Volume.Valid, BlockMap, BlockOf, Hole, OffsetIn, RecLen;
  }

  lemma NoRecord(f: File, off: nat)
    requires f.Valid() && Readable(f, off) && (off >= f.size || Hole(f, off))
    ensures Entries(f, off) == []
  {
    hide File.Valid, Volume.Valid, BlockMap, BlockOf, Hole, OffsetIn, RecLen;
  }

  /** What the record at byte i of block b, which is byte off of the directory, says of the scan from off. */
  ghost predicate RecordAt(f: File, off: nat, b: seq<u8>, i: nat)
    requires f.Valid() && Readable(f, off) && i + 8 <= |b|
  {
    && RecLen(b, i) >= 8 && Readable(f, off + RecLen(b, i)) && (Ino(b, i) != 0 ==> i + 8 + NameLen(b, i) <= |b|)
    && Entries(f, off) == (if Ino(b, i) == 0 then [] else [EntryAt(b, i)]) + Entries(f, off + RecLen(b, i))
  }

  /** The first half of the loops of ext2_lookup and ext2_readdir: the record at off, unless the scan ends there. */
  method Probe(f: File, off: nat, curBlk: nat, block: seq<u8>)
    returns (more: bool, curBlk': nat, block': seq<u8>, i: nat)
    requires f.Valid() && Readable(f, off) && off < f.size && (curBlk != NO_BLOCK ==> Cached(f, curBlk, block))
    ensures !more ==> Entries(f, off) == []
    ensures more ==>
              (curBlk' != NO_BLOCK ==> Cached(f, curBlk', block')) && i + 8 <= |block'| && RecordAt(f, off, block', i)
  {
    hide *;
    i := OffsetIn(f, off);
    var found;
    found, curBlk', block' := Fetch(f, off, curBlk, block);
    if !found {
      NoRecord(f, off);
      return false, curBlk', block', i;
    }
    Buffered(f, off, block');
    RecordFound(f, off);
    more := RecLen(block', i) >= 8;
    if more { RecordIntro(f, off, block', i); }
  }

  lemma RecordIntro(f: File, off: nat, b: seq<u8>, i: nat)
    requires f.Valid() && Readable(f, off) && i + 8 <= |b| && RecLen(b, i) >= 8 && Readable(f, off + RecLen(b, i))
    requires Ino(b, i) != 0 ==> i + 8 + NameLen(b, i) <= |b|
    requires Entries(f, off) == (if Ino(b, i) == 0 then [] else [EntryAt(b, i)]) + Entries(f, off + RecLen(b, i))
    ensures RecordAt(f, off, b, i)
  {
  }

  lemma RecordParts(f: File, off: nat, b: seq<u8>, i: nat)
    requires f.Valid() && Readable(f, off) && i + 8 <= |b| && RecordAt(f, off, b, i)
    ensures RecLen(b, i) >= 8 && Readable(f, off + RecLen(b, i)) && (Ino(b, i) != 0 ==> i + 8 + NameLen(b, i) <= |b|)
    ensures var rest := Entries(f, off + RecLen(b, i));
            if Ino(b, i) == 0 then Entries(f, off) == rest
            else Entries(f, off) != [] && Entries(f, off)[0] == EntryAt(b, i) && Entries(f, off)[1..] == rest
  {
    hide Entries, Readable, Ino, EntryAt;
  }

  class OpenDir {
    const f: File
    var pos: nat

    constructor (f: File)
      ensures this.f == f && pos == 0
    {
      this.f := f;
      pos := 0;
    }

    /** ext2_readdir: the next live entry, and the position after it. */
    method Readdir(page: bool) returns (rc: int, e: Entry)
      requires IsDirectory(f) && Readable(f, pos) && pos < 0x1_0000_0000
      modifies this`pos
      ensures pos < 0x1_0000_0000 && Readable(f, pos)
      ensures old(pos) < f.size && !page ==> rc == VFS_ENOMEM && pos == old(pos)
      ensures old(pos) >= f.size || page ==>
                var es := Entries(f, old(pos));
                if es == [] then rc == VFS_ENOENT && pos == old(pos)
                else rc == VFS_OK && e == es[0] && Entries(f, pos) == es[1..] && old(pos) < pos
    {
      e := Entry(0, [], 0);
      if pos >= f.size {
        NoRecord(f, pos);
        return VFS_ENOENT, e;
      }
      if !page { return VFS_ENOMEM, e; }
      rc := VFS_ENOENT;
      var curBlk: nat, block: seq<u8> := NO_BLOCK, [];
      var offset := pos;
      DirectoryParts(f);
      hide *;
      while offset < f.size
        invariant pos == old(pos) <= offset < 0x1_0000_0000 && rc == VFS_ENOENT
        invariant Readable(f, offset) && Entries(f, offset) == Entries(f, pos)
        invariant curBlk != NO_BLOCK ==> Cached(f, curBlk, block)
        decreases f.size - offset
      {
        var more, blkOff;
        more, curBlk, block, blkOff := Probe(f, offset, curBlk, block);
        if !more { break; }
        RecordParts(f, offset, block, blkOff);
        offset := offset + RecLen(block, blkOff);
        if Ino(block, blkOff) == 0 { continue; }
        e := EntryAt(block, blkOff);
        pos := offset;
        return VFS_OK, e;
      }
      if offset >= f.size { NoRecord(f, offset); }
    }
  }

  lemma Buffered(f: File, k: nat, block: seq<u8>)
    requires f.Valid() && k < f.size && Cached(f, BlockOf(f, k), block)
    ensures block == BlockAt(f, k) && !Hole(f, k) && |block| == f.v.blockSize
  {
    hide MaxBlocks, BlockMap, BlockOf;
  }

  lemma Codes()
    ensures VFS_OK == 0 && VFS_ENOENT == -2 && VFS_ENOMEM == -12 && NO_BLOCK == 0xFFFF_FFFF
  {
  }

  /** Calling readdir from the start until it finds nothing lists every live entry once, in disk order. */
  method ListAll(f: File) returns (es: seq<Entry>)
    requires IsDirectory(f)
    ensures es == Entries(f, 0)
    ensures forall blocks :: LaidOut(f, blocks) ==> es == LiveAll(blocks)
  {
    hide *;
    LayoutsAgree(f);
    Codes();
    DirectoryParts(f);
    var d := new OpenDir(f);
    es := [];
    var rc, e := d.Readdir(true);
    ghost var rest := Entries(f, d.pos);
    FirstListed(Entries(f, 0), e, rest);
    while rc == VFS_OK
      invariant d.f == f && Readable(f, d.pos) && d.pos < 0x1_0000_0000 && rest == Entries(f, d.pos)
      invariant rc == VFS_OK ==> Entries(f, 0) == es + [e] + rest
      invariant rc != VFS_OK ==> Entries(f, 0) == es
      decreases if rc == VFS_OK then 0x1_0000_0001 - d.pos else 0
    {
      es := es + [e];
      ghost var left := rest;
      rc, e := d.Readdir(true);
      rest := Entries(f, d.pos);
      NextListed(Entries(f, 0), es, left, e, rest);
    }
  }

  lemma LayoutsAgree(f: File)
    requires IsDirectory(f)
    ensures forall blocks :: LaidOut(f, blocks) ==> Entries(f, 0) == LiveAll(blocks)
  {
    forall blocks | LaidOut(f, blocks) ensures Entries(f, 0) == LiveAll(blocks) {
      LayoutEntries(f, blocks);
    }
  }

  lemma FirstListed(all: seq<Entry>, e: Entry, rest: seq<Entry>)
    ensures all != [] && all[0] == e && all[1..] == rest ==> all == [] + [e] + rest
  {
  }

  lemma NextListed(all: seq<Entry>, es: seq<Entry>, left: seq<Entry>, e: Entry, rest: seq<Entry>)
    requires all == es + left
    ensures left != [] && left[0] == e && left[1..] == rest ==> all == es + [e] + rest
    ensures left == [] ==> all == es
  {
  }

  /** ext2_lookup, given that the inode can be read: the inode of the first live entry of that name. */
  method Lookup(f: File, name: seq<u8>, page: bool) returns (rc: int, ino: u32)
    requires IsDirectory(f)
    ensures !page ==> rc == VFS_ENOMEM
    ensures page ==> match FirstMatch(Entries(f, 0), name)
                     case None => rc == VFS_ENOENT
                     case Some(n) => rc == VFS_OK && ino == n
    ensures forall blocks :: page && LaidOut(f, blocks) ==>
              match FirstMatch(LiveAll(blocks), name)
              case None => rc == VFS_ENOENT
              case Some(n) => rc == VFS_OK && ino == n
  {
    LayoutsAgree(f);
    hide LaidOut, Entries, Readable, LiveAll, FirstMatch;
    if !page { return VFS_ENOMEM, 0; }
    var found := ScanFor(f, name);
    if found.Some? {
      return VFS_OK, found.value;
    }
    return VFS_ENOENT, 0;
  }

  /** The loop of ext2_lookup. */
  method ScanFor(f: File, name: seq<u8>) returns (found: Option<u32>)
    requires IsDirectory(f)
    ensures found == FirstMatch(Entries(f, 0), name)
  {
    hide *;
    Codes();
    DirectoryParts(f);
    var curBlk: nat, block: seq<u8> := NO_BLOCK, [];
    var offset := 0;
    ghost var answer := FirstMatch(Entries(f, 0), name);
    AnswerStart(f, name);
    while offset < f.size
      invariant Readable(f, offset) && Answer(f, offset, name, answer)
      invariant curBlk != NO_BLOCK ==> Cached(f, curBlk, block)
      decreases f.size - offset
    {
      var more, offBlk;
      more, curBlk, block, offBlk := Probe(f, offset, curBlk, block);
      if !more {
        AnswerNone(f, offset, name, answer);
        return None;
      }
      RecordParts(f, offset, block, offBlk);
      var same := Matches(block, offBlk, name);
      AnswerStep(f, offset, name, answer, block, offBlk, same);
      if same {
        return Some(Ino(block, offBlk));
      }
      offset := offset + RecLen(block, offBlk);
    }
    NoRecord(f, offset);
    AnswerNone(f, offset, name, answer);
    return None;
  }

  /** The first match from off on is the answer. */
  ghost predicate Answer(f: File, off: nat, name: seq<u8>, answer: Option<u32>)
    requires f.Valid() && Readable(f, off)
  {
    FirstMatch(Entries(f, off), name) == answer
  }

  lemma AnswerStart(f: File, name: seq<u8>)
    requires f.Valid() && Readable(f, 0)
    ensures Answer(f, 0, name, FirstMatch(Entries(f, 0), name))
  {
  }

  lemma AnswerNone(f: File, off: nat, name: seq<u8>, answer: Option<u32>)
    requires f.Valid() && Readable(f, off) && Answer(f, off, name, answer) && Entries(f, off) == []
    ensures answer == None
  {
  }

  lemma AnswerStep(f: File, off: nat, name: seq<u8>, answer: Option<u32>, b: seq<u8>, i: nat, same: bool)
    requires f.Valid() && Readable(f, off) && Answer(f, off, name, answer)
    requires i + 8 <= |b| && RecordAt(f, off, b, i) && (Ino(b, i) != 0 ==> i + 8 + NameLen(b, i) <= |b|)
    requires same <==> Ino(b, i) != 0 && EntryAt(b, i).name == name
    requires same ==> EntryAt(b, i).ino == Ino(b, i)
    ensures Readable(f, off + RecLen(b, i))
            && if same then answer == Some(Ino(b, i)) else Answer(f, off + RecLen(b, i), name, answer)
  {
    RecordParts(f, off, b, i);
    hide Entries, Readable, Ino, EntryAt, RecLen, NameLen, RecordAt, FirstMatch;
    var es, rest := Entries(f, off), Entries(f, off + RecLen(b, i));
    if same { MatchHit(es, name); } else { MatchStep(es, rest, name); }
  }

  lemma MatchHit(es: seq<Entry>, name: seq<u8>)
    requires es != [] && es[0].name == name
    ensures FirstMatch(es, name) == Some(es[0].ino)
  {
  }

  lemma MatchStep(es: seq<Entry>, rest: seq<Entry>, name: seq<u8>)
    requires es == rest || (es != [] && es[1..] == rest && es[0].name != name)
    ensures FirstMatch(es, name) == FirstMatch(rest, name)
  {
  }

  /** A live record of that name: the comparisons of ext2_lookup. */
  method Matches(block: seq<u8>, i: nat, name: seq<u8>) returns (same: bool)
    requires i + 8 <= |block| && (Ino(block, i) != 0 ==> i + 8 + NameLen(block, i) <= |block|)
    ensures same <==> Ino(block, i) != 0 && EntryAt(block, i).name == name
    ensures same ==> EntryAt(block, i).ino == Ino(block, i)
  {
    if Ino(block, i) == 0 || NameLen(block, i) != |name| { return false; }
    for k := 0 to |name|
      invariant forall j :: 0 <= j < k ==> block[i + 8 + j] == name[j]
    {
      if block[i + 8 + k] != name[k] {
        assert EntryAt(block, i).name[k] != name[k];
        return false;
      }
    }
    return true;
  }
}
