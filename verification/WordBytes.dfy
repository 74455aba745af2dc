/**
 * Pages as bytes and as words: the machine is little-endian.
 */
module WordBytes {
  import opened Arith
  import opened BuddyAllocator
  import opened LittleEndian

  type Bytes = b: seq<u8> | |b| == 4096 witness seq(4096, _ => 0)

  function Zeros(): Bytes {
    seq(4096, _ => 0)
  }

  lemma EightBytes()
    ensures PowerOf256(8) == ADDRESS_SPACE
  {
    assert PowerOf256(2) == 0x1_0000;
    assert PowerOf256(4) == 0x1_0000_0000;
    assert PowerOf256(6) == 0x1_0000_0000_0000;
  }

  /** Word i of a page of bytes. */
  function Word(bytes: Bytes, i: nat): u64
    requires i < 512
  {
    LeBound(bytes, 8 * i, 8);
    EightBytes();
    Le(bytes, 8 * i, 8)
  }

  function ToWords(bytes: Bytes): Page {
    seq(512, i requires 0 <= i < 512 => Word(bytes, i))
  }

  /** Byte k of a word. */
  function ByteOf(w: nat, k: nat): u8 {
    if k == 0 then w % 256 else ByteOf(w / 256, k - 1)
  }

  /** The byte the processor reads at offset j of a page. */
  function ByteIn(page: Page, j: nat): u8
    requires j < 4096
  {
    ByteOf(page[j / 8], j % 8)
  }

  lemma {:induction false} ByteOfLe(b: seq<u8>, at: nat, n: nat, k: nat)
    requires at + n <= |b| && k < n
    ensures ByteOf(Le(b, at, n), k) == b[at + k]
    decreases n
  {
    if k > 0 { ByteOfLe(b, at + 1, n - 1, k - 1); }
  }

  /** Reading a byte of the words stored gives the byte written. */
  lemma ByteInWords(bytes: Bytes, j: nat)
    requires j < 4096
    ensures ByteIn(ToWords(bytes), j) == bytes[j]
  {
    ByteOfLe(bytes, 8 * (j / 8), 8, j % 8);
    assert 8 * (j / 8) + j % 8 == j;
  }

  lemma {:induction false} LeZero(b: seq<u8>, at: nat, n: nat)
    requires at + n <= |b| && forall i :: 0 <= i < |b| ==> b[i] == 0
    ensures Le(b, at, n) == 0
    decreases n
  {
    if n > 0 { LeZero(b, at + 1, n - 1); }
  }

  lemma ZeroWords()
    ensures ToWords(Zeros()) == Filled(0)
  {
    forall i | 0 <= i < 512 ensures Word(Zeros(), i) == 0 {
      LeZero(Zeros(), 8 * i, 8);
    }
  }

  lemma {:induction false} ZeroByteOf(k: nat)
    ensures ByteOf(0, k) == 0
  {
    if k > 0 { ZeroByteOf(k - 1); }
  }

  lemma ZeroByte(j: nat)
    requires j < 4096
    ensures ByteIn(Filled(0), j) == 0
  {
    ZeroByteOf(j % 8);
  }
}
