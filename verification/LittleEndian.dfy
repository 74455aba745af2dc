/**
 * Little-endian numbers and packed structures: reading a field of a structure is the inverse of
 * writing the structure's fields one after the other.
 */
module LittleEndian {
  import opened Arith

  /** The n-byte little-endian number at byte at. */
  function Le(b: seq<u8>, at: nat, n: nat): nat
    requires at + n <= |b|
    decreases n
  {
    if n == 0 then 0 else b[at] + 256 * Le(b, at + 1, n - 1)
  }

  function PowerOf256(n: nat): nat {
    if n == 0 then 1 else 256 * PowerOf256(n - 1)
  }

  lemma {:induction false} LeBound(b: seq<u8>, at: nat, n: nat)
    requires at + n <= |b|
    ensures Le(b, at, n) < PowerOf256(n)
    decreases n
  {
    if n > 0 { LeBound(b, at + 1, n - 1); }
  }

  /** The least significant byte comes first. */
  lemma HalfValues(b: seq<u8>, at: nat)
    requires at + 2 <= |b|
    ensures var b0: int, b1: int := b[at], b[at + 1];
            Le(b, at, 2) == b0 + 0x100 * b1 < 0x1_0000
  {
    assert Le(b, at + 1, 1) == b[at + 1];
  }

  lemma WordValues(b: seq<u8>, at: nat)
    requires at + 4 <= |b|
    ensures var b0: int, b1: int, b2: int, b3: int := b[at], b[at + 1], b[at + 2], b[at + 3];
            Le(b, at, 4) == b0 + 0x100 * b1 + 0x1_0000 * b2 + 0x100_0000 * b3 < 0x1_0000_0000
  {
    HalfValues(b, at + 2);
    var b1: int := b[at + 1];
    assert Le(b, at + 1, 3) == b1 + 256 * Le(b, at + 2, 2);
  }

  /** A number written in n little-endian bytes. */
  function LeBytes(v: nat, n: nat): (s: seq<u8>)
    ensures |s| == n
  {
    if n == 0 then [] else [v % 256] + LeBytes(v / 256, n - 1)
  }

  /** Reading the bytes of a number gives the number. */
  lemma {:induction false} LeOfBytes(b: seq<u8>, at: nat, v: nat, n: nat)
    requires at + n <= |b| && b[at..at + n] == LeBytes(v, n) && v < PowerOf256(n)
    ensures Le(b, at, n) == v
    decreases n
  {
    if n > 0 {
      var s := b[at..at + n];
      assert s[0] == b[at] && s[1..] == b[at + 1..at + n] && LeBytes(v, n)[1..] == LeBytes(v / 256, n - 1);
      LeOfBytes(b, at + 1, v / 256, n - 1);
    }
  }

  /** A field of a packed structure: its value and its size in bytes. */
  datatype Field = Field(value: nat, size: nat)

  /** The bytes of the first k fields. */
  function Packed(fields: seq<Field>, k: nat): seq<u8>
    requires k <= |fields|
  {
    if k == 0 then [] else Packed(fields, k - 1) + LeBytes(fields[k - 1].value, fields[k - 1].size)
  }

  /** Where field k starts. */
  function Offset(fields: seq<Field>, k: nat): nat
    requires k <= |fields|
  {
    if k == 0 then 0 else Offset(fields, k - 1) + fields[k - 1].size
  }

  predicate Fits(f: Field) {
    f.value < PowerOf256(f.size)
  }

  predicate Fitting(fields: seq<Field>) {
    forall k :: 0 <= k < |fields| ==> Fits(fields[k])
  }

  lemma {:induction false} PackedPrefix(fields: seq<Field>, k: nat, n: nat)
    requires k <= n <= |fields|
    ensures |Packed(fields, k)| == Offset(fields, k) <= |Packed(fields, n)|
    ensures Packed(fields, n)[..Offset(fields, k)] == Packed(fields, k)
    decreases n
  {
    if k < n {
      PackedPrefix(fields, k, n - 1);
    } else if n > 0 {
      PackedPrefix(fields, n - 1, n - 1);
    }
  }

  /** Reading a field of a structure that lies in memory gives the field. */
  lemma FieldRead(b: seq<u8>, at: nat, fields: seq<Field>, k: nat)
    requires Fitting(fields) && k < |fields| && at + |Packed(fields, |fields|)| <= |b|
    requires b[at..at + |Packed(fields, |fields|)|] == Packed(fields, |fields|)
    ensures at + Offset(fields, k) + fields[k].size <= |b|
    ensures Le(b, at + Offset(fields, k), fields[k].size) == fields[k].value
  {
    assert Fits(fields[k]);
    var all, o, n := Packed(fields, |fields|), Offset(fields, k), fields[k].size;
    var next := k + 1;
    PackedPrefix(fields, k, |fields|);
    PackedPrefix(fields, next, |fields|);
    PackedPrefix(fields, k, next);
    assert Offset(fields, next) == o + n;
    assert Packed(fields, next) == Packed(fields, k) + LeBytes(fields[k].value, n);
    assert all[..o + n][o..] == LeBytes(fields[k].value, n);
    SliceAt(b, at, all, o, n);
    LeOfBytes(b, at + o, fields[k].value, n);
  }

  lemma SliceAt(b: seq<u8>, at: nat, all: seq<u8>, o: nat, n: nat)
    requires at + |all| <= |b| && b[at..at + |all|] == all && o + n <= |all|
    ensures b[at + o..at + o + n] == all[..o + n][o..]
  {
    var x, y := b[at + o..at + o + n], all[..o + n][o..];
    assert |x| == |y|;
    forall i | 0 <= i < n ensures x[i] == y[i] {
      assert all[o + i] == b[at..at + |all|][o + i];
    }
  }
}
