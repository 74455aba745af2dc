/**
 * The data path of a pipe: a ring of 4096 bytes with two free-running 32-bit cursors, shared by any
 * number of readers and writers that take turns at the lock.
 */
module Pipe {
  import opened Arith

  const PIPE_BUF: nat := 4096

  datatype Option<T> = None | Some(value: T)

  type Ring = b: seq<u8> | |b| == 4096 witness seq(4096, _ => 0)

  /** readOpen and writeOpen count the open ends. */
  datatype PipeState = PipeState(buf: Ring, readPos: u32, writePos: u32, count: nat, readOpen: int, writeOpen: int)

  /** A 32-bit increment. */
  function Next(pos: u32): u32 {
    if pos == 0xFFFF_FFFF then 0 else pos + 1
  }

  /** The byte at the read cursor. */
  function Front(p: PipeState): u8 {
    p.buf[p.readPos % PIPE_BUF]
  }

  function Taken(p: PipeState): PipeState
    requires p.count > 0
  {
    p.(readPos := Next(p.readPos), count := p.count - 1)
  }

  function Stored(p: PipeState, b: u8): PipeState {
    p.(buf := p.buf[p.writePos % PIPE_BUF := b], writePos := Next(p.writePos), count := p.count + 1)
  }

  /** The pipe of the C structure, changed in place. */
  class Shared {
    const buf: array<u8>
    var readPos: u32
    var writePos: u32
    var count: nat
    var readOpen: int
    var writeOpen: int

    ghost predicate Valid()
      reads this
    {
      buf.Length == 4096
    }

    ghost function View(): PipeState
      requires Valid()
      reads this, buf
    {
      PipeState(buf[..], readPos, writePos, count, readOpen, writeOpen)
    }

    constructor ()
      ensures Valid() && fresh(buf) && readPos == 0 && writePos == 0 && count == 0 && readOpen == 1 && writeOpen == 1
    {
      buf := new u8[4096](_ => 0);
      readPos, writePos, count, readOpen, writeOpen := 0, 0, 0, 1, 1;
    }

    /** The section of pipe_read that finds a byte. */
    method TakeByte() returns (b: u8)
      requires Valid() && count > 0
      modifies this`readPos, this`count
      ensures Valid() && b == Front(old(View())) && View() == Taken(old(View()))
    {
      b := buf[readPos % PIPE_BUF];
      readPos := Next(readPos);
      count := count - 1;
    }

    /** The section of pipe_write that finds room. */
    method StoreByte(b: u8)
      requires Valid() && count < PIPE_BUF
      modifies buf, this`writePos, this`count
      ensures Valid() && View() == Stored(old(View()), b)
    {
      buf[writePos % PIPE_BUF] := b;
      writePos := Next(writePos);
      count := count + 1;
      assert buf[..] == old(buf[..])[old(writePos) % PIPE_BUF := b];
    }
  }

  /** A call in progress: its argument, what it has done, and its result once it has returned. */
  datatype Thread =
    | Reader(len: nat, got: seq<u8>, result: Option<int>)
    | Writer(src: seq<u8>, done: nat, result: Option<int>)

  /** taken and put are the history: which thread moved which byte, in order. */
  datatype System = System(pipe: PipeState, threads: seq<Thread>, put: seq<(nat, u8)>, taken: seq<(nat, u8)>)

  function SetThread(s: System, t: nat, r: Thread): System
    requires t < |s.threads|
  {
    s.(threads := s.threads[t := r])
  }

  /** One turn of pipe_read at the lock: take a byte, return, or find nothing and yield. */
  function ReadTurn(s: System, t: nat): System
    requires t < |s.threads| && s.threads[t].Reader? && s.threads[t].result.None?
  {
    var r := s.threads[t];
    if |r.got| >= r.len then SetThread(s, t, Reader(r.len, r.got, Some(|r.got|)))
    else if s.pipe.count == 0 then
      if s.pipe.writeOpen == 0 then SetThread(s, t, Reader(r.len, r.got, Some(|r.got|))) else s
    else
      SetThread(s, t, r.(got := r.got + [Front(s.pipe)])).(
        pipe := Taken(s.pipe), taken := s.taken + [(t, Front(s.pipe))])
  }

  /** One turn of pipe_write. */
  function WriteTurn(s: System, t: nat): System
    requires t < |s.threads| && s.threads[t].Writer? && s.threads[t].result.None?
  {
    var r := s.threads[t];
    if r.done >= |r.src| then SetThread(s, t, Writer(r.src, r.done, Some(|r.src|)))
    else if s.pipe.count == PIPE_BUF then
      if s.pipe.readOpen == 0 then SetThread(s, t, Writer(r.src, r.done, Some(-1))) else s
    else
      SetThread(s, t, r.(done := r.done + 1)).(
        pipe := Stored(s.pipe, r.src[r.done]), put := s.put + [(t, r.src[r.done])])
  }

  /** A thread's turn, or the close of an end. */
  predicate Step(s: System, s': System, t: nat) {
    || (t < |s.threads| && s.threads[t].result.None?
      && s' == if s.threads[t].Reader? then ReadTurn(s, t) else WriteTurn(s, t))
    || s' == s.(pipe := s.pipe.(readOpen := s.pipe.readOpen - 1))
    || s' == s.(pipe := s.pipe.(writeOpen := s.pipe.writeOpen - 1))
  }

  ghost predicate Init(s: System) {
    && s.pipe.readPos == 0 && s.pipe.writePos == 0 && s.pipe.count == 0 && s.put == [] && s.taken == []
    && forall t :: 0 <= t < |s.threads| ==> Fresh(s.threads[t])
  }

  predicate Fresh(r: Thread) {
    r.result.None? && if r.Reader? then r.got == [] else r.done == 0
  }

  /** The bytes of a history, and those thread t moved. */
  function Bytes(h: seq<(nat, u8)>): seq<u8> {
    seq(|h|, i requires 0 <= i < |h| => h[i].1)
  }

  function By(h: seq<(nat, u8)>, t: nat): seq<u8> {
    if h == [] then [] else By(h[..|h| - 1], t) + if h[|h| - 1].0 == t then [h[|h| - 1].1] else []
  }

  /** What is in the ring, oldest first. */
  function Contents(p: PipeState): seq<u8> {
    seq(p.count, i => p.buf[(p.readPos + i) % PIPE_BUF])
  }

  /** n reduced to 32 bits: what a free-running cursor shows after n steps. */
  function Cursor(n: nat): u32 {
    n % 0x1_0000_0000
  }

  ghost predicate ThreadOk(s: System, t: nat)
    requires t < |s.threads|
  {
    match s.threads[t]
    case Reader(len, got, result) => got == By(s.taken, t) && |got| <= len && By(s.put, t) == []
    case Writer(src, done, result) => done <= |src| && src[..done] == By(s.put, t) && By(s.taken, t) == []
  }

  /** The byte at place i of the ring is byte |taken| + i of the history. */
  predicate RingAt(p: PipeState, put: seq<(nat, u8)>, n: nat, i: nat)
    requires n + i < |put|
  {
    p.buf[(n + i) % PIPE_BUF] == put[n + i].1
  }

  ghost predicate RingOk(p: PipeState, put: seq<(nat, u8)>, n: nat) {
    && n + p.count == |put| && p.count <= PIPE_BUF
    && p.readPos == Cursor(n) && p.writePos == Cursor(|put|)
    && forall i: nat :: i < p.count ==> RingAt(p, put, n, i)
  }

  ghost predicate Inv(s: System) {
    && RingOk(s.pipe, s.put, |s.taken|) && |s.taken| <= |s.put|
    && (forall i :: 0 <= i < |s.taken| ==> s.taken[i].1 == s.put[i].1)
    && forall t :: 0 <= t < |s.threads| ==> ThreadOk(s, t)
  }

  lemma CursorNext(n: nat)
    ensures Cursor(n + 1) == Next(Cursor(n)) && Cursor(n) % PIPE_BUF == n % PIPE_BUF
  {
    var q := n / 0x1_0000_0000;
    assert n == 0x1_0000_0000 * q + Cursor(n);
    if Cursor(n) == 0xFFFF_FFFF {
      assert n + 1 == 0x1_0000_0000 * (q + 1);
    } else {
      assert n + 1 == 0x1_0000_0000 * q + (Cursor(n) + 1);
    }
    assert n == 4096 * (0x10_0000 * q) + Cursor(n);
  }

  /** Places less than 4096 apart are different. */
  lemma Apart(n: nat, i: nat, j: nat)
    requires i < j < i + PIPE_BUF
    ensures (n + i) % PIPE_BUF != (n + j) % PIPE_BUF
  {
  }

  lemma TakeRing(p: PipeState, put: seq<(nat, u8)>, n: nat)
    requires RingOk(p, put, n) && p.count > 0
    ensures RingOk(Taken(p), put, n + 1) && Front(p) == put[n].1
  {
    CursorNext(n);
    assert RingAt(p, put, n, 0);
    var p', m := Taken(p), n + 1;
    forall i: nat | i < p'.count ensures RingAt(p', put, m, i) {
      assert RingAt(p, put, n, i + 1);
    }
  }

  lemma StoreRing(p: PipeState, put: seq<(nat, u8)>, n: nat, t: nat, b: u8)
    requires RingOk(p, put, n) && p.count < PIPE_BUF
    ensures RingOk(Stored(p, b), put + [(t, b)], n)
  {
    CursorNext(|put|);
    var p', put' := Stored(p, b), put + [(t, b)];
    forall i: nat | i < p'.count ensures RingAt(p', put', n, i) {
      if i < p.count {
        assert RingAt(p, put, n, i);
        Apart(n, i, p.count);
      }
    }
  }

  lemma ByMore(h: seq<(nat, u8)>, t: nat, b: u8, u: nat)
    ensures By(h + [(t, b)], u) == if u == t then By(h, u) + [b] else By(h, u)
  {
    assert (h + [(t, b)])[..|h|] == h;
  }

  /** Every turn keeps order, cursors and each thread's account. */
  lemma StepInv(s: System, s': System, t: nat)
    requires Inv(s) && Step(s, s', t)
    ensures Inv(s')
  {
    if t < |s.threads| && s.threads[t].result.None? && s.threads[t].Reader? && s' == ReadTurn(s, t) {
      ReadInv(s, t);
    } else if t < |s.threads| && s.threads[t].result.None? && s.threads[t].Writer? && s' == WriteTurn(s, t) {
      WriteInv(s, t);
    } else {
      forall i: nat | i < s.pipe.count ensures RingAt(s'.pipe, s.put, |s.taken|, i) {
        assert RingAt(s.pipe, s.put, |s.taken|, i);
      }
      forall u | 0 <= u < |s'.threads| ensures ThreadOk(s', u) {
        assert ThreadOk(s, u);
      }
    }
  }

  lemma ReadInv(s: System, t: nat)
    requires Inv(s) && t < |s.threads| && s.threads[t].Reader? && s.threads[t].result.None?
    ensures Inv(ReadTurn(s, t))
  {
    var r, s' := s.threads[t], ReadTurn(s, t);
    assert ThreadOk(s, t);
    if |r.got| < r.len && s.pipe.count > 0 {
      TakeRing(s.pipe, s.put, |s.taken|);
    }
    hide RingOk, Front, Taken;
    forall u | 0 <= u < |s'.threads| ensures ThreadOk(s', u) {
      assert ThreadOk(s, u);
      ByMore(s.taken, t, Front(s.pipe), u);
    }
  }

  lemma WriteInv(s: System, t: nat)
    requires Inv(s) && t < |s.threads| && s.threads[t].Writer? && s.threads[t].result.None?
    ensures Inv(WriteTurn(s, t))
  {
    var r, s' := s.threads[t], WriteTurn(s, t);
    assert ThreadOk(s, t);
    if r.done < |r.src| && s.pipe.count != PIPE_BUF {
      StoreRing(s.pipe, s.put, |s.taken|, t, r.src[r.done]);
      assert r.src[..r.done + 1] == r.src[..r.done] + [r.src[r.done]];
    }
    hide RingOk, Stored;
    forall u | 0 <= u < |s'.threads| ensures ThreadOk(s', u) {
      assert ThreadOk(s, u);
      if r.done < |r.src| { ByMore(s.put, t, r.src[r.done], u); }
    }
  }

  ghost predicate IsRun(ss: seq<System>, ts: seq<nat>) {
    && |ss| == |ts| + 1 && Init(ss[0])
    && forall i :: 0 <= i < |ts| ==> Step(ss[i], ss[i + 1], ts[i])
  }

  lemma {:induction false} RunInv(ss: seq<System>, ts: seq<nat>, n: nat)
    requires IsRun(ss, ts) && n < |ss|
    ensures Inv(ss[n])
  {
    if n == 0 {
      forall t | 0 <= t < |ss[0].threads| ensures ThreadOk(ss[0], t) {
        assert Fresh(ss[0].threads[t]);
      }
    } else {
      RunInv(ss, ts, n - 1);
      hide Inv, Init;
      assert Step(ss[n - 1], ss[n], ts[n - 1]);
      StepInv(ss[n - 1], ss[n], ts[n - 1]);
    }
  }

  /**
   * In every interleaving the bytes taken are a prefix of the bytes put, the rest is what the ring
   * holds, and the count is the distance of the cursors, however often they have wrapped.
   */
  lemma FirstInFirstOut(ss: seq<System>, ts: seq<nat>, n: nat)
    requires IsRun(ss, ts) && n < |ss|
    ensures var s := ss[n];
            && Bytes(s.put) == Bytes(s.taken) + Contents(s.pipe)
            && s.pipe.count <= 4096 && s.pipe.count == (s.pipe.writePos - s.pipe.readPos) % 0x1_0000_0000
  {
    RunInv(ss, ts, n);
    var s := ss[n];
    hide IsRun, ThreadOk;
    var taken := |s.taken|;
    forall i | 0 <= i < |s.put| ensures Bytes(s.put)[i] == (Bytes(s.taken) + Contents(s.pipe))[i] {
      if i >= taken {
        assert RingAt(s.pipe, s.put, taken, i - taken);
        PlaceInRing(taken, i - taken);
      }
    }
    Distance(taken, s.pipe.count);
  }

  lemma PlaceInRing(n: nat, i: nat)
    ensures (Cursor(n) + i) % PIPE_BUF == (n + i) % PIPE_BUF
  {
    var k, x := 0x10_0000 * (n / 0x1_0000_0000), Cursor(n) + i;
    assert n + i == 4096 * k + x;
    DivUnique(n + i, 4096, k + x / 4096, x % 4096);
  }

  lemma Distance(n: nat, c: nat)
    requires c < 0x1_0000_0000
    ensures (Cursor(n + c) - Cursor(n)) % 0x1_0000_0000 == c
  {
    var d := 0x1_0000_0000;
    var q, r := n / d, (n + c) / d;
    assert n + c - d * r - (n - d * q) == c + d * (q - r);
  }

  /** What a reader has got, and a writer has handed over, is its share of the history, in order. */
  lemma OwnShare(ss: seq<System>, ts: seq<nat>, n: nat, t: nat)
    requires IsRun(ss, ts) && n < |ss| && t < |ss[n].threads|
    ensures var s := ss[n]; match s.threads[t]
      case Reader(len, got, _) => got == By(s.taken, t) && |got| <= len
      case Writer(src, done, _) => done <= |src| && src[..done] == By(s.put, t)
  {
    RunInv(ss, ts, n);
    assert ThreadOk(ss[n], t);
  }

  /** With one reader, it has got exactly what was taken. */
  lemma {:induction false} OnlyReader(h: seq<(nat, u8)>, t: nat)
    requires forall i :: 0 <= i < |h| ==> h[i].0 == t
    ensures By(h, t) == Bytes(h)
  {
    if h != [] {
      OnlyReader(h[..|h| - 1], t);
      assert Bytes(h) == Bytes(h[..|h| - 1]) + [h[|h| - 1].1];
    }
  }

  /**
   * A read returns less than it asked for only on finding the pipe empty with the write end closed; a
   * write fails only on finding it full with the read end closed; otherwise they return all.
   */
  lemma ShortReturns(s: System, s': System, t: nat, u: nat)
    requires Inv(s) && Step(s, s', t) && u < |s.threads| == |s'.threads| && s.threads[u].result.None?
             && s'.threads[u].result.Some?
    ensures match s'.threads[u]
      case Reader(len, got, Some(r)) => r == |got| && (r < len ==> s.pipe.count == 0 && s.pipe.writeOpen == 0)
      case Writer(src, done, Some(r)) =>
        if r == -1 then done < |src| && s.pipe.count == 4096 && s.pipe.readOpen == 0 else r == |src| == done
      case _ => false
  {
    assert ThreadOk(s, u);
  }

  /**
   * A turn leaves its thread as it was only while it has to wait: a reader of more bytes for one to
   * come into the empty pipe, a writer of more bytes for room among the 4096. Otherwise the thread moves
   * one byte, or returns.
   */
  lemma WaitsOnly(s: System, t: nat)
    requires Inv(s) && t < |s.threads| && s.threads[t].result.None?
    ensures match s.threads[t]
      case Reader(len, got, _) =>
        var s' := ReadTurn(s, t);
        if |got| < len && s.pipe.count > 0 then |s'.taken| == |s.taken| + 1 && s'.threads[t].result.None?
        else s'.threads[t].result.None? <==> |got| < len && s.pipe.count == 0 && s.pipe.writeOpen != 0
      case Writer(src, done, _) =>
        var s' := WriteTurn(s, t);
        if done < |src| && s.pipe.count < 4096 then |s'.put| == |s.put| + 1 && s'.threads[t].result.None?
        else s'.threads[t].result.None? <==> done < |src| && s.pipe.count == 4096 && s.pipe.readOpen != 0
  {
    hide RingAt, Taken, Stored;
    assert RingOk(s.pipe, s.put, |s.taken|);
  }
}
