/**
 * Open files shared by descriptors: every process has a row of 32 slots, a slot holds a file or 0, and
 * a file counts the slots that hold it. The system calls are methods; what they do to the slots is
 * stated on the sequence of all slots, from which the counts follow.
 */
module Files {
  type Slots = s: seq<nat> | |s| == 2048 witness seq(2048, _ => 0)
  type Pid = p: nat | p < 64
  type Fd = d: nat | d < 32

  /** A process slot as far as its files go: unused, being created, in use, exited and not yet waited for. */
  datatype Life = Unused | Embryo | Alive | Zombie {
    predicate MayHold() {
      Embryo? || Alive?
    }
  }

  type Lives = s: seq<Life> | |s| == 64 witness seq(64, _ => Unused)

  function Index(p: Pid, fd: Fd): (i: nat)
    ensures i < 2048
  {
    p * 32 + fd
  }

  /** fd is the least descriptor of p with an empty slot (32: there is none). */
  ghost predicate FirstFree(s: Slots, p: Pid, fd: nat) {
    && fd <= 32 && (fd < 32 ==> s[Index(p, fd)] == 0)
    && forall d: Fd :: d < fd ==> s[Index(p, d)] != 0
  }

  /** The slots after fd_alloc. */
  ghost function Placed(s: Slots, p: Pid, fd: nat, f: nat): Slots {
    if fd < 32 then s[Index(p, fd) := f] else s
  }

  /** s' has the first n slots of row p as in row q of s, and is otherwise s. */
  ghost predicate RowCopied(s: Slots, s': Slots, p: Pid, q: Pid, n: nat) {
    && (forall d: Fd :: s'[Index(p, d)] == if d < n then s[Index(q, d)] else s[Index(p, d)])
    && forall r: Pid, d: Fd :: r != p ==> s'[Index(r, d)] == s[Index(r, d)]
  }

  /** s' has the first n slots of row p empty, and is otherwise s. */
  ghost predicate RowCleared(s: Slots, s': Slots, p: Pid, n: nat) {
    && (forall d: Fd :: s'[Index(p, d)] == if d < n then 0 else s[Index(p, d)])
    && forall r: Pid, d: Fd :: r != p ==> s'[Index(r, d)] == s[Index(r, d)]
  }

  ghost predicate RowEmpty(s: Slots, p: Pid) {
    forall d: Fd :: s[Index(p, d)] == 0
  }

  /** Every index belongs to one row and one descriptor. */
  lemma Unindex(i: nat) returns (p: Pid, fd: Fd)
    requires i < 2048
    ensures Index(p, fd) == i
  {
    p, fd := i / 32, i % 32;
  }

  /** A table is its rows. */
  lemma SameSlots(s: Slots, t: Slots)
    requires forall p: Pid, d: Fd :: s[Index(p, d)] == t[Index(p, d)]
    ensures s == t
  {
    forall i | 0 <= i < 2048 ensures s[i] == t[i] {
      var p, d := Unindex(i);
    }
  }

  /** Fork followed by the child's exit leaves every slot as it was. */
  lemma ForkExit(s: Slots, forked: Slots, exited: Slots, parent: Pid, child: Pid)
    requires RowEmpty(s, child) && RowCopied(s, forked, child, parent, 32) && RowCleared(forked, exited, child, 32)
    ensures exited == s
  {
    forall p: Pid, d: Fd ensures exited[Index(p, d)] == s[Index(p, d)] {
    }
    SameSlots(exited, s);
  }

  /** Closing the descriptor that open or dup returned leaves every slot as it was. */
  lemma PlaceClose(s: Slots, p: Pid, fd: nat, f: nat)
    requires FirstFree(s, p, fd) && fd < 32
    ensures Placed(s, p, fd, f)[Index(p, fd) := 0] == s
  {
  }

  lemma CountUpdate(s: seq<nat>, i: nat, f: nat, g: nat)
    requires i < |s|
    ensures multiset(s[i := f])[g] == multiset(s)[g] - (if s[i] == g then 1 else 0) + (if f == g then 1 else 0)
  {
    assert multiset(s[i := f]) == multiset(s) - multiset{s[i]} + multiset{f};
  }

  class FileTable {
    const files: array<nat>
    var refcnt: map<nat, nat>
    var lives: Lives
    /** The references that the running call holds in its local variables. */
    ghost var held: multiset<nat>

    ghost function View(): Slots
      requires files.Length == 2048
      reads this, files
    {
      files[..]
    }

    function Count(f: nat): nat
      reads this
    {
      if f in refcnt then refcnt[f] else 0
    }

    /** Each file counts the slots and local variables that hold it, and exists while there are any. */
    ghost predicate Counted()
      reads this, files
    {
      && (forall f :: f != 0 ==> Count(f) == multiset(files[..])[f] + held[f])
      && (forall f :: f in refcnt ==> f != 0 && refcnt[f] > 0) && 0 !in held
    }

    /** Only processes that are being created or in use have files. */
    ghost predicate Valid()
      reads this, files
      ensures Valid() ==> files.Length == 2048
    {
      files.Length == 2048 && Counted() && forall p: Pid :: !lives[p].MayHold() ==> RowEmpty(View(), p)
    }

    /** Between calls: nothing is held outside the slots. */
    ghost predicate Ok()
      reads this, files
    {
      Valid() && held == multiset{}
    }

    constructor ()
      ensures Ok() && fresh(files) && lives == seq(64, _ => Unused) && refcnt == map[]
    {
      files := new nat[2048](_ => 0);
      refcnt := map[];
      lives := seq(64, _ => Unused);
      held := multiset{};
      new;
      forall f | f != 0 ensures multiset(files[..])[f] == 0 {
        assert f !in files[..];
      }
    }

    /** What the invariant says of a file in a slot. */
    lemma SlotHeld(p: Pid, fd: Fd)
      requires Valid() && files[Index(p, fd)] != 0
      ensures files[Index(p, fd)] in refcnt && (lives[p] == Embryo || lives[p] == Alive)
    {
      var f := files[Index(p, fd)];
      assert f in files[..];
      assert multiset(files[..])[f] > 0;
      assert RowEmpty(View(), p) ==> f == 0;
    }

    /** Between calls a file exists exactly while some slot holds it, and counts those slots. */
    lemma FreedWithLastSlot(f: nat)
      requires Ok() && f != 0
      ensures f in refcnt <==> f in View()
      ensures f in refcnt ==> refcnt[f] == multiset(View())[f] && refcnt[f] <= 2048
    {
      assert f in View() <==> multiset(View())[f] > 0;
      CountBound(View(), f);
    }

    static lemma {:induction false} CountBound(s: seq<nat>, f: nat)
      ensures multiset(s)[f] <= |s|
    {
      if s != [] {
        CountBound(s[..|s| - 1], f);
        assert s == s[..|s| - 1] + [s[|s| - 1]];
      }
    }

    /** vfs_file_get */
    method FileGet(f: nat)
      requires Valid() && f in refcnt
      modifies this`refcnt, this`held
      ensures Valid() && View() == old(View()) && held == old(held) + multiset{f}
      ensures refcnt == old(refcnt)[f := old(refcnt)[f] + 1]
    {
      refcnt := refcnt[f := refcnt[f] + 1];
      held := held + multiset{f};
    }

    /** vfs_close, with a driver's close that does not fail: drop one reference, free the file with the last. */
    method VfsClose(f: nat)
      requires Valid() && f in held
      modifies this`refcnt, this`held
      ensures Valid() && View() == old(View()) && held == old(held) - multiset{f}
      ensures f in old(refcnt)
      ensures refcnt == if old(refcnt)[f] == 1 then old(refcnt) - {f} else old(refcnt)[f := old(refcnt)[f] - 1]
    {
      assert Count(f) > 0;
      if refcnt[f] == 1 {
        refcnt := refcnt - {f};
      } else {
        refcnt := refcnt[f := refcnt[f] - 1];
      }
      held := held - multiset{f};
    }

    /** A file is allocated at an address no other file has. */
    method NewFile(f: nat)
      requires Valid() && f != 0 && f !in refcnt
      modifies this`refcnt, this`held
      ensures Valid() && View() == old(View()) && held == old(held) + multiset{f} && refcnt == old(refcnt)[f := 1]
    {
      assert Count(f) == 0;
      refcnt := refcnt[f := 1];
      held := held + multiset{f};
    }

    /** p->files[fd] = f: the slot takes the reference to f and gives up the one it had. */
    method SetSlot(p: Pid, fd: Fd, f: nat)
      requires Valid() && (f != 0 ==> f in held && lives[p].MayHold())
      modifies files, this`held
      ensures Valid() && View() == old(View())[Index(p, fd) := f]
      ensures var was := old(View())[Index(p, fd)];
              held == old(held) - (if f != 0 then multiset{f} else multiset{})
                + (if was != 0 then multiset{was} else multiset{})
    {
      var i := Index(p, fd);
      ghost var was := files[i];
      files[i] := f;
      held := held - (if f != 0 then multiset{f} else multiset{}) + (if was != 0 then multiset{was} else multiset{});
      Recounted(refcnt, old(files[..]), old(held), i, f, held);
      assert files[..] == old(files[..])[i := f];
      RowsKept(old(View()), View(), p, fd, f);
    }

    static lemma Recounted(counts: map<nat, nat>, s: seq<nat>, held: multiset<nat>, i: nat, f: nat,
                           held': multiset<nat>)
      requires i < |s| && (f != 0 ==> f in held)
      requires held' == held - (if f != 0 then multiset{f} else multiset{})
               + (if s[i] != 0 then multiset{s[i]} else multiset{})
      requires forall g :: g != 0 ==> (if g in counts then counts[g] else 0) == multiset(s)[g] + held[g]
      ensures forall g :: g != 0 ==> (if g in counts then counts[g] else 0) == multiset(s[i := f])[g] + held'[g]
      ensures 0 !in held ==> 0 !in held'
    {
      forall g
        ensures multiset(s[i := f])[g] == multiset(s)[g] - (if s[i] == g then 1 else 0) + (if f == g then 1 else 0)
      {
        CountUpdate(s, i, f, g);
      }
    }

    /** Only row p changes. */
    static lemma RowsKept(s: Slots, s': Slots, p: Pid, fd: Fd, f: nat)
      requires s' == s[Index(p, fd) := f]
      ensures forall q: Pid :: RowEmpty(s, q) && (q != p || f == 0) ==> RowEmpty(s', q)
    {
    }

    /** fd_alloc: the least empty slot takes the file; -1 if there is none. */
    method FdAlloc(p: Pid, f: nat) returns (fd: int)
      requires Valid() && f in held && lives[p].MayHold()
      modifies files, this`held
      ensures Valid() && -1 <= fd < 32 && FirstFree(old(View()), p, if fd < 0 then 32 else fd)
      ensures View() == Placed(old(View()), p, if fd < 0 then 32 else fd, f)
      ensures held == if fd < 0 then old(held) else old(held) - multiset{f}
    {
      for i := 0 to 32
        invariant View() == old(View()) && held == old(held) && Valid()
        invariant forall d: Fd :: d < i ==> files[Index(p, d)] != 0
      {
        if files[Index(p, i)] == 0 {
          SetSlot(p, i, f);
          return i;
        }
      }
      return -1;
    }

    /** fd_get */
    function FdGet(p: Pid, fd: int): nat
      requires files.Length == 2048
      reads this, files
    {
      if fd < 0 || fd >= 32 then 0 else files[Index(p, fd)]
    }

    /** Close the file in a slot, if there is one. */
    method Clear(p: Pid, fd: Fd)
      requires Ok()
      modifies files, this`refcnt, this`held
      ensures Ok() && View() == old(View())[Index(p, fd) := 0]
    {
      hide Counted, Index;
      var f := files[Index(p, fd)];
      assert View()[Index(p, fd)] == f;
      if f != 0 {
        SetSlot(p, fd, 0);
        assert held == multiset{f};
        VfsClose(f);
      }
    }

    /** Let an empty slot share a file that some slot holds. */
    method Share(p: Pid, fd: Fd, f: nat)
      requires Ok() && lives[p].MayHold() && View()[Index(p, fd)] == 0 && f in refcnt
      modifies files, this`refcnt, this`held
      ensures Ok() && View() == old(View())[Index(p, fd) := f]
    {
      assert f != 0;
      hide Counted, Index;
      FileGet(f);
      assert held == multiset{f};
      SetSlot(p, fd, f);
    }

    /** Put a new file in an empty slot. */
    method Adopt(p: Pid, fd: Fd, f: nat)
      requires Ok() && lives[p].MayHold() && View()[Index(p, fd)] == 0 && f != 0 && f !in refcnt
      modifies files, this`refcnt, this`held
      ensures Ok() && View() == old(View())[Index(p, fd) := f] && refcnt == old(refcnt)[f := 1]
    {
      hide Counted, Index;
      NewFile(f);
      assert held == multiset{f};
      SetSlot(p, fd, f);
    }

    /** sys_open; found is what vfs_open gave: a new file, or 0. */
    method SysOpen(p: Pid, found: nat) returns (r: int)
      requires Ok() && lives[p].Alive? && found !in refcnt
      modifies files, this`refcnt, this`held
      ensures Ok()
      ensures found == 0 ==> r == -1 && View() == old(View())
      ensures found != 0 ==>
                && -1 <= r < 32 && FirstFree(old(View()), p, if r < 0 then 32 else r)
                && View() == Placed(old(View()), p, if r < 0 then 32 else r, found)
    {
      if found == 0 { return -1; }
      NewFile(found);
      r := FdAlloc(p, found);
      if r < 0 { VfsClose(found); }
    }

    /** sys_close */
    method SysClose(p: Pid, fd: int) returns (r: int)
      requires Ok() && lives[p].Alive?
      modifies files, this`refcnt, this`held
      ensures Ok()
      ensures if 0 <= fd < 32 && old(View())[Index(p, fd)] != 0
              then r == 0 && View() == old(View())[Index(p, fd) := 0]
              else r == -1 && View() == old(View())
    {
      var f := FdGet(p, fd);
      if f == 0 { return -1; }
      SetSlot(p, fd, 0);
      VfsClose(f);
      r := 0;
    }

    /** sys_dup */
    method SysDup(p: Pid, fd: int) returns (r: int)
      requires Ok() && lives[p].Alive?
      modifies files, this`refcnt, this`held
      ensures Ok()
      ensures if 0 <= fd < 32 && old(View())[Index(p, fd)] != 0 then
                && -1 <= r < 32 && FirstFree(old(View()), p, if r < 0 then 32 else r)
                && View() == Placed(old(View()), p, if r < 0 then 32 else r, old(View())[Index(p, fd)])
              else r == -1 && View() == old(View())
    {
      var f := FdGet(p, fd);
      if f == 0 { return -1; }
      SlotHeld(p, fd);
      FileGet(f);
      r := FdAlloc(p, f);
      if r < 0 { VfsClose(f); }
    }

    /** sys_dup2: also right when the new descriptor already holds the same file. */
    method SysDup2(p: Pid, oldFd: int, newFd: int) returns (r: int)
      requires Ok() && lives[p].Alive? && newFd >= 0
      modifies files, this`refcnt, this`held
      ensures Ok()
      ensures if newFd < 32 && 0 <= oldFd < 32 && old(View())[Index(p, oldFd)] != 0
              then r == newFd && View() == old(View())[Index(p, newFd) := old(View())[Index(p, oldFd)]]
              else r == -1 && View() == old(View())
    {
      if newFd >= 32 { return -1; }
      var f := FdGet(p, oldFd);
      if f == 0 { return -1; }
      if oldFd == newFd { return newFd; }
      IndexInjectiveOr(p, oldFd, newFd);
      hide Valid, Index;
      assert View()[Index(p, oldFd)] == f;
      Clear(p, newFd);
      SlotHeld(p, oldFd);
      Share(p, newFd, f);
      r := newFd;
    }

    static lemma IndexInjectiveOr(p: Pid, fd: Fd, gd: Fd)
      requires fd != gd
      ensures Index(p, fd) != Index(p, gd)
    {
    }

    /** sys_pipe; reader and writer are the two files pipe_create made, or 0 if it failed. */
    method SysPipe(p: Pid, reader: nat, writer: nat) returns (r: int, rfd: int, wfd: int)
      requires Ok() && lives[p].Alive? && reader !in refcnt && writer !in refcnt
      requires if reader == 0 then writer == 0 else writer != 0 && writer != reader
      modifies files, this`refcnt, this`held
      ensures Ok() && (r == 0 || r == -1)
      ensures r == 0 ==>
                && reader != 0 && 0 <= rfd < 32 && 0 <= wfd < 32
                && FirstFree(old(View()), p, rfd) && FirstFree(Placed(old(View()), p, rfd, reader), p, wfd)
                && View() == BothPlaced(old(View()), p, rfd, wfd, reader, writer)
      ensures r == -1 ==>
                View() == old(View())
                && (reader == 0 || !exists fd: Fd, gd: Fd :: TwoFree(old(View()), p, fd, gd))
    {
      rfd, wfd := -1, -1;
      if reader == 0 { return -1, rfd, wfd; }
      rfd, wfd := PlaceBoth(p, reader, writer);
      hide *;
      TriedAll();
      if rfd < 0 || wfd < 0 {
        NoTwoFree(old(View()), View(), p, rfd, wfd, reader, writer);
        Drop(p, rfd, reader);
        VfsClose(writer);
        Settled();
        return -1, rfd, wfd;
      }
      assert held == multiset{};
      Settled();
      r := 0;
    }

    static lemma TriedAll()
      ensures forall fd :: fd >= 0 ==> Tried(fd) == fd
    {
    }

    lemma Settled()
      requires Valid() && held == multiset{}
      ensures Ok()
    {
    }

    /** The slots when fd_alloc has been called for both ends. */
    static ghost function BothPlaced(s: Slots, p: Pid, rfd: int, wfd: int, reader: nat, writer: nat): Slots {
      Placed(Placed(s, p, Tried(rfd), reader), p, Tried(wfd), writer)
    }

    /** Where fd_alloc stopped. */
    static function Tried(fd: int): nat {
      if fd < 0 then 32 else fd
    }

    method PlaceBoth(p: Pid, reader: nat, writer: nat) returns (rfd: int, wfd: int)
      requires Ok() && lives[p].Alive? && reader !in refcnt && writer !in refcnt && reader != 0 && writer != 0
               && reader != writer
      modifies files, this`refcnt, this`held
      ensures Valid() && -1 <= rfd < 32 && -1 <= wfd < 32
      ensures FirstFree(old(View()), p, Tried(rfd))
              && FirstFree(Placed(old(View()), p, Tried(rfd), reader), p, Tried(wfd))
      ensures View() == BothPlaced(old(View()), p, rfd, wfd, reader, writer)
      ensures held == (if rfd < 0 then multiset{reader} else multiset{})
              + (if wfd < 0 then multiset{writer} else multiset{})
    {
      hide Valid, Counted, Index, FirstFree, Placed;
      NewFile(reader);
      NewFile(writer);
      rfd := FdAlloc(p, reader);
      wfd := FdAlloc(p, writer);
    }

    /** Give up a file that fd_alloc did, or did not, place. */
    method Drop(p: Pid, fd: int, f: nat)
      requires Valid() && -1 <= fd < 32 && f != 0
      requires if fd < 0 then f in held else View()[Index(p, fd)] == f
      modifies files, this`refcnt, this`held
      ensures Valid() && held == if fd < 0 then old(held) - multiset{f} else old(held)
      ensures View() == if fd < 0 then old(View()) else old(View())[Index(p, fd) := 0]
    {
      hide Valid, Counted, Index;
      if fd >= 0 {
        SetSlot(p, fd, 0);
      }
      VfsClose(f);
    }

    static ghost predicate TwoFree(s: Slots, p: Pid, fd: Fd, gd: Fd) {
      fd != gd && s[Index(p, fd)] == 0 && s[Index(p, gd)] == 0
    }

    static lemma NoTwoFree(s: Slots, s': Slots, p: Pid, rfd: int, wfd: int, reader: nat, writer: nat)
      requires -1 <= rfd < 32 && -1 <= wfd < 32 && (rfd < 0 || wfd < 0) && reader != 0
      requires FirstFree(s, p, Tried(rfd)) && FirstFree(Placed(s, p, Tried(rfd), reader), p, Tried(wfd))
      requires s' == BothPlaced(s, p, rfd, wfd, reader, writer)
      ensures !exists fd: Fd, gd: Fd :: TwoFree(s, p, fd, gd)
      ensures wfd < 0 && if rfd < 0 then s' == s else s'[Index(p, rfd)] == reader && s'[Index(p, rfd) := 0] == s
      ensures var held := (if rfd < 0 then multiset{reader} else multiset{})
              + (if wfd < 0 then multiset{writer} else multiset{});
              && (rfd < 0 ==> reader in held) && (if rfd < 0 then held - multiset{reader} else held) == multiset{writer}
    {
      forall fd: Fd, gd: Fd ensures !TwoFree(s, p, fd, gd) {
        assert fd != gd ==> Index(p, fd) != Index(p, gd);
        assert rfd >= 0 && rfd != fd ==> Index(p, rfd) != Index(p, fd);
        assert rfd >= 0 && rfd != gd ==> Index(p, rfd) != Index(p, gd);
      }
    }

    /** The search of proc_alloc: the least unused slot, or 64. */
    method ProcAlloc() returns (p: nat)
      requires Ok()
      modifies this`lives
      ensures Ok() && p <= 64 && forall q: Pid :: q < p ==> !old(lives)[q].Unused?
      ensures p == 64 ==> lives == old(lives)
      ensures p < 64 ==> old(lives)[p].Unused? && lives == old(lives)[p := Embryo]
    {
      for i := 0 to 64
        invariant Ok() && lives == old(lives)
        invariant forall q: Pid :: q < i ==> !lives[q].Unused?
      {
        if lives[i].Unused? {
          lives := lives[i := Embryo];
          return i;
        }
      }
      return 64;
    }

    /** proc_fork; enough says whether there was memory for the child's stack and tables. */
    method Fork(parent: Pid, enough: bool) returns (child: nat)
      requires Ok() && lives[parent].Alive?
      modifies files, this`refcnt, this`held, this`lives
      ensures Ok() && child <= 64
      ensures child == 64 ==>
                View() == old(View()) && lives == old(lives)
                && (!enough || forall q: Pid :: !lives[q].Unused?)
      ensures child < 64 ==> old(lives)[child].Unused? && lives == old(lives)[child := Alive]
      ensures child < 64 ==> RowEmpty(old(View()), child) && RowCopied(old(View()), View(), child, parent, 32)
    {
      var p := ProcAlloc();
      if p == 64 { return 64; }
      if !enough {
        lives := lives[p := Unused];
        return 64;
      }
      CopyRow(parent, p);
      lives := lives[p := Alive];
      child := p;
    }

    /** The loop of proc_fork: the child's slots share the parent's files. */
    method CopyRow(parent: Pid, child: Pid)
      requires Ok() && lives[parent].Alive? && lives[child].Embryo? && RowEmpty(View(), child)
      modifies files, this`refcnt, this`held
      ensures Ok() && RowCopied(old(View()), View(), child, parent, 32)
    {
      for i := 0 to 32
        invariant Ok() && RowCopied(old(View()), View(), child, parent, i)
      {
        var f := files[Index(parent, i)];
        assert f == old(View())[Index(parent, i)] && files[Index(child, i)] == 0;
        ghost var s := View();
        if f != 0 {
          SlotHeld(parent, i);
          Share(child, i, f);
        }
        CopyStep(old(View()), s, View(), child, parent, i);
      }
    }

    static lemma CopyStep(s0: Slots, s: Slots, s': Slots, p: Pid, q: Pid, i: Fd)
      requires p != q && RowCopied(s0, s, p, q, i) && s0[Index(p, i)] == 0 && s' == s[Index(p, i) := s0[Index(q, i)]]
      ensures RowCopied(s0, s', p, q, i + 1)
    {
      forall r: Pid, d: Fd ensures Index(r, d) == Index(p, i) <==> r == p && d == i {
      }
    }

    /** proc_close_fds */
    method CloseFds(p: Pid)
      requires Ok()
      modifies files, this`refcnt, this`held
      ensures Ok() && RowCleared(old(View()), View(), p, 32)
    {
      for i := 0 to 32
        invariant Ok() && RowCleared(old(View()), View(), p, i)
      {
        ghost var s := View();
        Clear(p, i);
        ClearStep(old(View()), s, View(), p, i);
      }
    }

    static lemma ClearStep(s0: Slots, s: Slots, s': Slots, p: Pid, i: Fd)
      requires RowCleared(s0, s, p, i) && s' == s[Index(p, i) := 0]
      ensures RowCleared(s0, s', p, i + 1)
    {
      forall r: Pid, d: Fd ensures Index(r, d) == Index(p, i) <==> r == p && d == i {
      }
    }

    /** sys_exit: the process gives up all its files and waits to be reaped. */
    method SysExit(p: Pid)
      requires Ok() && lives[p].Alive?
      modifies files, this`refcnt, this`held, this`lives
      ensures Ok() && RowCleared(old(View()), View(), p, 32) && lives == old(lives)[p := Zombie]
    {
      CloseFds(p);
      RowsEmptied(old(View()), View(), p);
      lives := lives[p := Zombie];
    }

    static lemma RowsEmptied(s: Slots, s': Slots, p: Pid)
      requires RowCleared(s, s', p, 32)
      ensures RowEmpty(s', p)
    {
    }

    /** The part of sys_wait that gives a zombie's slot back. */
    method Reap(p: Pid)
      requires Ok() && lives[p].Zombie?
      modifies this`lives
      ensures Ok() && View() == old(View()) && lives == old(lives)[p := Unused]
    {
      lives := lives[p := Unused];
    }

    /** proc_init_fds: the console, read-only as 0, write-only as both 1 and 2. */
    method InitFds(p: Pid, input: nat, output: nat)
      requires Ok() && lives[p].Embryo? && RowEmpty(View(), p)
      requires input !in refcnt && output !in refcnt && (input == output ==> input == 0)
      modifies files, this`refcnt, this`held
      ensures Ok()
      ensures View() == old(View())[Index(p, 0) := input][Index(p, 1) := output][Index(p, 2) := output]
    {
      assert files[Index(p, 0)] == 0 && files[Index(p, 1)] == 0 && files[Index(p, 2)] == 0;
      assert Index(p, 1) == Index(p, 0) + 1 && Index(p, 2) == Index(p, 0) + 2;
      hide Valid, Index;
      if input != 0 {
        Adopt(p, 0, input);
      }
      if output != 0 {
        Adopt(p, 1, output);
        Share(p, 2, output);
      }
    }
  }
}
