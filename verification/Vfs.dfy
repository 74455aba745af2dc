/**
 * Path resolution over a stack of mounts: splitting a path, walking it, its parent/leaf variant, and
 * what mounting a file system does to it. Paths have no ".." component.
 */
module Vfs {
  const VFS_ENOENT: int := -2
  const VFS_ENOMEM: int := -12
  const VFS_ENOTDIR: int := -20
  const VFS_EINVAL: int := -22
  const VFS_ENOSYS: int := -38
  const NAME_SIZE: nat := 256

  datatype Option<T> = None | Some(value: T)
  /** Failures are negative codes. */
  type Code = c: int | c < 0 witness -1

  datatype Result<T> = Ok(value: T) | Err(rc: Code)

  /** An inode as mount lookup compares it: its number and its superblock. */
  datatype Inode = Inode(ino: nat, sb: nat)

  /** A directory entry: the root entry of a superblock, or a temporary one made by a lookup. */
  datatype Dentry = Dentry(isRoot: bool, inode: Inode)

  /** point is the entry mounted on (None for the first mount), root the inode of the mounted root. */
  datatype Mount = Mount(point: Option<Dentry>, root: Inode)

  /** What the file systems say; lookup gives an error, no inode, or an inode. */
  datatype FileSystems = FileSystems(
    isDir: Inode -> bool,
    hasLookup: Inode -> bool,
    lookup: (Inode, string) -> Result<Option<Inode>>)

  datatype Place = Place(mnt: Mount, dentry: Dentry)

  function RootOf(m: Mount): Dentry {
    Dentry(true, m.root)
  }

  /* ---- splitting ---- */

  /** The first index from i on that is not a slash. */
  function Skip(p: string, i: nat): (j: nat)
    requires i <= |p|
    ensures i <= j <= |p| && (j < |p| ==> p[j] != '/')
    decreases |p| - i
  {
    if i < |p| && p[i] == '/' then Skip(p, i + 1) else i
  }

  /** The first index from i on that is a slash. */
  function WordEnd(p: string, i: nat): (j: nat)
    requires i <= |p|
    ensures i <= j <= |p| && (i < |p| && p[i] != '/' ==> i < j)
    decreases |p| - i
  {
    if i < |p| && p[i] != '/' then WordEnd(p, i + 1) else i
  }

  /** The components from index i on: the longest stretches without a slash. */
  function Components(p: string, i: nat): seq<string>
    requires i <= |p|
    decreases |p| - i
  {
    var s := Skip(p, i);
    if s == |p| then [] else [p[s..WordEnd(p, s)]] + Components(p, WordEnd(p, s))
  }

  function Split(p: string): seq<string> {
    Components(p, 0)
  }

  lemma {:induction false} SkipRun(p: string, i: nat, q: string, k: nat)
    requires i <= |p| && k + |p| <= |q| && q[k..k + |p|] == p && (k + |p| < |q| ==> q[k + |p|] == '/')
    ensures Skip(p, i) < |p| ==> Skip(q, k + i) == k + Skip(p, i)
    ensures Skip(p, i) == |p| ==> Skip(q, k + i) == Skip(q, k + |p|)
    decreases |p| - i
  {
    if i < |p| {
      assert q[k + i] == q[k..k + |p|][i];
      if p[i] == '/' { SkipRun(p, i + 1, q, k); }
    }
  }

  lemma {:induction false} WordRun(p: string, i: nat, q: string, k: nat)
    requires i <= |p| && k + |p| <= |q| && q[k..k + |p|] == p && (k + |p| < |q| ==> q[k + |p|] == '/')
    ensures WordEnd(q, k + i) == k + WordEnd(p, i)
    decreases |p| - i
  {
    if i < |p| {
      assert q[k + i] == q[k..k + |p|][i];
      if p[i] != '/' { WordRun(p, i + 1, q, k); }
    }
  }

  /** The components of a stretch that a slash or the end follows come before those after it. */
  lemma {:induction false} ComponentsRun(p: string, i: nat, q: string, k: nat)
    requires i <= |p| && k + |p| <= |q| && q[k..k + |p|] == p && (k + |p| < |q| ==> q[k + |p|] == '/')
    ensures Components(q, k + i) == Components(p, i) + Components(q, k + |p|)
    decreases |p| - i
  {
    hide *;
    SkipRun(p, i, q, k);
    var s := Skip(p, i);
    ComponentsStep(p, i);
    if s < |p| {
      var e := WordEnd(p, s);
      WordRun(p, s, q, k);
      ComponentsStep(q, k + i);
      SliceOf(p, s, e, q, k);
      ComponentsRun(p, e, q, k);
      Joined([p[s..e]], Components(p, e), Components(q, k + |p|));
    } else {
      SameSkip(q, k + i, k + |p|);
    }
  }

  lemma ComponentsStep(p: string, i: nat)
    requires i <= |p|
    ensures Components(p, i) == if Skip(p, i) == |p| then []
            else [p[Skip(p, i)..WordEnd(p, Skip(p, i))]] + Components(p, WordEnd(p, Skip(p, i)))
  {
  }

  lemma SliceOf(p: string, s: nat, e: nat, q: string, k: nat)
    requires s <= e <= |p| && k + |p| <= |q| && q[k..k + |p|] == p
    ensures q[k + s..k + e] == p[s..e]
  {
    forall i | 0 <= i < e - s ensures q[k + s..k + e][i] == p[s..e][i] {
      assert q[k..k + |p|][s + i] == q[k + s + i];
    }
  }

  lemma Joined(a: seq<string>, b: seq<string>, c: seq<string>)
    ensures a + (b + c) == (a + b) + c
  {
  }

  lemma SameSkip(q: string, i: nat, j: nat)
    requires i <= |q| && j <= |q| && Skip(q, i) == Skip(q, j)
    ensures Components(q, i) == [] + Components(q, j)
  {
  }

  lemma {:induction false} ComponentsTail(q: string, k: nat, i: nat)
    requires k + i <= |q|
    ensures Components(q, k + i) == Components(q[k..], i)
  {
    ComponentsRun(q[k..], i, q, k);
    assert Components(q, |q|) == [];
  }

  /** Joining with a slash joins the components: leading, trailing and repeated slashes do not matter. */
  lemma SplitJoin(p: string, q: string)
    ensures Split(p + "/" + q) == Split(p) + Split(q)
  {
    var whole := p + "/" + q;
    assert whole[0..|p|] == p && whole[|p|] == '/';
    ComponentsRun(p, 0, whole, 0);
    assert Components(whole, |p|) == Components(whole, |p| + 1) by {
      assert Skip(whole, |p|) == Skip(whole, |p| + 1);
    }
    assert whole[|p| + 1..] == q;
    ComponentsTail(whole, |p| + 1, 0);
  }

  /** A name as it may stand in a path: not empty, and without a slash. */
  predicate Plain(name: string) {
    name != "" && forall i :: 0 <= i < |name| ==> name[i] != '/'
  }

  function Slashes(n: nat): string {
    seq(n, _ => '/')
  }

  /** Names written out, each with so many slashes before it, and a number of slashes at the end. */
  function Spelled(names: seq<string>, gaps: seq<nat>, tail: nat): string
    requires |gaps| == |names|
  {
    if names == [] then Slashes(tail) else Slashes(gaps[0]) + names[0] + Spelled(names[1..], gaps[1..], tail)
  }

  /** Between two names there is a slash at least; the first may come without. */
  predicate Apart(gaps: seq<nat>) {
    forall i :: 0 < i < |gaps| ==> gaps[i] > 0
  }

  lemma {:induction false} SkipSlashes(n: nat, rest: string, i: nat)
    requires i <= n && (rest == "" || rest[0] != '/')
    ensures Skip(Slashes(n) + rest, i) == n
    decreases n - i
  {
    var p := Slashes(n) + rest;
    if i < n {
      assert p[i] == '/';
      SkipSlashes(n, rest, i + 1);
    } else if rest != "" {
      assert p[n] == rest[0];
    }
  }

  lemma {:induction false} WordPlain(before: string, name: string, rest: string, i: nat)
    requires Plain(name) && i <= |name| && (rest == "" || rest[0] == '/')
    ensures WordEnd(before + name + rest, |before| + i) == |before| + |name|
    decreases |name| - i
  {
    var p := before + name + rest;
    if i < |name| {
      assert p[|before| + i] == name[i];
      WordPlain(before, name, rest, i + 1);
    } else if rest != "" {
      assert p[|before| + i] == rest[0];
    }
  }

  lemma SpelledStart(names: seq<string>, gaps: seq<nat>, tail: nat)
    requires |gaps| == |names| && (names != [] ==> gaps[0] > 0)
    ensures var p := Spelled(names, gaps, tail); p == "" || p[0] == '/'
  {
    if names != [] {
      assert Slashes(gaps[0])[0] == '/';
    }
  }

  /** The first component, after slashes and before a slash or the end. */
  lemma SplitFirst(gap: nat, name: string, rest: string)
    requires Plain(name) && (rest == "" || rest[0] == '/')
    ensures Split(Slashes(gap) + name + rest) == [name] + Split(rest)
  {
    hide *;
    var before, p := Slashes(gap), Slashes(gap) + name + rest;
    var s, e := |before|, |before| + |name|;
    SlashesLength(gap);
    PlainStart(name, rest);
    assert p == before + (name + rest);
    SkipSlashes(gap, name + rest, 0);
    WordPlain(before, name, rest, 0);
    assert p[s..e] == name && p[e..] == rest;
    SplitIs(p);
    SplitIs(rest);
    ComponentsStep(p, 0);
    ComponentsTail(p, e, 0);
  }

  lemma SlashesLength(n: nat)
    ensures |Slashes(n)| == n
  {
  }

  lemma PlainStart(name: string, rest: string)
    requires Plain(name)
    ensures name != "" && name + rest != "" && (name + rest)[0] != '/'
  {
    assert (name + rest)[0] == name[0];
  }

  lemma SplitIs(p: string)
    ensures Split(p) == Components(p, 0)
  {
    hide Components;
  }

  /** Splitting gives back the names a path was written from, however many slashes stand between them. */
  lemma {:induction false} SplitSpelled(names: seq<string>, gaps: seq<nat>, tail: nat)
    requires |gaps| == |names| && Apart(gaps) && forall i :: 0 <= i < |names| ==> Plain(names[i])
    ensures Split(Spelled(names, gaps, tail)) == names
    decreases |names|
  {
    hide Split, Plain, Slashes;
    if names == [] {
      SplitSlashes(tail);
    } else {
      SpelledStart(names[1..], gaps[1..], tail);
      SplitSpelled(names[1..], gaps[1..], tail);
      hide Spelled;
      SplitFirst(gaps[0], names[0], Spelled(names[1..], gaps[1..], tail));
      SpelledMore(names[0], names[1..], gaps[0], gaps[1..], tail);
      assert [names[0]] + names[1..] == names && [gaps[0]] + gaps[1..] == gaps;
    }
  }

  lemma SplitSlashes(n: nat)
    ensures Split(Slashes(n)) == []
  {
    SkipSlashes(n, "", 0);
    assert Slashes(n) + "" == Slashes(n);
  }

  /** Every component is a plain name. */
  lemma ComponentsPlain(p: string, i: nat)
    requires i <= |p|
    ensures forall k :: 0 <= k < |Components(p, i)| ==> Plain(Components(p, i)[k])
  {
    hide *;
    forall k | 0 <= k < |Components(p, i)| ensures Plain(Components(p, i)[k]) {
      ComponentPlain(p, i, k);
    }
  }

  lemma {:induction false} ComponentPlain(p: string, i: nat, k: nat)
    requires i <= |p| && k < |Components(p, i)|
    ensures Plain(Components(p, i)[k])
    decreases k
  {
    hide *;
    ComponentsStep(p, i);
    var s := Skip(p, i);
    var e := WordEnd(p, s);
    WordPlainAt(p, i);
    if k > 0 {
      ComponentPlain(p, e, k - 1);
      assert Components(p, i)[k] == Components(p, e)[k - 1];
    }
  }

  lemma WordPlainAt(p: string, i: nat)
    requires i <= |p|
    ensures Skip(p, i) < |p| ==> Plain(p[Skip(p, i)..WordEnd(p, Skip(p, i))])
  {
    var s := Skip(p, i);
    if s < |p| { WordHasNoSlash(p, s); }
  }

  lemma {:induction false} WordHasNoSlash(p: string, i: nat)
    requires i <= |p|
    ensures forall k :: i <= k < WordEnd(p, i) ==> p[k] != '/'
    ensures WordEnd(p, i) < |p| ==> p[WordEnd(p, i)] == '/'
    decreases |p| - i
  {
    if i < |p| && p[i] != '/' { WordHasNoSlash(p, i + 1); }
  }

  lemma {:induction false} SkipsOnlySlashes(p: string, i: nat)
    requires i <= |p|
    ensures p[i..Skip(p, i)] == Slashes(Skip(p, i) - i)
    decreases |p| - i
  {
    if i < |p| && p[i] == '/' { SkipsOnlySlashes(p, i + 1); }
  }

  /** Every path is its components written out: there is nothing in it but these and slashes. */
  lemma {:induction false} Respelled(p: string, i: nat) returns (gaps: seq<nat>, tail: nat)
    requires i <= |p|
    ensures |gaps| == |Components(p, i)| && Apart(gaps) && p[i..] == Spelled(Components(p, i), gaps, tail)
    ensures gaps != [] && i < |p| && p[i] == '/' ==> gaps[0] > 0
    decreases |p| - i
  {
    hide Spelled;
    ComponentsStep(p, i);
    SkipsOnlySlashes(p, i);
    var s := Skip(p, i);
    if s == |p| {
      gaps, tail := [], |p| - i;
      SpelledNone(tail);
    } else {
      var e := WordEnd(p, s);
      WordHasNoSlash(p, s);
      gaps, tail := Respelled(p, e);
      var rest, restGaps := Components(p, e), gaps;
      gaps := [s - i] + restGaps;
      SpelledMore(p[s..e], rest, s - i, restGaps, tail);
      assert p[i..] == p[i..s] + p[s..e] + p[e..];
      if e == |p| { assert rest == []; }
    }
  }

  lemma SpelledNone(tail: nat)
    ensures Spelled([], [], tail) == Slashes(tail)
  {
  }

  lemma SpelledMore(name: string, rest: seq<string>, gap: nat, gaps: seq<nat>, tail: nat)
    requires |gaps| == |rest|
    ensures Spelled([name] + rest, [gap] + gaps, tail) == Slashes(gap) + name + Spelled(rest, gaps, tail)
  {
    assert ([name] + rest)[1..] == rest && ([gap] + gaps)[1..] == gaps;
  }

  /** vfs_next_component: the component at or after i, empty at the end, and where to go on. */
  method NextComponent(p: string, i: nat) returns (start: nat, len: nat, next: nat)
    requires i <= |p|
    ensures i <= start && start + len <= next <= |p| && (len == 0 <==> start == |p|)
    ensures forall k :: i <= k < start || start + len <= k < next ==> p[k] == '/'
    ensures forall k :: start <= k < start + len ==> p[k] != '/'
    ensures start + len < |p| ==> p[start + len] == '/' && (next < |p| ==> p[next] != '/')
    ensures Components(p, i) == if len == 0 then [] else [p[start..start + len]] + Components(p, next)
    ensures i <= next <= |p| && (len > 0 ==> i < next)
  {
    hide *;
    var s := i;
    while s < |p| && p[s] == '/'
      invariant i <= s <= |p| && Skip(p, s) == Skip(p, i) && forall k :: i <= k < s ==> p[k] == '/'
    {
      SkipStep(p, s);
      s := s + 1;
    }
    SkipStep(p, s);
    ComponentsStep(p, i);
    if s == |p| { return s, 0, s; }
    start := s;
    while s < |p| && p[s] != '/'
      invariant start <= s <= |p| && WordEnd(p, s) == WordEnd(p, start)
      invariant forall k :: start <= k < s ==> p[k] != '/'
    {
      WordStep(p, s);
      s := s + 1;
    }
    WordStep(p, s);
    len := s - start;
    SkipTwice(p, s);
    while s < |p| && p[s] == '/'
      invariant start + len <= s <= |p| && Skip(p, s) == Skip(p, start + len)
      invariant forall k :: start + len <= k < s ==> p[k] == '/'
    {
      SkipStep(p, s);
      s := s + 1;
    }
    SkipStep(p, s);
    next := s;
  }

  lemma SkipStep(p: string, i: nat)
    requires i <= |p|
    ensures Skip(p, i) == if i < |p| && p[i] == '/' then Skip(p, i + 1) else i
  {
  }

  lemma WordStep(p: string, i: nat)
    requires i <= |p|
    ensures WordEnd(p, i) == if i < |p| && p[i] != '/' then WordEnd(p, i + 1) else i
  {
  }

  lemma {:induction false} SkipTwice(p: string, i: nat)
    requires i <= |p|
    ensures Skip(p, Skip(p, i)) == Skip(p, i) && Components(p, Skip(p, i)) == Components(p, i)
    decreases |p| - i
  {
    if i < |p| && p[i] == '/' { SkipTwice(p, i + 1); }
  }

  /* ---- walking ---- */

  /** The first mount on an inode. */
  function FindByInode(mounts: seq<Mount>, inode: Inode): Option<Mount> {
    if mounts == [] then None
    else if mounts[0].point.Some? && mounts[0].point.value.inode == inode then Some(mounts[0])
    else FindByInode(mounts[1..], inode)
  }

  /** The first mount on an entry. */
  function FindByEntry(mounts: seq<Mount>, d: Dentry): Option<Mount> {
    if mounts == [] then None
    else if mounts[0].point == Some(d) then Some(mounts[0])
    else FindByEntry(mounts[1..], d)
  }

  /** The inode that a name in a directory leads to, before mounts are looked at. */
  function ChildInode(fs: FileSystems, dir: Inode, name: string): Result<Inode> {
    if !fs.isDir(dir) then Err(VFS_ENOTDIR)
    else if !fs.hasLookup(dir) then Err(VFS_ENOSYS)
    else if |name| >= NAME_SIZE then Err(VFS_ENOMEM)
    else match fs.lookup(dir, name)
      case Err(rc) => Err(rc)
      case Ok(None) => Err(VFS_ENOENT)
      case Ok(Some(inode)) => Ok(inode)
  }

  /** vfs_lookup_child: step to the child, or into what is mounted on it. */
  function LookupChild(fs: FileSystems, mounts: seq<Mount>, at: Place, name: string): Result<Place> {
    match ChildInode(fs, at.dentry.inode, name)
    case Err(rc) => Err(rc)
    case Ok(inode) =>
      match FindByInode(mounts, inode)
      case Some(sub) => Ok(Place(sub, RootOf(sub)))
      case None => Ok(Place(at.mnt, Dentry(false, inode)))
  }

  /** The newest mount on an inode is the one found. */
  lemma {:induction false} FindByInodeFirst(mounts: seq<Mount>, inode: Inode)
    ensures FindByInode(mounts, inode).None? <==> forall k :: 0 <= k < |mounts| ==> !On(mounts[k], inode)
    ensures forall k :: FirstOn(mounts, k, inode) ==> FindByInode(mounts, inode) == Some(mounts[k])
  {
    if mounts != [] {
      FindByInodeFirst(mounts[1..], inode);
      assert forall k :: 0 < k < |mounts| ==> mounts[k] == mounts[1..][k - 1];
      forall k | FirstOn(mounts, k, inode) ensures FindByInode(mounts, inode) == Some(mounts[k]) {
        if k > 0 {
          assert !On(mounts[0], inode);
          assert FirstOn(mounts[1..], k - 1, inode);
        }
      }
    }
  }

  /** m is mounted on an entry of that inode. */
  predicate On(m: Mount, inode: Inode) {
    m.point.Some? && m.point.value.inode == inode
  }

  /** Mount k is the first of the list on that inode. */
  predicate FirstOn(mounts: seq<Mount>, k: int, inode: Inode) {
    0 <= k < |mounts| && On(mounts[k], inode) && forall j :: 0 <= j < k ==> !On(mounts[j], inode)
  }

  /** So is the newest one on an entry. */
  lemma {:induction false} FindByEntryFirst(mounts: seq<Mount>, d: Dentry)
    ensures FindByEntry(mounts, d).None? <==> forall k :: 0 <= k < |mounts| ==> mounts[k].point != Some(d)
    ensures forall k :: FirstAt(mounts, k, d) ==> FindByEntry(mounts, d) == Some(mounts[k])
  {
    if mounts != [] {
      FindByEntryFirst(mounts[1..], d);
      assert forall k :: 0 < k < |mounts| ==> mounts[k] == mounts[1..][k - 1];
      forall k | FirstAt(mounts, k, d) ensures FindByEntry(mounts, d) == Some(mounts[k]) {
        if k > 0 {
          assert mounts[0].point != Some(d);
          assert FirstAt(mounts[1..], k - 1, d);
        }
      }
    }
  }

  predicate FirstAt(mounts: seq<Mount>, k: int, d: Dentry) {
    0 <= k < |mounts| && mounts[k].point == Some(d) && forall j :: 0 <= j < k ==> mounts[j].point != Some(d)
  }

  /**
   * Every outcome of looking a name up in a directory: the errors in the order they are tested, the
   * child where nothing is mounted on it, and the root of the newest mount on it otherwise.
   */
  lemma ChildLeads(fs: FileSystems, mounts: seq<Mount>, at: Place, name: string)
    ensures var dir, r := at.dentry.inode, LookupChild(fs, mounts, at, name);
            var found := fs.lookup(dir, name);
            && (!fs.isDir(dir) ==> r == Err(-20))
            && (fs.isDir(dir) && !fs.hasLookup(dir) ==> r == Err(-38))
            && (fs.isDir(dir) && fs.hasLookup(dir) && |name| > 255 ==> r == Err(-12))
            && (fs.isDir(dir) && fs.hasLookup(dir) && |name| <= 255 ==>
                  && (found.Err? ==> r == Err(found.rc)) && (found == Ok(None) ==> r == Err(-2))
                  && (found.Ok? && found.value.Some? ==>
                        var inode := found.value.value;
                        && ((forall k :: 0 <= k < |mounts| ==> !On(mounts[k], inode)) ==>
                              r == Ok(Place(at.mnt, Dentry(false, inode))))
                        && forall k :: FirstOn(mounts, k, inode) ==>
                             r == Ok(Place(mounts[k], Dentry(true, mounts[k].root)))))
  {
    var found := fs.lookup(at.dentry.inode, name);
    if found.Ok? && found.value.Some? { FindByInodeFirst(mounts, found.value.value); }
  }

  /** Where a list of names leads. */
  function Walk(fs: FileSystems, mounts: seq<Mount>, at: Place, names: seq<string>): Result<Place>
    decreases |names|
  {
    if names == [] then Ok(at)
    else
      var child := LookupChild(fs, mounts, at, names[0]);
      if child.Err? then child else Walk(fs, mounts, child.value, names[1..])
  }

  /** The names of a path: its components but for ".". */
  function Names(components: seq<string>): seq<string> {
    if components == [] then []
    else (if components[0] == "." then [] else [components[0]]) + Names(components[1..])
  }

  predicate NoDotDot(components: seq<string>) {
    ".." !in components
  }

  /** A walk of two lists is a walk of the one and then of the other. */
  lemma {:induction false} WalkSum(fs: FileSystems, mounts: seq<Mount>, at: Place, a: seq<string>, b: seq<string>)
    ensures Walk(fs, mounts, at, a + b) ==
            var mid := Walk(fs, mounts, at, a); if mid.Err? then mid else Walk(fs, mounts, mid.value, b)
    decreases |a|
  {
    if a == [] {
      assert a + b == b;
    } else {
      assert (a + b)[0] == a[0] && (a + b)[1..] == a[1..] + b;
      var child := LookupChild(fs, mounts, at, a[0]);
      if child.Ok? { WalkSum(fs, mounts, child.value, a[1..], b); }
    }
  }

  /** One component of a walk. */
  lemma WalkName(fs: FileSystems, mounts: seq<Mount>, at: Place, name: string, rest: seq<string>)
    ensures Walk(fs, mounts, at, Names([name] + rest)) ==
            if name == "." then Walk(fs, mounts, at, Names(rest))
            else var child := LookupChild(fs, mounts, at, name);
              if child.Err? then child else Walk(fs, mounts, child.value, Names(rest))
  {
    hide LookupChild;
    assert ([name] + rest)[1..] == rest && [] + Names(rest) == Names(rest);
    if name != "." { assert ([name] + Names(rest))[1..] == Names(rest); }
  }

  lemma {:induction false} NamesSum(a: seq<string>, b: seq<string>)
    ensures Names(a + b) == Names(a) + Names(b)
  {
    if a == [] {
      assert a + b == b;
    } else {
      assert (a + b)[0] == a[0] && (a + b)[1..] == a[1..] + b;
      NamesSum(a[1..], b);
    }
  }

  datatype ParentOf = ParentOf(dir: Place, leaf: string)

  /** Where the parent walk of a list of components leads, and the component it leaves over. */
  function WalkParent(fs: FileSystems, mounts: seq<Mount>, at: Place, c: seq<string>): Result<ParentOf>
    decreases |c|
  {
    if c == [] then Ok(ParentOf(at, ""))
    else if |c| == 1 then Ok(ParentOf(at, c[0]))
    else if c[0] == "." then WalkParent(fs, mounts, at, c[1..])
    else
      var child := LookupChild(fs, mounts, at, c[0]);
      if child.Err? then Err(child.rc) else WalkParent(fs, mounts, child.value, c[1..])
  }

  lemma {:induction false} WalkParentSplits(fs: FileSystems, mounts: seq<Mount>, at: Place, c: seq<string>)
    requires c != []
    ensures WalkParent(fs, mounts, at, c) ==
            var dir := Walk(fs, mounts, at, Names(c[..|c| - 1]));
              if dir.Err? then Err(dir.rc) else Ok(ParentOf(dir.value, c[|c| - 1]))
    decreases |c|
  {
    hide LookupChild;
    if |c| > 1 {
      var front := c[1..][..|c| - 2];
      assert c[..|c| - 1] == [c[0]] + front;
      WalkName(fs, mounts, at, c[0], front);
      if c[0] == "." {
        WalkParentSplits(fs, mounts, at, c[1..]);
      } else {
        var child := LookupChild(fs, mounts, at, c[0]);
        if child.Ok? { WalkParentSplits(fs, mounts, child.value, c[1..]); }
      }
    } else {
      assert c[..0] == [];
    }
  }

  /**
   * When the last component is not ".", the full walk is the parent walk followed by a lookup of the
   * leaf in the directory it found, errors included.
   */
  lemma WalkViaParent(fs: FileSystems, mounts: seq<Mount>, at: Place, c: seq<string>)
    requires c != [] && c[|c| - 1] != "."
    ensures Walk(fs, mounts, at, Names(c)) ==
            var p := WalkParent(fs, mounts, at, c);
              if p.Err? then Err(p.rc) else LookupChild(fs, mounts, p.value.dir, p.value.leaf)
  {
    var n := |c| - 1;
    assert c == c[..n] + [c[n]];
    NamesSum(c[..n], [c[n]]);
    WalkSum(fs, mounts, at, Names(c[..n]), Names([c[n]]));
    WalkParentSplits(fs, mounts, at, c);
    hide LookupChild;
    var dir := Walk(fs, mounts, at, Names(c[..n]));
    if dir.Ok? {
      assert [c[n]] + [] == [c[n]];
      WalkName(fs, mounts, dir.value, c[n], []);
    }
  }

  /* ---- what a mount changes ---- */

  /** Where walks start: the root of the first mount, or what is mounted over it. */
  function StartIn(mounts: seq<Mount>, first: Mount): Place {
    match FindByEntry(mounts, RootOf(first))
    case Some(over) => Place(over, RootOf(over))
    case None => Place(first, RootOf(first))
  }

  /** Where a path leads. */
  function ResolveIn(fs: FileSystems, mounts: seq<Mount>, first: Mount, path: string): Result<Place> {
    Walk(fs, mounts, StartIn(mounts, first), Names(Split(path)))
  }

  /** The walk looks up a name that is directory entry x. */
  predicate Enters(fs: FileSystems, mounts: seq<Mount>, at: Place, names: seq<string>, x: Inode)
    decreases |names|
  {
    names != [] &&
    (ChildInode(fs, at.dentry.inode, names[0]) == Ok(x) ||
     var child := LookupChild(fs, mounts, at, names[0]);
     child.Ok? && Enters(fs, mounts, child.value, names[1..], x))
  }

  /** A walk that never enters the inode mounted on goes as before. */
  lemma {:induction false} WalkUntouched(fs: FileSystems, mounts: seq<Mount>, added: Mount, at: Place,
                                         names: seq<string>)
    requires added.point.Some? && !Enters(fs, mounts, at, names, added.point.value.inode)
    ensures Walk(fs, [added] + mounts, at, names) == Walk(fs, mounts, at, names)
    decreases |names|
  {
    assert ([added] + mounts)[1..] == mounts;
    if names != [] {
      var child := LookupChild(fs, mounts, at, names[0]);
      if child.Ok? { WalkUntouched(fs, mounts, added, child.value, names[1..]); }
    }
  }

  /** A walk that reaches the entry mounted on, for the first time, goes on from the mounted root. */
  lemma {:induction false} WalkCrosses(fs: FileSystems, mounts: seq<Mount>, added: Mount, at: Place, names: seq<string>,
                                       rest: seq<string>)
    requires names != [] && added.point.Some? && !added.point.value.isRoot
    requires !Enters(fs, mounts, at, names[..|names| - 1], added.point.value.inode)
    requires var end := Walk(fs, mounts, at, names); end.Ok? && end.value.dentry == added.point.value
    ensures Walk(fs, [added] + mounts, at, names + rest)
            == Walk(fs, [added] + mounts, Place(added, RootOf(added)), rest)
    decreases |names|
  {
    var mounts' := [added] + mounts;
    assert mounts'[1..] == mounts;
    assert (names + rest)[0] == names[0] && (names + rest)[1..] == names[1..] + rest;
    var child := LookupChild(fs, mounts, at, names[0]);
    if |names| == 1 {
      assert names[1..] == [] && [] + rest == rest;
    } else {
      assert names[..|names| - 1][0] == names[0] && names[..|names| - 1][1..] == names[1..][..|names| - 2];
      WalkCrosses(fs, mounts, added, child.value, names[1..], rest);
    }
  }

  /** A mount on an entry other than the first root leaves the start of walks alone. */
  lemma StartKept(mounts: seq<Mount>, added: Mount, first: Mount)
    requires added.point != Some(RootOf(first))
    ensures StartIn([added] + mounts, first) == StartIn(mounts, first)
  {
    assert ([added] + mounts)[1..] == mounts;
  }

  /**
   * After a mount on a directory that is no mounted root, target/rest leads where rest leads from the
   * new root.
   */
  lemma MountedResolves(fs: FileSystems, mounts: seq<Mount>, added: Mount, first: Mount, target: string, rest: string)
    requires var end := ResolveIn(fs, mounts, first, target);
             end.Ok? && added.point == Some(end.value.dentry) && !end.value.dentry.isRoot
    requires var names := Names(Split(target));
             names == [] || !Enters(fs, mounts, StartIn(mounts, first), names[..|names| - 1], added.point.value.inode)
    ensures ResolveIn(fs, [added] + mounts, first, target + "/" + rest)
         == Walk(fs, [added] + mounts, Place(added, RootOf(added)), Names(Split(rest)))
  {
    var names := Names(Split(target));
    SplitJoin(target, rest);
    NamesSum(Split(target), Split(rest));
    StartKept(mounts, added, first);
    StartIsRoot(mounts, first);
    hide Split, Names, StartIn, Enters;
    if names != [] {
      WalkCrosses(fs, mounts, added, StartIn(mounts, first), names, Names(Split(rest)));
    }
  }

  lemma StartIsRoot(mounts: seq<Mount>, first: Mount)
    ensures StartIn(mounts, first).dentry.isRoot
  {
  }

  /** Every path whose walk never enters the inode mounted on leads where it did. */
  lemma OthersResolve(fs: FileSystems, mounts: seq<Mount>, added: Mount, first: Mount, path: string)
    requires added.point.Some? && added.point != Some(RootOf(first))
    requires !Enters(fs, mounts, StartIn(mounts, first), Names(Split(path)), added.point.value.inode)
    ensures ResolveIn(fs, [added] + mounts, first, path) == ResolveIn(fs, mounts, first, path)
  {
    StartKept(mounts, added, first);
    WalkUntouched(fs, mounts, added, StartIn(mounts, first), Names(Split(path)));
  }

  /** A mount over the first root: every path starts from the new one. */
  lemma RootMounted(fs: FileSystems, mounts: seq<Mount>, added: Mount, first: Mount, path: string)
    requires added.point == Some(RootOf(first))
    ensures ResolveIn(fs, [added] + mounts, first, path)
         == Walk(fs, [added] + mounts, Place(added, RootOf(added)), Names(Split(path)))
  {
  }

  /**
   * Mounting is seen at its target exactly when the target was not the root of a mounted file system
   * other than the first: a second mount over "/", say, is never entered.
   */
  lemma MountSeen(fs: FileSystems, mounts: seq<Mount>, added: Mount, first: Mount, target: string)
    requires var end := ResolveIn(fs, mounts, first, target); end.Ok? && added.point == Some(end.value.dentry)
    requires added !in mounts && added != first && forall m :: m in mounts && m.root == first.root ==> m.point.None?
    requires var d, names := added.point.value, Names(Split(target));
             !Enters(fs, mounts, StartIn(mounts, first), if d.isRoot
               || names == [] then names else names[..|names| - 1], d.inode)
    ensures var d := added.point.value;
            ResolveIn(fs, [added] + mounts, first, target) == Ok(Place(added, RootOf(added))) <==>
              !d.isRoot || d == RootOf(first)
  {
    var names, start, d := Names(Split(target)), StartIn(mounts, first), added.point.value;
    StartFrom(mounts, first);
    WalkFrom(fs, mounts, start, names);
    if !d.isRoot {
      StartKept(mounts, added, first);
      WalkCrosses(fs, mounts, added, start, names, []);
      assert names + [] == names;
    } else if d == RootOf(first) {
      RootMounted(fs, mounts, added, first, target);
    } else {
      StartKept(mounts, added, first);
      WalkUntouched(fs, mounts, added, start, names);
    }
  }

  lemma {:induction false} FoundIn(mounts: seq<Mount>, d: Dentry, inode: Inode)
    ensures var m := FindByEntry(mounts, d); m.Some? ==> m.value in mounts && m.value.point == Some(d)
    ensures var m := FindByInode(mounts, inode); m.Some? ==> m.value in mounts && m.value.point.Some?
  {
    if mounts != [] { FoundIn(mounts[1..], d, inode); }
  }

  lemma StartFrom(mounts: seq<Mount>, first: Mount)
    ensures var s := StartIn(mounts, first);
            && s.dentry == RootOf(s.mnt)
            && (s.mnt == first || (s.mnt in mounts && s.mnt.point.Some?))
  {
    FoundIn(mounts, RootOf(first), first.root);
  }

  /** A walk stays in known mounts, and ends on a root only by starting there or crossing into it. */
  lemma {:induction false} WalkFrom(fs: FileSystems, mounts: seq<Mount>, at: Place, names: seq<string>)
    ensures var end := Walk(fs, mounts, at, names);
            end.Ok? ==>
              && (end.value.mnt == at.mnt || end.value.mnt in mounts)
              && (names != [] && end.value.dentry.isRoot ==>
                    end.value.mnt in mounts && end.value.mnt.point.Some? && end.value.dentry == RootOf(end.value.mnt))
    decreases |names|
  {
    if names != [] {
      var child := LookupChild(fs, mounts, at, names[0]);
      ChildFrom(fs, mounts, at, names[0]);
      hide LookupChild;
      if child.Ok? { WalkFrom(fs, mounts, child.value, names[1..]); }
    }
  }

  lemma ChildFrom(fs: FileSystems, mounts: seq<Mount>, at: Place, name: string)
    ensures var child := LookupChild(fs, mounts, at, name);
            child.Ok? ==>
              && (child.value.mnt == at.mnt || child.value.mnt in mounts)
              && (child.value.dentry.isRoot ==>
                    child.value.mnt in mounts && child.value.mnt.point.Some?
                      && child.value.dentry == RootOf(child.value.mnt))
  {
    var inode := ChildInode(fs, at.dentry.inode, name);
    if inode.Ok? { FoundIn(mounts, at.dentry, inode.value); }
  }

  /* ---- the mount table ---- */

  class Vfs {
    const fs: FileSystems
    /** The mounts, newest first. */
    var mounts: seq<Mount>
    /** The first mount, once there is one. */
    var rootMnt: Option<Mount>
    /** The is_mountpoint flag of its root entry. */
    var rootIsMountpoint: bool

    ghost predicate Valid()
      reads this
    {
      && (rootMnt.Some? && rootIsMountpoint <==> rootMnt.Some? && FindByEntry(mounts, RootOf(rootMnt.value)).Some?)
      && (rootMnt.None? ==> mounts == [] && !rootIsMountpoint)
    }

    constructor (fs: FileSystems)
      ensures Valid() && this.fs == fs && mounts == [] && rootMnt == None
    {
      this.fs := fs;
      mounts := [];
      rootMnt := None;
      rootIsMountpoint := false;
    }

    /** The start of every lookup: the first root, or what is mounted over it. */
    function Start(): (at: Place)
      requires rootMnt.Some?
      reads this
      ensures Valid() ==> at == StartIn(mounts, rootMnt.value)
    {
      var top := Place(rootMnt.value, RootOf(rootMnt.value));
      if !rootIsMountpoint then top
      else match FindByEntry(mounts, RootOf(rootMnt.value))
        case Some(over) => Place(over, RootOf(over))
        case None => top
    }

    /** Where a path leads. */
    ghost function Resolve(path: string): Result<Place>
      requires rootMnt.Some?
      reads this
    {
      ResolveIn(fs, mounts, rootMnt.value, path)
    }

    /** vfs_lookup */
    method Lookup(path: string) returns (r: Result<Place>)
      requires Valid() && NoDotDot(Split(path))
      ensures rootMnt.None? ==> r == Err(-22)
      ensures rootMnt.Some? ==> r == Resolve(path)
    {
      if rootMnt.None? { return Err(VFS_EINVAL); }
      var at := Start();
      assert at == StartIn(mounts, rootMnt.value);
      var p := SkipLeading(path);
      hide LookupChild, Walk, Names, Skip, WordEnd, Components, Start, StartIn;
      while true
        invariant p <= |path| && Walk(fs, mounts, at, Names(Components(path, p))) == Resolve(path)
        decreases |path| - p
      {
        var start, len, next := NextComponent(path, p);
        if len == 0 {
          WalkNothing(fs, mounts, at);
          return Ok(at);
        }
        var name := path[start..start + len];
        WalkName(fs, mounts, at, name, Components(path, next));
        p := next;
        if name == "." { continue; }
        var child := LookupChild(fs, mounts, at, name);
        if child.Err? { return Err(child.rc); }
        at := child.value;
      }
    }

    static lemma WalkNothing(fs: FileSystems, mounts: seq<Mount>, at: Place)
      ensures Walk(fs, mounts, at, Names([])) == Ok(at)
    {
    }

    static method SkipLeading(path: string) returns (p: nat)
      ensures p <= |path| && Components(path, p) == Split(path)
    {
      p := 0;
      while p < |path| && path[p] == '/'
        invariant p <= |path| && Components(path, p) == Split(path)
      {
        p := p + 1;
      }
    }

    /** vfs_lookup_parent: the directory of the last component, and that component. */
    method LookupParent(path: string) returns (r: Result<ParentOf>)
      requires Valid() && NoDotDot(Split(path))
      ensures rootMnt.None? ==> r == Err(-22)
      ensures rootMnt.Some? ==> r == WalkParent(fs, mounts, StartIn(mounts, rootMnt.value), Split(path))
    {
      if rootMnt.None? { return Err(VFS_EINVAL); }
      var at := Start();
      assert at == StartIn(mounts, rootMnt.value);
      var p := SkipLeading(path);
      hide LookupChild, Skip, WordEnd, Components, Start, StartIn;
      while true
        invariant p <= |path|
                  && WalkParent(fs, mounts, at, Components(path, p))
                  == WalkParent(fs, mounts, StartIn(mounts, rootMnt.value), Split(path))
        decreases |path| - p
      {
        var start, len, next := NextComponent(path, p);
        if len == 0 { return Ok(ParentOf(at, "")); }
        var name := path[start..start + len];
        assert ([name] + Components(path, next))[1..] == Components(path, next);
        p := next;
        var _, nlen, _ := NextComponent(path, p);
        if nlen == 0 { return Ok(ParentOf(at, name)); }
        if name == "." { continue; }
        var child := LookupChild(fs, mounts, at, name);
        if child.Err? { return Err(child.rc); }
        at := child.value;
      }
    }

    /** What resolving the target of a mount comes to: 0, or the code it fails with. */
    ghost function TargetCode(target: string): int
      reads this
    {
      if rootMnt.None? then if target == "/" then 0 else -22
      else
        var end := Resolve(target);
        if end.Err? then end.rc else if !fs.isDir(end.value.dentry.inode) then -20 else 0
    }

    /**
     * vfs_mount; known says whether the file system type is registered, superblock and mount whether
     * those could be allocated, before and after the type's own mount function is called; mounted is
     * what that gave: an error, no root, or the root of the new superblock.
     */
    method MountOn(known: bool, target: string, superblock: bool, mounted: Result<Option<Inode>>, mount: bool)
      returns (rc: int)
      requires Valid() && NoDotDot(Split(target))
      requires mounted.Ok? && mounted.value.Some? ==>
                 forall m :: m in mounts || rootMnt == Some(m) ==> m.root.sb != mounted.value.value.sb
      modifies this
      ensures Valid()
      ensures rc == if !known then -2
                    else if old(TargetCode(target)) != 0 then old(TargetCode(target))
                    else if !superblock then -12
                    else if mounted.Err? then mounted.rc
                    else if mounted.value.None? then -22
                    else if !mount then -12
                    else 0
      ensures rc != 0 ==> mounts == old(mounts) && rootMnt == old(rootMnt)
      ensures rc == 0 ==> mounted.Ok? && mounted.value.Some? && |mounts| > 0
      ensures rc == 0 ==>
                var added := mounts[0];
                && mounts == [added] + old(mounts) && added.root == mounted.value.value
                && if old(rootMnt.None?) then added.point == None && rootMnt == Some(added)
                   else
                     var end := old(Resolve(target));
                     rootMnt == old(rootMnt) && end.Ok? && added.point == Some(end.value.dentry)
    {
      if !known { return VFS_ENOENT; }
      var point := None;
      if target != "/" || rootMnt.Some? {
        var found := Lookup(target);
        if found.Err? { return found.rc; }
        if !fs.isDir(found.value.dentry.inode) { return VFS_ENOTDIR; }
        point := Some(found.value.dentry);
      }
      if !superblock { return VFS_ENOMEM; }
      if mounted.Err? { return mounted.rc; }
      if mounted.value.None? { return VFS_EINVAL; }
      if !mount { return VFS_ENOMEM; }
      var added := Mount(point, mounted.value.value);
      if point.None? {
        rootMnt := Some(added);
      } else if point.value == RootOf(rootMnt.value) {
        rootIsMountpoint := true;
      }
      AddMount(added, mounts, rootMnt.value);
      mounts := [added] + mounts;
      rc := 0;
    }

    static lemma AddMount(added: Mount, mounts: seq<Mount>, first: Mount)
      ensures ([added] + mounts)[1..] == mounts
      ensures FindByEntry([added] + mounts, RootOf(first)) == if added.point == Some(RootOf(first)) then Some(added)
              else FindByEntry(mounts, RootOf(first))
      ensures FindByEntry([], RootOf(first)) == None
    {
    }
  }

  /**
   * A file system mounted over "/" for the second time is never entered: three mounts on "/" all
   * succeed, and "/" still leads to the root of the second.
   */
  method ThreeMountsOnRoot(fs: FileSystems, first: Inode, second: Inode, third: Inode) returns (v: Vfs,
                           end: Result<Place>)
    requires fs.isDir(first) && fs.isDir(second)
    requires first.sb != second.sb && first.sb != third.sb && second.sb != third.sb
    ensures v.Valid() && v.fs == fs && |v.mounts| == 3 && v.mounts[0].root == third
    ensures end.Ok? && end.value.dentry == Dentry(true, second) && end.value.dentry != RootOf(v.mounts[0])
  {
    v := new Vfs(fs);
    ghost var one, two := Mount(None, first), Mount(Some(Dentry(true, first)), second);
    Vfs.AddMount(one, [], one);
    Vfs.AddMount(two, [one], one);
    assert [one] + [] == [one];
    SlashLeadsToStart(fs, [one], one);
    SlashLeadsToStart(fs, [two, one], one);
    assert [one][1..] == [] && [two, one][1..] == [one] && [two] + [one] == [two, one];
    var rc := v.MountOn(true, "/", true, Ok(Some(first)), true);
    assert v.mounts == [one] && v.rootMnt == Some(one);
    assert v.Resolve("/") == Ok(Place(one, Dentry(true, first)));
    rc := v.MountOn(true, "/", true, Ok(Some(second)), true);
    assert v.mounts[0] == two;
    assert v.mounts == [two, one];
    assert v.Resolve("/") == Ok(Place(two, Dentry(true, second)));
    rc := v.MountOn(true, "/", true, Ok(Some(third)), true);
    ghost var three := Mount(Some(Dentry(true, second)), third);
    assert v.mounts == [three] + [two, one];
    Vfs.AddMount(three, [two, one], one);
    SlashLeadsToStart(fs, v.mounts, one);
    end := v.Lookup("/");
  }

  /** The path "/" leads to where every walk starts. */
  lemma SlashLeadsToStart(fs: FileSystems, mounts: seq<Mount>, first: Mount)
    ensures Split("/") == [] && ResolveIn(fs, mounts, first, "/") == Ok(StartIn(mounts, first))
  {
    assert Skip("/", 0) == 1;
    assert Names([]) == [];
  }
}
