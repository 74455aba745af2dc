/** Lists of equally long pieces joined end to end. */
module Flattening {
  /** Pieces of n elements each. */
  ghost predicate Pieces<T>(n: nat, s: seq<seq<T>>) {
    forall i :: 0 <= i < |s| ==> |s[i]| == n
  }

  /** The pieces one after the other. */
  function Flat<T>(s: seq<seq<T>>): seq<T> {
    if s == [] then [] else s[0] + Flat(s[1..])
  }

  lemma {:induction false} FlatLength<T>(n: nat, s: seq<seq<T>>)
    requires Pieces(n, s)
    ensures |Flat(s)| == |s| * n
  {
    if s != [] {
      FlatLength(n, s[1..]);
      assert |s| * n == n + (|s| - 1) * n;
    }
  }

  lemma {:induction false} FlatSum<T>(s: seq<seq<T>>, t: seq<seq<T>>)
    ensures Flat(s + t) == Flat(s) + Flat(t)
  {
    if s == [] {
      assert s + t == t;
    } else {
      assert (s + t)[0] == s[0] && (s + t)[1..] == s[1..] + t;
      FlatSum(s[1..], t);
    }
  }

  /** Piece a and up, element a * n and up of the whole. */
  lemma FlatSlice<T>(n: nat, s: seq<seq<T>>, a: nat, b: nat)
    requires Pieces(n, s) && a <= b <= |s|
    ensures 0 <= a * n <= b * n <= |Flat(s)| && Flat(s) == Flat(s[..a]) + Flat(s[a..b]) + Flat(s[b..])
    ensures |Flat(s[..a])| == a * n && |Flat(s[a..b])| == b * n - a * n
    ensures Flat(s[..a]) == Flat(s)[..a * n] && Flat(s[a..b]) == Flat(s)[a * n..b * n]
            && Flat(s[b..]) == Flat(s)[b * n..]
  {
    Segments(n, s, a, b);
    hide *;
    FlatSum(s[..a] + s[a..b], s[b..]);
    FlatSum(s[..a], s[a..b]);
    FlatLength(n, s[..a]);
    FlatLength(n, s[a..b]);
    FlatLength(n, s[b..]);
    FlatJoin(Flat(s), Flat(s[..a]), Flat(s[a..b]), Flat(s[b..]), a * n, b * n);
  }

  lemma Segments<T>(n: nat, s: seq<seq<T>>, a: nat, b: nat)
    requires Pieces(n, s) && a <= b <= |s|
    ensures s == s[..a] + s[a..b] + s[b..] && Pieces(n, s[..a]) && Pieces(n, s[a..b])
            && Pieces(n, s[b..])
    ensures |s[a..b]| * n == b * n - a * n && |s[..a]| * n == a * n
  {
    assert (b - a) * n == b * n - a * n;
  }

  lemma FlatJoin<T>(whole: seq<T>, x: seq<T>, y: seq<T>, z: seq<T>, m: nat, n: int)
    requires whole == x + y + z && |x| == m && |y| == n - m
    ensures 0 <= m <= n <= |whole| && x == whole[..m] && y == whole[m..n] && z == whole[n..]
  {
  }

  /** Element i of piece k is element k * n + i of the whole. */
  lemma FlatAt<T>(n: nat, s: seq<seq<T>>, k: nat, i: nat)
    requires Pieces(n, s) && k < |s| && i < n
    ensures k * n + i < |Flat(s)| && Flat(s)[k * n + i] == s[k][i]
  {
    FlatSlice(n, s, k, k + 1);
    assert (k + 1) * n == k * n + n;
    FlatOne(s[k]);
    assert s[k..k + 1] == [s[k]];
    assert Flat(s)[k * n..k * n + n][i] == s[k][i];
  }

  lemma FlatOne<T>(x: seq<T>)
    ensures Flat([x]) == x
  {
    assert [x][1..] == [];
    assert Flat([x]) == x + Flat([x][1..]);
  }
}
