/** Pieces of buffers: replacing a stretch in place. */
module Buffers {

  /** s with the elements from pos on replaced by t. */
  function Splice<T>(s: seq<T>, pos: nat, t: seq<T>): (r: seq<T>)
    requires pos + |t| <= |s|
    ensures |r| == |s|
  {
    s[..pos] + t + s[pos + |t|..]
  }

  lemma SpliceKeeps<T>(s: seq<T>, pos: nat, t: seq<T>, from: nat, n: nat)
    requires pos + |t| <= |s| && from + n <= |s|
    requires from + n <= pos || pos + |t| <= from
    ensures Splice(s, pos, t)[from..from + n] == s[from..from + n]
  {
    var a, b := Splice(s, pos, t)[from..from + n], s[from..from + n];
    assert forall k :: 0 <= k < n ==> a[k] == b[k];
  }

  lemma SpliceReads<T>(s: seq<T>, pos: nat, t: seq<T>)
    requires pos + |t| <= |s|
    ensures Splice(s, pos, t)[pos..pos + |t|] == t
  {
  }

  /** Two adjacent stretches written one after the other are one stretch. */
  lemma SpliceTwice<T>(s: seq<T>, pos: nat, t: seq<T>, u: seq<T>)
    requires pos + |t| + |u| <= |s|
    ensures Splice(Splice(s, pos, t), pos + |t|, u) == Splice(s, pos, t + u)
  {
    var a, b := Splice(Splice(s, pos, t), pos + |t|, u), Splice(s, pos, t + u);
    assert forall k :: 0 <= k < |s| ==> a[k] == b[k];
  }

  lemma SpliceIs<T>(s: seq<T>, pos: nat, t: seq<T>, r: seq<T>)
    requires pos + |t| <= |s| == |r|
    requires r[..pos] == s[..pos] && r[pos + |t|..] == s[pos + |t|..]
    requires forall k :: 0 <= k < |t| ==> r[pos + k] == t[k]
    ensures r == Splice(s, pos, t)
  {
    assert r[pos..pos + |t|] == t;
  }

  lemma SliceOfSlice<T>(s: seq<T>, a: nat, b: nat, c: nat, d: nat)
    requires a <= b <= |s| && c <= d <= b - a
    ensures s[a..b][c..d] == s[a + c..a + d]
  {
    var u, v := s[a..b][c..d], s[a + c..a + d];
    assert forall k :: 0 <= k < d - c ==> u[k] == v[k];
  }

  lemma SliceInFront<T>(s: seq<T>, t: seq<T>, i: nat, j: nat)
    requires i <= j <= |s|
    ensures (s + t)[i..j] == s[i..j]
  {
  }

  lemma SliceBehind<T>(s: seq<T>, t: seq<T>, i: nat, j: nat)
    requires i <= j <= |t|
    ensures (s + t)[|s| + i..|s| + j] == t[i..j]
  {
  }

  lemma Behind<T>(s: seq<T>, t: seq<T>)
    ensures (s + t)[..|s|] == s && (s + t)[|s|..] == t
  {
  }

  lemma SplicedFront<T>(was: seq<T>, t: seq<T>)
    requires |t| <= |was|
    ensures Splice(was, 0, t)[..|t|] == t && Splice(was, 0, t) == t + was[|t|..]
  {
  }
}
