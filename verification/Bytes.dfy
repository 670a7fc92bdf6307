/** Bytes, and what writing through a moving pointer does to a buffer. */
module Bytes {

  type Byte = b: int | 0 <= b < 256

  datatype Option<T> = None | Some(value: T)

  /** The buffer s with t written at position `at`. */
  function Splice(s: seq<Byte>, at: nat, t: seq<Byte>): (r: seq<Byte>)
    requires at + |t| <= |s|
    ensures |r| == |s|
  {
    s[..at] + t + s[at + |t|..]
  }

  /** Two writes in a row are one write. */
  lemma SpliceMore(s: seq<Byte>, at: nat, t: seq<Byte>, u: seq<Byte>)
    requires at + |t| + |u| <= |s|
    ensures Splice(Splice(s, at, t), at + |t|, u) == Splice(s, at, t + u)
  {
  }

  lemma SpliceReads(s: seq<Byte>, at: nat, t: seq<Byte>)
    requires at + |t| <= |s|
    ensures Splice(s, at, t)[..at] == s[..at]
    ensures Splice(s, at, t)[at..at + |t|] == t
    ensures Splice(s, at, t)[at + |t|..] == s[at + |t|..]
  {
  }

  /** Writing right behind what is there appends to it. */
  lemma SpliceAppends(s: seq<Byte>, t: seq<Byte>, u: seq<Byte>)
    requires |t| + |u| <= |s| && s[..|t|] == t
    ensures Splice(s, |t|, u)[..|t| + |u|] == t + u
  {
  }

  lemma SliceOfSlice(s: seq<Byte>, lo: nat, hi: nat, at: nat, n: nat)
    requires lo <= hi <= |s| && at + n <= hi - lo
    ensures s[lo..hi][at..at + n] == s[lo + at..lo + at + n]
  {
    var a, b := s[lo..hi][at..at + n], s[lo + at..lo + at + n];
    forall i | 0 <= i < n
      ensures a[i] == b[i]
    {
    }
    assert a == b;
  }

  lemma SpliceNothing(s: seq<Byte>, at: nat)
    requires at <= |s|
    ensures Splice(s, at, []) == s
  {
  }

  lemma SpliceOne(s: seq<Byte>, at: nat, b: Byte)
    requires at < |s|
    ensures s[at := b] == Splice(s, at, [b])
  {
  }
}
