/** The 64-byte ring between the modem and the TCP client, and the client's read loop. */
module GsmFifo {
  import opened Bytes

  const FIFO_SIZE: nat := 64

  function Min(a: nat, b: nat): nat {
    if a < b then a else b
  }

  /** What a ring holds between its read and its write position. */
  function Ring(b: seq<Byte>, r: nat, w: nat): (s: seq<Byte>)
    requires |b| == FIFO_SIZE && r < FIFO_SIZE && w < FIFO_SIZE
    ensures |s| == if r <= w then w - r else w - r + FIFO_SIZE
    ensures forall k :: 0 <= k < |s| ==> s[k] == b[(r + k) % FIFO_SIZE]
  {
    if r <= w then b[r..w] else b[r..] + b[..w]
  }

  /** A bounded queue of 63 bytes in a buffer of 64. */
  class Fifo {
    const b: array<Byte>
    var w: nat
    var r: nat

    ghost predicate Valid()
      reads this, b
    {
      b.Length == FIFO_SIZE && r < FIFO_SIZE && w < FIFO_SIZE
    }

    ghost function Contents(): (s: seq<Byte>)
      requires Valid()
      reads this, b
      ensures |s| < FIFO_SIZE
    {
      Ring(b[..], r, w)
    }

    constructor ()
      ensures Valid() && Contents() == [] && fresh(b)
    {
      b := new Byte[FIFO_SIZE];
      w, r := 0, 0;
    }

    method Clear()
      requires Valid()
      modifies this`w, this`r
      ensures Valid() && Contents() == []
    {
      r, w := 0, 0;
    }

    method Size() returns (s: int)
      requires Valid()
      ensures s == |Contents()|
    {
      s := w - r;
      if s < 0 {
        s := s + FIFO_SIZE;
      }
    }

    method FreeSize() returns (s: int)
      requires Valid()
      ensures s == FIFO_SIZE - 1 - |Contents()|
    {
      s := r - w;
      if s <= 0 {
        s := s + FIFO_SIZE;
      }
      s := s - 1;
    }

    /** Appends a byte, refused exactly when 63 bytes are queued. */
    method Put(c: Byte) returns (ok: bool)
      requires Valid()
      modifies this`w, b
      ensures Valid()
      ensures ok <==> |old(Contents())| < FIFO_SIZE - 1
      ensures Contents() == if ok then old(Contents()) + [c] else old(Contents())
    {
      var j := w;
      var i := (w + 1) % FIFO_SIZE;
      if i == r {
        return false;
      }
      b[j] := c;
      w := i;
      ok := true;
      PutAppends(old(b[..]), r, j, c);
    }

    /** One copy, of bytes that lie next to each other in the buffer. */
    method GetChunk(p: array<Byte>, at: nat, f: nat)
      requires Valid() && p != b && at + f <= p.Length && f <= |Contents()| && r + f <= FIFO_SIZE
      modifies this`r, p
      ensures Valid()
      ensures p[..] == Splice(old(p[..]), at, old(Contents())[..f])
      ensures Contents() == old(Contents())[f..]
    {
      hide Ring, Splice;
      GetSplits(b[..], r, w, f);
      ghost var chunk := b[r..r + f];
      forall k | 0 <= k < f {
        p[at + k] := b[r + k];
      }
      SpliceIs(old(p[..]), at, chunk, p[..]);
      r := (r + f) % FIFO_SIZE;
    }

    /** Takes the first min(n, size) bytes, across the wrap if need be. */
    method Get(p: array<Byte>, at: nat, n: nat) returns (got: nat)
      requires Valid() && p != b && at + n <= p.Length
      modifies this`r, p
      ensures Valid()
      ensures got == Min(n, |old(Contents())|)
      ensures p[..] == Splice(old(p[..]), at, old(Contents())[..got])
      ensures Contents() == old(Contents())[got..]
    {
      hide Ring, Splice;
      ghost var all := Contents();
      ghost var was := p[..];
      got := 0;
      SpliceNothing(was, at);
      while got < n
        invariant got <= n && got <= |all|
        invariant Valid() && Contents() == all[got..]
        invariant |was| == p.Length && p[..] == Splice(was, at, all[..got])
        decreases n - got
      {
        var f := Size();
        if f == 0 {
          return;
        }
        if n - got < f {
          f := n - got;
        }
        var m := FIFO_SIZE - r;
        if f > m {
          f := m;
        }
        ghost var chunk := all[got..got + f];
        assert Contents()[..f] == chunk;
        SpliceMore(was, at, all[..got], chunk);
        assert all[..got] + chunk == all[..got + f];
        GetChunk(p, at + got, f);
        got := got + f;
      }
    }
  }

  lemma SpliceIs(s: seq<Byte>, at: nat, t: seq<Byte>, u: seq<Byte>)
    requires at + |t| <= |s| == |u|
    requires forall k :: 0 <= k < |t| ==> u[at + k] == t[k]
    requires u[..at] == s[..at] && u[at + |t|..] == s[at + |t|..]
    ensures u == Splice(s, at, t)
  {
    assert u[at..at + |t|] == t;
  }

  lemma PutAppends(b: seq<Byte>, r: nat, w: nat, c: Byte)
    requires |b| == FIFO_SIZE && r < FIFO_SIZE && w < FIFO_SIZE && (w + 1) % FIFO_SIZE != r
    ensures Ring(b[w := c], r, (w + 1) % FIFO_SIZE) == Ring(b, r, w) + [c]
  {
    var u := b[w := c];
    if w + 1 == FIFO_SIZE {
      assert u[r..] == b[r..w] + [c];
      assert u[..0] == [];
    } else if r <= w {
      assert u[r..w + 1] == b[r..w] + [c];
    } else {
      assert u[r..] == b[r..] && u[..w + 1] == b[..w] + [c];
    }
  }

  /** Up to the wrap, the queue's first bytes lie next to each other in the buffer. */
  lemma GetSplits(b: seq<Byte>, r: nat, w: nat, f: nat)
    requires |b| == FIFO_SIZE && r < FIFO_SIZE && w < FIFO_SIZE
    requires f <= |Ring(b, r, w)| && r + f <= FIFO_SIZE
    ensures b[r..r + f] == Ring(b, r, w)[..f]
    ensures Ring(b, (r + f) % FIFO_SIZE, w) == Ring(b, r, w)[f..]
  {
  }
}
