/** Packets and their variable-length "remaining length" field (section 2.2.3 of MQTT
    Version 3.1.1). */
module Framing {

  import opened Bytes

  const MAX_LENGTH: nat := 268435455

  // ---------- Meaning ----------

  /** Seven bits a byte, low-order first, the top bit set on all but the last. */
  function Encoding(n: nat): (r: seq<Byte>)
    ensures r != []
  {
    if n / 128 > 0 then [n % 128 + 128] + Encoding(n / 128) else [n]
  }

  datatype Field = Field(value: nat, width: nat)

  /** A length field of at most k bytes at the start of s. */
  function Decoding(s: seq<Byte>, k: nat): (r: Option<Field>)
    ensures r.Some? ==> 1 <= r.value.width <= k && r.value.width <= |s|
    decreases k
  {
    if s == [] || k == 0 then None
    else if s[0] < 128 then Some(Field(s[0], 1))
    else
      match Decoding(s[1..], k - 1)
      case None => None
      case Some(f) => Some(Field(s[0] - 128 + 128 * f.value, f.width + 1))
  }

  function Power128(k: nat): (r: nat)
    ensures r >= 1
  {
    if k == 0 then 1 else 128 * Power128(k - 1)
  }

  /** Decoding undoes encoding, whatever follows. */
  lemma {:induction false} DecodeEncode(n: nat, rest: seq<Byte>, k: nat)
    requires k > 0 && n < Power128(k)
    ensures Decoding(Encoding(n) + rest, k) == Some(Field(n, |Encoding(n)|))
    decreases k
  {
    var s := Encoding(n) + rest;
    if n / 128 > 0 {
      assert k > 1;
      assert s[1..] == Encoding(n / 128) + rest;
      DecodeEncode(n / 128, rest, k - 1);
    } else {
      assert s[0] == n;
    }
  }

  /** No field for the same number is shorter. */
  lemma {:induction false} EncodingIsShortest(s: seq<Byte>, k: nat)
    requires Decoding(s, k).Some?
    ensures |Encoding(Decoding(s, k).value.value)| <= Decoding(s, k).value.width
    decreases k
  {
    if s[0] >= 128 {
      EncodingIsShortest(s[1..], k - 1);
      var v := Decoding(s[1..], k - 1).value.value;
      var n := Decoding(s, k).value.value;
      assert n == s[0] - 128 + 128 * v;
      assert n / 128 == v;
    }
  }

  lemma EncodingWidth(n: nat)
    ensures n < 128 ==> |Encoding(n)| == 1
    ensures 128 <= n < 16384 ==> |Encoding(n)| == 2
    ensures 16384 <= n < 2097152 ==> |Encoding(n)| == 3
    ensures 2097152 <= n <= MAX_LENGTH ==> |Encoding(n)| == 4
  {
    if 128 <= n <= MAX_LENGTH {
      var a := n / 128;
      assert |Encoding(n)| == 1 + |Encoding(a)|;
      if a >= 128 {
        var b := a / 128;
        assert |Encoding(a)| == 1 + |Encoding(b)|;
        if b >= 128 {
          assert |Encoding(b)| == 1 + |Encoding(b / 128)|;
        }
      }
    }
  }

  // ---------- Packets ----------

  datatype Packet = Packet(header: Byte, body: seq<Byte>)

  function Type(p: Packet): nat {
    p.header / 16
  }

  /** A packet as the serializers write it and as the readers leave it in the caller's buffer,
      the length field in its shortest form. */
  function Image(p: Packet): (r: seq<Byte>)
    ensures |r| == 1 + |Encoding(|p.body|)| + |p.body|
  {
    [p.header] + Encoding(|p.body|) + p.body
  }

  // ---------- The size estimate ----------

  /** The buffer space the serializers ask for before writing a packet. */
  function PacketLen(rem: nat): nat {
    var len := rem + 1;
    if len < 128 then len + 1
    else if len < 16384 then len + 2
    else if len < 2097151 then len + 3
    else len + 4
  }

  /** The estimate is never too small, and one too large at exactly four lengths. */
  lemma EstimateIsSafe(rem: nat)
    requires rem <= MAX_LENGTH
    ensures var size := 1 + |Encoding(rem)| + rem;
            PacketLen(rem) == if rem in {127, 16383, 2097150, 2097151} then size + 1 else size
  {
    EncodingWidth(rem);
  }

  // ---------- The loops ----------

  lemma EncodingStep(n: nat)
    ensures n / 128 > 0 ==> Encoding(n) == [n % 128 + 128] + Encoding(n / 128)
    ensures n / 128 == 0 ==> Encoding(n) == [n % 128]
  {
  }

  /** Writes the encoding at buf[at..]. */
  method Encode(buf: array<Byte>, at: nat, length: nat) returns (rc: nat)
    requires at + |Encoding(length)| <= buf.Length
    modifies buf
    ensures rc == |Encoding(length)|
    ensures buf[..] == Splice(old(buf[..]), at, Encoding(length))
  {
    hide Encoding, Splice;
    rc := 0;
    var rest := length;
    var more := true;
    ghost var done: seq<Byte> := [];
    SpliceNothing(buf[..], at);
    while more
      invariant rc == |done| && at + rc <= buf.Length
      invariant Encoding(length) == done + if more then Encoding(rest) else []
      invariant buf[..] == Splice(old(buf[..]), at, done)
      decreases more, rest
    {
      var d := rest % 128;
      EncodingStep(rest);
      ghost var tail := Encoding(rest);
      rest := rest / 128;
      if rest > 0 {
        d := d + 128;
      }
      SpliceOne(buf[..], at + rc, d);
      SpliceMore(old(buf[..]), at, done, [d]);
      buf[at + rc] := d;
      rc := rc + 1;
      more := rest > 0;
      done := done + [d];
      assert tail == [d] + if more then Encoding(rest) else [];
    }
    assert done == Encoding(length);
  }

  lemma DecodingStep(s: seq<Byte>, k: nat)
    requires Decoding(s, k).Some?
    ensures s != [] && k > 0
    ensures s[0] < 128 ==> Decoding(s, k) == Some(Field(s[0], 1))
    ensures s[0] >= 128 ==>
              && Decoding(s[1..], k - 1).Some?
              && var g := Decoding(s[1..], k - 1).value;
              && Decoding(s, k) == Some(Field(s[0] % 128 + 128 * g.value, g.width + 1))
  {
  }

  /** What byte c of a length field adds to the value. */
  function Weighted(c: Byte, multiplier: nat): nat {
    (c % 128) * multiplier
  }

  /** The value so far, plus what a field of value g adds at this place. */
  function Plus(value: nat, multiplier: nat, g: nat): nat {
    value + multiplier * g
  }

  lemma PlusStep(value: nat, m: nat, c: Byte, g: nat)
    ensures Plus(value, m, c % 128 + 128 * g) == Plus(value + Weighted(c, m), m * 128, g)
    ensures Plus(value, m, c % 128) == value + Weighted(c, m)
  {
    var d := c % 128;
    assert m * (d + 128 * g) == m * d + m * (128 * g);
    assert m * (128 * g) == (m * 128) * g;
  }

  lemma PlusInit(g: nat)
    ensures Plus(0, 1, g) == g
  {
  }

  /** Reads a length field of at most four bytes at buf[at..]; `len` is what the C function
      returns, the number of bytes read. */
  method DecodeBuf(buf: seq<Byte>, at: nat) returns (len: nat, value: nat)
    requires at <= |buf| && Decoding(buf[at..], 4).Some?
    ensures Decoding(buf[at..], 4) == Some(Field(value, len))
  {
    hide Decoding, Weighted, Plus;
    var multiplier: nat := 1;
    len, value := 0, 0;
    var more := true;
    ghost var goal := Decoding(buf[at..], 4).value;
    ghost var f := goal;
    PlusInit(f.value);
    while more
      invariant len <= 4 && at + len <= |buf|
      invariant more ==> Decoding(buf[at + len..], 4 - len) == Some(f)
      invariant goal == if more then Field(Plus(value, multiplier, f.value), len + f.width) else Field(value, len)
      decreases more, 4 - len
    {
      DecodingStep(buf[at + len..], 4 - len);
      var c := buf[at + len];
      assert buf[at + len..][1..] == buf[at + len + 1..];
      len := len + 1;
      more := c >= 128;
      ghost var g := if more then Decoding(buf[at + len..], 4 - len).value else Field(0, 0);
      PlusStep(value, multiplier, c, g.value);
      value := value + Weighted(c, multiplier);
      multiplier := multiplier * 128;
      f := g;
    }
  }
}
