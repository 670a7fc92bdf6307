/** The fields MQTT packets are made of: header byte, two-byte integers, strings; how they are
    written through a moving pointer and read back. */
module MqttFields {
  import opened Bytes
  import opened Framing
  import opened Slices

  const CONNECT: nat := 1
  const CONNACK: nat := 2
  const PUBLISH: nat := 3
  const PUBACK: nat := 4
  const PUBREC: nat := 5
  const PUBREL: nat := 6
  const PUBCOMP: nat := 7
  const SUBSCRIBE: nat := 8
  const SUBACK: nat := 9
  const UNSUBSCRIBE: nat := 10
  const UNSUBACK: nat := 11
  const PINGREQ: nat := 12
  const PINGRESP: nat := 13
  const DISCONNECT: nat := 14

  /** The header bit field: values are cut to the width of their fields. */
  function Header(type_: nat, dup: nat, qos: nat, retain: nat): (h: Byte)
    ensures h / 16 == type_ % 16 && h / 8 % 2 == dup % 2 && h / 2 % 4 == qos % 4 && h % 2 == retain % 2
  {
    HeaderBits(type_ % 16, dup % 2, qos % 4, retain % 2);
    type_ % 16 * 16 + dup % 2 * 8 + qos % 4 * 2 + retain % 2
  }

  lemma HeaderBits(t: nat, d: nat, q: nat, r: nat)
    requires t < 16 && d < 2 && q < 4 && r < 2
    ensures var h := t * 16 + d * 8 + q * 2 + r;
            h < 256 && h / 16 == t && h / 8 % 2 == d && h / 2 % 4 == q && h % 2 == r
  {
    var h := t * 16 + d * 8 + q * 2 + r;
    assert h / 16 == t;
    assert h / 8 == 2 * t + d;
    assert h / 2 == 4 * (h / 8) + q;
    assert h == 2 * (h / 2) + r;
  }

  // ---------- Strings, in the two forms a caller may give ----------

  /** A C string, a counted string, both or neither; None is the null pointer. */
  datatype MqttString = MqttString(cstring: Option<seq<Byte>>, lenstring: Option<seq<Byte>>)

  predicate Present(s: MqttString) {
    s.cstring.Some? || s.lenstring.Some?
  }

  /** The bytes that are written. */
  function Text(s: MqttString): seq<Byte> {
    if s.lenstring.Some? && |s.lenstring.value| > 0 then s.lenstring.value
    else if s.cstring.Some? then s.cstring.value
    else []
  }

  /** The length that is announced: the two forms are preferred the other way round. */
  function Strlen(s: MqttString): nat {
    if s.cstring.Some? then |s.cstring.value|
    else if s.lenstring.Some? then |s.lenstring.value|
    else 0
  }

  predicate OneLength(s: MqttString) {
    Strlen(s) == |Text(s)|
  }

  /** The lengths differ only when both forms are given, the counted one not empty. */
  lemma OneFormHasOneLength(s: MqttString)
    ensures OneLength(s) <==>
              !(s.cstring.Some? && s.lenstring.Some? && |s.lenstring.value| > 0
                && |s.lenstring.value| != |s.cstring.value|)
  {
  }

  function Int2(n: nat): (r: seq<Byte>)
    ensures |r| == 2
  {
    [n / 256 % 256, n % 256]
  }

  function Str(t: seq<Byte>): (r: seq<Byte>)
    ensures |r| == 2 + |t|
  {
    Int2(|t|) + t
  }

  // ---------- Writing ----------

  method WriteChar(buf: array<Byte>, ptr: nat, c: Byte) returns (next: nat)
    requires ptr < buf.Length
    modifies buf
    ensures next == ptr + 1 && buf[..] == Splice(old(buf[..]), ptr, [c])
  {
    SpliceOne(buf[..], ptr, c);
    buf[ptr] := c;
    next := ptr + 1;
  }

  method WriteInt(buf: array<Byte>, ptr: nat, n: nat) returns (next: nat)
    requires ptr + 2 <= buf.Length
    modifies buf
    ensures next == ptr + 2 && buf[..] == Splice(old(buf[..]), ptr, Int2(n))
  {
    hide Splice;
    next := WriteChar(buf, ptr, n / 256 % 256);
    SpliceMore(old(buf[..]), ptr, [n / 256 % 256], [n % 256]);
    next := WriteChar(buf, next, n % 256);
    assert [n / 256 % 256] + [n % 256] == Int2(n);
  }

  method WriteBytes(buf: array<Byte>, ptr: nat, t: seq<Byte>) returns (next: nat)
    requires ptr + |t| <= buf.Length
    modifies buf
    ensures next == ptr + |t| && buf[..] == Splice(old(buf[..]), ptr, t)
  {
    forall i | 0 <= i < |t| {
      buf[ptr + i] := t[i];
    }
    next := ptr + |t|;
  }

  method WriteString(buf: array<Byte>, ptr: nat, s: MqttString) returns (next: nat)
    requires ptr + 2 + |Text(s)| <= buf.Length
    modifies buf
    ensures next == ptr + 2 + |Text(s)| && buf[..] == Splice(old(buf[..]), ptr, Str(Text(s)))
  {
    hide Splice, Int2;
    SpliceMore(old(buf[..]), ptr, Int2(|Text(s)|), Text(s));
    if s.lenstring.Some? && |s.lenstring.value| > 0 {
      next := WriteInt(buf, ptr, |s.lenstring.value|);
      next := WriteBytes(buf, next, s.lenstring.value);
    } else if s.cstring.Some? {
      next := WriteInt(buf, ptr, |s.cstring.value|);
      next := WriteBytes(buf, next, s.cstring.value);
    } else {
      next := WriteInt(buf, ptr, 0);
      assert Int2(0) + [] == Int2(0);
    }
  }

  /** Header byte and remaining length. */
  method StartPacket(buf: array<Byte>, header: Byte, rem: nat) returns (ptr: nat)
    requires 1 + |Encoding(rem)| <= buf.Length
    modifies buf
    ensures ptr == 1 + |Encoding(rem)|
    ensures buf[..] == Splice(old(buf[..]), 0, [header] + Encoding(rem))
  {
    hide Splice, Encoding;
    ptr := WriteChar(buf, 0, header);
    var n := Encode(buf, 1, rem);
    SpliceMore(old(buf[..]), 0, [header], Encoding(rem));
    ptr := ptr + n;
  }

  // ---------- Reading ----------

  /** The byte at p; a read past the buffer is taken to see a zero. */
  function ByteAt(buf: seq<Byte>, p: nat): Byte {
    if p < |buf| then buf[p] else 0
  }

  function ReadInt(buf: seq<Byte>, p: nat): nat {
    256 * ByteAt(buf, p) + ByteAt(buf, p + 1)
  }

  /** The counted string at p, if it ends by `end`. */
  function ReadString(buf: seq<Byte>, p: nat, end: nat): (r: Option<seq<Byte>>)
    requires end <= |buf|
    ensures r.Some? ==> p + 2 + |r.value| <= end
  {
    if p + 1 < end then
      var len := ReadInt(buf, p);
      if p + 2 + len <= end then Some(buf[p + 2..p + 2 + len]) else None
    else None
  }

  lemma ReadIntBack(buf: seq<Byte>, p: nat, n: nat)
    requires At(buf, p, Int2(n)) && n < 65536
    ensures ReadInt(buf, p) == n
  {
    AtIndex(buf, p, Int2(n), 0);
    AtIndex(buf, p, Int2(n), 1);
  }

  lemma ReadStringBack(buf: seq<Byte>, p: nat, t: seq<Byte>, end: nat)
    requires At(buf, p, Str(t)) && |t| < 65536 && p + 2 + |t| <= end <= |buf|
    ensures ReadString(buf, p, end) == Some(t)
  {
    hide At;
    AtSplit(buf, p, Int2(|t|), t);
    ReadIntBack(buf, p, |t|);
    AtIs(buf, p + 2, t);
  }

  lemma AtIs(buf: seq<Byte>, p: nat, t: seq<Byte>)
    requires At(buf, p, t)
    ensures p + |t| <= |buf| && buf[p..p + |t|] == t
  {
  }

  // ---------- The packet in a buffer ----------

  /** The buffer holds a whole packet, as its remaining length says, and possibly more. */
  predicate Framed(buf: seq<Byte>) {
    && buf != []
    && var f := Decoding(buf[1..], 4);
    && f.Some? && 1 + f.value.width + f.value.value <= |buf|
  }

  /** Where the body begins and ends. */
  function BodyStart(buf: seq<Byte>): nat
    requires Framed(buf)
  {
    1 + Decoding(buf[1..], 4).value.width
  }

  function BodyEnd(buf: seq<Byte>): (e: nat)
    requires Framed(buf)
    ensures BodyStart(buf) <= e <= |buf|
  {
    BodyStart(buf) + Decoding(buf[1..], 4).value.value
  }

  lemma ImageIsFramed(p: Packet, tail: seq<Byte>)
    requires |p.body| <= MAX_LENGTH
    ensures var buf := Image(p) + tail;
            && Framed(buf)
            && buf[0] == p.header
            && BodyStart(buf) == 1 + |Encoding(|p.body|)|
            && BodyEnd(buf) == |Image(p)|
            && At(buf, BodyStart(buf), p.body)
  {
    hide Encoding, Decoding;
    var buf := Image(p) + tail;
    var rest := p.body + tail;
    assert buf[1..] == Encoding(|p.body|) + rest;
    assert Power128(4) == MAX_LENGTH + 1;
    DecodeEncode(|p.body|, rest, 4);
    var at := 1 + |Encoding(|p.body|)|;
    assert buf[at..at + |p.body|] == p.body;
  }
}
