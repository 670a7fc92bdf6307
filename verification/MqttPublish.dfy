/** PUBLISH packets and the four acknowledgements (sections 3.3 to 3.7 of MQTT Version 3.1.1). */
module MqttPublish {
  import opened Bytes
  import opened Slices
  import opened Framing
  import opened MqttFields

  /** What travels in a PUBLISH; the id counts only for QoS 1 and 2. */
  datatype Publish = Publish(dup: nat, qos: nat, retained: nat, id: nat, topic: seq<Byte>, payload: seq<Byte>)

  predicate Valid(m: Publish) {
    && m.dup < 2 && m.qos < 4 && m.retained < 2 && m.id < 65536
    && |m.topic| < 65536
    && |Body(m)| <= MAX_LENGTH
  }

  function Body(m: Publish): seq<Byte> {
    Str(m.topic) + (if m.qos > 0 then Int2(m.id) else []) + m.payload
  }

  function AsPacket(m: Publish): Packet {
    Packet(Header(PUBLISH, m.dup, m.qos, m.retained), Body(m))
  }

  /** The precomputed remaining length. */
  function PublishLength(qos: nat, topic: MqttString, payloadlen: nat): nat {
    2 + Strlen(topic) + payloadlen + if qos > 0 then 2 else 0
  }

  /** The announced length is the length of what is written exactly when the topic has one. */
  lemma LengthIsRight(m: Publish, topic: MqttString)
    requires m.topic == Text(topic)
    ensures PublishLength(m.qos, topic, |m.payload|) == |Body(m)| <==> OneLength(topic)
  {
  }

  /** Writes a whole packet or nothing: never past the buffer, always what was announced. */
  method Serialize(buf: array<Byte>, dup: nat, qos: nat, retained: nat, id: nat, topic: MqttString, payload: seq<Byte>)
    returns (rc: int)
    requires OneLength(topic) && PublishLength(qos, topic, |payload|) <= MAX_LENGTH
    modifies buf
    ensures var p := AsPacket(Publish(dup, qos, retained, id, Text(topic), payload));
            if PacketLen(|p.body|) > buf.Length then rc == -2 && buf[..] == old(buf[..])
            else rc == |Image(p)| <= buf.Length && buf[..] == Splice(old(buf[..]), 0, Image(p))
  {
    hide Splice, Encoding, Header, Int2, Str, Text;
    ghost var m := Publish(dup, qos, retained, id, Text(topic), payload);
    ghost var was := buf[..];
    var rem := PublishLength(qos, topic, |payload|);
    if PacketLen(rem) > buf.Length {
      return -2;
    }
    EstimateIsSafe(rem);
    var ptr := StartPacket(buf, Header(PUBLISH, dup, qos, retained), rem);
    ghost var front := [Header(PUBLISH, dup, qos, retained)] + Encoding(rem);
    ptr := WriteString(buf, ptr, topic);
    SpliceMore(was, 0, front, Str(Text(topic)));
    ghost var done := front + Str(Text(topic));
    if qos > 0 {
      ptr := WriteInt(buf, ptr, id);
      SpliceMore(was, 0, done, Int2(id));
      done := done + Int2(id);
    }
    ptr := WriteBytes(buf, ptr, payload);
    SpliceMore(was, 0, done, payload);
    assert done + payload == Image(AsPacket(m));
    rc := ptr;
  }

  // ---------- Reading ----------

  /** What the deserializer fills in; `id` stays untouched for QoS 0.  With an id cut off by
      the end of the packet the payload length comes out negative. */
  datatype Received = Received(dup: nat, qos: nat, retained: nat, id: Option<nat>, topic: seq<Byte>,
                               payload: seq<Byte>, payloadlen: int)

  /** The fields, None where the deserializer gives up. */
  function Parse(buf: seq<Byte>): Option<Received>
    requires Framed(buf)
  {
    var h := buf[0];
    var p, end := BodyStart(buf), BodyEnd(buf);
    if h / 16 != PUBLISH then None
    else
      match ReadString(buf, p, end)
      case None => None
      case Some(topic) =>
        var q := p + 2 + |topic|;
        var qos := h / 2 % 4;
        var at := if qos > 0 then q + 2 else q;
        Some(Received(h / 8 % 2, qos, h % 2, if qos > 0 then Some(ReadInt(buf, q)) else None, topic,
                      if at <= end then buf[at..end] else [], end - at))
  }

  /** Reads a PUBLISH out of a buffer.  The return value is 1 for a packet it could read, but
      also when it gives up on the topic of a packet whose length field is one byte. */
  method Deserialize(buf: seq<Byte>) returns (rc: nat, m: Option<Received>)
    requires Framed(buf)
    ensures m == Parse(buf)
    ensures rc == 1 <==> Parse(buf).Some? || (buf[0] / 16 == PUBLISH && BodyStart(buf) == 2)
  {
    hide Decoding, ReadString, ReadInt;
    rc, m := 0, None;
    var curdata := 0;
    var header := buf[curdata];
    curdata := curdata + 1;
    if header / 16 != PUBLISH {
      return;
    }
    var mylen;
    rc, mylen := DecodeBuf(buf, curdata);
    curdata := curdata + rc;
    var enddata := curdata + mylen;
    var topic := ReadString(buf, curdata, enddata);
    if topic == None {
      return;
    }
    curdata := curdata + 2 + |topic.value|;
    var id := None;
    if header / 2 % 4 > 0 {
      id := Some(ReadInt(buf, curdata));
      curdata := curdata + 2;
    }
    var payload := if curdata <= enddata then buf[curdata..enddata] else [];
    m := Some(Received(header / 8 % 2, header / 2 % 4, header % 2, id, topic.value, payload, enddata - curdata));
    rc := 1;
  }

  function Ids(m: Publish): seq<Byte> {
    if m.qos > 0 then Int2(m.id) else []
  }

  lemma FieldsBack(buf: seq<Byte>, p: nat, end: nat, m: Publish)
    requires Valid(m) && end <= |buf| && At(buf, p, Body(m)) && end == p + |Body(m)|
    ensures ReadString(buf, p, end) == Some(m.topic)
    ensures var q := p + 2 + |m.topic|;
            && (m.qos > 0 ==> ReadInt(buf, q) == m.id)
            && q + |Ids(m)| <= end && buf[q + |Ids(m)|..end] == m.payload
  {
    hide At, ReadString, ReadInt, Int2, Str;
    AtSplit(buf, p, Str(m.topic) + Ids(m), m.payload);
    AtSplit(buf, p, Str(m.topic), Ids(m));
    ReadStringBack(buf, p, m.topic, end);
    var q := p + 2 + |m.topic|;
    if m.qos > 0 {
      ReadIntBack(buf, q, m.id);
    }
    AtIs(buf, q + |Ids(m)|, m.payload);
  }

  /** Whatever is sent is received, in any buffer that holds the packet. */
  lemma RoundTrip(m: Publish, tail: seq<Byte>)
    requires Valid(m)
    ensures var buf := Image(AsPacket(m)) + tail;
            && Framed(buf)
            && Parse(buf) == Some(Received(m.dup, m.qos, m.retained, if m.qos > 0 then Some(m.id) else None,
                                           m.topic, m.payload, |m.payload|))
  {
    hide Decoding, Encoding, Image, At, Framed, BodyStart, BodyEnd, ReadString, ReadInt, Header, Body, Int2;
    var p := AsPacket(m);
    var buf := Image(p) + tail;
    ImageIsFramed(p, tail);
    FieldsBack(buf, BodyStart(buf), BodyEnd(buf), m);
  }

  /** A packet can be read as a PUBLISH exactly if it is one and its body holds the topic announced. */
  lemma ReadableExactlyIf(buf: seq<Byte>)
    requires Framed(buf)
    ensures var n := BodyEnd(buf) - BodyStart(buf);
            Parse(buf).Some? <==>
              && 0x30 <= buf[0] < 0x40 && n >= 2
              && 2 + 256 * buf[BodyStart(buf)] + buf[BodyStart(buf) + 1] <= n
  {
    hide Decoding;
  }

  // ---------- Acknowledgements ----------

  /** PUBACK, PUBREC, PUBREL and PUBCOMP carry an id only; PUBREL has the QoS bits of 1. */
  function AckPacket(type_: nat, dup: nat, id: nat): Packet {
    Packet(Header(type_, dup, if type_ == PUBREL then 1 else 0, 0), Int2(id))
  }

  method SerializeAck(buf: array<Byte>, type_: nat, dup: nat, id: nat) returns (rc: int)
    modifies buf
    ensures if buf.Length < 4 then rc == -2 && buf[..] == old(buf[..])
            else rc == 4 == |Image(AckPacket(type_, dup, id))|
                 && buf[..] == Splice(old(buf[..]), 0, Image(AckPacket(type_, dup, id)))
  {
    hide Splice, Header, Int2;
    if buf.Length < 4 {
      return -2;
    }
    EncodingWidth(2);
    ghost var was := buf[..];
    var h := Header(type_, dup, if type_ == PUBREL then 1 else 0, 0);
    var ptr := StartPacket(buf, h, 2);
    ptr := WriteInt(buf, ptr, id);
    SpliceMore(was, 0, [h] + Encoding(2), Int2(id));
    rc := ptr;
  }

  datatype Ack = Ack(type_: nat, dup: nat, id: Option<nat>)

  /** The id is None when the body is shorter than two bytes; type and dup are always given. */
  function ParseAck(buf: seq<Byte>): Ack
    requires Framed(buf)
  {
    Ack(buf[0] / 16, buf[0] / 8 % 2,
        if BodyEnd(buf) - BodyStart(buf) < 2 then None else Some(ReadInt(buf, BodyStart(buf))))
  }

  /** An id can be read exactly if the body has two bytes for it. */
  lemma AckReadableExactlyIf(buf: seq<Byte>)
    requires Framed(buf)
    ensures ParseAck(buf).id.Some? <==> BodyEnd(buf) - BodyStart(buf) >= 2
    ensures var p := BodyStart(buf);
            ParseAck(buf).id.Some? ==> ParseAck(buf).id.value == buf[p] as int * 256 + buf[p + 1] as int
  {
    hide Decoding;
  }

  /** Here too a short packet may return 1: exactly when its length field is one byte. */
  method DeserializeAck(buf: seq<Byte>) returns (rc: nat, a: Ack)
    requires Framed(buf)
    ensures a == ParseAck(buf)
    ensures rc == 1 <==> ParseAck(buf).id.Some? || BodyStart(buf) == 2
  {
    hide Decoding, ReadInt;
    var header := buf[0];
    var mylen;
    rc, mylen := DecodeBuf(buf, 1);
    var curdata := 1 + rc;
    var enddata := curdata + mylen;
    if enddata - curdata < 2 {
      return rc, Ack(header / 16, header / 8 % 2, None);
    }
    a := Ack(header / 16, header / 8 % 2, Some(ReadInt(buf, curdata)));
    rc := 1;
  }

  lemma AckRoundTrip(type_: nat, dup: nat, id: nat, tail: seq<Byte>)
    requires type_ < 16 && dup < 2 && id < 65536
    ensures var buf := Image(AckPacket(type_, dup, id)) + tail;
            Framed(buf) && ParseAck(buf) == Ack(type_, dup, Some(id))
  {
    hide Decoding, Encoding, Image, At, Framed, BodyStart, BodyEnd, ReadInt, Header;
    var p := AckPacket(type_, dup, id);
    ImageIsFramed(p, tail);
    ReadIntBack(Image(p) + tail, BodyStart(Image(p) + tail), id);
  }

  /** A PUBLISH without a body cannot be read, and its deserializer returns 1. */
  lemma EmptyPublishReturnsOne()
    ensures var buf: seq<Byte> := [0x30, 0];
            Framed(buf) && buf[0] / 16 == PUBLISH && Parse(buf) == None && BodyStart(buf) == 2
  {
    var buf: seq<Byte> := [0x30, 0];
    assert buf[1..] == [0];
  }

  /** So does an acknowledgement without an id. */
  lemma EmptyAckReturnsOne()
    ensures var buf: seq<Byte> := [0x40, 0];
            Framed(buf) && ParseAck(buf).id == None && BodyStart(buf) == 2
  {
    var buf: seq<Byte> := [0x40, 0];
    assert buf[1..] == [0];
  }
}
