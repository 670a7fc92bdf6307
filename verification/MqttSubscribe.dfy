/** SUBSCRIBE and UNSUBSCRIBE packets: lists of topic filters (sections 3.8 and 3.10 of MQTT
    Version 3.1.1). */
module MqttSubscribe {
  import opened Bytes
  import opened Slices
  import opened Framing
  import opened MqttFields

  /** One entry of a list; UNSUBSCRIBE entries have no QoS byte. */
  datatype Entry = Entry(topic: seq<Byte>, qos: Option<Byte>)

  /** An entry as the client gives it. */
  datatype Filter = Filter(topic: MqttString, qos: Option<Byte>)

  function Entries(fs: seq<Filter>): (es: seq<Entry>)
    ensures |es| == |fs|
    ensures forall i :: 0 <= i < |fs| ==> es[i] == Entry(Text(fs[i].topic), fs[i].qos)
  {
    if fs == [] then [] else [Entry(Text(fs[0].topic), fs[0].qos)] + Entries(fs[1..])
  }

  function Tail(e: Entry): seq<Byte> {
    if e.qos.Some? then [e.qos.value] else []
  }

  function EntryBytes(e: Entry): seq<Byte> {
    Str(e.topic) + Tail(e)
  }

  function ListBytes(es: seq<Entry>): seq<Byte> {
    if es == [] then [] else EntryBytes(es[0]) + ListBytes(es[1..])
  }

  lemma {:induction false} ListBytesAppend(es: seq<Entry>, e: Entry)
    ensures ListBytes(es + [e]) == ListBytes(es) + EntryBytes(e)
  {
    if es == [] {
      assert es + [e] == [e] && [e][1..] == [];
      assert EntryBytes(e) + [] == EntryBytes(e);
    } else {
      ListBytesAppend(es[1..], e);
      assert (es + [e])[1..] == es[1..] + [e];
      assert EntryBytes(es[0]) + ListBytes(es[1..]) + EntryBytes(e) == EntryBytes(es[0]) + (ListBytes(es[1..]) + EntryBytes(e));
    }
  }

  predicate OneLengths(fs: seq<Filter>) {
    forall i :: 0 <= i < |fs| ==> OneLength(fs[i].topic)
  }

  /** All entries of a list are of the packet's kind: with a QoS, or without. */
  predicate OfKind(es: seq<Entry>, withQos: bool) {
    forall i :: 0 <= i < |es| ==> es[i].qos.Some? == withQos && |es[i].topic| < 65536
  }

  function AsPacket(type_: nat, dup: nat, id: nat, es: seq<Entry>): Packet {
    Packet(Header(type_, dup, 1, 0), Int2(id) + ListBytes(es))
  }

  // ---------- Writing ----------

  /** The precomputed remaining length: the id, and each entry. */
  method ListLength(fs: seq<Filter>) returns (len: nat)
    requires OneLengths(fs)
    ensures len == 2 + |ListBytes(Entries(fs))|
  {
    hide Str, ListBytes;
    len := 2;
    var i := 0;
    ListPrefix(Entries(fs), 0);
    while i < |fs|
      invariant 0 <= i <= |fs|
      invariant len == 2 + |ListBytes(Entries(fs)[..i])|
    {
      ListPrefix(Entries(fs), i);
      len := len + 2 + Strlen(fs[i].topic) + if fs[i].qos.Some? then 1 else 0;
      i := i + 1;
    }
    assert Entries(fs)[..|fs|] == Entries(fs);
  }

  method WriteEntry(buf: array<Byte>, ptr: nat, f: Filter) returns (next: nat)
    requires ptr + |EntryBytes(Entry(Text(f.topic), f.qos))| <= buf.Length
    modifies buf
    ensures next == ptr + |EntryBytes(Entry(Text(f.topic), f.qos))|
    ensures buf[..] == Splice(old(buf[..]), ptr, EntryBytes(Entry(Text(f.topic), f.qos)))
  {
    hide Splice, Text, Int2;
    next := WriteString(buf, ptr, f.topic);
    if f.qos.Some? {
      SpliceMore(old(buf[..]), ptr, Str(Text(f.topic)), [f.qos.value]);
      next := WriteChar(buf, next, f.qos.value);
    } else {
      assert Str(Text(f.topic)) + [] == Str(Text(f.topic));
    }
  }

  /** The loop over the entries, behind what `front` already holds. */
  method WriteEntries(buf: array<Byte>, ptr: nat, fs: seq<Filter>, ghost was: seq<Byte>, ghost front: seq<Byte>)
    returns (next: nat)
    requires |was| == buf.Length && ptr == |front| && |front| + |ListBytes(Entries(fs))| <= buf.Length
    requires buf[..] == Splice(was, 0, front)
    modifies buf
    ensures next == |front| + |ListBytes(Entries(fs))|
    ensures buf[..] == Splice(was, 0, front + ListBytes(Entries(fs)))
  {
    hide Splice, EntryBytes, ListBytes, Text, Entries;
    ghost var es := Entries(fs);
    next := ptr;
    var i := 0;
    ListPrefix(es, 0);
    assert front + [] == front;
    while i < |fs|
      invariant 0 <= i <= |fs|
      invariant next == |front| + |ListBytes(es[..i])| <= buf.Length
      invariant buf[..] == Splice(was, 0, front + ListBytes(es[..i]))
    {
      ListPrefix(es, i);
      ListPrefix(es, i + 1);
      SpliceMore(was, 0, front + ListBytes(es[..i]), EntryBytes(es[i]));
      assert front + ListBytes(es[..i]) + EntryBytes(es[i]) == front + ListBytes(es[..i + 1]);
      next := WriteEntry(buf, next, fs[i]);
      i := i + 1;
    }
    assert es[..|fs|] == es;
  }

  /** Writes a whole packet or nothing: never past the buffer, always what was announced. */
  method Serialize(buf: array<Byte>, type_: nat, dup: nat, id: nat, fs: seq<Filter>) returns (rc: int)
    requires OneLengths(fs) && |ListBytes(Entries(fs))| + 2 <= MAX_LENGTH
    modifies buf
    ensures var p := AsPacket(type_, dup, id, Entries(fs));
            if PacketLen(|p.body|) > buf.Length then rc == -2 && buf[..] == old(buf[..])
            else rc == |Image(p)| <= buf.Length && buf[..] == Splice(old(buf[..]), 0, Image(p))
    ensures rc > 0 && type_ < 16 && dup < 2 ==> buf[0] == 16 * type_ + 8 * dup + 2
  {
    HeaderByte(type_, dup);
    hide Splice, Encoding, Header, Int2, EntryBytes, ListBytes, Entries;
    ghost var was := buf[..];
    ghost var p := AsPacket(type_, dup, id, Entries(fs));
    var rem := ListLength(fs);
    if PacketLen(rem) > buf.Length {
      return -2;
    }
    EstimateIsSafe(rem);
    var h := Header(type_, dup, 1, 0);
    var ptr := StartPacket(buf, h, rem);
    ptr := WriteInt(buf, ptr, id);
    SpliceMore(was, 0, [h] + Encoding(rem), Int2(id));
    ghost var front := [h] + Encoding(rem) + Int2(id);
    rc := WriteEntries(buf, ptr, fs, was, front);
    assert front + ListBytes(Entries(fs)) == Image(p);
    SpliceReads(was, 0, Image(p));
    assert buf[..][0..|Image(p)|][0] == h;
  }

  /** Sections 3.8.1 and 3.10.1: the reserved bits are 0010, 0x82 for SUBSCRIBE and 0xa2 for
      UNSUBSCRIBE. */
  lemma HeaderByte(type_: nat, dup: nat)
    ensures type_ < 16 && dup < 2 ==> Header(type_, dup, 1, 0) == 16 * type_ + 8 * dup + 2
    ensures Header(SUBSCRIBE, 0, 1, 0) == 0x82 && Header(UNSUBSCRIBE, 0, 1, 0) == 0xa2
  {
  }

  lemma {:induction false} ListPrefix(es: seq<Entry>, i: nat)
    requires i <= |es|
    ensures |ListBytes(es[..i])| <= |ListBytes(es)|
    ensures i == 0 ==> ListBytes(es[..i]) == []
    ensures i < |es| ==> ListBytes(es[..i + 1]) == ListBytes(es[..i]) + EntryBytes(es[i])
    decreases |es| - i
  {
    hide EntryBytes;
    if i < |es| {
      assert es[..i + 1] == es[..i] + [es[i]];
      ListBytesAppend(es[..i], es[i]);
      ListPrefix(es, i + 1);
    } else {
      assert es[..i] == es;
    }
  }

  // ---------- Reading ----------

  /** The entries from p to the end of the packet, None if the last one is cut off. */
  function ParseList(buf: seq<Byte>, p: nat, end: nat, withQos: bool): Option<seq<Entry>>
    requires end <= |buf|
    decreases end - p
  {
    if p >= end then Some([])
    else
      match ReadString(buf, p, end)
      case None => None
      case Some(t) =>
        var q := p + 2 + |t|;
        if withQos && q >= end then None
        else
          var e := Entry(t, if withQos then Some(ByteAt(buf, q)) else None);
          match ParseList(buf, if withQos then q + 1 else q, end, withQos)
          case None => None
          case Some(es) => Some([e] + es)
  }

  /** The loop over the entries: all of them, or it gives up. */
  method ReadList(buf: seq<Byte>, p: nat, end: nat, withQos: bool) returns (whole: bool, es: seq<Entry>)
    requires end <= |buf|
    ensures ParseList(buf, p, end, withQos) == if whole then Some(es) else None
  {
    hide ReadString, ByteAt;
    es := [];
    var curdata := p;
    ghost var goal := ParseList(buf, p, end, withQos);
    assert goal.Some? ==> es + goal.value == goal.value;
    while curdata < end
      invariant var l := ParseList(buf, curdata, end, withQos);
                goal == if l.Some? then Some(es + l.value) else None
      decreases end - curdata
    {
      var t := ReadString(buf, curdata, end);
      if t == None {
        return false, es;
      }
      curdata := curdata + 2 + |t.value|;
      var qos := None;
      if withQos {
        if curdata >= end {
          return false, es;
        }
        qos := Some(ByteAt(buf, curdata));
        curdata := curdata + 1;
      }
      ghost var l := ParseList(buf, curdata, end, withQos);
      assert l.Some? ==> es + ([Entry(t.value, qos)] + l.value) == es + [Entry(t.value, qos)] + l.value;
      es := es + [Entry(t.value, qos)];
    }
    assert es + [] == es;
    whole := true;
  }

  /** Reads either kind of packet.  `wrong` is what the C function returns for another packet
      type (-1 or 0).  A list that is cut off also returns 1 when its length field is one byte. */
  method Deserialize(buf: seq<Byte>, type_: nat, withQos: bool, wrong: int)
    returns (rc: int, dup: nat, id: nat, es: seq<Entry>)
    requires Framed(buf) && wrong <= 0
    ensures buf[0] / 16 != type_ ==> rc == wrong
    ensures buf[0] / 16 == type_ ==>
              && dup == buf[0] / 8 % 2 && id == ReadInt(buf, BodyStart(buf))
              && var l := ParseList(buf, BodyStart(buf) + 2, BodyEnd(buf), withQos);
              && (l.Some? ==> rc == 1 && es == l.value)
              && (rc == 1 <==> l.Some? || BodyStart(buf) == 2)
  {
    hide Decoding, ReadInt, ParseList;
    rc, dup, id, es := wrong, 0, 0, [];
    var header := buf[0];
    if header / 16 != type_ {
      return;
    }
    dup := header / 8 % 2;
    var width, mylen := DecodeBuf(buf, 1);
    rc := width;
    var curdata := 1 + width;
    var enddata := curdata + mylen;
    id := ReadInt(buf, curdata);
    var whole;
    whole, es := ReadList(buf, curdata + 2, enddata, withQos);
    if whole {
      rc := 1;
    }
  }

  // ---------- Round trip ----------

  lemma {:induction false} ParseListBack(buf: seq<Byte>, p: nat, es: seq<Entry>, end: nat, withQos: bool)
    requires At(buf, p, ListBytes(es)) && OfKind(es, withQos) && end == p + |ListBytes(es)| <= |buf|
    ensures ParseList(buf, p, end, withQos) == Some(es)
    decreases |es|
  {
    hide At, ReadString, ByteAt, Str;
    if es != [] {
      var e := es[0];
      AtSplit(buf, p, EntryBytes(e), ListBytes(es[1..]));
      AtSplit(buf, p, Str(e.topic), Tail(e));
      ReadStringBack(buf, p, e.topic, end);
      var q := p + 2 + |e.topic|;
      if withQos {
        QosBack(buf, q, e.qos.value);
      }
      ParseListBack(buf, q + |Tail(e)|, es[1..], end, withQos);
      assert [e] + es[1..] == es;
    }
  }

  lemma QosBack(buf: seq<Byte>, q: nat, b: Byte)
    requires At(buf, q, [b])
    ensures ByteAt(buf, q) == b && q < |buf|
  {
    AtIndex(buf, q, [b], 0);
  }

  /** Whatever list is sent is received, in order, in any buffer that holds the packet. */
  lemma RoundTrip(type_: nat, dup: nat, id: nat, es: seq<Entry>, withQos: bool, tail: seq<Byte>)
    requires type_ < 16 && dup < 2 && id < 65536
    requires OfKind(es, withQos) && 2 + |ListBytes(es)| <= MAX_LENGTH
    ensures var buf := Image(AsPacket(type_, dup, id, es)) + tail;
            && Framed(buf) && buf[0] / 16 == type_ && buf[0] / 8 % 2 == dup
            && ReadInt(buf, BodyStart(buf)) == id
            && ParseList(buf, BodyStart(buf) + 2, BodyEnd(buf), withQos) == Some(es)
  {
    hide Decoding, Encoding, Image, At, ListBytes, Framed, BodyStart, BodyEnd, ReadInt, ParseList, Int2, Header;
    var p := AsPacket(type_, dup, id, es);
    var buf := Image(p) + tail;
    ImageIsFramed(p, tail);
    AtSplit(buf, BodyStart(buf), Int2(id), ListBytes(es));
    ReadIntBack(buf, BodyStart(buf), id);
    ParseListBack(buf, BodyStart(buf) + 2, es, BodyEnd(buf), withQos);
  }

  /** An id and half a filter length: the list is cut off, and the deserializer returns 1. */
  lemma CutListReturnsOne()
    ensures var buf: seq<Byte> := [0x82, 3, 0, 1, 0];
            && Framed(buf) && buf[0] / 16 == SUBSCRIBE && BodyStart(buf) == 2
            && ParseList(buf, BodyStart(buf) + 2, BodyEnd(buf), true) == None
  {
    var buf: seq<Byte> := [0x82, 3, 0, 1, 0];
    assert buf[1..][0] == 3;
    assert Decoding(buf[1..], 4) == Some(Field(3, 1));
    assert BodyEnd(buf) == 5 && ReadString(buf, 4, 5) == None;
  }
}
