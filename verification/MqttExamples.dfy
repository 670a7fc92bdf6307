/** Packets byte by byte: headers for all values of their fields, and the examples of MQTT
    Version 3.1.1. */
module MqttExamples {
  import opened Bytes
  import opened Framing
  import opened MqttFields
  import opened SessionSpec
  import C = MqttConnect
  import P = MqttPublish
  import S = MqttSubscribe
  import MqttClient

  // ---------- Length fields (section 2.2.3) ----------

  /** The first and the last length of each width. */
  lemma LengthFields()
    ensures Encoding(0) == [0x00] && Encoding(127) == [0x7f]
    ensures Encoding(128) == [0x80, 0x01] && Encoding(16383) == [0xff, 0x7f]
    ensures Encoding(16384) == [0x80, 0x80, 0x01] && Encoding(2097151) == [0xff, 0xff, 0x7f]
    ensures Encoding(2097152) == [0x80, 0x80, 0x80, 0x01] && Encoding(268435455) == [0xff, 0xff, 0xff, 0x7f]
  {
    assert Encoding(1) == [1] && Encoding(127) == [0x7f];
    assert Encoding(128) == [0x80, 0x01] && Encoding(16383) == [0xff, 0x7f];
    assert Encoding(16384) == [0x80, 0x80, 0x01] && Encoding(2097151) == [0xff, 0xff, 0x7f];
  }

  lemma ShortImage(p: Packet)
    requires |p.body| < 128
    ensures Image(p) == [p.header, |p.body|] + p.body
  {
  }

  // ---------- Header bytes (section 2.2) ----------

  /** Sections 3.8.1 and 3.10.1: the reserved bits are 0010. */
  lemma SubscribeHeader(type_: nat, dup: nat, id: nat, es: seq<S.Entry>)
    requires type_ < 16 && dup < 2
    ensures Image(S.AsPacket(type_, dup, id, es))[0] == 16 * type_ + 8 * dup + 2
    ensures type_ == SUBSCRIBE && dup == 0 ==> Image(S.AsPacket(type_, dup, id, es))[0] == 0x82
    ensures type_ == UNSUBSCRIBE && dup == 0 ==> Image(S.AsPacket(type_, dup, id, es))[0] == 0xa2
  {
    hide S.ListBytes;
  }

  /** Section 3.3.1: DUP, two bits of QoS, RETAIN. */
  lemma PublishHeader(m: P.Publish)
    requires m.dup < 2 && m.qos < 4 && m.retained < 2
    ensures Image(P.AsPacket(m))[0] == 0x30 + 8 * m.dup + 2 * m.qos + m.retained
  {
    hide P.Body;
  }

  lemma HeaderIs(type_: nat, dup: nat, qos: nat, retain: nat)
    requires type_ < 16 && dup < 2 && qos < 4 && retain < 2
    ensures Header(type_, dup, qos, retain) == 16 * type_ + 8 * dup + 2 * qos + retain
  {
  }

  lemma AckImage(type_: nat, id: nat)
    requires type_ < 16 && id < 65536
    ensures AckBytes(type_, id) == [16 * type_ + if type_ == 6 then 2 else 0, 2, id / 256, id % 256]
  {
    hide Image, Header;
    HeaderIs(type_, 0, if type_ == 6 then 1 else 0, 0);
    ShortImage(P.AckPacket(type_, 0, id));
  }

  /** Sections 3.4 to 3.7: four bytes each; the reserved bits of PUBREL are 0010. */
  lemma AckImages(id: nat)
    requires id < 65536
    ensures AckBytes(PUBACK, id) == [0x40, 2, id / 256, id % 256]
    ensures AckBytes(PUBREC, id) == [0x50, 2, id / 256, id % 256]
    ensures AckBytes(PUBREL, id) == [0x62, 2, id / 256, id % 256]
    ensures AckBytes(PUBCOMP, id) == [0x70, 2, id / 256, id % 256]
  {
    hide AckBytes;
    AckImage(PUBACK, id);
    AckImage(PUBREC, id);
    AckImage(PUBREL, id);
    AckImage(PUBCOMP, id);
  }

  /** Sections 3.12 and 3.14. */
  lemma EmptyPackets()
    ensures PINGREQ_BYTES == [0xc0, 0] && Image(MqttClient.GOODBYE) == [0xe0, 0]
  {
    hide Image, Header;
    HeaderIs(PINGREQ, 0, 0, 0);
    HeaderIs(DISCONNECT, 0, 0, 0);
    ShortImage(Packet(Header(PINGREQ, 0, 0, 0), []));
    ShortImage(MqttClient.GOODBYE);
  }

  // ---------- Whole packets ----------

  lemma ShortString(t: seq<Byte>)
    requires |t| < 256
    ensures Str(t) == [0, |t|] + t
  {
  }

  lemma SameParts(f: seq<Byte>, a: seq<Byte>, b: seq<Byte>, c: seq<Byte>, d: seq<Byte>)
    ensures f + a + b + c + d == f + (a + b + c + d)
  {
  }

  const ALL_FIELDS: C.Connect :=
    C.Connect(4, [0x63], 10, 1, Some(C.Will([0x77], [0x01], 0, 1)), Some([0x75]), Some([0x70]))

  lemma AllFieldsFront()
    ensures C.Front(ALL_FIELDS) == [0, 4, 0x4d, 0x51, 0x54, 0x54, 4, 0xce, 0, 10]
  {
    hide Str;
    ShortString([0x4d, 0x51, 0x54, 0x54]);
    assert C.Flags(ALL_FIELDS) == 0xce;
  }

  lemma AllFieldsBody()
    ensures C.Body(ALL_FIELDS)
            == [0, 4, 0x4d, 0x51, 0x54, 0x54, 4, 0xce, 0, 10]
               + [0, 1, 0x63, 0, 1, 0x77, 0, 1, 0x01, 0, 1, 0x75, 0, 1, 0x70]
  {
    hide Str, C.Front, C.Flags;
    AllFieldsFront();
    ShortString([0x63]);
    ShortString([0x77]);
    ShortString([0x01]);
    ShortString([0x75]);
    ShortString([0x70]);
    var will: seq<Byte> := [0, 1, 0x77, 0, 1, 0x01];
    assert C.WillBytes(ALL_FIELDS.will) == will;
    SameParts(C.Front(ALL_FIELDS), [0, 1, 0x63], will, [0, 1, 0x75], [0, 1, 0x70]);
  }

  /** A CONNECT with all fields; name, level, flags and keep-alive time as in section 3.1.2. */
  lemma ConnectImage()
    ensures Image(C.AsPacket(ALL_FIELDS))
            == [0x10, 25] + ([0, 4, 0x4d, 0x51, 0x54, 0x54, 4, 0xce, 0, 10]
               + [0, 1, 0x63, 0, 1, 0x77, 0, 1, 0x01, 0, 1, 0x75, 0, 1, 0x70])
  {
    hide Image, C.Body, Header;
    AllFieldsBody();
    HeaderIs(CONNECT, 0, 0, 0);
    ShortImage(C.AsPacket(ALL_FIELDS));
  }

  const OLD_PROTOCOL: C.Connect := C.Connect(3, [], 0x0102, 0, Some(C.Will([0x77], [], 1, 2)), None, None)

  lemma OldFront()
    ensures C.Front(OLD_PROTOCOL) == [0, 6, 0x4d, 0x51, 0x49, 0x73, 0x64, 0x70, 3, 0x34, 1, 2]
  {
    hide Str;
    ShortString([0x4d, 0x51, 0x49, 0x73, 0x64, 0x70]);
    assert C.Flags(OLD_PROTOCOL) == 0x34;
  }

  /** The older protocol: its name and level, a retained will of QoS 2, no login. */
  lemma OldConnectImage()
    ensures Image(C.AsPacket(OLD_PROTOCOL))
            == [0x10, 19] + ([0, 6, 0x4d, 0x51, 0x49, 0x73, 0x64, 0x70, 3, 0x34, 1, 2] + [0, 0, 0, 1, 0x77, 0, 0])
  {
    hide Image, C.Front, C.Flags, Str, Header;
    OldFront();
    ShortString([]);
    ShortString([0x77]);
    var will: seq<Byte> := [0, 1, 0x77, 0, 0];
    assert C.WillBytes(OLD_PROTOCOL.will) == will;
    var none: seq<Byte> := [];
    SameParts(C.Front(OLD_PROTOCOL), [0, 0], will, none, none);
    assert [0, 0] + will + none + none == [0, 0, 0, 1, 0x77, 0, 0];
    HeaderIs(CONNECT, 0, 0, 0);
    ShortImage(C.AsPacket(OLD_PROTOCOL));
  }

  /** Section 3.2: session present, return code 5. */
  lemma ConnackImage()
    ensures Image(C.ConnackPacket(C.Connack(1, 5))) == [0x20, 2, 1, 5]
  {
    hide Image, Header;
    HeaderIs(CONNACK, 0, 0, 0);
    ShortImage(C.ConnackPacket(C.Connack(1, 5)));
  }

  /** Topic "a/b" and packet identifier 10 as in section 3.3.2, and a message of QoS 0. */
  lemma PublishImages()
    ensures Image(P.AsPacket(P.Publish(0, 1, 0, 10, [0x61, 0x2f, 0x62], [7, 8])))
            == [0x32, 9, 0, 3, 0x61, 0x2f, 0x62, 0, 10, 7, 8]
    ensures Image(P.AsPacket(P.Publish(1, 0, 1, 10, [0x61], [7]))) == [0x39, 4, 0, 1, 0x61, 7]
  {
    hide Image, Header, Str;
    HeaderIs(PUBLISH, 0, 1, 0);
    HeaderIs(PUBLISH, 1, 0, 1);
    ShortString([0x61, 0x2f, 0x62]);
    ShortString([0x61]);
    ShortImage(P.AsPacket(P.Publish(0, 1, 0, 10, [0x61, 0x2f, 0x62], [7, 8])));
    ShortImage(P.AsPacket(P.Publish(1, 0, 1, 10, [0x61], [7])));
  }

  lemma TwoEntries(a: S.Entry, b: S.Entry)
    ensures S.ListBytes([a, b]) == S.EntryBytes(a) + S.EntryBytes(b)
  {
    hide S.EntryBytes;
    assert [a, b][1..] == [b];
    assert S.ListBytes([b]) == S.EntryBytes(b) + S.ListBytes([b][1..]);
  }

  /** The filters "a/b" and "c/d" of section 3.8.3, packet identifier 10. */
  lemma SubscribeImage()
    ensures var a, b := S.Entry([0x61, 0x2f, 0x62], Some(1)), S.Entry([0x63, 0x2f, 0x64], Some(2));
            Image(S.AsPacket(SUBSCRIBE, 0, 10, [a, b]))
            == [0x82, 14] + [0, 10] + [0, 3, 0x61, 0x2f, 0x62, 1] + [0, 3, 0x63, 0x2f, 0x64, 2]
  {
    hide Image, Header, Str, S.ListBytes;
    var a, b := S.Entry([0x61, 0x2f, 0x62], Some(1)), S.Entry([0x63, 0x2f, 0x64], Some(2));
    HeaderIs(SUBSCRIBE, 0, 1, 0);
    TwoEntries(a, b);
    ShortString(a.topic);
    ShortString(b.topic);
    ShortImage(S.AsPacket(SUBSCRIBE, 0, 10, [a, b]));
  }

  /** The same filters given back, section 3.10.3. */
  lemma UnsubscribeImage()
    ensures var a, b := S.Entry([0x61, 0x2f, 0x62], None), S.Entry([0x63, 0x2f, 0x64], None);
            Image(S.AsPacket(UNSUBSCRIBE, 0, 10, [a, b]))
            == [0xa2, 12] + [0, 10] + [0, 3, 0x61, 0x2f, 0x62] + [0, 3, 0x63, 0x2f, 0x64]
  {
    hide Image, Header, Str, S.ListBytes;
    var a, b := S.Entry([0x61, 0x2f, 0x62], None), S.Entry([0x63, 0x2f, 0x64], None);
    HeaderIs(UNSUBSCRIBE, 0, 1, 0);
    TwoEntries(a, b);
    ShortString(a.topic);
    ShortString(b.topic);
    ShortImage(S.AsPacket(UNSUBSCRIBE, 0, 10, [a, b]));
  }
}
