/** CONNECT packets (section 3.1 of MQTT Version 3.1.1) and the reply to them (section 3.2). */
module MqttConnect {
  import opened Bytes
  import opened Slices
  import opened Framing
  import opened MqttFields

  datatype Will = Will(topic: seq<Byte>, message: seq<Byte>, retained: nat, qos: nat)

  /** What travels in a CONNECT. */
  datatype Connect = Connect(version: nat, clientID: seq<Byte>, keepAlive: nat, cleansession: nat,
                             will: Option<Will>, username: Option<seq<Byte>>, password: Option<seq<Byte>>)

  /** The options as the caller gives them. */
  datatype Options = Options(version: nat, clientID: MqttString, keepAlive: nat, cleansession: nat, willFlag: bool,
                             willTopic: MqttString, willMessage: MqttString, willRetained: nat, willQos: nat,
                             username: MqttString, password: MqttString)

  function TextIf(s: MqttString): Option<seq<Byte>> {
    if Present(s) then Some(Text(s)) else None
  }

  /** Any version but 4 is written as version 3. */
  function Sent(o: Options): Connect {
    Connect(if o.version == 4 then 4 else 3, Text(o.clientID), o.keepAlive, o.cleansession,
            if o.willFlag then Some(Will(Text(o.willTopic), Text(o.willMessage), o.willRetained, o.willQos)) else None,
            TextIf(o.username), TextIf(o.password))
  }

  const MQTT: seq<Byte> := [77, 81, 84, 84]
  const MQISDP: seq<Byte> := [77, 81, 73, 115, 100, 112]

  function Protocol(version: nat): seq<Byte> {
    if version == 4 then MQTT else MQISDP
  }

  function Bit(b: bool): nat {
    if b then 1 else 0
  }

  /** The flags byte: bits 1 clean session, 2 will, 3-4 will QoS, 5 will retain, 6 password, 7 user name. */
  function Flags(c: Connect): Byte {
    var qos := if c.will.Some? then c.will.value.qos % 4 else 0;
    var retain := if c.will.Some? then c.will.value.retained % 2 else 0;
    c.cleansession % 2 * 2 + Bit(c.will.Some?) * 4 + qos * 8 + retain * 32
    + Bit(c.password.Some?) * 64 + Bit(c.username.Some?) * 128
  }

  lemma FlagBits(c: Connect)
    ensures var f := Flags(c);
            && f / 2 % 2 == c.cleansession % 2 && f / 4 % 2 == Bit(c.will.Some?)
            && (c.will.Some? ==> f / 8 % 4 == c.will.value.qos % 4 && f / 32 % 2 == c.will.value.retained % 2)
            && f / 64 % 2 == Bit(c.password.Some?) && f / 128 == Bit(c.username.Some?)
  {
    var qos := if c.will.Some? then c.will.value.qos % 4 else 0;
    var retain := if c.will.Some? then c.will.value.retained % 2 else 0;
    var f := Flags(c);
    assert f / 128 == Bit(c.username.Some?);
    assert f / 64 == 2 * Bit(c.username.Some?) + Bit(c.password.Some?);
    assert f / 32 == 2 * (f / 64) + retain;
    assert f / 8 == 4 * (f / 32) + qos;
    assert f / 4 == 2 * (f / 8) + Bit(c.will.Some?);
    assert f / 2 == 2 * (f / 4) + c.cleansession % 2;
  }

  function Front(c: Connect): seq<Byte> {
    Str(Protocol(c.version)) + [if c.version == 4 then 4 else 3] + [Flags(c)] + Int2(c.keepAlive)
  }

  function OptStr(t: Option<seq<Byte>>): seq<Byte> {
    if t.Some? then Str(t.value) else []
  }

  function WillBytes(w: Option<Will>): seq<Byte> {
    if w.Some? then Str(w.value.topic) + Str(w.value.message) else []
  }

  function Body(c: Connect): seq<Byte> {
    Front(c) + Str(c.clientID) + WillBytes(c.will) + OptStr(c.username) + OptStr(c.password)
  }

  function AsPacket(c: Connect): Packet {
    Packet(Header(CONNECT, 0, 0, 0), Body(c))
  }

  // ---------- Writing ----------

  function LengthIf(s: MqttString): nat {
    if Present(s) then Strlen(s) + 2 else 0
  }

  /** The precomputed remaining length. */
  function ConnectLength(o: Options): nat {
    (if o.version == 3 then 12 else if o.version == 4 then 10 else 0)
    + Strlen(o.clientID) + 2
    + (if o.willFlag then Strlen(o.willTopic) + 2 + Strlen(o.willMessage) + 2 else 0)
    + LengthIf(o.username) + LengthIf(o.password)
  }

  predicate OneLengths(o: Options) {
    && OneLength(o.clientID) && OneLength(o.username) && OneLength(o.password)
    && (o.willFlag ==> OneLength(o.willTopic) && OneLength(o.willMessage))
  }

  /** The announced length is right exactly for the two protocol versions there are. */
  lemma LengthIsRight(o: Options)
    requires OneLengths(o)
    ensures ConnectLength(o) == |Body(Sent(o))| <==> o.version in {3, 4}
  {
    hide Flags, Text, Strlen;
  }

  method WriteIf(buf: array<Byte>, ptr: nat, cond: bool, s: MqttString, ghost was: seq<Byte>, ghost done: seq<Byte>)
    returns (next: nat, ghost more: seq<Byte>)
    requires |was| == buf.Length && ptr == |done| && |done| + |StrIf(cond, s)| <= buf.Length
    requires buf[..] == Splice(was, 0, done)
    modifies buf
    ensures more == done + StrIf(cond, s) && next == |more| <= buf.Length
    ensures buf[..] == Splice(was, 0, more)
  {
    hide Splice, Text, Int2;
    next, more := ptr, done;
    if cond {
      SpliceMore(was, 0, done, Str(Text(s)));
      next := WriteString(buf, ptr, s);
      more := done + Str(Text(s));
    } else {
      assert done + [] == done;
    }
  }

  function StrIf(cond: bool, s: MqttString): seq<Byte> {
    if cond then Str(Text(s)) else []
  }

  lemma ImageParts(o: Options)
    ensures var c := Sent(o);
            var front := [Header(CONNECT, 0, 0, 0)] + Encoding(|Body(c)|) + Front(c);
            var a, b, d := StrIf(true, o.clientID), StrIf(o.willFlag, o.willTopic), StrIf(o.willFlag, o.willMessage);
            var e, f := StrIf(Present(o.username), o.username), StrIf(Present(o.password), o.password);
            && Image(AsPacket(c)) == front + a + b + d + e + f
            && |Image(AsPacket(c))| == |front| + |a| + |b| + |d| + |e| + |f|
            && |front| == 1 + |Encoding(|Body(c)|)| + |Front(c)|
  {
    hide Header, Encoding, Front, Str, Text;
    var c := Sent(o);
    var b, d := StrIf(o.willFlag, o.willTopic), StrIf(o.willFlag, o.willMessage);
    assert WillBytes(c.will) == b + d;
    var e, f := StrIf(Present(o.username), o.username), StrIf(Present(o.password), o.password);
    assert e == OptStr(c.username) && f == OptStr(c.password);
    Regroup([Header(CONNECT, 0, 0, 0)] + Encoding(|Body(c)|), Front(c), StrIf(true, o.clientID), b, d, e, f);
  }

  lemma Regroup(h: seq<Byte>, g: seq<Byte>, a: seq<Byte>, b: seq<Byte>, d: seq<Byte>, e: seq<Byte>, f: seq<Byte>)
    ensures h + (g + a + (b + d) + e + f) == h + g + a + b + d + e + f
  {
    assert g + a + (b + d) + e + f == g + a + b + d + e + f;
    assert h + (g + a + b + d + e + f) == h + (g + a + b + d + e) + f;
    assert h + (g + a + b + d + e) == h + (g + a + b + d) + e;
    assert h + (g + a + b + d) == h + (g + a + b) + d;
    assert h + (g + a + b) == h + g + a + b;
  }

  lemma CStringText(s: MqttString)
    requires s.cstring.Some? && s.lenstring == None
    ensures Text(s) == s.cstring.value
  {
  }

  /** Writes a whole packet or nothing: never past the buffer, always what was announced. */
  method Serialize(buf: array<Byte>, o: Options) returns (rc: int)
    requires OneLengths(o) && o.version in {3, 4} && ConnectLength(o) <= MAX_LENGTH
    modifies buf
    ensures var p := AsPacket(Sent(o));
            if PacketLen(|p.body|) > buf.Length then rc == -2 && buf[..] == old(buf[..])
            else rc == |Image(p)| <= buf.Length && buf[..] == Splice(old(buf[..]), 0, Image(p))
  {
    hide Splice, Encoding, Header, Str, Text, OneLength, Image, Body, Front, ConnectLength;
    ghost var was, c := buf[..], Sent(o);
    LengthIsRight(o);
    ImageParts(o);
    var rem := ConnectLength(o);
    if PacketLen(rem) > buf.Length {
      return -2;
    }
    EstimateIsSafe(rem);
    var ptr, done := WriteFront(buf, o, rem);
    ptr, done := WriteIf(buf, ptr, true, o.clientID, was, done);
    ptr, done := WriteIf(buf, ptr, o.willFlag, o.willTopic, was, done);
    ptr, done := WriteIf(buf, ptr, o.willFlag, o.willMessage, was, done);
    ptr, done := WriteIf(buf, ptr, Present(o.username), o.username, was, done);
    ptr, done := WriteIf(buf, ptr, Present(o.password), o.password, was, done);
    rc := ptr;
  }

  /** Header, length, protocol name and version, flags and keep-alive time. */
  method WriteFront(buf: array<Byte>, o: Options, rem: nat) returns (ptr: nat, ghost done: seq<Byte>)
    requires 1 + |Encoding(rem)| + |Front(Sent(o))| <= buf.Length
    modifies buf
    ensures done == [Header(CONNECT, 0, 0, 0)] + Encoding(rem) + Front(Sent(o)) && ptr == |done|
    ensures buf[..] == Splice(old(buf[..]), 0, done)
  {
    hide Splice, Encoding, Header, Int2, Flags, Text;
    ghost var was := buf[..];
    ptr := StartPacket(buf, Header(CONNECT, 0, 0, 0), rem);
    done := [Header(CONNECT, 0, 0, 0)] + Encoding(rem);
    var name := MqttString(Some(Protocol(Sent(o).version)), None);
    CStringText(name);
    SpliceMore(was, 0, done, Str(Text(name)));
    ptr := WriteString(buf, ptr, name);
    done := done + Str(Text(name));
    var v := if o.version == 4 then 4 else 3;
    SpliceMore(was, 0, done, [v]);
    ptr := WriteChar(buf, ptr, v);
    done := done + [v];
    var f := Flags(Sent(o));
    SpliceMore(was, 0, done, [f]);
    ptr := WriteChar(buf, ptr, f);
    done := done + [f];
    SpliceMore(was, 0, done, Int2(o.keepAlive));
    ptr := WriteInt(buf, ptr, o.keepAlive);
    done := done + Int2(o.keepAlive);
    assert done == [Header(CONNECT, 0, 0, 0)] + Encoding(rem) + Front(Sent(o));
  }

  // ---------- Reading ----------

  /** The protocol name is compared over the shorter of the two lengths only, so an abbreviated
      or extended name passes. */
  predicate CheckVersion(name: seq<Byte>, version: Byte) {
    && version in {3, 4}
    && var want := Protocol(version);
    && var n := if |name| < |want| then |name| else |want|;
    && name[..n] == want[..n]
  }

  /** A name is accepted exactly if it is the beginning of the right one or begins with it. */
  lemma VersionAcceptedExactlyIf(name: seq<Byte>, version: Byte)
    ensures CheckVersion(name, version) <==>
              version in {3, 4} && (name <= Protocol(version) || Protocol(version) <= name)
    ensures CheckVersion(name, version) ==>
              (name == Protocol(version) <==> !(name < Protocol(version)) && !(Protocol(version) < name))
  {
    if version in {3, 4} {
      var want := Protocol(version);
      if |name| < |want| {
        assert name[..|name|] == name;
      } else {
        assert want[..|want|] == want;
      }
    }
  }

  /** No name at all, and one with more behind it. */
  lemma WrongNamesAccepted()
    ensures CheckVersion([], 4) && CheckVersion(MQTT + [88], 4)
  {
  }

  /** User name and password, None where the deserializer gives up. */
  function ParseLogin(buf: seq<Byte>, p: nat, end: nat, user: bool, pass: bool): Option<(Option<seq<Byte>>, Option<seq<Byte>>)>
    requires end <= |buf|
  {
    if !user then (if pass then None else Some((None, None)))
    else if end - p < 3 || ReadString(buf, p, end) == None then None
    else
      var u := ReadString(buf, p, end).value;
      var q := p + 2 + |u|;
      if !pass then Some((Some(u), None))
      else if end - q < 3 || ReadString(buf, q, end) == None then None
      else Some((Some(u), ReadString(buf, q, end)))
  }

  /** The will, and the position behind it. */
  function ParseWill(buf: seq<Byte>, p: nat, end: nat, f: Byte): Option<(Option<Will>, nat)>
    requires end <= |buf|
  {
    if f / 4 % 2 == 0 then Some((None, p))
    else
      match ReadString(buf, p, end)
      case None => None
      case Some(t) =>
        match ReadString(buf, p + 2 + |t|, end)
        case None => None
        case Some(m) => Some((Some(Will(t, m, f / 32 % 2, f / 8 % 4)), p + 2 + |t| + 2 + |m|))
  }

  function ParseBody(buf: seq<Byte>, p: nat, end: nat, version: Byte): Option<Connect>
    requires end <= |buf|
  {
    var f := ByteAt(buf, p);
    match ReadString(buf, p + 3, end)
    case None => None
    case Some(id) =>
      match ParseWill(buf, p + 3 + 2 + |id|, end, f)
      case None => None
      case Some((will, q)) =>
        match ParseLogin(buf, q, end, f / 128 == 1, f / 64 % 2 == 1)
        case None => None
        case Some((user, pass)) =>
          Some(Connect(version, id, ReadInt(buf, p + 1), f / 2 % 2, will, user, pass))
  }

  /** The fields of a CONNECT whose packet ends at `len`. */
  function Parse(buf: seq<Byte>, len: nat): Option<Connect>
    requires buf != [] && Decoding(buf[1..], 4).Some? && len <= |buf|
  {
    var p := 1 + Decoding(buf[1..], 4).value.width;
    if buf[0] / 16 != CONNECT then None
    else
      match ReadString(buf, p, len)
      case None => None
      case Some(name) =>
        var q := p + 2 + |name|;
        if CheckVersion(name, ByteAt(buf, q)) then ParseBody(buf, q + 1, len, ByteAt(buf, q)) else None
  }

  /** Nothing but a CONNECT of one of the two versions, without a password on its own, is read as one. */
  lemma ReadMeans(buf: seq<Byte>, len: nat)
    requires buf != [] && Decoding(buf[1..], 4).Some? && len <= |buf|
    ensures var c := Parse(buf, len);
            c.Some? ==>
              && 0x10 <= buf[0] < 0x20 && c.value.version in {3, 4}
              && (c.value.password.Some? ==> c.value.username.Some?)
              && (c.value.will.Some? ==> c.value.will.value.retained < 2 && c.value.will.value.qos < 4)
              && c.value.cleansession < 2
  {
    hide Decoding, ReadString, ByteAt, ReadInt;
  }

  /** Reads a CONNECT; 1 exactly when all fields could be read. */
  method Deserialize(buf: seq<Byte>, len: nat) returns (rc: nat, c: Option<Connect>)
    requires buf != [] && Decoding(buf[1..], 4).Some? && len <= |buf|
    ensures c == Parse(buf, len)
    ensures rc == 1 <==> c.Some?
  {
    hide Decoding, ReadString, ReadInt, ByteAt, CheckVersion;
    rc, c := 0, None;
    if buf[0] / 16 != CONNECT {
      return;
    }
    var width, mylen := DecodeBuf(buf, 1);
    var curdata := 1 + width;
    var name := ReadString(buf, curdata, len);
    if name == None {
      return;
    }
    curdata := curdata + 2 + |name.value|;
    var version := ByteAt(buf, curdata);
    curdata := curdata + 1;
    if CheckVersion(name.value, version) {
      c := ReadBody(buf, curdata, len, version);
      if c.Some? {
        rc := 1;
      }
    }
  }

  method ReadBody(buf: seq<Byte>, p: nat, end: nat, version: Byte) returns (c: Option<Connect>)
    requires end <= |buf|
    ensures c == ParseBody(buf, p, end, version)
  {
    hide ReadString, ReadInt, ByteAt;
    var curdata := p;
    var flags := ByteAt(buf, curdata);
    var keepAlive := ReadInt(buf, curdata + 1);
    curdata := curdata + 3;
    var clientID := ReadString(buf, curdata, end);
    if clientID == None {
      return None;
    }
    curdata := curdata + 2 + |clientID.value|;
    var will := None;
    if flags / 4 % 2 == 1 {
      var topic := ReadString(buf, curdata, end);
      if topic == None {
        return None;
      }
      curdata := curdata + 2 + |topic.value|;
      var message := ReadString(buf, curdata, end);
      if message == None {
        return None;
      }
      curdata := curdata + 2 + |message.value|;
      will := Some(Will(topic.value, message.value, flags / 32 % 2, flags / 8 % 4));
    }
    var username, password := None, None;
    if flags / 128 == 1 {
      username := ReadString(buf, curdata, end);
      if end - curdata < 3 || username == None {
        return None;
      }
      curdata := curdata + 2 + |username.value|;
      if flags / 64 % 2 == 1 {
        password := ReadString(buf, curdata, end);
        if end - curdata < 3 || password == None {
          return None;
        }
      }
    } else if flags / 64 % 2 == 1 {
      return None;
    }
    c := Some(Connect(version, clientID.value, keepAlive, flags / 2 % 2, will, username, password));
  }

  // ---------- Round trip ----------

  predicate Sendable(c: Connect) {
    && c.version in {3, 4} && c.keepAlive < 65536 && c.cleansession < 2
    && |c.clientID| < 65536
    && (c.will.Some? ==> |c.will.value.topic| < 65536 && |c.will.value.message| < 65536
                         && c.will.value.retained < 2 && c.will.value.qos < 4)
    && (c.username.Some? ==> |c.username.value| < 65536)
    && (c.password.Some? ==> |c.password.value| < 65536)
    && |Body(c)| <= MAX_LENGTH
  }

  /** A password needs a user name, and the last of the two must not be empty. */
  predicate LoginReadable(c: Connect) {
    if c.password.Some? then c.username.Some? && c.password.value != []
    else c.username.Some? ==> c.username.value != []
  }

  lemma LoginBack(buf: seq<Byte>, p: nat, end: nat, c: Connect)
    requires Sendable(c) && end <= |buf|
    requires At(buf, p, OptStr(c.username) + OptStr(c.password))
    requires end == p + |OptStr(c.username)| + |OptStr(c.password)|
    ensures ParseLogin(buf, p, end, c.username.Some?, c.password.Some?)
            == if LoginReadable(c) then Some((c.username, c.password)) else None
  {
    hide At, ReadString, Str, Body;
    AtSplit(buf, p, OptStr(c.username), OptStr(c.password));
    if c.username.Some? {
      ReadStringBack(buf, p, c.username.value, end);
      if c.password.Some? {
        ReadStringBack(buf, p + 2 + |c.username.value|, c.password.value, end);
      }
    }
  }

  lemma WillBack(buf: seq<Byte>, p: nat, end: nat, c: Connect)
    requires Sendable(c) && At(buf, p, WillBytes(c.will)) && p + |WillBytes(c.will)| <= end <= |buf|
    ensures ParseWill(buf, p, end, Flags(c)) == Some((c.will, p + |WillBytes(c.will)|))
  {
    hide At, ReadString, Str, Body, Flags;
    FlagBits(c);
    if c.will.Some? {
      AtSplit(buf, p, Str(c.will.value.topic), Str(c.will.value.message));
      ReadStringBack(buf, p, c.will.value.topic, end);
      ReadStringBack(buf, p + 2 + |c.will.value.topic|, c.will.value.message, end);
    }
  }

  lemma BodyBack(buf: seq<Byte>, p: nat, end: nat, c: Connect)
    requires Sendable(c) && end <= |buf|
    requires var rest := [Flags(c)] + Int2(c.keepAlive) + Str(c.clientID) + WillBytes(c.will)
                         + (OptStr(c.username) + OptStr(c.password));
             At(buf, p, rest) && end == p + |rest|
    ensures ParseBody(buf, p, end, c.version as Byte) == if LoginReadable(c) then Some(c) else None
  {
    hide At, ReadString, ReadInt, ByteAt, Str, Body, Flags, Int2, WillBytes, OptStr, ParseWill, ParseLogin, LoginReadable;
    var login := OptStr(c.username) + OptStr(c.password);
    AtSplit5(buf, p, [Flags(c)], Int2(c.keepAlive), Str(c.clientID), WillBytes(c.will), login);
    FlagIs(buf, p, Flags(c));
    ReadIntBack(buf, p + 1, c.keepAlive);
    ReadStringBack(buf, p + 3, c.clientID, end);
    var q := p + 3 + 2 + |c.clientID|;
    WillBack(buf, q, end, c);
    LoginBack(buf, q + |WillBytes(c.will)|, end, c);
    FlagBits(c);
  }

  lemma FlagIs(buf: seq<Byte>, p: nat, f: Byte)
    requires At(buf, p, [f])
    ensures ByteAt(buf, p) == f
  {
    AtIndex(buf, p, [f], 0);
  }

  /** Every CONNECT comes back field by field, in any buffer that holds it -- exactly when its
      login can be read: otherwise the reader refuses it. */
  lemma RoundTrip(c: Connect, tail: seq<Byte>)
    requires Sendable(c)
    ensures var p := AsPacket(c);
            var buf := Image(p) + tail;
            && Framed(buf)
            && Parse(buf, |Image(p)|) == if LoginReadable(c) then Some(c) else None
  {
    hide Decoding, Encoding, Image, At, ReadString, ReadInt, ByteAt, Header, Flags, Int2, WillBytes, OptStr,
         ParseBody, LoginReadable, Str;
    var p := AsPacket(c);
    var buf, end := Image(p) + tail, |Image(p)|;
    ImageIsFramed(p, tail);
    var at := BodyStart(buf);
    var name := Protocol(c.version);
    var login := OptStr(c.username) + OptStr(c.password);
    var rest := [Flags(c)] + Int2(c.keepAlive) + Str(c.clientID) + WillBytes(c.will) + login;
    BodyShape(c);
    AtSplit(buf, at, Str(name) + [c.version as Byte], rest);
    AtSplit(buf, at, Str(name), [c.version as Byte]);
    ReadStringBack(buf, at, name, end);
    FlagIs(buf, at + 2 + |name|, c.version);
    BodyBack(buf, at + 2 + |name| + 1, end, c);
  }

  lemma BodyShape(c: Connect)
    requires c.version in {3, 4}
    ensures var rest := [Flags(c)] + Int2(c.keepAlive) + Str(c.clientID) + WillBytes(c.will)
                        + (OptStr(c.username) + OptStr(c.password));
            Body(c) == Str(Protocol(c.version)) + [c.version as Byte] + rest
  {
    hide Flags, Int2, WillBytes, OptStr, Str, Protocol;
  }

  // ---------- The reply ----------

  datatype Connack = Connack(sessionPresent: nat, code: Byte)

  function ConnackPacket(c: Connack): Packet {
    Packet(Header(CONNACK, 0, 0, 0), [c.sessionPresent % 2, c.code])
  }

  /** The room asked for is two bytes, the packet takes four: with a `buflen` of two or three it is
      written past the end the caller gave. */
  method SerializeConnack(buf: array<Byte>, buflen: nat, c: Connack) returns (rc: int)
    requires buf.Length >= 4
    modifies buf
    ensures if buflen < 2 then rc == -2 && buf[..] == old(buf[..])
            else rc == 4 == |Image(ConnackPacket(c))| && buf[..] == Splice(old(buf[..]), 0, Image(ConnackPacket(c)))
  {
    hide Splice, Header;
    if buflen < 2 {
      return -2;
    }
    EncodingWidth(2);
    ghost var was := buf[..];
    var h := Header(CONNACK, 0, 0, 0);
    var ptr := StartPacket(buf, h, 2);
    ghost var front := [h] + Encoding(2);
    SpliceMore(was, 0, front, [c.sessionPresent % 2]);
    ptr := WriteChar(buf, ptr, c.sessionPresent % 2);
    SpliceMore(was, 0, front + [c.sessionPresent % 2], [c.code]);
    ptr := WriteChar(buf, ptr, c.code);
    assert front + [c.sessionPresent % 2] + [c.code] == front + [c.sessionPresent % 2, c.code];
    rc := ptr;
  }

  /** None for another packet, and for one too short to carry a code. */
  function ParseConnack(buf: seq<Byte>): Option<Connack>
    requires Framed(buf)
  {
    var p := BodyStart(buf);
    if buf[0] / 16 != CONNACK || BodyEnd(buf) - p < 2 then None
    else Some(Connack(buf[p] % 2, buf[p + 1]))
  }

  /** Reads a CONNACK; what is not there stays 0.  A packet too short also returns 1 when its
      length field is one byte. */
  method DeserializeConnack(buf: seq<Byte>) returns (rc: nat, c: Connack)
    requires Framed(buf)
    ensures c == if ParseConnack(buf).Some? then ParseConnack(buf).value else Connack(0, 0)
    ensures rc == 1 <==> ParseConnack(buf).Some? || (buf[0] / 16 == CONNACK && BodyStart(buf) == 2)
  {
    hide Decoding;
    rc, c := 0, Connack(0, 0);
    if buf[0] / 16 != CONNACK {
      return;
    }
    var mylen;
    rc, mylen := DecodeBuf(buf, 1);
    var curdata := 1 + rc;
    var enddata := curdata + mylen;
    if enddata - curdata < 2 {
      return;
    }
    c := Connack(buf[curdata] % 2, buf[curdata + 1]);
    rc := 1;
  }

  /** A packet can be read as a CONNACK exactly if it is one and has two bytes. */
  lemma ConnackReadableExactlyIf(buf: seq<Byte>)
    requires Framed(buf)
    ensures ParseConnack(buf).Some? <==> 0x20 <= buf[0] < 0x30 && BodyEnd(buf) - BodyStart(buf) >= 2
  {
    hide Framed, BodyStart, BodyEnd;
  }

  lemma ConnackRoundTrip(c: Connack, tail: seq<Byte>)
    requires c.sessionPresent < 2
    ensures var buf := Image(ConnackPacket(c)) + tail;
            Framed(buf) && ParseConnack(buf) == Some(c)
  {
    hide Decoding, Encoding, Image, At, Framed, BodyStart, BodyEnd;
    var p := ConnackPacket(c);
    var buf := Image(p) + tail;
    ImageIsFramed(p, tail);
    AtIndex(buf, BodyStart(buf), p.body, 0);
    AtIndex(buf, BodyStart(buf), p.body, 1);
  }
}
