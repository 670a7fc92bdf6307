/** The client session, step by step: what one cycle does with the packet it read, when it
    pings, when it gives the connection up -- and what any run of cycles guarantees.

    The transport and the clock are inputs.  The application's callbacks are taken not to
    call the client again. */
module SessionSpec {
  import opened Bytes
  import opened Framing
  import opened MqttFields
  import P = MqttPublish

  /** What one cycle meets: the result of reading (a packet type, 0 for a timeout, or an error),
      whether a whole packet arrived, what is in the read buffer then, whether sends succeed, and
      the clock before and during the cycle.  `junk` and `junkId` are what uninitialized locals
      hold when a deserializer gives up and still returns 1. */
  datatype Env = Env(rc: int, whole: bool, buf: seq<Byte>, sendOk: bool, pingOk: bool, start: nat, now: nat,
                     junk: P.Received, junkId: nat)

  /** What the client's reader promises, whatever the transport does. */
  predicate EnvOk(e: Env) {
    (e.rc > 0 ==> e.whole) && (e.whole ==> Framed(e.buf) && e.buf[0] / 16 == e.rc)
  }

  datatype Session = Session(isconnected: bool, cleansession: bool, pingOutstanding: bool,
                             keepAlive: nat, lastSent: nat, lastReceived: nat, timeOut: nat)

  datatype Event =
    | Got(buf: seq<Byte>)
    | Reply(bytes: seq<Byte>)
    | Pong
    | PingSent(bytes: seq<Byte>)
    | CycleFailed
    | Closed
    | Attempt(connect: seq<Byte>)
    | Accepted(connack: seq<Byte>)

  const PINGREQ_BYTES: seq<Byte> := Image(Packet(Header(PINGREQ, 0, 0, 0), []))

  // ---------- One cycle ----------

  /** What the switch over packet types decides: a reply to send, the message to deliver, the
      outcome so far, and whether keep-alive handling follows. */
  datatype Work = Work(reply: Option<seq<Byte>>, message: Option<P.Received>, rc: int, goesOn: bool)

  function AckBytes(type_: nat, id: nat): seq<Byte> {
    Image(P.AckPacket(type_, 0, id))
  }

  function Message(e: Env): P.Received
    requires Framed(e.buf)
  {
    match P.Parse(e.buf)
    case Some(m) => m
    case None =>
      var h := e.buf[0];
      e.junk.(dup := h / 8 % 2, qos := h / 2 % 4, retained := h % 2, id := None, payloadlen := 0)
  }

  function IdOr(id: Option<nat>, junk: nat): nat {
    if id.Some? then id.value else junk
  }

  function Switch(e: Env): Work
    requires EnvOk(e)
  {
    if e.rc == PUBLISH then
      if P.Parse(e.buf) == None && BodyStart(e.buf) != 2 then Work(None, None, 0, false)
      else
        var m := Message(e);
        var id := IdOr(m.id, e.junkId);
        if m.qos == 0 then Work(None, Some(m), 0, true)
        else if m.qos == 3 then Work(None, Some(m), -1, false)
        else
          var ack := AckBytes(if m.qos == 1 then PUBACK else PUBREC, id);
          Work(Some(ack), Some(m), if e.sendOk then 0 else -21, true)
    else if e.rc == PUBREC || e.rc == PUBREL then
      var a := P.ParseAck(e.buf);
      if a.id == None && BodyStart(e.buf) != 2 then Work(None, None, -1, false)
      else
        var ack := AckBytes(if e.rc == PUBREC then PUBREL else PUBCOMP, IdOr(a.id, e.junkId));
        Work(Some(ack), None, if e.sendOk then 0 else -1, e.sendOk)
    else if e.rc in {0, CONNACK, PUBACK, SUBACK, UNSUBACK, PUBCOMP, PINGRESP} then Work(None, None, 0, true)
    else Work(None, None, e.rc, false)
  }

  /** Pings when both deadlines have passed and no answer is outstanding. */
  function KeepAlive(s: Session, e: Env): (Session, seq<Event>, int) {
    if s.keepAlive == 0 || e.now < s.lastSent || e.now < s.lastReceived then (s, [], 0)
    else if s.pingOutstanding then (s, [], -9)
    else
      var s1 := s.(timeOut := e.now + 1000);
      if e.pingOk then
        (s1.(pingOutstanding := true, lastSent := e.now + 1000 * s.keepAlive), [PingSent(PINGREQ_BYTES)], 0)
      else (s1, [], -21)
  }

  function Close(s: Session): Session {
    s.(pingOutstanding := false, isconnected := false)
  }

  /** A packet that arrived puts off the receive deadline, also one of type 0. */
  function Received(s: Session, e: Env): Session {
    if e.whole && s.keepAlive > 0 then s.(lastReceived := e.now + 1000 * s.keepAlive) else s
  }

  /** A reply puts off the send deadline. */
  function AfterSwitch(s: Session, e: Env): Session
    requires EnvOk(e)
  {
    var s1 := if Switch(e).reply.Some? && e.sendOk then s.(lastSent := e.now + 1000 * s.keepAlive) else s;
    if e.rc == PINGRESP then s1.(pingOutstanding := false) else s1
  }

  function SwitchEvents(e: Env): seq<Event>
    requires EnvOk(e)
  {
    var w := Switch(e);
    (if e.rc > 0 then [Got(e.buf)] else [])
    + (if w.reply.Some? && e.sendOk then [Reply(w.reply.value)] else [])
    + (if e.rc == PINGRESP then [Pong] else [])
  }

  function Finish(s: Session, rc: int): (Session, seq<Event>) {
    if rc == 0 then (s, [])
    else if s.isconnected then (Close(s), [CycleFailed, Closed])
    else (s, [CycleFailed])
  }

  /** What a cycle does once it has read. */
  function Act(s: Session, e: Env): (Session, seq<Event>, int)
    requires EnvOk(e)
  {
    var w := Switch(e);
    var s1 := AfterSwitch(s, e);
    var (s2, e2, krc) := if w.goesOn then KeepAlive(s1, e) else (s1, [], 0);
    var rc := if krc != 0 then krc else w.rc;
    var (s3, e3) := Finish(s2, rc);
    (s3, SwitchEvents(e) + e2 + e3, if rc == 0 then e.rc else rc)
  }

  function Cycle(s: Session, e: Env): (Session, seq<Event>, int)
    requires EnvOk(e)
  {
    Act(Received(s, e), e)
  }

  predicate AllOk(envs: seq<Env>) {
    forall i :: 0 <= i < |envs| ==> EnvOk(envs[i])
  }

  /** Cycles until one reports `want` or fails, or time is up; `rc` is the result then. */
  function Await(s: Session, want: int, envs: seq<Env>, rc: int): (Session, seq<Event>, int)
    requires AllOk(envs)
    decreases |envs|
  {
    if envs == [] || envs[0].start >= s.timeOut then (s, [], rc)
    else
      var (s1, t1, rc1) := Cycle(s, envs[0]);
      if rc1 == want || rc1 < 0 then (s1, t1, rc1)
      else
        var (s2, t2, rc2) := Await(s1, want, envs[1..], rc1);
        (s2, t1 + t2, rc2)
  }

  // ---------- What a trace promises ----------

  /** The flags as the trace tells them, and the last packet received since the last attempt to
      connect, provided no cycle failed and nothing was closed after it. */
  datatype Link = Link(connected: bool, outstanding: bool, last: Option<seq<Byte>>)

  const DOWN: Link := Link(false, false, None)

  function Observe(l: Link, e: Event): Link {
    match e
    case Got(buf) => l.(last := Some(buf))
    case Reply(_) => l
    case Pong => l.(outstanding := false)
    case PingSent(_) => l.(outstanding := true)
    case CycleFailed => l.(connected := false, last := None)
    case Closed => DOWN
    case Attempt(_) => l.(connected := false, last := None)
    case Accepted(_) => l.(connected := true, outstanding := false)
  }

  function Status(trace: seq<Event>): Link
    decreases |trace|
  {
    if trace == [] then DOWN else Observe(Status(trace[..|trace| - 1]), trace[|trace| - 1])
  }

  /** The reply to CONNECT that the client takes for an acceptance: return code 0 -- or a packet
      too short to carry one, whose length field is one byte. */
  predicate Accepts(buf: seq<Byte>) {
    && Framed(buf) && buf[0] / 16 == CONNACK
    && if BodyEnd(buf) - BodyStart(buf) >= 2 then buf[BodyStart(buf) + 1] == 0 else BodyStart(buf) == 2
  }

  predicate Allowed(l: Link, e: Event) {
    match e
    case PingSent(_) => !l.outstanding
    case Accepted(connack) => !l.connected && l.last == Some(connack) && Accepts(connack)
    case Attempt(_) => !l.connected
    case _ => true
  }

  predicate Lawful(trace: seq<Event>)
    decreases |trace|
  {
    trace == [] || (Lawful(trace[..|trace| - 1]) && Allowed(Status(trace[..|trace| - 1]), trace[|trace| - 1]))
  }

  predicate Agrees(s: Session, l: Link) {
    s.isconnected == l.connected && s.pingOutstanding == l.outstanding
  }

  lemma Extend(trace: seq<Event>, e: Event)
    requires Lawful(trace) && Allowed(Status(trace), e)
    ensures Lawful(trace + [e]) && Status(trace + [e]) == Observe(Status(trace), e)
  {
    assert (trace + [e])[..|trace|] == trace;
  }

  /** What one cycle reads, replies and hears back never breaks the law. */
  lemma ExtendQuietly(trace: seq<Event>, es: seq<Event>)
    requires Lawful(trace)
    requires es == [] || (|es| == 1 && (es[0].Got? || es[0].Reply? || es[0].Pong?))
    ensures Lawful(trace + es)
    ensures Status(trace + es) == if es == [] then Status(trace) else Observe(Status(trace), es[0])
  {
    hide Lawful, Status;
    if es == [] {
      assert trace + es == trace;
    } else {
      assert es == [es[0]];
      Extend(trace, es[0]);
    }
  }

  lemma SwitchLawful(s: Session, e: Env, trace: seq<Event>)
    requires EnvOk(e) && Lawful(trace) && Agrees(s, Status(trace))
    ensures Lawful(trace + SwitchEvents(e)) && Agrees(AfterSwitch(s, e), Status(trace + SwitchEvents(e)))
    ensures Status(trace + SwitchEvents(e)).last == if e.rc > 0 then Some(e.buf) else Status(trace).last
  {
    hide Lawful, Status, Framed, Switch;
    var w := Switch(e);
    var got := if e.rc > 0 then [Got(e.buf)] else [];
    var rep := if w.reply.Some? && e.sendOk then [Reply(w.reply.value)] else [];
    var pong := if e.rc == PINGRESP then [Pong] else [];
    ExtendQuietly(trace, got);
    ExtendQuietly(trace + got, rep);
    ExtendQuietly(trace + got + rep, pong);
    assert trace + SwitchEvents(e) == trace + got + rep + pong;
  }

  lemma KeepAliveLawful(s: Session, e: Env, trace: seq<Event>)
    requires Lawful(trace) && Agrees(s, Status(trace))
    ensures var (s', es, _) := KeepAlive(s, e);
            && Lawful(trace + es) && Agrees(s', Status(trace + es)) && s'.isconnected == s.isconnected
            && Status(trace + es).last == Status(trace).last
  {
    hide Lawful, Status;
    var (s', es, _) := KeepAlive(s, e);
    if es == [] {
      assert trace + es == trace;
    } else {
      Extend(trace, PingSent(PINGREQ_BYTES));
    }
  }

  lemma FinishLawful(s: Session, rc: int, trace: seq<Event>)
    requires Lawful(trace) && Agrees(s, Status(trace))
    ensures var (s', es) := Finish(s, rc);
            && Lawful(trace + es) && Agrees(s', Status(trace + es))
            && Status(trace + es).last == if rc == 0 then Status(trace).last else None
  {
    hide Lawful, Status;
    var (s', es) := Finish(s, rc);
    if es == [] {
      assert trace + es == trace;
    } else {
      Extend(trace, CycleFailed);
      if s.isconnected {
        Extend(trace + [CycleFailed], Closed);
        assert trace + es == trace + [CycleFailed] + [Closed];
      }
    }
  }

  lemma ActLawful(s: Session, e: Env, trace: seq<Event>)
    requires EnvOk(e) && Lawful(trace) && Agrees(s, Status(trace))
    ensures var (s', es, rc) := Act(s, e);
            && Lawful(trace + es) && Agrees(s', Status(trace + es))
            && (rc == CONNACK ==> Status(trace + es).last == Some(e.buf) && e.rc == CONNACK)
  {
    hide Lawful, Status, Switch, SwitchEvents, AfterSwitch, KeepAlive, Finish, Framed;
    var w := Switch(e);
    SwitchLawful(s, e, trace);
    SwitchCodes(e);
    KeepAliveCodes(AfterSwitch(s, e), e);
    var s1, t1 := AfterSwitch(s, e), trace + SwitchEvents(e);
    KeepAliveLawful(s1, e, t1);
    var (s2, e2, krc) := if w.goesOn then KeepAlive(s1, e) else (s1, [], 0);
    assert !w.goesOn ==> t1 + e2 == t1;
    var rc := if krc != 0 then krc else w.rc;
    FinishLawful(s2, rc, t1 + e2);
    var (s3, e3) := Finish(s2, rc);
    assert t1 + e2 + e3 == trace + (SwitchEvents(e) + e2 + e3);
  }

  lemma CycleLawful(s: Session, e: Env, trace: seq<Event>)
    requires EnvOk(e) && Lawful(trace) && Agrees(s, Status(trace))
    ensures var (s', es, rc) := Cycle(s, e);
            && Lawful(trace + es) && Agrees(s', Status(trace + es))
            && (rc == CONNACK ==> Status(trace + es).last == Some(e.buf) && e.rc == CONNACK)
  {
    hide Lawful, Status, Act, EnvOk;
    ActLawful(Received(s, e), e, trace);
  }

  lemma KeepAliveCodes(s: Session, e: Env)
    ensures KeepAlive(s, e).2 <= 0
  {
  }

  /** A positive result is the packet's own type, and never an acceptance gone wrong. */
  lemma SwitchCodes(e: Env)
    requires EnvOk(e)
    ensures Switch(e).rc <= 0 || (Switch(e).rc == e.rc && e.rc != CONNACK)
  {
    hide Framed, AckBytes, P.Parse, P.ParseAck, BodyStart;
  }

  predicate Breaks(e: Event) {
    e.CycleFailed? || e.Closed? || e.Attempt?
  }

  lemma {:induction false} LastReceived(trace: seq<Event>) returns (g: nat)
    requires Status(trace).last.Some?
    ensures g < |trace| && trace[g] == Got(Status(trace).last.value)
    ensures forall j :: g < j < |trace| ==> !Breaks(trace[j])
    decreases |trace|
  {
    var n := |trace| - 1;
    if trace[n].Got? {
      g := n;
    } else {
      g := LastReceived(trace[..n]);
      forall j | g < j < |trace|
        ensures !Breaks(trace[j])
      {
        assert j < n ==> trace[j] == trace[..n][j];
      }
    }
  }

  /** In a lawful trace the link is up only if a CONNACK that accepts was received, and since it
      arrived no cycle has failed, nothing was closed and no new attempt was made. */
  lemma {:induction false} UpMeansAccepted(trace: seq<Event>) returns (g: nat)
    requires Lawful(trace) && Status(trace).connected
    ensures g < |trace| && trace[g].Got? && Accepts(trace[g].buf)
    ensures forall j :: g < j < |trace| ==> !Breaks(trace[j])
    decreases |trace|
  {
    hide Accepts;
    var n := |trace| - 1;
    if trace[n].Accepted? {
      g := LastReceived(trace[..n]);
    } else {
      g := UpMeansAccepted(trace[..n]);
    }
    forall j | g < j < |trace|
      ensures !Breaks(trace[j])
    {
      assert j < n ==> trace[j] == trace[..n][j];
    }
  }

  // ---------- Replies ----------

  /** The reply the standard asks for (section 4.3 of MQTT Version 3.1.1). */
  function Answer(buf: seq<Byte>): Option<seq<Byte>>
    requires Framed(buf)
  {
    var t := buf[0] / 16;
    if t == PUBLISH && P.Parse(buf).Some? && P.Parse(buf).value.id.Some? then
      var m := P.Parse(buf).value;
      if m.qos == 1 then Some(AckBytes(PUBACK, m.id.value))
      else if m.qos == 2 then Some(AckBytes(PUBREC, m.id.value))
      else None
    else if t == PUBREC && P.ParseAck(buf).id.Some? then Some(AckBytes(PUBREL, P.ParseAck(buf).id.value))
    else if t == PUBREL && P.ParseAck(buf).id.Some? then Some(AckBytes(PUBCOMP, P.ParseAck(buf).id.value))
    else None
  }

  /** The packet could be read by its deserializer. */
  predicate Readable(e: Env)
    requires EnvOk(e)
  {
    && (e.rc == PUBLISH ==> P.Parse(e.buf).Some?)
    && (e.rc == PUBREC || e.rc == PUBREL ==> P.ParseAck(e.buf).id.Some?)
  }

  function Answers(es: seq<Env>): seq<seq<Byte>>
    requires forall i :: 0 <= i < |es| ==> EnvOk(es[i])
    decreases |es|
  {
    if es == [] then []
    else
      var e := es[|es| - 1];
      assert EnvOk(e);
      Answers(es[..|es| - 1]) + if e.rc > 0 && Answer(e.buf).Some? then [Answer(e.buf).value] else []
  }

  function Run(s: Session, es: seq<Env>): (Session, seq<Event>)
    requires AllOk(es)
    decreases |es|
  {
    if es == [] then (s, [])
    else
      var (s1, t) := Run(s, es[..|es| - 1]);
      assert EnvOk(es[|es| - 1]);
      var (s2, e2, _) := Cycle(s1, es[|es| - 1]);
      (s2, t + e2)
  }

  function Replies(trace: seq<Event>): seq<seq<Byte>>
    decreases |trace|
  {
    if trace == [] then []
    else Replies(trace[..|trace| - 1])
         + if trace[|trace| - 1].Reply? then [trace[|trace| - 1].bytes] else []
  }

  lemma {:induction false} RepliesAppend(a: seq<Event>, b: seq<Event>)
    ensures Replies(a + b) == Replies(a) + Replies(b)
    decreases |b|
  {
    if b == [] {
      assert a + b == a;
    } else {
      var n := |b| - 1;
      RepliesAppend(a, b[..n]);
      assert (a + b)[..|a + b| - 1] == a + b[..n];
    }
  }

  lemma SwitchAnswers(e: Env)
    requires EnvOk(e) && Readable(e)
    ensures Switch(e).reply == if e.rc > 0 then Answer(e.buf) else None
  {
    hide Framed, BodyStart, AckBytes;
    if e.rc == PUBLISH {
      ParsedQos(e.buf);
    }
  }

  lemma ParsedQos(buf: seq<Byte>)
    requires Framed(buf) && P.Parse(buf).Some?
    ensures P.Parse(buf).value.qos < 4 && (P.Parse(buf).value.id.Some? <==> P.Parse(buf).value.qos > 0)
  {
    hide Framed, BodyStart, BodyEnd, ReadString, ReadInt;
  }

  lemma {:induction false} Silent(t: seq<Event>)
    requires forall i :: 0 <= i < |t| ==> !t[i].Reply?
    ensures Replies(t) == []
    decreases |t|
  {
    if t != [] {
      Silent(t[..|t| - 1]);
    }
  }

  lemma OneReply(e: Event)
    requires e.Reply?
    ensures Replies([e]) == [e.bytes]
  {
    assert [e][..0] == [];
  }

  lemma SwitchReplies(e: Env)
    requires EnvOk(e) && e.sendOk
    ensures Replies(SwitchEvents(e)) == if Switch(e).reply.Some? then [Switch(e).reply.value] else []
  {
    hide Switch, Framed, Replies;
    var w := Switch(e);
    var got := if e.rc > 0 then [Got(e.buf)] else [];
    var rep := if w.reply.Some? then [Reply(w.reply.value)] else [];
    var pong := if e.rc == PINGRESP then [Pong] else [];
    RepliesAppend(got + rep, pong);
    RepliesAppend(got, rep);
    Silent(got);
    Silent(pong);
    if w.reply.Some? {
      OneReply(Reply(w.reply.value));
    } else {
      Silent(rep);
    }
  }

  lemma ActReplies(s: Session, e: Env)
    requires EnvOk(e) && Readable(e) && e.sendOk
    ensures Replies(Act(s, e).1) == if e.rc > 0 && Answer(e.buf).Some? then [Answer(e.buf).value] else []
  {
    hide Switch, SwitchEvents, AfterSwitch, Answer, Framed, Replies, Readable;
    SwitchAnswers(e);
    SwitchReplies(e);
    var w := Switch(e);
    var s1 := AfterSwitch(s, e);
    var (s2, e2, krc) := if w.goesOn then KeepAlive(s1, e) else (s1, [], 0);
    var e3 := Finish(s2, if krc != 0 then krc else w.rc).1;
    Silent(e2);
    Silent(e3);
    RepliesAppend(SwitchEvents(e) + e2, e3);
    RepliesAppend(SwitchEvents(e), e2);
  }

  lemma CycleReplies(s: Session, e: Env)
    requires EnvOk(e) && Readable(e) && e.sendOk
    ensures Replies(Cycle(s, e).1) == if e.rc > 0 && Answer(e.buf).Some? then [Answer(e.buf).value] else []
  {
    hide Act, Answer, EnvOk, Readable, Replies;
    ActReplies(Received(s, e), e);
  }

  /** Over any run in which the packets can be read and every send succeeds, the replies are, in
      order, exactly those the packets ask for -- failed cycles in between change nothing. */
  lemma {:induction false} RunReplies(s: Session, es: seq<Env>)
    requires AllOk(es)
    requires forall i :: 0 <= i < |es| ==> EnvOk(es[i]) && Readable(es[i]) && es[i].sendOk
    ensures Replies(Run(s, es).1) == Answers(es)
    decreases |es|
  {
    hide Answer, Cycle, EnvOk, Readable;
    if es != [] {
      var n := |es| - 1;
      RunReplies(s, es[..n]);
      var (s1, t) := Run(s, es[..n]);
      CycleReplies(s1, es[n]);
      RepliesAppend(t, Cycle(s1, es[n]).1);
    }
  }

  /** A QoS 1 message is acknowledged under its id. */
  lemma Qos1Answered(m: P.Publish, tail: seq<Byte>)
    requires P.Valid(m) && m.qos == 1
    ensures var buf := Image(P.AsPacket(m)) + tail;
            && Framed(buf) && Answer(buf) == Some(AckBytes(PUBACK, m.id))
            && Framed(AckBytes(PUBACK, m.id)) && P.ParseAck(AckBytes(PUBACK, m.id)) == P.Ack(PUBACK, 0, Some(m.id))
  {
    hide Image, Framed, P.Parse, P.ParseAck, P.AckPacket;
    P.RoundTrip(m, tail);
    HeaderOf(m, tail);
    AckParses(PUBACK, m.id);
  }

  lemma HeaderOf(m: P.Publish, tail: seq<Byte>)
    requires P.Valid(m)
    ensures (Image(P.AsPacket(m)) + tail)[0] / 16 == PUBLISH
  {
  }

  lemma AckParses(type_: nat, id: nat)
    requires type_ < 16 && id < 65536
    ensures var a := AckBytes(type_, id);
            Framed(a) && a[0] / 16 == type_ && P.ParseAck(a) == P.Ack(type_, 0, Some(id))
  {
    hide Image, Framed;
    P.AckRoundTrip(type_, 0, id, []);
    assert Image(P.AckPacket(type_, 0, id)) + [] == Image(P.AckPacket(type_, 0, id));
  }

  /** The QoS 2 exchange between two such clients runs to its end under one id: PUBLISH, PUBREC,
      PUBREL, PUBCOMP, and no reply to the last. */
  lemma Qos2Exchange(m: P.Publish, tail: seq<Byte>)
    requires P.Valid(m) && m.qos == 2
    ensures var buf := Image(P.AsPacket(m)) + tail;
            var rec, rel, comp := AckBytes(PUBREC, m.id), AckBytes(PUBREL, m.id), AckBytes(PUBCOMP, m.id);
            && Framed(buf) && Framed(rec) && Framed(rel) && Framed(comp)
            && Answer(buf) == Some(rec) && Answer(rec) == Some(rel) && Answer(rel) == Some(comp) && Answer(comp) == None
  {
    hide Image, Framed, P.Parse, P.ParseAck, P.AckPacket;
    P.RoundTrip(m, tail);
    HeaderOf(m, tail);
    AckParses(PUBREC, m.id);
    AckParses(PUBREL, m.id);
    AckParses(PUBCOMP, m.id);
  }

  // ---------- Packets on the wire ----------

  /** A packet as a server sends it. */
  datatype Wire = Message(m: P.Publish) | Acknowledge(type_: nat, id: nat) | Other(packet: Packet)

  function WirePacket(w: Wire): Packet {
    match w
    case Message(m) => P.AsPacket(m)
    case Acknowledge(type_, id) => P.AckPacket(type_, 0, id)
    case Other(p) => p
  }

  predicate WireOk(w: Wire) {
    match w
    case Message(m) => P.Valid(m)
    case Acknowledge(type_, id) => type_ in {PUBACK, PUBREC, PUBREL, PUBCOMP} && id < 65536
    case Other(p) => |p.body| <= MAX_LENGTH && Type(p) !in {PUBLISH, PUBREC, PUBREL}
  }

  /** The reply it is owed. */
  function Owed(w: Wire): Option<seq<Byte>> {
    match w
    case Message(m) =>
      if m.qos == 1 then Some(AckBytes(PUBACK, m.id)) else if m.qos == 2 then Some(AckBytes(PUBREC, m.id)) else None
    case Acknowledge(type_, id) =>
      if type_ == PUBREC then Some(AckBytes(PUBREL, id)) else if type_ == PUBREL then Some(AckBytes(PUBCOMP, id)) else None
    case Other(_) => None
  }

  function AllOwed(ws: seq<Wire>): seq<seq<Byte>>
    decreases |ws|
  {
    if ws == [] then []
    else
      var n := |ws| - 1;
      AllOwed(ws[..n]) + if Owed(ws[n]).Some? then [Owed(ws[n]).value] else []
  }

  /** A cycle that read this packet. */
  predicate Delivers(e: Env, w: Wire) {
    var p := WirePacket(w);
    e.rc == Type(p) && |Image(p)| <= |e.buf| && e.buf[..|Image(p)|] == Image(p)
  }

  lemma WireAnswered(e: Env, w: Wire)
    requires EnvOk(e) && WireOk(w) && Delivers(e, w) && e.rc > 0
    ensures Readable(e) && Answer(e.buf) == Owed(w)
  {
    hide Image, Framed, P.Parse, P.ParseAck, AckBytes, Header, P.Body;
    var n := |Image(WirePacket(w))|;
    var tail := e.buf[n..];
    assert e.buf == Image(WirePacket(w)) + tail;
    match w
    case Message(m) => P.RoundTrip(m, tail);
    case Acknowledge(type_, id) => P.AckRoundTrip(type_, 0, id, tail);
    case Other(p) =>
  }

  /** Whatever happens in between: the replies a run of cycles sends are, in order, those its
      packets are owed. */
  lemma {:induction false} StreamAnswered(s: Session, es: seq<Env>, ws: seq<Wire>)
    requires |es| == |ws| && AllOk(es)
    requires forall i :: 0 <= i < |es| ==>
      EnvOk(es[i]) && es[i].sendOk && es[i].rc > 0 && WireOk(ws[i]) && Delivers(es[i], ws[i])
    ensures Replies(Run(s, es).1) == AllOwed(ws)
    decreases |es|
  {
    hide Answer, Owed, Cycle, EnvOk, Readable, Delivers, WireOk;
    if es != [] {
      var n := |es| - 1;
      StreamAnswered(s, es[..n], ws[..n]);
      var (s1, t) := Run(s, es[..n]);
      WireAnswered(es[n], ws[n]);
      CycleReplies(s1, es[n]);
      RepliesAppend(t, Cycle(s1, es[n]).1);
    }
  }

  /** The message it hands to the application, field by field. */
  function Handed(w: Wire): Option<P.Received> {
    match w
    case Message(m) =>
      Some(P.Received(m.dup, m.qos, m.retained, if m.qos > 0 then Some(m.id) else None, m.topic, m.payload, |m.payload|))
    case _ => None
  }

  /** Exactly the PUBLISH packets are handed over, whatever their QoS and whatever else is in the
      read buffer. */
  lemma WireDelivered(e: Env, w: Wire)
    requires EnvOk(e) && WireOk(w) && Delivers(e, w) && e.rc > 0
    ensures Switch(e).message == Handed(w)
  {
    hide Image, Framed, P.Parse, P.ParseAck, AckBytes, Header, P.Body, BodyStart;
    var n := |Image(WirePacket(w))|;
    assert e.buf == Image(WirePacket(w)) + e.buf[n..];
    match w
    case Message(m) => P.RoundTrip(m, e.buf[n..]);
    case _ =>
  }

  /** A CONNACK without a body is taken for an acceptance. */
  lemma EmptyConnackAccepts()
    ensures Accepts([0x20, 0])
  {
    var buf: seq<Byte> := [0x20, 0];
    assert buf[1..] == [0];
  }
}
