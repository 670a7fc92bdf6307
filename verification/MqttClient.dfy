/** The MQTT client as it is written: one object whose flags, deadlines and handler table are
    updated in place.  Each method takes the step SessionSpec describes; the ghost `trace`
    collects what was received and sent. */
module MqttClient {
  import opened Bytes
  import opened Framing
  import opened MqttFields
  import opened SessionSpec
  import P = MqttPublish
  import C = MqttConnect
  import H = HandlerTable
  import PR = PacketReader
  import R = ClientReader

  const SEND_SIZE: nat := 260
  const GOODBYE: Packet := Packet(Header(DISCONNECT, 0, 0, 0), [])

  const ACK_COMMAND_TIMEOUT: nat := 20000

  /** What one cycle meets besides the bytes on the wire; see `Env`. */
  datatype Outside = Outside(sendOk: bool, pingOk: bool, start: nat, now: nat, junk: P.Received, junkId: nat)

  class Client {
    const buf: array<Byte>
    const readbuf: array<Byte>
    const handlers: H.Handlers
    var isconnected: bool
    var cleansession: bool
    var pingOutstanding: bool
    var keepAlive: nat
    var lastSent: nat
    var lastReceived: nat
    var timeOut: nat
    ghost var trace: seq<Event>

    ghost function Abs(): Session
      reads this
    {
      Session(isconnected, cleansession, pingOutstanding, keepAlive, lastSent, lastReceived, timeOut)
    }

    ghost predicate Parts()
      reads handlers, handlers.slots
    {
      buf.Length == SEND_SIZE && readbuf.Length == R.RECV_SIZE && buf != readbuf && handlers.Valid()
    }

    /** Whatever was called before, the flags agree with a lawful trace. */
    ghost predicate Valid()
      reads this, handlers, handlers.slots
    {
      && Parts()
      && Lawful(trace)
      && Agrees(Abs(), Status(trace))
    }

    constructor (now: nat)
      ensures Valid() && trace == [] && !isconnected && handlers.Map() == map[]
      ensures fresh(buf) && fresh(readbuf) && fresh(handlers) && fresh(handlers.slots)
    {
      buf := new Byte[SEND_SIZE];
      readbuf := new Byte[R.RECV_SIZE];
      handlers := new H.Handlers();
      isconnected, cleansession, pingOutstanding := false, false, false;
      keepAlive, lastSent, lastReceived, timeOut := 0, now, now, now;
      trace := [];
    }

    /** The transport takes the whole packet or fails. */
    method SendPacket(length: nat, ok: bool, now: nat) returns (rc: int)
      modifies this`lastSent
      ensures rc == if ok then 0 else -21
      ensures lastSent == if ok then now + 1000 * keepAlive else old(lastSent)
    {
      rc := -21;
      if ok {
        lastSent := now + 1000 * keepAlive;
        rc := 0;
      }
    }

    /** A packet without a body. */
    method WriteZero(type_: nat) returns (len: nat)
      requires buf.Length == SEND_SIZE
      modifies buf
      ensures len <= buf.Length && buf[..len] == Image(Packet(Header(type_, 0, 0, 0), []))
    {
      hide Header, Splice;
      EncodingWidth(0);
      len := StartPacket(buf, Header(type_, 0, 0, 0), 0);
      ghost var front := [Header(type_, 0, 0, 0)] + Encoding(0);
      SpliceReads(old(buf[..]), 0, front);
      assert buf[..][0..len] == buf[..len];
      assert front + [] == front;
    }

    method Ping(e: Env) returns (rc: int)
      requires Valid()
      modifies this`lastSent, this`pingOutstanding, this`timeOut, this`trace, buf
      ensures Valid()
      ensures Abs() == KeepAlive(old(Abs()), e).0
      ensures trace == old(trace) + KeepAlive(old(Abs()), e).1
      ensures rc == KeepAlive(old(Abs()), e).2
    {
      hide Lawful, Status;
      KeepAliveLawful(Abs(), e, trace);
      rc := 0;
      assert trace + [] == trace;
      if keepAlive == 0 {
        return;
      }
      if e.now >= lastSent && e.now >= lastReceived {
        if pingOutstanding {
          return -9;
        }
        timeOut := e.now + 1000;
        var len := WriteZero(PINGREQ);
        rc := SendPacket(len, e.pingOk, e.now);
        if rc == 0 {
          pingOutstanding := true;
          trace := trace + [PingSent(buf[..len])];
        }
      }
    }

    method CloseSession()
      requires Parts() && Lawful(trace)
      modifies this`pingOutstanding, this`isconnected, this`trace, handlers.slots
      ensures Valid() && Abs() == Close(old(Abs())) && trace == old(trace) + [Closed]
      ensures handlers.Map() == if cleansession then map[] else old(handlers.Map())
      ensures handlers.slots[..] == if cleansession then H.Cleaned(old(handlers.slots[..])) else old(handlers.slots[..])
    {
      hide Lawful, Status;
      Extend(trace, Closed);
      pingOutstanding := false;
      isconnected := false;
      trace := trace + [Closed];
      if cleansession {
        handlers.Clean();
      }
    }

    /** Writes an acknowledgement and sends it. */
    method SendAck(type_: nat, id: nat, ok: bool, now: nat) returns (rc: int)
      requires buf.Length == SEND_SIZE
      modifies this`lastSent, this`trace, buf
      ensures rc == if ok then 0 else -21
      ensures lastSent == if ok then now + 1000 * keepAlive else old(lastSent)
      ensures trace == if ok then old(trace) + [Reply(AckBytes(type_, id))] else old(trace)
    {
      hide Splice;
      var len := P.SerializeAck(buf, type_, 0, id);
      SpliceReads(old(buf[..]), 0, AckBytes(type_, id));
      rc := SendPacket(len, ok, now);
      if rc == 0 {
        trace := trace + [Reply(buf[0..len])];
      }
    }

    /** The PUBLISH case of the switch: deliver, then acknowledge as the QoS asks. */
    method OnPublish(e: Env) returns (rc: int, goesOn: bool)
      requires Parts() && EnvOk(e) && e.rc == PUBLISH
      modifies this`lastSent, this`trace, buf, handlers`calls
      ensures rc == Switch(e).rc && goesOn == Switch(e).goesOn
      ensures var r := Switch(e).reply;
              && lastSent == (if r.Some? && e.sendOk then e.now + 1000 * keepAlive else old(lastSent))
              && trace == old(trace) + (if r.Some? && e.sendOk then [Reply(r.value)] else [])
      ensures handlers.calls == old(handlers.calls) + Calls(Switch(e).message)
    {
      hide Framed, BodyStart, P.Parse, H.CallsFor, H.Distinct;
      rc, goesOn := 0, false;
      assert trace + [] == trace && handlers.calls + [] == handlers.calls;
      FramedHasHeader(e.buf);
      var drc, parsed := P.Deserialize(e.buf);
      if drc != 1 {
        return;
      }
      var h := e.buf[0];
      var m := if parsed.Some? then parsed.value
               else e.junk.(dup := h / 8 % 2, qos := h / 2 % 4, retained := h % 2, id := None, payloadlen := 0);
      var delivered := handlers.Deliver(m);
      goesOn := true;
      if m.qos != 0 {
        var id := IdOr(m.id, e.junkId);
        if m.qos == 1 {
          rc := SendAck(PUBACK, id, e.sendOk, e.now);
        } else if m.qos == 2 {
          rc := SendAck(PUBREC, id, e.sendOk, e.now);
        } else {
          rc := -1;
        }
        if rc == -1 {
          goesOn := false;
        }
      }
      assert m.qos < 4 by {
        if parsed.Some? {
          ParsedQos(e.buf);
        }
      }
    }

    /** The handler calls a message causes, if there is one. */
    ghost function Calls(m: Option<P.Received>): seq<H.Delivery>
      reads handlers, handlers.slots
    {
      CallsOf(handlers.slots[..], handlers.defaultHandler, m)
    }

    /** The PUBREC and PUBREL case. */
    method OnRelease(e: Env) returns (rc: int, goesOn: bool)
      requires buf.Length == SEND_SIZE && EnvOk(e) && e.rc in {PUBREC, PUBREL}
      modifies this`lastSent, this`trace, buf
      ensures rc == Switch(e).rc && goesOn == Switch(e).goesOn
      ensures var r := Switch(e).reply;
              && lastSent == (if r.Some? && e.sendOk then e.now + 1000 * keepAlive else old(lastSent))
              && trace == old(trace) + (if r.Some? && e.sendOk then [Reply(r.value)] else [])
    {
      hide Framed, BodyStart, P.ParseAck;
      rc, goesOn := 0, false;
      assert trace + [] == trace;
      var drc, a := P.DeserializeAck(e.buf);
      if drc != 1 {
        rc := -1;
      } else {
        rc := SendAck(if e.rc == PUBREC then PUBREL else PUBCOMP, IdOr(a.id, e.junkId), e.sendOk, e.now);
        if rc != 0 {
          rc := -1;
        }
      }
      goesOn := rc != -1;
    }

    /** The switch over packet types, once a packet was read. */
    method DoSwitch(e: Env) returns (rc: int, goesOn: bool)
      requires Parts() && EnvOk(e)
      modifies this`pingOutstanding, this`lastSent, this`trace, buf, handlers`calls
      ensures Abs() == AfterSwitch(old(Abs()), e)
      ensures trace == old(trace) + SwitchEvents(e)
      ensures rc == Switch(e).rc && goesOn == Switch(e).goesOn
      ensures handlers.calls == old(handlers.calls) + Calls(Switch(e).message)
    {
      hide Framed, BodyStart, P.Parse, P.ParseAck, H.Distinct, H.CallsFor, AckBytes;
      assert handlers.calls + [] == handlers.calls;
      var packetType := e.rc;
      ghost var got: seq<Event> := if packetType > 0 then [Got(e.buf)] else [];
      trace := trace + got;
      rc, goesOn := 0, true;
      if packetType == PUBLISH {
        rc, goesOn := OnPublish(e);
      } else if packetType == PUBREC || packetType == PUBREL {
        rc, goesOn := OnRelease(e);
      } else if packetType == PINGRESP {
        pingOutstanding := false;
        trace := trace + [Pong];
        assert got + [] + [Pong] == got + [Pong];
      } else if packetType in {0, CONNACK, PUBACK, SUBACK, UNSUBACK, PUBCOMP} {
      } else {
        rc, goesOn := packetType, false;
      }
      assert trace == old(trace) + SwitchEvents(e);
    }

    /** Gives the connection up after a failure. */
    method Finish(rc: int)
      requires Valid()
      modifies this`isconnected, this`pingOutstanding, this`trace, handlers.slots
      ensures Valid()
      ensures Abs() == SessionSpec.Finish(old(Abs()), rc).0
      ensures trace == old(trace) + SessionSpec.Finish(old(Abs()), rc).1
      ensures handlers.Map() == if old(isconnected) && !isconnected && cleansession then map[] else old(handlers.Map())
      ensures handlers.slots[..] == TableAt(old(Abs()), Abs(), old(handlers.slots[..]))
    {
      hide Lawful, Status, H.Distinct, H.Table;
      assert trace + [] == trace;
      if rc != 0 {
        Extend(trace, CycleFailed);
        trace := trace + [CycleFailed];
        if isconnected {
          CloseSession();
          assert old(trace) + [CycleFailed] + [Closed] == old(trace) + [CycleFailed, Closed];
        }
      }
    }

    /** What follows the reading: act on the packet, keep the connection alive, give it up on failure. */
    method Act(e: Env) returns (rc: int)
      requires Valid() && EnvOk(e)
      modifies this`isconnected, this`pingOutstanding, this`lastSent, this`timeOut, this`trace,
               buf, handlers`calls, handlers.slots
      ensures Valid()
      ensures Abs() == SessionSpec.Act(old(Abs()), e).0
      ensures trace == old(trace) + SessionSpec.Act(old(Abs()), e).1
      ensures rc == SessionSpec.Act(old(Abs()), e).2
      ensures handlers.calls == old(handlers.calls) + old(Calls(Switch(e).message))
      ensures handlers.Map() == if old(isconnected) && !isconnected && cleansession then map[] else old(handlers.Map())
      ensures handlers.slots[..] == TableAt(old(Abs()), Abs(), old(handlers.slots[..]))
    {
      hide Lawful, Status, Switch, Framed, H.Distinct, H.Table, SwitchEvents, AfterSwitch, KeepAlive, SessionSpec.Finish,
           Agrees, TableAt, CallsOf;
      ghost var s0, table := Abs(), handlers.slots[..];
      SwitchLawful(Abs(), e, trace);
      AfterSwitchKeeps(Abs(), e);
      var goesOn;
      ghost var t0 := trace;
      rc, goesOn := DoSwitch(e);
      ghost var e2: seq<Event> := [];
      if goesOn {
        ghost var s1 := Abs();
        KeepAliveKeeps(s1, e);
        e2 := KeepAlive(s1, e).1;
        var krc := Ping(e);
        if krc != 0 {
          rc := krc;
        }
      }
      assert trace == t0 + SwitchEvents(e) + e2;
      ghost var e3 := SessionSpec.Finish(Abs(), rc).1;
      assert t0 + SwitchEvents(e) + e2 + e3 == t0 + (SwitchEvents(e) + e2 + e3);
      TableSame(s0, Abs(), table);
      Finish(rc);
      if rc == 0 {
        rc := e.rc;
      }
    }

    /** Reads a packet; whatever the transport does, what follows may rely on `EnvOk`. */
    method Receive(sck: PR.Source, o: Outside, ghost p: Packet, ghost size: nat) returns (e: Env)
      requires Valid() && sck.pos <= |sck.input|
      modifies this`lastReceived, readbuf, sck
      ensures Valid() && sck.pos <= |sck.input| && R.Used(old(sck.answers), sck.answers, 6)
      ensures EnvOk(e) && e.buf == readbuf[..] && From(e, o) && Abs() == Received(old(Abs()), e)
      ensures old(R.Prompt(sck.answers, 6) && PR.Begins(sck.input[sck.pos..], p, size))
              && |p.body| <= MAX_LENGTH && |Image(p)| <= R.RECV_SIZE ==>
                && e.rc == Type(p) && e.buf[..|Image(p)|] == Image(p)
                && sck.pos == old(sck.pos) + size
    {
      hide Framed, Image, R.Prompt, R.Used, PR.Begins, Lawful, Status, H.Distinct;
      var rc, whole := R.ReadPacket(readbuf, sck, p, size);
      if whole && keepAlive > 0 {
        lastReceived := o.now + 1000 * keepAlive;
      }
      e := Env(rc, whole, readbuf[..], o.sendOk, o.pingOk, o.start, o.now, o.junk, o.junkId);
    }

    /** One cycle. */
    method DoCycle(sck: PR.Source, o: Outside, ghost p: Packet, ghost size: nat) returns (rc: int, e: Env)
      requires Valid() && sck.pos <= |sck.input|
      modifies this`isconnected, this`pingOutstanding, this`lastSent, this`lastReceived, this`timeOut, this`trace,
               buf, readbuf, handlers`calls, handlers.slots, sck
      ensures sck.pos <= |sck.input| && R.Used(old(sck.answers), sck.answers, 6)
      ensures EnvOk(e) && e.buf == readbuf[..] && From(e, o)
      ensures Valid()
      ensures Abs() == Cycle(old(Abs()), e).0 && trace == old(trace) + Cycle(old(Abs()), e).1 && rc == Cycle(old(Abs()), e).2
      ensures handlers.calls == old(handlers.calls) + old(Calls(Switch(e).message))
      ensures handlers.Map() == if old(isconnected) && !isconnected && cleansession then map[] else old(handlers.Map())
      ensures handlers.slots[..] == TableAt(old(Abs()), Abs(), old(handlers.slots[..]))
      ensures cleansession == old(cleansession) && keepAlive == old(keepAlive) && (isconnected ==> old(isconnected))
      ensures rc == CONNACK ==>
                Status(trace).last == Some(readbuf[..]) && Framed(readbuf[..]) && readbuf[0] / 16 == CONNACK
      ensures old(R.Prompt(sck.answers, 6) && PR.Begins(sck.input[sck.pos..], p, size))
              && |p.body| <= MAX_LENGTH && |Image(p)| <= R.RECV_SIZE ==>
                && e.rc == Type(p) && e.buf[..|Image(p)|] == Image(p)
                && sck.pos == old(sck.pos) + size
    {
      hide Lawful, Status, Framed, H.Distinct, H.Table, H.CallsFor, SessionSpec.Act, Switch, EnvOk, Agrees, Image,
           R.Prompt, R.Used, PR.Begins;
      ghost var s, t := Abs(), trace;
      e := Receive(sck, o, p, size);
      CycleKeeps(s, e);
      CycleLawful(s, e, t);
      EnvMeans(e);
      rc := Act(e);
    }

    /** Cycles until a packet of the wanted type was handled, a cycle failed or time was up. */
    method WaitFor(packetType: int, sck: PR.Source, outs: seq<Outside>, ghost p: Packet, ghost size: nat)
      returns (rc: int, ghost envs: seq<Env>)
      requires Valid() && sck.pos <= |sck.input|
      modifies this`isconnected, this`pingOutstanding, this`lastSent, this`lastReceived, this`timeOut, this`trace,
               buf, readbuf, handlers`calls, handlers.slots, sck
      ensures Valid() && sck.pos <= |sck.input|
      ensures AllOk(envs) && AllFrom(envs, outs) && InTime(old(Abs()), envs)
      ensures var w := Await(old(Abs()), packetType, envs, -1);
              Abs() == w.0 && trace == old(trace) + w.1 && rc == w.2
      ensures |envs| < |outs| ==> rc == packetType || rc < 0 || outs[|envs|].start >= timeOut
      ensures cleansession == old(cleansession) && keepAlive == old(keepAlive) && (isconnected ==> old(isconnected))
      ensures rc == packetType == CONNACK ==>
                Status(trace).last == Some(readbuf[..]) && Framed(readbuf[..]) && readbuf[0] / 16 == CONNACK
      ensures old(ServerReplies(sck, p, size, outs, timeOut)) && Type(p) == packetType == CONNACK ==>
                rc == CONNACK && readbuf[..|Image(p)|] == Image(p)
    {
      hide Lawful, Status, Framed, H.Distinct, H.CallsFor, Cycle, Switch, Await, Going, AllOk, EnvOk, Agrees, AllFrom,
           R.Used, R.Prompt, PR.Begins, Image, TableAt, InTime;
      ghost var prompt := ServerReplies(sck, p, size, outs, timeOut) && Type(p) == packetType == CONNACK;
      rc, envs := -1, [];
      var i := 0;
      ghost var s0 := Abs();
      NoneAwaited(s0, packetType, outs);
      assert trace + [] == trace;
      while i < |outs|
        invariant 0 <= i == |envs| <= |outs| && Valid() && sck.pos <= |sck.input| && (isconnected ==> old(isconnected))
        invariant cleansession == old(cleansession) && keepAlive == old(keepAlive)
        invariant AllOk(envs) && AllFrom(envs, outs)
        invariant Going(s0, packetType, envs) && InTime(s0, envs)
        invariant Abs() == Await(s0, packetType, envs, -1).0 && rc == Await(s0, packetType, envs, -1).2
        invariant trace == old(trace) + Await(s0, packetType, envs, -1).1
        invariant rc != packetType || rc == -1
        invariant prompt ==> i == 0 && ServerReplies(sck, p, size, outs, timeOut)
      {
        if outs[i].start >= timeOut {
          break;
        }
        ghost var s := Abs();
        var e;
        rc, e := DoCycle(sck, outs[i], p, size);
        if prompt {
          ConnackEndsCycle(s, e);
        }
        AwaitOneMore(s0, packetType, envs, -1, e);
        AllFromOneMore(envs, outs, e);
        ghost var t := Await(s0, packetType, envs, -1).1;
        assert old(trace) + t + Cycle(s, e).1 == old(trace) + (t + Cycle(s, e).1);
        envs := envs + [e];
        if rc == packetType || rc < 0 {
          return;
        }
        i := i + 1;
      }
    }

    /** The loop of `Yield`, under the time limit that is set. */
    method Cycles(sck: PR.Source, outs: seq<Outside>, ghost ws: seq<Wire>, ghost sizes: seq<nat>)
      returns (rc: int, ghost envs: seq<Env>)
      requires Valid() && sck.pos <= |sck.input| && outs != []
      modifies this`isconnected, this`pingOutstanding, this`lastSent, this`lastReceived, this`timeOut, this`trace,
               buf, readbuf, handlers`calls, handlers.slots, sck
      ensures Valid() && sck.pos <= |sck.input|
      ensures envs != [] && AllOk(envs) && AllFrom(envs, outs)
      ensures Abs() == Run(old(Abs()), envs).0 && trace == old(trace) + Run(old(Abs()), envs).1
      ensures Timely(old(Abs()), envs)
      ensures |envs| < |outs| ==> rc < 0 || outs[|envs|].start >= timeOut
      ensures old(OnWire(sck.input[sck.pos..], sck.answers, ws, sizes)) && |envs| <= |ws| && AllSend(outs) ==>
                Replies(trace) == old(Replies(trace)) + AllOwed(ws[..|envs|])
      ensures handlers.calls == old(handlers.calls)
                                + RunCalls(old(Abs()), envs, old(handlers.slots[..]),
                                           handlers.defaultHandler)
      ensures old(OnWire(sck.input[sck.pos..], sck.answers, ws, sizes)) && |envs| <= |ws| ==>
                && handlers.calls == old(handlers.calls)
                     + WireCalls(old(Abs()), envs, ws[..|envs|], old(handlers.slots[..]),
                                 handlers.defaultHandler)
                && (isconnected || !cleansession ==>
                      handlers.calls == old(handlers.calls)
                        + AllCalls(ws[..|envs|], old(handlers.slots[..]), handlers.defaultHandler))
    {
      hide TableAt, RunCalls, WireCalls, AllCalls, Timely;
      hide Lawful, Status, Framed, H.Distinct, H.CallsFor, Cycle, Switch, Run, AllOk, EnvOk, Agrees, R.Used, R.Prompt,
           PR.Begins, Image, OnWire, WirePacket, AllDelivered, Replies, AllOwed, AllFrom, From, H.Table, CallsOf, WireOk;
      rc, envs := 0, [];
      var i := 0;
      ghost var s0, rest, left := Abs(), ws, sizes;
      ghost var good := OnWire(sck.input[sck.pos..], sck.answers, ws, sizes);
      NothingYet(s0, outs, ws);
      ghost var table, default_, made := handlers.slots[..], handlers.defaultHandler, handlers.calls;
      NoCallsYet(s0, table, default_);
      assert trace + [] == trace && made + [] == made;
      while i < |outs|
        invariant 0 <= i == |envs| <= |outs| && Valid() && sck.pos <= |sck.input|
        invariant AllOk(envs) && AllFrom(envs, outs) && rc >= 0 && Timely(s0, envs)
        invariant Abs() == Run(s0, envs).0 && trace == old(trace) + Run(s0, envs).1
        invariant handlers.slots[..] == TableAt(s0, Abs(), table)
        invariant handlers.calls == made + RunCalls(s0, envs, table, default_)
        invariant good && i <= |ws| ==>
          && rest == ws[i..] && AllDelivered(envs, ws)
          && OnWire(sck.input[sck.pos..], sck.answers, rest, left)
        decreases |outs| - i
      {
        if i > 0 && outs[i].start >= timeOut {
          break;
        }
        ghost var s, had, input := Abs(), sck.answers, sck.input[sck.pos..];
        ghost var p, size := Packet(0, []), 0;
        if good && i < |ws| {
          WireNext(input, had, rest, left);
          p, size := WirePacket(rest[0]), left[0];
        }
        ghost var at := sck.pos;
        var e;
        rc, e := DoCycle(sck, outs[i], p, size);
        if good && i < |ws| {
          assert sck.input[sck.pos..] == input[size..];
          WireLater(input, had, rest, left, sck.answers);
          DeliveredOneMore(envs, ws, e);
          rest, left := rest[1..], left[1..];
        }
        AllFromOneMore(envs, outs, e);
        TimelyOneMore(s0, envs, e, outs[i]);
        OneCycleMore(s0, envs, e, table, default_, old(trace), made);
        envs := envs + [e];
        i := i + 1;
        if rc < 0 {
          break;
        }
      }
      if good && |envs| <= |ws| {
        CallsServed(s0, envs, ws, table, default_);
      }
      if good && |envs| <= |ws| && AllSend(outs) {
        Served(s0, old(trace), outs, envs, ws);
      }
    }

    /** Cycles for as long as there is time, at least once.  While the wire delivers whole packets in
        time and sends succeed, each is answered as it asks, in order. */
    method Yield(now: nat, timeout: nat, sck: PR.Source, outs: seq<Outside>, ghost ws: seq<Wire>, ghost sizes: seq<nat>)
      returns (rc: int, ghost envs: seq<Env>)
      requires Valid() && sck.pos <= |sck.input| && outs != []
      modifies this`isconnected, this`pingOutstanding, this`lastSent, this`lastReceived, this`timeOut, this`trace,
               buf, readbuf, handlers`calls, handlers.slots, sck
      ensures Valid() && sck.pos <= |sck.input|
      ensures envs != [] && AllOk(envs) && AllFrom(envs, outs)
      ensures var s := old(Abs()).(timeOut := now + timeout);
              Abs() == Run(s, envs).0 && trace == old(trace) + Run(s, envs).1 && Timely(s, envs)
      ensures |envs| < |outs| ==> rc < 0 || outs[|envs|].start >= timeOut
      ensures old(OnWire(sck.input[sck.pos..], sck.answers, ws, sizes)) && |envs| <= |ws| && AllSend(outs) ==>
                Replies(trace) == old(Replies(trace)) + AllOwed(ws[..|envs|])
      ensures handlers.calls == old(handlers.calls)
                                + RunCalls(old(Abs()).(timeOut := now + timeout), envs, old(handlers.slots[..]),
                                           handlers.defaultHandler)
      ensures old(OnWire(sck.input[sck.pos..], sck.answers, ws, sizes)) && |envs| <= |ws| ==>
                && handlers.calls == old(handlers.calls)
                     + WireCalls(old(Abs()).(timeOut := now + timeout), envs, ws[..|envs|], old(handlers.slots[..]),
                                 handlers.defaultHandler)
                && (isconnected || !cleansession ==>
                      handlers.calls == old(handlers.calls)
                        + AllCalls(ws[..|envs|], old(handlers.slots[..]), handlers.defaultHandler))
    {
      hide Lawful, Status, Framed, H.Distinct, H.CallsFor, H.Table, Run, AllOk, Agrees, AllFrom, OnWire, Replies, AllOwed,
           RunCalls, WireCalls, AllCalls, Timely;
      LimitAgrees(Abs(), Status(trace), now + timeout);
      timeOut := now + timeout;
      rc, envs := Cycles(sck, outs, ws, sizes);
    }

    /** Opens the connection, sends CONNECT and waits for the answer.  The connection is up
        afterwards exactly if it was up before -- then nothing happens -- or the result is 0,
        and 0 means the server accepted. */
    method Connect(options: Option<C.Options>, tcpOk: bool, sendOk: bool, now: nat, sck: PR.Source, outs: seq<Outside>,
                   ghost c: C.Connack, ghost size: nat)
      returns (rc: int)
      requires Valid() && sck.pos <= |sck.input|
      requires options.Some? ==> C.OneLengths(options.value) && options.value.version in {3, 4}
                                 && C.ConnectLength(options.value) <= MAX_LENGTH
      modifies this, buf, readbuf, handlers`calls, handlers.slots, sck
      ensures Valid() && old(trace) <= trace
      ensures old(isconnected) || !tcpOk ==> rc == -10 && Abs() == old(Abs()) && trace == old(trace)
      ensures !old(isconnected) && tcpOk ==>
                && keepAlive == OrDefault(options).keepAlive
                && cleansession == (OrDefault(options).cleansession != 0)
      ensures isconnected <==> old(isconnected) || rc == 0
      ensures rc == 0 ==>
                && trace != [] && trace[|trace| - 1] == Accepted(readbuf[..]) && Accepts(readbuf[..])
                && !pingOutstanding
                && old(trace) + [Attempt(Image(C.AsPacket(C.Sent(OrDefault(options)))))] <= trace
      ensures !old(isconnected) && tcpOk && sendOk && PacketLen(|C.Body(C.Sent(OrDefault(options)))|) <= SEND_SIZE
              && old(ServerReplies(sck, C.ConnackPacket(c), size, outs, now + ACK_COMMAND_TIMEOUT)) && c.sessionPresent < 2 ==>
                rc == c.code
    {
      hide Lawful, Status, Framed, H.Distinct, Image, C.AsPacket, C.Sent, C.ConnectLength, C.OneLengths, C.Body, Accepts,
           Await, AllOk, AllFrom, CodeOf, ServerReplies;
      rc := -10;
      if isconnected {
        return;
      }
      if !tcpOk {
        return;
      }
      timeOut := now + ACK_COMMAND_TIMEOUT;
      DefaultOptionsFit();
      var o := OrDefault(options);
      keepAlive, cleansession := o.keepAlive, o.cleansession != 0;
      lastReceived := now + 1000 * keepAlive;
      rc := SendConnect(o, sendOk, now);
      if rc != 0 {
        return;
      }
      ghost var envs;
      rc, envs := AwaitConnack(sck, outs, c, size);
    }

    /** Waits for the server's answer, and is connected if it accepts. */
    method AwaitConnack(sck: PR.Source, outs: seq<Outside>, ghost c: C.Connack, ghost size: nat)
      returns (rc: int, ghost envs: seq<Env>)
      requires Valid() && !isconnected && sck.pos <= |sck.input|
      modifies this`isconnected, this`pingOutstanding, this`lastSent, this`lastReceived, this`timeOut, this`trace,
               buf, readbuf, handlers`calls, handlers.slots, sck
      ensures Valid() && old(trace) <= trace && (isconnected <==> rc == 0)
      ensures AllOk(envs) && AllFrom(envs, outs)
      ensures var w := Await(old(Abs()), CONNACK, envs, -1);
              if w.2 != CONNACK then rc == -11 && Abs() == w.0 && trace == old(trace) + w.1
              else rc == CodeOf(readbuf[..]) && (rc != 0 ==> Abs() == w.0 && trace == old(trace) + w.1)
      ensures cleansession == old(cleansession) && keepAlive == old(keepAlive)
      ensures rc == 0 ==>
                && |trace| > |old(trace)| && trace[|trace| - 1] == Accepted(readbuf[..]) && Accepts(readbuf[..])
                && !pingOutstanding
      ensures old(ServerReplies(sck, C.ConnackPacket(c), size, outs, timeOut)) && c.sessionPresent < 2 ==> rc == c.code
    {
      hide Lawful, Status, Framed, H.Distinct, H.Table, Accepts, Await, AllOk, AllFrom, CodeOf, Agrees, ServerReplies, Image,
           InTime, C.ConnackPacket, Type, SessionSpec.Observe;
      ghost var p := C.ConnackPacket(c);
      ghost var prompt := ServerReplies(sck, p, size, outs, timeOut) && c.sessionPresent < 2;
      ImageFits(sck, c, size, outs, timeOut);
      rc, envs := WaitFor(CONNACK, sck, outs, p, size);
      if prompt {
        CodeOnWire(readbuf[..], c);
      }
      if rc == CONNACK {
        rc := ConnackCode();
      } else {
        rc := -11;
      }
      if rc == 0 {
        ghost var accepted := Accepted(readbuf[..]);
        Extended(Abs(), trace, accepted);
        trace := trace + [accepted];
        isconnected := true;
        pingOutstanding := false;
      }
    }

    /** Writes the CONNECT and sends it. */
    method SendConnect(o: C.Options, sendOk: bool, now: nat) returns (rc: int)
      requires Valid() && !isconnected
      requires C.OneLengths(o) && o.version in {3, 4} && C.ConnectLength(o) <= MAX_LENGTH
      modifies this`lastSent, this`trace, buf
      ensures Valid() && !isconnected
      ensures rc == if PacketLen(|C.Body(C.Sent(o))|) > SEND_SIZE then -10 else if sendOk then 0 else -21
      ensures rc == 0 ==> trace == old(trace) + [Attempt(Image(C.AsPacket(C.Sent(o))))]
      ensures rc != 0 ==> trace == old(trace)
    {
      hide Lawful, Status, Splice, Image, C.Body, C.Sent, C.ConnectLength, C.OneLengths;
      var len := C.Serialize(buf, o);
      if len <= 0 {
        return -10;
      }
      SpliceReads(old(buf[..]), 0, Image(C.AsPacket(C.Sent(o))));
      rc := SendPacket(len, sendOk, now);
      if rc == 0 {
        ghost var attempt := Attempt(buf[0..len]);
        Extend(trace, attempt);
        trace := trace + [attempt];
      }
    }

    /** The server's return code, -12 if the reply cannot be read. */
    method ConnackCode() returns (rc: int)
      requires readbuf.Length > 0 && Framed(readbuf[..]) && readbuf[0] / 16 == CONNACK
      ensures rc == CodeOf(readbuf[..]) && (rc == 0 <==> Accepts(readbuf[..]))
    {
      hide Framed, BodyStart, BodyEnd;
      var drc, c := C.DeserializeConnack(readbuf[..]);
      rc := if drc == 1 then c.code else -12;
    }

    /** Says goodbye and closes, whether or not the packet could be sent. */
    method Disconnect(sendOk: bool, now: nat) returns (rc: int)
      requires Valid()
      modifies this`lastSent, this`timeOut, this`pingOutstanding, this`isconnected, this`trace, buf, handlers.slots
      ensures Valid() && !isconnected && !pingOutstanding && trace == old(trace) + [Closed]
      ensures rc == if sendOk then 0 else -21
      ensures |Image(GOODBYE)| <= buf.Length && buf[..|Image(GOODBYE)|] == Image(GOODBYE)
      ensures handlers.Map() == if cleansession then map[] else old(handlers.Map())
    {
      timeOut := now + ACK_COMMAND_TIMEOUT;
      var len := WriteZero(DISCONNECT);
      rc := SendPacket(len, sendOk, now);
      CloseSession();
    }
  }

  const DEFAULT_OPTIONS: C.Options :=
    C.Options(4, MqttString(None, None), 60, 1, false, MqttString(None, None), MqttString(None, None), 0, 0,
              MqttString(None, None), MqttString(None, None))

  function OrDefault(options: Option<C.Options>): C.Options {
    if options.Some? then options.value else DEFAULT_OPTIONS
  }

  lemma DefaultOptionsFit()
    ensures C.OneLengths(DEFAULT_OPTIONS) && DEFAULT_OPTIONS.version == 4
    ensures C.ConnectLength(DEFAULT_OPTIONS) <= MAX_LENGTH
  {
  }

  /** An acceptance agrees with the flags it sets. */
  lemma Extended(s: Session, trace: seq<Event>, e: Event)
    requires Lawful(trace) && Agrees(s, Status(trace)) && e.Accepted?
    requires !s.isconnected && Status(trace).last == Some(e.connack) && Accepts(e.connack)
    ensures Lawful(trace + [e]) && Agrees(s.(isconnected := true, pingOutstanding := false), Status(trace + [e]))
  {
    hide Lawful, Status, Accepts;
    Extend(trace, e);
  }

  /** What the client makes of a reply to CONNECT. */
  function CodeOf(buf: seq<Byte>): int {
    if !Framed(buf) then -12
    else
      var c := C.ParseConnack(buf);
      if c.Some? then c.value.code else if buf[0] / 16 == CONNACK && BodyStart(buf) == 2 then 0 else -12
  }

  lemma EnvMeans(e: Env)
    requires EnvOk(e)
    ensures e.rc > 0 ==> Framed(e.buf) && e.buf != [] && e.buf[0] / 16 == e.rc
  {
  }

  predicate From(e: Env, o: Outside) {
    && e.sendOk == o.sendOk && e.pingOk == o.pingOk && e.start == o.start && e.now == o.now
    && e.junk == o.junk && e.junkId == o.junkId
  }

  predicate AllFrom(envs: seq<Env>, outs: seq<Outside>) {
    |envs| <= |outs| && forall i :: 0 <= i < |envs| ==> From(envs[i], outs[i])
  }

  predicate AllSend(outs: seq<Outside>) {
    forall i :: 0 <= i < |outs| ==> outs[i].sendOk
  }

  lemma AllFromOneMore(envs: seq<Env>, outs: seq<Outside>, e: Env)
    requires AllFrom(envs, outs) && |envs| < |outs| && From(e, outs[|envs|])
    ensures AllFrom(envs + [e], outs)
  {
    hide From;
  }

  // ---------- Waiting ----------

  /** The first thing on the wire is this packet; the transport serves it without delay and there is
      time for a cycle. */
  ghost predicate ServerReplies(sck: PR.Source, p: Packet, size: nat, outs: seq<Outside>, timeOut: nat)
    reads sck
  {
    && sck.pos <= |sck.input| && R.Prompt(sck.answers, 6) && PR.Begins(sck.input[sck.pos..], p, size)
    && |p.body| <= MAX_LENGTH && |Image(p)| <= R.RECV_SIZE
    && outs != [] && outs[0].start < timeOut
  }

  lemma ImageFits(sck: PR.Source, c: C.Connack, size: nat, outs: seq<Outside>, timeOut: nat)
    ensures Type(C.ConnackPacket(c)) == CONNACK
    ensures ServerReplies(sck, C.ConnackPacket(c), size, outs, timeOut) ==> |Image(C.ConnackPacket(c))| <= R.RECV_SIZE
  {
  }

  /** A cycle that reads a CONNACK returns its type. */
  lemma ConnackEndsCycle(s: Session, e: Env)
    requires EnvOk(e) && e.rc == CONNACK
    ensures Cycle(s, e).2 == CONNACK
  {
    hide Framed;
  }

  /** What a CONNACK on the wire means, whatever is behind it in the buffer. */
  lemma CodeOnWire(buf: seq<Byte>, c: C.Connack)
    requires c.sessionPresent < 2 && |Image(C.ConnackPacket(c))| <= |buf|
    requires buf[..|Image(C.ConnackPacket(c))|] == Image(C.ConnackPacket(c))
    ensures CodeOf(buf) == c.code
  {
    hide Image, Framed, C.ParseConnack;
    var n := |Image(C.ConnackPacket(c))|;
    C.ConnackRoundTrip(c, buf[n..]);
    assert buf == Image(C.ConnackPacket(c)) + buf[n..];
  }

  /** No cycle so far was what one waits for, failed, or came too late. */
  predicate Going(s: Session, want: int, envs: seq<Env>)
    requires AllOk(envs)
    decreases |envs|
  {
    envs == [] || (
      && envs[0].start < s.timeOut
      && var (s1, _, rc1) := Cycle(s, envs[0]);
      && rc1 != want && rc1 >= 0 && Going(s1, want, envs[1..]))
  }

  /** Every cycle began before the time limit as it was then. */
  predicate InTime(s: Session, envs: seq<Env>)
    requires AllOk(envs)
    decreases |envs|
  {
    envs == [] || (envs[0].start < s.timeOut && InTime(Cycle(s, envs[0]).0, envs[1..]))
  }

  lemma NoneAwaited(s: Session, want: int, outs: seq<Outside>)
    ensures AllOk([]) && AllFrom([], outs) && Going(s, want, []) && Await(s, want, [], -1) == (s, [], -1)
    ensures InTime(s, [])
  {
  }

  /** A first cycle that goes on. */
  lemma AwaitStep(s: Session, want: int, envs: seq<Env>, rc: int)
    requires AllOk(envs) && envs != [] && envs[0].start < s.timeOut
    requires EnvOk(envs[0]) && Cycle(s, envs[0]).2 != want && Cycle(s, envs[0]).2 >= 0
    ensures AllOk(envs[1..])
    ensures var (s1, t1, rc1) := Cycle(s, envs[0]);
            var w := Await(s1, want, envs[1..], rc1);
            && Await(s, want, envs, rc) == (w.0, t1 + w.1, w.2)
            && (Going(s, want, envs) <==> Going(s1, want, envs[1..]))
            && (InTime(s, envs) <==> InTime(s1, envs[1..]))
  {
    hide Cycle, EnvOk;
  }

  lemma GoingMeans(s: Session, want: int, envs: seq<Env>)
    requires AllOk(envs) && Going(s, want, envs) && envs != []
    ensures envs[0].start < s.timeOut && EnvOk(envs[0]) && Cycle(s, envs[0]).2 != want && Cycle(s, envs[0]).2 >= 0
  {
    hide Cycle, EnvOk;
  }

  lemma AwaitOne(s: Session, want: int, rc: int, e: Env)
    requires EnvOk(e) && e.start < s.timeOut
    ensures AllOk([e]) && Await(s, want, [e], rc) == Cycle(s, e)
    ensures Cycle(s, e).2 != want && Cycle(s, e).2 >= 0 ==> Going(s, want, [e])
    ensures InTime(s, [e])
  {
    hide Cycle, EnvOk;
    var c := Cycle(s, e);
    assert c.1 + [] == c.1 && [e][1..] == [];
  }

  lemma {:induction false} AwaitOneMore(s: Session, want: int, envs: seq<Env>, rc: int, e: Env)
    requires AllOk(envs) && EnvOk(e) && Going(s, want, envs) && e.start < Await(s, want, envs, rc).0.timeOut
    ensures AllOk(envs + [e])
    ensures var w, c := Await(s, want, envs, rc), Cycle(Await(s, want, envs, rc).0, e);
            && Await(s, want, envs + [e], rc) == (c.0, w.1 + c.1, c.2)
            && (c.2 != want && c.2 >= 0 ==> Going(s, want, envs + [e]))
    ensures InTime(s, envs + [e])
    decreases |envs|
  {
    hide Cycle, EnvOk;
    var more := envs + [e];
    if envs == [] {
      AwaitOne(s, want, rc, e);
      assert [] + [e] == [e] && [] + Cycle(s, e).1 == Cycle(s, e).1;
    } else {
      hide Await, Going, InTime;
      GoingMeans(s, want, envs);
      AwaitStep(s, want, envs, rc);
      assert more[0] == envs[0] && more[1..] == envs[1..] + [e];
      AwaitStep(s, want, more, rc);
      var (s1, t1, rc1) := Cycle(s, envs[0]);
      AwaitOneMore(s1, want, envs[1..], rc1, e);
      var w := Await(s1, want, envs[1..], rc1);
      var c := Cycle(w.0, e);
      assert t1 + (w.1 + c.1) == t1 + w.1 + c.1;
    }
  }

  // ---------- Packets on the wire ----------

  function Packets(ws: seq<Wire>): (r: seq<Packet>)
    ensures |r| == |ws| && forall i :: 0 <= i < |r| ==> r[i] == WirePacket(ws[i])
  {
    seq(|ws|, i requires 0 <= i < |ws| => WirePacket(ws[i]))
  }

  /** The input goes on with these packets, each fits the read buffer, and the transport serves them
      without delay. */
  ghost predicate OnWire(input: seq<Byte>, answers: seq<int>, ws: seq<Wire>, sizes: seq<nat>) {
    && PR.Carries(input, Packets(ws), sizes)
    && R.Prompt(answers, 6 * |ws|)
    && forall i :: 0 <= i < |ws| ==>
      WireOk(ws[i]) && |WirePacket(ws[i]).body| <= MAX_LENGTH && |Image(WirePacket(ws[i]))| <= R.RECV_SIZE
  }

  lemma WireNext(input: seq<Byte>, answers: seq<int>, ws: seq<Wire>, sizes: seq<nat>)
    requires OnWire(input, answers, ws, sizes) && ws != []
    ensures |sizes| == |ws| && R.Prompt(answers, 6)
    ensures var p := WirePacket(ws[0]);
            && PR.Begins(input, p, sizes[0]) && sizes[0] <= |input| && Type(p) != 0
            && WireOk(ws[0]) && |p.body| <= MAX_LENGTH && |Image(p)| <= R.RECV_SIZE
  {
    hide PR.Begins, Image, WirePacket, WireOk, R.Prompt;
    PR.BeginsBounds(input, WirePacket(ws[0]), sizes[0]);
    R.PromptNext(answers, 6 * |ws|);
  }

  lemma WireLater(input: seq<Byte>, answers: seq<int>, ws: seq<Wire>, sizes: seq<nat>, after: seq<int>)
    requires OnWire(input, answers, ws, sizes) && ws != [] && R.Used(answers, after, 6)
    ensures |sizes| == |ws| && sizes[0] <= |input|
    ensures OnWire(input[sizes[0]..], after, ws[1..], sizes[1..])
  {
    hide PR.Begins, Image, WirePacket, WireOk, R.Prompt, R.Used;
    WireNext(input, answers, ws, sizes);
    assert Packets(ws)[1..] == Packets(ws[1..]);
    assert 6 * |ws| == 6 + 6 * |ws[1..]|;
    R.PromptAfter(answers, after, 6, 6 * |ws[1..]|);
  }

  /** Cycle i read packet i. */
  predicate AllDelivered(envs: seq<Env>, ws: seq<Wire>) {
    |envs| <= |ws| && forall i :: 0 <= i < |envs| ==> envs[i].rc > 0 && WireOk(ws[i]) && Delivers(envs[i], ws[i])
  }

  lemma DeliveredOneMore(envs: seq<Env>, ws: seq<Wire>, e: Env)
    requires AllDelivered(envs, ws) && |envs| < |ws|
    requires e.rc > 0 && WireOk(ws[|envs|]) && Delivers(e, ws[|envs|])
    ensures AllDelivered(envs + [e], ws)
  {
    hide Delivers, WireOk;
  }

  lemma DeliveredPrefix(envs: seq<Env>, ws: seq<Wire>)
    requires AllDelivered(envs, ws)
    ensures AllDelivered(envs, ws[..|envs|])
  {
    hide Delivers, WireOk;
  }

  lemma LimitAgrees(s: Session, l: Link, limit: nat)
    requires Agrees(s, l)
    ensures Agrees(s.(timeOut := limit), l)
  {
  }

  /** Every cycle but the first began before the time limit as it was then. */
  predicate Timely(s: Session, envs: seq<Env>)
    requires AllOk(envs)
  {
    forall i :: 0 < i < |envs| ==> envs[i].start < Run(s, envs[..i]).0.timeOut
  }

  lemma TimelyOneMore(s: Session, envs: seq<Env>, e: Env, o: Outside)
    requires AllOk(envs) && EnvOk(e) && Timely(s, envs) && From(e, o)
    requires envs == [] || o.start < Run(s, envs).0.timeOut
    ensures AllOk(envs + [e]) && Timely(s, envs + [e])
  {
    hide Run, EnvOk;
    var more := envs + [e];
    forall i | 0 < i < |more|
      ensures more[i].start < Run(s, more[..i]).0.timeOut
    {
      assert more[..i] == envs[..i];
      assert i == |envs| ==> envs[..i] == envs;
    }
  }

  lemma NothingYet(s: Session, outs: seq<Outside>, ws: seq<Wire>)
    ensures Timely(s, [])
    ensures AllOk([]) && AllFrom([], outs) && Run(s, []) == (s, []) && AllDelivered([], ws) && ws[0..] == ws
  {
  }

  lemma RunOneMore(s: Session, envs: seq<Env>, e: Env)
    requires AllOk(envs) && EnvOk(e)
    ensures AllOk(envs + [e])
    ensures var (s1, t) := Run(s, envs);
            var c := Cycle(s1, e);
            Run(s, envs + [e]) == (c.0, t + c.1)
  {
    hide Cycle, EnvOk;
    assert (envs + [e])[..|envs|] == envs;
  }

  lemma Served(s: Session, before: seq<Event>, outs: seq<Outside>, envs: seq<Env>, ws: seq<Wire>)
    requires AllOk(envs) && AllFrom(envs, outs) && AllSend(outs) && AllDelivered(envs, ws)
    ensures Replies(before + Run(s, envs).1) == Replies(before) + AllOwed(ws[..|envs|])
  {
    hide Replies, Run, AllOwed, EnvOk, WireOk, Delivers;
    StreamAnswered(s, envs, ws[..|envs|]);
    RepliesAppend(before, Run(s, envs).1);
  }

  // ---------- Handler calls over a run ----------

  /** The handler calls a message causes, if there is one. */
  function CallsOf(slots: seq<H.Slot>, default_: Option<H.Handler>, m: Option<P.Received>): seq<H.Delivery> {
    if m == None then [] else H.CallsFor(slots, default_, m.value)
  }

  /** The table when the session has come from s to s': emptied if a clean session was closed. */
  function TableAt(s: Session, s': Session, slots: seq<H.Slot>): seq<H.Slot> {
    if s.isconnected && !s'.isconnected && s.cleansession then H.Cleaned(slots) else slots
  }

  /** All calls of a run, each with the table of its time. */
  function RunCalls(s: Session, envs: seq<Env>, slots: seq<H.Slot>, default_: Option<H.Handler>): seq<H.Delivery>
    requires AllOk(envs)
    decreases |envs|
  {
    if envs == [] then []
    else
      var n := |envs| - 1;
      assert EnvOk(envs[n]);
      RunCalls(s, envs[..n], slots, default_)
      + CallsOf(TableAt(s, Run(s, envs[..n]).0, slots), default_, Switch(envs[n]).message)
  }

  /** The calls the packets on the wire ask for, cycle n having read packet n. */
  function WireCalls(s: Session, envs: seq<Env>, ws: seq<Wire>, slots: seq<H.Slot>, default_: Option<H.Handler>)
    : seq<H.Delivery>
    requires AllOk(envs) && |ws| == |envs|
    decreases |envs|
  {
    if envs == [] then []
    else
      var n := |envs| - 1;
      WireCalls(s, envs[..n], ws[..n], slots, default_)
      + CallsOf(TableAt(s, Run(s, envs[..n]).0, slots), default_, Handed(ws[n]))
  }

  /** The calls for packets that all meet the same table. */
  function AllCalls(ws: seq<Wire>, slots: seq<H.Slot>, default_: Option<H.Handler>): seq<H.Delivery>
    decreases |ws|
  {
    if ws == [] then [] else AllCalls(ws[..|ws| - 1], slots, default_) + CallsOf(slots, default_, Handed(ws[|ws| - 1]))
  }

  /** One cycle more: events, table and calls. */
  lemma OneCycleMore(s0: Session, envs: seq<Env>, e: Env, table: seq<H.Slot>, default_: Option<H.Handler>,
                     before: seq<Event>, made: seq<H.Delivery>)
    requires AllOk(envs) && EnvOk(e)
    ensures AllOk(envs + [e])
    ensures var (s, t) := Run(s0, envs);
            var c := Cycle(s, e);
            var calls := RunCalls(s0, envs, table, default_);
            && Run(s0, envs + [e]).0 == c.0 && before + Run(s0, envs + [e]).1 == before + t + c.1
            && TableAt(s, c.0, TableAt(s0, s, table)) == TableAt(s0, c.0, table)
            && made + RunCalls(s0, envs + [e], table, default_)
               == made + calls + CallsOf(TableAt(s0, s, table), default_, Switch(e).message)
  {
    hide Run, Cycle, EnvOk, TableAt, RunCalls, CallsOf, Switch;
    RunOneMore(s0, envs, e);
    var (s, t) := Run(s0, envs);
    assert before + t + Cycle(s, e).1 == before + (t + Cycle(s, e).1);
    RunKeeps(s0, envs);
    CycleKeeps(s, e);
    TableLater(s0, s, Cycle(s, e).0, table);
    CallsOneMore(s0, envs, e, table, default_);
    SeqAssoc(made, RunCalls(s0, envs, table, default_), CallsOf(TableAt(s0, s, table), default_, Switch(e).message));
  }

  lemma NoCallsYet(s: Session, slots: seq<H.Slot>, default_: Option<H.Handler>)
    ensures AllOk([]) && RunCalls(s, [], slots, default_) == [] && TableAt(s, s, slots) == slots
  {
  }

  lemma TableLater(s: Session, s1: Session, s2: Session, slots: seq<H.Slot>)
    requires s1.cleansession == s.cleansession && (s1.isconnected ==> s.isconnected) && (s2.isconnected ==> s1.isconnected)
    ensures TableAt(s1, s2, TableAt(s, s1, slots)) == TableAt(s, s2, slots)
  {
  }

  lemma TableSame(s: Session, s1: Session, slots: seq<H.Slot>)
    requires s1.cleansession == s.cleansession && s1.isconnected == s.isconnected
    ensures forall s2 :: TableAt(s1, s2, slots) == TableAt(s, s2, slots)
  {
  }

  lemma CallsOneMore(s: Session, envs: seq<Env>, e: Env, slots: seq<H.Slot>, default_: Option<H.Handler>)
    requires AllOk(envs) && EnvOk(e)
    ensures AllOk(envs + [e])
    ensures RunCalls(s, envs + [e], slots, default_)
            == RunCalls(s, envs, slots, default_)
               + CallsOf(TableAt(s, Run(s, envs).0, slots), default_, Switch(e).message)
  {
    hide Run, Switch, EnvOk, CallsOf, TableAt;
    assert (envs + [e])[..|envs|] == envs;
  }

  lemma SeqAssoc(a: seq<H.Delivery>, b: seq<H.Delivery>, c: seq<H.Delivery>)
    ensures a + b + c == a + (b + c)
  {
  }

  /** Over any run that reads packets from the wire the handler calls are, in order, those of the
      messages on it, each with the table of its time -- whether or not sends succeed. */
  lemma {:induction false} CallsOnWire(s: Session, envs: seq<Env>, ws: seq<Wire>, slots: seq<H.Slot>,
                                       default_: Option<H.Handler>)
    requires AllOk(envs) && |ws| == |envs| && AllDelivered(envs, ws)
    ensures RunCalls(s, envs, slots, default_) == WireCalls(s, envs, ws, slots, default_)
    decreases |envs|
  {
    hide Run, Switch, EnvOk, CallsOf, TableAt, WireOk, Delivers, Handed;
    if envs != [] {
      var n := |envs| - 1;
      CallsOnWire(s, envs[..n], ws[..n], slots, default_);
      WireDelivered(envs[n], ws[n]);
    }
  }

  lemma {:induction false} RunKeeps(s: Session, envs: seq<Env>)
    requires AllOk(envs)
    ensures Run(s, envs).0.isconnected ==> s.isconnected
    ensures Run(s, envs).0.cleansession == s.cleansession
    decreases |envs|
  {
    hide Cycle, EnvOk;
    if envs != [] {
      var n := |envs| - 1;
      RunKeeps(s, envs[..n]);
      assert EnvOk(envs[n]);
      CycleKeeps(Run(s, envs[..n]).0, envs[n]);
    }
  }

  /** While no clean session is closed they depend on nothing else. */
  lemma {:induction false} SteadyCalls(s: Session, envs: seq<Env>, ws: seq<Wire>, slots: seq<H.Slot>,
                                       default_: Option<H.Handler>)
    requires AllOk(envs) && |ws| == |envs|
    ensures Run(s, envs).0.isconnected || !s.cleansession ==>
              WireCalls(s, envs, ws, slots, default_) == AllCalls(ws, slots, default_)
    decreases |envs|
  {
    hide Cycle, EnvOk, CallsOf, Handed;
    if envs != [] {
      var n := |envs| - 1;
      SteadyCalls(s, envs[..n], ws[..n], slots, default_);
      assert EnvOk(envs[n]);
      CycleKeeps(Run(s, envs[..n]).0, envs[n]);
    }
  }

  lemma CallsServed(s: Session, envs: seq<Env>, ws: seq<Wire>, slots: seq<H.Slot>, default_: Option<H.Handler>)
    requires AllOk(envs) && AllDelivered(envs, ws)
    ensures RunCalls(s, envs, slots, default_) == WireCalls(s, envs, ws[..|envs|], slots, default_)
    ensures Run(s, envs).0.isconnected || !Run(s, envs).0.cleansession ==>
              RunCalls(s, envs, slots, default_) == AllCalls(ws[..|envs|], slots, default_)
  {
    hide Run, RunCalls, WireCalls, AllCalls;
    DeliveredPrefix(envs, ws);
    RunKeeps(s, envs);
    CallsOnWire(s, envs, ws[..|envs|], slots, default_);
    SteadyCalls(s, envs, ws[..|envs|], slots, default_);
  }

  lemma FramedHasHeader(buf: seq<Byte>)
    requires Framed(buf)
    ensures buf != []
  {
  }

  lemma AfterSwitchKeeps(s: Session, e: Env)
    requires EnvOk(e)
    ensures AfterSwitch(s, e).isconnected == s.isconnected && AfterSwitch(s, e).cleansession == s.cleansession
    ensures AfterSwitch(s, e).keepAlive == s.keepAlive
  {
  }

  lemma KeepAliveKeeps(s: Session, e: Env)
    ensures KeepAlive(s, e).0.isconnected == s.isconnected && KeepAlive(s, e).0.cleansession == s.cleansession
  {
  }

  /** A cycle never brings the connection up and never changes the options. */
  lemma CycleKeeps(s: Session, e: Env)
    requires EnvOk(e)
    ensures Cycle(s, e).0.isconnected ==> s.isconnected
    ensures Cycle(s, e).0.cleansession == s.cleansession && Cycle(s, e).0.keepAlive == s.keepAlive
  {
    hide Framed, Switch, SwitchEvents, AfterSwitch;
    AfterSwitchKeeps(Received(s, e), e);
  }
}
