/** When a session pings, and when it gives the connection up: told by what was heard and said, over
    any run of cycles. */
module SessionLaws {
  import opened Bytes
  import opened Framing
  import opened MqttFields
  import opened SessionSpec
  import P = MqttPublish

  // ---------- Pings ----------

  /** Something was sent in this cycle. */
  predicate Says(events: seq<Event>) {
    exists i :: 0 <= i < |events| && (events[i].Reply? || events[i].PingSent?)
  }

  predicate Pings(events: seq<Event>) {
    exists i :: 0 <= i < |events| && events[i].PingSent?
  }

  /** What cycle i of a run does. */
  function Done(s: Session, es: seq<Env>, i: nat): seq<Event>
    requires AllOk(es) && i < |es|
  {
    assert EnvOk(es[i]);
    Cycle(Run(s, es[..i]).0, es[i]).1
  }

  predicate ClockRuns(es: seq<Env>) {
    forall i, j :: 0 <= i < j < |es| ==> es[i].now <= es[j].now
  }

  /** For a whole keep-alive interval no packet was received; the deadline the run began with has passed. */
  predicate Unheard(s: Session, es: seq<Env>, now: nat) {
    s.lastReceived <= now && forall i :: 0 <= i < |es| && es[i].whole ==> es[i].now + 1000 * s.keepAlive <= now
  }

  /** Likewise nothing was sent. */
  predicate Unsaid(s: Session, es: seq<Env>, now: nat)
    requires AllOk(es)
  {
    s.lastSent <= now && forall i :: 0 <= i < |es| && Says(Done(s, es, i)) ==> es[i].now + 1000 * s.keepAlive <= now
  }

  /** No deadline lies further ahead than one interval. */
  predicate Fresh(s: Session, now: nat) {
    s.lastSent <= now + 1000 * s.keepAlive && s.lastReceived <= now + 1000 * s.keepAlive
  }

  lemma SaysNothing()
    ensures !Says([]) && !Pings([])
  {
  }

  lemma SaysOne(e: Event)
    ensures Says([e]) <==> e.Reply? || e.PingSent?
    ensures Pings([e]) <==> e.PingSent?
  {
    assert [e][0] == e;
  }

  /** Only the switch replies, and it never pings. */
  lemma SwitchSays(e: Env)
    requires EnvOk(e)
    ensures Says(SwitchEvents(e)) <==> Switch(e).reply.Some? && e.sendOk
    ensures !Pings(SwitchEvents(e))
  {
    hide Switch, Says, Pings, Framed;
    var w := Switch(e);
    var got := if e.rc > 0 then [Got(e.buf)] else [];
    var rep := if w.reply.Some? && e.sendOk then [Reply(w.reply.value)] else [];
    var pong := if e.rc == PINGRESP then [Pong] else [];
    SaysAppend(got + rep, pong);
    SaysAppend(got, rep);
    SaysNothing();
    SaysOne(Got(e.buf));
    SaysOne(Pong);
    if rep != [] {
      SaysOne(rep[0]);
    }
  }

  lemma FinishSays(s: Session, rc: int)
    ensures !Says(Finish(s, rc).1) && !Pings(Finish(s, rc).1)
    ensures Finish(s, rc).0 == s.(pingOutstanding := Finish(s, rc).0.pingOutstanding, isconnected := Finish(s, rc).0.isconnected)
  {
  }

  lemma PingSays(s: Session, e: Env)
    ensures var due := s.keepAlive > 0 && s.lastSent <= e.now && s.lastReceived <= e.now && !s.pingOutstanding && e.pingOk;
            && (Says(KeepAlive(s, e).1) <==> due) && (Pings(KeepAlive(s, e).1) <==> due)
            && KeepAlive(s, e).0.lastSent == (if due then e.now + 1000 * s.keepAlive else s.lastSent)
            && KeepAlive(s, e).0.lastReceived == s.lastReceived && KeepAlive(s, e).0.keepAlive == s.keepAlive
            && KeepAlive(s, e).0.timeOut == (if s.keepAlive > 0 && s.lastSent <= e.now && s.lastReceived <= e.now
                                                && !s.pingOutstanding then e.now + 1000 else s.timeOut)
  {
    hide Says, Pings;
    SaysNothing();
    SaysOne(PingSent(PINGREQ_BYTES));
  }

  /** Without a packet there is nothing to reply to. */
  lemma SilentSwitch(e: Env)
    requires EnvOk(e) && !e.whole
    ensures Switch(e).reply == None && (Switch(e).goesOn <==> e.rc == 0)
  {
  }

  lemma SwitchDeadlines(s: Session, e: Env)
    requires EnvOk(e)
    ensures var s1 := AfterSwitch(s, e);
            && s1.lastSent == (if Switch(e).reply.Some? && e.sendOk then e.now + 1000 * s.keepAlive else s.lastSent)
            && s1.lastReceived == s.lastReceived && s1.keepAlive == s.keepAlive && s1.timeOut == s.timeOut
            && (!e.whole ==> s1.pingOutstanding == s.pingOutstanding)
  {
    hide Switch;
  }

  /** What a cycle does to the deadlines, and when it pings; a ping leaves one second for the answer. */
  lemma CycleDeadlines(s: Session, e: Env)
    requires EnvOk(e) && s.keepAlive > 0
    ensures var (s', events, _) := Cycle(s, e);
            && s'.keepAlive == s.keepAlive
            && s'.lastReceived == (if e.whole then e.now + 1000 * s.keepAlive else s.lastReceived)
            && s'.lastSent == (if Says(events) then e.now + 1000 * s.keepAlive else s.lastSent)
            && (Pings(events) <==> !e.whole && e.rc == 0 && s.lastSent <= e.now && s.lastReceived <= e.now
                                   && !s.pingOutstanding && e.pingOk)
            && s'.timeOut == (if !e.whole && e.rc == 0 && s.lastSent <= e.now && s.lastReceived <= e.now
                                 && !s.pingOutstanding then e.now + 1000 else s.timeOut)
  {
    hide Framed, SwitchEvents, Switch, AfterSwitch, KeepAlive, Finish, Says, Pings;
    var r := Received(s, e);
    SwitchSays(e);
    SwitchDeadlines(r, e);
    if !e.whole {
      SilentSwitch(e);
    }
    var s1, w := AfterSwitch(r, e), Switch(e);
    PingSays(s1, e);
    var (s2, e2, krc) := if w.goesOn then KeepAlive(s1, e) else (s1, [], 0);
    SaysNothing();
    FinishSays(s2, if krc != 0 then krc else w.rc);
    var e3 := Finish(s2, if krc != 0 then krc else w.rc).1;
    SaysAppend(SwitchEvents(e) + e2, e3);
    SaysAppend(SwitchEvents(e), e2);
  }

  lemma SaysAppend(a: seq<Event>, b: seq<Event>)
    ensures Says(a + b) <==> Says(a) || Says(b)
    ensures Pings(a + b) <==> Pings(a) || Pings(b)
  {
    if Says(a) {
      var i :| 0 <= i < |a| && (a[i].Reply? || a[i].PingSent?);
      assert (a + b)[i] == a[i];
    }
    if Says(b) {
      var i :| 0 <= i < |b| && (b[i].Reply? || b[i].PingSent?);
      assert (a + b)[|a| + i] == b[i];
    }
    if Pings(a) {
      var i :| 0 <= i < |a| && a[i].PingSent?;
      assert (a + b)[i] == a[i];
    }
    if Pings(b) {
      var i :| 0 <= i < |b| && b[i].PingSent?;
      assert (a + b)[|a| + i] == b[i];
    }
  }

  lemma DoneBefore(s: Session, es: seq<Env>, n: nat, i: nat)
    requires AllOk(es) && i < n <= |es|
    ensures AllOk(es[..n]) && Done(s, es[..n], i) == Done(s, es, i)
  {
    hide Run, Cycle, EnvOk;
    assert es[..n][..i] == es[..i] && es[..n][i] == es[i];
  }

  lemma RunStep(s: Session, es: seq<Env>)
    requires AllOk(es) && es != []
    ensures var n := |es| - 1;
            && AllOk(es[..n]) && EnvOk(es[n])
            && Run(s, es).0 == Cycle(Run(s, es[..n]).0, es[n]).0
            && Done(s, es, n) == Cycle(Run(s, es[..n]).0, es[n]).1
  {
    hide Cycle, EnvOk;
    assert EnvOk(es[|es| - 1]);
  }

  /** The two deadlines are exactly what was heard and said, over every run. */
  lemma {:induction false} DeadlinesTell(s: Session, es: seq<Env>, now: nat)
    requires AllOk(es) && s.keepAlive > 0 && ClockRuns(es) && (es != [] ==> Fresh(s, es[0].now))
    ensures Run(s, es).0.keepAlive == s.keepAlive
    ensures Run(s, es).0.lastReceived <= now <==> Unheard(s, es, now)
    ensures Run(s, es).0.lastSent <= now <==> Unsaid(s, es, now)
    decreases |es|
  {
    hide Run, Cycle, EnvOk, Says, Done;
    if es == [] {
      NoCycles(s);
    } else {
      var n := |es| - 1;
      var e := es[n];
      RunStep(s, es);
      var before := es[..n];
      assert ClockRuns(before);
      DeadlinesTell(s, before, now);
      CycleDeadlines(Run(s, before).0, e);
      assert es[0].now <= e.now;
      forall i | 0 <= i < n
        ensures before[i] == es[i] && es[i].now <= e.now && Done(s, before, i) == Done(s, es, i)
      {
        DoneBefore(s, es, n, i);
      }
      UnheardStep(s, es, now);
      UnsaidStep(s, es, now);
    }
  }

  lemma NoCycles(s: Session)
    ensures AllOk([]) && Run(s, []) == (s, [])
  {
  }

  lemma UnheardStep(s: Session, es: seq<Env>, now: nat)
    requires es != [] && ClockRuns(es) && Fresh(s, es[0].now)
    ensures var n := |es| - 1;
            Unheard(s, es, now) <==> if es[n].whole then es[n].now + 1000 * s.keepAlive <= now else Unheard(s, es[..n], now)
  {
    var n := |es| - 1;
    forall i | 0 <= i < n
      ensures es[..n][i] == es[i] && es[i].now <= es[n].now
    {
    }
    assert es[0].now <= es[n].now;
  }

  lemma UnsaidStep(s: Session, es: seq<Env>, now: nat)
    requires AllOk(es) && es != [] && ClockRuns(es) && Fresh(s, es[0].now)
    ensures var n := |es| - 1;
            && AllOk(es[..n])
            && (Unsaid(s, es, now) <==>
                  if Says(Done(s, es, n)) then es[n].now + 1000 * s.keepAlive <= now else Unsaid(s, es[..n], now))
  {
    hide Says, Done, EnvOk;
    var n := |es| - 1;
    forall i | 0 <= i < n
      ensures es[..n][i] == es[i] && es[i].now <= es[n].now && Done(s, es[..n], i) == Done(s, es, i)
    {
      DoneBefore(s, es, n, i);
    }
    assert es[0].now <= es[n].now;
  }

  /** After any run: a cycle pings exactly if keep-alive is on, it read nothing, for a whole interval
      nothing was received and nothing was sent, no ping is outstanding, and the send succeeds. */
  lemma PingsExactlyIf(s: Session, es: seq<Env>, e: Env)
    requires AllOk(es) && EnvOk(e) && ClockRuns(es + [e]) && Fresh(s, (es + [e])[0].now)
    ensures Pings(Cycle(Run(s, es).0, e).1) <==>
              && s.keepAlive > 0 && !e.whole && e.rc == 0
              && Unheard(s, es, e.now) && Unsaid(s, es, e.now)
              && !Run(s, es).0.pingOutstanding && e.pingOk
  {
    hide Run, Cycle, EnvOk, Pings, Unheard, Unsaid;
    if s.keepAlive > 0 {
      forall i | 0 <= i < |es|
        ensures (es + [e])[i] == es[i]
      {
      }
      assert ClockRuns(es);
      DeadlinesTell(s, es, e.now);
      CycleDeadlines(Run(s, es).0, e);
    } else {
      NeverPings(s, es);
      QuietWithoutKeepAlive(Run(s, es).0, e);
    }
  }

  lemma {:induction false} NeverPings(s: Session, es: seq<Env>)
    requires AllOk(es) && s.keepAlive == 0
    ensures Run(s, es).0.keepAlive == 0
    decreases |es|
  {
    hide Cycle, EnvOk;
    if es == [] {
    } else {
      RunStep(s, es);
      NeverPings(s, es[..|es| - 1]);
      QuietWithoutKeepAlive(Run(s, es[..|es| - 1]).0, es[|es| - 1]);
    }
  }

  lemma QuietWithoutKeepAlive(s: Session, e: Env)
    requires EnvOk(e) && s.keepAlive == 0
    ensures !Pings(Cycle(s, e).1) && Cycle(s, e).0.keepAlive == 0
  {
    hide Framed, SwitchEvents, Switch, AfterSwitch, KeepAlive, Finish, Says, Pings;
    SwitchSays(e);
    SwitchDeadlines(s, e);
    var s1, w := AfterSwitch(s, e), Switch(e);
    PingSays(s1, e);
    var (s2, e2, krc) := if w.goesOn then KeepAlive(s1, e) else (s1, [], 0);
    SaysNothing();
    FinishSays(s2, if krc != 0 then krc else w.rc);
    SaysAppend(SwitchEvents(e) + e2, Finish(s2, if krc != 0 then krc else w.rc).1);
    SaysAppend(SwitchEvents(e), e2);
  }

  // ---------- When the connection is given up ----------

  /** Packets a server may send a client. */
  predicate Expected(w: Wire) {
    match w
    case Message(m) => m.qos <= 2
    case Acknowledge(_, _) => true
    case Other(p) => Type(p) in {2, 4, 7, 9, 11, 13}
  }

  lemma SwitchOnWire(e: Env, w: Wire)
    requires EnvOk(e) && WireOk(w) && Delivers(e, w) && e.rc > 0
    ensures Switch(e).goesOn && Switch(e).rc == 0 <==> Expected(w) && (Owed(w) == None || e.sendOk)
    ensures !(Switch(e).goesOn && Switch(e).rc == 0) ==> Switch(e).rc != 0
  {
    hide Image, Framed, P.Parse, P.ParseAck, AckBytes, Header, P.Body, BodyStart;
    var n := |Image(WirePacket(w))|;
    assert e.buf == Image(WirePacket(w)) + e.buf[n..];
    match w
    case Message(m) => P.RoundTrip(m, e.buf[n..]);
    case Acknowledge(type_, id) => P.AckRoundTrip(type_, 0, id, e.buf[n..]);
    case Other(_) =>
  }

  /** A cycle that reads a packet keeps the connection, and returns its type, exactly if a server may
      send such a packet and the reply it is owed can be sent; otherwise the connection is closed. */
  lemma StaysUpExactlyIf(s: Session, e: Env, w: Wire)
    requires EnvOk(e) && WireOk(w) && Delivers(e, w) && e.rc > 0 && s.isconnected
    ensures Cycle(s, e).0.isconnected <==> Expected(w) && (Owed(w) == None || e.sendOk)
    ensures Cycle(s, e).0.isconnected ==> Cycle(s, e).2 == e.rc
  {
    hide Framed, SwitchEvents, Switch, Delivers, WireOk, Expected, Owed;
    SwitchOnWire(e, w);
    var r := Received(s, e);
    SwitchDeadlines(r, e);
    assert AfterSwitch(r, e).isconnected;
  }

  /** One that reads nothing keeps it exactly if no ping is due, or one can be sent and none is
      outstanding; a read error closes it. */
  lemma SilenceExactlyIf(s: Session, e: Env)
    requires EnvOk(e) && !e.whole && s.isconnected
    ensures Cycle(s, e).0.isconnected <==>
              && e.rc == 0
              && (s.keepAlive > 0 && s.lastSent <= e.now && s.lastReceived <= e.now ==> !s.pingOutstanding && e.pingOk)
    ensures Cycle(s, e).0.isconnected ==> Cycle(s, e).2 == 0
  {
    hide SwitchEvents;
  }

  /** A PUBLISH that cannot be read costs nothing: no reply, no message, the connection stays. */
  lemma UnreadablePublish(s: Session, e: Env)
    requires EnvOk(e) && e.rc == PUBLISH && P.Parse(e.buf) == None && BodyStart(e.buf) != 2
    ensures Switch(e).message == None && Cycle(s, e).0.isconnected == s.isconnected
    ensures Cycle(s, e).1 == [Got(e.buf)] && Cycle(s, e).2 == PUBLISH
  {
    hide Framed, P.Parse;
  }

  /** A PUBREC or PUBREL that cannot be read closes the connection without a reply. */
  lemma UnreadableRelease(s: Session, e: Env)
    requires EnvOk(e) && e.rc in {PUBREC, PUBREL} && P.ParseAck(e.buf).id == None && BodyStart(e.buf) != 2
    ensures !Cycle(s, e).0.isconnected && Cycle(s, e).2 == -1
    ensures Cycle(s, e).1 == [Got(e.buf)] + if s.isconnected then [CycleFailed, Closed] else [CycleFailed]
  {
    hide Framed, P.ParseAck;
  }
}
