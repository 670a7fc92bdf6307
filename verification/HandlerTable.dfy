/** The client's five message handlers: a small array that behaves as a map from topic
    filters, and the delivery of a message to all handlers it matches. */
module HandlerTable {
  import opened Bytes
  import opened TopicMatch
  import P = MqttPublish

  const MAX_MESSAGE_HANDLERS: nat := 5

  type Handler = nat  // a callback of the application

  /** One call of a handler, with the message it is given. */
  datatype Delivery = Delivery(fp: Handler, message: P.Received)

  datatype Slot = Slot(filter: Option<seq<Byte>>, fp: Option<Handler>)

  predicate Uses(s: Slot, filter: seq<Byte>) {
    s.filter == Some(filter)
  }

  /** No two slots hold the same filter. */
  predicate Distinct(slots: seq<Slot>) {
    forall i, j :: 0 <= i < j < |slots| && slots[i].filter.Some? ==> slots[i].filter != slots[j].filter
  }

  /** The table as a map. */
  function Table(slots: seq<Slot>): map<seq<Byte>, Option<Handler>> {
    if slots == [] then map[]
    else
      var s := slots[|slots| - 1];
      var m := Table(slots[..|slots| - 1]);
      if s.filter.Some? then m[s.filter.value := s.fp] else m
  }

  lemma {:induction false} TableKeys(slots: seq<Slot>, filter: seq<Byte>)
    ensures filter in Table(slots) <==> exists i :: 0 <= i < |slots| && Uses(slots[i], filter)
    decreases |slots|
  {
    if slots != [] {
      var n := |slots| - 1;
      TableKeys(slots[..n], filter);
      if exists i :: 0 <= i < |slots| && Uses(slots[i], filter) {
        var i :| 0 <= i < |slots| && Uses(slots[i], filter);
        assert i == n || Uses(slots[..n][i], filter);
      }
      if exists i :: 0 <= i < n && Uses(slots[..n][i], filter) {
        var i :| 0 <= i < n && Uses(slots[..n][i], filter);
        assert Uses(slots[i], filter);
      }
    }
  }

  lemma DistinctInit(slots: seq<Slot>)
    requires Distinct(slots) && slots != []
    ensures Distinct(slots[..|slots| - 1])
  {
    var a := slots[..|slots| - 1];
    forall i, j | 0 <= i < j < |a| && a[i].filter.Some?
      ensures a[i].filter != a[j].filter
    {
      assert a[i] == slots[i] && a[j] == slots[j];
    }
  }

  /** Changing the one slot that holds the filter, or an empty slot, is one map update. */
  lemma {:induction false} TableSet(slots: seq<Slot>, i: nat, filter: seq<Byte>, fp: Option<Handler>)
    requires Distinct(slots) && i < |slots|
    requires slots[i].filter == None || Uses(slots[i], filter)
    requires forall j :: 0 <= j < |slots| && j != i ==> !Uses(slots[j], filter)
    ensures Distinct(slots[i := Slot(Some(filter), fp)])
    ensures Table(slots[i := Slot(Some(filter), fp)]) == Table(slots)[filter := fp]
    decreases |slots|
  {
    var n := |slots| - 1;
    var u := slots[i := Slot(Some(filter), fp)];
    forall a, b | 0 <= a < b < |u| && u[a].filter.Some?
      ensures u[a].filter != u[b].filter
    {
      assert !Uses(slots[a], filter) || a == i;
      assert !Uses(slots[b], filter) || b == i;
    }
    DistinctInit(slots);
    if i == n {
      assert u[..n] == slots[..n];
      TableKeys(slots[..n], filter);
      forall j | 0 <= j < n
        ensures !Uses(slots[..n][j], filter)
      {
        assert !Uses(slots[j], filter);
      }
    } else {
      assert u[..n] == slots[..n][i := Slot(Some(filter), fp)];
      forall j | 0 <= j < n && j != i
        ensures !Uses(slots[..n][j], filter)
      {
        assert !Uses(slots[j], filter);
      }
      TableSet(slots[..n], i, filter, fp);
      assert !Uses(slots[n], filter);
    }
  }

  /** Emptying the slot that holds a filter removes it and nothing else. */
  lemma {:induction false} TableClear(slots: seq<Slot>, i: nat, filter: seq<Byte>)
    requires Distinct(slots) && i < |slots| && Uses(slots[i], filter)
    ensures Distinct(slots[i := Slot(None, None)])
    ensures Table(slots[i := Slot(None, None)]) == Table(slots) - {filter}
    decreases |slots|
  {
    var n := |slots| - 1;
    var u := slots[i := Slot(None, None)];
    DistinctInit(slots);
    if i == n {
      assert u[..n] == slots[..n];
      TableKeys(slots[..n], filter);
      forall j | 0 <= j < n
        ensures !Uses(slots[..n][j], filter)
      {
        assert slots[..n][j] == slots[j];
      }
      assert filter !in Table(slots[..n]);
    } else {
      assert u[..n] == slots[..n][i := Slot(None, None)];
      assert Uses(slots[..n][i], filter);
      TableClear(slots[..n], i, filter);
      assert !Uses(slots[n], filter);
    }
  }

  /** The map has one key per used slot, so a slot is free exactly while it has fewer than |slots|. */
  lemma {:induction false} TableSize(slots: seq<Slot>)
    requires Distinct(slots)
    ensures |Table(slots)| <= |slots|
    ensures |Table(slots)| < |slots| <==> exists i :: 0 <= i < |slots| && slots[i].filter == None
    decreases |slots|
  {
    if slots != [] {
      var n := |slots| - 1;
      var front := slots[..n];
      DistinctInit(slots);
      TableSize(front);
      if slots[n].filter.Some? {
        var key := slots[n].filter.value;
        TableKeys(front, key);
        forall i | 0 <= i < n
          ensures !Uses(front[i], key)
        {
          assert slots[i] == front[i];
        }
        assert key !in Table(front);
      }
      forall i | 0 <= i < n
        ensures front[i].filter == None <==> slots[i].filter == None
      {
      }
    }
  }

  /** After a clean session: no filter is left. */
  function Cleaned(slots: seq<Slot>): (r: seq<Slot>)
    ensures |r| == |slots| && forall i :: 0 <= i < |r| ==> r[i] == Slot(None, slots[i].fp)
  {
    seq(|slots|, i requires 0 <= i < |slots| => Slot(None, slots[i].fp))
  }

  // ---------- Delivery ----------

  predicate Selects(s: Slot, topic: seq<Byte>) {
    s.filter.Some? && s.fp.Some? && (topic == s.filter.value || CharMatch(s.filter.value, topic))
  }

  /** The handlers a message goes to, in slot order. */
  function Selected(slots: seq<Slot>, topic: seq<Byte>): seq<Handler> {
    if slots == [] then []
    else
      var s := slots[|slots| - 1];
      Selected(slots[..|slots| - 1], topic) + if Selects(s, topic) then [s.fp.value] else []
  }

  /** The message given to each of the handlers. */
  function Deliveries(fps: seq<Handler>, m: P.Received): (r: seq<Delivery>)
    ensures |r| == |fps| && forall i :: 0 <= i < |r| ==> r[i] == Delivery(fps[i], m)
  {
    seq(|fps|, i requires 0 <= i < |fps| => Delivery(fps[i], m))
  }

  /** All calls a message causes: the default handler only if no slot selects it. */
  function CallsFor(slots: seq<Slot>, default_: Option<Handler>, m: P.Received): seq<Delivery> {
    var s := Selected(slots, m.topic);
    Deliveries(if s != [] then s else if default_.Some? then [default_.value] else [], m)
  }

  /** Increasing indices, exactly those of the slots the topic selects. */
  predicate SelectedAt(slots: seq<Slot>, topic: seq<Byte>, at: seq<nat>) {
    && (forall k, l :: 0 <= k < l < |at| ==> at[k] < at[l])
    && (forall k :: 0 <= k < |at| ==> at[k] < |slots| && Selects(slots[at[k]], topic))
    && (forall i :: 0 <= i < |slots| && Selects(slots[i], topic) ==> i in at)
  }

  /** Every selecting slot is served exactly once, in slot order, also if slots share a handler. */
  lemma {:induction false} SelectedOnce(slots: seq<Slot>, topic: seq<Byte>) returns (at: seq<nat>)
    ensures SelectedAt(slots, topic, at) && |Selected(slots, topic)| == |at|
    ensures forall k :: 0 <= k < |at| ==> Selected(slots, topic)[k] == slots[at[k]].fp.value
    decreases |slots|
  {
    hide Selects;
    SelectsHasHandler(slots, topic);
    at := [];
    if slots != [] {
      var n := |slots| - 1;
      at := SelectedOnce(slots[..n], topic);
      ghost var before := at;
      if Selects(slots[n], topic) {
        at := at + [n];
        assert at[|before|] == n;
      }
      forall i | 0 <= i < |slots| && Selects(slots[i], topic)
        ensures i in at
      {
        if i < n {
          assert slots[..n][i] == slots[i];
          assert i in before;
        }
      }
    }
  }

  lemma SelectsHasHandler(slots: seq<Slot>, topic: seq<Byte>)
    ensures forall i :: 0 <= i < |slots| && Selects(slots[i], topic) ==> slots[i].fp.Some?
  {
  }

  // ---------- Delivery, told by topic levels ----------

  predicate FiltersWellFormed(slots: seq<Slot>) {
    forall i :: 0 <= i < |slots| && slots[i].filter.Some? ==> WellFormed(Levels(slots[i].filter.value))
  }

  /** The topic is the filter, or matches it level by level. */
  predicate Covers(filter: seq<Byte>, topic: seq<Byte>) {
    topic == filter || Matches(Levels(filter), Levels(topic))
  }

  /** A slot with a handler, whose filter covers the topic. */
  predicate Wants(s: Slot, topic: seq<Byte>) {
    s.filter.Some? && s.fp.Some? && Covers(s.filter.value, topic)
  }

  /** Exactly these are selected. */
  lemma SelectsByLevels(s: Slot, topic: seq<Byte>)
    requires s.filter.Some? ==> WellFormed(Levels(s.filter.value))
    ensures Selects(s, topic) <==> Wants(s, topic)
    ensures Wants(s, topic) ==> s.fp.Some?
  {
    hide CharMatch, Matches, Levels, WellFormed;
    if s.filter.Some? {
      WalkIsLevelwise(s.filter.value, topic);
    }
  }

  /** Increasing indices, exactly those of the slots with a handler whose filter covers the topic. */
  predicate ServedAt(slots: seq<Slot>, topic: seq<Byte>, at: seq<nat>) {
    && (forall k, l :: 0 <= k < l < |at| ==> at[k] < at[l])
    && (forall k :: 0 <= k < |at| ==> at[k] < |slots| && Wants(slots[at[k]], topic))
    && (forall i :: 0 <= i < |slots| && Wants(slots[i], topic) ==> i in at)
  }

  /** These slots' handlers in order, or the default one alone. */
  predicate Served(slots: seq<Slot>, default_: Option<Handler>, m: P.Received, at: seq<nat>, made: seq<Delivery>) {
    && ServedAt(slots, m.topic, at)
    && (at != [] ==> |made| == |at| && forall k :: 0 <= k < |at| ==> made[k] == Delivery(slots[at[k]].fp.value, m))
    && (at == [] ==> made == if default_.Some? then [Delivery(default_.value, m)] else [])
  }

  /** The calls a message causes, in slot order: every handler whose filter covers the topic, level by
      level, once; if there is none, the default handler alone. */
  lemma DeliveredByLevels(slots: seq<Slot>, default_: Option<Handler>, m: P.Received) returns (at: seq<nat>)
    requires FiltersWellFormed(slots)
    ensures Served(slots, default_, m, at, CallsFor(slots, default_, m))
  {
    hide Wants, Selects, Levels, WellFormed, Selected, Covers, CharMatch, CallsFor;
    at := SelectedOnce(slots, m.topic);
    forall i | 0 <= i < |slots|
      ensures Selects(slots[i], m.topic) <==> Wants(slots[i], m.topic)
      ensures Wants(slots[i], m.topic) ==> slots[i].fp.Some?
    {
      SelectsByLevels(slots[i], m.topic);
    }
    CallsAre(slots, default_, m);
  }

  // ---------- The table in place ----------

  class Handlers {
    const slots: array<Slot>
    var defaultHandler: Option<Handler>
    var calls: seq<Delivery>  // handler calls made so far, oldest first

    ghost predicate Valid()
      reads this, slots
    {
      slots.Length == MAX_MESSAGE_HANDLERS && Distinct(slots[..])
    }

    ghost function Map(): map<seq<Byte>, Option<Handler>>
      reads this, slots
    {
      Table(slots[..])
    }

    constructor ()
      ensures Valid() && Map() == map[] && fresh(slots) && defaultHandler == None && calls == []
    {
      slots := new Slot[MAX_MESSAGE_HANDLERS](_ => Slot(None, None));
      defaultHandler, calls := None, [];
      new;
      AllEmpty(slots[..]);
    }

    method Clean()
      requires slots.Length == MAX_MESSAGE_HANDLERS
      modifies slots
      ensures Valid() && Map() == map[] && slots[..] == Cleaned(old(slots[..]))
    {
      var i := 0;
      while i < MAX_MESSAGE_HANDLERS
        invariant 0 <= i <= MAX_MESSAGE_HANDLERS
        invariant forall j :: 0 <= j < i ==> slots[j] == Slot(None, old(slots[j].fp))
        invariant forall j :: i <= j < MAX_MESSAGE_HANDLERS ==> slots[j] == old(slots[j])
      {
        slots[i] := slots[i].(filter := None);
        i := i + 1;
      }
      AllEmpty(slots[..]);
    }

    /** The first slot that holds the filter, or the number of slots. */
    method Find(filter: seq<Byte>) returns (i: nat)
      requires Valid()
      ensures i <= MAX_MESSAGE_HANDLERS
      ensures i < MAX_MESSAGE_HANDLERS ==> Uses(slots[i], filter)
      ensures forall j :: 0 <= j < MAX_MESSAGE_HANDLERS && j != i ==> !Uses(slots[j], filter)
      ensures i < MAX_MESSAGE_HANDLERS <==> filter in Map()
    {
      i := 0;
      while i < MAX_MESSAGE_HANDLERS
        invariant 0 <= i <= MAX_MESSAGE_HANDLERS
        invariant forall j :: 0 <= j < i ==> !Uses(slots[j], filter)
      {
        if slots[i].filter == Some(filter) {
          break;
        }
        i := i + 1;
      }
      TableKeys(slots[..], filter);
      if i < MAX_MESSAGE_HANDLERS {
        assert Uses(slots[..][i], filter);
        forall j | i < j < MAX_MESSAGE_HANDLERS
          ensures !Uses(slots[j], filter)
        {
          assert slots[..][i].filter != slots[..][j].filter;
        }
      }
    }

    /** Adds, replaces or (with no handler) removes: success exactly when the filter is there, or a
        handler is given and a slot is free; afterwards the map differs at this key only. */
    method Set(filter: seq<Byte>, handler: Option<Handler>) returns (rc: int)
      requires Valid()
      modifies slots
      ensures Valid()
      ensures rc == 0 || rc == -13
      ensures rc == 0 <==>
                || filter in old(Map())
                || (handler.Some? && |old(Map())| < 5)
      ensures Map() == if rc != 0 then old(Map())
                       else if handler.Some? then old(Map())[filter := handler]
                       else old(Map()) - {filter}
    {
      hide Distinct, Table;
      rc := -13;
      ghost var was := slots[..];
      TableSize(was);
      var i := Find(filter);
      if i < MAX_MESSAGE_HANDLERS {
        if handler == None {
          TableClear(was, i, filter);
          slots[i] := Slot(None, None);
          assert slots[..] == was[i := Slot(None, None)];
        }
        rc := 0;
      }
      if handler != None {
        if rc == -13 {
          i := 0;
          while i < MAX_MESSAGE_HANDLERS
            invariant 0 <= i <= MAX_MESSAGE_HANDLERS
            invariant forall j :: 0 <= j < i ==> slots[j].filter != None
            invariant rc == -13
          {
            if slots[i].filter == None {
              assert was[i].filter == None;
              rc := 0;
              break;
            }
            i := i + 1;
          }
        }
        if i < MAX_MESSAGE_HANDLERS {
          assert forall j :: 0 <= j < |was| && j != i ==> !Uses(was[j], filter);
          TableSet(was, i, filter, handler);
          slots[i] := Slot(Some(filter), handler);
          assert slots[..] == was[i := Slot(Some(filter), handler)];
        }
      }
    }

    /** Calls each selected handler once, in slot order, and the default one only if none was. */
    method Deliver(m: P.Received) returns (rc: int)
      requires Valid()
      modifies this`calls
      ensures calls == old(calls) + CallsFor(slots[..], defaultHandler, m)
      ensures FiltersWellFormed(slots[..]) ==>
                exists at :: Served(slots[..], defaultHandler, m, at, calls[|old(calls)|..])
      ensures rc == if CallsFor(slots[..], defaultHandler, m) != [] then 0 else -1
    {
      hide Distinct, Served, FiltersWellFormed, CharMatch, Selected, CallsFor, Selects;
      rc := -1;
      var i := 0;
      ghost var was := calls;
      ghost var table := slots[..];
      if FiltersWellFormed(table) {
        ghost var at := DeliveredByLevels(table, defaultHandler, m);
      }
      NoneSelected(table, m.topic);
      assert calls + Deliveries([], m) == calls;
      while i < MAX_MESSAGE_HANDLERS
        invariant 0 <= i <= MAX_MESSAGE_HANDLERS
        invariant calls == was + Deliveries(Selected(table[..i], m.topic), m)
        invariant rc == if Selected(table[..i], m.topic) != [] then 0 else -1
      {
        SelectedStep(table, i, m.topic);
        if slots[i].filter != None {
          var matched := m.topic == slots[i].filter.value;
          if !matched {
            matched := Walk(slots[i].filter.value, m.topic);
          }
          if matched && slots[i].fp != None {
            OneMore(Selected(table[..i], m.topic), slots[i].fp.value, m);
            calls := calls + [Delivery(slots[i].fp.value, m)];
            rc := 0;
          }
        }
        i := i + 1;
      }
      assert table[..i] == table;
      CallsAre(table, defaultHandler, m);
      if rc == -1 && defaultHandler != None {
        calls := calls + [Delivery(defaultHandler.value, m)];
        rc := 0;
      }
      assert calls[|was|..] == CallsFor(table, defaultHandler, m);
    }
  }

  lemma NoneSelected(slots: seq<Slot>, topic: seq<Byte>)
    ensures Selected(slots[..0], topic) == []
  {
  }

  lemma SelectedStep(slots: seq<Slot>, i: nat, topic: seq<Byte>)
    requires i < |slots|
    ensures var s := slots[i];
            Selected(slots[..i + 1], topic)
            == if s.filter.Some? && s.fp.Some? && (topic == s.filter.value || CharMatch(s.filter.value, topic))
               then Selected(slots[..i], topic) + [s.fp.value] else Selected(slots[..i], topic)
  {
    assert slots[..i + 1][..i] == slots[..i];
  }

  lemma CallsAre(slots: seq<Slot>, default_: Option<Handler>, m: P.Received)
    ensures var s := Selected(slots, m.topic);
            CallsFor(slots, default_, m)
            == if s != [] then Deliveries(s, m) else if default_.Some? then [Delivery(default_.value, m)] else []
  {
    hide Selected;
  }

  lemma OneMore(fps: seq<Handler>, fp: Handler, m: P.Received)
    ensures Deliveries(fps + [fp], m) == Deliveries(fps, m) + [Delivery(fp, m)]
  {
  }

  lemma {:induction false} AllEmpty(slots: seq<Slot>)
    requires forall i :: 0 <= i < |slots| ==> slots[i].filter == None
    ensures Distinct(slots) && Table(slots) == map[]
    decreases |slots|
  {
    if slots != [] {
      AllEmpty(slots[..|slots| - 1]);
    }
  }
}
