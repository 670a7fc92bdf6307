/** Downloading a resource: what each step does to the transfer record, and what a run
    of any length guarantees to the user.

    The network and the user's callbacks are inputs: a cycle says what the HTTP layer and
    the data callback would do if they are asked, a request says what was decoded. */
module TransferSpec {
  import opened Bytes
  import opened Md5Spec

  type Obj = nat  // a resource of the user's list

  type Md5Value = m: seq<bv8> | |m| == 16 witness Zeros(16)

  /** The record of the current transfer; `cid` 0 means none.  `absorbed` is what the MD5
      context has taken in since it was initialized, which happens on connection. */
  datatype Rsc = Rsc(cid: int, obj: Option<Obj>, size: nat, md5: Md5Value,
                     offset: nat, connected: bool, absorbed: seq<bv8>)

  /** One call of the user's callback for data, and the bytes the HTTP layer has for it;
      none stands for an answer of zero or an error. */
  datatype Read = Read(obj: Obj, data: seq<bv8>)

  /** What the surroundings do during one cycle. */
  datatype Cycle = Cycle(hasDataCb: bool, hasNtfy: bool, startRc: int, fetches: seq<Read>, cbRc: int)

  /** What the decoder found in a message.  `refusal` is the code of an early return after the
      record was written, 0 if there was none; `answer` is the user's, 0 to accept. */
  datatype Request =
    | Unreadable(code: nat)
    | Decoded(cid: int, obj: Option<Obj>, size: nat, md5: Md5Value, refusal: nat, hasNtfy: bool, answer: nat)

  datatype Event =
    | Begin(cid: int, obj: Obj, size: nat, md5: Md5Value)
    | Data(obj: Obj, bytes: seq<bv8>)
    | Complete(status: nat, cid: int, obj: Obj)
    | End

  const NOT_AUTHORIZED: nat := 4

  const IDLE := Rsc(0, None, 0, Zeros(16), 0, false, [])

  predicate Active(st: Rsc) {
    st.cid != 0 && st.obj.Some?
  }

  // ---------- Steps ----------

  function GetResources(st: Rsc, r: Read): (Rsc, seq<Event>) {
    if st.cid != 0 && st.obj == Some(r.obj) && r.data != [] then
      (st.(absorbed := st.absorbed + r.data, offset := (st.offset + |r.data|) % 0x1_0000_0000),
       [Data(r.obj, r.data)])
    else (st, [])
  }

  /** Everything the data callback asks for, in order. */
  function Fetch(st: Rsc, fetches: seq<Read>): (Rsc, seq<Event>)
    decreases |fetches|
  {
    if fetches == [] then (st, [])
    else
      var (st', e) := Fetch(st, fetches[..|fetches| - 1]);
      var (st'', e') := GetResources(st', fetches[|fetches| - 1]);
      (st'', e + e')
  }

  /** Any negative outcome, and every completion, forgets the transfer. */
  function Forget(st: Rsc): Rsc {
    st.(cid := 0, obj := None, connected := false, absorbed := [])
  }

  function Process(st: Rsc, c: Cycle): (Rsc, seq<Event>) {
    if !Active(st) || !c.hasDataCb then (st, [])
    else if !st.connected then
      if c.startRc == 0 then (st.(connected := true, absorbed := if st.offset == 0 then [] else st.absorbed), [])
      else if c.startRc < 0 then (Forget(st), [End])
      else (st, [])
    else
      var (st', e) := Fetch(st, c.fetches);
      if st'.offset == st'.size then
        var status := if Digest(st'.absorbed) == st'.md5 then 1 else 2;
        (Forget(st'), e + (if c.hasNtfy then [Complete(status, st'.cid, st.obj.value)] else []) + [End])
      else if c.cbRc <= 0 then (Forget(st'), e + [End])
      else (st', e)
  }

  function Handle(st: Rsc, r: Request): (Rsc, seq<Event>, nat) {
    match r
    case Unreadable(code) => (st, [], code)
    case Decoded(cid, obj, size, md5, refusal, hasNtfy, answer) =>
      if st.cid != 0 then (st, [], NOT_AUTHORIZED)
      else
        var st' := Rsc(cid, obj, size, md5, 0, false, []);
        var begin := if Active(st') then [Begin(cid, obj.value, size, md5)] else [];
        if refusal != 0 then (st', begin, refusal)
        else if hasNtfy && answer != 0 then (st'.(cid := 0, obj := None), [], answer)
        else (st', begin, 0)
  }

  datatype Action = Work(c: Cycle) | Message(r: Request)

  function Act(st: Rsc, a: Action): (Rsc, seq<Event>) {
    match a
    case Work(c) => Process(st, c)
    case Message(r) => (Handle(st, r).0, Handle(st, r).1)
  }

  /** Any run from the idle state: the final record, and all events in order. */
  function Run(actions: seq<Action>): (Rsc, seq<Event>)
    decreases |actions|
  {
    if actions == [] then (IDLE, [])
    else
      var n := |actions| - 1;
      var (st, trace) := Run(actions[..n]);
      var (st', e) := Act(st, actions[n]);
      (st', trace + e)
  }

  // ---------- What a trace promises ----------

  /** A transfer as the user sees it: what was announced, and all bytes handed over so far. */
  datatype Transfer = Transfer(cid: int, obj: Obj, size: nat, md5: Md5Value, bytes: seq<bv8>)

  function Observe(t: Option<Transfer>, e: Event): Option<Transfer> {
    match e
    case Begin(cid, obj, size, md5) => Some(Transfer(cid, obj, size, md5, []))
    case Data(_, bytes) => if t.Some? then Some(t.value.(bytes := t.value.bytes + bytes)) else None
    case Complete(_, _, _) => None
    case End => None
  }

  function Current(trace: seq<Event>): Option<Transfer>
    decreases |trace|
  {
    if trace == [] then None else Observe(Current(trace[..|trace| - 1]), trace[|trace| - 1])
  }

  predicate Allowed(t: Option<Transfer>, e: Event) {
    match e
    case Begin(cid, _, _, _) => t == None && cid != 0
    case Data(obj, _) => t.Some? && t.value.obj == obj
    case Complete(status, cid, obj) =>
      && t.Some? && t.value.cid == cid && t.value.obj == obj
      && |t.value.bytes| % 0x1_0000_0000 == t.value.size
      && (status == 1 <==> Digest(t.value.bytes) == t.value.md5)
    case End => true
  }

  /** A transfer never starts while another runs, bytes belong to the running transfer, it is
      completed at most once, only at its announced length, and with success exactly when the
      digest of all its bytes is the announced one. */
  predicate Honest(trace: seq<Event>)
    decreases |trace|
  {
    trace == []
    || (Honest(trace[..|trace| - 1]) && Allowed(Current(trace[..|trace| - 1]), trace[|trace| - 1]))
  }

  /** The record agrees with what the user has seen. */
  predicate Agrees(st: Rsc, t: Option<Transfer>) {
    if Active(st) then
      && t.Some?
      && t.value.cid == st.cid && Some(t.value.obj) == st.obj
      && t.value.size == st.size && t.value.md5 == st.md5
      && st.offset == |t.value.bytes| % 0x1_0000_0000
      && st.absorbed == t.value.bytes
      && (!st.connected ==> t.value.bytes == [])
    else t == None && !st.connected
  }

  lemma Extend(trace: seq<Event>, e: Event)
    requires Honest(trace) && Allowed(Current(trace), e)
    ensures Honest(trace + [e]) && Current(trace + [e]) == Observe(Current(trace), e)
  {
    assert (trace + [e])[..|trace|] == trace;
  }

  lemma OffsetAdvances(n: nat, k: nat)
    ensures (n % 0x1_0000_0000 + k) % 0x1_0000_0000 == (n + k) % 0x1_0000_0000
  {
  }

  lemma GetAgrees(st: Rsc, r: Read, trace: seq<Event>)
    requires Honest(trace) && Active(st) && st.connected && Agrees(st, Current(trace))
    ensures var (st', e) := GetResources(st, r);
            && Honest(trace + e) && Agrees(st', Current(trace + e))
            && st'.connected && st'.cid == st.cid && st'.obj == st.obj
  {
    hide Digest, Honest, Current;
    var (st', e) := GetResources(st, r);
    if e == [] {
      assert trace + e == trace;
    } else {
      Extend(trace, Data(r.obj, r.data));
      OffsetAdvances(|st.absorbed|, |r.data|);
    }
  }

  lemma {:induction false} FetchHonest(st: Rsc, fetches: seq<Read>, trace: seq<Event>)
    requires Honest(trace) && Active(st) && st.connected && Agrees(st, Current(trace))
    ensures var (st', e) := Fetch(st, fetches);
            && Honest(trace + e) && Agrees(st', Current(trace + e))
            && st'.connected && st'.cid == st.cid && st'.obj == st.obj
    decreases |fetches|
  {
    hide Digest, Honest, Current, GetResources, Agrees;
    if fetches == [] {
      assert trace + [] == trace;
    } else {
      var r := fetches[|fetches| - 1];
      var (st1, e1) := Fetch(st, fetches[..|fetches| - 1]);
      FetchHonest(st, fetches[..|fetches| - 1], trace);
      GetAgrees(st1, r, trace + e1);
      assert trace + (e1 + GetResources(st1, r).1) == trace + e1 + GetResources(st1, r).1;
    }
  }

  lemma HandleHonest(st: Rsc, r: Request, trace: seq<Event>)
    requires Honest(trace) && Agrees(st, Current(trace))
    ensures Honest(trace + Handle(st, r).1) && Agrees(Handle(st, r).0, Current(trace + Handle(st, r).1))
  {
    hide Digest, Honest, Current;
    var e := Handle(st, r).1;
    if e == [] {
      assert trace + e == trace;
    } else {
      Extend(trace, e[0]);
      assert e == [e[0]];
    }
  }

  /** The end of a transfer, with its notification if there is one. */
  lemma EndHonest(st: Rsc, note: seq<Event>, trace: seq<Event>)
    requires Honest(trace) && Active(st) && Agrees(st, Current(trace))
    requires note == [] || (
               && st.offset == st.size
               && note == [Complete(if Digest(st.absorbed) == st.md5 then 1 else 2, st.cid, st.obj.value)])
    ensures Honest(trace + note + [End]) && Agrees(Forget(st), Current(trace + note + [End]))
  {
    hide Digest, Honest, Current;
    if note == [] {
      assert trace + note == trace;
    } else {
      Extend(trace, note[0]);
    }
    Extend(trace + note, End);
  }

  lemma ProcessHonest(st: Rsc, c: Cycle, trace: seq<Event>)
    requires Honest(trace) && Agrees(st, Current(trace))
    ensures Honest(trace + Process(st, c).1) && Agrees(Process(st, c).0, Current(trace + Process(st, c).1))
  {
    hide Digest, Honest, Current, Fetch;
    var (st', e) := Process(st, c);
    assert trace + [] == trace;
    if Active(st) && c.hasDataCb {
      if !st.connected {
        EndHonest(st, [], trace);
      } else {
        var (st1, e1) := Fetch(st, c.fetches);
        FetchHonest(st, c.fetches, trace);
        EndHonest(st1, [], trace + e1);
        assert trace + e1 + [] + [End] == trace + (e1 + [End]);
        if st1.offset == st1.size && c.hasNtfy {
          var done := Complete(if Digest(st1.absorbed) == st1.md5 then 1 else 2, st1.cid, st1.obj.value);
          EndHonest(st1, [done], trace + e1);
          assert trace + e == trace + e1 + [done] + [End];
        } else if st1.offset == st1.size {
          assert e1 + [] + [End] == e1 + [End];
        }
      }
    }
  }

  /** Safety of every run, whatever the server, the network and the callbacks do. */
  lemma {:induction false} EveryRunIsHonest(actions: seq<Action>)
    ensures Honest(Run(actions).1) && Agrees(Run(actions).0, Current(Run(actions).1))
    decreases |actions|
  {
    if actions != [] {
      var n := |actions| - 1;
      EveryRunIsHonest(actions[..n]);
      var (st, trace) := Run(actions[..n]);
      hide Honest, Agrees, Current, Process, Handle;
      match actions[n]
      case Work(c) => ProcessHonest(st, c, trace);
      case Message(r) => HandleHonest(st, r, trace);
    }
  }

  // ---------- The busy guard ----------

  /** A request that finds the record in use changes nothing; a readable one is refused. */
  lemma BusyIsUntouched(st: Rsc, r: Request)
    requires st.cid != 0
    ensures Handle(st, r).0 == st && Handle(st, r).1 == []
    ensures r.Decoded? ==> Handle(st, r).2 == 4
  {
  }

  /** What a run does that starts from any record. */
  function Continue(st: Rsc, actions: seq<Action>): (Rsc, seq<Event>)
    decreases |actions|
  {
    if actions == [] then (st, [])
    else
      var n := |actions| - 1;
      var (st', trace) := Continue(st, actions[..n]);
      var (st'', e) := Act(st', actions[n]);
      (st'', trace + e)
  }

  lemma {:induction false} ContinueAppend(st: Rsc, a: seq<Action>, b: seq<Action>)
    ensures var (st1, t1) := Continue(st, a);
            var (st2, t2) := Continue(st1, b);
            Continue(st, a + b) == (st2, t1 + t2)
    decreases |b|
  {
    hide Act;
    if b == [] {
      assert a + b == a;
      var t1 := Continue(st, a).1;
      assert t1 + [] == t1;
    } else {
      var n := |b| - 1;
      ContinueAppend(st, a, b[..n]);
      assert (a + b)[..|a + b| - 1] == a + b[..n];
      var (st1, t1) := Continue(st, a);
      var (st2, t2) := Continue(st1, b[..n]);
      var e := Act(st2, b[n]).1;
      assert t1 + t2 + e == t1 + (t2 + e);
    }
  }

  lemma {:induction false} RunContinues(actions: seq<Action>)
    ensures Run(actions) == Continue(IDLE, actions)
    decreases |actions|
  {
    hide Act;
    if actions != [] {
      RunContinues(actions[..|actions| - 1]);
    }
  }

  function Messages(rs: seq<Request>): (r: seq<Action>)
    ensures |r| == |rs| && forall i :: 0 <= i < |rs| ==> r[i] == Message(rs[i])
  {
    seq(|rs|, i requires 0 <= i < |rs| => Message(rs[i]))
  }

  lemma {:induction false} BusyIgnores(st: Rsc, rs: seq<Request>)
    requires st.cid != 0
    ensures Continue(st, Messages(rs)) == (st, [])
    decreases |rs|
  {
    hide Handle;
    if rs != [] {
      var n := |rs| - 1;
      BusyIgnores(st, rs[..n]);
      assert Messages(rs)[..n] == Messages(rs[..n]);
      BusyIsUntouched(st, rs[n]);
      var none: seq<Event> := [];
      assert none + none == none;
    }
  }

  /** Any number of requests slipped into a run while a transfer is recorded change neither what
      happens nor the record at the end. */
  lemma BusyRunIsUntouched(before: seq<Action>, rs: seq<Request>, after: seq<Action>)
    requires Run(before).0.cid != 0
    ensures Run(before + Messages(rs) + after) == Run(before + after)
  {
    hide Run, Continue, Act;
    RunContinues(before);
    RunContinues(before + after);
    RunContinues(before + Messages(rs) + after);
    var st := Run(before).0;
    BusyIgnores(st, rs);
    ContinueAppend(IDLE, before, after);
    ContinueAppend(IDLE, before + Messages(rs), after);
    ContinueAppend(IDLE, before, Messages(rs));
    var t := Run(before).1;
    assert t + [] == t;
  }

  // ---------- Records that block ----------

  /** An id without a resource. */
  predicate Orphan(st: Rsc) {
    st.cid != 0 && st.obj == None
  }

  /** A free record becomes an orphan exactly if the request has an id and names no resource of the
      user, and the user is not asked or accepts -- or is not reached, because the decoder
      turned back after the id was stored. */
  lemma OrphanedExactlyIf(st: Rsc, r: Request)
    requires st.cid == 0
    ensures Orphan(Handle(st, r).0) <==>
              r.Decoded? && r.cid != 0 && r.obj == None && (r.refusal != 0 || !r.hasNtfy || r.answer == 0)
  {
  }

  lemma OrphanStep(st: Rsc, a: Action)
    requires Orphan(st)
    ensures Act(st, a) == (st, [])
  {
  }

  /** An orphan is never freed again: nothing happens in any later cycle and every later request
      is refused. */
  lemma {:induction false} OrphanBlocksForEver(st: Rsc, actions: seq<Action>)
    requires Orphan(st)
    ensures Continue(st, actions) == (st, [])
    decreases |actions|
  {
    if actions != [] {
      var n := |actions| - 1;
      OrphanBlocksForEver(st, actions[..n]);
      OrphanStep(st, actions[n]);
      var none: seq<Event> := [];
      assert none + none == none;
    }
  }

  /** A failing connection or callback, which frees a record that has a resource. */
  const FAILURE: Cycle := Cycle(true, false, -1, [], -1)

  lemma FailureFrees(st: Rsc)
    requires Active(st)
    ensures Continue(st, [Work(FAILURE)]).0.cid == 0
  {
    hide Digest;
    assert [Work(FAILURE)][..0] == [];
    assert Fetch(st, []) == (st, []);
  }

  /** Nothing that happens later makes the record free again. */
  ghost predicate Blocked(st: Rsc) {
    forall actions :: Continue(st, actions).0.cid != 0
  }

  /** Exactly the orphans block: every other record is free or can be freed. */
  lemma BlocksExactlyOrphans(st: Rsc)
    ensures Blocked(st) <==> Orphan(st)
  {
    hide Act;
    if Orphan(st) {
      forall actions
        ensures Continue(st, actions).0.cid != 0
      {
        OrphanBlocksForEver(st, actions);
      }
    } else if st.cid != 0 {
      FailureFrees(st);
    } else {
      assert Continue(st, []).0.cid == 0;
    }
  }
}
