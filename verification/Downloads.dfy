/** What the user gets to see of a download: every byte asked for, and the announcement that it is
    complete -- in one cycle, and from the text of a request to the end. */
module Downloads {
  import opened Bytes
  import opened Md5Spec
  import opened TransferSpec
  import J = JsonTree
  import D = ResourceDocument
  import R = ResourceRequest

  // ---------- Bytes and events ----------

  /** The reads that bring something for this resource. */
  function Own(obj: Obj, rs: seq<Read>): seq<Read>
    decreases |rs|
  {
    if rs == [] then []
    else
      var r := rs[|rs| - 1];
      Own(obj, rs[..|rs| - 1]) + if r.obj == obj && r.data != [] then [r] else []
  }

  /** The bytes of all reads. */
  function Content(rs: seq<Read>): seq<bv8>
    decreases |rs|
  {
    if rs == [] then [] else Content(rs[..|rs| - 1]) + rs[|rs| - 1].data
  }

  /** Each read, as the user sees it. */
  function Handed(rs: seq<Read>): (e: seq<Event>)
    ensures |e| == |rs| && forall i :: 0 <= i < |e| ==> e[i] == Data(rs[i].obj, rs[i].data)
  {
    seq(|rs|, i requires 0 <= i < |rs| => Data(rs[i].obj, rs[i].data))
  }

  lemma {:induction false} ContentAppend(a: seq<Read>, b: seq<Read>)
    ensures Content(a + b) == Content(a) + Content(b)
    decreases |b|
  {
    if b == [] {
      assert a + b == a;
    } else {
      var n := |b| - 1;
      ContentAppend(a, b[..n]);
      assert (a + b)[..|a + b| - 1] == a + b[..n];
      assert Content(a) + Content(b[..n]) + b[n].data == Content(a) + (Content(b[..n]) + b[n].data);
    }
  }

  function Low32(n: nat): nat {
    n % 0x1_0000_0000
  }

  lemma Low32Adds(n: nat, k: nat)
    ensures Low32(Low32(n) + k) == Low32(n + k)
    ensures n < 0x1_0000_0000 ==> Low32(n) == n
  {
  }

  /** The record after so many more bytes. */
  function Filled(st: Rsc, more: seq<bv8>): Rsc {
    st.(absorbed := st.absorbed + more, offset := Low32(st.offset + |more|))
  }

  lemma GetOne(st: Rsc, r: Read)
    requires Active(st)
    ensures GetResources(st, r)
            == if r.obj == st.obj.value && r.data != [] then (Filled(st, r.data), [Data(r.obj, r.data)]) else (st, [])
  {
  }

  lemma FilledTwice(st: Rsc, a: seq<bv8>, b: seq<bv8>)
    ensures Filled(Filled(st, a), b) == Filled(st, a + b)
    ensures st.offset < 0x1_0000_0000 ==> Filled(st, []) == st
  {
    hide Low32;
    Low32Adds(st.offset + |a|, |b|);
    Low32Adds(st.offset, 0);
    assert st.absorbed + a + b == st.absorbed + (a + b);
    assert st.absorbed + [] == st.absorbed;
  }

  lemma OwnStep(obj: Obj, rs: seq<Read>)
    requires rs != []
    ensures var n := |rs| - 1;
            if rs[n].obj == obj && rs[n].data != [] then
              && Content(Own(obj, rs)) == Content(Own(obj, rs[..n])) + rs[n].data
              && Handed(Own(obj, rs)) == Handed(Own(obj, rs[..n])) + [Data(rs[n].obj, rs[n].data)]
            else Own(obj, rs) == Own(obj, rs[..n])
  {
    hide Content, Handed;
    var n := |rs| - 1;
    var before := Own(obj, rs[..n]);
    assert before + [] == before;
    OneMoreRead(before, rs[n]);
  }

  lemma OneMoreRead(rs: seq<Read>, r: Read)
    ensures Content(rs + [r]) == Content(rs) + r.data
    ensures Handed(rs + [r]) == Handed(rs) + [Data(r.obj, r.data)]
  {
    assert (rs + [r])[..|rs|] == rs;
  }

  /** The callback gets every byte it asks for, in order, and nothing of other resources. */
  lemma {:induction false} FetchHandsOver(st: Rsc, rs: seq<Read>)
    requires Active(st) && st.offset < 0x1_0000_0000
    ensures var own := Own(st.obj.value, rs);
            Fetch(st, rs) == (Filled(st, Content(own)), Handed(own))
    decreases |rs|
  {
    hide GetResources, Own, Content, Filled, Handed;
    if rs == [] {
      NoneOwn(st.obj.value);
      FilledTwice(st, [], []);
    } else {
      var n := |rs| - 1;
      var before := Own(st.obj.value, rs[..n]);
      FetchHandsOver(st, rs[..n]);
      OwnStep(st.obj.value, rs);
      StaysActive(st, Content(before));
      GetOne(Filled(st, Content(before)), rs[n]);
      FilledTwice(st, Content(before), rs[n].data);
      assert Handed(before) + [] == Handed(before);
    }
  }

  lemma NoneOwn(obj: Obj)
    ensures Own(obj, []) == [] && Content([]) == [] && Handed([]) == []
  {
  }

  lemma StaysActive(st: Rsc, more: seq<bv8>)
    requires Active(st)
    ensures Active(Filled(st, more)) && Filled(st, more).obj == st.obj
  {
  }

  // ---------- One cycle ----------

  /** How a transfer ends that has all its bytes. */
  function Ending(t: Transfer, all: seq<bv8>, hasNtfy: bool): seq<Event> {
    (if hasNtfy then [Complete(if Digest(all) == t.md5 then 1 else 2, t.cid, t.obj)] else []) + [End]
  }

  /** A cycle, told by the bytes the user then has. */
  lemma ConnectedWork(st: Rsc, c: Cycle)
    requires Active(st) && st.connected && c.hasDataCb && st.offset == Low32(|st.absorbed|)
    ensures var own := Own(st.obj.value, c.fetches);
            var all := st.absorbed + Content(own);
            var (st', e) := Process(st, c);
            if Low32(|all|) == st.size then
              && st'.cid == 0
              && e == Handed(own) + Ending(Transfer(st.cid, st.obj.value, st.size, st.md5, []), all, c.hasNtfy)
            else if c.cbRc <= 0 then st'.cid == 0 && e == Handed(own) + [End]
            else st' == st.(absorbed := all, offset := Low32(|all|)) && e == Handed(own)
  {
    hide Digest, Fetch, Own, Content, Handed, Low32;
    var own := Own(st.obj.value, c.fetches);
    Below32(|st.absorbed|);
    FetchHandsOver(st, c.fetches);
    Low32Adds(|st.absorbed|, |Content(own)|);
    var all := st.absorbed + Content(own);
    assert Fetch(st, c.fetches).0 == st.(absorbed := all, offset := Low32(|all|));
    var note := if c.hasNtfy then [Complete(if Digest(all) == st.md5 then 1 else 2, st.cid, st.obj.value)] else [];
    assert Handed(own) + note + [End] == Handed(own) + (note + [End]);
  }

  lemma Below32(n: nat)
    ensures Low32(n) < 0x1_0000_0000
  {
  }

  /** In a cycle of a connected transfer the user is given every byte asked for.  If these complete the
      announced number of bytes (mod 2^32), the last events are the announcement -- with state 1
      exactly if the digest of all bytes is the announced one -- and the end; otherwise nothing is
      announced, and the transfer ends exactly if the callback failed or gave up. */
  lemma CompletionIsAnnounced(actions: seq<Action>, c: Cycle)
    requires var st := Run(actions).0; Active(st) && st.connected && c.hasDataCb
    ensures Current(Run(actions).1).Some?
    ensures var t := Current(Run(actions).1).value;
            var own := Own(t.obj, c.fetches);
            var all := t.bytes + Content(own);
            var (st', trace) := Run(actions + [Work(c)]);
            if |all| % 0x1_0000_0000 == t.size then
              st'.cid == 0 && trace == Run(actions).1 + (Handed(own) + Ending(t, all, c.hasNtfy))
            else if c.cbRc <= 0 then st'.cid == 0 && trace == Run(actions).1 + (Handed(own) + [End])
            else st'.cid == t.cid && trace == Run(actions).1 + Handed(own)
  {
    hide Digest, Honest, Current, Fetch, Process, Own, Content, Handed;
    EveryRunIsHonest(actions);
    var st := Run(actions).0;
    assert (actions + [Work(c)])[..|actions|] == actions;
    ConnectedWork(st, c);
  }

  // ---------- From the request to the end ----------

  function Works(cycles: seq<Cycle>): (r: seq<Action>)
    ensures |r| == |cycles| && forall i :: 0 <= i < |cycles| ==> r[i] == Work(cycles[i])
  {
    seq(|cycles|, i requires 0 <= i < |cycles| => Work(cycles[i]))
  }

  /** All that the data callback asks for, cycle after cycle. */
  function AllReads(cycles: seq<Cycle>): seq<Read> {
    if cycles == [] then [] else cycles[0].fetches + AllReads(cycles[1..])
  }

  predicate Brings(r: Read, obj: Obj) {
    r.obj == obj && r.data != []
  }

  /** Both callbacks are there, the data callback reads this resource only, some bytes each time,
      and is content. */
  predicate Willing(c: Cycle, obj: Obj) {
    c.hasDataCb && c.hasNtfy && c.cbRc > 0 && forall r :: r in c.fetches ==> Brings(r, obj)
  }

  lemma BringsMeans(r: Read, obj: Obj)
    ensures Brings(r, obj) <==> r.obj == obj && r.data != []
  {
  }

  lemma {:induction false} AllOwn(obj: Obj, rs: seq<Read>)
    requires forall r :: r in rs ==> Brings(r, obj)
    ensures Own(obj, rs) == rs
    decreases |rs|
  {
    hide Brings;
    if rs != [] {
      var n := |rs| - 1;
      assert Brings(rs[n], obj);
      BringsMeans(rs[n], obj);
      AllOwn(obj, rs[..n]);
      assert rs == rs[..n] + [rs[n]];
    }
  }

  lemma WillingMeans(c: Cycle, obj: Obj)
    requires Willing(c, obj)
    ensures c.hasDataCb && c.hasNtfy && c.cbRc > 0 && Own(obj, c.fetches) == c.fetches
  {
    AllOwn(obj, c.fetches);
  }

  lemma WillingWork(st: Rsc, c: Cycle)
    requires Active(st) && st.connected && st.offset == |st.absorbed| && Willing(c, st.obj.value)
    requires |st.absorbed + Content(c.fetches)| <= st.size < 0x1_0000_0000
    ensures var all := st.absorbed + Content(c.fetches);
            var (st', e) := Process(st, c);
            if |all| == st.size then
              && st'.cid == 0
              && e == Handed(c.fetches) + [Complete(if Digest(all) == st.md5 then 1 else 2, st.cid, st.obj.value), End]
            else e == Handed(c.fetches) && st' == st.(absorbed := all, offset := |all|)
  {
    hide Digest, Process, Own, Content, Handed, Low32, Willing;
    WillingMeans(c, st.obj.value);
    Low32Adds(|st.absorbed|, 0);
    Low32Adds(|st.absorbed + Content(c.fetches)|, 0);
    ConnectedWork(st, c);
    assert [] + [End] == [End];
  }

  /** A record without a transfer is left alone by every cycle. */
  lemma {:induction false} FreeStays(st: Rsc, cycles: seq<Cycle>)
    requires st.cid == 0
    ensures Continue(st, Works(cycles)) == (st, [])
    decreases |cycles|
  {
    if cycles != [] {
      var n := |cycles| - 1;
      assert Works(cycles)[..n] == Works(cycles[..n]);
      FreeStays(st, cycles[..n]);
      var none: seq<Event> := [];
      assert none + none == none;
    }
  }

  lemma FirstWork(st: Rsc, cycles: seq<Cycle>)
    requires cycles != []
    ensures var (st1, e1) := Process(st, cycles[0]);
            var (st2, e2) := Continue(st1, Works(cycles[1..]));
            Continue(st, Works(cycles)) == (st2, e1 + e2)
  {
    hide Process;
    var first := [Work(cycles[0])];
    assert Works(cycles) == first + Works(cycles[1..]);
    ContinueAppend(st, first, Works(cycles[1..]));
    assert first[..0] == [];
    var e1 := Process(st, cycles[0]).1;
    assert [] + e1 == e1;
  }

  lemma SomeContent(rs: seq<Read>, obj: Obj)
    requires rs != [] && forall r :: r in rs ==> Brings(r, obj)
    ensures Content(rs) != []
  {
    assert Brings(rs[|rs| - 1], obj);
  }

  lemma {:induction false} NothingMore(cycles: seq<Cycle>, obj: Obj)
    requires forall c :: c in cycles ==> Willing(c, obj)
    requires Content(AllReads(cycles)) == []
    ensures AllReads(cycles) == []
  {
    hide Content;
    if cycles != [] {
      assert Willing(cycles[0], obj);
      ContentAppend(cycles[0].fetches, AllReads(cycles[1..]));
      if cycles[0].fetches != [] {
        SomeContent(cycles[0].fetches, obj);
      }
      NothingMore(cycles[1..], obj);
    }
  }

  lemma HandedAppend(a: seq<Read>, b: seq<Read>)
    ensures Handed(a + b) == Handed(a) + Handed(b)
  {
  }

  /** However the missing bytes are cut into reads and the reads into cycles. */
  lemma {:induction false} RestArrives(st: Rsc, cycles: seq<Cycle>)
    requires Active(st) && st.connected && st.offset == |st.absorbed| < st.size < 0x1_0000_0000
    requires forall c :: c in cycles ==> Willing(c, st.obj.value)
    requires |st.absorbed| + |Content(AllReads(cycles))| == st.size
    ensures var all := st.absorbed + Content(AllReads(cycles));
            var (st', e) := Continue(st, Works(cycles));
            && st'.cid == 0
            && e == Handed(AllReads(cycles))
                    + [Complete(if Digest(all) == st.md5 then 1 else 2, st.cid, st.obj.value), End]
    decreases |cycles|
  {
    hide Digest, Process, Continue, Content, Willing, Handed;
    if cycles == [] {
      NoContent();
    } else {
      var rs, rest := cycles[0].fetches, AllReads(cycles[1..]);
      ContentAppend(rs, rest);
      assert Willing(cycles[0], st.obj.value);
      WillingWork(st, cycles[0]);
      FirstWork(st, cycles);
      HandedAppend(rs, rest);
      var (st1, e1) := Process(st, cycles[0]);
      var all := st.absorbed + Content(rs);
      assert st.absorbed + (Content(rs) + Content(rest)) == all + Content(rest);
      if |all| == st.size {
        assert Content(rest) == [];
        NothingMore(cycles[1..], st.obj.value);
        FreeStays(st1, cycles[1..]);
        assert rs + rest == rs && all + Content(rest) == all;
        assert e1 + [] == e1;
      } else {
        RestArrives(st1, cycles[1..]);
        var last := [Complete(if Digest(all + Content(rest)) == st.md5 then 1 else 2, st.cid, st.obj.value), End];
        assert Handed(rs) + (Handed(rest) + last) == Handed(rs) + Handed(rest) + last;
      }
    }
  }

  lemma NoContent()
    ensures Content([]) == [] && AllReads([]) == []
  {
  }

  /** While the connection is not there yet, nothing happens. */
  lemma {:induction false} StillConnecting(st: Rsc, cycles: seq<Cycle>)
    requires !st.connected && forall c :: c in cycles ==> !c.hasDataCb || c.startRc > 0
    ensures Continue(st, Works(cycles)) == (st, [])
    decreases |cycles|
  {
    if cycles != [] {
      var n := |cycles| - 1;
      assert cycles[n] in cycles;
      assert Works(cycles)[..n] == Works(cycles[..n]);
      StillConnecting(st, cycles[..n]);
      var none: seq<Event> := [];
      assert none + none == none;
    }
  }

  /** The cycles of a download: some without a callback or in which the connection is not there yet, one
      that connects, and any cut of the content into reads and of the reads into cycles. */
  datatype Service = Service(pending: seq<Cycle>, connect: Cycle, cycles: seq<Cycle>)

  predicate Serves(s: Service, obj: Obj, size: nat) {
    && (forall c :: c in s.pending ==> !c.hasDataCb || c.startRc > 0)
    && s.connect.hasDataCb && s.connect.startRc == 0
    && (forall c :: c in s.cycles ==> Willing(c, obj))
    && |Content(AllReads(s.cycles))| == size
  }

  function Served(s: Service): seq<Action> {
    Works(s.pending) + [Work(s.connect)] + Works(s.cycles)
  }

  /** What the user is to see of it. */
  function Seen(cid: int, obj: Obj, size: nat, md5: Md5Value, rs: seq<Read>): seq<Event> {
    [Begin(cid, obj, size, md5)] + Handed(rs)
    + [Complete(if Digest(Content(rs)) == md5 then 1 else 2, cid, obj), End]
  }

  lemma ServiceRuns(st: Rsc, s: Service)
    requires Active(st) && !st.connected && st.offset == 0 && 0 < st.size < 0x1_0000_0000
    requires Serves(s, st.obj.value, st.size)
    ensures var (st', e) := Continue(st, Served(s));
            var rs := AllReads(s.cycles);
            && st'.cid == 0
            && e == Handed(rs)
                    + [Complete(if Digest(Content(rs)) == st.md5 then 1 else 2, st.cid, st.obj.value), End]
  {
    hide Digest, Process, Continue, Content, Willing, Handed;
    StillConnecting(st, s.pending);
    Connects(st, s.connect);
    var up := st.(connected := true, absorbed := []);
    RestArrives(up, s.cycles);
    assert [] + Content(AllReads(s.cycles)) == Content(AllReads(s.cycles));
    ContinueAppend(st, Works(s.pending), [Work(s.connect)]);
    ContinueAppend(st, Works(s.pending) + [Work(s.connect)], Works(s.cycles));
    var e := Continue(up, Works(s.cycles)).1;
    assert [] + [] + e == e;
  }

  lemma Connects(st: Rsc, c: Cycle)
    requires Active(st) && !st.connected && st.offset == 0 && c.hasDataCb && c.startRc == 0
    ensures Continue(st, [Work(c)]) == (st.(connected := true, absorbed := []), [])
  {
    assert [Work(c)][..0] == [];
    var none: seq<Event> := [];
    assert none + none == none;
  }

  /** A request that finds the record free starts a transfer exactly if it has an id and names a resource,
      and the user is not asked, or accepts -- or is not reached, because the decoder turned back after
      the record was written.  The answer is the decoder's code or the user's. */
  lemma StartsExactlyIf(st: Rsc, r: Request)
    requires st.cid == 0
    ensures var (st', e, code) := Handle(st, r);
            && (Active(st') <==>
                  r.Decoded? && r.cid != 0 && r.obj.Some? && (r.refusal != 0 || !r.hasNtfy || r.answer == 0))
            && e == (if Active(st') then [Begin(r.cid, r.obj.value, r.size, r.md5)] else [])
            && (r.Decoded? ==> code == if r.refusal == 0 && r.hasNtfy then r.answer else r.refusal)
            && (r.Decoded? && r.refusal == 0 && r.hasNtfy && r.answer != 0 ==> st'.cid == 0)
  {
  }

  lemma Starts(st: Rsc, r: Request)
    requires st.cid == 0
    requires r.Decoded? && r.cid != 0 && r.obj.Some? && r.refusal == 0 && (r.hasNtfy ==> r.answer == 0)
    ensures Continue(st, [Message(r)])
            == (Rsc(r.cid, r.obj, r.size, r.md5, 0, false, []), [Begin(r.cid, r.obj.value, r.size, r.md5)])
  {
    assert [Message(r)][..0] == [];
    var begin := [Begin(r.cid, r.obj.value, r.size, r.md5)];
    assert [] + begin == begin;
  }

  /** From any idle state: a request the user accepts is announced, every byte is handed over in order,
      the completion is announced with state 1 exactly if the digest of the content is the announced
      one, and the record is free again.  Nothing else is seen. */
  lemma EveryDownloadCompletes(before: seq<Action>, r: Request, s: Service)
    requires Run(before).0.cid == 0
    requires r.Decoded? && r.cid != 0 && r.obj.Some? && r.refusal == 0 && (r.hasNtfy ==> r.answer == 0)
    requires 0 < r.size < 0x1_0000_0000 && Serves(s, r.obj.value, r.size)
    ensures var (st', trace) := Run(before + [Message(r)] + Served(s));
            && st'.cid == 0
            && trace == Run(before).1 + Seen(r.cid, r.obj.value, r.size, r.md5, AllReads(s.cycles))
  {
    hide Digest, Run, Continue, Content, Handed, Serves, Served;
    var st0, e0 := Run(before).0, Run(before).1;
    var st1 := Rsc(r.cid, r.obj, r.size, r.md5, 0, false, []);
    var begin := [Begin(r.cid, r.obj.value, r.size, r.md5)];
    RunContinues(before);
    RunContinues(before + [Message(r)] + Served(s));
    Starts(st0, r);
    ContinueAppend(IDLE, before, [Message(r)]);
    ContinueAppend(IDLE, before + [Message(r)], Served(s));
    ServiceRuns(st1, s);
    var rs := AllReads(s.cycles);
    var end := [Complete(if Digest(Content(rs)) == r.md5 then 1 else 2, r.cid, r.obj.value), End];
    assert e0 + begin + (Handed(rs) + end) == e0 + (begin + Handed(rs) + end);
  }

  lemma {:induction false} FirstOfName(names: seq<string>, name: string, i: nat, j: nat)
    requires i <= j < |names| && names[j] == name && name !in names[i..j]
    ensures R.ResourceFrom(names, name, i) == Some(j)
    decreases j - i
  {
    if i < j {
      assert names[i] == names[i..j][0] && names[i..j][1..] == names[i + 1..j];
      FirstOfName(names, name, i + 1, j);
    }
  }

  /** The same from the text of the request on; the resource is the first of that name. */
  lemma EveryAnnouncementIsServed(before: seq<Action>, d: D.Announcement, names: seq<string>, j: nat, hasNtfy: bool,
                                  answer: nat, s: Service)
    requires Run(before).0.cid == 0
    requires D.Plain(d) && d.cid != 0 && d.size > 0 && (hasNtfy ==> answer == 0)
    requires j < |names| && names[j] == d.name && d.name !in names[..j]
    requires Serves(s, j, d.size)
    ensures var js := J.Print(D.Doc(d));
            var (st', trace) := Run(before + [Message(R.DecodeRequest(js, names, hasNtfy, answer))] + Served(s));
            && st'.cid == 0
            && trace == Run(before).1 + Seen(d.cid, j, d.size, d.md5, AllReads(s.cycles))
  {
    hide Digest, Run, Serves, Served, Seen, R.DecodeRequest, J.Print, D.Doc;
    D.RequestRead(d, names, hasNtfy, answer);
    FirstOfName(names, d.name, 0, j);
    EveryDownloadCompletes(before, R.DecodeRequest(J.Print(D.Doc(d)), names, hasNtfy, answer), s);
  }
}
