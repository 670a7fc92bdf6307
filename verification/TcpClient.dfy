/** Reading from a connection: bytes go from the modem through the ring to the caller, none
    lost, none twice, in order. */
module TcpClient {
  import opened Bytes
  import opened GsmFifo

  /** How the modem and the clock behave in one round of the read loop: whether the time is
      up, how many bytes the modem claims to have, whether it answers a read, with how many
      of the bytes asked for, and how many it then claims. */
  datatype Round = Round(timeout: bool, available: int, answers: bool, len: nat, after: int)

  /** What a read has moved so far: bytes for the caller, bytes in the ring, bytes taken. */
  datatype Flow = Flow(given: seq<Byte>, queue: seq<Byte>, taken: nat)

  /** How many bytes one read from the modem delivers. */
  function Delivered(left: nat, size: nat, round: Round): (n: nat)
    ensures n <= left && n <= size
  {
    if round.answers then Min(round.len, Min(size, left)) else 0
  }

  /** The read loop: drain the ring; if it is empty, ask the modem for as much as fits. */
  function Pump(wire: seq<Byte>, f: Flow, max: nat, rounds: seq<Round>): (r: Flow)
    requires f.taken <= |wire| && |f.given| <= max && |f.queue| < FIFO_SIZE
    ensures f.taken <= r.taken <= |wire| && |r.given| <= max && |r.queue| < FIFO_SIZE
    decreases |rounds|
  {
    if |f.given| >= max || rounds == [] || rounds[0].timeout then f
    else if f.queue != [] then
      var chunk := Min(|f.queue|, max - |f.given|);
      Pump(wire, Flow(f.given + f.queue[..chunk], f.queue[chunk..], f.taken), max, rounds[1..])
    else if rounds[0].available > 0 then
      var len := Delivered(|wire| - f.taken, FIFO_SIZE - 1, rounds[0]);
      Pump(wire, Flow(f.given, wire[f.taken..f.taken + len], f.taken + len), max, rounds[1..])
    else f
  }

  lemma Join(wire: seq<Byte>, given: seq<Byte>, a: nat, b: nat, c: nat)
    requires a <= b <= c <= |wire|
    ensures given + wire[a..b] + wire[b..c] == given + [] + wire[a..c]
  {
    assert wire[a..b] + wire[b..c] == wire[a..c];
    assert given + wire[a..b] + wire[b..c] == given + (wire[a..b] + wire[b..c]);
  }

  /** Nothing is lost, nothing comes twice, nothing changes places. */
  lemma {:induction false} PumpConserves(wire: seq<Byte>, f: Flow, max: nat, rounds: seq<Round>)
    requires f.taken <= |wire| && |f.given| <= max && |f.queue| < FIFO_SIZE
    ensures var r := Pump(wire, f, max, rounds);
            r.given + r.queue == f.given + f.queue + wire[f.taken..r.taken]
    decreases |rounds|
  {
    hide Pump, Delivered;
    PumpStep(wire, f, max, rounds);
    if |f.given| < max && rounds != [] && !rounds[0].timeout && f.queue != [] {
      var chunk := Min(|f.queue|, max - |f.given|);
      Regroup(f.given, f.queue, chunk);
      PumpConserves(wire, Flow(f.given + f.queue[..chunk], f.queue[chunk..], f.taken), max, rounds[1..]);
    } else if |f.given| < max && rounds != [] && !rounds[0].timeout && rounds[0].available > 0 {
      var to := f.taken + Delivered(|wire| - f.taken, FIFO_SIZE - 1, rounds[0]);
      var g := Flow(f.given, wire[f.taken..to], to);
      PumpConserves(wire, g, max, rounds[1..]);
      Join(wire, f.given, f.taken, to, Pump(wire, g, max, rounds[1..]).taken);
    } else {
      assert wire[f.taken..f.taken] == [];
    }
  }

  /** The modem answers, in time, and with at least one byte if it has any. */
  predicate Ready(round: Round) {
    !round.timeout && round.available > 0 && round.answers && round.len > 0
  }

  /** With such a modem and two rounds for each missing byte, the caller gets all it asked for,
      or all there is. */
  lemma {:induction false} PumpFills(wire: seq<Byte>, f: Flow, max: nat, rounds: seq<Round>)
    requires f.taken <= |wire| && |f.given| <= max && |f.queue| < FIFO_SIZE
    requires forall i :: 0 <= i < |rounds| ==> Ready(rounds[i])
    requires |rounds| >= 2 * (max - |f.given|) - if f.queue != [] then 1 else 0
    ensures |Pump(wire, f, max, rounds).given| == Min(max, |f.given| + |f.queue| + |wire| - f.taken)
    decreases |rounds|
  {
    if |f.given| < max {
      assert Ready(rounds[0]);
      if f.queue != [] {
        var chunk := Min(|f.queue|, max - |f.given|);
        PumpFills(wire, Flow(f.given + f.queue[..chunk], f.queue[chunk..], f.taken), max, rounds[1..]);
      } else if f.taken == |wire| {
        PumpDry(wire, f, max, rounds);
      } else {
        var len := Delivered(|wire| - f.taken, FIFO_SIZE - 1, rounds[0]);
        PumpFills(wire, Flow(f.given, wire[f.taken..f.taken + len], f.taken + len), max, rounds[1..]);
      }
    }
  }

  lemma {:induction false} PumpDry(wire: seq<Byte>, f: Flow, max: nat, rounds: seq<Round>)
    requires f.taken == |wire| && |f.given| <= max && f.queue == []
    ensures Pump(wire, f, max, rounds).given == f.given
    decreases |rounds|
  {
    if |f.given| < max && rounds != [] && !rounds[0].timeout && rounds[0].available > 0 {
      PumpDry(wire, Flow(f.given, wire[f.taken..f.taken], f.taken), max, rounds[1..]);
    }
  }

  /** A modem that answers gives all it offers, as far as there is room and there are bytes. */
  lemma TakesAllOffered(left: nat, size: nat, round: Round)
    ensures !round.answers ==> Delivered(left, size, round) == 0
    ensures round.answers ==>
              && Delivered(left, size, round) <= round.len
              && (Delivered(left, size, round) in {round.len, size, left})
  {
  }

  /** Queued bytes come first: one round in time hands over as many as are asked for or queued, whatever
      the modem does, and a round out of time, or a modem with nothing, ends the call. */
  lemma QueuedComesFirst(wire: seq<Byte>, f: Flow, max: nat, rounds: seq<Round>)
    requires f.taken <= |wire| && |f.given| <= max && |f.queue| < FIFO_SIZE && rounds != []
    ensures !rounds[0].timeout ==>
              var chunk := Min(|f.queue|, max - |f.given|);
              f.given + f.queue[..chunk] <= Pump(wire, f, max, rounds).given
    ensures rounds[0].timeout || (f.queue == [] && rounds[0].available <= 0) ==> Pump(wire, f, max, rounds) == f
  {
    hide Pump, Delivered;
    PumpStep(wire, f, max, rounds);
    if !rounds[0].timeout {
      var chunk := Min(|f.queue|, max - |f.given|);
      assert f.given + [] == f.given;
      if f.queue != [] && |f.given| < max {
        PumpKeepsGiven(wire, Flow(f.given + f.queue[..chunk], f.queue[chunk..], f.taken), max, rounds[1..]);
      } else {
        assert f.queue[..chunk] == [];
        PumpKeepsGiven(wire, f, max, rounds);
      }
    }
  }

  lemma {:induction false} PumpKeepsGiven(wire: seq<Byte>, f: Flow, max: nat, rounds: seq<Round>)
    requires f.taken <= |wire| && |f.given| <= max && |f.queue| < FIFO_SIZE
    ensures f.given <= Pump(wire, f, max, rounds).given
    decreases |rounds|
  {
    hide Pump, Delivered;
    PumpStep(wire, f, max, rounds);
    if |f.given| < max && rounds != [] && !rounds[0].timeout && f.queue != [] {
      var chunk := Min(|f.queue|, max - |f.given|);
      PumpKeepsGiven(wire, Flow(f.given + f.queue[..chunk], f.queue[chunk..], f.taken), max, rounds[1..]);
    } else if |f.given| < max && rounds != [] && !rounds[0].timeout && rounds[0].available > 0 {
      var to := f.taken + Delivered(|wire| - f.taken, FIFO_SIZE - 1, rounds[0]);
      PumpKeepsGiven(wire, Flow(f.given, wire[f.taken..to], to), max, rounds[1..]);
    }
  }

  class Client {
    const rx: Fifo
    var available: int
    var wire: seq<Byte>  // the modem's side: all bytes this connection will ever deliver
    var taken: nat  // and how many of them the modem has given
    ghost var handed: seq<Byte>  // all bytes given to the caller on this connection

    /** Conservation: what was handed over, then what is queued, is what was taken. */
    ghost predicate Valid()
      reads this, rx, rx.b
    {
      && rx.Valid()
      && taken <= |wire|
      && handed + rx.Contents() == wire[..taken]
    }

    constructor ()
      ensures Valid() && handed == [] && fresh(rx) && fresh(rx.b)
    {
      rx := new Fifo();
      available := 0;
      wire, taken, handed := [], 0, [];
    }

    /** A new connection starts with an empty ring. */
    method Connect(newWire: seq<Byte>)
      requires rx.Valid()
      modifies this, rx
      ensures Valid() && wire == newWire && taken == 0 && handed == []
    {
      rx.Clear();
      wire, taken, handed := newWire, 0, [];
    }

    method Stop()
      requires rx.Valid()
      modifies this, rx
      ensures Valid() && wire == [] && handed == []
    {
      rx.Clear();
      wire, taken, handed := [], 0, [];
    }

    /** One read from the modem, of at most `size` bytes; none is refused by the ring. */
    method ModemRead(size: nat, round: Round) returns (len: nat)
      requires Valid() && size + |rx.Contents()| < FIFO_SIZE
      modifies this`available, this`taken, rx`w, rx.b
      ensures Valid() && len == Delivered(|wire| - old(taken), size, round) && taken == old(taken) + len
      ensures rx.Contents() == old(rx.Contents()) + wire[old(taken)..taken]
    {
      hide Ring, Fifo.Contents;
      len := 0;
      if !round.answers {
        return;
      }
      ghost var queued, start := rx.Contents(), taken;
      var offered := Min(round.len, Min(size, |wire| - taken));
      available := round.after;
      while len < offered
        invariant len <= offered && taken == start + len <= |wire|
        invariant rx.Valid() && rx.Contents() == queued + wire[start..taken]
      {
        var c := wire[taken];
        var ok := rx.Put(c);
        assert ok;
        assert wire[start..taken] + [c] == wire[start..taken + 1];
        taken := taken + 1;
        len := len + 1;
      }
      assert handed + (queued + wire[start..taken]) == wire[..start] + wire[start..taken];
    }

    /** The loop: drain the ring, ask the modem for as much as fits, until enough bytes are there,
        the time is up or the modem has nothing. */
    method Read(buffer: array<Byte>, maxSize: nat, rounds: seq<Round>) returns (cnt: nat)
      requires Valid() && buffer != rx.b && maxSize <= buffer.Length
      modifies this`available, this`taken, this`handed, rx, rx.b, buffer
      ensures Valid()
      ensures var f := Pump(wire, Flow([], old(rx.Contents()), old(taken)), maxSize, rounds);
              && cnt == |f.given| && buffer[..cnt] == f.given && rx.Contents() == f.queue && taken == f.taken
      ensures handed == old(handed) + buffer[..cnt]
      ensures buffer[cnt..] == old(buffer[cnt..])
    {
      hide Ring, Splice, Fifo.Contents, Pump, Delivered;
      cnt := 0;
      var i := 0;
      ghost var was, given: seq<Byte>, rest := buffer[..], [], rounds;
      ghost var goal := Pump(wire, Flow([], rx.Contents(), taken), maxSize, rounds);
      SpliceNothing(was, 0);
      assert handed + given == handed;
      while cnt < maxSize && i < |rounds|
        invariant cnt == |given| <= maxSize && i <= |rounds| && rest == rounds[i..]
        invariant Valid() && rx.Valid() && taken <= |wire| && handed == old(handed) + given
        invariant |was| == buffer.Length && buffer[..] == Splice(was, 0, given)
        invariant goal == Pump(wire, Flow(given, rx.Contents(), taken), maxSize, rest)
        decreases |rounds| - i
      {
        ghost var f := Flow(given, rx.Contents(), taken);
        var round := rounds[i];
        assert round == rest[0];
        if round.timeout {
          break;
        }
        var size := rx.Size();
        var chunk := if size < maxSize - cnt then size else maxSize - cnt;
        if chunk > 0 {
          PumpDrains(wire, f, maxSize, rest, chunk);
          ghost var bytes := rx.Contents()[..chunk];
          HandOver(buffer, cnt, chunk, was, given, old(handed));
          given := given + bytes;
          cnt := cnt + chunk;
          i := i + 1;
          rest := rest[1..];
          continue;
        }
        available := round.available;
        if available > 0 {
          PumpRefills(wire, f, maxSize, rest);
          Refill(round);
          i := i + 1;
          rest := rest[1..];
        } else {
          break;
        }
      }
      PumpEnds(wire, Flow(given, rx.Contents(), taken), maxSize, rest);
      SpliceReads(was, 0, given);
      assert buffer[..cnt] == buffer[..][0..cnt] && buffer[cnt..] == buffer[..][cnt..];
    }

    /** Asks for as much as the empty ring takes. */
    method Refill(round: Round)
      requires Valid() && rx.Contents() == []
      modifies this`available, this`taken, rx`w, rx.b
      ensures Valid() && rx.Valid()
      ensures taken == old(taken) + Delivered(|wire| - old(taken), FIFO_SIZE - 1, round) <= |wire|
      ensures rx.Contents() == wire[old(taken)..taken]
    {
      hide Ring, Fifo.Contents, Delivered;
      var free := rx.FreeSize();
      var len := ModemRead(free, round);
      assert [] + wire[old(taken)..taken] == wire[old(taken)..taken];
    }

    /** Moves queued bytes behind those already in the caller's buffer. */
    method HandOver(buffer: array<Byte>, at: nat, chunk: nat,
                    ghost was: seq<Byte>, ghost given: seq<Byte>, ghost before: seq<Byte>)
      requires Valid() && buffer != rx.b && at + chunk <= buffer.Length && chunk <= |rx.Contents()|
      requires at == |given| && |was| == buffer.Length && buffer[..] == Splice(was, 0, given) && handed == before + given
      modifies this`handed, rx, buffer
      ensures Valid() && rx.Valid()
      ensures handed == before + (given + old(rx.Contents())[..chunk])
      ensures rx.Contents() == old(rx.Contents())[chunk..]
      ensures buffer[..] == Splice(was, 0, given + old(rx.Contents())[..chunk])
    {
      hide Ring, Splice, Fifo.Contents;
      ghost var h, all, out := handed, rx.Contents(), wire[..taken];
      Regroup(h, all, chunk);
      SpliceMore(was, 0, given, all[..chunk]);
      assert before + given + all[..chunk] == before + (given + all[..chunk]);
      var got := rx.Get(buffer, at, chunk);
      handed := h + all[..chunk];
      assert rx.Contents() == all[chunk..];
      assert handed + rx.Contents() == out;
    }
  }

  lemma PumpStep(wire: seq<Byte>, f: Flow, max: nat, rounds: seq<Round>)
    requires f.taken <= |wire| && |f.given| <= max && |f.queue| < FIFO_SIZE
    ensures |f.given| >= max || rounds == [] || rounds[0].timeout ==> Pump(wire, f, max, rounds) == f
    ensures |f.given| < max && rounds != [] && !rounds[0].timeout && f.queue != [] ==>
              var chunk := Min(|f.queue|, max - |f.given|);
              Pump(wire, f, max, rounds)
              == Pump(wire, Flow(f.given + f.queue[..chunk], f.queue[chunk..], f.taken), max, rounds[1..])
    ensures |f.given| < max && rounds != [] && !rounds[0].timeout && f.queue == [] ==>
              if rounds[0].available > 0 then
                var len := Delivered(|wire| - f.taken, FIFO_SIZE - 1, rounds[0]);
                Pump(wire, f, max, rounds)
                == Pump(wire, Flow(f.given, wire[f.taken..f.taken + len], f.taken + len), max, rounds[1..])
              else Pump(wire, f, max, rounds) == f
  {
    hide Delivered;
  }

  lemma PumpDrains(wire: seq<Byte>, f: Flow, max: nat, rounds: seq<Round>, chunk: nat)
    requires f.taken <= |wire| && |f.queue| < FIFO_SIZE && rounds != [] && !rounds[0].timeout
    requires |f.given| <= max && 0 < chunk == Min(|f.queue|, max - |f.given|)
    ensures Pump(wire, f, max, rounds)
            == Pump(wire, Flow(f.given + f.queue[..chunk], f.queue[chunk..], f.taken), max, rounds[1..])
  {
    hide Pump, Delivered;
    PumpStep(wire, f, max, rounds);
  }

  lemma PumpRefills(wire: seq<Byte>, f: Flow, max: nat, rounds: seq<Round>)
    requires f.taken <= |wire| && |f.given| < max && f.queue == []
    requires rounds != [] && !rounds[0].timeout && rounds[0].available > 0
    ensures var to := f.taken + Delivered(|wire| - f.taken, FIFO_SIZE - 1, rounds[0]);
            Pump(wire, f, max, rounds) == Pump(wire, Flow(f.given, wire[f.taken..to], to), max, rounds[1..])
  {
    hide Pump, Delivered;
    PumpStep(wire, f, max, rounds);
  }

  lemma PumpEnds(wire: seq<Byte>, f: Flow, max: nat, rounds: seq<Round>)
    requires f.taken <= |wire| && |f.given| <= max && |f.queue| < FIFO_SIZE
    requires |f.given| == max || rounds == [] || rounds[0].timeout || (f.queue == [] && rounds[0].available <= 0)
    ensures Pump(wire, f, max, rounds) == f
  {
    hide Pump, Delivered;
    PumpStep(wire, f, max, rounds);
  }

  lemma Regroup(h: seq<Byte>, s: seq<Byte>, n: nat)
    requires n <= |s|
    ensures (h + s[..n]) + s[n..] == h + s
  {
  }
}
