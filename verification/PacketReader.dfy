/** Reading packets from a byte stream: the blocking reader, the non-blocking reader that
    can stop anywhere and be called again, and why they deliver the same packets. */
module PacketReader {
  import opened Bytes
  import opened Framing

  // ---------- What is on the stream ----------

  /** The stream s begins with packet p, which occupies `size` bytes of it; the length field
      need not be in its shortest form. */
  predicate Begins(s: seq<Byte>, p: Packet, size: nat) {
    && s != [] && s[0] == p.header
    && var f := Decoding(s[1..], 4);
    && f.Some? && f.value.value == |p.body|
    && size == 1 + f.value.width + |p.body| <= |s|
    && s[1 + f.value.width..size] == p.body
  }

  /** A concatenation of complete packets of non-zero type, possibly followed by more bytes. */
  ghost predicate Carries(s: seq<Byte>, packets: seq<Packet>, sizes: seq<nat>)
    decreases |packets|
  {
    && |sizes| == |packets|
    && (packets != [] ==>
          && Begins(s, packets[0], sizes[0]) && Type(packets[0]) != 0
          && Carries(s[sizes[0]..], packets[1..], sizes[1..]))
  }

  function Total(sizes: seq<nat>): nat {
    if sizes == [] then 0 else sizes[0] + Total(sizes[1..])
  }

  // ---------- The transport ----------

  /** A byte source.  `answers` says how each later call will be served: a negative number is
      an error, zero means call again, k serves at most k bytes; when the list is used up
      there is nothing to read for now. */
  class Source {
    const input: seq<Byte>
    var pos: nat
    var answers: seq<int>

    constructor (input: seq<Byte>, answers: seq<int>)
      ensures this.input == input && pos == 0 && this.answers == answers
    {
      this.input, this.pos, this.answers := input, 0, answers;
    }

    function Served(n: nat): int
      requires pos <= |input|
      reads this
    {
      if answers == [] then 0
      else if answers[0] < 0 then -1
      else
        var k := if answers[0] < n then answers[0] else n;
        if k < |input| - pos then k else |input| - pos
    }

    /** The non-blocking callback. */
    method Get(buf: array<Byte>, at: nat, n: nat) returns (r: int)
      requires pos <= |input| && at + n <= buf.Length
      modifies this, buf
      ensures r == old(Served(n)) && r <= n
      ensures answers == old(if answers == [] then [] else answers[1..])
      ensures pos == old(pos) + (if r < 0 then 0 else r) <= |input|
      ensures buf[..] == if r <= 0 then old(buf[..]) else Splice(old(buf[..]), at, input[old(pos)..pos])
    {
      r := Served(n);
      if answers != [] {
        answers := answers[1..];
      }
      if r > 0 {
        forall i | 0 <= i < r {
          buf[at + i] := input[pos + i];
        }
        pos := pos + r;
      }
    }

    method GetOne() returns (r: int, c: Byte)
      requires pos <= |input|
      modifies this
      ensures r == old(Served(1)) && r <= 1
      ensures answers == old(if answers == [] then [] else answers[1..])
      ensures pos == old(pos) + (if r < 0 then 0 else r) <= |input|
      ensures r == 1 ==> c == input[old(pos)]
    {
      r, c := Served(1), 0;
      if answers != [] {
        answers := answers[1..];
      }
      if r > 0 {
        c := input[pos];
        pos := pos + 1;
      }
    }

    /** The blocking callback: it waits for all n bytes, so the answers do not matter. */
    method GetAll(buf: array<Byte>, at: nat, n: nat) returns (r: int)
      requires pos <= |input| && at + n <= buf.Length
      modifies this`pos, buf
      ensures r == if n <= |input| - old(pos) then n else -1
      ensures pos == old(pos) + (if r < 0 then 0 else n)
      ensures buf[..] == if r < 0 then old(buf[..]) else Splice(old(buf[..]), at, input[old(pos)..pos])
    {
      if n > |input| - pos {
        return -1;
      }
      forall i | 0 <= i < n {
        buf[at + i] := input[pos + i];
      }
      pos := pos + n;
      r := n;
    }
  }

  // ---------- The blocking reader ----------

  /** The length field, byte by byte from the source. */
  method DecodeBlocking(sck: Source) returns (value: nat)
    requires sck.pos <= |sck.input| && Decoding(sck.input[sck.pos..], 4).Some?
    modifies sck`pos
    ensures old(sck.pos) <= sck.pos <= |sck.input|
    ensures Decoding(sck.input[old(sck.pos)..], 4) == Some(Field(value, sck.pos - old(sck.pos)))
  {
    var len;
    len, value := DecodeBuf(sck.input, sck.pos);
    sck.pos := sck.pos + len;
  }

  /** Header and length field, the latter rewritten in its shortest form. */
  method ReadFront(buf: array<Byte>, sck: Source, ghost p: Packet, ghost size: nat) returns (len: nat, rem: nat)
    requires buf.Length >= 5 && sck.pos <= |sck.input|
    requires Begins(sck.input[sck.pos..], p, size) && |p.body| <= MAX_LENGTH
    modifies buf, sck`pos
    ensures rem == |p.body| && len <= 5 && |Image(p)| == len + rem
    ensures buf[..len] == [p.header] + Encoding(rem)
    ensures sck.pos == old(sck.pos) + size - rem
  {
    hide Encoding, Decoding, Splice;
    EncodingWidth(|p.body|);
    ghost var start := sck.pos;
    ghost var s := sck.input[start..];
    ghost var b := buf[..];
    var r := sck.GetAll(buf, 0, 1);
    assert sck.input[start..start + 1] == [p.header];
    SpliceAppends(b, [], [p.header]);
    assert sck.input[sck.pos..] == s[1..];
    rem := DecodeBlocking(sck);
    b := buf[..];
    assert b[..1] == [p.header];
    len := Encode(buf, 1, rem);
    len := len + 1;
    SpliceAppends(b, [p.header], Encoding(rem));
  }

  /** One packet: delivered if it fits the buffer, otherwise given up after its length field. */
  method Read(buf: array<Byte>, sck: Source, ghost p: Packet, ghost size: nat) returns (rc: int)
    requires buf.Length >= 5 && sck.pos <= |sck.input|
    requires Begins(sck.input[sck.pos..], p, size) && |p.body| <= MAX_LENGTH
    modifies buf, sck`pos
    ensures |Image(p)| <= buf.Length ==>
              && rc == Type(p) && buf[..|Image(p)|] == Image(p)
              && sck.pos == old(sck.pos) + size
    ensures |Image(p)| > buf.Length ==>
              && rc == -1
              && sck.pos == old(sck.pos) + size - |p.body|
  {
    hide Encoding, Decoding, Splice;
    ghost var start := sck.pos;
    var len, rem := ReadFront(buf, sck, p, size);
    if rem + len > buf.Length {
      return -1;
    }
    if rem != 0 {
      ghost var b := buf[..];
      var r := sck.GetAll(buf, len, rem);
      if r != rem {
        return -1;
      }
      assert sck.input[start + size - rem..start + size] == sck.input[start..][size - rem..size];
      SpliceAppends(b, [p.header] + Encoding(rem), p.body);
    } else {
      assert [p.header] + Encoding(rem) + p.body == [p.header] + Encoding(rem);
    }
    assert buf[..len + rem] == Image(p);
    assert Image(p)[0] == buf[0];
    rc := buf[0] / 16;
  }

  // ---------- The non-blocking reader ----------

  /** The transport structure: where the reader was interrupted. */
  class Reader {
    const sck: Source
    var state: int
    var len: nat
    var remLen: nat
    var multiplier: nat

    constructor (sck: Source)
      ensures this.sck == sck && state == 0
    {
      this.sck, state, len, remLen, multiplier := sck, 0, 0, 0, 0;
    }

    /** The reader is somewhere inside packet p, which begins at `start` on the stream; the
        three states say how much of it is in the buffer. */
    ghost predicate Inside(buf: array<Byte>, p: Packet, start: nat, size: nat)
      reads this, sck, buf
    {
      && buf.Length >= 5 && |p.body| <= MAX_LENGTH
      && start <= sck.pos <= |sck.input| && start + size <= |sck.input|
      && Begins(sck.input[start..], p, size)
      && if state == 1 then InLength(buf, p, start, size)
         else if state == 2 then remLen > 0 && InBody(buf, p, start, size)
         else sck.pos == start
    }

    /** `len` bytes of the length field have been read, more are to come. */
    ghost predicate InLength(buf: array<Byte>, p: Packet, start: nat, size: nat)
      requires sck.pos <= |sck.input| && buf.Length > 0
      reads this, sck, buf
    {
      && sck.pos == start + 1 + len && buf[0] == p.header
      && sck.pos <= start + size - |p.body|
      && Partial(sck.input[sck.pos..], len, if len == 0 then 0 else remLen, if len == 0 then 1 else multiplier,
                 |p.body|, start + size - |p.body| - sck.pos)
    }

    /** The first `len` bytes of the image are in the buffer, `remLen` are missing. */
    ghost predicate InBody(buf: array<Byte>, p: Packet, start: nat, size: nat)
      reads this, sck, buf
    {
      && remLen <= |p.body|
      && len + remLen == |Image(p)| <= buf.Length
      && sck.pos == start + size - remLen
      && buf[..len] == Image(p)[..len]
    }

    /** One byte of the length field, if the source has it. */
    method LengthByte(ghost goal: nat, ghost left: nat) returns (frc: int, c: Byte)
      requires sck.pos <= |sck.input| && NoErrors(sck.answers)
      requires Partial(sck.input[sck.pos..], len, remLen, multiplier, goal, left)
      modifies this`len, this`remLen, this`multiplier, sck
      ensures NoErrors(sck.answers) && |sck.answers| <= |old(sck.answers)| && sck.pos <= |sck.input|
      ensures frc == 0 || frc == 1
      ensures frc == 0 ==>
                && len == old(len) && remLen == old(remLen) && multiplier == old(multiplier) && sck.pos == old(sck.pos)
                && (old(sck.answers) == [] || old(sck.answers)[0] == 0)
      ensures old(sck.answers) != [] ==> |sck.answers| < |old(sck.answers)|
      ensures frc == 1 ==>
                && sck.pos == old(sck.pos) + 1 && len == old(len) + 1 && |sck.answers| < |old(sck.answers)|
                && if c < 128 then remLen == goal && left == 1
                   else left > 1 && Partial(sck.input[sck.pos..], len, remLen, multiplier, goal, left - 1)
    {
      hide Decoding, Partial, Weighted, Plus;
      ghost var rest := sck.input[sck.pos..];
      PartialStep(rest, len, remLen, multiplier, goal, left);
      frc, c := sck.GetOne();
      if frc == 1 {
        assert sck.input[sck.pos..] == rest[1..];
        len := len + 1;
        remLen := remLen + Weighted(c, multiplier);
        multiplier := multiplier * 128;
        if c >= 128 {
          PartialStep(rest[1..], len, remLen, multiplier, goal, left - 1);
        }
      }
    }

    /** Continues the length field: 0 for call again, -1 for an error, else its width. */
    method DecodeNb(ghost goal: nat, ghost end: nat) returns (rc: int)
      requires sck.pos <= end <= |sck.input| && NoErrors(sck.answers)
      requires Partial(sck.input[sck.pos..], len, if len == 0 then 0 else remLen, if len == 0 then 1 else multiplier,
                       goal, end - sck.pos)
      modifies this`len, this`remLen, this`multiplier, sck
      ensures NoErrors(sck.answers) && |sck.answers| <= |old(sck.answers)|
      ensures old(sck.answers) != [] ==> |sck.answers| < |old(sck.answers)|
      ensures old(sck.pos) <= sck.pos <= end
      ensures rc == 0 ==>
                && Partial(sck.input[sck.pos..], len, if len == 0 then 0 else remLen, if len == 0 then 1 else multiplier,
                           goal, end - sck.pos)
                && sck.pos - len == old(sck.pos - len)
      ensures sck.pos == old(sck.pos) ==> rc == 0 && (old(sck.answers) == [] || old(sck.answers)[0] == 0)
      ensures rc != 0 ==> rc > 0 && remLen == goal && sck.pos == end
    {
      hide Decoding, Partial, Weighted, Plus;
      if len == 0 {
        multiplier, remLen := 1, 0;
      }
      var more := true;
      while more
        invariant NoErrors(sck.answers) && |sck.answers| <= |old(sck.answers)|
        invariant sck.pos > old(sck.pos) ==> |sck.answers| < |old(sck.answers)|
        invariant old(sck.pos) <= sck.pos <= end && sck.pos - len == old(sck.pos - len)
        invariant sck.pos == old(sck.pos) ==> more && sck.answers == old(sck.answers)
        invariant sck.pos > old(sck.pos) ==> len > 0
        invariant len == 0 ==> multiplier == 1 && remLen == 0
        invariant if more then Partial(sck.input[sck.pos..], len, remLen, multiplier, goal, end - sck.pos)
                  else remLen == goal && sck.pos == end
        modifies this`len, this`remLen, this`multiplier, sck
        decreases more, |sck.answers|
      {
        if len >= 4 {
          PartialStep(sck.input[sck.pos..], len, remLen, multiplier, goal, end - sck.pos);
          return -1;
        }
        var frc, c := LengthByte(goal, end - sck.pos);
        if frc == -1 {
          return -1;
        }
        if frc == 0 {
          return 0;
        }
        more := c >= 128;
      }
      rc := len;
    }

    method ReadHeader(buf: array<Byte>, ghost p: Packet, ghost start: nat, ghost size: nat) returns (frc: int)
      requires Inside(buf, p, start, size) && state == 0 && NoErrors(sck.answers)
      modifies this`len, this`state, sck, buf
      ensures NoErrors(sck.answers) && |sck.answers| == if old(sck.answers) == [] then 0 else |old(sck.answers)| - 1
      ensures Inside(buf, p, start, size)
      ensures frc == state && sck.pos == start + frc && size > 0
      ensures frc == 0 <==> old(sck.answers) == [] || old(sck.answers)[0] == 0
      ensures frc == 0 || (frc == 1 && len == 0)
    {
      hide Decoding, Image, Plus;
      ghost var s := sck.input[start..];
      frc := sck.Get(buf, 0, 1);
      if frc == -1 || frc == 0 {
        return;
      }
      assert sck.input[start..start + 1] == [p.header];
      SpliceReads(old(buf[..]), 0, [p.header]);
      assert buf[..][0..1] == [p.header];
      assert buf[0] == buf[..][0..1][0];
      assert sck.input[sck.pos..] == s[1..];
      PlusInit(|p.body|);
      len := 0;
      state := state + 1;
    }

    /** The length field, then its shortest form into the buffer, then the size check. */
    method ReadLength(buf: array<Byte>, ghost p: Packet, ghost start: nat, ghost size: nat) returns (rc: int)
      requires Inside(buf, p, start, size) && state == 1 && NoErrors(sck.answers)
      modifies this`len, this`remLen, this`multiplier, this`state, sck, buf
      ensures NoErrors(sck.answers) && |sck.answers| <= |old(sck.answers)| && sck.pos >= old(sck.pos)
      ensures old(sck.answers) != [] ==> |sck.answers| < |old(sck.answers)|
      ensures sck.pos == old(sck.pos) ==> rc == 0 && (old(sck.answers) == [] || old(sck.answers)[0] == 0)
      ensures rc == 0 ==> Inside(buf, p, start, size) && state == 1 && sck.pos < start + size
      ensures rc > 0 ==> |Image(p)| <= buf.Length && state == 2 && InBody(buf, p, start, size) && remLen == |p.body|
      ensures rc < 0 ==> |Image(p)| > buf.Length && sck.pos == start + size - |p.body|
    {
      hide Decoding, Partial, Encoding, Splice, Plus;
      rc := DecodeNb(|p.body|, start + size - |p.body|);
      if rc == 0 {
        UnfinishedLength(sck.input[sck.pos..], len, if len == 0 then 0 else remLen, if len == 0 then 1 else multiplier,
                         |p.body|, start + size - |p.body| - sck.pos);
        return;
      }
      EncodingWidth(|p.body|);
      ghost var b := buf[..];
      assert b[..1] == [p.header];
      len := Encode(buf, 1, remLen);
      len := len + 1;
      SpliceAppends(b, [p.header], Encoding(remLen));
      if remLen + len > buf.Length {
        return -1;
      }
      assert Image(p)[..len] == [p.header] + Encoding(remLen);
      state := state + 1;
    }

    /** As much of the body as the source has; afterwards the packet is delivered or not. */
    method ReadBody(buf: array<Byte>, ghost p: Packet, ghost start: nat, ghost size: nat) returns (frc: int)
      requires start <= sck.pos <= start + size <= |sck.input| && NoErrors(sck.answers)
      requires state == 2 && remLen > 0 && InBody(buf, p, start, size) && Begins(sck.input[start..], p, size)
      modifies this`len, this`remLen, sck, buf
      ensures NoErrors(sck.answers) && |sck.answers| == if old(sck.answers) == [] then 0 else |old(sck.answers)| - 1
      ensures start <= sck.pos <= start + size && sck.pos == old(sck.pos) + frc
      ensures InBody(buf, p, start, size) && frc >= 0
      ensures frc == 0 ==> remLen > 0
      ensures frc == 0 <==> old(sck.answers) == [] || old(sck.answers)[0] == 0
    {
      hide Decoding, Encoding, Splice, Begins, Image;
      ghost var s := sck.input[start..];
      frc := sck.Get(buf, len, remLen);
      if frc == -1 || frc == 0 {
        return;
      }
      ghost var chunk := sck.input[old(sck.pos)..sck.pos];
      BodyChunk(p, s, size, old(sck.pos) - start, frc);
      assert s[old(sck.pos) - start..old(sck.pos) - start + frc] == chunk;
      SpliceAppends(old(buf[..]), Image(p)[..len], chunk);
      remLen := remLen - frc;
      len := len + frc;
    }

    /** One call: 0 for call again, -1 for a packet that does not fit, else the packet type. */
    method ReadNb(buf: array<Byte>, ghost p: Packet, ghost start: nat, ghost size: nat) returns (rc: int)
      requires Inside(buf, p, start, size) && Type(p) != 0 && NoErrors(sck.answers)
      modifies this, sck, buf
      ensures NoErrors(sck.answers) && |sck.answers| <= |old(sck.answers)| && sck.pos >= old(sck.pos)
      ensures old(sck.answers) != [] ==> |sck.answers| < |old(sck.answers)|
      ensures old(sck.answers) != [] && old(sck.answers)[0] != 0 ==> sck.pos > old(sck.pos)
      ensures rc == 0 ==> Inside(buf, p, start, size) && sck.pos < start + size
      ensures rc > 0 ==>
                && |Image(p)| <= buf.Length && rc == Type(p) && buf[..|Image(p)|] == Image(p)
                && sck.pos == start + size && state == 0 && len == |Image(p)|
      ensures rc < 0 ==> rc == -1 && |Image(p)| > buf.Length && sck.pos == start + size - |p.body| && state == 0
    {
      hide Decoding, Partial, Encoding, Plus, Begins;
      if state != 1 && state != 2 {
        state := 0;
        var frc := ReadHeader(buf, p, start, size);
        if frc == 0 {
          return 0;
        }
      }
      if state == 1 {
        var frc := ReadLength(buf, p, start, size);
        if frc < 0 {
          state := 0;
          return -1;
        }
        if frc == 0 {
          return 0;
        }
      }
      if remLen != 0 {
        var frc := ReadBody(buf, p, start, size);
        if frc == 0 {
          return 0;
        }
        if remLen != 0 {
          return 0;
        }
      }
      assert buf[..len] == Image(p);
      rc := buf[0] / 16;
      state := 0;
    }
  }

  lemma UnfinishedLength(rest: seq<Byte>, len: nat, remLen: nat, multiplier: nat, goal: nat, left: nat)
    requires Partial(rest, len, remLen, multiplier, goal, left)
    ensures left > 0
  {
    PartialStep(rest, len, remLen, multiplier, goal, left);
  }

  /** A stretch of the body on the stream is the same stretch of the image. */
  lemma BodyChunk(p: Packet, s: seq<Byte>, size: nat, at: nat, n: nat)
    requires Begins(s, p, size) && size - |p.body| <= at && at + n <= size
    ensures var from := |Image(p)| - (size - at);
            from >= 0 && Image(p)[..from] + s[at..at + n] == Image(p)[..from + n]
  {
    hide Decoding, Encoding;
    var w := size - |p.body|;
    assert s[w..size] == p.body;
    SliceOfSlice(s, w, size, at - w, n);
  }

  /** With `len` bytes of a length field read, the unread bytes begin with the other `left` bytes
      of a field whose value is `goal`. */
  predicate Partial(rest: seq<Byte>, len: nat, remLen: nat, multiplier: nat, goal: nat, left: nat) {
    && len < 4
    && var f := Decoding(rest, 4 - len);
    && f.Some?
    && goal == Plus(remLen, multiplier, f.value.value)
    && left == f.value.width
  }

  lemma PartialStep(rest: seq<Byte>, len: nat, remLen: nat, multiplier: nat, goal: nat, left: nat)
    requires Partial(rest, len, remLen, multiplier, goal, left)
    ensures rest != [] && len < 4 && left > 0
    ensures var c := rest[0];
            if c < 128 then goal == remLen + Weighted(c, multiplier) && left == 1
            else Partial(rest[1..], len + 1, remLen + Weighted(c, multiplier), multiplier * 128, goal, left - 1)
  {
    hide Decoding, Plus, Weighted;
    DecodingStep(rest, 4 - len);
    var c := rest[0];
    if c >= 128 {
      DecodingStep(rest[1..], 3 - len);
    }
    PlusStep(remLen, multiplier, c, if c < 128 then 0 else Decoding(rest[1..], 3 - len).value.value);
  }

  predicate NoErrors(answers: seq<int>) {
    forall i :: 0 <= i < |answers| ==> answers[i] >= 0
  }

  // ---------- Whole streams ----------

  /** What an application sees of a packet: its type and the bytes in its buffer. */
  function Delivered(p: Packet): (nat, seq<Byte>) {
    (Type(p), Image(p))
  }

  predicate AllFit(packets: seq<Packet>, room: nat) {
    forall i :: 0 <= i < |packets| ==> |Image(packets[i])| <= room && |packets[i].body| <= MAX_LENGTH
  }

  lemma {:induction false} TotalNext(sizes: seq<nat>, i: nat)
    requires i < |sizes|
    ensures Total(sizes[..i + 1]) == Total(sizes[..i]) + sizes[i]
  {
    if i > 0 {
      TotalNext(sizes[1..], i - 1);
      assert sizes[..i + 1][1..] == sizes[1..][..i];
      assert sizes[..i][1..] == sizes[1..][..i - 1];
    } else {
      assert sizes[..1][1..] == [];
    }
  }

  /** Packet i begins where the first i packets end. */
  lemma {:induction false} CarriesAt(s: seq<Byte>, packets: seq<Packet>, sizes: seq<nat>, i: nat)
    requires Carries(s, packets, sizes) && i <= |packets|
    ensures Total(sizes[..i]) <= |s|
    ensures i < |packets| ==> Begins(s[Total(sizes[..i])..], packets[i], sizes[i]) && Type(packets[i]) != 0
    decreases i
  {
    hide Begins;
    if i > 0 {
      BeginsBounds(s, packets[0], sizes[0]);
      CarriesAt(s[sizes[0]..], packets[1..], sizes[1..], i - 1);
      assert sizes[..i][1..] == sizes[1..][..i - 1];
      var t := Total(sizes[1..][..i - 1]);
      assert s[sizes[0]..][t..] == s[sizes[0] + t..];
    }
  }

  lemma BeginsBounds(s: seq<Byte>, p: Packet, size: nat)
    requires Begins(s, p, size)
    ensures 0 < size <= |s|
  {
  }

  lemma {:induction false} CarriesLengths(s: seq<Byte>, packets: seq<Packet>, sizes: seq<nat>)
    requires Carries(s, packets, sizes)
    ensures |sizes| == |packets|
    ensures Total(sizes[..0]) == 0 && sizes[..|sizes|] == sizes
  {
  }

  /** Calls the non-blocking reader until the source has nothing more to say, or `count` packets
      are in.  However the bytes are cut, the packets delivered are the packets sent, and
      each is delivered as soon as its last byte has arrived. */
  method DeliverNonBlocking(buf: array<Byte>, r: Reader, count: nat, ghost packets: seq<Packet>, ghost sizes: seq<nat>)
    returns (got: seq<(nat, seq<Byte>)>)
    requires buf.Length >= 5 && r.state == 0 && r.sck.pos == 0 && NoErrors(r.sck.answers)
    requires Carries(r.sck.input, packets, sizes) && AllFit(packets, buf.Length) && |packets| == count
    modifies r, r.sck, buf
    ensures |got| <= |packets|
    ensures forall i :: 0 <= i < |got| ==> got[i] == Delivered(packets[i])
    ensures Total(sizes[..|got|]) <= r.sck.pos
    ensures |got| < |packets| ==> r.sck.pos < Total(sizes[..|got| + 1]) && r.sck.answers == []
    ensures |got| == |packets| ==> r.sck.pos == Total(sizes) && r.state == 0
  {
    hide Begins, Image, Carries, Total, Reader.Inside;
    got := [];
    CarriesLengths(r.sck.input, packets, sizes);
    ghost var start := 0;
    if count > 0 {
      StartNext(buf, r, packets, sizes, 0);
    }
    while |got| < count && r.sck.answers != []
      invariant |got| <= count && NoErrors(r.sck.answers)
      invariant forall i :: 0 <= i < |got| ==> got[i] == Delivered(packets[i])
      invariant start == Total(sizes[..|got|]) <= r.sck.pos
      invariant |got| < count ==>
        && r.Inside(buf, packets[|got|], start, sizes[|got|]) && Type(packets[|got|]) != 0
        && r.sck.pos < start + sizes[|got|]
      invariant |got| == count ==> r.sck.pos == start && r.state == 0
      decreases |r.sck.answers|
    {
      ghost var p, size := packets[|got|], sizes[|got|];
      var rc := r.ReadNb(buf, p, start, size);
      if rc > 0 {
        TotalNext(sizes, |got|);
        got := got + [(rc, buf[..r.len])];
        start := start + size;
        if |got| < count {
          StartNext(buf, r, packets, sizes, |got|);
        }
      }
    }
    if |got| < count {
      TotalNext(sizes, |got|);
    }
  }

  /** Between two packets the idle reader is at the start of the next one. */
  lemma StartNext(buf: array<Byte>, r: Reader, packets: seq<Packet>, sizes: seq<nat>, i: nat)
    requires buf.Length >= 5 && r.state == 0 && i < |packets| == |sizes|
    requires Carries(r.sck.input, packets, sizes) && AllFit(packets, buf.Length)
    requires r.sck.pos == Total(sizes[..i])
    ensures r.Inside(buf, packets[i], r.sck.pos, sizes[i]) && Type(packets[i]) != 0 && sizes[i] > 0
  {
    hide Begins, Image, Carries, Total;
    CarriesAt(r.sck.input, packets, sizes, i);
    BeginsBounds(r.sck.input[r.sck.pos..], packets[i], sizes[i]);
  }

  /** The same stream through the blocking reader: always all packets, the same ones. */
  method DeliverBlocking(buf: array<Byte>, sck: Source, count: nat, ghost packets: seq<Packet>, ghost sizes: seq<nat>)
    returns (types: seq<int>, ghost got: seq<(nat, seq<Byte>)>)
    requires buf.Length >= 5 && sck.pos == 0
    requires Carries(sck.input, packets, sizes) && AllFit(packets, buf.Length) && |packets| == count
    modifies sck, buf
    ensures |types| == |got| == count
    ensures forall i :: 0 <= i < count ==> types[i] == Type(packets[i]) && got[i] == Delivered(packets[i])
    ensures sck.pos == Total(sizes)
  {
    hide Begins, Image, Carries, Total;
    types, got := [], [];
    CarriesLengths(sck.input, packets, sizes);
    while |types| < count
      invariant |types| == |got| <= count
      invariant sck.pos == Total(sizes[..|types|])
      invariant forall i :: 0 <= i < |types| ==> types[i] == Type(packets[i]) && got[i] == Delivered(packets[i])
    {
      ghost var p := packets[|types|];
      CarriesAt(sck.input, packets, sizes, |types|);
      TotalNext(sizes, |types|);
      var rc := Read(buf, sck, p, sizes[|types|]);
      types, got := types + [rc], got + [(Type(p), buf[..|Image(p)|])];
    }
  }
}
