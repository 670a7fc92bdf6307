/** How the client reads a packet: whatever the transport does, a positive result means a whole
    packet in the buffer; and a prompt transport yields the packets that were sent. */
module ClientReader {
  import opened Bytes
  import opened Framing
  import opened MqttFields
  import opened PacketReader

  const RECV_SIZE: nat := 260

  /** The next n calls are served with all the bytes they ask for. */
  predicate Prompt(answers: seq<int>, n: nat) {
    |answers| >= n && forall i :: 0 <= i < n ==> answers[i] >= RECV_SIZE
  }

  /** At most n answers were used up. */
  predicate Used(before: seq<int>, after: seq<int>, n: nat) {
    |after| <= |before| <= |after| + n && before[|before| - |after|..] == after
  }

  lemma UsedTwice(a: seq<int>, b: seq<int>, c: seq<int>, m: nat, n: nat)
    requires Used(a, b, m) && Used(b, c, n)
    ensures Used(a, c, m + n)
  {
    var k := |b| - |c|;
    assert c == b[k..] == a[|a| - |b|..][k..] == a[|a| - |c|..];
  }

  /** One call of the transport. */
  lemma OneUsed(a: seq<int>, b: seq<int>, c: seq<int>, m: nat)
    requires Used(a, b, m) && c == if b == [] then [] else b[1..]
    ensures Used(a, c, m + 1)
  {
    UsedTwice(a, b, c, m, 1);
  }

  lemma UsedAtMost(before: seq<int>, after: seq<int>, m: nat, n: nat)
    requires Used(before, after, m) && m <= n
    ensures Used(before, after, n)
  {
  }

  lemma NoneUsed(a: seq<int>)
    ensures Used(a, a, 0)
  {
  }

  lemma PromptAfter(before: seq<int>, after: seq<int>, n: nat, k: nat)
    requires Prompt(before, n + k) && Used(before, after, n)
    ensures Prompt(after, k)
  {
    var d := |before| - |after|;
    forall i | 0 <= i < k
      ensures after[i] >= RECV_SIZE
    {
      assert after[i] == before[d..][i] == before[d + i];
    }
  }

  lemma PromptNext(answers: seq<int>, n: nat)
    requires Prompt(answers, n)
    ensures n > 0 ==> answers != [] && answers[0] >= RECV_SIZE && Prompt(answers[1..], n - 1)
    ensures forall k: nat :: k <= n ==> Prompt(answers, k)
  {
  }

  lemma WeightBound(value: nat, m: nat, c: Byte)
    requires value < m
    ensures value + Weighted(c, m) < m * 128
  {
    TimesMax(c % 128, m);
  }

  lemma {:induction false} TimesMax(d: nat, m: nat)
    requires d <= 127
    ensures d * m <= 127 * m
    decreases 127 - d
  {
    if d < 127 {
      TimesMax(d + 1, m);
      assert (d + 1) * m == d * m + m;
    }
  }

  /** With `len` bytes read, the rest of a field f is next, it will make up `goal`, and the transport
      is prompt. */
  predicate OnTrack(rest: seq<Byte>, answers: seq<int>, value: nat, multiplier: nat, len: nat, goal: Field, f: Field) {
    && len <= 4 && Prompt(answers, 5 - len)
    && Decoding(rest, 4 - len) == Some(f)
    && goal == Field(Plus(value, multiplier, f.value), len + f.width)
  }

  lemma TrackStep(rest: seq<Byte>, answers: seq<int>, value: nat, multiplier: nat, len: nat, goal: Field, f: Field)
    returns (g: Field)
    requires OnTrack(rest, answers, value, multiplier, len, goal, f)
    ensures rest != [] && answers != [] && answers[0] >= RECV_SIZE && len < 4
    ensures var c := rest[0];
            var v := value + Weighted(c, multiplier);
            if c < 128 then goal == Field(v, len + 1) && Prompt(answers[1..], 1)
            else OnTrack(rest[1..], answers[1..], v, multiplier * 128, len + 1, goal, g)
  {
    hide Decoding, Weighted, Plus, Prompt;
    DecodingStep(rest, 4 - len);
    PromptNext(answers, 5 - len);
    var c := rest[0];
    g := if c >= 128 then Decoding(rest[1..], 3 - len).value else Field(0, 0);
    PlusStep(value, multiplier, c, g.value);
    PromptNext(answers[1..], 4 - len);
  }

  /** The length field; a failed read, or a fifth byte, ends it with the value so far. */
  method DecodePacket(sck: Source) returns (value: nat)
    requires sck.pos <= |sck.input|
    modifies sck
    ensures old(sck.pos) <= sck.pos <= |sck.input| && value <= MAX_LENGTH
    ensures Used(old(sck.answers), sck.answers, 4)
    ensures old(Prompt(sck.answers, 5) && Decoding(sck.input[sck.pos..], 4).Some?) ==>
              && Decoding(sck.input[old(sck.pos)..], 4) == Some(Field(value, sck.pos - old(sck.pos)))
              && Prompt(sck.answers, 1)
  {
    hide Decoding, Weighted, Plus, Power128, Prompt, Used, OnTrack;
    ghost var start := sck.pos;
    ghost var good := Prompt(sck.answers, 5) && Decoding(sck.input[sck.pos..], 4).Some?;
    ghost var goal := if good then Decoding(sck.input[start..], 4).value else Field(0, 1);
    ghost var f := goal;
    var multiplier: nat := 1;
    var len: nat := 0;
    value := 0;
    NoneUsed(sck.answers);
    PowersOf128();
    if good {
      TrackStart(sck.input[start..], sck.answers, goal);
    }
    while true
      invariant len <= 4 && multiplier == Power128(len) && value < multiplier && value <= MAX_LENGTH
      invariant start <= sck.pos <= |sck.input| && Used(old(sck.answers), sck.answers, len)
      invariant good ==> sck.pos == start + len && OnTrack(sck.input[sck.pos..], sck.answers, value, multiplier, len, goal, f)
      decreases 4 - len
    {
      ghost var rest, had, g := sck.input[sck.pos..], sck.answers, f;
      if good {
        g := TrackStep(rest, had, value, multiplier, len, goal, f);
      }
      UsedAtMost(old(sck.answers), had, len, 4);
      len := len + 1;
      if len > 4 {
        return;
      }
      var r, c := sck.GetOne();
      OneUsed(old(sck.answers), had, sck.answers, len - 1);
      UsedAtMost(old(sck.answers), sck.answers, len, 4);
      if r != 1 {
        return;
      }
      assert c == rest[0] && sck.input[sck.pos..] == rest[1..];
      WeightBound(value, multiplier, c);
      value := value + Weighted(c, multiplier);
      multiplier := multiplier * 128;
      PowerStep(len - 1);
      PowerGrows(len);
      f := g;
      if c < 128 {
        return;
      }
    }
  }

  lemma TrackStart(rest: seq<Byte>, answers: seq<int>, goal: Field)
    requires Prompt(answers, 5) && Decoding(rest, 4) == Some(goal)
    ensures OnTrack(rest, answers, 0, 1, 0, goal, goal)
  {
    hide Decoding, Prompt;
  }

  lemma PowerStep(k: nat)
    ensures Power128(k + 1) == 128 * Power128(k)
  {
  }

  lemma PowersOf128()
    ensures Power128(0) == 1 && Power128(4) == MAX_LENGTH + 1
  {
  }

  lemma PowerGrows(k: nat)
    requires k <= 4
    ensures Power128(k) <= MAX_LENGTH + 1
  {
    assert Power128(4) == MAX_LENGTH + 1;
    assert Power128(3) == 2097152 && Power128(2) == 16384 && Power128(1) == 128;
  }

  /** The header byte, and the length field, put back in its shortest form. */
  method ReadFront(readbuf: array<Byte>, sck: Source) returns (r: int, len: nat, rem: nat)
    requires readbuf.Length == RECV_SIZE && sck.pos <= |sck.input|
    modifies readbuf, sck
    ensures old(sck.pos) <= sck.pos <= |sck.input| && r in {-1, 0, 1} && Used(old(sck.answers), sck.answers, 5)
    ensures r == 1 ==>
              && old(sck.pos) < sck.pos && rem <= MAX_LENGTH && len == 1 + |Encoding(rem)| <= 5
              && readbuf[..len] == [sck.input[old(sck.pos)]] + Encoding(rem)
    ensures old(Prompt(sck.answers, 6)) && old(sck.pos) < |sck.input|
            && Decoding(sck.input[old(sck.pos) + 1..], 4).Some? ==>
              && r == 1 && old(sck.pos) < sck.pos && Prompt(sck.answers, 1)
              && Decoding(sck.input[old(sck.pos) + 1..], 4) == Some(Field(rem, sck.pos - old(sck.pos) - 1))
  {
    hide Decoding, Encoding, Splice, Prompt;
    len, rem := 0, 0;
    if old(Prompt(sck.answers, 6)) {
      PromptNext(sck.answers, 6);
    }
    r := sck.Get(readbuf, 0, 1);
    if r != 1 {
      return;
    }
    ghost var h := sck.input[old(sck.pos)];
    assert sck.input[old(sck.pos)..sck.pos] == [h];
    SpliceReads(old(readbuf[..]), 0, [h]);
    ghost var had := sck.answers;
    rem := DecodePacket(sck);
    UsedTwice(old(sck.answers), had, sck.answers, 1, 4);
    EncodingWidth(rem);
    ghost var b := readbuf[..];
    assert b[..1] == b[0..1] == [h];
    len := Encode(readbuf, 1, rem);
    SpliceAppends(b, [h], Encoding(rem));
    len := len + 1;
  }

  /** One packet, or 0 for nothing, -1 for an error, -8 for a packet that does not fit; `whole` says
      that a packet is in the buffer -- one of type 0 also returns 0. */
  method ReadPacket(readbuf: array<Byte>, sck: Source, ghost p: Packet, ghost size: nat) returns (rc: int, whole: bool)
    requires readbuf.Length == RECV_SIZE && sck.pos <= |sck.input|
    modifies readbuf, sck
    ensures sck.pos <= |sck.input| && (rc in {-8, -1} || 0 <= rc < 16) && Used(old(sck.answers), sck.answers, 6)
    ensures rc > 0 ==> whole
    ensures whole ==> Framed(readbuf[..]) && readbuf[0] / 16 == rc
    ensures old(Prompt(sck.answers, 6) && Begins(sck.input[sck.pos..], p, size)) && |p.body| <= MAX_LENGTH ==>
              if |Image(p)| <= RECV_SIZE then
                && whole && rc == Type(p) && readbuf[..|Image(p)|] == Image(p)
                && sck.pos == old(sck.pos) + size
              else rc == -8
  {
    hide Decoding, Encoding, Framed, Begins, Image, Prompt, Used;
    ghost var start, s := sck.pos, sck.input[sck.pos..];
    ghost var good := Prompt(sck.answers, 6) && Begins(s, p, size) && |p.body| <= MAX_LENGTH;
    if good {
      BeginsParts(s, p, size);
      assert s[1..] == sck.input[start + 1..];
    }
    whole := false;
    var len, rem;
    rc, len, rem := ReadFront(readbuf, sck);
    UsedAtMost(old(sck.answers), sck.answers, 5, 6);
    if rc != 1 {
      return;
    }
    if rem > RECV_SIZE - len {
      return -8, false;
    }
    ghost var from, had := sck.pos, sck.answers;
    whole := ReadBody(readbuf, sck, len, rem, sck.input[start]);
    UsedTwice(old(sck.answers), had, sck.answers, 5, 1);
    if !whole {
      return 0, false;
    }
    if good {
      assert sck.input[from..sck.pos] == s[size - rem..size] == p.body;
    }
    rc := readbuf[0] / 16;
  }

  /** The body, in one call, behind header and length. */
  method ReadBody(readbuf: array<Byte>, sck: Source, len: nat, rem: nat, ghost h: Byte) returns (whole: bool)
    requires sck.pos <= |sck.input| && len + rem <= readbuf.Length == RECV_SIZE
    requires len == 1 + |Encoding(rem)| && readbuf[..len] == [h] + Encoding(rem)
    modifies readbuf, sck
    ensures old(sck.pos) <= sck.pos <= |sck.input| && Used(old(sck.answers), sck.answers, 1)
    ensures whole ==>
              && sck.pos == old(sck.pos) + rem && Framed(readbuf[..]) && readbuf[0] == h
              && readbuf[..len + rem] == Image(Packet(h, sck.input[old(sck.pos)..sck.pos]))
    ensures old(Prompt(sck.answers, 1)) && old(sck.pos) + rem <= |sck.input| ==> whole
  {
    hide Encoding, Splice, Framed;
    if old(Prompt(sck.answers, 1)) {
      PromptNext(sck.answers, 1);
    }
    ghost var before, from := readbuf[..], sck.pos;
    if rem > 0 {
      var r := sck.Get(readbuf, len, rem);
      if r != rem {
        return false;
      }
    }
    ghost var body := sck.input[from..sck.pos];
    SpliceAppends(before, [h] + Encoding(rem), body);
    if rem == 0 {
      assert readbuf[..len] == [h] + Encoding(rem) + body;
    }
    BufferIsFramed(readbuf[..], Packet(h, body));
    whole := true;
  }

  lemma BeginsParts(s: seq<Byte>, p: Packet, size: nat)
    requires Begins(s, p, size)
    ensures s != [] && s[0] == p.header && |p.body| < size <= |s|
    ensures Decoding(s[1..], 4) == Some(Field(|p.body|, size - 1 - |p.body|))
    ensures s[size - |p.body|..size] == p.body
    ensures |Image(p)| == 1 + |Encoding(|p.body|)| + |p.body|
  {
  }

  lemma BufferIsFramed(buf: seq<Byte>, p: Packet)
    requires |p.body| <= MAX_LENGTH && |Image(p)| <= |buf| && buf[..|Image(p)|] == Image(p)
    ensures Framed(buf) && buf[0] == p.header
  {
    hide Framed, Image, Decoding, Encoding;
    ImageIsFramed(p, buf[|Image(p)|..]);
    assert buf == Image(p) + buf[|Image(p)|..];
  }
}
