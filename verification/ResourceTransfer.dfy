/** The download as it is written: one record updated in place by the request handler, the
    main cycle and the user's own calls for data.  Each method is proved to take the step
    that TransferSpec describes; the ghost `trace` collects what the user gets to see. */
module ResourceTransfer {
  import opened Bytes
  import opened JsmnSpec
  import opened JsmnInvariants
  import opened JsonTokens
  import opened Md5Spec
  import opened Numbers
  import opened TransferSpec
  import J = JsmnParser
  import R = ResourceRequest
  import Md5Stream

  class Downloader {
    var cid: int
    var obj: Option<Obj>
    var size: nat
    var md5: Md5Value
    var offset: nat
    var connected: bool
    const context: Md5Stream.Context
    ghost var trace: seq<Event>

    ghost function Abs(): Rsc
      reads this, context
    {
      Rsc(cid, obj, size, md5, offset, connected, if connected then context.msg else [])
    }

    ghost predicate Valid()
      reads this, context, context.buffer
    {
      && context.buffer.Length == 64
      && (connected ==> context.Valid())
      && Honest(trace)
      && Agrees(Abs(), Current(trace))
    }

    constructor ()
      ensures Valid() && trace == [] && fresh(context) && fresh(context.buffer)
    {
      hide Digest, Md5Stream.Context.Valid;
      context := new Md5Stream.Context();
      cid, obj, size, md5, offset, connected := 0, None, 0, Zeros(16), 0, false;
      trace := [];
    }

    /** Called from the data callback only.  Returns the number of bytes handed over, -33 for a resource
        that is not being transferred. */
    method GetResources(r: Read) returns (ret: int)
      requires context.buffer.Length == 64 && connected && context.Valid()
      modifies this`offset, this`trace, context, context.buffer
      ensures context.Valid()
      ensures Abs() == TransferSpec.GetResources(old(Abs()), r).0
      ensures trace == old(trace) + TransferSpec.GetResources(old(Abs()), r).1
      ensures ret == if cid != 0 && obj == Some(r.obj) then |context.msg| - |old(context.msg)| else -33
    {
      hide Digest, Md5Stream.Context.Valid, Honest, Current, Agrees;
      ret := -33;
      if cid != 0 && obj == Some(r.obj) {
        ret := |r.data|;
        if ret > 0 {
          context.Update(r.data);
          offset := (offset + ret) % 0x1_0000_0000;
          trace := trace + [Data(r.obj, r.data)];
        }
      }
    }

    /** The user's callback: any calls of GetResources. */
    method Callback(fetches: seq<Read>)
      requires context.buffer.Length == 64 && connected && context.Valid()
      modifies this`offset, this`trace, context, context.buffer
      ensures context.Valid()
      ensures Abs() == Fetch(old(Abs()), fetches).0
      ensures trace == old(trace) + Fetch(old(Abs()), fetches).1
    {
      hide Digest, Md5Stream.Context.Valid, Honest, Current;
      var i := 0;
      assert fetches[..0] == [];
      while i < |fetches|
        invariant 0 <= i <= |fetches|
        invariant context.Valid()
        invariant Abs() == Fetch(old(Abs()), fetches[..i]).0
        invariant trace == old(trace) + Fetch(old(Abs()), fetches[..i]).1
      {
        var ret := GetResources(fetches[i]);
        assert fetches[..i + 1][..i] == fetches[..i];
        i := i + 1;
      }
      assert fetches[..i] == fetches;
    }

    /** The byte-by-byte comparison of the computed digest with the announced one. */
    method DigestMatches() returns (same: bool)
      requires context.Valid()
      modifies context, context.buffer
      ensures same <==> Digest(old(context.msg)) == md5
    {
      hide Digest, Md5Stream.Context.Valid;
      var computed := new bv8[16];
      context.Final(computed);
      var i := 0;
      while i < 16
        invariant 0 <= i <= 16
        invariant computed[..i] == md5[..i]
        invariant computed[..] == Digest(old(context.msg))
      {
        if computed[i] != md5[i] {
          assert computed[..][i] != md5[i];
          break;
        }
        i := i + 1;
      }
      assert i == 16 ==> computed[..] == computed[..16] && md5 == md5[..16];
      same := i == 16;
    }

    /** One cycle of the download. */
    method ProcessGetRsc(c: Cycle)
      requires Valid()
      modifies this, context, context.buffer
      ensures Valid()
      ensures Abs() == Process(old(Abs()), c).0
      ensures trace == old(trace) + Process(old(Abs()), c).1
    {
      hide Digest, Md5Stream.Context.Valid, Honest, Current, Fetch;
      ProcessHonest(Abs(), c, trace);
      var rc := 0;
      ghost var goal := trace + Process(Abs(), c).1;
      if cid != 0 && obj.Some? {
        if c.hasDataCb {
          if connected {
            FetchHonest(Abs(), c.fetches, trace);
            Callback(c.fetches);
            rc := c.cbRc;
            if rc < 0 {
              rc := -34;
            } else if rc == 0 {
              rc := -50;
            }
            if offset == size {
              var same := DigestMatches();
              if c.hasNtfy {
                trace := trace + [Complete(if same then 1 else 2, cid, obj.value)];
              }
              rc := -34;
            }
          } else {
            rc := c.startRc;
            if rc == 0 {
              connected := true;
              if offset == 0 {
                context.Init();
              }
            }
          }
        }
        if rc < 0 {
          cid, obj, connected := 0, None, false;
          trace := trace + [End];
        }
      }
      assert trace == goal;
    }

    /** The search for the resource: the first unknown name ends it, unless one was found before. */
    method FindResource(payload: array<char>, tokens: array<Token>, tokenCnt: nat, names: seq<string>)
      returns (bad: bool, idx: nat)
      requires 1 <= tokenCnt <= tokens.Length && Spans(tokens[..tokenCnt], payload.Length) && obj == None
      modifies this`obj
      ensures R.Search(bad, obj, idx) == R.FindResource(payload[..], tokens[..tokenCnt], 0, names, None)
    {
      hide Reads, Spanned;
      ghost var js, toks := payload[..], tokens[..tokenCnt];
      ghost var goal := R.FindResource(js, toks, 0, names, None);
      idx := 0;
      while idx + 1 < tokenCnt
        invariant idx <= tokenCnt
        invariant goal == R.FindResource(js, toks, idx, names, obj)
        decreases tokenCnt - idx
      {
        assert toks[idx] == tokens[idx] && toks[idx + 1] == tokens[idx + 1];
        var isId := CheckToken(payload, tokens[idx], "id");
        if isId == 1 && tokens[idx].size == 1 {
          idx := idx + 1;
          var t := tokens[idx];
          if t.kind != String || t.size != 0 {
            return true, idx;
          }
          var found := ResourceIndex(names, SpanText(payload, t));
          if found != None {
            obj := found;
          }
          if obj == None {
            return false, idx;
          }
        }
        idx := idx + 1;
      }
      bad := false;
    }

    /** One member of "m"; `ok` is false where the decoder returns. */
    method MetaField(payload: array<char>, k: Token, v: Token) returns (ok: bool)
      requires Spanned(k, payload.Length) && Spanned(v, payload.Length)
      modifies this`size, this`md5
      ensures R.Fields(if ok then 0 else R.INTERNAL_ERROR, size, md5)
              == R.MetaField(payload[..], k, v, R.Fields(0, old(size), old(md5)))
    {
      if k.kind != String || k.size != 1 || v.kind != String || v.size != 0 {
        return false;
      }
      var key := SpanText(payload, k);
      if key == "size" {
        var n := ScanU32(payload[..], v.start);
        if n == None {
          return false;
        }
        size := n.value;
      } else if key == "md5" {
        if v.end - v.start == 32 {
          md5 := Md5FromString(SpanText(payload, v));
        }
      }
      ok := true;
    }

    /** The loop over "m"; it is not bounded by the token count, but a key always has a successor. */
    method MetaLoop(payload: array<char>, tokens: array<Token>, tokenCnt: nat, from: nat, members: nat)
      returns (ok: bool)
      requires TokensOk(payload, tokens, tokenCnt) && from % 2 == 1 && from <= tokenCnt
      modifies this`size, this`md5
      ensures R.Fields(if ok then 0 else R.INTERNAL_ERROR, size, md5)
              == R.ReadMeta(payload[..], tokens[..tokenCnt], from, members, R.Fields(0, old(size), old(md5)))
      ensures ok ==> from + 2 * members <= tokenCnt
    {
      hide R.MetaField, R.ReadMeta, Spans, Spanned;
      ghost var js, toks := payload[..], tokens[..tokenCnt];
      ghost var goal := R.ReadMeta(js, toks, from, members, R.Fields(0, size, md5));
      var idx, ms := from, members;
      while ms > 0
        invariant idx % 2 == 1 && idx <= tokenCnt && idx + 2 * ms == from + 2 * members
        invariant goal == R.ReadMeta(js, toks, idx, ms, R.Fields(0, size, md5))
      {
        R.ReadMetaStep(js, toks, idx, ms, R.Fields(0, size, md5));
        KeyHasNext(payload, tokens, tokenCnt, idx);
        if tokens[idx].kind != String || tokens[idx].size != 1 {
          MetaNeedsKey(js, TokenAt(toks, idx), TokenAt(toks, idx + 1), R.Fields(0, size, md5));
          return false;
        }
        var good := MetaField(payload, tokens[idx], tokens[idx + 1]);
        if !good {
          return false;
        }
        ms := ms - 1;
        idx := idx + 2;
      }
      R.ReadMetaStep(js, toks, idx, ms, R.Fields(0, size, md5));
      ok := true;
    }

    /** The loop over the fields of the request. */
    method FieldLoop(payload: array<char>, tokens: array<Token>, tokenCnt: nat) returns (ok: bool)
      requires TokensOk(payload, tokens, tokenCnt) && tokenCnt > 0 && tokens[0].size > 0
      modifies this`size, this`md5
      ensures R.Fields(if ok then 0 else R.INTERNAL_ERROR, size, md5)
              == R.ReadFields(payload[..], tokens[..tokenCnt], 1, tokenCnt, tokens[0].size,
                              R.Fields(0, old(size), old(md5)))
    {
      hide R.ReadMeta, R.ReadFields, Spans, Spanned;
      ghost var js, toks := payload[..], tokens[..tokenCnt];
      ghost var goal := R.ReadFields(js, toks, 1, tokenCnt, tokens[0].size, R.Fields(0, size, md5));
      var idx: nat, cnt: int, n := 1, tokenCnt, tokens[0].size;
      while n > 0 && cnt > 0
        invariant idx % 2 == 1 && cnt == tokenCnt - idx + 1 && n >= 0 && cnt >= 0
        invariant goal == R.ReadFields(js, toks, idx, cnt, n, R.Fields(0, size, md5))
      {
        R.ReadFieldsStep(js, toks, idx, cnt, n, R.Fields(0, size, md5));
        KeyHasNext(payload, tokens, tokenCnt, idx);
        if tokens[idx].kind != String || tokens[idx].size != 1 {
          return false;
        }
        n := n - 1;
        var key, v := SpanText(payload, tokens[idx]), tokens[idx + 1];
        if key == "m" {
          if v.kind != Object || v.size < 3 {
            return false;
          }
          var good := MetaLoop(payload, tokens, tokenCnt, idx + 2, v.size);
          if !good {
            return false;
          }
          idx, cnt := idx + 2 + 2 * v.size, cnt - 2 - 2 * v.size;
        } else {
          if v.size != 0 || (v.kind != String && v.kind != Primitive) {
            return false;
          }
          idx, cnt := idx + 2, cnt - 2;
        }
      }
      R.ReadFieldsStep(js, toks, idx, cnt, n, R.Fields(0, size, md5));
      ok := true;
    }

    /** From the busy guard on: the record is cleared and filled field by field, whatever happens
        later, and the user may still refuse. */
    method Fill(payload: array<char>, tokens: array<Token>, tokenCnt: nat, newCid: int, names: seq<string>,
                hasNtfy: bool, answer: nat)
      returns (code: nat)
      requires Valid() && TokensOk(payload, tokens, tokenCnt) && tokenCnt > 0
      requires tokens[0].kind == Object && tokens[0].size > 0
      requires FindCid(payload[..], tokens[..tokenCnt], 1) == Some(newCid)
      modifies this
      ensures var r := R.DecodeTokens(payload[..], tokens[..tokenCnt], names, hasNtfy, answer);
              && Valid() && Abs() == Handle(old(Abs()), r).0
              && trace == old(trace) + Handle(old(Abs()), r).1 && code == Handle(old(Abs()), r).2
    {
      hide Digest, Md5Stream.Context.Valid, Honest, Current, FindCid, R.FindResource, R.ReadFields, Spans, Spanned;
      ghost var r := R.DecodeTokens(payload[..], tokens[..tokenCnt], names, hasNtfy, answer);
      HandleHonest(Abs(), r, trace);
      assert tokens[..tokenCnt][0] == tokens[0] && trace + [] == trace;
      if cid != 0 {
        return NOT_AUTHORIZED;
      }
      cid, obj, size, md5, offset, connected := newCid, None, 0, Zeros(16), 0, false;
      var bad, idx := FindResource(payload, tokens, tokenCnt, names);
      code := 0;
      if bad {
        code := R.INTERNAL_ERROR;
      } else if obj == None && idx == tokenCnt {
        code := R.INVALID_RESOURCE;
      } else {
        var ok := FieldLoop(payload, tokens, tokenCnt);
        if !ok {
          code := R.INTERNAL_ERROR;
        } else if hasNtfy && answer != 0 {
          cid, obj := 0, None;
          return answer;
        }
      }
      if cid != 0 && obj.Some? {
        trace := trace + [Begin(cid, obj.value, size, md5)];
      }
    }

    /** A message with a resource request; `outCid` is the id the answer is published under. */
    method HandleMessage(payload: array<char>, names: seq<string>, hasNtfy: bool, answer: nat)
      returns (code: nat, outCid: int)
      requires Valid()
      modifies this
      ensures var r := R.DecodeRequest(payload[..], names, hasNtfy, answer);
              && Valid() && Abs() == Handle(old(Abs()), r).0
              && trace == old(trace) + Handle(old(Abs()), r).1 && code == Handle(old(Abs()), r).2
              && outCid == if r.Decoded? then r.cid else 0
    {
      hide Digest, Md5Stream.Context.Valid, Honest, Current, Agrees, JsmnSpec.Run, Code, FindCid,
           R.FindResource, R.ReadFields, Spanned;
      code, outCid := R.INTERNAL_ERROR, 0;
      assert trace + [] == trace;
      if payload.Length == 0 {
        return;
      }
      ghost var js := payload[..];
      var tokens := new Token[R.MAX_TOKENS](_ => NO_TOKEN);
      var parser := new J.Parser();
      assert parser.Abs(tokens) == INIT;
      var tokenCnt := parser.Parse(payload[..], tokens);
      ghost var o := JsmnSpec.Run(js, R.MAX_TOKENS, INIT);
      if tokenCnt < 0 {
        return;
      }
      ParsedSpans(js, R.MAX_TOKENS);
      if tokenCnt == 0 {
        return 0, 0;
      }
      assert tokens[..tokenCnt] == o.st.toks;
      assert tokens[..tokenCnt][0] == tokens[0];
      if tokens[0].kind != Object || tokens[0].size <= 0 {
        return;
      }
      var ret, found := CorrelationId(payload, tokens, tokenCnt);
      if ret != 0 {
        return;
      }
      outCid := found;
      code := Fill(payload, tokens, tokenCnt, found, names, hasNtfy, answer);
    }
  }

  /** Tokens of this payload in a cleared array of 20. */
  predicate TokensOk(payload: array<char>, tokens: array<Token>, tokenCnt: nat)
    reads tokens
  {
    && tokens.Length == R.MAX_TOKENS && Loaded(tokens[..], tokenCnt)
    && Spans(tokens[..tokenCnt], payload.Length) && LastChildless(tokens[..tokenCnt])
  }

  /** Whoever reads a key at an odd index may read the token behind it. */
  lemma KeyHasNext(payload: array<char>, tokens: array<Token>, tokenCnt: nat, idx: nat)
    requires TokensOk(payload, tokens, tokenCnt) && idx % 2 == 1 && idx <= tokenCnt
    ensures idx < tokens.Length && tokens[idx] == TokenAt(tokens[..tokenCnt], idx)
    ensures Spanned(tokens[idx], payload.Length)
    ensures tokens[idx].size == 1 ==>
              && idx + 2 <= tokenCnt && tokens[idx + 1] == TokenAt(tokens[..tokenCnt], idx + 1)
              && Spanned(tokens[idx + 1], payload.Length)
  {
    ghost var toks := tokens[..tokenCnt];
    R.SpannedAt(toks, idx, payload.Length);
    R.SpannedAt(toks, idx + 1, payload.Length);
  }

  lemma MetaNeedsKey(js: string, k: Token, v: Token, f: R.Fields)
    requires Spanned(k, |js|) && Spanned(v, |js|) && (k.kind != String || k.size != 1)
    ensures R.MetaField(js, k, v, f) == f.(code := R.INTERNAL_ERROR)
  {
  }

  function SpanText(payload: array<char>, t: Token): (r: string)
    requires Spanned(t, payload.Length)
    reads payload
    ensures r == Span(payload[..], t)
  {
    assert payload[t.start..t.end] == payload[..][t.start..t.end];
    payload[t.start..t.end]
  }

  method ResourceIndex(names: seq<string>, name: string) returns (found: Option<nat>)
    ensures found == R.ResourceFrom(names, name, 0)
  {
    var jw := 0;
    while jw < |names|
      invariant 0 <= jw <= |names| && R.ResourceFrom(names, name, 0) == R.ResourceFrom(names, name, jw)
    {
      if names[jw] == name {
        return Some(jw);
      }
      jw := jw + 1;
    }
    found := None;
  }

  /** Two digits a byte; a character that is no digit ends it and leaves the rest zero. */
  method Md5FromString(s: string) returns (buf: Md5Value)
    requires |s| == 32
    ensures buf == R.HexInto(Zeros(16), s, 0)
  {
    hide R.PutDigit, R.Nibble;
    buf := Zeros(16);
    var i := 0;
    while i < 32
      invariant 0 <= i <= 32 && R.HexInto(Zeros(16), s, 0) == R.HexInto(buf, s, i)
    {
      var j := R.Nibble(s[i]);
      if j == None {
        return;
      }
      buf := R.PutDigit(buf, i, j.value);
      i := i + 1;
    }
  }
}
