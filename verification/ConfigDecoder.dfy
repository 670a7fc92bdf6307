/** Reading a configuration request: the tokenizer's output is searched for the correlation id
    and walked six tokens at a time, one parameter after the other. */
module ConfigDecoder {
  import opened Bytes
  import opened JsmnSpec
  import opened JsmnInvariants
  import opened JsonTokens
  import opened Numbers
  import opened ConfigMessage
  import J = JsmnParser

  const MAX_PARAMS: nat := 5
  const MAX_TOKENS: nat := 36  // 5 + 6 * MAX_PARAMS + 1

  datatype Type = Unknown | Int32 | UInt32 | StringC | Float | Bin

  /** A parameter the application declares. */
  datatype Decl = Decl(name: string, kind: Type)

  /** One call of the application's callback. */
  datatype Call = Call(index: nat, data: Data)

  // ---------- Names and types ----------

  const TYPE_NAMES: seq<string> := ["unknown", "i32", "u32", "str", "f64", "bin"]
  const TYPES: seq<Type> := [Unknown, Int32, UInt32, StringC, Float, Bin]

  /** strncmp over |s| characters: an abbreviated type name matches. */
  predicate SameStart(d: string, s: string) {
    if |s| <= |d| then d[..|s|] == s else s[..|d|] == d && s[|d|] == NUL
  }

  function TypeFrom(s: string, i: nat): Type
    decreases 6 - i
  {
    if i >= 6 then Unknown
    else if SameStart(TYPE_NAMES[i], s) then TYPES[i]
    else TypeFrom(s, i + 1)
  }

  function TypeOf(s: string): Type {
    if 0 < |s| < 7 then TypeFrom(s, 1) else Unknown
  }

  function LookupFrom(cfg: seq<Decl>, name: string, i: nat): (r: Option<nat>)
    ensures r.Some? ==> r.value < |cfg| && cfg[r.value].name == name
    decreases |cfg| - i
  {
    if i >= |cfg| then None
    else if cfg[i].name == name then Some(i)
    else LookupFrom(cfg, name, i + 1)
  }

  /** The first declared parameter of that name. */
  function Lookup(cfg: seq<Decl>, name: string): (r: Option<nat>)
    ensures r.Some? ==> r.value < |cfg| && cfg[r.value].name == name
  {
    LookupFrom(cfg, name, 0)
  }

  // ---------- Meaning ----------

  /** A value of the declared type, if the token holds one. */
  function ReadData(js: string, t: Token, kind: Type): Option<Data>
    requires Spanned(t, |js|)
  {
    if kind == StringC then if t.kind == String then Some(Str(Span(js, t))) else None
    else if t.kind != Primitive then None
    else if kind == UInt32 then
      var v := ScanInt(js, t.start, false);
      if v.Some? then Some(U32(v.value % 0x1_0000_0000)) else None
    else if kind == Int32 then
      var v := ScanInt(js, t.start, true);
      if v.Some? then Some(I32(v.value)) else None
    else None
  }

  /** What one parameter leads to: a callback call, an entry in the table of updated parameters,
      and the text afterwards -- a string is terminated over its closing quote. */
  datatype One = One(call: Option<Call>, entry: Option<nat>, text: string)

  function ReadParam(js: string, name: Token, type_: Token, value: Token, cfg: seq<Decl>): (r: One)
    requires Spanned(name, |js|) && Spanned(type_, |js|) && Spanned(value, |js|)
    ensures |r.text| == |js|
  {
    var k := Lookup(cfg, Span(js, name));
    if k == None then One(None, None, js)
    else
      var kind := TypeOf(Span(js, type_));
      if kind == Unknown || kind != cfg[k.value].kind || (kind == StringC && value.kind != String)
      then One(None, None, js)
      else
        var d := ReadData(js, value, kind);
        One(if d.Some? then Some(Call(k.value, d.value)) else None, k,
            if kind == StringC then js[value.end := NUL] else js)
  }

  /** Six tokens that look like "name": {"t": type, "v": value}. */
  predicate ParamShape(js: string, toks: seq<Token>, idx: nat)
    requires idx + 6 <= |toks| && Spans(toks, |js|)
  {
    && toks[idx].kind == String
    && toks[idx + 1].kind == Object
    && Reads(js, toks[idx + 2], "t")
    && toks[idx + 3].kind == String
    && Reads(js, toks[idx + 4], "v")
    && toks[idx + 5].kind in {Primitive, String}
  }

  function Enter(table: seq<nat>, entry: Option<nat>): seq<nat> {
    if entry.Some? && |table| < MAX_PARAMS then table + [entry.value] else table
  }

  function Calls(c: Option<Call>): seq<Call> {
    if c.Some? then [c.value] else []
  }

  datatype Walk = Walk(rc: int, calls: seq<Call>, table: seq<nat>, text: string)

  /** `size` parameters from token idx on. */
  function ReadParams(js: string, toks: seq<Token>, idx: nat, size: nat, cfg: seq<Decl>, table: seq<nat>): (r: Walk)
    requires Spans(toks, |js|)
    ensures |r.text| == |js|
    decreases size
  {
    if size == 0 then Walk(0, [], table, js)
    else if idx + 6 > |toks| || !ParamShape(js, toks, idx) then Walk(-2, [], table, js)
    else
      var one := ReadParam(js, toks[idx], toks[idx + 3], toks[idx + 5], cfg);
      var r := ReadParams(one.text, toks, idx + 6, size - 1, cfg, Enter(table, one.entry));
      Walk(r.rc, Calls(one.call) + r.calls, r.table, r.text)
  }

  datatype Decoded = Decoded(rc: int, cid: int, calls: seq<Call>, table: seq<nat>, text: string)

  /** After tokenizing: an object, a correlation id, and first of all the key "cfg". */
  function DecodeTokens(js: string, toks: seq<Token>, cfg: seq<Decl>): (d: Decoded)
    requires Spans(toks, |js|) && |toks| >= 2
    ensures |d.text| == |js|
  {
    if toks[0].kind != Object || toks[0].size <= 0 || FindCid(js, toks, 1) == None then Decoded(-1, 0, [], [], js)
    else
      var cid := FindCid(js, toks, 1).value;
      if !Reads(js, toks[1], "cfg") || toks[1].size != 1
         || TokenAt(toks, 2).kind != Object || TokenAt(toks, 2).size < 0
      then Decoded(-1, cid, [], [], js)
      else
        var w := ReadParams(js, toks, 3, TokenAt(toks, 2).size, cfg, []);
        Decoded(w.rc, cid, w.calls, w.table, w.text)
  }

  /** The whole request. */
  function Decode(js: string, cfg: seq<Decl>): (d: Decoded)
    ensures |d.text| == |js|
  {
    var o := Run(js, MAX_TOKENS, INIT);
    if js == [] || Code(o) < 0 || Code(o) == 1 then Decoded(-1, 0, [], [], js)
    else
      ParsedSpans(js, MAX_TOKENS);
      if Code(o) == 0 then Decoded(0, 0, [], [], js) else DecodeTokens(js, o.st.toks, cfg)
  }

  // ---------- The code ----------

  /** What the application sees: the table of updated parameters, and the callback calls. */
  class Update {
    var cid: int
    var table: seq<nat>
    var calls: seq<Call>

    constructor ()
      ensures cid == 0 && table == [] && calls == []
    {
      cid, table, calls := 0, [], [];
    }
  }

  method DataTypeFromStr(s: string) returns (t: Type)
    ensures t == TypeOf(s)
  {
    if 0 < |s| < 7 {
      var i := 1;
      while i < 6
        invariant 1 <= i <= 6 && TypeFrom(s, 1) == TypeFrom(s, i)
      {
        if SameStart(TYPE_NAMES[i], s) {
          return TYPES[i];
        }
        i := i + 1;
      }
    }
    t := Unknown;
  }

  /** Terminates a string in place and hands it over, or scans a number and hands it over. */
  method UpdateCnfParam(payload: array<char>, token: Token, index: nat, kind: Type, upd: Update)
    requires Spanned(token, payload.Length) && kind in {Int32, UInt32, StringC}
    requires kind == StringC ==> token.kind == String
    modifies payload, upd`calls
    ensures var d := ReadData(old(payload[..]), token, kind);
            upd.calls == old(upd.calls) + if d.Some? then [Call(index, d.value)] else []
    ensures payload[..] == if kind == StringC then old(payload[..])[token.end := NUL] else old(payload[..])
  {
    assert upd.calls + [] == upd.calls;
    if kind == StringC {
      ghost var s := Span(payload[..], token);
      payload[token.end] := NUL;
      assert payload[token.start..token.end] == s;
      upd.calls := upd.calls + [Call(index, Str(payload[token.start..token.end]))];
    } else {
      if token.kind != Primitive {
        return;
      }
      if kind == UInt32 {
        var v := ScanInt(payload[..], token.start, false);
        if v.Some? {
          upd.calls := upd.calls + [Call(index, U32(v.value % 0x1_0000_0000))];
        }
      } else {
        var v := ScanInt(payload[..], token.start, true);
        if v.Some? {
          upd.calls := upd.calls + [Call(index, I32(v.value))];
        }
      }
    }
  }

  predicate Modelled(cfg: seq<Decl>) {
    forall i :: 0 <= i < |cfg| ==> cfg[i].kind in {Int32, UInt32, StringC}
  }

  /** The search for the declared parameter, and its update. */
  method OneParam(payload: array<char>, name: Token, type_: Token, value: Token, cfg: seq<Decl>, upd: Update)
    requires Spanned(name, payload.Length) && Spanned(type_, payload.Length) && Spanned(value, payload.Length)
    requires Modelled(cfg)
    modifies payload, upd
    ensures var one := ReadParam(old(payload[..]), name, type_, value, cfg);
            && payload[..] == one.text
            && upd.calls == old(upd.calls) + Calls(one.call)
            && upd.table == Enter(old(upd.table), one.entry)
    ensures upd.cid == old(upd.cid)
  {
    hide ReadData, TypeOf;
    assert upd.calls + [] == upd.calls;
    ghost var js := payload[..];
    var pc := payload[..][name.start..name.end];
    var i := 0;
    while i < |cfg|
      invariant 0 <= i <= |cfg| && Lookup(cfg, pc) == LookupFrom(cfg, pc, i)
      invariant payload[..] == js && upd.calls == old(upd.calls) && upd.table == old(upd.table)
      invariant upd.cid == old(upd.cid)
    {
      if cfg[i].name == pc {
        var kind := DataTypeFromStr(payload[..][type_.start..type_.end]);
        if kind != Unknown && kind == cfg[i].kind && !(kind == StringC && value.kind != String) {
          UpdateCnfParam(payload, value, i, kind, upd);
          if |upd.table| < MAX_PARAMS {
            upd.table := upd.table + [i];
          }
        }
        return;
      }
      i := i + 1;
    }
  }

  lemma ReadParamsStep(js: string, toks: seq<Token>, idx: nat, n: nat, cfg: seq<Decl>, table: seq<nat>)
    requires Spans(toks, |js|)
    ensures n == 0 ==> ReadParams(js, toks, idx, n, cfg, table) == Walk(0, [], table, js)
    ensures n > 0 && (idx + 6 > |toks| || !ParamShape(js, toks, idx)) ==>
              ReadParams(js, toks, idx, n, cfg, table) == Walk(-2, [], table, js)
    ensures n > 0 && idx + 6 <= |toks| && ParamShape(js, toks, idx) ==>
              && Spanned(toks[idx], |js|) && Spanned(toks[idx + 3], |js|) && Spanned(toks[idx + 5], |js|)
              && var one := ReadParam(js, toks[idx], toks[idx + 3], toks[idx + 5], cfg);
                 var r := ReadParams(one.text, toks, idx + 6, n - 1, cfg, Enter(table, one.entry));
              ReadParams(js, toks, idx, n, cfg, table) == Walk(r.rc, Calls(one.call) + r.calls, r.table, r.text)
  {
    hide ReadParam, ParamShape, Spanned;
  }

  /** The loop over the parameters. */
  method ParamLoop(payload: array<char>, tokens: array<Token>, tokenCnt: nat, size: nat, cfg: seq<Decl>, upd: Update)
    returns (rc: int)
    requires 3 <= tokenCnt <= MAX_TOKENS == tokens.Length && Spans(tokens[..tokenCnt], payload.Length)
    requires Modelled(cfg)
    modifies payload, upd
    ensures var w := ReadParams(old(payload[..]), old(tokens[..tokenCnt]), 3, size, cfg, old(upd.table));
            && rc == w.rc && payload[..] == w.text
            && upd.calls == old(upd.calls) + w.calls && upd.table == w.table
    ensures upd.cid == old(upd.cid)
  {
    hide ReadParam, ReadParams, ParamShape, Spanned, Spans, Modelled, Enter, Calls;
    ghost var toks := tokens[..tokenCnt];
    ghost var goal := ReadParams(payload[..], toks, 3, size, cfg, upd.table);
    ghost var done: seq<Call> := [];
    var idx, left, n := 3, tokenCnt - 3, size;
    assert done + goal.calls == goal.calls;
    while n > 0
      invariant idx + left == tokenCnt && upd.cid == old(upd.cid)
      invariant tokens[..tokenCnt] == toks
      invariant upd.calls == old(upd.calls) + done
      invariant var w := ReadParams(payload[..], toks, idx, n, cfg, upd.table);
                goal == Walk(w.rc, done + w.calls, w.table, w.text)
    {
      ReadParamsStep(payload[..], toks, idx, n, cfg, upd.table);
      assert done + [] == done;
      if left < 6 {
        return -2;
      }
      var good := ShapeOk(payload, tokens, tokenCnt, idx);
      if !good {
        return -2;
      }
      assert toks[idx] == tokens[idx] && toks[idx + 3] == tokens[idx + 3] && toks[idx + 5] == tokens[idx + 5];
      ghost var one := ReadParam(payload[..], toks[idx], toks[idx + 3], toks[idx + 5], cfg);
      ghost var w := ReadParams(one.text, toks, idx + 6, n - 1, cfg, Enter(upd.table, one.entry));
      assert done + (Calls(one.call) + w.calls) == done + Calls(one.call) + w.calls;
      assert old(upd.calls) + done + Calls(one.call) == old(upd.calls) + (done + Calls(one.call));
      OneParam(payload, tokens[idx], tokens[idx + 3], tokens[idx + 5], cfg, upd);
      done := done + Calls(one.call);
      n := n - 1;
      left := left - 6;
      idx := idx + 6;
    }
    ReadParamsStep(payload[..], toks, idx, n, cfg, upd.table);
    assert done + [] == done;
    rc := 0;
  }

  /** The checks on the kinds of the six tokens and on the two fixed keys. */
  method ShapeOk(payload: array<char>, tokens: array<Token>, tokenCnt: nat, idx: nat) returns (good: bool)
    requires idx + 6 <= tokenCnt <= tokens.Length && Spans(tokens[..tokenCnt], payload.Length)
    ensures good == ParamShape(payload[..], tokens[..tokenCnt], idx)
  {
    hide Reads, Spanned;
    ghost var toks := tokens[..tokenCnt];
    assert forall i :: idx <= i < idx + 6 ==> toks[i] == tokens[i];
    if tokens[idx].kind != String || tokens[idx + 1].kind != Object || tokens[idx + 2].kind != String
       || tokens[idx + 3].kind != String || tokens[idx + 4].kind != String
       || !(tokens[idx + 5].kind == Primitive || tokens[idx + 5].kind == String) {
      StringsRead(payload[..], toks[idx + 2], "t");
      StringsRead(payload[..], toks[idx + 4], "v");
      return false;
    }
    var ret := CheckToken(payload, tokens[idx + 2], "t");
    if ret <= 0 {
      return false;
    }
    ret := CheckToken(payload, tokens[idx + 4], "v");
    good := ret > 0;
  }

  /** Decodes a request in place. */
  method DecodeParamsReq(payload: array<char>, cfg: seq<Decl>, upd: Update) returns (rc: int)
    requires Modelled(cfg)
    modifies payload, upd
    ensures var d := Decode(old(payload[..]), cfg);
            && rc == d.rc && payload[..] == d.text
            && upd.cid == d.cid && upd.table == d.table && upd.calls == old(upd.calls) + d.calls
  {
    hide Run, Code, FindCid, ReadParams, Reads, Spanned;
    assert upd.calls + [] == upd.calls;
    ghost var js := payload[..];
    upd.cid, upd.table := 0, [];
    if payload.Length == 0 {
      return -1;
    }
    var tokens := new Token[MAX_TOKENS](_ => NO_TOKEN);
    var parser := new J.Parser();
    assert parser.Abs(tokens) == INIT;
    var tokenCnt := parser.Parse(payload[..], tokens);
    ghost var o := Run(js, MAX_TOKENS, INIT);
    assert tokenCnt == Code(o);
    if tokenCnt < 0 {
      return -1;
    }
    ParsedSpans(js, MAX_TOKENS);
    if tokenCnt == 0 {
      return 0;
    }
    if tokenCnt < 2 {
      return -1;
    }
    ghost var toks := o.st.toks;
    assert tokens[..tokenCnt] == toks;
    rc := DecodeLoaded(payload, tokens, tokenCnt, cfg, upd);
  }

  method DecodeLoaded(payload: array<char>, tokens: array<Token>, tokenCnt: nat, cfg: seq<Decl>, upd: Update)
    returns (rc: int)
    requires 2 <= tokenCnt <= MAX_TOKENS == tokens.Length && Loaded(tokens[..], tokenCnt) && Modelled(cfg)
    requires Spans(tokens[..tokenCnt], payload.Length) && LastChildless(tokens[..tokenCnt])
    requires upd.cid == 0 && upd.table == []
    modifies payload, upd
    ensures var d := DecodeTokens(old(payload[..]), old(tokens[..tokenCnt]), cfg);
            && rc == d.rc && payload[..] == d.text
            && upd.cid == d.cid && upd.table == d.table && upd.calls == old(upd.calls) + d.calls
  {
    hide FindCid, ReadParams, Reads, Spanned;
    assert upd.calls + [] == upd.calls;
    ghost var js, toks := payload[..], tokens[..tokenCnt];
    assert toks[0] == tokens[0] && toks[1] == tokens[1] && TokenAt(toks, 2) == tokens[2];
    if tokens[0].kind != Object || tokens[0].size <= 0 {
      return -1;
    }
    var ret, cid := CorrelationId(payload, tokens, tokenCnt);
    if ret != 0 {
      return -1;
    }
    upd.cid := cid;
    if tokens[1].kind != String || tokens[1].size != 1 || tokens[2].kind != Object || tokens[2].size < 0 {
      StringsRead(js, toks[1], "cfg");
      return -1;
    }
    ret := CheckToken(payload, tokens[1], "cfg");
    if ret <= 0 {
      return -1;
    }
    rc := ParamLoop(payload, tokens, tokenCnt, tokens[2].size, cfg, upd);
  }

  // ---------- Abbreviated type names ----------

  lemma {:induction false} TypeFromFinds(s: string, i: nat)
    requires 1 <= i <= 6
    ensures TypeFrom(s, i) != Unknown <==> exists k :: i <= k < 6 && SameStart(TYPE_NAMES[k], s)
    decreases 6 - i
  {
    hide SameStart;
    if i < 6 {
      TypeFromFinds(s, i + 1);
      if SameStart(TYPE_NAMES[i], s) {
        assert TYPES[i] != Unknown;
      }
    }
  }

  /** In a text without NUL, a type is recognized exactly if it is the beginning of a type name. */
  lemma TypeAcceptedExactlyIf(s: string)
    requires NUL !in s
    ensures TypeOf(s) != Unknown <==> s != [] && exists k :: 1 <= k < 6 && s <= TYPE_NAMES[k]
    ensures TypeOf(s) != Unknown ==> (s in TYPE_NAMES <==> |s| >= 3)
  {
    TypeFromFinds(s, 1);
    forall k | 1 <= k < 6
      ensures |TYPE_NAMES[k]| == 3
      ensures s != [] ==> (SameStart(TYPE_NAMES[k], s) <==> s <= TYPE_NAMES[k])
    {
      if |s| > 3 {
        assert s[3] in s;
      }
    }
    if TypeOf(s) != Unknown {
      var k :| 1 <= k < 6 && s <= TYPE_NAMES[k];
      if |s| >= 3 {
        assert s == TYPE_NAMES[k];
      } else {
        ShortIsNoName(s);
      }
    }
  }

  lemma ShortIsNoName(s: string)
    requires |s| < 3
    ensures s !in TYPE_NAMES
  {
    assert |TYPE_NAMES| == 6 && |TYPE_NAMES[0]| == 7;
    assert forall k :: 1 <= k < 6 ==> |TYPE_NAMES[k]| == 3;
  }

  /** One letter is taken for the first type name that begins with it. */
  lemma AbbreviationAccepted()
    ensures TypeOf("i") == Int32 && "i" !in TYPE_NAMES
  {
    assert TYPE_NAMES[1][..1] == "i";
    assert SameStart(TYPE_NAMES[1], "i");
    ShortIsNoName("i");
  }

  /** The five names, and two that are none. */
  lemma NamedTypes()
    ensures TypeOf("i32") == Int32 && TypeOf("u32") == UInt32 && TypeOf("str") == StringC
    ensures TypeOf("f64") == Float && TypeOf("bin") == Bin
    ensures TypeOf("") == Unknown && TypeOf("unknown") == Unknown
  {
    forall k | 1 <= k < 6
      ensures TYPE_NAMES[k][..3] == TYPE_NAMES[k]
    {
    }
  }

  /** Whatever value is handed over is of the declared type and within its range; a string token gives
      nothing for a number, and nothing else gives a string. */
  lemma ValueHasType(js: string, t: Token, kind: Type)
    requires Spanned(t, |js|)
    ensures match ReadData(js, t, kind)
            case None => kind == StringC ==> t.kind != String
            case Some(Str(s)) => kind == StringC && t.kind == String && s == js[t.start..t.end]
            case Some(U32(v)) =>
              kind == UInt32 && t.kind == Primitive && v == ScanInt(js, t.start, false).value % 0x1_0000_0000
            case Some(I32(v)) => kind == Int32 && t.kind == Primitive && Some(v) == ScanInt(js, t.start, true)
  {
    hide ScanInt;
  }

  // ---------- What is refused ----------

  /** Six tokens of the kinds a parameter has. */
  predicate ParamKinds(toks: seq<Token>, idx: nat) {
    && idx + 6 <= |toks|
    && toks[idx].kind == String && toks[idx + 1].kind == Object && toks[idx + 2].kind == String
    && toks[idx + 3].kind == String && toks[idx + 4].kind == String && toks[idx + 5].kind in {Primitive, String}
  }

  /** The walk ends with 0 or -2, with 0 only over well-formed parameters, and with at most five entries. */
  lemma {:induction false} WalkMeans(js: string, toks: seq<Token>, idx: nat, n: nat, cfg: seq<Decl>, table: seq<nat>)
    requires Spans(toks, |js|) && |table| <= 5
    ensures var w := ReadParams(js, toks, idx, n, cfg, table);
            && (w.rc == 0 || w.rc == -2) && |w.table| <= 5
            && (w.rc == 0 ==> forall k :: 0 <= k < n ==> ParamKinds(toks, idx + 6 * k))
    decreases n
  {
    hide ReadParams, ReadParam, Spans, Spanned, Reads;
    ReadParamsStep(js, toks, idx, n, cfg, table);
    if n > 0 && idx + 6 <= |toks| && ParamShape(js, toks, idx) {
      var one := ReadParam(js, toks[idx], toks[idx + 3], toks[idx + 5], cfg);
      WalkMeans(one.text, toks, idx + 6, n - 1, cfg, Enter(table, one.entry));
      ShapeKinds(js, toks, idx);
      var w := ReadParams(js, toks, idx, n, cfg, table);
      if w.rc == 0 {
        forall k | 0 <= k < n
          ensures ParamKinds(toks, idx + 6 * k)
        {
          assert k > 0 ==> idx + 6 * k == idx + 6 + 6 * (k - 1);
          assert k > 0 ==> ParamKinds(toks, idx + 6 + 6 * (k - 1));
        }
      }
    }
  }

  lemma ShapeKinds(js: string, toks: seq<Token>, idx: nat)
    requires idx + 6 <= |toks| && Spans(toks, |js|) && ParamShape(js, toks, idx)
    ensures ParamKinds(toks, idx)
  {
  }

  /** A request is accepted without effect if it is blank.  Otherwise it is accepted only if it is an object
      that begins with "cfg" and its one object, holds a correlation id, and every parameter has the six
      tokens it needs; at most five are entered. */
  lemma AcceptedMeans(js: string, cfg: seq<Decl>)
    ensures Decode(js, cfg).rc in {0, -1, -2} && |Decode(js, cfg).table| <= 5
    ensures js != [] && Code(Run(js, MAX_TOKENS, INIT)) == 0 ==> Decode(js, cfg) == Decoded(0, 0, [], [], js)
    ensures Decode(js, cfg).rc == 0 && Code(Run(js, MAX_TOKENS, INIT)) != 0 ==>
              var toks := Run(js, MAX_TOKENS, INIT).st.toks;
              && 3 <= |toks| <= 36
              && toks[0].kind == Object && toks[0].size > 0
              && toks[1].kind == String && toks[1].size == 1 && toks[2].kind == Object
              && forall k :: 0 <= k < toks[2].size ==> ParamKinds(toks, 3 + 6 * k)
    ensures Decode(js, cfg).rc == 0 && Code(Run(js, MAX_TOKENS, INIT)) != 0 ==>
              var toks := Run(js, MAX_TOKENS, INIT).st.toks;
              Spans(toks, |js|) && Reads(js, toks[1], "cfg") && FindCid(js, toks, 1) == Some(Decode(js, cfg).cid)
  {
    hide Run, ReadParams, FindCid, Spans, Reads, ParamKinds;
    var o := Run(js, MAX_TOKENS, INIT);
    if js != [] && Code(o) > 1 {
      ParsedSpans(js, MAX_TOKENS);
      var toks := o.st.toks;
      if TokenAt(toks, 2).size >= 0 {
        WalkMeans(js, toks, 3, TokenAt(toks, 2).size, cfg, []);
      }
      ReadsString(js, toks, "cfg");
    }
  }

  lemma ReadsString(js: string, toks: seq<Token>, name: string)
    requires Spans(toks, |js|) && |toks| >= 2
    ensures Reads(js, toks[1], name) ==> toks[1].kind == String
  {
  }
}
