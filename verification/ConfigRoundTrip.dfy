/** What the encoder prints, the tokenizer and the decoder read back: the same correlation id and
    the same parameters in the same order -- unless one of them is called "cid", or there
    are more than five. */
module ConfigRoundTrip {
  import opened Bytes
  import opened Slices
  import opened JsmnSpec
  import opened JsonShapes
  import opened JsonTokens
  import opened JsonTree
  import opened Numbers
  import opened ConfigMessage
  import opened ConfigDecoder
  import JsonBuffer

  function KindOf(d: Data): Type {
    match d
    case I32(_) => Int32
    case U32(_) => UInt32
    case Str(_) => StringC
  }

  lemma StartsTell(d: string, s: string)
    requires |d| == |s| == 3
    ensures d[0] != s[0] ==> !SameStart(d, s)
    ensures d == s ==> SameStart(d, s)
  {
    assert d[..3] == d;
  }

  lemma TypeNameBack(d: Data)
    ensures TypeOf(TypeName(d)) == KindOf(d)
  {
    hide SameStart;
    var s := TypeName(d);
    StartsTell("i32", s);
    StartsTell("u32", s);
    StartsTell("str", s);
    assert TypeFrom(s, 1) == if SameStart("i32", s) then Int32 else TypeFrom(s, 2);
    assert TypeFrom(s, 2) == if SameStart("u32", s) then UInt32 else TypeFrom(s, 3);
    assert TypeFrom(s, 3) == if SameStart("str", s) then StringC else TypeFrom(s, 4);
  }

  // ---------- The tokens of the document ----------

  /** Where the object of parameter p begins, if its member begins at `at`. */
  function ObjectAt(p: Param, at: nat): nat {
    at + |p.name| + 3
  }

  function Next(p: Param, at: nat): nat {
    ObjectAt(p, at) + |Print(ParamTree(p.data))| + 1
  }

  function ValueToken(d: Data, at: nat): Token {
    if d.Str? then Token(String, at + 1, at + 1 + |d.text|, 0)
    else Token(Primitive, at, at + |Signed(d.value)|, 0)
  }

  /** The six tokens of a parameter. */
  function SixTokens(p: Param, at: nat): (r: seq<Token>)
    ensures |r| == 6
  {
    var q := ObjectAt(p, at);
    [Token(String, at + 1, at + 1 + |p.name|, 1),
     Token(Object, q, q + |Print(ParamTree(p.data))|, 2),
     Token(String, q + 2, q + 3, 1),
     Token(String, q + 6, q + 9, 0),
     Token(String, q + 12, q + 13, 1),
     ValueToken(p.data, q + 15)]
  }

  lemma LeafTokens(d: Data, at: nat)
    ensures Tokens(ValueTree(d), at) == [ValueToken(d, at)]
    ensures Tokens(Text(TypeName(d)), at) == [Token(String, at + 1, at + 4, 0)]
    ensures |Print(Text(TypeName(d)))| == 5
  {
    hide Signed;
  }

  lemma TreeTokens(d: Data, q: nat)
    ensures Tokens(ParamTree(d), q)
            == [Token(Object, q, q + |Print(ParamTree(d))|, 2), Token(String, q + 2, q + 3, 1),
                Token(String, q + 6, q + 9, 0), Token(String, q + 12, q + 13, 1), ValueToken(d, q + 15)]
  {
    hide Print, PrintMembers, Tokens, MemberTokens, Width, ValueToken, Pair, ValueTree, TypeName;
    var v := ValueTree(d);
    var inner := Pair("v", v, NoMembers);
    var members := Pair("t", Text(TypeName(d)), inner);
    DictTokens(members, q);
    DictShape(members);
    PairTokens("t", Text(TypeName(d)), inner, q + 1);
    PairTokens("v", v, NoMembers, q + 11);
    PairWidth("t", Text(TypeName(d)), inner);
    PairWidth("v", v, NoMembers);
    NoWidth();
    LeafTokens(d, q + 5);
    LeafTokens(d, q + 15);
    NoMoreTokens(q + 15 + |Print(v)| + 1);
  }

  lemma ParamTokens(ps: seq<Param>, at: nat)
    requires ps != []
    ensures MemberTokens(ParamMembers(ps), at) == SixTokens(ps[0], at) + MemberTokens(ParamMembers(ps[1..]), Next(ps[0], at))
  {
    hide Print, Tokens, MemberTokens, ParamTree, ValueToken;
    var p := ps[0];
    PairTokens(p.name, ParamTree(p.data), ParamMembers(ps[1..]), at);
    TreeTokens(p.data, ObjectAt(p, at));
  }

  lemma {:induction false} ParamCount(ps: seq<Param>, at: nat)
    ensures |MemberTokens(ParamMembers(ps), at)| == 6 * |ps|
    ensures Width(ParamMembers(ps)) == |ps|
    decreases |ps|
  {
    hide SixTokens, Next;
    if ps != [] {
      ParamTokens(ps, at);
      ParamCount(ps[1..], Next(ps[0], at));
    }
  }

  // ---------- The text of one parameter ----------

  lemma TreePrints(d: Data)
    ensures Print(ParamTree(d)) == "{\"t\":" + Quoted(TypeName(d)) + ",\"v\":" + Print(ValueTree(d)) + "}"
  {
    hide Print, Quoted;
    DataIsTree(d);
    LeafPrints(d);
    var whole := "{\"t\":" + Quoted(TypeName(d)) + ",\"v\":" + Print(ValueTree(d)) + "}";
    assert "{" + DataPiece(d) == whole + ",";
    SameFront(Print(ParamTree(d)), whole);
  }

  lemma SameFront(a: string, b: string)
    requires a + "," == b + ","
    ensures a == b
  {
    assert |a| == |b|;
    assert a == (a + ",")[..|a|] == (b + ",")[..|b|] == b;
  }

  /** The stretches of a printed parameter that the decoder looks at. */
  predicate ParamText(js: string, p: Param, at: nat) {
    var q := ObjectAt(p, at);
    && At(js, at + 1, p.name)
    && At(js, q + 2, "t")
    && At(js, q + 6, TypeName(p.data))
    && At(js, q + 12, "v")
    && At(js, q + 15, Print(ValueTree(p.data)))
    && At(js, q + 15 + |Print(ValueTree(p.data))|, "}")
    && Next(p, at) == q + 15 + |Print(ValueTree(p.data))| + 2
  }

  lemma ParamTextIs(js: string, p: Param, at: nat)
    requires At(js, at + 1, p.name) && At(js, ObjectAt(p, at), Print(ParamTree(p.data)))
    ensures ParamText(js, p, at)
  {
    hide At, Print, ParamTree, TypeName, ValueTree;
    TreeParts(js, p.data, ObjectAt(p, at));
  }

  lemma ParamMembersStep(ps: seq<Param>)
    requires ps != []
    ensures ParamMembers(ps) == Pair(ps[0].name, ParamTree(ps[0].data), ParamMembers(ps[1..]))
    ensures ParamMembers(ps).Member?
  {
  }

  lemma ParamParts(js: string, ps: seq<Param>, at: nat)
    requires ps != [] && At(js, at, PrintMembers(ParamMembers(ps)))
    ensures ParamText(js, ps[0], at)
    ensures |ps| > 1 ==> At(js, Next(ps[0], at), PrintMembers(ParamMembers(ps[1..])))
  {
    hide At, Print, PrintMembers, Pair, ParamTree, ParamText, ParamMembers;
    ParamMembersStep(ps);
    MemberText(js, ps[0].name, ParamTree(ps[0].data), ParamMembers(ps[1..]), at);
    ParamTextIs(js, ps[0], at);
    if |ps| > 1 {
      ParamMembersStep(ps[1..]);
    }
  }

  lemma TreeParts(js: string, d: Data, q: nat)
    requires At(js, q, Print(ParamTree(d)))
    ensures At(js, q + 2, "t") && At(js, q + 6, TypeName(d)) && At(js, q + 12, "v")
    ensures At(js, q + 15, Print(ValueTree(d))) && At(js, q + 15 + |Print(ValueTree(d))|, "}")
    ensures |Print(ParamTree(d))| == 16 + |Print(ValueTree(d))|
  {
    hide At, Print, ParamTree, TypeName, Quoted;
    TreePrints(d);
    var t := Quoted(TypeName(d));
    QuotedLength(TypeName(d));
    TypeNameLength(d);
    AtSplit5(js, q, "{\"t\":", t, ",\"v\":", Print(ValueTree(d)), "}");
    QuotedAt(js, q + 5, TypeName(d));
    Middle(js, q, "{\"t\":", 2, 3);
    Middle(js, q + 10, ",\"v\":", 2, 3);
    assert "{\"t\":"[2..3] == "t" && ",\"v\":"[2..3] == "v";
  }

  lemma TypeNameLength(d: Data)
    ensures |TypeName(d)| == 3
  {
  }

  // ---------- One parameter ----------

  function Expected(p: Param, cfg: seq<Decl>): (r: Option<Call>)
    ensures r.Some? ==> r.value.index < |cfg|
  {
    var k := Lookup(cfg, p.name);
    if k.Some? && cfg[k.value].kind == KindOf(p.data) then Some(Call(k.value, p.data)) else None
  }

  function ExpectedEntry(p: Param, cfg: seq<Decl>): Option<nat> {
    if Expected(p, cfg).Some? then Some(Expected(p, cfg).value.index) else None
  }

  lemma ReadDataBack(js: string, p: Param, at: nat)
    requires Plain(p) && ParamText(js, p, at) && Spanned(ValueToken(p.data, ObjectAt(p, at) + 15), |js|)
    ensures ReadData(js, ValueToken(p.data, ObjectAt(p, at) + 15), KindOf(p.data)) == Some(p.data)
  {
    hide At, Signed, ScanInt;
    var d, at' := p.data, ObjectAt(p, at) + 15;
    if d.Str? {
      QuotedAt(js, at', d.text);
      SpanIs(js, ValueToken(d, at'), d.text);
    } else {
      AtIndex(js, at' + |Signed(d.value)|, "}", 0);
      ScanBack(js, at', d.value, true);
      ScanBack(js, at', d.value, false);
    }
  }

  /** The text after a parameter is untouched by its reading. */
  lemma ReadParamBack(js: string, toks: seq<Token>, idx: nat, p: Param, at: nat, cfg: seq<Decl>)
    requires Plain(p) && ParamText(js, p, at) && Spans(toks, |js|) && At(toks, idx, SixTokens(p, at))
    ensures idx + 6 <= |toks| && ParamShape(js, toks, idx)
    ensures Spanned(toks[idx], |js|) && Spanned(toks[idx + 3], |js|) && Spanned(toks[idx + 5], |js|)
    ensures var one := ReadParam(js, toks[idx], toks[idx + 3], toks[idx + 5], cfg);
            && one.call == Expected(p, cfg) && one.entry == ExpectedEntry(p, cfg)
            && forall from: nat, t: string :: from >= Next(p, at) && At(js, from, t) ==> At(one.text, from, t)
  {
    hide Signed, TypeOf, ReadData, Lookup, Print, ParamTree, ValueTree;
    SixAt(toks, idx, p, at);
    var q := ObjectAt(p, at);
    SpanIs(js, toks[idx], p.name);
    SpanIs(js, toks[idx + 2], "t");
    SpanIs(js, toks[idx + 3], TypeName(p.data)) by {
      TypeNameLength(p.data);
    }
    SpanIs(js, toks[idx + 4], "v");
    TypeNameBack(p.data);
    ReadDataBack(js, p, at);
    var one := ReadParam(js, toks[idx], toks[idx + 3], toks[idx + 5], cfg);
    if p.data.Str? {
      TextPrints(p.data.text);
      var e := toks[idx + 5].end;
      assert e < Next(p, at);
      assert one.text == js || one.text == js[e := NUL];
      forall from: nat, t: string | from >= Next(p, at) && At(js, from, t)
        ensures At(one.text, from, t)
      {
        AtAfterWrite(js, e, NUL, from, t);
      }
    }
  }

  lemma TextPrints(s: string)
    ensures |Print(ValueTree(Str(s)))| == |s| + 2
  {
  }

  lemma AtAfterWrite(js: string, e: nat, c: char, from: nat, t: string)
    requires e < |js| && e < from && At(js, from, t)
    ensures At(js[e := c], from, t)
  {
    assert js[e := c][from..from + |t|] == js[from..from + |t|];
  }

  lemma SixAt(toks: seq<Token>, idx: nat, p: Param, at: nat)
    requires At(toks, idx, SixTokens(p, at))
    ensures idx + 6 <= |toks|
    ensures forall i :: 0 <= i < 6 ==> toks[idx + i] == SixTokens(p, at)[i]
    ensures toks[idx] == SixTokens(p, at)[0] && toks[idx + 1] == SixTokens(p, at)[1] && toks[idx + 2] == SixTokens(p, at)[2]
    ensures toks[idx + 3] == SixTokens(p, at)[3] && toks[idx + 4] == SixTokens(p, at)[4] && toks[idx + 5] == SixTokens(p, at)[5]
  {
    hide At, SixTokens;
    var six := SixTokens(p, at);
    AtIndex(toks, idx, six, 5);
    forall i | 0 <= i < 6
      ensures toks[idx + i] == six[i]
    {
      AtIndex(toks, idx, six, i);
    }
    assert toks[idx + 0] == six[0] && toks[idx + 1] == six[1] && toks[idx + 2] == six[2];
    assert toks[idx + 3] == six[3] && toks[idx + 4] == six[4] && toks[idx + 5] == six[5];
  }

  // ---------- All parameters ----------

  function ExpectedCalls(ps: seq<Param>, cfg: seq<Decl>): seq<Call> {
    if ps == [] then [] else Calls(Expected(ps[0], cfg)) + ExpectedCalls(ps[1..], cfg)
  }

  function ExpectedTable(ps: seq<Param>, cfg: seq<Decl>, table: seq<nat>): seq<nat> {
    if ps == [] then table else ExpectedTable(ps[1..], cfg, Enter(table, ExpectedEntry(ps[0], cfg)))
  }

  lemma {:induction false} ReadParamsBack(js: string, toks: seq<Token>, idx: nat, at: nat, ps: seq<Param>, cfg: seq<Decl>,
                                          table: seq<nat>)
    requires AllPlain(ps) && Spans(toks, |js|)
    requires At(toks, idx, MemberTokens(ParamMembers(ps), at))
    requires ps != [] ==> At(js, at, PrintMembers(ParamMembers(ps)))
    ensures var w := ReadParams(js, toks, idx, |ps|, cfg, table);
            w.rc == 0 && w.calls == ExpectedCalls(ps, cfg) && w.table == ExpectedTable(ps, cfg, table)
    decreases |ps|
  {
    hide At, Spans, Spanned, ReadParam, ReadParams, ParamShape, SixTokens, MemberTokens, ParamMembers, PrintMembers, Plain,
         Expected, ExpectedEntry, Next, ParamText;
    ReadParamsStep(js, toks, idx, |ps|, cfg, table);
    if ps != [] {
      var p, rest := ps[0], ps[1..];
      assert Plain(p);
      ParamTokens(ps, at);
      AtSplit(toks, idx, SixTokens(p, at), MemberTokens(ParamMembers(rest), Next(p, at)));
      ParamParts(js, ps, at);
      ReadParamBack(js, toks, idx, p, at, cfg);
      var one := ReadParam(js, toks[idx], toks[idx + 3], toks[idx + 5], cfg);
      ReadParamsBack(one.text, toks, idx + 6, Next(p, at), rest, cfg, Enter(table, one.entry));
    }
  }

  // ---------- The correlation id ----------

  predicate CidNamed(ps: seq<Param>) {
    exists i :: 0 <= i < |ps| && ps[i].name == "cid"
  }

  /** One parameter: its name is the only one of its tokens that could be taken for the key. */
  lemma FindPastParam(js: string, toks: seq<Token>, idx: nat, p: Param, at: nat)
    requires ParamText(js, p, at) && Spans(toks, |js|) && At(toks, idx, SixTokens(p, at))
    ensures FindCid(js, toks, idx) == if p.name == "cid" then None else FindCid(js, toks, idx + 6)
  {
    SixAt(toks, idx, p, at);
    hide FindCid, Spans, ParamTree, Print, At, ParamText;
    FindStep(js, toks, idx);
    FindStep(js, toks, idx + 1);
    FindStep(js, toks, idx + 2);
    FindStep(js, toks, idx + 3);
    FindStep(js, toks, idx + 4);
    FindStep(js, toks, idx + 5);
    NotCid(js, toks[idx + 1]);
    NotCid(js, toks[idx + 2]);
    NotCid(js, toks[idx + 3]);
    NotCid(js, toks[idx + 4]);
    NotCid(js, toks[idx + 5]);
    NameAt(js, p, at);
    SpanIs(js, toks[idx], p.name);
  }

  lemma NameAt(js: string, p: Param, at: nat)
    requires ParamText(js, p, at)
    ensures At(js, at + 1, p.name)
  {
  }

  lemma {:induction false} FindPastParams(js: string, toks: seq<Token>, idx: nat, at: nat, ps: seq<Param>)
    requires Spans(toks, |js|) && At(toks, idx, MemberTokens(ParamMembers(ps), at))
    requires ps != [] ==> At(js, at, PrintMembers(ParamMembers(ps)))
    ensures FindCid(js, toks, idx) == if CidNamed(ps) then None else FindCid(js, toks, idx + 6 * |ps|)
    decreases |ps|
  {
    hide At, Spans, FindCid, SixTokens, MemberTokens, ParamMembers, PrintMembers, Next, ParamText;
    if ps != [] {
      var p, rest := ps[0], ps[1..];
      ParamTokens(ps, at);
      AtSplit(toks, idx, SixTokens(p, at), MemberTokens(ParamMembers(rest), Next(p, at)));
      ParamParts(js, ps, at);
      FindPastParam(js, toks, idx, p, at);
      FindPastParams(js, toks, idx + 6, Next(p, at), rest);
      CidNamedStep(ps);
    }
  }

  lemma CidNamedStep(ps: seq<Param>)
    requires ps != []
    ensures CidNamed(ps) <==> ps[0].name == "cid" || CidNamed(ps[1..])
  {
    if CidNamed(ps) {
      var i :| 0 <= i < |ps| && ps[i].name == "cid";
      assert i == 0 || ps[1..][i - 1].name == "cid";
    }
    if CidNamed(ps[1..]) {
      var i :| 0 <= i < |ps[1..]| && ps[1..][i].name == "cid";
      assert ps[i + 1].name == "cid";
    }
  }

  // ---------- The document as a whole ----------

  /** Where the member "cid" begins. */
  function CidAt(ps: seq<Param>): nat {
    |FRONT + PrintMembers(ParamMembers(ps))| + 1
  }

  function CidTokens(ps: seq<Param>, cid: int): seq<Token> {
    var c := CidAt(ps);
    [Token(String, c + 1, c + 4, 1), Token(Primitive, c + 6, c + 6 + |Signed(cid)|, 0)]
  }

  lemma DocTokens(ps: seq<Param>, cid: int)
    ensures Tokens(Doc(ps, cid), 0)
            == [Token(Object, 0, |Print(Doc(ps, cid))|, 2), Token(String, 2, 5, 1),
                Token(Object, 7, 8 + |PrintMembers(ParamMembers(ps))|, |ps|)]
               + MemberTokens(ParamMembers(ps), 8) + CidTokens(ps, cid)
  {
    hide Print, PrintMembers, Tokens, MemberTokens, Width, Pair, ParamMembers, Signed;
    var number := Word(Signed(cid));
    var rest := Pair("cid", number, NoMembers);
    var inner := Dict("", ParamMembers(ps));
    var members := Pair("cfg", inner, rest);
    DictTokens(members, 0);
    DictShape(members);
    PairWidth("cfg", inner, rest);
    PairWidth("cid", number, NoMembers);
    NoWidth();
    PairTokens("cfg", inner, rest, 1);
    DictTokens(ParamMembers(ps), 7);
    DictShape(ParamMembers(ps));
    ParamCount(ps, 8);
    var c := CidAt(ps);
    PairTokens("cid", number, NoMembers, c);
    WordTokens(Signed(cid), c + 6);
    NoMoreTokens(c + 6 + |Print(number)| + 1);
  }

  lemma DocText(ps: seq<Param>, cid: int)
    ensures var js := Print(Doc(ps, cid));
            && At(js, 2, "cfg") && At(js, 8, PrintMembers(ParamMembers(ps)))
            && At(js, CidAt(ps) + 1, "cid") && At(js, CidAt(ps) + 6, Signed(cid))
            && At(js, CidAt(ps) + 6 + |Signed(cid)|, "}")
  {
    hide At, Print, PrintMembers, ParamMembers, Signed;
    var js := Print(Doc(ps, cid));
    DocPrints(ps, cid);
    var inner := PrintMembers(ParamMembers(ps));
    var tail := "," + ("\"cid\":" + Signed(cid) + "}");
    AllAt(js);
    AtSplit(js, 0, FRONT + inner, tail);
    AtSplit(js, 0, FRONT, inner);
    Middle(js, 0, FRONT, 2, 5);
    assert FRONT[2..5] == "cfg";
    AtSplit(js, CidAt(ps) - 1, ",", "\"cid\":" + Signed(cid) + "}");
    AtSplit(js, CidAt(ps), "\"cid\":" + Signed(cid), "}");
    AtSplit(js, CidAt(ps), "\"cid\":", Signed(cid));
    Middle(js, CidAt(ps), "\"cid\":", 1, 4);
    assert "\"cid\":"[1..4] == "cid";
  }

  /** The search finds the message's own correlation id. */
  lemma FindInDoc(js: string, toks: seq<Token>, ps: seq<Param>, cid: int)
    requires ps != [] && js == Print(Doc(ps, cid)) && toks == Tokens(Doc(ps, cid), 0) && Spans(toks, |js|)
    ensures FindCid(js, toks, 1) == if CidNamed(ps) then None else Some(cid)
  {
    hide At, Print, PrintMembers, Tokens, MemberTokens, ParamMembers, Signed, FindCid, Spans, ScanInt, CidNamed, CidAt;
    DocTokens(ps, cid);
    DocText(ps, cid);
    ParamCount(ps, 8);
    var n, c := 6 * |ps|, CidAt(ps);
    var head := [Token(Object, 0, |js|, 2), Token(String, 2, 5, 1), Token(Object, 7, 8 + |PrintMembers(ParamMembers(ps))|, |ps|)];
    var mid, end := MemberTokens(ParamMembers(ps), 8), CidTokens(ps, cid);
    assert toks[0] == head[0] && toks[1] == head[1] && toks[2] == head[2];
    assert toks[3 + n] == end[0] && toks[4 + n] == end[1];
    ThreePartsAt(head, mid, end);
    FindStep(js, toks, 1);
    FindStep(js, toks, 2);
    SpanIs(js, toks[1], "cfg");
    NotCid(js, toks[2]);
    FindPastParams(js, toks, 3, 8, ps);
    FindStep(js, toks, 3 + n);
    SpanIs(js, toks[3 + n], "cid");
    AtIndex(js, c + 6 + |Signed(cid)|, "}", 0);
    ScanBack(js, c + 6, cid, true);
  }

  lemma ThreePartsAt(a: seq<Token>, b: seq<Token>, c: seq<Token>)
    ensures At(a + b + c, |a|, b)
  {
    assert (a + b + c)[|a|..|a| + |b|] == b;
  }

  lemma DecodeDoc(js: string, toks: seq<Token>, ps: seq<Param>, cid: int, cfg: seq<Decl>)
    requires ps != [] && AllPlain(ps) && js == Print(Doc(ps, cid)) && toks == Tokens(Doc(ps, cid), 0) && Spans(toks, |js|)
    ensures |toks| == 5 + 6 * |ps|
    ensures var d := DecodeTokens(js, toks, cfg);
            if CidNamed(ps) then d == Decoded(-1, 0, [], [], js)
            else d.rc == 0 && d.cid == cid && d.calls == ExpectedCalls(ps, cfg) && d.table == ExpectedTable(ps, cfg, [])
  {
    hide At, Print, PrintMembers, Tokens, MemberTokens, ParamMembers, Signed, FindCid, Spans, CidNamed, ReadParams, Reads,
         ExpectedCalls, ExpectedTable;
    DocTokens(ps, cid);
    DocText(ps, cid);
    ParamCount(ps, 8);
    FindInDoc(js, toks, ps, cid);
    var head := [Token(Object, 0, |js|, 2), Token(String, 2, 5, 1), Token(Object, 7, 8 + |PrintMembers(ParamMembers(ps))|, |ps|)];
    assert toks[0] == head[0] && toks[1] == head[1] && toks[2] == head[2];
    ThreePartsAt(head, MemberTokens(ParamMembers(ps), 8), CidTokens(ps, cid));
    CfgRead(js, toks[1]) by {
      FindStep(js, toks, 1);
    }
    ReadParamsBack(js, toks, 3, 8, ps, cfg, []);
  }

  lemma CfgRead(js: string, t: Token)
    requires Spanned(t, |js|) && t.kind == String && t.start == 2 && t.end == 5 && At(js, 2, "cfg")
    ensures Reads(js, t, "cfg")
  {
    SpanIs(js, t, "cfg");
  }

  /** The main result, for all parameters and every receiver: a message is decoded into its
      correlation id and, in order, one call for each parameter the receiver declares under
      that name and type -- if and only if it has at most five parameters and none is called
      "cid"; otherwise it is refused. */
  lemma DecodeEncode(ps: seq<Param>, cid: int, cfg: seq<Decl>)
    requires ps != [] && AllPlain(ps)
    ensures var js := Print(Doc(ps, cid));
            var d := Decode(js, cfg);
            && (d.rc == 0 <==> |ps| <= MAX_PARAMS && !CidNamed(ps))
            && (d.rc == 0 ==> d.cid == cid && d.calls == ExpectedCalls(ps, cfg) && d.table == ExpectedTable(ps, cfg, []))
            && (d.rc != 0 ==> d == Decoded(-1, 0, [], [], js))
  {
    hide At, Print, Tokens, Run, FindCid, Spans, CidNamed, DecodeTokens, ExpectedCalls, ExpectedTable;
    var v := Doc(ps, cid);
    var js := Print(v);
    DocValid(ps, cid);
    NoBlanks(js);
    DocTokens(ps, cid);
    ParamCount(ps, 8);
    DocText(ps, cid);
    NotEmpty(js);
    if |ps| <= MAX_PARAMS {
      ParseTree("", v, "", MAX_TOKENS);
      ParsedSpans(js, ConfigDecoder.MAX_TOKENS);
      DecodeDoc(js, Tokens(v, 0), ps, cid, cfg);
    } else {
      TreeNeeds("", v, "", MAX_TOKENS);
    }
  }

  lemma NotEmpty(js: string)
    requires At(js, 2, "cfg")
    ensures js != []
  {
  }

  /** One parameter that cannot be sent. */
  lemma CidParameterRefused(cfg: seq<Decl>)
    ensures AllPlain([Param("cid", I32(1))]) && Decode(Print(Doc([Param("cid", I32(1))], 7)), cfg).rc == -1
  {
    hide Decode, Doc, Print, ExpectedCalls, ExpectedTable;
    var ps := [Param("cid", I32(1))];
    ThreeLetters("cid");
    assert ps[0].name == "cid";
    DecodeEncode(ps, 7, cfg);
  }

  // ---------- A receiver with the same parameters ----------

  predicate DistinctNames(ps: seq<Param>) {
    forall i, j :: 0 <= i < j < |ps| ==> ps[i].name != ps[j].name
  }

  /** Declarations of the parameters of a set. */
  function Declare(ps: seq<Param>): (r: seq<Decl>)
    ensures |r| == |ps|
    ensures forall i :: 0 <= i < |ps| ==> r[i] == Decl(ps[i].name, KindOf(ps[i].data))
  {
    seq(|ps|, i requires 0 <= i < |ps| => Decl(ps[i].name, KindOf(ps[i].data)))
  }

  lemma {:induction false} LookupFinds(cfg: seq<Decl>, i: nat, k: nat)
    requires i <= k < |cfg| && forall j :: i <= j < k ==> cfg[j].name != cfg[k].name
    ensures LookupFrom(cfg, cfg[k].name, i) == Some(k)
    decreases k - i
  {
    if i < k {
      LookupFinds(cfg, i + 1, k);
    }
  }

  /** Call i - k and table entry i are parameter i's. */
  predicate InOrder(ps: seq<Param>, k: nat, calls: seq<Call>, table: seq<nat>)
    ensures InOrder(ps, k, calls, table) ==> |table| == |ps|
  {
    && k <= |ps| && |calls| == |ps| - k && |table| == |ps|
    && forall i :: k <= i < |ps| ==> calls[i - k] == Call(i, ps[i].data) && table[i] == i
  }

  lemma OneCall(ps: seq<Param>, k: nat, table: seq<nat>)
    requires DistinctNames(ps) && k < |ps| <= MAX_PARAMS && |table| == k
    ensures Calls(Expected(ps[k], Declare(ps))) == [Call(k, ps[k].data)]
    ensures Enter(table, ExpectedEntry(ps[k], Declare(ps))) == table + [k]
  {
    hide LookupFrom, KindOf;
    LookupFinds(Declare(ps), 0, k);
  }

  lemma ExpectedStep(ps: seq<Param>, k: nat, cfg: seq<Decl>, table: seq<nat>)
    requires k < |ps|
    ensures ExpectedCalls(ps[k..], cfg) == Calls(Expected(ps[k], cfg)) + ExpectedCalls(ps[k + 1..], cfg)
    ensures ExpectedTable(ps[k..], cfg, table) == ExpectedTable(ps[k + 1..], cfg, Enter(table, ExpectedEntry(ps[k], cfg)))
  {
    hide Expected, ExpectedEntry, Enter, Calls;
    assert ps[k..][1..] == ps[k + 1..] && ps[k..][0] == ps[k];
  }

  lemma {:induction false} CallsFrom(ps: seq<Param>, k: nat, table: seq<nat>)
    requires DistinctNames(ps) && k <= |ps| <= MAX_PARAMS && |table| == k
    ensures var t := ExpectedTable(ps[k..], Declare(ps), table);
            && InOrder(ps, k, ExpectedCalls(ps[k..], Declare(ps)), t)
            && t[..k] == table
    decreases |ps| - k
  {
    if k < |ps| {
      hide Expected, ExpectedEntry, ExpectedCalls, ExpectedTable, Declare, DistinctNames, Enter, Calls, InOrder;
      OneCall(ps, k, table);
      ExpectedStep(ps, k, Declare(ps), table);
      CallsFrom(ps, k + 1, table + [k]);
      var calls, t := ExpectedCalls(ps[k + 1..], Declare(ps)), ExpectedTable(ps[k + 1..], Declare(ps), table + [k]);
      OneMoreInOrder(ps, k, calls, t, table);
    }
  }

  lemma OneMoreInOrder(ps: seq<Param>, k: nat, calls: seq<Call>, t: seq<nat>, table: seq<nat>)
    requires k < |ps| && |table| == k && InOrder(ps, k + 1, calls, t) && t[..k + 1] == table + [k]
    ensures InOrder(ps, k, [Call(k, ps[k].data)] + calls, t) && t[..k] == table
  {
    var more := [Call(k, ps[k].data)] + calls;
    assert t[k] == t[..k + 1][k] == k;
    assert t[..k] == t[..k + 1][..k] == table;
    forall i | k <= i < |ps|
      ensures more[i - k] == Call(i, ps[i].data) && t[i] == i
    {
      assert i > k ==> more[i - k] == calls[i - (k + 1)];
    }
  }

  /** Sent to a device with the same parameters, up to five and differently named, parameter i
      arrives as call i with its value, and as entry i of the table. */
  lemma SameDevice(ps: seq<Param>, cid: int)
    requires 1 <= |ps| <= MAX_PARAMS && AllPlain(ps) && DistinctNames(ps) && !CidNamed(ps)
    ensures var d := Decode(Print(Doc(ps, cid)), Declare(ps));
            && d.rc == 0 && d.cid == cid && |d.calls| == |d.table| == |ps|
            && forall i :: 0 <= i < |ps| ==> d.calls[i] == Call(i, ps[i].data) && d.table[i] == i
  {
    hide Decode, Doc, Print, AllPlain, CidNamed, ExpectedCalls, ExpectedTable, DistinctNames, Declare;
    DecodeEncode(ps, cid, Declare(ps));
    CallsFrom(ps, 0, []);
    assert ps[0..] == ps;
  }

  /** The buffer one device fills, read by another: accepted exactly under the conditions above, and
      then with all values. */
  method Exchange(b: JsonBuffer.Buffer, cid: int, tab: seq<Option<Param>>, cfg: seq<Decl>, upd: Update)
    returns (rc: int)
    requires b.Valid() && Modelled(cfg) && cid != 0 && tab != [] && tab[0].Some? && AllPlain(Given(tab))
    requires forall i :: 0 <= i < |tab| && tab[i].Some? ==> IsC(tab[i].value)
    requires |Print(Doc(Given(tab), cid))| < JsonBuffer.SIZE
    modifies b.buf, upd
    ensures rc == 0 <==> |Given(tab)| <= MAX_PARAMS && !CidNamed(Given(tab))
    ensures rc == 0 ==>
              && upd.cid == cid && upd.table == ExpectedTable(Given(tab), cfg, [])
              && upd.calls == old(upd.calls) + ExpectedCalls(Given(tab), cfg)
  {
    hide Decode, Doc, Print, AllPlain, CidNamed, ExpectedCalls, ExpectedTable, IsC, JsonBuffer.CString, Modelled;
    var ok := EncodeParamsUpdate(b, cid, tab);
    DecodeEncode(Given(tab), cid, cfg);
    JsonBuffer.CStringShape(b.buf[..]);
    ghost var text := b.Text();
    var n := b.Strlen();
    var payload := new char[n];
    forall i | 0 <= i < n {
      payload[i] := b.buf[i];
    }
    assert payload[..] == b.buf[..][..n] == text;
    rc := DecodeParamsReq(payload, cfg, upd);
  }
}
