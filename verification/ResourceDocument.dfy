/** Resource requests as JSON documents: every request is read as it was meant, and exactly which
    texts leave an idle record with an id that blocks it for ever. */
module ResourceDocument {
  import opened Bytes
  import opened Slices
  import opened JsmnSpec
  import opened JsonShapes
  import opened JsonTokens
  import opened JsonTree
  import opened Md5Spec
  import opened Numbers
  import opened ResourceRequest
  import T = TransferSpec

  // ---------- The digest ----------

  function HexDigit(d: bv8): char
    requires d < 16
  {
    "0123456789abcdef"[d as int]
  }

  function Hex(m: seq<bv8>): (r: string)
    ensures |r| == 2 * |m|
  {
    if m == [] then "" else [HexDigit(m[0] >> 4), HexDigit(m[0] & 15)] + Hex(m[1..])
  }

  lemma {:induction false} HexAt(m: seq<bv8>, k: nat)
    requires k < |m|
    ensures Hex(m)[2 * k] == HexDigit(m[k] >> 4) && Hex(m)[2 * k + 1] == HexDigit(m[k] & 15)
    decreases k
  {
    if k > 0 {
      HexAt(m[1..], k - 1);
    }
  }

  /** A hexadecimal digit, in either case. */
  predicate Spells(c: char, d: bv8) {
    d < 16 && (c == "0123456789abcdef"[d as int] || c == "0123456789ABCDEF"[d as int])
  }

  lemma NibbleBack(c: char, d: bv8)
    requires Spells(c, d)
    ensures Nibble(c) == Some(d)
  {
    var i := d as int;
    assert 0 <= i < 16;
    assert d == i as bv8;
    if i < 10 {
      assert c as int == '0' as int + i;
    } else if c == "0123456789abcdef"[i] {
      assert c as int == 'a' as int + i - 10;
    } else {
      assert c as int == 'A' as int + i - 10;
    }
  }

  lemma HalvesJoin(b: bv8)
    ensures (0 | ((b >> 4) << 4)) | (b & 15) == b && b >> 4 < 16 && b & 15 < 16
  {
  }

  lemma TwoDigits(buf: T.Md5Value, k: nat, b: bv8)
    requires k < 16 && buf[k] == 0
    ensures b >> 4 < 16 && b & 15 < 16
    ensures PutDigit(PutDigit(buf, 2 * k, b >> 4), 2 * k + 1, b & 15) == buf[k := b]
  {
    HalvesJoin(b);
  }

  /** 32 digits that spell the digest, in any mixture of cases. */
  predicate SpellsDigest(s: string, m: T.Md5Value) {
    |s| == 32 && forall k :: 0 <= k < 16 ==> Spells(s[2 * k], m[k] >> 4) && Spells(s[2 * k + 1], m[k] & 15)
  }

  lemma HexStepBack(s: string, m: T.Md5Value, k: nat, buf: T.Md5Value)
    requires SpellsDigest(s, m) && k < 16 && buf[k] == 0
    ensures HexInto(buf, s, 2 * k) == HexInto(buf[k := m[k]], s, 2 * (k + 1))
  {
    hide Nibble, PutDigit, Spells;
    TwoDigits(buf, k, m[k]);
    NibbleBack(s[2 * k], m[k] >> 4);
    NibbleBack(s[2 * k + 1], m[k] & 15);
    var b1 := PutDigit(buf, 2 * k, m[k] >> 4);
    assert HexInto(buf, s, 2 * k) == HexInto(b1, s, 2 * k + 1);
  }

  /** A digest written in hexadecimal is read back, whatever the case of its digits. */
  lemma {:induction false} HexBack(s: string, m: T.Md5Value, k: nat, buf: T.Md5Value)
    requires SpellsDigest(s, m)
    requires k <= 16 && buf[..k] == m[..k] && forall j :: k <= j < 16 ==> buf[j] == 0
    ensures HexInto(buf, s, 2 * k) == m
    decreases 16 - k
  {
    hide PutDigit, Nibble, SpellsDigest;
    if k == 16 {
      assert buf == buf[..16] && m == m[..16];
    } else {
      hide HexInto;
      HexStepBack(s, m, k, buf);
      var b2 := buf[k := m[k]];
      assert b2[..k + 1] == buf[..k] + [m[k]] == m[..k + 1];
      HexBack(s, m, k + 1, b2);
    }
  }

  /** The lower-case digits spell the digest. */
  lemma HexSpells(m: T.Md5Value)
    ensures SpellsDigest(Hex(m), m)
  {
    hide Hex;
    forall k | 0 <= k < 16
      ensures Spells(Hex(m)[2 * k], m[k] >> 4) && Spells(Hex(m)[2 * k + 1], m[k] & 15)
    {
      HexAt(m, k);
      HalvesJoin(m[k]);
    }
  }

  // ---------- The document ----------

  /** What a request announces. */
  datatype Announcement = Announcement(name: string, from: string, to: string, size: nat, uri: string,
                                       md5: T.Md5Value, cid: int)

  /** 32-bit numbers, and strings that may stand between quotes as they are. */
  predicate Plain(d: Announcement) {
    && ValidBody(d.name) && ValidBody(d.from) && ValidBody(d.to) && ValidBody(d.uri)
    && d.size < 0x1_0000_0000
  }

  function Meta(d: Announcement): Members {
    Pair("size", Text(Dec(d.size)), Pair("uri", Text(d.uri), Pair("md5", Text(Hex(d.md5)), NoMembers)))
  }

  function Cid(n: int): Members {
    Pair("cid", Word(Signed(n)), NoMembers)
  }

  /** {"id": name, "old": from, "new": to, "m": {"size", "uri", "md5"}, "cid": number} */
  function Doc(d: Announcement): Value {
    Dict("", Pair("id", Text(d.name), Pair("old", Text(d.from), Pair("new", Text(d.to),
         Pair("m", Dict("", Meta(d)), Cid(d.cid))))))
  }

  // ---------- Walking along a text and its tokens ----------

  /** Members of an object: their text at `at`, their tokens from index idx on. */
  predicate Here(js: string, toks: seq<Token>, at: nat, idx: nat, members: Members) {
    && Spans(toks, |js|)
    && At(toks, idx, MemberTokens(members, at))
    && (members.Member? ==> At(js, at, PrintMembers(members)))
  }

  predicate IsKey(js: string, toks: seq<Token>, idx: nat, key: string)
    requires Spans(toks, |js|)
  {
    idx < |toks| && Reads(js, toks[idx], key) && toks[idx].size == 1
  }

  predicate IsText(js: string, toks: seq<Token>, idx: nat, b: string)
    requires Spans(toks, |js|)
  {
    idx < |toks| && Reads(js, toks[idx], b) && toks[idx].size == 0
  }

  lemma TextTokens(b: string, at: nat)
    ensures Tokens(Text(b), at) == [Token(String, at + 1, at + 1 + |b|, 0)]
    ensures Print(Text(b)) == Quoted(b)
  {
  }

  lemma KeyHere(js: string, toks: seq<Token>, at: nat, idx: nat, key: string)
    requires Spans(toks, |js|) && At(toks, idx, [Token(String, at + 1, at + 1 + |key|, 1)]) && At(js, at + 1, key)
    ensures IsKey(js, toks, idx, key)
  {
    AtIndex(toks, idx, [Token(String, at + 1, at + 1 + |key|, 1)], 0);
    SpanIs(js, toks[idx], key);
  }

  lemma TextHere(js: string, toks: seq<Token>, at: nat, idx: nat, b: string)
    requires Spans(toks, |js|) && At(toks, idx, Tokens(Text(b), at)) && At(js, at, Print(Text(b)))
    ensures IsText(js, toks, idx, b) && toks[idx].start == at + 1 && At(js, at + 1, b + "\"")
  {
    hide At, Quoted, Spans, Spanned;
    TextTokens(b, at);
    AtIndex(toks, idx, Tokens(Text(b), at), 0);
    QuotedAt(js, at, b);
    BodyThenQuote(js, at, b);
    SpannedAt(toks, idx, |js|);
    SpanIs(js, toks[idx], b);
  }

  lemma BodyThenQuote(js: string, at: nat, b: string)
    requires At(js, at, Quoted(b))
    ensures At(js, at + 1, b + "\"")
  {
    hide At;
    assert Quoted(b) == "\"" + (b + "\"");
    AtSplit(js, at, "\"", b + "\"");
  }

  /** One member: its key, its value, and where the next one is. */
  lemma MemberHere(js: string, toks: seq<Token>, at: nat, idx: nat, key: string, v: Value, rest: Members)
    requires Here(js, toks, at, idx, Pair(key, v, rest))
    ensures var q := at + |key| + 3;
            && IsKey(js, toks, idx, key)
            && At(js, q, Print(v)) && At(toks, idx + 1, Tokens(v, q))
            && Here(js, toks, q + |Print(v)| + 1, idx + 1 + |Tokens(v, q)|, rest)
            && |MemberTokens(Pair(key, v, rest), at)|
               == 1 + |Tokens(v, q)| + |MemberTokens(rest, q + |Print(v)| + 1)|
  {
    hide At, Print, PrintMembers, Tokens, MemberTokens, Spans, IsKey;
    var q := at + |key| + 3;
    PairIsMember(key, v, rest);
    PairTokens(key, v, rest, at);
    MemberText(js, key, v, rest, at);
    var k := [Token(String, at + 1, at + 1 + |key|, 1)];
    AtSplit(toks, idx, k + Tokens(v, q), MemberTokens(rest, q + |Print(v)| + 1));
    AtSplit(toks, idx, k, Tokens(v, q));
    KeyHere(js, toks, at, idx, key);
  }

  /** A member whose value is a string. */
  lemma TextMember(js: string, toks: seq<Token>, at: nat, idx: nat, key: string, b: string, rest: Members)
    returns (next: nat)
    requires Here(js, toks, at, idx, Pair(key, Text(b), rest))
    ensures IsKey(js, toks, idx, key) && IsText(js, toks, idx + 1, b)
    ensures idx + 1 < |toks| && toks[idx + 1].start >= 0 && At(js, toks[idx + 1].start, b + "\"")
    ensures Here(js, toks, next, idx + 2, rest)
    ensures |MemberTokens(Pair(key, Text(b), rest), at)| == 2 + |MemberTokens(rest, next)|
  {
    hide At, Print, Tokens, MemberTokens, Here, IsKey, Spans;
    var q := at + |key| + 3;
    HereSpans(js, toks, at, idx, Pair(key, Text(b), rest));
    MemberHere(js, toks, at, idx, key, Text(b), rest);
    TextTokens(b, q);
    TextHere(js, toks, q, idx + 1, b);
    next := q + |Print(Text(b))| + 1;
  }

  lemma HereSpans(js: string, toks: seq<Token>, at: nat, idx: nat, members: Members)
    requires Here(js, toks, at, idx, members)
    ensures Spans(toks, |js|)
  {
  }

  /** A member whose value is an object. */
  lemma DictMember(js: string, toks: seq<Token>, at: nat, idx: nat, key: string, inner: Members, rest: Members)
    returns (start: nat, next: nat)
    requires Here(js, toks, at, idx, Pair(key, Dict("", inner), rest))
    ensures IsKey(js, toks, idx, key)
    ensures idx + 1 < |toks| && toks[idx + 1].kind == Object && toks[idx + 1].size == Width(inner)
    ensures Here(js, toks, start, idx + 2, inner)
    ensures Here(js, toks, next, idx + 2 + |MemberTokens(inner, start)|, rest)
    ensures |MemberTokens(Pair(key, Dict("", inner), rest), at)|
            == 2 + |MemberTokens(inner, start)| + |MemberTokens(rest, next)|
  {
    hide At, Print, PrintMembers, Tokens, MemberTokens, IsKey, Spans, Width;
    var q := at + |key| + 3;
    var v := Dict("", inner);
    MemberHere(js, toks, at, idx, key, v, rest);
    DictTokens(inner, q);
    DictShape(inner);
    var head := [Token(Object, q, q + 1 + |PrintMembers(inner)|, Width(inner))];
    AtSplit(toks, idx + 1, head, MemberTokens(inner, q + 1));
    AtIndex(toks, idx + 1, head, 0);
    AtSplit(js, q, "{", PrintMembers(inner));
    start, next := q + 1, q + |Print(v)| + 1;
  }

  /** A member whose value is a number. */
  lemma NumberMember(js: string, toks: seq<Token>, at: nat, idx: nat, key: string, n: int, rest: Members)
    returns (next: nat)
    requires Here(js, toks, at, idx, Pair(key, Word(Signed(n)), rest))
    ensures IsKey(js, toks, idx, key)
    ensures idx + 1 < |toks| && Number(js, toks[idx + 1]) == Some(n)
    ensures toks[idx + 1].kind == Primitive && toks[idx + 1].size == 0
    ensures Here(js, toks, next, idx + 2, rest)
    ensures |MemberTokens(Pair(key, Word(Signed(n)), rest), at)| == 2 + |MemberTokens(rest, next)|
  {
    hide At, Print, PrintMembers, Tokens, MemberTokens, IsKey, Spans, Signed, ScanInt, Quoted, Pair;
    var q := at + |key| + 3;
    var v := Word(Signed(n));
    MemberHere(js, toks, at, idx, key, v, rest);
    WordTokens(Signed(n), q);
    WordPrints(Signed(n));
    AtIndex(toks, idx + 1, Tokens(v, q), 0);
    PairShape(key, v, rest);
    PairIsMember(key, v, rest);
    var more := if rest.NoMembers? then "}" else "," + PrintMembers(rest);
    KeyAndValueAt(js, at, key, Signed(n), more);
    AtIndex(js, q + |Signed(n)|, more, 0);
    ScanBack(js, q, n, true);
    next := q + |Print(v)| + 1;
  }

  // ---------- What the seventeen tokens spell ----------

  predicate Listed(js: string, toks: seq<Token>, d: Announcement)
    requires Spans(toks, |js|)
  {
    && |toks| == 17 && toks[0].kind == Object && toks[0].size == 5
    && IsKey(js, toks, 1, "id") && IsText(js, toks, 2, d.name)
    && IsKey(js, toks, 3, "old") && IsText(js, toks, 4, d.from)
    && IsKey(js, toks, 5, "new") && IsText(js, toks, 6, d.to)
    && IsKey(js, toks, 7, "m") && toks[8].kind == Object && toks[8].size == 3
    && IsKey(js, toks, 9, "size") && IsText(js, toks, 10, Dec(d.size)) && ScanU32(js, toks[10].start) == Some(d.size)
    && IsKey(js, toks, 11, "uri") && IsText(js, toks, 12, d.uri)
    && IsKey(js, toks, 13, "md5") && IsText(js, toks, 14, Hex(d.md5))
    && IsKey(js, toks, 15, "cid") && Number(js, toks[16]) == Some(d.cid)
    && toks[16].kind == Primitive && toks[16].size == 0
  }

  lemma SizeScans(js: string, p: nat, n: nat)
    requires At(js, p, Dec(n) + "\"") && n < 0x1_0000_0000
    ensures ScanU32(js, p) == Some(n)
  {
    hide At, Dec, ScanInt;
    AtSplit(js, p, Dec(n), "\"");
    AtIndex(js, p + |Dec(n)|, "\"", 0);
    AtIndex(js, p, Dec(n), 0);
    DecShape(n);
    ScanBack(js, p, n, false);
  }

  /** Three string members in a row. */
  lemma MetaListed(js: string, toks: seq<Token>, at: nat, idx: nat, d: Announcement)
    requires Here(js, toks, at, idx, Meta(d)) && Plain(d)
    ensures Spans(toks, |js|) && |MemberTokens(Meta(d), at)| == 6
    ensures IsKey(js, toks, idx, "size") && IsText(js, toks, idx + 1, Dec(d.size))
    ensures ScanU32(js, toks[idx + 1].start) == Some(d.size)
    ensures IsKey(js, toks, idx + 2, "uri") && IsText(js, toks, idx + 3, d.uri)
    ensures IsKey(js, toks, idx + 4, "md5") && IsText(js, toks, idx + 5, Hex(d.md5))
  {
    hide At, Print, Tokens, MemberTokens, Here, IsKey, IsText, Spans, Hex, Dec, Pair, ScanU32;
    HereSpans(js, toks, at, idx, Meta(d));
    var m3 := Pair("md5", Text(Hex(d.md5)), NoMembers);
    var m2 := Pair("uri", Text(d.uri), m3);
    var at2 := TextMember(js, toks, at, idx, "size", Dec(d.size), m2);
    SizeScans(js, toks[idx + 1].start, d.size);
    var at3 := TextMember(js, toks, at2, idx + 2, "uri", d.uri, m3);
    var at4 := TextMember(js, toks, at3, idx + 4, "md5", Hex(d.md5), NoMembers);
    NoMoreTokens(at4);
  }

  lemma MetaWidth(d: Announcement)
    ensures Width(Meta(d)) == 3
  {
    hide Pair, Hex, Dec;
    var m3 := Pair("md5", Text(Hex(d.md5)), NoMembers);
    PairWidth("md5", Text(Hex(d.md5)), NoMembers);
    PairWidth("uri", Text(d.uri), m3);
    PairWidth("size", Text(Dec(d.size)), Pair("uri", Text(d.uri), m3));
    NoWidth();
  }

  lemma CidWidth(n: int)
    ensures Width(Cid(n)) == 1
  {
    hide Pair;
    PairWidth("cid", Word(Signed(n)), NoMembers);
    NoWidth();
  }

  lemma DocListed(js: string, toks: seq<Token>, d: Announcement)
    requires Plain(d) && js == Print(Doc(d)) && toks == Tokens(Doc(d), 0) && Spans(toks, |js|)
    ensures Listed(js, toks, d)
  {
    hide At, Print, PrintMembers, Tokens, MemberTokens, Spans, IsKey, IsText, Pair, Meta, Number, ScanU32, Plain;
    var f5 := Cid(d.cid);
    var f4 := Pair("m", Dict("", Meta(d)), f5);
    var f3 := Pair("new", Text(d.to), f4);
    var f2 := Pair("old", Text(d.from), f3);
    var f1 := Pair("id", Text(d.name), f2);
    var at4 := ThreeListed(js, toks, d, f1, f2, f3, f4);
    var start, at5 := DictMember(js, toks, at4, 7, "m", Meta(d), f5);
    MetaWidth(d);
    PairWidth("m", Dict("", Meta(d)), f5);
    CidWidth(d.cid);
    MetaListed(js, toks, start, 9, d);
    var end := NumberMember(js, toks, at5, 15, "cid", d.cid, NoMembers);
    NoMoreTokens(end);
  }

  /** The object and its first three members. */
  lemma ThreeListed(js: string, toks: seq<Token>, d: Announcement, f1: Members, f2: Members, f3: Members, f4: Members)
    returns (at4: nat)
    requires js == Print(Dict("", f1)) && toks == Tokens(Dict("", f1), 0) && Spans(toks, |js|)
    requires f1 == Pair("id", Text(d.name), f2) && f2 == Pair("old", Text(d.from), f3) && f3 == Pair("new", Text(d.to), f4)
    ensures toks != [] && toks[0].kind == Object && toks[0].size == 3 + Width(f4)
    ensures IsKey(js, toks, 1, "id") && IsText(js, toks, 2, d.name)
    ensures IsKey(js, toks, 3, "old") && IsText(js, toks, 4, d.from)
    ensures IsKey(js, toks, 5, "new") && IsText(js, toks, 6, d.to)
    ensures Here(js, toks, at4, 7, f4) && |toks| == 7 + |MemberTokens(f4, at4)|
  {
    hide At, Print, PrintMembers, Tokens, MemberTokens, Spans, IsKey, IsText, Pair, Width;
    DictTokens(f1, 0);
    DictShape(f1);
    AllAt(js);
    AtSplit(js, 0, "{", PrintMembers(f1));
    var head := [Token(Object, 0, 1 + |PrintMembers(f1)|, Width(f1))];
    AllTokensAt(toks);
    AtSplit(toks, 0, head, MemberTokens(f1, 1));
    PairWidth("id", Text(d.name), f2);
    PairWidth("old", Text(d.from), f3);
    PairWidth("new", Text(d.to), f4);
    var at2 := TextMember(js, toks, 1, 1, "id", d.name, f2);
    var at3 := TextMember(js, toks, at2, 3, "old", d.from, f3);
    at4 := TextMember(js, toks, at3, 5, "new", d.to, f4);
  }

  lemma AllTokensAt(toks: seq<Token>)
    ensures At(toks, 0, toks)
  {
  }

  // ---------- What the decoder makes of them ----------

  lemma NotThisKey(js: string, toks: seq<Token>, i: nat, b: string, key: string)
    requires Spans(toks, |js|)
    requires IsText(js, toks, i, b) || (IsKey(js, toks, i, b) && b != key) || (i < |toks| && toks[i].size != 1)
    ensures !IsKey(js, toks, i, key)
  {
  }

  lemma {:induction false} FindResourceOn(js: string, toks: seq<Token>, i: nat, names: seq<string>, obj: Option<nat>)
    requires Spans(toks, |js|) && forall j :: i <= j < |toks| ==> !IsKey(js, toks, j, "id")
    ensures FindResource(js, toks, i, names, obj) == Search(false, obj, if i + 1 >= |toks| then i else |toks| - 1)
    decreases |toks| - i
  {
    if i + 1 < |toks| {
      assert !IsKey(js, toks, i, "id");
      FindResourceOn(js, toks, i + 1, names, obj);
    }
  }

  lemma {:induction false} FindCidOn(js: string, toks: seq<Token>, i: nat, k: nat)
    requires Spans(toks, |js|) && i <= k && IsKey(js, toks, k, "cid")
    requires forall j :: i <= j < k ==> !IsKey(js, toks, j, "cid")
    ensures FindCid(js, toks, i) == Number(js, TokenAt(toks, k + 1))
    decreases k - i
  {
    FindStep(js, toks, i);
    if i < k {
      assert !IsKey(js, toks, i, "cid");
      FindCidOn(js, toks, i + 1, k);
    }
  }

  lemma OnlyKeys(js: string, toks: seq<Token>, d: Announcement)
    requires Spans(toks, |js|) && Listed(js, toks, d)
    ensures forall j :: 3 <= j < 17 ==> !IsKey(js, toks, j, "id")
    ensures forall j :: 1 <= j < 15 ==> !IsKey(js, toks, j, "cid")
  {
    hide IsKey, IsText, Reads, Spans, Hex, Dec;
    var texts := ["id", d.name, "old", d.from, "new", d.to, "m", "",
                  "size", Dec(d.size), "uri", d.uri, "md5", Hex(d.md5), "cid", ""];
    forall j | 1 <= j < 17
      ensures 3 <= j ==> !IsKey(js, toks, j, "id")
      ensures j < 15 ==> !IsKey(js, toks, j, "cid")
    {
      if j >= 3 {
        NotThisKey(js, toks, j, texts[j - 1], "id");
      }
      if j < 15 {
        NotThisKey(js, toks, j, texts[j - 1], "cid");
      }
    }
  }

  lemma MetaRead(js: string, toks: seq<Token>, d: Announcement)
    requires Spans(toks, |js|) && Listed(js, toks, d)
    ensures ReadMeta(js, toks, 9, 3, NO_FIELDS) == Fields(0, d.size, d.md5)
  {
    hide ReadMeta, HexInto, Hex, Dec, ScanU32;
    var f1 := NO_FIELDS.(size := d.size);
    var f2 := f1.(md5 := d.md5);
    HexSpells(d.md5);
    HexBack(Hex(d.md5), d.md5, 0, Zeros(16));
    ReadMetaStep(js, toks, 9, 3, NO_FIELDS);
    assert MetaField(js, toks[9], toks[10], NO_FIELDS) == f1;
    ReadMetaStep(js, toks, 11, 2, f1);
    assert MetaField(js, toks[11], toks[12], f1) == f1;
    ReadMetaStep(js, toks, 13, 1, f1);
    assert MetaField(js, toks[13], toks[14], f1) == f2;
    ReadMetaStep(js, toks, 15, 0, f2);
  }

  lemma FieldsRead(js: string, toks: seq<Token>, d: Announcement)
    requires Spans(toks, |js|) && Listed(js, toks, d)
    ensures ReadFields(js, toks, 1, 17, 5, NO_FIELDS) == Fields(0, d.size, d.md5)
  {
    hide ReadMeta, ReadFields, Hex, Dec, ScanU32;
    var f := Fields(0, d.size, d.md5);
    ReadFieldsStep(js, toks, 1, 17, 5, NO_FIELDS);
    ReadFieldsStep(js, toks, 3, 15, 4, NO_FIELDS);
    ReadFieldsStep(js, toks, 5, 13, 3, NO_FIELDS);
    ReadFieldsStep(js, toks, 7, 11, 2, NO_FIELDS);
    MetaRead(js, toks, d);
    ReadFieldsStep(js, toks, 15, 3, 1, f);
    ReadFieldsStep(js, toks, 17, 1, 0, f);
  }

  lemma TokensRead(js: string, toks: seq<Token>, d: Announcement, names: seq<string>, hasNtfy: bool, answer: nat)
    requires Spans(toks, |js|) && Listed(js, toks, d)
    ensures DecodeTokens(js, toks, names, hasNtfy, answer)
            == T.Decoded(d.cid, ResourceFrom(names, d.name, 0), d.size, d.md5, 0, hasNtfy, answer)
  {
    hide ReadFields, FindCid, Hex, Dec, ScanU32, Number;
    OnlyKeys(js, toks, d);
    FindCidOn(js, toks, 1, 15);
    FieldsRead(js, toks, d);
    var found := ResourceFrom(names, d.name, 0);
    assert FindResource(js, toks, 0, names, None) == FindResource(js, toks, 1, names, None);
    if found.Some? {
      FindResourceOn(js, toks, 3, names, found);
    }
  }

  // ---------- The texts are JSON ----------

  lemma {:induction false} NoEscape(b: string)
    requires forall i :: 0 <= i < |b| ==> b[i] != '\"' && b[i] != '\\' && b[i] != NUL
    ensures ValidBody(b)
    decreases |b|
  {
    if b != [] {
      NoEscape(b[1..]);
    }
  }

  lemma {:induction false} HexIsBody(m: seq<bv8>)
    ensures forall i :: 0 <= i < |Hex(m)| ==> Hex(m)[i] in "0123456789abcdef"
    decreases |m|
  {
    if m != [] {
      HexIsBody(m[1..]);
      HalvesJoin(m[0]);
      hide HexDigit, Hex;
      IsHexDigit(m[0] >> 4);
      IsHexDigit(m[0] & 15);
      HexStep(m);
      var two := [HexDigit(m[0] >> 4), HexDigit(m[0] & 15)];
      forall i | 0 <= i < |Hex(m)|
        ensures Hex(m)[i] in "0123456789abcdef"
      {
        if i < 2 {
          assert Hex(m)[i] == two[i];
        } else {
          assert Hex(m)[i] == Hex(m[1..])[i - 2];
        }
      }
    }
  }

  lemma HexStep(m: seq<bv8>)
    requires m != [] && m[0] >> 4 < 16 && m[0] & 15 < 16
    ensures Hex(m) == [HexDigit(m[0] >> 4), HexDigit(m[0] & 15)] + Hex(m[1..])
  {
  }

  lemma IsHexDigit(d: bv8)
    requires d < 16
    ensures HexDigit(d) in "0123456789abcdef"
  {
    var i := d as int;
    assert 0 <= i < 16;
  }

  lemma MetaValid(d: Announcement)
    requires Plain(d)
    ensures ValidMembers(Meta(d))
  {
    hide ValidBody, Valid, ValidMembers, Pair, Hex, Dec;
    DecShape(d.size);
    HexIsBody(d.md5);
    NoEscape(Dec(d.size));
    NoEscape(Hex(d.md5));
    NoEscape("size");
    NoEscape("uri");
    NoEscape("md5");
    TextValid(Dec(d.size));
    TextValid(d.uri);
    TextValid(Hex(d.md5));
    NothingValid();
    var m3 := Pair("md5", Text(Hex(d.md5)), NoMembers);
    PairShape("md5", Text(Hex(d.md5)), NoMembers);
    PairShape("uri", Text(d.uri), m3);
    PairShape("size", Text(Dec(d.size)), Pair("uri", Text(d.uri), m3));
  }

  lemma TextValid(b: string)
    ensures Valid(Text(b)) <==> ValidBody(b)
  {
  }

  lemma WordValid(n: int)
    ensures Valid(Word(Signed(n)))
  {
    SignedIsWord(n);
  }

  lemma DocValid(d: Announcement)
    requires Plain(d)
    ensures Valid(Doc(d))
  {
    hide ValidBody, Valid, ValidMembers, Pair, Meta, Signed;
    MetaValid(d);
    NoEscape("id");
    NoEscape("old");
    NoEscape("new");
    NoEscape("m");
    NoEscape("cid");
    TextValid(d.name);
    TextValid(d.from);
    TextValid(d.to);
    WordValid(d.cid);
    NothingValid();
    var f5 := Cid(d.cid);
    var f4 := Pair("m", Dict("", Meta(d)), f5);
    var f3 := Pair("new", Text(d.to), f4);
    var f2 := Pair("old", Text(d.from), f3);
    PairShape("cid", Word(Signed(d.cid)), NoMembers);
    DictShape(Meta(d));
    PairShape("m", Dict("", Meta(d)), f5);
    PairShape("new", Text(d.to), f4);
    PairShape("old", Text(d.from), f3);
    PairShape("id", Text(d.name), f2);
    DictShape(Pair("id", Text(d.name), f2));
  }

  /** For every announcement and every list of resources, the printed request is read back: the id,
      the resource of that name or none, size and digest; and no guard turns it back. */
  lemma RequestRead(d: Announcement, names: seq<string>, hasNtfy: bool, answer: nat)
    requires Plain(d)
    ensures DecodeRequest(Print(Doc(d)), names, hasNtfy, answer)
            == T.Decoded(d.cid, ResourceFrom(names, d.name, 0), d.size, d.md5, 0, hasNtfy, answer)
  {
    hide JsmnSpec.Run, Print, Tokens, Valid, Listed, DecodeTokens, Spans, Pair, Meta, Cid;
    DocValid(d);
    DocTokenCount(d);
    Parsed(Doc(d), 17);
    var js := Print(Doc(d));
    DocListed(js, Tokens(Doc(d), 0), d);
    TokensRead(js, Tokens(Doc(d), 0), d, names, hasNtfy, answer);
  }

  /** So many tokens, wherever the members are. */
  ghost predicate Takes(members: Members, n: nat) {
    forall at: nat :: |MemberTokens(members, at)| == n
  }

  lemma NothingTakes()
    ensures Takes(NoMembers, 0)
  {
  }

  lemma LeafTakes(key: string, v: Value, rest: Members, n: nat)
    requires Takes(rest, n) && (v.Text? || v.Word?)
    ensures Takes(Pair(key, v, rest), n + 2)
  {
    hide MemberTokens, Pair, Print;
    forall at: nat
      ensures |MemberTokens(Pair(key, v, rest), at)| == n + 2
    {
      PairTokens(key, v, rest, at);
    }
  }

  lemma DictTakes(key: string, inner: Members, rest: Members, m: nat, n: nat)
    requires Takes(inner, m) && Takes(rest, n)
    ensures Takes(Pair(key, Dict("", inner), rest), 2 + m + n)
  {
    hide MemberTokens, Pair, Print, Tokens;
    forall at: nat
      ensures |MemberTokens(Pair(key, Dict("", inner), rest), at)| == 2 + m + n
    {
      PairTokens(key, Dict("", inner), rest, at);
      DictTokens(inner, at + |key| + 3);
    }
  }

  lemma ObjectTakes(members: Members, n: nat)
    requires Takes(members, n)
    ensures |Tokens(Dict("", members), 0)| == 1 + n
  {
    hide Tokens, MemberTokens;
    DictTokens(members, 0);
  }

  lemma DocTokenCount(d: Announcement)
    ensures |Tokens(Doc(d), 0)| == 17
  {
    hide Takes, Tokens, Pair, Hex, Dec, Signed;
    NothingTakes();
    var m3 := Pair("md5", Text(Hex(d.md5)), NoMembers);
    LeafTakes("md5", Text(Hex(d.md5)), NoMembers, 0);
    LeafTakes("uri", Text(d.uri), m3, 2);
    LeafTakes("size", Text(Dec(d.size)), Pair("uri", Text(d.uri), m3), 4);
    LeafTakes("cid", Word(Signed(d.cid)), NoMembers, 0);
    var f4 := Pair("m", Dict("", Meta(d)), Cid(d.cid));
    DictTakes("m", Meta(d), Cid(d.cid), 6, 2);
    var f3 := Pair("new", Text(d.to), f4);
    LeafTakes("new", Text(d.to), f4, 10);
    LeafTakes("old", Text(d.from), f3, 12);
    LeafTakes("id", Text(d.name), Pair("old", Text(d.from), f3), 14);
    ObjectTakes(Pair("id", Text(d.name), Pair("old", Text(d.from), f3)), 16);
  }

  /** A printed document, tokenized. */
  lemma Parsed(v: Value, n: nat)
    requires v.Dict? && Valid(v) && |Tokens(v, 0)| == n <= MAX_TOKENS
    ensures var js := Print(v);
            && JsmnSpec.Run(js, MAX_TOKENS, INIT) == Outcome(Done, State(|js|, -1, Tokens(v, 0)))
            && Spans(Tokens(v, 0), |js|) && js != []
  {
    hide JsmnSpec.Run, Print, Tokens, Valid;
    NoBlanks(Print(v));
    DictPrints(v);
    ParseTree("", v, "", MAX_TOKENS);
    ParsedSpans(Print(v), MAX_TOKENS);
  }

  lemma DictPrints(v: Value)
    requires v.Dict?
    ensures Print(v) != []
  {
  }

  // ---------- Requests that block the record ----------

  /** The record after a message. */
  function After(st: T.Rsc, js: string, names: seq<string>, hasNtfy: bool, answer: nat): T.Rsc {
    T.Handle(st, DecodeRequest(js, names, hasNtfy, answer)).0
  }

  /** Any text blocks a free record for ever exactly if it carries an id and names no resource of the
      user, and then the user is not asked, or accepts, or a guard turns back before. */
  lemma BlocksExactlyIf(st: T.Rsc, js: string, names: seq<string>, hasNtfy: bool, answer: nat)
    requires st.cid == 0
    ensures var r := DecodeRequest(js, names, hasNtfy, answer);
            T.Blocked(After(st, js, names, hasNtfy, answer)) <==>
              r.Decoded? && r.cid != 0 && r.obj == None && (r.refusal != 0 || !hasNtfy || answer == 0)
  {
    hide DecodeTokens, JsmnSpec.Run, T.Handle, T.Continue;
    var r := DecodeRequest(js, names, hasNtfy, answer);
    T.OrphanedExactlyIf(st, r);
    T.BlocksExactlyOrphans(T.Handle(st, r).0);
    Passed(js, names, hasNtfy, answer);
  }

  lemma Passed(js: string, names: seq<string>, hasNtfy: bool, answer: nat)
    ensures var r := DecodeRequest(js, names, hasNtfy, answer);
            r.Decoded? ==> r.hasNtfy == hasNtfy && r.answer == answer
  {
    hide JsmnSpec.Run, FindResource, ReadFields, FindCid, Spans;
  }

  /** A complete, well-formed request for a resource the user does not have is answered with 0 and
      blocks the record for ever, unless the user is asked and refuses. */
  lemma UnknownResourceBlocks(st: T.Rsc, d: Announcement, names: seq<string>, hasNtfy: bool, answer: nat)
    requires st.cid == 0 && Plain(d)
    ensures var js := Print(Doc(d));
            && (T.Blocked(After(st, js, names, hasNtfy, answer)) <==>
                  d.cid != 0 && d.name !in names && (!hasNtfy || answer == 0))
            && (T.Handle(st, DecodeRequest(js, names, hasNtfy, answer)).2 == 0 <==> !hasNtfy || answer == 0)
  {
    hide DecodeRequest, Print, Doc, T.Blocked;
    RequestRead(d, names, hasNtfy, answer);
    ResourceFromIn(names, d.name, 0);
    BlocksExactlyIf(st, Print(Doc(d)), names, hasNtfy, answer);
  }

  /** {"cid": n, "m": k} */
  function Short(n: int, k: int): Value {
    Dict("", Pair("cid", Word(Signed(n)), Pair("m", Word(Signed(k)), NoMembers)))
  }

  lemma ShortListed(n: int, k: int) returns (toks: seq<Token>)
    ensures toks == Tokens(Short(n, k), 0) && |toks| == 5
    ensures var js := Print(Short(n, k));
            && JsmnSpec.Run(js, MAX_TOKENS, INIT) == Outcome(Done, State(|js|, -1, toks)) && js != []
            && Spans(toks, |js|) && toks[0].kind == Object && toks[0].size == 2
            && IsKey(js, toks, 1, "cid") && Number(js, toks[2]) == Some(n) && toks[2].kind == Primitive && toks[2].size == 0
            && IsKey(js, toks, 3, "m") && toks[4].kind == Primitive && toks[4].size == 0
  {
    hide JsmnSpec.Run, At, Print, PrintMembers, Tokens, MemberTokens, Spans, IsKey, Pair, Width, Valid, ValidMembers, Number,
         Signed, Takes, ValidBody;
    var f2 := Pair("m", Word(Signed(k)), NoMembers);
    var f1 := Pair("cid", Word(Signed(n)), f2);
    var v := Dict("", f1);
    toks := Tokens(v, 0);
    NoEscape("m");
    NoEscape("cid");
    WordValid(n);
    WordValid(k);
    NothingValid();
    PairShape("m", Word(Signed(k)), NoMembers);
    PairShape("cid", Word(Signed(n)), f2);
    DictShape(f1);
    NothingTakes();
    LeafTakes("m", Word(Signed(k)), NoMembers, 0);
    LeafTakes("cid", Word(Signed(n)), f2, 2);
    ObjectTakes(f1, 4);
    Parsed(v, 5);
    var js := Print(v);
    DictTokens(f1, 0);
    AllAt(js);
    AtSplit(js, 0, "{", PrintMembers(f1));
    var head := [Token(Object, 0, 1 + |PrintMembers(f1)|, Width(f1))];
    AllTokensAt(toks);
    AtSplit(toks, 0, head, MemberTokens(f1, 1));
    PairWidth("m", Word(Signed(k)), NoMembers);
    PairWidth("cid", Word(Signed(n)), f2);
    NoWidth();
    var at2 := NumberMember(js, toks, 1, 1, "cid", n, f2);
    var at3 := NumberMember(js, toks, at2, 3, "m", k, NoMembers);
  }

  /** Turned back after the id was stored: the sender is told of an error, the record stays blocked,
      whatever resources there are and whatever the user would have said. */
  lemma EarlyReturnBlocks(st: T.Rsc, n: int, k: int, names: seq<string>, hasNtfy: bool, answer: nat)
    requires st.cid == 0 && n != 0
    ensures var js := Print(Short(n, k));
            && DecodeRequest(js, names, hasNtfy, answer)
               == T.Decoded(n, None, 0, Zeros(16), INTERNAL_ERROR, hasNtfy, answer)
            && T.Blocked(After(st, js, names, hasNtfy, answer))
  {
    var toks := ShortListed(n, k);
    var js := Print(Short(n, k));
    hide JsmnSpec.Run, Print, Tokens, Short, Spans, FindCid, ReadFields, FindResource, Number, T.Blocked, T.Handle;
    forall j | 0 <= j < 5
      ensures !IsKey(js, toks, j, "id")
    {
      if j == 1 || j == 3 {
        NotThisKey(js, toks, j, if j == 1 then "cid" else "m", "id");
      }
    }
    FindResourceOn(js, toks, 0, names, None);
    FindCidOn(js, toks, 1, 1);
    ReadFieldsStep(js, toks, 1, 5, 2, NO_FIELDS);
    ReadFieldsStep(js, toks, 3, 3, 1, NO_FIELDS);
    BlocksExactlyIf(st, js, names, hasNtfy, answer);
  }

  /** The shortest such message. */
  lemma ShortText()
    ensures Print(Short(7, 1)) == "{\"cid\":7,\"m\":1}"
  {
    var f2 := Pair("m", Word(Signed(1)), NoMembers);
    PairShape("m", Word(Signed(1)), NoMembers);
    PairShape("cid", Word(Signed(7)), f2);
    DictShape(Pair("cid", Word(Signed(7)), f2));
    assert Signed(7) == "7" && Signed(1) == "1";
  }

  /** A whole request, member by member. */
  lemma DocText(d: Announcement)
    requires d == Announcement("img", "1", "2", 7, "u", Zeros(16), 9)
    ensures Print(Doc(d))
            == "{" + ("\"id\":\"img\"" + ("," + ("\"old\":\"1\"" + ("," + ("\"new\":\"2\""
               + ("," + ("\"m\":" + ("{" + MetaText(d)) + ("," + ("\"cid\":9" + "}")))))))))
    ensures MetaText(d) == "\"size\":\"7\"" + ("," + ("\"uri\":\"u\"" + ("," + ("\"md5\":" + Quoted(Hex(d.md5)) + "}"))))
  {
    hide Print, PrintMembers, Pair, Hex, Signed, Dec, Quoted;
    var g3 := Pair("md5", Text(Hex(d.md5)), NoMembers);
    var g2 := Pair("uri", Text("u"), g3);
    var f5 := Pair("cid", Word(Signed(9)), NoMembers);
    var f4 := Pair("m", Dict("", Meta(d)), f5);
    var f3 := Pair("new", Text("2"), f4);
    var f2 := Pair("old", Text("1"), f3);
    PairIsMember("md5", Text(Hex(d.md5)), NoMembers);
    PairIsMember("uri", Text("u"), g3);
    PairIsMember("cid", Word(Signed(9)), NoMembers);
    PairIsMember("m", Dict("", Meta(d)), f5);
    PairIsMember("new", Text("2"), f4);
    PairIsMember("old", Text("1"), f3);
    PairShape("md5", Text(Hex(d.md5)), NoMembers);
    PairShape("uri", Text("u"), g3);
    PairShape("size", Text(Dec(7)), g2);
    DictShape(Meta(d));
    PairShape("cid", Word(Signed(9)), NoMembers);
    PairShape("m", Dict("", Meta(d)), f5);
    PairShape("new", Text("2"), f4);
    PairShape("old", Text("1"), f3);
    PairShape("id", Text("img"), f2);
    DictShape(Pair("id", Text("img"), f2));
    OneDigit();
    TextPrints(Hex(d.md5));
    TextPrints("u");
    TextPrints("7");
    TextPrints("2");
    TextPrints("1");
    TextPrints("img");
    WordPrints("9");
    KeysPrint();
  }

  function MetaText(d: Announcement): string {
    PrintMembers(Meta(d))
  }

  lemma KeysPrint()
    ensures Quoted("id") + ":" + Quoted("img") == "\"id\":\"img\""
    ensures Quoted("old") + ":" + Quoted("1") == "\"old\":\"1\"" && Quoted("new") + ":" + Quoted("2") == "\"new\":\"2\""
    ensures Quoted("m") + ":" == "\"m\":" && Quoted("cid") + ":" + "9" == "\"cid\":9"
    ensures Quoted("size") + ":" + Quoted("7") == "\"size\":\"7\"" && Quoted("uri") + ":" + Quoted("u") == "\"uri\":\"u\""
    ensures Quoted("md5") + ":" == "\"md5\":"
  {
  }

  lemma TextPrints(b: string)
    ensures Print(Text(b)) == Quoted(b)
  {
  }

  lemma OneDigit()
    ensures Dec(7) == "7" && Signed(9) == "9"
  {
  }
}
