/** A resource request, from its text: which resource it names, what it announces, and at
    which guard the decoder turns back after the correlation id was already stored. */
module ResourceRequest {
  import opened Bytes
  import opened JsmnSpec
  import opened JsonTokens
  import opened Md5Spec
  import opened Numbers
  import opened TransferSpec

  const MAX_TOKENS: nat := 20
  const INTERNAL_ERROR: nat := 1
  const INVALID_RESOURCE: nat := 3

  // ---------- The digest in hexadecimal ----------

  function Nibble(c: char): Option<bv8> {
    if '0' <= c <= '9' then Some((c as int - '0' as int) as bv8)
    else if 'A' <= c <= 'F' then Some((c as int - 'A' as int + 10) as bv8)
    else if 'a' <= c <= 'f' then Some((c as int - 'a' as int + 10) as bv8)
    else None
  }

  /** Digit i of 32: the upper half of a byte, then the lower. */
  function PutDigit(buf: Md5Value, i: nat, d: bv8): Md5Value
    requires i < 32
  {
    var k := if i % 2 != 0 then d else d << 4;
    buf[i / 2 := buf[i / 2] | k]
  }

  /** Digits from position i on go into the digest, up to the first character that is none. */
  function HexInto(buf: Md5Value, s: string, i: nat): Md5Value
    requires |s| == 32 && i <= 32
    decreases 32 - i
  {
    if i == 32 || Nibble(s[i]) == None then buf
    else HexInto(PutDigit(buf, i, Nibble(s[i]).value), s, i + 1)
  }

  // ---------- The resource ----------

  function ResourceFrom(names: seq<string>, name: string, j: nat): (r: Option<nat>)
    ensures r.Some? ==> r.value < |names| && names[r.value] == name
    decreases |names| - j
  {
    if j >= |names| then None
    else if names[j] == name then Some(j)
    else ResourceFrom(names, name, j + 1)
  }

  /** How the search ends: on a key "id" without a string, or with what was found and the index
      the loop stopped at. */
  datatype Search = Search(bad: bool, obj: Option<nat>, idx: nat)

  /** The search from token idx on; it goes on after a resource was found, and stops at the first
      name that is unknown while none was found. */
  function FindResource(js: string, toks: seq<Token>, idx: nat, names: seq<string>, obj: Option<nat>): (r: Search)
    requires Spans(toks, |js|)
    ensures r.obj == None && idx < |toks| ==> r.idx < |toks|
    decreases |toks| - idx
  {
    if idx + 1 >= |toks| then Search(false, obj, idx)
    else if Reads(js, toks[idx], "id") && toks[idx].size == 1 then
      var t := toks[idx + 1];
      if t.kind != String || t.size != 0 then Search(true, obj, idx + 1)
      else
        var found := ResourceFrom(names, Span(js, t), 0);
        var o := if found.Some? then found else obj;
        if o == None then Search(false, None, idx + 1) else FindResource(js, toks, idx + 2, names, o)
    else FindResource(js, toks, idx + 1, names, obj)
  }

  /** The first key "id" that has a token behind it. */
  function FirstId(js: string, toks: seq<Token>, i: nat): (r: Option<nat>)
    requires Spans(toks, |js|)
    ensures r.Some? ==> r.value + 1 < |toks|
    decreases |toks| - i
  {
    if i + 1 >= |toks| then None
    else if Reads(js, toks[i], "id") && toks[i].size == 1 then Some(i)
    else FirstId(js, toks, i + 1)
  }

  /** That key has a string behind it which names a resource of the user. */
  predicate NamesResource(js: string, toks: seq<Token>, names: seq<string>)
    requires Spans(toks, |js|)
  {
    && FirstId(js, toks, 0).Some?
    && var t := toks[FirstId(js, toks, 0).value + 1];
    && t.kind == String && t.size == 0 && Span(js, t) in names
  }

  lemma {:induction false} ResourceFromIn(names: seq<string>, name: string, j: nat)
    ensures ResourceFrom(names, name, j).Some? <==> exists k :: j <= k < |names| && names[k] == name
    decreases |names| - j
  {
    if j < |names| && names[j] != name {
      ResourceFromIn(names, name, j + 1);
    }
  }

  lemma {:induction false} FoundStays(js: string, toks: seq<Token>, i: nat, names: seq<string>, obj: Option<nat>)
    requires Spans(toks, |js|) && obj.Some?
    ensures FindResource(js, toks, i, names, obj).obj.Some?
    decreases |toks| - i
  {
    if i + 1 < |toks| {
      if Reads(js, toks[i], "id") && toks[i].size == 1 {
        var t := toks[i + 1];
        if t.kind == String && t.size == 0 {
          var found := ResourceFrom(names, Span(js, t), 0);
          FoundStays(js, toks, i + 2, names, if found.Some? then found else obj);
        }
      } else {
        FoundStays(js, toks, i + 1, names, obj);
      }
    }
  }

  lemma {:induction false} FirstIdDecides(js: string, toks: seq<Token>, i: nat, names: seq<string>)
    requires Spans(toks, |js|)
    ensures FindResource(js, toks, i, names, None).obj.Some? <==>
              && FirstId(js, toks, i).Some?
              && var t := toks[FirstId(js, toks, i).value + 1];
              && t.kind == String && t.size == 0 && Span(js, t) in names
    decreases |toks| - i
  {
    if i + 1 < |toks| {
      if Reads(js, toks[i], "id") && toks[i].size == 1 {
        var t := toks[i + 1];
        if t.kind == String && t.size == 0 {
          ResourceFromIn(names, Span(js, t), 0);
          var found := ResourceFrom(names, Span(js, t), 0);
          if found.Some? {
            FoundStays(js, toks, i + 2, names, found);
          }
        }
      } else {
        FirstIdDecides(js, toks, i + 1, names);
      }
    }
  }

  // ---------- The fields ----------

  /** What the loops over the fields leave in the record, and the code they return with. */
  datatype Fields = Fields(code: nat, size: nat, md5: Md5Value)

  /** One member of "m". */
  function MetaField(js: string, k: Token, v: Token, f: Fields): Fields
    requires Spanned(k, |js|) && Spanned(v, |js|)
  {
    if k.kind != String || k.size != 1 || v.kind != String || v.size != 0 then f.(code := INTERNAL_ERROR)
    else if Span(js, k) == "size" then
      var n := ScanU32(js, v.start);
      if n == None then f.(code := INTERNAL_ERROR) else f.(size := n.value)
    else if Span(js, k) == "md5" && v.end - v.start == 32 then f.(md5 := HexInto(Zeros(16), Span(js, v), 0))
    else f
  }

  lemma SpannedAt(toks: seq<Token>, i: nat, n: nat)
    requires Spans(toks, n)
    ensures Spanned(TokenAt(toks, i), n)
  {
  }

  lemma ReadMetaStep(js: string, toks: seq<Token>, idx: nat, ms: nat, f: Fields)
    requires Spans(toks, |js|)
    ensures Spanned(TokenAt(toks, idx), |js|) && Spanned(TokenAt(toks, idx + 1), |js|)
    ensures ms == 0 ==> ReadMeta(js, toks, idx, ms, f) == f
    ensures ms > 0 ==>
              var g := MetaField(js, TokenAt(toks, idx), TokenAt(toks, idx + 1), f);
              ReadMeta(js, toks, idx, ms, f) == if g.code != 0 then g else ReadMeta(js, toks, idx + 2, ms - 1, g)
  {
    hide MetaField, TokenAt, Spanned, Spans;
    SpannedAt(toks, idx, |js|);
    SpannedAt(toks, idx + 1, |js|);
  }

  function ReadMeta(js: string, toks: seq<Token>, idx: nat, ms: nat, f: Fields): Fields
    requires Spans(toks, |js|)
    decreases ms
  {
    if ms == 0 then f
    else
      SpannedAt(toks, idx, |js|);
      SpannedAt(toks, idx + 1, |js|);
      var g := MetaField(js, TokenAt(toks, idx), TokenAt(toks, idx + 1), f);
      if g.code != 0 then g else ReadMeta(js, toks, idx + 2, ms - 1, g)
  }

  /** `cnt` is the token count, less the tokens already passed. */
  function ReadFields(js: string, toks: seq<Token>, idx: nat, cnt: int, size: nat, f: Fields): Fields
    requires Spans(toks, |js|)
    decreases size
  {
    if size == 0 || cnt <= 0 then f
    else
      var k, v := TokenAt(toks, idx), TokenAt(toks, idx + 1);
      SpannedAt(toks, idx, |js|);
      if k.kind != String || k.size != 1 then f.(code := INTERNAL_ERROR)
      else if Span(js, k) == "m" then
        if v.kind != Object || v.size < 3 then f.(code := INTERNAL_ERROR)
        else
          var g := ReadMeta(js, toks, idx + 2, v.size, f);
          if g.code != 0 then g else ReadFields(js, toks, idx + 2 + 2 * v.size, cnt - 2 - 2 * v.size, size - 1, g)
      else if v.size != 0 || (v.kind != String && v.kind != Primitive) then f.(code := INTERNAL_ERROR)
      else ReadFields(js, toks, idx + 2, cnt - 2, size - 1, f)
  }

  lemma ReadFieldsStep(js: string, toks: seq<Token>, idx: nat, cnt: int, size: nat, f: Fields)
    requires Spans(toks, |js|)
    ensures Spanned(TokenAt(toks, idx), |js|)
    ensures size == 0 || cnt <= 0 ==> ReadFields(js, toks, idx, cnt, size, f) == f
    ensures size > 0 && cnt > 0 ==>
              var k, v := TokenAt(toks, idx), TokenAt(toks, idx + 1);
              var r := ReadFields(js, toks, idx, cnt, size, f);
              var bad := f.(code := INTERNAL_ERROR);
              if k.kind != String || k.size != 1 then r == bad
              else if Span(js, k) == "m" then
                if v.kind != Object || v.size < 3 then r == bad
                else
                  var g := ReadMeta(js, toks, idx + 2, v.size, f);
                  r == if g.code != 0 then g
                       else ReadFields(js, toks, idx + 2 + 2 * v.size, cnt - 2 - 2 * v.size, size - 1, g)
              else if v.size != 0 || (v.kind != String && v.kind != Primitive) then r == bad
              else r == ReadFields(js, toks, idx + 2, cnt - 2, size - 1, f)
  {
    hide TokenAt, Spanned, Spans, ReadMeta;
    SpannedAt(toks, idx, |js|);
  }

  // ---------- The request ----------

  const NO_FIELDS: Fields := Fields(0, 0, Zeros(16))

  /** After tokenizing. */
  function DecodeTokens(js: string, toks: seq<Token>, names: seq<string>, hasNtfy: bool, answer: nat): Request
    requires Spans(toks, |js|) && toks != []
  {
    if toks[0].kind != Object || toks[0].size <= 0 || FindCid(js, toks, 1) == None then Unreadable(INTERNAL_ERROR)
    else
      var cid := FindCid(js, toks, 1).value;
      var s := FindResource(js, toks, 0, names, None);
      if s.bad then Decoded(cid, s.obj, 0, Zeros(16), INTERNAL_ERROR, hasNtfy, answer)
      else if s.obj == None && s.idx == |toks| then Decoded(cid, None, 0, Zeros(16), INVALID_RESOURCE, hasNtfy, answer)
      else
        var f := ReadFields(js, toks, 1, |toks|, toks[0].size, NO_FIELDS);
        Decoded(cid, s.obj, f.size, f.md5, f.code, hasNtfy, answer)
  }

  /** The request a text stands for; `answer` is what the user's callback says if it is asked. */
  function DecodeRequest(js: string, names: seq<string>, hasNtfy: bool, answer: nat): Request {
    var o := JsmnSpec.Run(js, MAX_TOKENS, INIT);
    if js == [] || Code(o) < 0 then Unreadable(INTERNAL_ERROR)
    else if Code(o) == 0 then Unreadable(0)
    else
      ParsedSpans(js, MAX_TOKENS);
      DecodeTokens(js, o.st.toks, names, hasNtfy, answer)
  }

  // ---------- Unknown resources ----------

  /** The code that is meant for an unknown resource is never given. */
  lemma NeverInvalidResource(js: string, names: seq<string>, hasNtfy: bool, answer: nat)
    ensures var r := DecodeRequest(js, names, hasNtfy, answer);
            r.Decoded? ==> r.refusal in {0, INTERNAL_ERROR}
  {
    hide JsmnSpec.Run, FindResource, FindCid, Spans;
    var o := JsmnSpec.Run(js, MAX_TOKENS, INIT);
    if js != [] && Code(o) > 0 {
      ParsedSpans(js, MAX_TOKENS);
      FieldCodes(js, o.st.toks, 1, |o.st.toks|, if o.st.toks[0].size > 0 then o.st.toks[0].size else 0, NO_FIELDS);
    }
  }

  lemma {:induction false} MetaCodes(js: string, toks: seq<Token>, idx: nat, ms: nat, f: Fields)
    requires Spans(toks, |js|) && f.code == 0
    ensures ReadMeta(js, toks, idx, ms, f).code in {0, INTERNAL_ERROR}
    decreases ms
  {
    if ms > 0 {
      SpannedAt(toks, idx, |js|);
      SpannedAt(toks, idx + 1, |js|);
      var g := MetaField(js, TokenAt(toks, idx), TokenAt(toks, idx + 1), f);
      if g.code == 0 {
        MetaCodes(js, toks, idx + 2, ms - 1, g);
      }
    }
  }

  lemma {:induction false} FieldCodes(js: string, toks: seq<Token>, idx: nat, cnt: int, size: nat, f: Fields)
    requires Spans(toks, |js|) && f.code == 0
    ensures ReadFields(js, toks, idx, cnt, size, f).code in {0, INTERNAL_ERROR}
    decreases size
  {
    hide ReadMeta, Spans;
    if size > 0 && cnt > 0 {
      var v := TokenAt(toks, idx + 1);
      FieldCodes(js, toks, idx + 2, cnt - 2, size - 1, f);
      if v.kind == Object && v.size >= 3 {
        MetaCodes(js, toks, idx + 2, v.size, f);
        var g := ReadMeta(js, toks, idx + 2, v.size, f);
        if g.code == 0 {
          FieldCodes(js, toks, idx + 2 + 2 * v.size, cnt - 2 - 2 * v.size, size - 1, g);
        }
      }
    }
  }

  /** After tokenizing, the request lacks a resource exactly if the first key "id" names none. */
  lemma ResourceMissing(js: string, toks: seq<Token>, names: seq<string>, hasNtfy: bool, answer: nat)
    requires Spans(toks, |js|) && toks != []
    ensures var r := DecodeTokens(js, toks, names, hasNtfy, answer);
            r.Decoded? ==> (r.obj == None <==> !NamesResource(js, toks, names))
  {
    hide FindResource, FindCid, ReadFields, Spans, Reads, FirstId;
    FirstIdDecides(js, toks, 0, names);
  }

  // ---------- What turns a request back ----------

  /** A key "id" with something behind it that is not a string. */
  predicate WrongId(js: string, toks: seq<Token>, k: nat)
    requires Spans(toks, |js|) && k + 1 < |toks|
  {
    Reads(js, toks[k], "id") && toks[k].size == 1 && !(toks[k + 1].kind == String && toks[k + 1].size == 0)
  }

  lemma {:induction false} BadIsWrongId(js: string, toks: seq<Token>, i: nat, names: seq<string>, obj: Option<nat>)
    requires Spans(toks, |js|) && FindResource(js, toks, i, names, obj).bad
    ensures exists k :: i <= k && k + 1 < |toks| && WrongId(js, toks, k)
    decreases |toks| - i
  {
    hide Reads;
    if Reads(js, toks[i], "id") && toks[i].size == 1 {
      var t := toks[i + 1];
      if t.kind == String && t.size == 0 {
        var found := ResourceFrom(names, Span(js, t), 0);
        BadIsWrongId(js, toks, i + 2, names, if found.Some? then found else obj);
      } else {
        assert WrongId(js, toks, i);
      }
    } else {
      BadIsWrongId(js, toks, i + 1, names, obj);
    }
  }

  lemma {:induction false} FirstIdWrong(js: string, toks: seq<Token>, i: nat, names: seq<string>)
    requires Spans(toks, |js|)
    ensures FirstId(js, toks, i).Some? && WrongId(js, toks, FirstId(js, toks, i).value) ==>
              FindResource(js, toks, i, names, None).bad
    decreases |toks| - i
  {
    hide Reads;
    if i + 1 < |toks| && !(Reads(js, toks[i], "id") && toks[i].size == 1) {
      FirstIdWrong(js, toks, i + 1, names);
    }
  }

  /** An "id" without a string turns the request back: always if it is the first one, and nothing else does
      before the fields are read. */
  lemma IdTurnsBack(js: string, toks: seq<Token>, names: seq<string>)
    requires Spans(toks, |js|)
    ensures FirstId(js, toks, 0).Some? && WrongId(js, toks, FirstId(js, toks, 0).value) ==>
              FindResource(js, toks, 0, names, None).bad
    ensures (forall k :: 0 <= k < |toks| - 1 ==> !WrongId(js, toks, k)) ==> !FindResource(js, toks, 0, names, None).bad
  {
    hide FindResource, WrongId;
    FirstIdWrong(js, toks, 0, names);
    if FindResource(js, toks, 0, names, None).bad {
      BadIsWrongId(js, toks, 0, names, None);
    }
  }

  /** One member of "m" turns the request back exactly if it is no key with a string, or a size that is no
      number; it changes the size only as "size", the digest only as "md5" with 32 characters. */
  lemma MetaTurnsBack(js: string, k: Token, v: Token, f: Fields)
    requires Spanned(k, |js|) && Spanned(v, |js|) && f.code == 0
    ensures var g := MetaField(js, k, v, f);
            && (g.code == 0 <==>
                  && k.kind == String && k.size == 1 && v.kind == String && v.size == 0
                  && (Span(js, k) == "size" ==> ScanU32(js, v.start).Some?))
            && (g.size != f.size ==> Span(js, k) == "size")
            && (g.md5 != f.md5 ==> Span(js, k) == "md5" && v.end - v.start == 32)
            && (g.code == 0 && Span(js, k) == "size" ==> Some(g.size) == ScanU32(js, v.start))
  {
    hide HexInto, ScanU32;
  }

  /** A member of the request that may stand outside "m": a key with a string or a word. */
  predicate LeafMember(js: string, k: Token, v: Token)
    requires Spanned(k, |js|)
  {
    k.kind == String && k.size == 1 && v.size == 0 && (v.kind == String || v.kind == Primitive)
  }

  /** n of them from token idx on. */
  predicate LeafMembers(js: string, toks: seq<Token>, idx: nat, n: nat)
    requires Spans(toks, |js|) && idx + 2 * n <= |toks|
    decreases n
  {
    n == 0 || (LeafMember(js, toks[idx], toks[idx + 1]) && LeafMembers(js, toks, idx + 2, n - 1))
  }

  /** Without "m" among them, members are passed over exactly if each is a key with a string or a word. */
  lemma {:induction false} LeavesPass(js: string, toks: seq<Token>, idx: nat, n: nat, f: Fields)
    requires Spans(toks, |js|) && f.code == 0 && idx + 2 * n <= |toks|
    requires forall j :: idx <= j < idx + 2 * n && toks[j].kind == String ==> Span(js, toks[j]) != "m"
    ensures ReadFields(js, toks, idx, |toks| - idx + 1, n, f).code == 0 <==> LeafMembers(js, toks, idx, n)
    ensures ReadFields(js, toks, idx, |toks| - idx + 1, n, f).code == 0 ==>
              ReadFields(js, toks, idx, |toks| - idx + 1, n, f) == f
    decreases n
  {
    hide ReadFields, ReadMeta, LeafMember;
    ReadFieldsStep(js, toks, idx, |toks| - idx + 1, n, f);
    if n > 0 {
      LeafMemberMeans(js, toks[idx], toks[idx + 1]);
      LeavesPass(js, toks, idx + 2, n - 1, f);
    }
  }

  lemma LeafMemberMeans(js: string, k: Token, v: Token)
    requires Spanned(k, |js|)
    ensures LeafMember(js, k, v) <==>
              k.kind == String && k.size == 1 && v.size == 0 && (v.kind == String || v.kind == Primitive)
  {
  }

  lemma OneBraceRun()
    ensures Code(JsmnSpec.Run("{", MAX_TOKENS, INIT)) == -3
  {
    var s1 := State(1, 0, [Token(Object, 0, -1, 0)]);
    assert Step("{", MAX_TOKENS, INIT) == Go(s1);
    assert JsmnSpec.Run("{", MAX_TOKENS, s1) == Outcome(Failed(Part), s1);
  }

  lemma OneBlankRun()
    ensures JsmnSpec.Run(" ", MAX_TOKENS, INIT) == Outcome(Done, State(1, -1, []))
  {
    assert Step(" ", MAX_TOKENS, INIT) == Go(State(1, -1, []));
  }

  lemma OneWordRun()
    ensures JsmnSpec.Run("1", MAX_TOKENS, INIT) == Outcome(Done, State(1, -1, [Token(Primitive, 0, 1, 0)]))
  {
  }

  /** No text, an unfinished one and one that is no object are answered with an error, a blank one with 0. */
  lemma UnreadableTexts(names: seq<string>, hasNtfy: bool, answer: nat)
    ensures DecodeRequest("", names, hasNtfy, answer) == Unreadable(1)
    ensures DecodeRequest("{", names, hasNtfy, answer) == Unreadable(1)
    ensures DecodeRequest("1", names, hasNtfy, answer) == Unreadable(1)
    ensures DecodeRequest(" ", names, hasNtfy, answer) == Unreadable(0)
  {
    hide JsmnSpec.Run, FindCid, FindResource, ReadFields;
    OneBraceRun();
    OneBlankRun();
    OneWordRun();
  }
}
