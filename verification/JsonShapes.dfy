/** JSON documents without white space, as the library prints them: members, their text, their
    tokens, and what the tokens spell. */
module JsonShapes {
  import opened JsmnSpec
  import opened JsonTokens
  import opened JsonTree
  import opened Numbers
  import opened Slices

  function Pair(key: string, v: Value, rest: Members): Members {
    Member("", key, "", "", v, "", rest)
  }

  lemma PairShape(key: string, v: Value, rest: Members)
    ensures PrintMembers(Pair(key, v, rest))
            == Quoted(key) + ":" + Print(v) + if rest.NoMembers? then "}" else "," + PrintMembers(rest)
    ensures ValidMembers(Pair(key, v, rest)) <==> ValidBody(key) && Valid(v) && ValidMembers(rest)
  {
    hide Print, Quoted, Valid, ValidBody;
    assert "" + Quoted(key) + "" + ":" + "" + Print(v) + "" == Quoted(key) + ":" + Print(v);
  }

  lemma DictShape(members: Members)
    ensures Print(Dict("", members)) == "{" + PrintMembers(members)
    ensures Valid(Dict("", members)) <==> ValidMembers(members)
  {
    hide PrintMembers, ValidMembers;
    assert "{" + "" + PrintMembers(members) == "{" + PrintMembers(members);
  }

  lemma PairIsMember(key: string, v: Value, rest: Members)
    ensures Pair(key, v, rest).Member?
  {
  }

  lemma NothingValid()
    ensures ValidMembers(NoMembers)
  {
  }

  lemma WordPrints(w: string)
    ensures Print(Word(w)) == w
  {
  }

  lemma SignedIsWord(v: int)
    ensures ValidWord(Signed(v))
  {
    hide Signed;
    SignedShape(v);
  }

  lemma Letter(c: char, b: string)
    requires b == [c] && c != '\"' && c != '\\' && c != NUL
    ensures ValidBody(b)
  {
    assert b[1..] == [];
  }

  lemma ThreeLetters(b: string)
    requires |b| == 3 && forall i :: 0 <= i < 3 ==> b[i] != '\"' && b[i] != '\\' && b[i] != NUL
    ensures ValidBody(b)
  {
    Letter(b[2], b[2..]);
    assert b[1..][1..] == b[2..];
    assert ValidBody(b[1..]);
  }

  // ---------- Tokens and text ----------

  lemma PairTokens(key: string, v: Value, rest: Members, at: nat)
    ensures MemberTokens(Pair(key, v, rest), at)
            == [Token(String, at + 1, at + 1 + |key|, 1)] + Tokens(v, at + |key| + 3)
               + MemberTokens(rest, at + |key| + 3 + |Print(v)| + 1)
  {
    hide Print, Tokens;
  }

  lemma DictTokens(members: Members, at: nat)
    ensures Tokens(Dict("", members), at)
            == [Token(Object, at, at + 1 + |PrintMembers(members)|, Width(members))] + MemberTokens(members, at + 1)
  {
    hide PrintMembers, MemberTokens;
    DictShape(members);
  }

  lemma WordTokens(w: string, at: nat)
    ensures Tokens(Word(w), at) == [Token(Primitive, at, at + |w|, 0)]
  {
  }

  lemma PairWidth(key: string, v: Value, rest: Members)
    ensures Width(Pair(key, v, rest)) == 1 + Width(rest)
  {
  }

  lemma NoWidth()
    ensures Width(NoMembers) == 0
  {
  }

  lemma QuotedAt(js: string, p: nat, b: string)
    requires At(js, p, Quoted(b))
    ensures At(js, p + 1, b)
  {
    hide At;
    AtSplit(js, p, "\"" + b, "\"");
    AtSplit(js, p, "\"", b);
  }

  lemma QuotedLength(b: string)
    ensures |Quoted(b)| == |b| + 2
  {
  }

  lemma KeyAndValueAt(js: string, at: nat, key: string, w: string, more: string)
    requires At(js, at, Quoted(key) + ":" + w + more)
    ensures At(js, at + 1, key) && At(js, at + |key| + 3, w) && At(js, at + |key| + 3 + |w|, more)
  {
    hide At, Quoted;
    QuotedLength(key);
    AtSplit(js, at, Quoted(key) + ":" + w, more);
    AtSplit(js, at, Quoted(key) + ":", w);
    AtSplit(js, at, Quoted(key), ":");
    QuotedAt(js, at, key);
  }

  lemma MemberText(js: string, key: string, v: Value, rest: Members, at: nat)
    requires At(js, at, PrintMembers(Pair(key, v, rest)))
    ensures At(js, at + 1, key) && At(js, at + |key| + 3, Print(v))
    ensures rest.Member? ==> At(js, at + |key| + 3 + |Print(v)| + 1, PrintMembers(rest))
  {
    hide At, Print, PrintMembers, Pair, Quoted;
    PairShape(key, v, rest);
    if rest.Member? {
      KeyAndValueAt(js, at, key, Print(v), "," + PrintMembers(rest));
      AtSplit(js, at + |key| + 3 + |Print(v)|, ",", PrintMembers(rest));
    } else {
      KeyAndValueAt(js, at, key, Print(v), "}");
    }
  }

  lemma Middle(js: string, p: nat, t: string, lo: nat, hi: nat)
    requires At(js, p, t) && lo <= hi <= |t|
    ensures At(js, p + lo, t[lo..hi])
  {
    assert t == t[..lo] + t[lo..hi] + t[hi..];
    AtSplit(js, p, t[..lo] + t[lo..hi], t[hi..]);
    AtSplit(js, p, t[..lo], t[lo..hi]);
  }

  lemma AllAt(js: string)
    ensures At(js, 0, js)
  {
  }

  lemma NoBlanks(js: string)
    ensures "" + js + "" == js && Blank("")
  {
  }

  lemma SpanIs(js: string, t: Token, s: string)
    requires Spanned(t, |js|) && At(js, t.start, s) && t.end == t.start + |s|
    ensures Span(js, t) == s
  {
  }

  lemma FindStep(js: string, toks: seq<Token>, i: nat)
    requires Spans(toks, |js|) && i < |toks|
    ensures Spanned(toks[i], |js|)
    ensures FindCid(js, toks, i) == if IsCidKey(js, toks[i]) then Number(js, TokenAt(toks, i + 1)) else FindCid(js, toks, i + 1)
  {
    hide Spanned, IsCidKey, Number;
  }

  lemma NotCid(js: string, t: Token)
    requires Spanned(t, |js|) && (t.kind != String || t.size != 1 || t.end - t.start != 3)
    ensures !IsCidKey(js, t)
  {
  }
}
