/** Reading the tokenizer's output: what a token spells, and where the correlation id is. */
module JsonTokens {
  import opened Bytes
  import opened JsmnSpec
  import opened JsmnInvariants
  import opened Numbers

  const NO_TOKEN: Token := Token(Undefined, 0, 0, 0)

  /** The array is cleared first, so entries behind the tokens read as nothing. */
  function TokenAt(toks: seq<Token>, i: nat): Token {
    if i < |toks| then toks[i] else NO_TOKEN
  }

  predicate Spanned(t: Token, n: nat) {
    0 <= t.start <= t.end <= n && (t.kind == String ==> t.end < n)
  }

  predicate Spans(toks: seq<Token>, n: nat) {
    forall i :: 0 <= i < |toks| ==> Spanned(toks[i], n)
  }

  function Span(js: string, t: Token): string
    requires Spanned(t, |js|)
  {
    js[t.start..t.end]
  }

  /** The token is the string `name`. */
  predicate Reads(js: string, t: Token, name: string)
    requires Spanned(t, |js|)
  {
    t.kind == String && Span(js, t) == name
  }

  // ---------- The correlation id ----------

  predicate IsCidKey(js: string, t: Token)
    requires Spanned(t, |js|)
  {
    Reads(js, t, "cid") && t.size == 1
  }

  function Number(js: string, t: Token): Option<int> {
    if t.kind == Primitive && t.size == 0 && t.start >= 0 then ScanInt(js, t.start, true) else None
  }

  /** The number behind the first key "cid" at or after token i. */
  function FindCid(js: string, toks: seq<Token>, i: nat): Option<int>
    requires Spans(toks, |js|)
    decreases |toks| - i
  {
    if i >= |toks| then None
    else if IsCidKey(js, toks[i]) then Number(js, TokenAt(toks, i + 1))
    else FindCid(js, toks, i + 1)
  }

  lemma ParsedSpans(js: string, cap: nat)
    requires Code(Run(js, cap, INIT)) >= 0
    ensures Spans(Run(js, cap, INIT).st.toks, |js|) && |Run(js, cap, INIT).st.toks| <= cap
    ensures Code(Run(js, cap, INIT)) == |Run(js, cap, INIT).st.toks|
    ensures LastChildless(Run(js, cap, INIT).st.toks)
  {
    hide Run;
    SuccessIsForest(js, cap);
    RunKeepsLast(js, cap, INIT);
  }

  lemma StringsRead(js: string, t: Token, name: string)
    requires Spanned(t, |js|)
    ensures Reads(js, t, name) ==> t.kind == String
  {
  }

  // ---------- The code ----------

  /** The array was cleared, then `cnt` tokens were stored. */
  predicate Loaded(tokens: seq<Token>, cnt: nat) {
    cnt <= |tokens| && forall i :: cnt <= i < |tokens| ==> tokens[i] == NO_TOKEN
  }

  method CheckToken(payload: array<char>, token: Token, name: string) returns (ret: int)
    requires Spanned(token, payload.Length) && name != ""
    ensures ret == if Reads(payload[..], token, name) then 1 else 0
  {
    ret := 0;
    if token.kind == String {
      if token.end - token.start == |name| && payload[token.start..token.end] == name {
        ret := 1;
      }
    }
    assert payload[..][token.start..token.end] == payload[token.start..token.end];
  }

  method CorrelationId(payload: array<char>, tokens: array<Token>, tokenCnt: nat) returns (ret: int, cid: int)
    requires 1 <= tokenCnt <= tokens.Length && Loaded(tokens[..], tokenCnt)
    requires Spans(tokens[..tokenCnt], payload.Length) && LastChildless(tokens[..tokenCnt])
    ensures ret == if FindCid(payload[..], tokens[..tokenCnt], 1).Some? then 0 else -1
    ensures cid == if ret == 0 then FindCid(payload[..], tokens[..tokenCnt], 1).value else 0
  {
    ghost var js, toks := payload[..], tokens[..tokenCnt];
    cid := 0;
    var idx := 1;
    while idx < tokenCnt
      invariant 1 <= idx <= tokenCnt
      invariant FindCid(js, toks, 1) == FindCid(js, toks, idx)
    {
      var t := tokens[idx];
      assert t == toks[idx] && Spanned(t, payload.Length);
      if t.kind == String && t.size == 1 && 3 == t.end - t.start && payload[..][t.start..t.end] == "cid" {
        assert idx + 1 < tokenCnt;
        idx := idx + 1;
        var n := tokens[idx];
        assert n == toks[idx] && Spanned(n, payload.Length);
        if n.kind == Primitive && n.size == 0 {
          var v := ScanInt(payload[..], n.start, true);
          if v.Some? {
            return 0, v.value;
          }
        }
        return -1, 0;
      }
      idx := idx + 1;
    }
    ret := -1;
  }
}
