/** What every reachable state of the tokenizer keeps, on arbitrary text. */
module JsmnInvariants {
  import opened JsmnSpec

  predicate Word(js: string, lo: int, hi: int) {
    && 0 <= lo < hi <= |js|
    && forall i :: lo <= i < hi ==> IsPrintable(js[i]) && !EndsPrimitive(js[i])
  }

  predicate Bracketed(js: string, t: Token, left: char, right: char) {
    && 0 <= t.start < |js| && js[t.start] == left
    && (t.end == -1 || (t.start + 2 <= t.end <= |js| && js[t.end - 1] == right))
  }

  /** The token is cut out of the text by its own delimiters. */
  predicate Delimited(js: string, t: Token) {
    && t.start >= 0
    && t.size >= 0
    && match t.kind
       case Object => Bracketed(js, t, '{', '}')
       case Array => Bracketed(js, t, '[', ']')
       case String => 0 < t.start <= t.end < |js| && js[t.start - 1] == '\"' && js[t.end] == '\"'
       case Primitive => Word(js, t.start, t.end)
       case Undefined => false
  }

  /** A word ends where the text ends or goes on with a character that ends words.  This holds of the
      text that was read; a longer text may go on with more of the word. */
  predicate WordEnds(js: string, t: Token) {
    t.kind == Primitive && 0 <= t.end < |js| ==> js[t.end] == NUL || EndsPrimitive(js[t.end])
  }

  predicate Ended(js: string, toks: seq<Token>) {
    forall i :: 0 <= i < |toks| ==> WordEnds(js, toks[i])
  }

  predicate SoFar(js: string, t: Token, pos: nat) {
    Delimited(js, t) && t.start < pos && t.end <= pos
  }

  /** A token created later lies after an earlier one, or inside it if that is a container
      (an open container reaches to the end of what has been read). */
  predicate Laminar(a: Token, b: Token) {
    && a.start < b.start
    && if a.end == -1 then IsContainer(a.kind)
       else a.end <= b.start || (IsContainer(a.kind) && b.end != -1 && b.end < a.end)
  }

  predicate Nested(toks: seq<Token>) {
    forall i, j :: 0 <= i < j < |toks| ==> Laminar(toks[i], toks[j])
  }

  predicate Inv(js: string, s: State) {
    && s.pos <= |js|
    && Wf(s)
    && (forall i :: 0 <= i < |s.toks| ==> SoFar(js, s.toks[i], s.pos))
    && Nested(s.toks)
  }

  /** Sum of the sizes of all tokens. */
  function TotalSize(toks: seq<Token>): int {
    if toks == [] then 0 else TotalSize(toks[..|toks| - 1]) + toks[|toks| - 1].size
  }

  lemma {:induction false} TotalSizeUpdate(toks: seq<Token>, i: nat, t: Token)
    requires i < |toks|
    ensures TotalSize(toks[i := t]) == TotalSize(toks) - toks[i].size + t.size
  {
    var n := |toks| - 1;
    var u := toks[i := t];
    if i == n {
      assert u[..n] == toks[..n];
    } else {
      TotalSizeUpdate(toks[..n], i, t);
      assert u[..n] == toks[..n][i := t];
    }
  }

  lemma OneChildMore(super: int, toks: seq<Token>, t: Token)
    requires -1 <= super < |toks| && t.size == 0
    ensures TotalSize(Adopt(super, toks) + [t]) == TotalSize(toks) + if super == -1 then 0 else 1
  {
    var a := Adopt(super, toks);
    assert (a + [t])[..|a|] == a;
    if super != -1 {
      TotalSizeUpdate(toks, super, toks[super].(size := toks[super].size + 1));
    }
  }

  // ---------- One step ----------

  lemma CloseKeepsNesting(toks: seq<Token>, i: nat, end: int)
    requires Nested(toks) && i < |toks| && toks[i].end == -1 && 0 <= end
    requires forall j :: 0 <= j < |toks| ==> toks[j].end < end
    requires forall j :: i < j < |toks| ==> toks[j].end != -1
    ensures Nested(toks[i := toks[i].(end := end)])
  {
    var u := toks[i := toks[i].(end := end)];
    forall a, b | 0 <= a < b < |u|
      ensures Laminar(u[a], u[b])
    {
      assert Laminar(toks[a], toks[b]);
    }
  }

  lemma CloseKeepsInv(js: string, s: State, k: Kind)
    requires Inv(js, s) && s.pos < |js| && IsContainer(k)
    requires js[s.pos] == if k == Object then '}' else ']'
    requires CloseContainer(s, k).Go?
    ensures Inv(js, CloseContainer(s, k).next)
    ensures TotalSize(CloseContainer(s, k).next.toks) == TotalSize(s.toks)
  {
    hide LastOpen, TotalSize, Laminar;
    var i := LastOpen(s.toks);
    var t := s.toks[i].(end := s.pos + 1);
    TotalSizeUpdate(s.toks, i, t);
    assert SoFar(js, s.toks[i], s.pos);
    assert SoFar(js, t, s.pos + 1);
    forall j | 0 <= j < |s.toks|
      ensures s.toks[j].end < s.pos + 1 && (i < j ==> s.toks[j].end != -1) && SoFar(js, s.toks[j], s.pos + 1)
    {
      assert SoFar(js, s.toks[j], s.pos);
      assert i < j ==> !IsOpen(s.toks[j]);
    }
    CloseKeepsNesting(s.toks, i, s.pos + 1);
  }

  lemma AdoptKeepsNesting(super: int, toks: seq<Token>)
    requires Nested(toks) && -1 <= super < |toks|
    ensures Nested(Adopt(super, toks))
  {
    var u := Adopt(super, toks);
    forall a, b | 0 <= a < b < |u|
      ensures Laminar(u[a], u[b])
    {
      assert Laminar(toks[a], toks[b]);
    }
  }

  lemma AdoptKeepsSoFar(js: string, s: State, pos: nat)
    requires Inv(js, s) && s.pos <= pos
    ensures forall i :: 0 <= i < |s.toks| ==> SoFar(js, Adopt(s.super, s.toks)[i], pos)
  {
    var u := Adopt(s.super, s.toks);
    forall i | 0 <= i < |s.toks|
      ensures SoFar(js, u[i], pos)
    {
      assert SoFar(js, s.toks[i], s.pos);
    }
  }

  lemma AppendKeepsInv(js: string, s: State, t: Token, s': State)
    requires Inv(js, s) && SoFar(js, t, s'.pos)
    requires s.pos <= t.start && s'.pos <= |js| && t.size == 0
    requires s'.toks == Adopt(s.super, s.toks) + [t] && Wf(s')
    ensures Inv(js, s')
    ensures TotalSize(s'.toks) == TotalSize(s.toks) + if s.super == -1 then 0 else 1
  {
    OneChildMore(s.super, s.toks, t);
    AdoptKeepsSoFar(js, s, s'.pos);
    AdoptKeepsNesting(s.super, s.toks);
    forall i | 0 <= i < |s.toks|
      ensures Laminar(s'.toks[i], t)
    {
      assert SoFar(js, s.toks[i], s.pos);
    }
  }

  /** The only ways a step changes the tokens: append a delimited one, close one, or none. */
  lemma StepShape(js: string, cap: nat, s: State)
    requires s.pos <= |js| && Wf(s) && !AtEnd(js, s.pos) && Step(js, cap, s).Go?
    ensures var s' := Step(js, cap, s).next;
            var c := js[s.pos];
            if c == '}' || c == ']' then s' == CloseContainer(s, if c == '}' then Object else Array).next
            else if c == '{' || c == '[' || !EndsPrimitive(c) then
              && |s.toks| < cap && |s'.toks| == |s.toks| + 1
              && var t := s'.toks[|s.toks|];
              && SoFar(js, t, s'.pos) && s.pos <= t.start && t.size == 0 && WordEnds(js, t)
              && s'.toks == Adopt(s.super, s.toks) + [t]
            else s'.toks == s.toks
  {
    hide LastOpen;
  }

  /** Every step keeps the invariant, and the sizes grow by one exactly when a token
      is created while there is a superior. */
  lemma StepKeepsInv(js: string, cap: nat, s: State)
    requires Inv(js, s) && !AtEnd(js, s.pos) && Step(js, cap, s).Go? && |s.toks| <= cap
    ensures var s' := Step(js, cap, s).next;
            && Inv(js, s') && |s.toks| <= |s'.toks| <= cap
            && TotalSize(s'.toks) == TotalSize(s.toks) + if s.super == -1 then 0 else |s'.toks| - |s.toks|
  {
    StepShape(js, cap, s);
    var s' := Step(js, cap, s).next;
    var c := js[s.pos];
    StepClosable(js, cap, s);
    hide Step, SoFar, LastOpen, TotalSize, Laminar;
    if c == '}' || c == ']' {
      CloseKeepsInv(js, s, if c == '}' then Object else Array);
    } else if c == '{' || c == '[' || !EndsPrimitive(c) {
      AppendKeepsInv(js, s, s'.toks[|s.toks|], s');
    } else {
      forall i | 0 <= i < |s.toks|
        ensures SoFar(js, s'.toks[i], s'.pos)
      {
        LaterSoFar(js, s.toks[i], s.pos, s'.pos);
      }
    }
  }

  lemma StepClosable(js: string, cap: nat, s: State)
    requires s.pos <= |js| && Wf(s) && !AtEnd(js, s.pos) && Step(js, cap, s).Go?
    ensures js[s.pos] == '}' ==> CloseContainer(s, Object).Go?
    ensures js[s.pos] == ']' ==> CloseContainer(s, Array).Go?
  {
  }

  lemma LaterSoFar(js: string, t: Token, pos: nat, later: nat)
    requires SoFar(js, t, pos) && pos <= later
    ensures SoFar(js, t, later)
  {
  }

  // ---------- Whole runs ----------

  /** How many tokens the run creates while there is a superior. */
  function Adopted(js: string, cap: nat, s: State): nat
    requires s.pos <= |js| && Wf(s)
    decreases |js| - s.pos
  {
    if AtEnd(js, s.pos) then 0
    else
      match Step(js, cap, s)
      case Go(s') =>
        (if s.super != -1 && |s'.toks| > |s.toks| then |s'.toks| - |s.toks| else 0) + Adopted(js, cap, s')
      case Stop(_) => 0
  }

  /** The invariant holds after any call, and sizes are conserved: together they count
      exactly the tokens created while there was a superior. */
  lemma {:induction false} RunKeepsInv(js: string, cap: nat, s: State)
    requires Inv(js, s) && |s.toks| <= cap
    ensures Inv(js, Run(js, cap, s).st)
    ensures |s.toks| <= |Run(js, cap, s).st.toks| <= cap
    ensures TotalSize(Run(js, cap, s).st.toks) == TotalSize(s.toks) + Adopted(js, cap, s)
    decreases |js| - s.pos
  {
    if !AtEnd(js, s.pos) {
      match Step(js, cap, s)
      case Go(s') =>
        StepKeepsInv(js, cap, s);
        RunKeepsInv(js, cap, s');
      case Stop(_) =>
    }
  }

  lemma StepKeepsEnded(js: string, cap: nat, s: State)
    requires s.pos <= |js| && Wf(s) && !AtEnd(js, s.pos) && Step(js, cap, s).Go? && Ended(js, s.toks)
    ensures Ended(js, Step(js, cap, s).next.toks)
  {
    StepShape(js, cap, s);
    StepClosable(js, cap, s);
    hide Step, SoFar, WordEnds;
    var s' := Step(js, cap, s).next;
    var c := js[s.pos];
    forall i | 0 <= i < |s'.toks|
      ensures WordEnds(js, s'.toks[i])
    {
      if i < |s.toks| {
        var t := s.toks[i];
        SameWord(js, t, s'.toks[i]);
      }
    }
  }

  lemma SameWord(js: string, t: Token, u: Token)
    requires WordEnds(js, t) && u.kind == t.kind && (u.end == t.end || IsContainer(t.kind))
    ensures WordEnds(js, u)
  {
  }

  lemma {:induction false} RunKeepsEnded(js: string, cap: nat, s: State)
    requires s.pos <= |js| && Wf(s) && Ended(js, s.toks)
    ensures Ended(js, Run(js, cap, s).st.toks)
    decreases |js| - s.pos
  {
    if !AtEnd(js, s.pos) {
      match Step(js, cap, s)
      case Go(s') =>
        StepKeepsEnded(js, cap, s);
        RunKeepsEnded(js, cap, s');
      case Stop(_) =>
    }
  }

  /** The invariant of a text is one of every longer text. */
  lemma InvExtends(p: string, q: string, s: State)
    requires Inv(p, s)
    ensures Inv(p + q, s)
  {
    hide Laminar;
    forall i | 0 <= i < |s.toks|
      ensures SoFar(p + q, s.toks[i], s.pos)
    {
      SoFarExtends(p, q, s.toks[i], s.pos);
    }
  }

  lemma SoFarExtends(p: string, q: string, t: Token, pos: nat)
    requires SoFar(p, t, pos) && pos <= |p|
    ensures SoFar(p + q, t, pos)
  {
  }

  /** On any text whatever, a successful parse from the initial state leaves a forest:
      every token is closed and cut out by its own delimiters, starts increase, and
      spans are nested or disjoint. */
  lemma SuccessIsForest(js: string, cap: nat)
    requires Run(js, cap, INIT).status.Done?
    ensures var toks := Run(js, cap, INIT).st.toks;
            && |toks| <= cap
            && (forall i :: 0 <= i < |toks| ==>
                  && Delimited(js, toks[i]) && WordEnds(js, toks[i])
                  && 0 <= toks[i].start <= toks[i].end <= |js|)
            && (forall i, j :: 0 <= i < j < |toks| ==>
                  && toks[i].start < toks[j].start
                  && (toks[i].end <= toks[j].start || (IsContainer(toks[i].kind) && toks[j].end < toks[i].end)))
  {
    RunKeepsInv(js, cap, INIT);
    RunKeepsEnded(js, cap, INIT);
    var s := Run(js, cap, INIT).st;
    forall i | 0 <= i < |s.toks|
      ensures s.toks[i].end != -1
    {
      assert SoFar(js, s.toks[i], s.pos) && !IsOpen(s.toks[i]);
    }
    forall i, j | 0 <= i < j < |s.toks|
      ensures s.toks[i].start < s.toks[j].start
      ensures s.toks[i].end <= s.toks[j].start || (IsContainer(s.toks[i].kind) && s.toks[j].end < s.toks[i].end)
    {
      assert Laminar(s.toks[i], s.toks[j]);
    }
  }

  // ---------- The last token ----------

  /** The newest token has no child yet. */
  predicate LastChildless(toks: seq<Token>) {
    toks != [] ==> toks[|toks| - 1].size == 0
  }

  lemma StepKeepsLast(js: string, cap: nat, s: State)
    requires s.pos <= |js| && Wf(s) && !AtEnd(js, s.pos) && Step(js, cap, s).Go? && LastChildless(s.toks)
    ensures LastChildless(Step(js, cap, s).next.toks)
  {
    StepShape(js, cap, s);
    StepClosable(js, cap, s);
    hide Step, LastOpen, SoFar;
  }

  /** A token with a child is never the last one, so whoever finds a key may look at the next. */
  lemma {:induction false} RunKeepsLast(js: string, cap: nat, s: State)
    requires s.pos <= |js| && Wf(s) && LastChildless(s.toks)
    ensures LastChildless(Run(js, cap, s).st.toks)
    decreases |js| - s.pos
  {
    if !AtEnd(js, s.pos) {
      match Step(js, cap, s)
      case Go(s') =>
        StepKeepsLast(js, cap, s);
        RunKeepsLast(js, cap, s');
      case Stop(_) =>
    }
  }
}
