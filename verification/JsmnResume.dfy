/** Laws that relate several calls of the tokenizer: resuming after a partial text or a
    full token array, calling with more room, and counting without an array. */
module JsmnResume {
  import opened JsmnSpec
  import opened JsmnInvariants

  // ---------- More text does not change what was already decided ----------

  lemma {:induction false} ScanStringExtends(p: string, q: string, i: nat)
    requires i <= |p|
    ensures !ScanString(p, i).Unfinished? ==> ScanString(p + q, i) == ScanString(p, i)
    decreases |p| - i, 0
  {
    if !AtEnd(p, i) && p[i] != '\"' {
      if p[i] == '\\' && i + 1 < |p| {
        if IsSimpleEscape(p[i + 1]) {
          ScanStringExtends(p, q, i + 2);
        } else if p[i + 1] == 'u' {
          ScanHexExtends(p, q, i + 2, 4);
        }
      } else {
        ScanStringExtends(p, q, i + 1);
      }
    }
  }

  lemma {:induction false} ScanHexExtends(p: string, q: string, i: nat, k: nat)
    requires i <= |p|
    ensures !ScanHex(p, i, k).Unfinished? ==> ScanHex(p + q, i, k) == ScanHex(p, i, k)
    decreases |p| - i, 1
  {
    if k == 0 || AtEnd(p, i) {
      ScanStringExtends(p, q, i);
    } else if IsHex(p[i]) {
      ScanHexExtends(p, q, i + 1, k - 1);
    }
  }

  /** The rest of the text starts in the middle of a word. */
  predicate Continues(q: string) {
    q != [] && q[0] != NUL && !EndsPrimitive(q[0])
  }

  lemma {:induction false} ScanPrimitiveExtends(p: string, q: string, i: nat)
    requires i <= |p|
    ensures if ScanPrimitive(p, i) == Found(|p|) && Continues(q)
            then ScanPrimitive(p + q, i).Invalid? || ScanPrimitive(p + q, i).at > |p|
            else ScanPrimitive(p + q, i) == ScanPrimitive(p, i)
    decreases |p| - i
  {
    if i == |p| {
      assert Continues(q) ==> (p + q)[i] == q[0];
    } else if !AtEnd(p, i) && !EndsPrimitive(p[i]) && IsPrintable(p[i]) {
      ScanPrimitiveExtends(p, q, i + 1);
    }
  }

  // ---------- Tokens are never lost or moved ----------

  predicate Preserved(a: Token, b: Token) {
    b.kind == a.kind && b.start == a.start && (a.end != -1 ==> b.end == a.end)
  }

  predicate Preserves(before: seq<Token>, after: seq<Token>) {
    && |before| <= |after|
    && forall i :: 0 <= i < |before| ==> Preserved(before[i], after[i])
  }

  lemma StepPreserves(js: string, cap: nat, s: State)
    requires s.pos <= |js| && !AtEnd(js, s.pos) && Wf(s) && Step(js, cap, s).Go?
    ensures Preserves(s.toks, Step(js, cap, s).next.toks)
  {
    var after := Step(js, cap, s).next.toks;
    forall i | 0 <= i < |s.toks|
      ensures Preserved(s.toks[i], after[i])
    {
    }
  }

  lemma {:induction false} RunPreserves(js: string, cap: nat, s: State)
    requires s.pos <= |js| && Wf(s)
    ensures Preserves(s.toks, Run(js, cap, s).st.toks)
    decreases |js| - s.pos
  {
    if !AtEnd(js, s.pos) {
      match Step(js, cap, s)
      case Go(s') =>
        StepPreserves(js, cap, s);
        RunPreserves(js, cap, s');
        var after := Run(js, cap, s).st.toks;
        forall i | 0 <= i < |s.toks|
          ensures Preserved(s.toks[i], after[i])
        {
          assert Preserved(s.toks[i], s'.toks[i]) && Preserved(s'.toks[i], after[i]);
        }
      case Stop(_) =>
    }
  }

  // ---------- Resumption ----------

  /** `s` is the state after a call on `p`.  Its last token is an unquoted word that ran
      into the end of `p`, and the text goes on with more of that word. */
  predicate CutsWord(p: string, q: string, s: State) {
    && Continues(q)
    && s.toks != []
    && s.toks[|s.toks| - 1].kind == Primitive
    && s.toks[|s.toks| - 1].end == |p|
  }

  /** On the longer text the step is the same, unless it ended at a word that goes on: then it makes a
      longer token or fails. */
  predicate Extends(p: string, q: string, cap: nat, cap': nat, s: State)
    requires s.pos < |p| && !AtEnd(p, s.pos) && Wf(s) && Step(p, cap, s).Go?
  {
    var s' := Step(p, cap, s).next;
    assert (p + q)[s.pos] == p[s.pos];
    if s'.pos == |p| && CutsWord(p, q, s') then
      && |s'.toks| == |s.toks| + 1
      && match Step(p + q, cap', s)
         case Stop(_) => true
         case Go(t) => |t.toks| == |s'.toks| && t.toks[|t.toks| - 1].end > |p|
    else Step(p + q, cap', s) == Step(p, cap, s)
  }

  lemma StringExtends(p: string, q: string, cap: nat, cap': nat, s: State)
    requires s.pos < |p| && !AtEnd(p, s.pos) && Wf(s) && cap <= cap' && Step(p, cap, s).Go? && p[s.pos] == '\"'
    ensures Extends(p, q, cap, cap', s)
  {
    hide LastOpen, ScanPrimitive, ScanString;
    assert (p + q)[s.pos] == p[s.pos];
    ScanStringExtends(p, q, s.pos + 1);
  }

  lemma WordExtends(p: string, q: string, cap: nat, cap': nat, s: State)
    requires s.pos < |p| && !AtEnd(p, s.pos) && Wf(s) && cap <= cap' && Step(p, cap, s).Go?
    requires var c := p[s.pos]; c != '\"' && !EndsPrimitive(c) && c != '{' && c != '['
    ensures Extends(p, q, cap, cap', s)
  {
    hide LastOpen, ScanPrimitive, ScanString;
    assert (p + q)[s.pos] == p[s.pos];
    ScanPrimitiveExtends(p, q, s.pos);
  }

  lemma SignExtends(p: string, q: string, cap: nat, cap': nat, s: State)
    requires s.pos < |p| && !AtEnd(p, s.pos) && Wf(s) && cap <= cap' && Step(p, cap, s).Go?
    requires s.toks == [] || s.toks[|s.toks| - 1].end < |p|
    requires var c := p[s.pos]; EndsPrimitive(c) || c == '{' || c == '['
    ensures Extends(p, q, cap, cap', s)
  {
    hide LastOpen, ScanPrimitive, ScanString, Comma;
    assert (p + q)[s.pos] == p[s.pos];
    CommaKeeps(s);
    var s' := Step(p, cap, s).next;
    assert s'.toks != [] && s'.toks[|s'.toks| - 1].kind == Primitive ==> s'.toks[|s'.toks| - 1].end < |p|;
  }

  lemma CommaKeeps(s: State)
    requires Wf(s)
    ensures Comma(s).toks == s.toks && Comma(s).pos == s.pos + 1
  {
    hide LastOpen;
  }

  lemma StepExtends(p: string, q: string, cap: nat, cap': nat, s: State)
    requires s.pos < |p| && !AtEnd(p, s.pos) && Inv(p, s) && cap <= cap'
    requires Step(p, cap, s).Go? && (s.toks == [] || s.toks[|s.toks| - 1].end < |p|)
    ensures Extends(p, q, cap, cap', s)
  {
    hide Step, Extends;
    var c := p[s.pos];
    if c == '\"' {
      StringExtends(p, q, cap, cap', s);
    } else if !EndsPrimitive(c) && c != '{' && c != '[' {
      WordExtends(p, q, cap, cap', s);
    } else {
      SignExtends(p, q, cap, cap', s);
    }
  }

  /** Calling the parser again on a longer text, with at least as many tokens, gives what a
      single call on the whole text gives -- tokens, parser state and return value -- exactly
      when the first call did not end in the middle of an unquoted word.  The first call may
      have returned anything: success, a partial text, a full array, or an error. */
  lemma {:induction false} ResumeFrom(p: string, q: string, cap: nat, cap': nat, s: State)
    requires Inv(p, s) && |s.toks| <= cap <= cap'
    requires s.pos == |p| ==> !CutsWord(p, q, s)
    ensures var r := Run(p, cap, s).st;
            Run(p + q, cap', r) == Run(p + q, cap', s) <==> !CutsWord(p, q, r)
    decreases |p| - s.pos
  {
    assert forall i :: 0 <= i < |s.toks| ==> SoFar(p, s.toks[i], s.pos);
    if !AtEnd(p, s.pos) && Step(p, cap, s).Go? {
      var s' := Step(p, cap, s).next;
      StepKeepsInv(p, cap, s);
      StepExtends(p, q, cap, cap', s);
      if s'.pos == |p| && CutsWord(p, q, s') {
        var last := |s.toks|;
        RunPreserves(p + q, cap', s');
        assert Preserved(s'.toks[last], Run(p + q, cap', s').st.toks[last]);
        match Step(p + q, cap', s)
        case Stop(_) =>
        case Go(t) =>
          RunPreserves(p + q, cap', t);
          assert Preserved(t.toks[last], Run(p + q, cap', t).st.toks[last]);
      } else {
        ResumeFrom(p, q, cap, cap', s');
      }
    }
  }

  /** One call of a longer exchange: how much of the text is there, and how many tokens. */
  datatype Call = Call(len: nat, cap: nat)

  predicate Growing(js: string, calls: seq<Call>) {
    && (forall i :: 0 <= i < |calls| ==> calls[i].len <= |js|)
    && (forall i, j :: 0 <= i < j < |calls| ==> calls[i].len <= calls[j].len && calls[i].cap <= calls[j].cap)
  }

  /** The state after the calls, made one after the other with the same parser. */
  function Feed(js: string, calls: seq<Call>): (s: State)
    requires Growing(js, calls)
    ensures Wf(s)
    ensures s.pos <= if calls == [] then 0 else calls[|calls| - 1].len
  {
    if calls == [] then INIT
    else
      var n := |calls| - 1;
      Run(js[..calls[n].len], calls[n].cap, Feed(js, calls[..n])).st
  }

  predicate CleanCut(js: string, calls: seq<Call>)
    requires Growing(js, calls) && calls != []
  {
    var len := calls[|calls| - 1].len;
    !CutsWord(js[..len], js[len..], Feed(js, calls))
  }

  /** The invariant holds after any resumption, also one inside a word: whatever texts the calls
      were given, and however they ended. */
  lemma {:induction false} FeedKeepsInv(js: string, calls: seq<Call>)
    requires Growing(js, calls)
    ensures Inv(if calls == [] then "" else js[..calls[|calls| - 1].len], Feed(js, calls))
    ensures |Feed(js, calls).toks| <= if calls == [] then 0 else calls[|calls| - 1].cap
    ensures Inv(js, Feed(js, calls))
    decreases |calls|
  {
    hide Run, Inv;
    if calls == [] {
      StartsClean("", js);
      InvExtends("", js, INIT);
      assert "" + js == js;
    } else {
      var n := |calls| - 1;
      var s, p := Feed(js, calls[..n]), js[..calls[n].len];
      FeedKeepsInv(js, calls[..n]);
      var q := if n == 0 then "" else js[..calls[n - 1].len];
      assert q <= p && q + p[|q|..] == p;
      InvExtends(q, p[|q|..], s);
      RunKeepsInv(p, calls[n].cap, s);
      InvExtends(p, js[|p|..], Feed(js, calls));
      assert p + js[|p|..] == js;
    }
  }

  /** No call ended inside a word that the text continues. */
  predicate CleanCuts(js: string, calls: seq<Call>)
    requires Growing(js, calls)
  {
    calls == [] || (CleanCut(js, calls) && CleanCuts(js, calls[..|calls| - 1]))
  }

  lemma {:induction false} FeedEqualsOneCall(js: string, calls: seq<Call>, text: string, cap: nat)
    requires Growing(js, calls) && CleanCuts(js, calls)
    requires text <= js && (calls != [] ==> calls[|calls| - 1].len <= |text| && calls[|calls| - 1].cap <= cap)
    ensures Run(text, cap, Feed(js, calls)) == Run(text, cap, INIT)
    decreases |calls|
  {
    hide Run, Inv, CutsWord;
    if calls != [] {
      var n := |calls| - 1;
      var c := calls[n];
      var p, q := js[..c.len], text[c.len..];
      assert p + q == text;
      StartsClean(p, q);
      FeedEqualsOneCall(js, calls[..n], p, c.cap);
      ResumeFrom(p, q, c.cap, cap, INIT);
      assert CleanCut(js, calls);
      assert Continues(q) ==> Continues(js[c.len..]);
      LessToContinue(p, q, js[c.len..], Feed(js, calls));
    }
  }

  lemma StartsClean(p: string, q: string)
    ensures Inv(p, INIT) && !CutsWord(p, q, INIT)
  {
  }

  lemma LessToContinue(p: string, q: string, r: string, s: State)
    requires !CutsWord(p, r, s) && (Continues(q) ==> Continues(r))
    ensures !CutsWord(p, q, s)
  {
  }

  /** Any number of resumptions, at any places but inside a word and with arrays that
      only grow, end like one call. */
  lemma FeedThenRun(js: string, calls: seq<Call>, cap: nat)
    requires Growing(js, calls) && CleanCuts(js, calls)
    requires calls != [] ==> calls[|calls| - 1].cap <= cap
    ensures Run(js, cap, Feed(js, calls)) == Run(js, cap, INIT)
  {
    FeedEqualsOneCall(js, calls, js, cap);
  }

  // ---------- More room ----------

  /** If the array was large enough, a larger one changes nothing. */
  lemma {:induction false} MoreRoom(js: string, cap: nat, cap': nat, s: State)
    requires s.pos <= |js| && Wf(s) && cap <= cap'
    requires Run(js, cap, s).status != Failed(NoMem)
    ensures Run(js, cap', s) == Run(js, cap, s)
    decreases |js| - s.pos
  {
    if !AtEnd(js, s.pos) {
      match Step(js, cap, s)
      case Go(s') => MoreRoom(js, cap, cap', s');
      case Stop(_) =>
    }
  }

  // ---------- Counting mode ----------

  lemma {:induction false} CountGrows(js: string, p: nat, n: nat)
    requires p <= |js|
    ensures CountRun(js, p, n).count >= n
    decreases |js| - p
  {
    if AtEnd(js, p) {
    } else if js[p] == '{' || js[p] == '[' {
      CountGrows(js, p + 1, n + 1);
    } else if js[p] == '\"' {
      match ScanString(js, p + 1)
      case Found(q) => CountGrows(js, q + 1, n + 1);
      case Invalid =>
      case Unfinished =>
    } else if EndsPrimitive(js[p]) {
      CountGrows(js, p + 1, n);
    } else {
      match ScanPrimitive(js, p)
      case Found(q) => CountGrows(js, q, n + 1);
      case Invalid =>
    }
  }

  lemma StepCounts(js: string, cap: nat, s: State)
    requires s.pos <= |js| && !AtEnd(js, s.pos) && Wf(s) && |s.toks| <= cap
    ensures Step(js, cap, s).Go? ==>
              var s' := Step(js, cap, s).next;
              CountRun(js, s.pos, |s.toks|) == CountRun(js, s'.pos, |s'.toks|)
    ensures Step(js, cap, s) == Stop(NoMem) && CountRun(js, s.pos, |s.toks|).status.Done? ==>
              CountRun(js, s.pos, |s.toks|).count > cap
  {
    if Step(js, cap, s) == Stop(NoMem) {
      var n := |s.toks| + 1;
      if js[s.pos] == '{' || js[s.pos] == '[' {
        CountGrows(js, s.pos + 1, n);
      } else if js[s.pos] == '\"' {
        CountGrows(js, ScanString(js, s.pos + 1).at + 1, n);
      } else {
        CountGrows(js, ScanPrimitive(js, s.pos).at, n);
      }
    }
  }

  /** The two passes agree: a run that reaches the end of the text has created as many tokens
      as the counting pass reports, and a full array means the count exceeds its size. */
  lemma {:induction false} CountAgrees(js: string, cap: nat, s: State)
    requires s.pos <= |js| && Wf(s) && |s.toks| <= cap
    ensures var o, c := Run(js, cap, s), CountRun(js, s.pos, |s.toks|);
            && (AtEnd(js, o.st.pos) ==> c == CountOutcome(Done, o.st.pos, |o.st.toks|))
            && (o.status == Failed(NoMem) && c.status.Done? ==> c.count > cap)
    decreases |js| - s.pos
  {
    if !AtEnd(js, s.pos) {
      StepCounts(js, cap, s);
      match Step(js, cap, s)
      case Go(s') => CountAgrees(js, cap, s');
      case Stop(_) =>
    }
  }

  /** Whenever the counting pass returns a number, an array of that size never runs full -- also for
      texts that token mode rejects for another reason. */
  lemma CountedIsEnough(js: string, cap: nat)
    requires CountRun(js, 0, 0).status.Done? && cap >= CountRun(js, 0, 0).count
    ensures Run(js, cap, INIT).status != Failed(NoMem)
  {
    CountAgrees(js, cap, INIT);
  }

  /** The two-pass use: when the text parses at all, the counting pass returns the
      number n of its tokens, every array of n or more succeeds with the same result, and
      every smaller one is reported as too small. */
  lemma TwoPass(js: string, big: nat, cap: nat)
    requires Run(js, big, INIT).status.Done?
    ensures var n := |Run(js, big, INIT).st.toks|;
            && CountCode(CountRun(js, 0, 0)) == n
            && (cap >= n ==> Run(js, cap, INIT) == Run(js, big, INIT))
            && (cap < n ==> Run(js, cap, INIT).status == Failed(NoMem))
  {
    CountAgrees(js, big, INIT);
    RunKeepsInv(js, cap, INIT);
    CountAgrees(js, cap, INIT);
    var o := Run(js, cap, INIT);
    if o.status != Failed(NoMem) {
      if cap <= big {
        MoreRoom(js, cap, big, INIT);
      } else {
        MoreRoom(js, big, cap, INIT);
      }
    }
  }
}
