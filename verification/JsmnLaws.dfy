/** What the tokenizer accepts and what it passes over: no character is skipped, a string or a word
    is taken exactly if it is one, and the return codes on the shortest texts. */
module JsmnLaws {
  import opened JsmnSpec
  import opened JsmnInvariants
  import opened JsonTree
  import opened Slices

  // ---------- Characters ----------

  /** The five classes, character by character. */
  lemma CharacterClasses(c: char)
    ensures IsBlank(c) <==> c in "\t\r\n "
    ensures EndsPrimitive(c) <==> c in "\t\r\n :,]}"
    ensures IsPrintable(c) <==> ' ' <= c <= '~'
    ensures IsHex(c) <==> c in "0123456789ABCDEFabcdef"
    ensures IsSimpleEscape(c) <==> c in "\"/\\bfrnt"
  {
  }

  // ---------- Every character is accounted for ----------

  predicate Separates(c: char) {
    IsBlank(c) || c == ':' || c == ','
  }

  /** The character at i opens or closes this token or lies inside it; a bracket is of its kind. */
  predicate Explains(js: string, t: Token, i: nat)
    requires i < |js|
  {
    match t.kind
    case Object => (i == t.start && js[i] == '{') || (i + 1 == t.end && js[i] == '}')
    case Array => (i == t.start && js[i] == '[') || (i + 1 == t.end && js[i] == ']')
    case String => t.start - 1 <= i <= t.end
    case Primitive => t.start <= i < t.end
    case Undefined => false
  }

  predicate Explained(js: string, toks: seq<Token>, i: nat)
    requires i < |js|
  {
    exists k :: 0 <= k < |toks| && Explains(js, toks[k], i)
  }

  /** Whatever has been read separates tokens or belongs to one. */
  predicate Accounted(js: string, s: State)
    requires s.pos <= |js|
  {
    forall i :: 0 <= i < s.pos ==> Separates(js[i]) || Explained(js, s.toks, i)
  }

  /** Tokens keep their kind and start, and their end once it is set. */
  predicate Grows(a: seq<Token>, b: seq<Token>) {
    && |a| <= |b|
    && forall k :: 0 <= k < |a| ==>
      b[k].kind == a[k].kind && b[k].start == a[k].start && (b[k].end == a[k].end || a[k].end == -1)
  }

  lemma StillExplained(js: string, a: seq<Token>, b: seq<Token>, i: nat)
    requires i < |js| && Grows(a, b) && Explained(js, a, i)
    requires forall k :: 0 <= k < |a| && a[k].end == -1 ==> IsContainer(a[k].kind)
    ensures Explained(js, b, i)
  {
    var k :| 0 <= k < |a| && Explains(js, a[k], i);
    assert Explains(js, b[k], i);
  }

  lemma StepGrows(js: string, cap: nat, s: State)
    requires Inv(js, s) && !AtEnd(js, s.pos) && Step(js, cap, s).Go?
    ensures Grows(s.toks, Step(js, cap, s).next.toks)
  {
    StepShape(js, cap, s);
    StepClosable(js, cap, s);
    hide Step, SoFar, Laminar;
  }

  /** The characters of one step. */
  lemma StepExplains(js: string, cap: nat, s: State, i: nat)
    requires Inv(js, s) && !AtEnd(js, s.pos) && Step(js, cap, s).Go?
    requires s.pos <= i < Step(js, cap, s).next.pos
    ensures Separates(js[i]) || Explained(js, Step(js, cap, s).next.toks, i)
  {
    hide LastOpen, SoFar, Laminar, Explains;
    var s' := Step(js, cap, s).next;
    var c := js[s.pos];
    if c == '}' || c == ']' {
      StepClosable(js, cap, s);
      var k := LastOpen(s.toks);
      ClosesOwn(js, s'.toks[k], i);
      assert Explains(js, s'.toks[k], i);
    } else if !Separates(c) {
      var n := |s.toks|;
      OpensOwn(js, s'.toks[n], s.pos, s'.pos, i);
      assert Explains(js, s'.toks[n], i);
    }
  }

  lemma ClosesOwn(js: string, t: Token, i: nat)
    requires i < |js| && t.end == i + 1
    requires (js[i] == '}' && t.kind == Object) || (js[i] == ']' && t.kind == Array)
    ensures Explains(js, t, i)
  {
  }

  lemma OpensOwn(js: string, t: Token, pos: nat, pos': nat, i: nat)
    requires pos <= i < pos' <= |js|
    requires match t.kind
             case Object => js[pos] == '{' && t.start == pos && pos' == pos + 1
             case Array => js[pos] == '[' && t.start == pos && pos' == pos + 1
             case String => t.start == pos + 1 && pos' == t.end + 1
             case Primitive => t.start == pos && pos' == t.end
             case Undefined => false
    ensures Explains(js, t, i)
  {
  }

  lemma StepAccounts(js: string, cap: nat, s: State)
    requires Inv(js, s) && !AtEnd(js, s.pos) && Step(js, cap, s).Go? && Accounted(js, s)
    ensures Accounted(js, Step(js, cap, s).next)
  {
    hide Step, Explained, Separates, Grows;
    var s' := Step(js, cap, s).next;
    StepGrows(js, cap, s);
    forall i | 0 <= i < s'.pos
      ensures Separates(js[i]) || Explained(js, s'.toks, i)
    {
      if i >= s.pos {
        StepExplains(js, cap, s, i);
      } else if !Separates(js[i]) {
        OpenAreContainers(js, s);
        StillExplained(js, s.toks, s'.toks, i);
      }
    }
  }

  lemma OpenAreContainers(js: string, s: State)
    requires Inv(js, s)
    ensures forall k :: 0 <= k < |s.toks| && s.toks[k].end == -1 ==> IsContainer(s.toks[k].kind)
  {
    hide Laminar;
    forall k | 0 <= k < |s.toks| && s.toks[k].end == -1
      ensures IsContainer(s.toks[k].kind)
    {
      assert SoFar(js, s.toks[k], s.pos);
      assert IsOpen(s.toks[k]);
    }
  }

  /** On any text, after any call, whether it succeeds or not: each character read separates tokens or
      belongs to one -- a bracket opens or closes a token of its own kind, unless it stands inside a
      string or a word. */
  lemma {:induction false} RunAccounts(js: string, cap: nat, s: State)
    requires Inv(js, s) && |s.toks| <= cap && Accounted(js, s)
    ensures Accounted(js, Run(js, cap, s).st)
    decreases |js| - s.pos
  {
    hide Accounted, Laminar, SoFar;
    if !AtEnd(js, s.pos) {
      match Step(js, cap, s)
      case Go(s') =>
        StepKeepsInv(js, cap, s);
        StepAccounts(js, cap, s);
        RunAccounts(js, cap, s');
      case Stop(_) =>
    }
  }

  predicate InString(toks: seq<Token>, i: nat) {
    exists k :: 0 <= k < |toks| && toks[k].kind == String && toks[k].start <= i < toks[k].end
  }

  predicate Ends(toks: seq<Token>, kind: Kind, i: nat) {
    exists k :: 0 <= k < |toks| && toks[k].kind == kind && toks[k].end == i + 1
  }

  /** In any text, every closing bracket that was read and stands outside strings ends a token of its
      own kind. */
  lemma ClosingBrackets(js: string, cap: nat, i: nat)
    requires i < Run(js, cap, INIT).st.pos
    ensures var toks := Run(js, cap, INIT).st.toks;
            && (js[i] == '}' && !InString(toks, i) ==> Ends(toks, Object, i))
            && (js[i] == ']' && !InString(toks, i) ==> Ends(toks, Array, i))
  {
    RunKeepsInv(js, cap, INIT);
    RunAccounts(js, cap, INIT);
    var s := Run(js, cap, INIT).st;
    hide Run, Laminar, SoFar, Explains;
    if js[i] == '}' || js[i] == ']' {
      assert Explained(js, s.toks, i);
      var k :| 0 <= k < |s.toks| && Explains(js, s.toks[k], i);
      assert SoFar(js, s.toks[k], s.pos);
      BracketEnds(js, s.toks[k], s.pos, i);
    }
  }

  lemma BracketEnds(js: string, t: Token, pos: nat, i: nat)
    requires SoFar(js, t, pos) && i < |js| && Explains(js, t, i) && (js[i] == '}' || js[i] == ']')
    ensures || (t.kind == String && t.start <= i < t.end)
            || (t.kind == (if js[i] == '}' then Object else Array) && t.end == i + 1)
  {
  }

  // ---------- Strings ----------

  /** Among the next k characters one comes that is neither a hexadecimal digit nor the end. */
  predicate BadHex(js: string, p: nat, k: nat)
    decreases k
  {
    k > 0 && p < |js| && js[p] != NUL && (!IsHex(js[p]) || BadHex(js, p + 1, k - 1))
  }

  /** An escape that is none: a wrong letter, or a wrong digit behind \u. */
  predicate BadEscape(js: string, q: nat) {
    && q + 1 < |js| && js[q] == '\\'
    && if js[q + 1] == 'u' then BadHex(js, q + 2, 4) else !IsSimpleEscape(js[q + 1])
  }

  lemma Stopped(js: string, p: nat)
    requires p <= |js| && AtEnd(js, p)
    ensures ScanString(js, p) == Unfinished
  {
  }

  lemma {:induction false} HexScanned(js: string, p: nat, k: nat)
    requires p <= |js|
    ensures var hex := p + k <= |js| && forall j :: p <= j < p + k ==> IsHex(js[j]);
            && (hex ==> ScanHex(js, p, k) == ScanString(js, p + k))
            && (!hex ==> ScanHex(js, p, k) == if BadHex(js, p, k) then Invalid else Unfinished)
    decreases k
  {
    hide IsHex;
    if k > 0 {
      if AtEnd(js, p) {
        Stopped(js, p);
        NulIsNoHex();
      } else if IsHex(js[p]) {
        HexScanned(js, p + 1, k - 1);
      }
    }
  }

  lemma NulIsNoHex()
    ensures !IsHex(NUL)
  {
  }

  lemma {:induction false} FoundIsBody(js: string, p: nat)
    requires p <= |js|
    ensures ScanString(js, p).Found? ==> ValidBody(js[p..ScanString(js, p).at])
    decreases |js| - p
  {
    if ScanString(js, p).Found? {
      var q := ScanString(js, p).at;
      var b := js[p..q];
      if js[p] == '\"' {
        assert b == [];
      } else if js[p] == '\\' && p + 1 < |js| {
        if IsSimpleEscape(js[p + 1]) {
          FoundIsBody(js, p + 2);
          assert b[2..] == js[p + 2..q];
        } else {
          HexScanned(js, p + 2, 4);
          FoundIsBody(js, p + 6);
          assert b[6..] == js[p + 6..q];
        }
      } else {
        FoundIsBody(js, p + 1);
        assert b[1..] == js[p + 1..q];
      }
    }
  }

  /** A string ends at q exactly if a quote stands there and what is before it is a string body. */
  lemma StringEndsExactlyAt(js: string, p: nat, q: nat)
    requires p <= |js|
    ensures ScanString(js, p) == Found(q) <==> p <= q < |js| && js[q] == '\"' && ValidBody(js[p..q])
  {
    hide ValidBody, ScanString;
    FoundIsBody(js, p);
    if p <= q < |js| && js[q] == '\"' && ValidBody(js[p..q]) {
      assert js[p..q] + "\"" == js[p..q + 1];
      ScanBody(js, p, js[p..q]);
    }
  }

  lemma {:induction false} BodyPasses(js: string, p: nat, b: string)
    requires ValidBody(b) && At(js, p, b)
    ensures ScanString(js, p) == ScanString(js, p + |b|)
    decreases |b|
  {
    hide ScanString, ValidBody, FirstLength;
    if b != [] {
      var n := FirstLength(b);
      ScanFirst(js, p, b);
      assert b[..n] + b[n..] == b;
      AtSplit(js, p, b[..n], b[n..]);
      BodyPasses(js, p + n, b[n..]);
    }
  }

  /** A body with one more character, or one more escape, in front. */
  lemma BodyGrows(js: string, p: nat, n: nat, q: nat)
    requires p + n <= q <= |js| && n > 0 && ValidBody(js[p + n..q])
    requires if js[p] != '\\' then n == 1 && js[p] != '\"' && js[p] != NUL
             else n >= 2 && if js[p + 1] == 'u' then n == 6 && forall j :: p + 2 <= j < p + 6 ==> IsHex(js[j])
                            else n == 2 && IsSimpleEscape(js[p + 1])
    ensures ValidBody(js[p..q])
  {
    var b := js[p..q];
    assert b[n..] == js[p + n..q];
  }

  lemma {:induction false} InvalidHasBadEscape(js: string, p: nat) returns (q: nat)
    requires p <= |js| && ScanString(js, p) == Invalid
    ensures p <= q <= |js| && ValidBody(js[p..q]) && BadEscape(js, q)
    decreases |js| - p
  {
    hide IsHex, IsSimpleEscape, ValidBody;
    if js[p] == '\\' && p + 1 < |js| {
      if IsSimpleEscape(js[p + 1]) {
        q := InvalidHasBadEscape(js, p + 2);
        SimpleIsNotU(js[p + 1]);
        BodyGrows(js, p, 2, q);
      } else {
        if js[p + 1] == 'u' {
          HexScanned(js, p + 2, 4);
        }
        if BadEscape(js, p) {
          q := p;
          EmptyBody(js, p);
        } else {
          q := InvalidHasBadEscape(js, p + 6);
          BodyGrows(js, p, 6, q);
        }
      }
    } else {
      BackslashLast(js, p);
      q := InvalidHasBadEscape(js, p + 1);
      BodyGrows(js, p, 1, q);
    }
  }

  lemma EmptyBody(js: string, p: nat)
    requires p <= |js|
    ensures ValidBody(js[p..p])
  {
  }

  /** A backslash at the very end refuses nothing. */
  lemma BackslashLast(js: string, p: nat)
    requires p < |js| && ScanString(js, p) == Invalid
    ensures js[p] == '\\' ==> p + 1 < |js|
  {
    if js[p] == '\\' && p + 1 == |js| {
      Stopped(js, p + 1);
    }
  }

  lemma SimpleIsNotU(c: char)
    requires IsSimpleEscape(c)
    ensures c != 'u'
  {
  }

  /** A string is refused exactly if a wrong escape follows a part that is right; what is neither refused
      nor complete may still become a string. */
  lemma StringRefusedExactlyIf(js: string, p: nat)
    requires p <= |js|
    ensures ScanString(js, p) == Invalid <==> exists q :: p <= q <= |js| && BadEscape(js, q) && ValidBody(js[p..q])
  {
    hide ValidBody, BadEscape;
    if ScanString(js, p) == Invalid {
      var q := InvalidHasBadEscape(js, p);
    }
    forall q | p <= q <= |js| && BadEscape(js, q) && ValidBody(js[p..q])
      ensures ScanString(js, p) == Invalid
    {
      BodyPasses(js, p, js[p..q]);
      BadEscapeIsInvalid(js, q);
    }
  }

  lemma BadEscapeIsInvalid(js: string, q: nat)
    requires BadEscape(js, q)
    ensures ScanString(js, q) == Invalid
  {
    hide IsHex;
    HexScanned(js, q + 2, 4);
    if js[q + 1] == 'u' {
      BadHexHasNoRun(js, q + 2, 4);
    }
  }

  lemma {:induction false} BadHexHasNoRun(js: string, p: nat, k: nat)
    requires BadHex(js, p, k)
    ensures exists j :: p <= j < p + k && j < |js| && !IsHex(js[j])
    decreases k
  {
    hide IsHex;
    if IsHex(js[p]) {
      BadHexHasNoRun(js, p + 1, k - 1);
      var j :| p + 1 <= j < p + k && j < |js| && !IsHex(js[j]);
    }
  }

  // ---------- Words ----------

  predicate WordChars(js: string, p: nat, q: nat) {
    p <= q <= |js| && forall i :: p <= i < q ==> IsPrintable(js[i]) && !EndsPrimitive(js[i])
  }

  /** A word ends at q exactly if it is made of word characters and the text ends there or goes on with
      one that ends words; it is refused exactly if an unprintable character comes first. */
  lemma {:induction false} WordEndsExactlyAt(js: string, p: nat, q: nat)
    requires p <= |js|
    ensures ScanPrimitive(js, p) == Found(q) <==> WordChars(js, p, q) && (AtEnd(js, q) || EndsPrimitive(js[q]))
    ensures ScanPrimitive(js, p) == Invalid && p <= q <= |js| && (AtEnd(js, q) || EndsPrimitive(js[q])) ==>
              exists i :: p <= i < q && !IsPrintable(js[i]) && js[i] != NUL && !EndsPrimitive(js[i])
    decreases |js| - p
  {
    if p < |js| && js[p] != NUL && !EndsPrimitive(js[p]) && IsPrintable(js[p]) {
      WordEndsExactlyAt(js, p + 1, q);
    }
  }

  // ---------- Return codes ----------

  lemma OneBracketRun(cap: nat)
    requires cap > 0
    ensures Code(Run("[", cap, INIT)) == -3
  {
    var s1 := State(1, 0, [Token(Array, 0, -1, 0)]);
    assert Step("[", cap, INIT) == Go(s1);
    assert Run("[", cap, s1) == Outcome(Failed(Part), s1);
  }

  lemma OneWordRun(cap: nat)
    ensures Code(Run("1", cap, INIT)) == if cap == 0 then -1 else 1
  {
    assert ScanPrimitive("1", 0) == Found(1);
    if cap > 0 {
      var s1 := State(1, -1, [Token(Primitive, 0, 1, 0)]);
      assert Step("1", cap, INIT) == Go(s1);
      assert Run("1", cap, s1) == Outcome(Done, s1);
    }
  }

  lemma QuoteRuns(cap: nat)
    ensures Code(Run("\"", cap, INIT)) == -3 && Code(Run("\"\\x", cap, INIT)) == -2
  {
    assert ScanString("\"", 1) == Unfinished && ScanString("\"\\x", 1) == Invalid;
  }

  lemma EmptyRuns(cap: nat)
    ensures Code(Run("", cap, INIT)) == 0 && Code(Run("]", cap, INIT)) == -2
  {
    assert Step("]", cap, INIT) == Stop(Inval);
  }

  /** The return codes, on the shortest texts: too small an array, a bracket or an escape that is wrong, a
      bracket or a string that is not closed, no text, one token. */
  lemma ReturnCodes()
    ensures Code(Run("1", 0, INIT)) == -1
    ensures Code(Run("]", 4, INIT)) == -2 && Code(Run("\"\\x", 4, INIT)) == -2
    ensures Code(Run("[", 4, INIT)) == -3 && Code(Run("\"", 4, INIT)) == -3
    ensures Code(Run("", 4, INIT)) == 0 && Code(Run("1", 4, INIT)) == 1
  {
    hide Run, Code;
    OneWordRun(0);
    OneWordRun(4);
    OneBracketRun(4);
    QuoteRuns(4);
    EmptyRuns(4);
  }

  /** In counting mode brackets are not matched. */
  lemma CountingCodes()
    ensures CountCode(CountRun("\"", 0, 0)) == -3 && CountCode(CountRun("\U{7f}", 0, 0)) == -2
    ensures CountCode(CountRun("[", 0, 0)) == 1
  {
  }
}
