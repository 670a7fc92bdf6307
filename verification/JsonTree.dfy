/** The tokenizer is right on JSON: parsing the printed text of any value tree, with any
    white space between its tokens, gives the pre-order listing of the tree. */
module JsonTree {
  import opened JsmnSpec
  import opened Slices
  import JsmnResume

  // ---------- JSON values, with the white space of one particular text ----------

  /** `blank` is the white space just inside the opening bracket. */
  datatype Value =
    | Word(text: string)
    | Text(body: string)
    | List(blank: string, items: Items)
    | Dict(blank: string, members: Members)

  datatype Items =
    | NoItems
    | Item(before: string, value: Value, after: string, rest: Items)

  datatype Members =
    | NoMembers
    | Member(before: string, key: string, preColon: string, postColon: string,
             value: Value, after: string, rest: Members)

  predicate Blank(w: string) {
    forall i :: 0 <= i < |w| ==> IsBlank(w[i])
  }

  /** Number, true, false, null -- or any other run of printable characters that does not
      look like the start of something else. */
  predicate ValidWord(w: string) {
    && w != []
    && w[0] !in "{[\""
    && forall i :: 0 <= i < |w| ==> IsPrintable(w[i]) && !EndsPrimitive(w[i])
  }

  /** The characters between the quotes of a JSON string, escapes included. */
  predicate ValidBody(b: string) {
    if b == [] then true
    else if b[0] == '\\' then
      && |b| >= 2
      && if b[1] == 'u' then |b| >= 6 && IsHex(b[2]) && IsHex(b[3]) && IsHex(b[4]) && IsHex(b[5]) && ValidBody(b[6..])
         else IsSimpleEscape(b[1]) && ValidBody(b[2..])
    else b[0] != '\"' && b[0] != NUL && ValidBody(b[1..])
  }

  predicate Valid(v: Value) {
    match v
    case Word(w) => ValidWord(w)
    case Text(b) => ValidBody(b)
    case List(blank, items) => Blank(blank) && ValidItems(items)
    case Dict(blank, members) => Blank(blank) && ValidMembers(members)
  }

  predicate ValidItems(items: Items) {
    match items
    case NoItems => true
    case Item(before, v, after, rest) => Blank(before) && Valid(v) && Blank(after) && ValidItems(rest)
  }

  predicate ValidMembers(members: Members) {
    match members
    case NoMembers => true
    case Member(before, key, pre, post, v, after, rest) =>
      && Blank(before) && ValidBody(key) && Blank(pre) && Blank(post) && Valid(v) && Blank(after)
      && ValidMembers(rest)
  }

  // ---------- The text ----------

  function Print(v: Value): string
    decreases v, 0
  {
    match v
    case Word(w) => w
    case Text(b) => Quoted(b)
    case List(blank, items) => "[" + blank + PrintItems(items)
    case Dict(blank, members) => "{" + blank + PrintMembers(members)
  }

  function Quoted(b: string): string {
    "\"" + b + "\""
  }

  /** The elements and the closing bracket. */
  function PrintItems(items: Items): (r: string)
    ensures r != []
    decreases items, 1
  {
    match items
    case NoItems => "]"
    case Item(before, v, after, rest) => before + Print(v) + after + PrintMoreItems(rest)
  }

  function PrintMoreItems(rest: Items): (r: string)
    ensures r != []
    decreases rest, 2
  {
    if rest.NoItems? then "]" else "," + PrintItems(rest)
  }

  function PrintMembers(members: Members): (r: string)
    ensures r != []
    decreases members, 1
  {
    match members
    case NoMembers => "}"
    case Member(before, key, pre, post, v, after, rest) =>
      before + Quoted(key) + pre + ":" + post + Print(v) + after + PrintMoreMembers(rest)
  }

  function PrintMoreMembers(rest: Members): (r: string)
    ensures r != []
    decreases rest, 2
  {
    if rest.NoMembers? then "}" else "," + PrintMembers(rest)
  }

  // ---------- The pre-order listing ----------

  function Length(items: Items): nat {
    if items.NoItems? then 0 else 1 + Length(items.rest)
  }

  function Width(members: Members): nat {
    if members.NoMembers? then 0 else 1 + Width(members.rest)
  }

  /** The tokens of a value whose text begins at `at`: itself first, then its children. */
  function Tokens(v: Value, at: nat): (r: seq<Token>)
    ensures r != []
    ensures forall i :: 0 <= i < |r| ==> !IsOpen(r[i])
    decreases v
  {
    match v
    case Word(w) => [Token(Primitive, at, at + |Print(v)|, 0)]
    case Text(b) => [Token(String, at + 1, at + 1 + |b|, 0)]
    case List(blank, items) =>
      [Token(Array, at, at + |Print(v)|, Length(items))] + ItemTokens(items, at + 1 + |blank|)
    case Dict(blank, members) =>
      [Token(Object, at, at + |Print(v)|, Width(members))] + MemberTokens(members, at + 1 + |blank|)
  }

  function ItemTokens(items: Items, at: nat): (r: seq<Token>)
    ensures forall i :: 0 <= i < |r| ==> !IsOpen(r[i])
    decreases items
  {
    match items
    case NoItems => []
    case Item(before, v, after, rest) =>
      var p := at + |before|;
      Tokens(v, p) + ItemTokens(rest, p + |Print(v)| + |after| + 1)
  }

  function MemberTokens(members: Members, at: nat): (r: seq<Token>)
    ensures forall i :: 0 <= i < |r| ==> !IsOpen(r[i])
    decreases members
  {
    match members
    case NoMembers => []
    case Member(before, key, pre, post, v, after, rest) =>
      var p := at + |before| + 1;
      var q := p + |key| + 1 + |pre| + 1 + |post|;
      [Token(String, p, p + |key|, 1)] + Tokens(v, q) + MemberTokens(rest, q + |Print(v)| + |after| + 1)
  }

  // ---------- Leaves ----------

  lemma RunOneBlank(js: string, cap: nat, s: State)
    requires Wf(s) && s.pos < |js| && IsBlank(js[s.pos])
    ensures Run(js, cap, s) == Run(js, cap, s.(pos := s.pos + 1))
  {
  }

  lemma {:induction false} RunBlank(js: string, cap: nat, s: State, w: string)
    requires Wf(s) && Blank(w) && At(js, s.pos, w)
    ensures Run(js, cap, s) == Run(js, cap, s.(pos := s.pos + |w|))
    decreases |w|
  {
    hide Run;
    if w != [] {
      AtIndex(js, s.pos, w, 0);
      assert w[..1] + w[1..] == w;
      AtSplit(js, s.pos, w[..1], w[1..]);
      RunOneBlank(js, cap, s);
      RunBlank(js, cap, s.(pos := s.pos + 1), w[1..]);
    }
  }

  /** How many characters the first element of a string body takes. */
  function FirstLength(b: string): (n: nat)
    requires ValidBody(b) && b != []
    ensures 1 <= n <= |b| && ValidBody(b[n..])
  {
    if b[0] != '\\' then 1 else if b[1] == 'u' then 6 else 2
  }

  lemma ScanFirst(js: string, p: nat, b: string)
    requires ValidBody(b) && b != [] && At(js, p, b)
    ensures ScanString(js, p) == ScanString(js, p + FirstLength(b))
  {
    var n := FirstLength(b);
    assert js[p] == js[p..p + |b|][0];
    if n > 1 {
      assert js[p + 1] == js[p..p + |b|][1];
    }
    if n == 6 {
      assert js[p + 2] == b[2] && js[p + 3] == b[3] && js[p + 4] == b[4] && js[p + 5] == b[5];
      ScanFourHex(js, p + 2);
      assert ScanString(js, p) == ScanHex(js, p + 2, 4);
    }
  }

  lemma {:induction false} ScanBody(js: string, p: nat, b: string)
    requires ValidBody(b) && At(js, p, b + "\"")
    ensures ScanString(js, p) == Found(p + |b|)
    decreases |b|
  {
    var t := b + "\"";
    AtIndex(js, p, t, |b|);
    if b != [] {
      hide ScanString, ValidBody, FirstLength, At;
      var n := FirstLength(b);
      assert t[..n] + (b[n..] + "\"") == t;
      AtSplit(js, p, t[..n], b[n..] + "\"");
      ScanBody(js, p + n, b[n..]);
      AtSplit(js, p, b, "\"");
      ScanFirst(js, p, b);
    }
  }

  lemma ScanFourHex(js: string, p: nat)
    requires p + 4 <= |js| && forall i :: p <= i < p + 4 ==> IsHex(js[i])
    ensures ScanHex(js, p, 4) == ScanString(js, p + 4)
  {
    assert ScanHex(js, p, 4) == ScanHex(js, p + 1, 3);
    assert ScanHex(js, p + 1, 3) == ScanHex(js, p + 2, 2);
    assert ScanHex(js, p + 2, 2) == ScanHex(js, p + 3, 1);
    assert ScanHex(js, p + 3, 1) == ScanHex(js, p + 4, 0);
  }

  lemma RunStep(js: string, cap: nat, s: State, s': State)
    requires Wf(s) && s.pos <= |js| && !AtEnd(js, s.pos) && Step(js, cap, s) == Go(s')
    ensures Run(js, cap, s) == Run(js, cap, s')
  {
    hide Step;
  }

  lemma RunQuoted(js: string, cap: nat, s: State, b: string)
    requires Wf(s) && ValidBody(b) && At(js, s.pos, Quoted(b)) && |s.toks| < cap
    ensures var t := Token(String, s.pos + 1, s.pos + 1 + |b|, 0);
            var s' := State(s.pos + |Quoted(b)|, s.super, Adopt(s.super, s.toks) + [t]);
            Wf(s') && Run(js, cap, s) == Run(js, cap, s')
  {
    hide Run, Step, At, ScanString;
    ScanQuoted(js, s.pos, b);
    var s' := StepQuoted(js, cap, s, b);
    RunStep(js, cap, s, s');
  }

  lemma ScanQuoted(js: string, p: nat, b: string)
    requires ValidBody(b) && At(js, p, Quoted(b))
    ensures p + |b| + 2 <= |js| && js[p] == '\"' && ScanString(js, p + 1) == Found(p + 1 + |b|)
  {
    hide At, ScanString, ValidBody;
    QuotedParts(b);
    AtIndex(js, p, Quoted(b), 0);
    AtIndex(js, p, Quoted(b), |b| + 1);
    AtSplit(js, p, "\"", b + "\"");
    ScanBody(js, p + 1, b);
  }

  lemma QuotedParts(b: string)
    ensures Quoted(b) == "\"" + (b + "\"")
  {
  }

  lemma StepQuoted(js: string, cap: nat, s: State, b: string) returns (s': State)
    requires Wf(s) && |s.toks| < cap
    requires s.pos + |b| + 2 <= |js| && js[s.pos] == '\"' && ScanString(js, s.pos + 1) == Found(s.pos + 1 + |b|)
    ensures Step(js, cap, s) == Go(s')
    ensures s' == State(s.pos + |b| + 2, s.super, Adopt(s.super, s.toks) + [Token(String, s.pos + 1, s.pos + 1 + |b|, 0)])
  {
    hide ScanString, LastOpen, ScanPrimitive;
    s' := Step(js, cap, s).next;
  }

  /** What may follow a word: the end of the text, or a character that ends it. */
  predicate Ends(js: string, p: nat) {
    p <= |js| && (p < |js| ==> js[p] == NUL || EndsPrimitive(js[p]))
  }

  lemma {:induction false} ScanWord(js: string, p: nat, w: string)
    requires forall i :: 0 <= i < |w| ==> IsPrintable(w[i]) && !EndsPrimitive(w[i])
    requires At(js, p, w) && Ends(js, p + |w|)
    ensures ScanPrimitive(js, p) == Found(p + |w|)
    decreases |w|
  {
    if w != [] {
      AtIndex(js, p, w, 0);
      assert w[..1] + w[1..] == w;
      AtSplit(js, p, w[..1], w[1..]);
      ScanWord(js, p + 1, w[1..]);
    }
  }

  lemma RunWord(js: string, cap: nat, s: State, w: string)
    requires Wf(s) && ValidWord(w) && At(js, s.pos, w) && Ends(js, s.pos + |w|) && |s.toks| < cap
    ensures var t := Token(Primitive, s.pos, s.pos + |w|, 0);
            var s' := State(s.pos + |w|, s.super, Adopt(s.super, s.toks) + [t]);
            Wf(s') && Run(js, cap, s) == Run(js, cap, s')
  {
    AtIndex(js, s.pos, w, 0);
    ScanWord(js, s.pos, w);
    hide Run, ScanString, LastOpen, At, ScanPrimitive;
    var s' := Step(js, cap, s).next;
    RunStep(js, cap, s, s');
  }

  // ---------- Containers ----------

  /** The container at index k gets n more children and is closed at `end`. */
  function Seal(toks: seq<Token>, k: nat, n: nat, end: int): (r: seq<Token>)
    requires k < |toks|
  {
    toks[k := toks[k].(size := toks[k].size + n, end := end)]
  }

  lemma SealAfter(toks: seq<Token>, k: nat, more: seq<Token>, n: nat, end: int)
    requires k < |toks|
    ensures Seal(Adopt(k, toks) + more, k, n, end) == Seal(toks, k, n + 1, end) + more
  {
  }

  lemma {:induction false} LastOpenAppend(toks: seq<Token>, more: seq<Token>)
    requires forall i :: 0 <= i < |more| ==> !IsOpen(more[i])
    ensures LastOpen(toks + more) == LastOpen(toks)
    decreases |more|
  {
    if more == [] {
      assert toks + more == toks;
    } else {
      var n := |more| - 1;
      LastOpenAppend(toks, more[..n]);
      assert (toks + more)[..|toks + more| - 1] == toks + more[..n];
    }
  }

  /** Index and position of an open token are all that matter for `LastOpen`. */
  lemma LastOpenAdopt(super: int, toks: seq<Token>)
    requires -1 <= super < |toks|
    ensures LastOpen(Adopt(super, toks)) == LastOpen(toks)
  {
    var a, b := LastOpen(Adopt(super, toks)), LastOpen(toks);
    assert a != -1 ==> IsOpen(toks[a]);
    assert b != -1 ==> IsOpen(Adopt(super, toks)[b]);
  }

  /** The state between two tokens inside the open container k. */
  predicate Inside(s: State, k: nat, kind: Kind) {
    && Wf(s)
    && k < |s.toks|
    && LastOpen(s.toks) == k
    && s.toks[k].kind == kind
  }

  /** The state after a value has been read. */
  function After(s: State, v: Value): (r: State)
    requires Wf(s)
    ensures Wf(r)
  {
    LastOpenAppend(Adopt(s.super, s.toks), Tokens(v, s.pos));
    var toks := Adopt(s.super, s.toks) + Tokens(v, s.pos);
    State(s.pos + |Print(v)|, if v.List? || v.Dict? then LastOpen(s.toks) else s.super, toks)
  }

  /** The state after the rest of container k, its n elements and its closing bracket. */
  function Closed(s: State, k: nat, n: nat, end: nat, more: seq<Token>): State
    requires k < |s.toks|
  {
    State(end, LastOpen(s.toks[..k]), Seal(s.toks, k, n, end) + more)
  }

  lemma AfterInside(s: State, v: Value, k: nat, kind: Kind)
    requires Inside(s, k, kind)
    ensures Inside(After(s, v), k, kind)
  {
    LastOpenAdopt(s.super, s.toks);
    LastOpenAppend(Adopt(s.super, s.toks), Tokens(v, s.pos));
  }

  lemma RunClose(js: string, cap: nat, s: State, k: nat, kind: Kind)
    requires Inside(s, k, kind) && IsContainer(kind)
    requires s.pos < |js| && js[s.pos] == if kind == Object then '}' else ']'
    ensures Wf(Closed(s, k, 0, s.pos + 1, []))
    ensures Run(js, cap, s) == Run(js, cap, Closed(s, k, 0, s.pos + 1, []))
  {
    var s' := CloseContainer(s, kind).next;
    assert s'.toks == Closed(s, k, 0, s.pos + 1, []).toks;
  }

  lemma ClosedAfterChild(s: State, s': State, k: nat, child: seq<Token>, n: nat, end: nat, more: seq<Token>)
    requires k < |s.toks| && s'.toks == Adopt(k, s.toks) + child
    ensures Closed(s', k, n, end, more) == Closed(s, k, n + 1, end, child + more)
  {
    SealAfter(s.toks, k, child, n, end);
    assert s'.toks[..k] == s.toks[..k];
  }

  lemma EndsAfter(js: string, p: nat, after: string, more: string)
    requires At(js, p, after) && At(js, p + |after|, more)
    requires Blank(after) && more != [] && EndsPrimitive(more[0])
    ensures Ends(js, p)
  {
    if after == [] {
      AtIndex(js, p, more, 0);
    } else {
      AtIndex(js, p, after, 0);
    }
  }

  // ---------- Brackets, colons and commas ----------

  lemma RunOpen(js: string, cap: nat, s: State, kind: Kind)
    requires Wf(s) && s.pos < |js| && |s.toks| < cap && IsContainer(kind)
    requires js[s.pos] == if kind == Object then '{' else '['
    ensures var s1 := State(s.pos + 1, |s.toks|, Adopt(s.super, s.toks) + [Token(kind, s.pos, -1, 0)]);
            Inside(s1, |s.toks|, kind) && Run(js, cap, s) == Run(js, cap, s1)
  {
    var s1 := OpenContainer(cap, s, kind).next;
    assert IsOpen(s1.toks[|s.toks|]);
  }

  lemma RunColon(js: string, cap: nat, s: State)
    requires Wf(s) && s.pos < |js| && js[s.pos] == ':'
    ensures Run(js, cap, s) == Run(js, cap, State(s.pos + 1, |s.toks| - 1, s.toks))
  {
  }

  /** After a comma, container k is the superior again, whatever was read before it. */
  lemma RunComma(js: string, cap: nat, s: State, k: nat, kind: Kind)
    requires Inside(s, k, kind) && IsContainer(kind) && s.pos < |js| && js[s.pos] == ','
    requires s.super == k || (s.super != -1 && s.toks[s.super].kind == String)
    ensures Run(js, cap, s) == Run(js, cap, State(s.pos + 1, k, s.toks))
  {
  }

  // ---------- The induction over the tree ----------

  lemma {:induction false} RunValue(js: string, cap: nat, s: State, v: Value)
    requires Wf(s) && Valid(v) && At(js, s.pos, Print(v)) && Ends(js, s.pos + |Print(v)|)
    requires |s.toks| + |Tokens(v, s.pos)| <= cap
    ensures Run(js, cap, s) == Run(js, cap, After(s, v))
    decreases v, 0
  {
    hide Run, LastOpen, Ends, PrintItems, PrintMembers, ItemTokens, MemberTokens, ValidItems, ValidMembers, At, ValidBody,
         Length, Width;
    match v
    case Word(w) =>
      RunWord(js, cap, s, w);
    case Text(b) =>
      RunQuoted(js, cap, s, b);
    case List(blank, items) =>
      var s2 := OpenAndSkip(js, cap, s, Array, "[", blank, PrintItems(items));
      RunItems(js, cap, s2, items, |s.toks|);
      SealedIsAfter(s, v, s2, Length(items), ItemTokens(items, s2.pos));
    case Dict(blank, members) =>
      var s2 := OpenAndSkip(js, cap, s, Object, "{", blank, PrintMembers(members));
      RunMembers(js, cap, s2, members, |s.toks|);
      SealedIsAfter(s, v, s2, Width(members), MemberTokens(members, s2.pos));
  }

  /** The opening bracket and the blanks behind it. */
  lemma OpenAndSkip(js: string, cap: nat, s: State, kind: Kind, left: string, blank: string, rest: string)
    returns (s2: State)
    requires Wf(s) && |s.toks| < cap && Blank(blank) && IsContainer(kind)
    requires left == if kind == Object then "{" else "["
    requires At(js, s.pos, left + blank + rest)
    ensures s2 == State(s.pos + 1 + |blank|, |s.toks|, Adopt(s.super, s.toks) + [Token(kind, s.pos, -1, 0)])
    ensures Inside(s2, |s.toks|, kind) && At(js, s2.pos, rest)
    ensures Run(js, cap, s) == Run(js, cap, s2)
  {
    hide Run, LastOpen;
    AtSplit(js, s.pos, left + blank, rest);
    AtSplit(js, s.pos, left, blank);
    AtIndex(js, s.pos, left, 0);
    RunOpen(js, cap, s, kind);
    var s1 := State(s.pos + 1, |s.toks|, Adopt(s.super, s.toks) + [Token(kind, s.pos, -1, 0)]);
    RunBlank(js, cap, s1, blank);
    s2 := s1.(pos := s1.pos + |blank|);
  }

  /** Closing the container opened at the end of `s` completes the value. */
  lemma SealedIsAfter(s: State, v: Value, s2: State, n: nat, more: seq<Token>)
    requires Wf(s) && (v.List? || v.Dict?)
    requires var kind := if v.List? then Array else Object;
             && s2.toks == Adopt(s.super, s.toks) + [Token(kind, s.pos, -1, 0)]
             && Tokens(v, s.pos) == [Token(kind, s.pos, s.pos + |Print(v)|, n)] + more
    ensures Closed(s2, |s.toks|, n, s.pos + |Print(v)|, more) == After(s, v)
  {
    hide LastOpen, Print, Tokens;
    LastOpenAdopt(s.super, s.toks);
    assert s2.toks[..|s.toks|] == Adopt(s.super, s.toks);
    var c := Closed(s2, |s.toks|, n, s.pos + |Print(v)|, more);
    assert c.toks == Adopt(s.super, s.toks) + Tokens(v, s.pos);
  }

  lemma ItemsPrint(items: Items)
    requires items.Item?
    ensures PrintItems(items) == items.before + Print(items.value) + items.after + PrintMoreItems(items.rest)
    ensures PrintMoreItems(items.rest)[0] == if items.rest.NoItems? then ']' else ','
    ensures items.rest.Item? ==> PrintMoreItems(items.rest) == "," + PrintItems(items.rest)
  {
    hide Print;
  }

  lemma MembersPrint(members: Members)
    requires members.Member?
    ensures PrintMembers(members)
            == members.before + Quoted(members.key) + members.preColon + ":" + members.postColon + Print(members.value)
               + members.after + PrintMoreMembers(members.rest)
    ensures PrintMoreMembers(members.rest)[0] == if members.rest.NoMembers? then '}' else ','
    ensures members.rest.NoMembers? ==> PrintMoreMembers(members.rest) == "}"
    ensures members.rest.Member? ==> PrintMoreMembers(members.rest) == "," + PrintMembers(members.rest)
  {
    hide Print, Quoted;
  }

  lemma ItemParts(js: string, p: nat, items: Items)
    requires items.Item? && At(js, p, PrintItems(items))
    ensures var v, more := Print(items.value), PrintMoreItems(items.rest);
            var p1 := p + |items.before|;
            var p2 := p1 + |v|;
            var p3 := p2 + |items.after|;
            && At(js, p, items.before) && At(js, p1, v) && At(js, p2, items.after) && At(js, p3, more)
            && p3 + |more| == p + |PrintItems(items)|
            && p3 < |js| && js[p3] == (if items.rest.NoItems? then ']' else ',')
            && (items.rest.Item? ==> At(js, p3 + 1, PrintItems(items.rest)))
  {
    hide Print, At, PrintItems, PrintMoreItems;
    var v, more := Print(items.value), PrintMoreItems(items.rest);
    ItemsPrint(items);
    AtSplit(js, p, items.before + v + items.after, more);
    AtSplit(js, p, items.before + v, items.after);
    AtSplit(js, p, items.before, v);
    var p3 := p + |items.before + v + items.after|;
    AtIndex(js, p3, more, 0);
    if items.rest.Item? {
      AtSplit(js, p3, ",", PrintItems(items.rest));
    }
  }

  lemma MemberParts(js: string, p: nat, members: Members)
    requires members.Member? && At(js, p, PrintMembers(members))
    ensures var v, more := Print(members.value), PrintMoreMembers(members.rest);
            var head := members.before + Quoted(members.key) + members.preColon + ":";
            var p1 := p + |head|;
            var p2 := p1 + |members.postColon|;
            var p3 := p2 + |v|;
            var p4 := p3 + |members.after|;
            && At(js, p, head) && At(js, p1, members.postColon) && At(js, p2, v)
            && At(js, p3, members.after) && At(js, p4, more)
            && p4 + |more| == p + |PrintMembers(members)|
            && p4 < |js| && js[p4] == (if members.rest.NoMembers? then '}' else ',')
            && (members.rest.Member? ==> At(js, p4 + 1, PrintMembers(members.rest)))
  {
    hide Print, At, Quoted, PrintMembers, PrintMoreMembers;
    var v, more := Print(members.value), PrintMoreMembers(members.rest);
    MembersPrint(members);
    var head := members.before + Quoted(members.key) + members.preColon + ":";
    AtSplit5(js, p, head, members.postColon, v, members.after, more);
    var p4 := p + |head| + |members.postColon| + |v| + |members.after|;
    AtIndex(js, p4, more, 0);
    if members.rest.Member? {
      AtSplit(js, p4, ",", PrintMembers(members.rest));
    }
  }

  lemma {:induction false} RunItems(js: string, cap: nat, s: State, items: Items, k: nat)
    requires Inside(s, k, Array) && s.super == k && ValidItems(items) && At(js, s.pos, PrintItems(items))
    requires |s.toks| + |ItemTokens(items, s.pos)| <= cap
    ensures var c := Closed(s, k, Length(items), s.pos + |PrintItems(items)|, ItemTokens(items, s.pos));
            c.pos <= |js| && Wf(c) && Run(js, cap, s) == Run(js, cap, c)
    decreases items
  {
    hide Run, LastOpen, Print, Tokens, At, Seal;
    match items
    case NoItems =>
      AtIndex(js, s.pos, "]", 0);
      RunClose(js, cap, s, k, Array);
    case Item(before, v, after, rest) =>
      var more := PrintMoreItems(rest);
      ItemParts(js, s.pos, items);
      var s3 := RunChild(js, cap, s, before, v, after, more, k, Array);
      var child := Tokens(v, s.pos + |before|);
      if rest.NoItems? {
        RunClose(js, cap, s3, k, Array);
        ClosedAfterChild(s, s3, k, child, 0, s3.pos + 1, []);
        assert child + [] == ItemTokens(items, s.pos);
      } else {
        RunComma(js, cap, s3, k, Array);
        var s4 := State(s3.pos + 1, k, s3.toks);
        RunItems(js, cap, s4, rest, k);
        ClosedAfterChild(s, s4, k, child, Length(rest), s.pos + |PrintItems(items)|, ItemTokens(rest, s4.pos));
      }
  }

  /** A value with blanks around it, inside container k or below a key of it. */
  lemma {:induction false} RunChild(js: string, cap: nat, s: State, before: string, v: Value, after: string, more: string,
                                    k: nat, kind: Kind)
    returns (s3: State)
    requires Inside(s, k, kind) && IsContainer(kind) && s.super != -1
    requires Valid(v) && Blank(before) && Blank(after) && more != [] && EndsPrimitive(more[0])
    requires At(js, s.pos, before) && At(js, s.pos + |before|, Print(v))
    requires At(js, s.pos + |before| + |Print(v)|, after) && At(js, s.pos + |before| + |Print(v)| + |after|, more)
    requires |s.toks| + |Tokens(v, s.pos + |before|)| <= cap
    ensures s3.pos == s.pos + |before| + |Print(v)| + |after|
    ensures s3.toks == Adopt(s.super, s.toks) + Tokens(v, s.pos + |before|)
    ensures s3.super == s.super || s3.super == k
    ensures Inside(s3, k, kind)
    ensures Run(js, cap, s) == Run(js, cap, s3)
    decreases v, 1
  {
    hide Run, Print, Tokens, LastOpen, Valid;
    RunBlank(js, cap, s, before);
    var s1 := s.(pos := s.pos + |before|);
    var p := s1.pos + |Print(v)|;
    EndsAfter(js, p, after, more);
    RunValue(js, cap, s1, v);
    AfterInside(s1, v, k, kind);
    var s2 := After(s1, v);
    RunBlank(js, cap, s2, after);
    s3 := s2.(pos := s2.pos + |after|);
  }

  /** One member: its key, its value and the blanks around them. */
  lemma {:induction false} RunMember(js: string, cap: nat, s: State, members: Members, k: nat)
    returns (s3: State, child: seq<Token>)
    requires members.Member? && Inside(s, k, Object) && s.super == k
    requires ValidMembers(members) && At(js, s.pos, PrintMembers(members))
    requires |s.toks| + |MemberTokens(members, s.pos)| <= cap
    ensures s3.pos + 1 + (if members.rest.Member? then |PrintMembers(members.rest)| else 0) == s.pos + |PrintMembers(members)|
    ensures s3.pos < |js| && js[s3.pos] == if members.rest.NoMembers? then '}' else ','
    ensures members.rest.Member? ==> At(js, s3.pos + 1, PrintMembers(members.rest))
    ensures s3.toks == Adopt(k, s.toks) + child && Inside(s3, k, Object)
    ensures s3.super == k || (s3.super != -1 && s3.toks[s3.super].kind == String)
    ensures MemberTokens(members, s.pos) == child + MemberTokens(members.rest, s3.pos + 1)
    ensures Run(js, cap, s) == Run(js, cap, s3)
    decreases members, 0
  {
    hide Run, LastOpen, Print, Tokens, At, ValidBody, PrintMembers, PrintMoreMembers;
    var key, v, pre := members.key, members.value, members.preColon;
    MemberParts(js, s.pos, members);
    MembersPrint(members);
    var s2 := RunKey(js, cap, s, members.before, key, pre, k);
    s3 := RunChild(js, cap, s2, members.postColon, v, members.after, PrintMoreMembers(members.rest), k, Object);
    var p := s.pos + |members.before| + 1;
    child := [Token(String, p, p + |key|, 1)] + Tokens(v, s2.pos + |members.postColon|);
    assert s3.toks == Adopt(k, s.toks) + child;
  }

  lemma {:induction false} RunMembers(js: string, cap: nat, s: State, members: Members, k: nat)
    requires Inside(s, k, Object) && s.super == k && ValidMembers(members) && At(js, s.pos, PrintMembers(members))
    requires |s.toks| + |MemberTokens(members, s.pos)| <= cap
    ensures var c := Closed(s, k, Width(members), s.pos + |PrintMembers(members)|, MemberTokens(members, s.pos));
            c.pos <= |js| && Wf(c) && Run(js, cap, s) == Run(js, cap, c)
    decreases members, 1
  {
    hide Run, LastOpen, Print, Tokens, At, Seal, ValidBody, Adopt;
    if members.NoMembers? {
      AtIndex(js, s.pos, "}", 0);
      RunClose(js, cap, s, k, Object);
    } else {
      hide PrintMembers, MemberTokens;
      var rest := members.rest;
      var s3, child := RunMember(js, cap, s, members, k);
      if rest.NoMembers? {
        RunClose(js, cap, s3, k, Object);
        ClosedAfterChild(s, s3, k, child, 0, s3.pos + 1, []);
        NoMoreTokens(s3.pos + 1);
        assert child + [] == MemberTokens(members, s.pos);
      } else {
        RunComma(js, cap, s3, k, Object);
        var s4 := State(s3.pos + 1, k, s3.toks);
        RunMembers(js, cap, s4, rest, k);
        ClosedAfterChild(s, s4, k, child, Width(rest), s.pos + |PrintMembers(members)|, MemberTokens(rest, s4.pos));
      }
    }
  }

  lemma NoMoreTokens(at: nat)
    ensures MemberTokens(NoMembers, at) == []
  {
  }

  /** A key and its colon: the key token becomes the superior. */
  lemma RunKey(js: string, cap: nat, s: State, before: string, key: string, pre: string, k: nat)
    returns (s2: State)
    requires Inside(s, k, Object) && s.super == k && |s.toks| < cap
    requires Blank(before) && ValidBody(key) && Blank(pre)
    requires At(js, s.pos, before + Quoted(key) + pre + ":")
    ensures s2.pos == s.pos + |before| + |key| + 2 + |pre| + 1
    ensures s2.super == |s.toks|
    ensures s2.toks == Adopt(k, s.toks) + [Token(String, s.pos + |before| + 1, s.pos + |before| + 1 + |key|, 0)]
    ensures Inside(s2, k, Object)
    ensures Run(js, cap, s) == Run(js, cap, s2)
  {
    hide Run, LastOpen, ValidBody;
    AtSplit(js, s.pos, before + Quoted(key) + pre, ":");
    AtSplit(js, s.pos, before + Quoted(key), pre);
    AtSplit(js, s.pos, before, Quoted(key));
    RunBlank(js, cap, s, before);
    var s1 := s.(pos := s.pos + |before|);
    RunQuoted(js, cap, s1, key);
    var t := Token(String, s1.pos + 1, s1.pos + 1 + |key|, 0);
    LastOpenAdopt(k, s.toks);
    LastOpenAppend(Adopt(k, s.toks), [t]);
    var q := State(s1.pos + |Quoted(key)|, k, Adopt(k, s.toks) + [t]);
    RunBlank(js, cap, q, pre);
    var r := q.(pos := q.pos + |pre|);
    AtIndex(js, r.pos, ":", 0);
    RunColon(js, cap, r);
    s2 := State(r.pos + 1, |s.toks|, q.toks);
  }

  // ---------- The main result ----------

  /** For every JSON value, every layout of white space and every array with enough room, the
      parser succeeds and leaves exactly the pre-order listing of the tree. */
  lemma ParseTree(before: string, v: Value, after: string, cap: nat)
    requires Valid(v) && Blank(before) && Blank(after) && |Tokens(v, |before|)| <= cap
    ensures var js := before + Print(v) + after;
            && Run(js, cap, INIT) == Outcome(Done, State(|js|, -1, Tokens(v, |before|)))
            && Code(Run(js, cap, INIT)) == |Tokens(v, |before|)|
  {
    hide Run, Print, Tokens, LastOpen, Valid;
    var js := before + Print(v) + after;
    assert At(js, 0, js);
    AtSplit(js, 0, before + Print(v), after);
    AtSplit(js, 0, before, Print(v));
    RunBlank(js, cap, INIT, before);
    var s1 := INIT.(pos := |before|);
    if after != [] {
      AtIndex(js, |before + Print(v)|, after, 0);
    }
    RunValue(js, cap, s1, v);
    var s2 := After(s1, v);
    assert s2.toks == Tokens(v, |before|);
    RunBlank(js, cap, s2, after);
    RunEnd(js, cap, s2.(pos := |js|));
  }

  lemma RunEnd(js: string, cap: nat, s: State)
    requires Wf(s) && s.pos == |js| && forall i :: 0 <= i < |s.toks| ==> !IsOpen(s.toks[i])
    ensures Run(js, cap, s) == Outcome(Done, s)
  {
    LastOpenAppend([], s.toks);
    assert [] + s.toks == s.toks;
  }

  /** With too few tokens the parser says so, and the counting pass says how many it takes. */
  lemma TreeNeeds(before: string, v: Value, after: string, cap: nat)
    requires Valid(v) && Blank(before) && Blank(after)
    ensures var js := before + Print(v) + after;
            && CountCode(CountRun(js, 0, 0)) == |Tokens(v, |before|)|
            && (Run(js, cap, INIT).status == Failed(NoMem) <==> cap < |Tokens(v, |before|)|)
  {
    var n := |Tokens(v, |before|)|;
    ParseTree(before, v, after, n);
    JsmnResume.TwoPass(before + Print(v) + after, n, cap);
  }
}
