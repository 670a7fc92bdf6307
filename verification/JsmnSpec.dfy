/** Meaning of the one-pass JSON tokenizer, stated on values.

    The tokenizer keeps no stack.  Its state is a position, the tokens created so
    far and the index of the token that adopts the next one (`super`, -1 for none).
    A container token whose `end` is still -1 is open; the open tokens, in index
    order, are what a stack would hold.

    This is the configuration that is built: neither strict mode nor parent links. */
module JsmnSpec {

  datatype Kind = Undefined | Object | Array | String | Primitive

  datatype Token = Token(kind: Kind, start: int, end: int, size: int)

  datatype Error = NoMem | Inval | Part

  datatype State = State(pos: nat, super: int, toks: seq<Token>)

  /** What one trip round the main loop does: move on, or stop with an error and
      leave the parser exactly where it was. */
  datatype StepResult = Go(next: State) | Stop(error: Error)

  datatype Status = Done | Failed(error: Error)

  datatype Outcome = Outcome(status: Status, st: State)

  const NUL := '\0'

  predicate IsBlank(c: char) {
    c == '\t' || c == '\r' || c == '\n' || c == ' '
  }

  /** The characters that end an unquoted word. */
  predicate EndsPrimitive(c: char) {
    IsBlank(c) || c == ':' || c == ',' || c == ']' || c == '}'
  }

  predicate IsPrintable(c: char) {
    32 <= c as int < 127
  }

  predicate IsHex(c: char) {
    '0' <= c <= '9' || 'A' <= c <= 'F' || 'a' <= c <= 'f'
  }

  predicate IsSimpleEscape(c: char) {
    c == '\"' || c == '/' || c == '\\' || c == 'b' || c == 'f' || c == 'r' || c == 'n' || c == 't'
  }

  predicate AtEnd(js: string, p: nat)
    requires p <= |js|
  {
    p == |js| || js[p] == NUL
  }

  // ---------- Scanning a string or a primitive ----------

  datatype Scan = Found(at: nat) | Invalid | Unfinished

  /** From just after the opening quote, or after a complete character, to the closing quote. */
  function ScanString(js: string, p: nat): (r: Scan)
    requires p <= |js|
    ensures r.Found? ==> p <= r.at < |js| && js[r.at] == '\"'
    decreases |js| - p, 0
  {
    if AtEnd(js, p) then Unfinished
    else if js[p] == '\"' then Found(p)
    else if js[p] == '\\' && p + 1 < |js| then
      if IsSimpleEscape(js[p + 1]) then ScanString(js, p + 2)
      else if js[p + 1] == 'u' then ScanHex(js, p + 2, 4)
      else Invalid
    else ScanString(js, p + 1)
  }

  /** Up to `k` hexadecimal digits, then the rest of the string. */
  function ScanHex(js: string, p: nat, k: nat): (r: Scan)
    requires p <= |js|
    ensures r.Found? ==> p <= r.at < |js| && js[r.at] == '\"'
    decreases |js| - p, 1
  {
    if k == 0 || AtEnd(js, p) then ScanString(js, p)
    else if IsHex(js[p]) then ScanHex(js, p + 1, k - 1)
    else Invalid
  }

  function ScanPrimitive(js: string, p: nat): (r: Scan)
    requires p <= |js|
    ensures !r.Unfinished?
    ensures r.Found? ==> p <= r.at <= |js|
    ensures r.Found? ==> AtEnd(js, r.at) || EndsPrimitive(js[r.at])
    ensures r.Found? ==> forall i :: p <= i < r.at ==> IsPrintable(js[i]) && !EndsPrimitive(js[i])
    decreases |js| - p
  {
    if AtEnd(js, p) || EndsPrimitive(js[p]) then Found(p)
    else if !IsPrintable(js[p]) then Invalid
    else ScanPrimitive(js, p + 1)
  }

  // ---------- Token bookkeeping ----------

  predicate IsContainer(k: Kind) {
    k == Object || k == Array
  }

  predicate IsOpen(t: Token) {
    t.start != -1 && t.end == -1
  }

  /** Index of the last open token, -1 when every token is closed. */
  function LastOpen(toks: seq<Token>): (r: int)
    ensures -1 <= r < |toks|
    ensures r != -1 ==> IsOpen(toks[r])
    ensures forall i :: r < i < |toks| ==> !IsOpen(toks[i])
  {
    if toks == [] then -1
    else if IsOpen(toks[|toks| - 1]) then |toks| - 1
    else LastOpen(toks[..|toks| - 1])
  }

  /** The token being built gets one more child. */
  function Adopt(super: int, toks: seq<Token>): (r: seq<Token>)
    requires -1 <= super < |toks|
    ensures |r| == |toks|
    ensures forall i :: 0 <= i < |r| ==>
      r[i] == if i == super then toks[i].(size := toks[i].size + 1) else toks[i]
  {
    if super == -1 then toks else toks[super := toks[super].(size := toks[super].size + 1)]
  }

  predicate Wf(s: State) {
    && -1 <= s.super < |s.toks|
    && forall i :: 0 <= i < |s.toks| && IsOpen(s.toks[i]) ==> IsContainer(s.toks[i].kind)
  }

  const INIT := State(0, -1, [])

  // ---------- One step, and a whole call ----------

  function OpenContainer(cap: nat, s: State, k: Kind): (r: StepResult)
    requires Wf(s) && IsContainer(k)
    ensures r.Go? ==> Wf(r.next)
  {
    if |s.toks| >= cap then Stop(NoMem)
    else Go(State(s.pos + 1, |s.toks|, Adopt(s.super, s.toks) + [Token(k, s.pos, -1, 0)]))
  }

  function CloseContainer(s: State, k: Kind): (r: StepResult)
    requires Wf(s)
    ensures r.Go? ==> Wf(r.next)
  {
    var i := LastOpen(s.toks);
    if i == -1 || s.toks[i].kind != k then Stop(Inval)
    else Go(State(s.pos + 1, LastOpen(s.toks[..i]), s.toks[i := s.toks[i].(end := s.pos + 1)]))
  }

  function AddLeaf(cap: nat, s: State, t: Token, pos: nat): (r: StepResult)
    requires Wf(s) && !IsOpen(t)
    ensures r.Go? ==> Wf(r.next)
  {
    if |s.toks| >= cap then Stop(NoMem)
    else Go(State(pos, s.super, Adopt(s.super, s.toks) + [t]))
  }

  function Comma(s: State): (r: State)
    requires Wf(s)
    ensures Wf(r)
  {
    if s.super != -1 && !IsContainer(s.toks[s.super].kind) && LastOpen(s.toks) != -1
    then State(s.pos + 1, LastOpen(s.toks), s.toks)
    else State(s.pos + 1, s.super, s.toks)
  }

  function Step(js: string, cap: nat, s: State): (r: StepResult)
    requires s.pos <= |js| && !AtEnd(js, s.pos) && Wf(s)
    ensures r.Go? ==> s.pos < r.next.pos <= |js| && Wf(r.next)
  {
    var c := js[s.pos];
    if c == '{' then OpenContainer(cap, s, Object)
    else if c == '[' then OpenContainer(cap, s, Array)
    else if c == '}' then CloseContainer(s, Object)
    else if c == ']' then CloseContainer(s, Array)
    else if c == '\"' then
      match ScanString(js, s.pos + 1)
      case Found(q) => AddLeaf(cap, s, Token(String, s.pos + 1, q, 0), q + 1)
      case Invalid => Stop(Inval)
      case Unfinished => Stop(Part)
    else if IsBlank(c) then Go(s.(pos := s.pos + 1))
    else if c == ':' then Go(State(s.pos + 1, |s.toks| - 1, s.toks))
    else if c == ',' then Go(Comma(s))
    else
      match ScanPrimitive(js, s.pos)
      case Found(q) => AddLeaf(cap, s, Token(Primitive, s.pos, q, 0), q)
      case Invalid => Stop(Inval)
  }

  /** One call of the parser in token mode, with room for `cap` tokens. */
  function Run(js: string, cap: nat, s: State): (o: Outcome)
    requires s.pos <= |js| && Wf(s)
    ensures s.pos <= o.st.pos <= |js| && Wf(o.st)
    ensures o.status.Done? ==> AtEnd(js, o.st.pos) && LastOpen(o.st.toks) == -1
    decreases |js| - s.pos
  {
    if AtEnd(js, s.pos) then
      Outcome(if LastOpen(s.toks) == -1 then Done else Failed(Part), s)
    else
      match Step(js, cap, s)
      case Go(s') => Run(js, cap, s')
      case Stop(e) => Outcome(Failed(e), s)
  }

  /** The C return value. */
  function Code(o: Outcome): int {
    match o.status
    case Done => |o.st.toks|
    case Failed(NoMem) => -1
    case Failed(Inval) => -2
    case Failed(Part) => -3
  }

  // ---------- Counting mode (no token array) ----------

  datatype CountOutcome = CountOutcome(status: Status, pos: nat, count: nat)

  /** One call with a null token array: brackets are not matched, nothing is stored. */
  function CountRun(js: string, p: nat, count: nat): (o: CountOutcome)
    requires p <= |js|
    ensures p <= o.pos <= |js|
    ensures o.status.Failed? ==> o.status.error != NoMem
    decreases |js| - p
  {
    if AtEnd(js, p) then CountOutcome(Done, p, count)
    else if js[p] == '{' || js[p] == '[' then CountRun(js, p + 1, count + 1)
    else if js[p] == '\"' then
      match ScanString(js, p + 1)
      case Found(q) => CountRun(js, q + 1, count + 1)
      case Invalid => CountOutcome(Failed(Inval), p, count)
      case Unfinished => CountOutcome(Failed(Part), p, count)
    else if EndsPrimitive(js[p]) then CountRun(js, p + 1, count)
    else
      match ScanPrimitive(js, p)
      case Found(q) => CountRun(js, q, count + 1)
      case Invalid => CountOutcome(Failed(Inval), p, count)
  }

  function CountCode(o: CountOutcome): int {
    match o.status
    case Done => o.count
    case Failed(NoMem) => -1
    case Failed(Inval) => -2
    case Failed(Part) => -3
  }
}
