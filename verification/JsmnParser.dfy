/** The tokenizer as it is written: loops that move `pos`, `toknext` and `toksuper`
    and fill the caller's token array in place.  Every method is proved to do what
    JsmnSpec says, so the laws proved there hold of this code. */
module JsmnParser {
  import opened JsmnSpec

  class Parser {
    var pos: nat
    var toknext: nat
    var toksuper: int

    constructor ()
      ensures pos == 0 && toknext == 0 && toksuper == -1
    {
      pos, toknext, toksuper := 0, 0, -1;
    }

    /** The part of the state the rest of the parse depends on. */
    ghost function Abs(tokens: array<Token>): State
      requires toknext <= tokens.Length
      reads this, tokens
    {
      State(pos, toksuper, tokens[..toknext])
    }

    ghost predicate Ready(js: string, tokens: array<Token>)
      reads this, tokens
    {
      toknext <= tokens.Length && pos <= |js| && Wf(Abs(tokens))
    }

    /** Index of a fresh token, -1 when the array is full. */
    method AllocToken(tokens: array<Token>) returns (i: int)
      modifies this`toknext, tokens
      ensures old(toknext) >= tokens.Length ==> i == -1 && toknext == old(toknext) && tokens[..] == old(tokens[..])
      ensures old(toknext) < tokens.Length ==>
                && i == old(toknext) && toknext == i + 1
                && tokens[..] == old(tokens[..])[i := old(tokens[i]).(start := -1, end := -1, size := 0)]
    {
      if toknext >= tokens.Length {
        return -1;
      }
      i := toknext;
      toknext := toknext + 1;
      tokens[i] := tokens[i].(start := -1, end := -1, size := 0);
    }

    /** Reads an unquoted word starting at `pos`; leaves `pos` on its last character. */
    method ParsePrimitive(js: string, tokens: array?<Token>) returns (r: int)
      requires pos < |js| && !AtEnd(js, pos) && !EndsPrimitive(js[pos])
      modifies this`pos, this`toknext, tokens
      ensures match ScanPrimitive(js, old(pos))
              case Found(q) =>
                if tokens == null then
                  r == 0 && pos == q - 1 && toknext == old(toknext)
                else if old(toknext) >= tokens.Length then
                  r == -1 && pos == old(pos) && toknext == old(toknext) && tokens[..] == old(tokens[..])
                else
                  && r == 0 && pos == q - 1 && toknext == old(toknext) + 1
                  && tokens[..] == old(tokens[..])[old(toknext) := Token(Primitive, old(pos), q, 0)]
              case Invalid =>
                && r == -2 && pos == old(pos) && toknext == old(toknext)
                && (tokens != null ==> tokens[..] == old(tokens[..]))
    {
      var start := pos;
      while pos < |js| && js[pos] != NUL
        invariant start <= pos <= |js|
        invariant ScanPrimitive(js, start) == ScanPrimitive(js, pos)
        invariant pos == start ==> !AtEnd(js, pos) && !EndsPrimitive(js[pos])
        modifies this`pos
        decreases |js| - pos
      {
        if EndsPrimitive(js[pos]) {
          break;
        }
        if (js[pos] as int) < 32 || (js[pos] as int) >= 127 {
          pos := start;
          return -2;
        }
        pos := pos + 1;
      }
      if tokens == null {
        pos := pos - 1;
        return 0;
      }
      var i := AllocToken(tokens);
      if i == -1 {
        pos := start;
        return -1;
      }
      tokens[i] := Token(Primitive, start, pos, 0);
      pos := pos - 1;
      return 0;
    }

    /** Reads a string whose opening quote is at `pos`; leaves `pos` on the closing quote. */
    method ParseString(js: string, tokens: array?<Token>) returns (r: int)
      requires pos < |js| && js[pos] == '\"'
      modifies this`pos, this`toknext, tokens
      ensures match ScanString(js, old(pos) + 1)
              case Found(q) =>
                if tokens == null then
                  r == 0 && pos == q && toknext == old(toknext)
                else if old(toknext) >= tokens.Length then
                  r == -1 && pos == old(pos) && toknext == old(toknext) && tokens[..] == old(tokens[..])
                else
                  && r == 0 && pos == q && toknext == old(toknext) + 1
                  && tokens[..] == old(tokens[..])[old(toknext) := Token(String, old(pos) + 1, q, 0)]
              case Invalid =>
                && r == -2 && pos == old(pos) && toknext == old(toknext)
                && (tokens != null ==> tokens[..] == old(tokens[..]))
              case Unfinished =>
                && r == -3 && pos == old(pos) && toknext == old(toknext)
                && (tokens != null ==> tokens[..] == old(tokens[..]))
    {
      var start := pos;
      pos := pos + 1;
      while pos < |js| && js[pos] != NUL
        invariant start < pos <= |js|
        invariant ScanString(js, start + 1) == ScanString(js, pos)
        invariant toknext == old(toknext) && (tokens != null ==> tokens[..] == old(tokens[..]))
        decreases |js| - pos
      {
        ghost var here := pos;
        var c := js[pos];
        if c == '\"' {
          if tokens == null {
            return 0;
          }
          var i := AllocToken(tokens);
          if i == -1 {
            pos := start;
            return -1;
          }
          tokens[i] := Token(String, start + 1, pos, 0);
          return 0;
        }
        if c == '\\' && pos + 1 < |js| {
          pos := pos + 1;
          if IsSimpleEscape(js[pos]) {
          } else if js[pos] == 'u' {
            pos := pos + 1;
            var i := 0;
            while i < 4 && pos < |js| && js[pos] != NUL
              invariant 0 <= i <= 4 && here + 1 < pos <= |js|
              invariant ScanString(js, start + 1) == ScanHex(js, pos, 4 - i)
              modifies this`pos
              decreases 4 - i
            {
              if !IsHex(js[pos]) {
                pos := start;
                return -2;
              }
              pos := pos + 1;
              i := i + 1;
            }
            pos := pos - 1;
          } else {
            pos := start;
            return -2;
          }
        }
        pos := pos + 1;
      }
      pos := start;
      return -3;
    }

    /** Searches downwards from index `from` for an open token. */
    method FindOpen(tokens: array<Token>, from: int) returns (i: int)
      requires -1 <= from < tokens.Length
      ensures i == LastOpen(tokens[..from + 1])
    {
      i := from;
      while i >= 0
        invariant -1 <= i <= from
        invariant LastOpen(tokens[..from + 1]) == LastOpen(tokens[..i + 1])
        decreases i
      {
        assert tokens[..i + 1][..i] == tokens[..i];
        if tokens[i].start != -1 && tokens[i].end == -1 {
          return;
        }
        i := i - 1;
      }
    }

    /** `{` or `[`: a new open token, adopted by the current superior, becomes the superior. */
    method OpenBracket(js: string, tokens: array<Token>, kind: Kind) returns (ok: bool)
      requires Ready(js, tokens) && pos < |js| && IsContainer(kind)
      modifies this`toknext, this`toksuper, tokens
      ensures toknext <= tokens.Length
      ensures match OpenContainer(tokens.Length, old(Abs(tokens)), kind)
              case Go(s) => ok && Abs(tokens).(pos := s.pos) == s
              case Stop(_) => !ok && Abs(tokens) == old(Abs(tokens))
      ensures forall i :: toknext <= i < tokens.Length ==> tokens[i] == old(tokens[i])
    {
      var i := AllocToken(tokens);
      if i == -1 {
        return false;
      }
      if toksuper != -1 {
        tokens[toksuper] := tokens[toksuper].(size := tokens[toksuper].size + 1);
      }
      tokens[i] := tokens[i].(kind := kind, start := pos);
      toksuper := toknext - 1;
      ok := true;
    }

    /** `}` or `]`: closes the last open token, then looks below it for the new superior. */
    method CloseBracket(js: string, tokens: array<Token>, kind: Kind) returns (ok: bool)
      requires Ready(js, tokens) && pos < |js|
      modifies this`toksuper, tokens
      ensures match CloseContainer(old(Abs(tokens)), kind)
              case Go(s) => ok && Abs(tokens).(pos := s.pos) == s
              case Stop(_) => !ok && Abs(tokens) == old(Abs(tokens))
      ensures forall i :: toknext <= i < tokens.Length ==> tokens[i] == old(tokens[i])
    {
      var i := FindOpen(tokens, toknext - 1);
      if i == -1 || tokens[i].kind != kind {
        return false;
      }
      toksuper := -1;
      tokens[i] := tokens[i].(end := pos + 1);
      ghost var below := tokens[..i + 1];
      assert below[..i] == tokens[..i] && !IsOpen(below[i]);
      assert tokens[..i] == old(tokens[..toknext])[..i];
      i := FindOpen(tokens, i);
      if i >= 0 {
        toksuper := i;
      }
      ok := true;
    }

    /** `,`: when the superior is a key or a leaf, the innermost open container takes over. */
    method RestoreSuper(js: string, tokens: array<Token>)
      requires Ready(js, tokens)
      modifies this`toksuper
      ensures Abs(tokens).(pos := pos + 1) == Comma(old(Abs(tokens)))
    {
      if toksuper != -1 && tokens[toksuper].kind != Array && tokens[toksuper].kind != Object {
        var i := toknext - 1;
        while i >= 0
          invariant -1 <= i < toknext
          invariant LastOpen(tokens[..toknext]) == LastOpen(tokens[..i + 1])
          invariant toksuper == old(toksuper)
          decreases i
        {
          assert tokens[..i + 1][..i] == tokens[..i];
          assert tokens[i] == Abs(tokens).toks[i];
          if tokens[i].kind == Array || tokens[i].kind == Object {
            if tokens[i].start != -1 && tokens[i].end == -1 {
              toksuper := i;
              break;
            }
          }
          i := i - 1;
        }
      }
    }

    /** The superior, if any, counts the leaf that was just stored. */
    method CountChild(tokens: array<Token>)
      requires toknext <= tokens.Length && -1 <= toksuper < toknext
      modifies tokens
      ensures tokens[..toknext] == Adopt(toksuper, old(tokens[..toknext]))
      ensures forall i :: toknext <= i < tokens.Length ==> tokens[i] == old(tokens[i])
    {
      if toksuper != -1 {
        tokens[toksuper] := tokens[toksuper].(size := tokens[toksuper].size + 1);
      }
    }

    /** A string or a primitive in token mode: store it, then let the superior count it. */
    method Leaf(js: string, tokens: array<Token>) returns (r: int)
      requires Ready(js, tokens) && pos < |js| && !AtEnd(js, pos)
      requires js[pos] == '\"' || (!EndsPrimitive(js[pos]) && js[pos] !in "{[")
      modifies this`pos, this`toknext, tokens
      ensures toknext <= tokens.Length
      ensures match Step(js, tokens.Length, old(Abs(tokens)))
              case Go(s) => r == 0 && Abs(tokens).(pos := pos + 1) == s
              case Stop(e) => r == Code(Outcome(Failed(e), INIT)) && Abs(tokens) == old(Abs(tokens))
      ensures forall i :: toknext <= i < tokens.Length ==> tokens[i] == old(tokens[i])
    {
      ghost var s := Abs(tokens);
      if js[pos] == '\"' {
        r := ParseString(js, tokens);
      } else {
        r := ParsePrimitive(js, tokens);
      }
      if r < 0 {
        assert tokens[..toknext] == s.toks;
        return;
      }
      ghost var t := tokens[toknext - 1];
      assert tokens[..toknext] == s.toks + [t];
      CountChild(tokens);
      assert tokens[..toknext] == Adopt(s.super, s.toks) + [t];
    }

    /** The switch of the main loop in token mode; `made` is what it adds to `count`. */
    method Dispatch(js: string, tokens: array<Token>) returns (r: int, made: nat)
      requires Ready(js, tokens) && pos < |js| && !AtEnd(js, pos)
      modifies this, tokens
      ensures toknext <= tokens.Length
      ensures match Step(js, tokens.Length, old(Abs(tokens)))
              case Go(s) =>
                r == 0 && made == toknext - old(toknext) && Abs(tokens).(pos := pos + 1) == s
              case Stop(e) => r == Code(Outcome(Failed(e), INIT)) && Abs(tokens) == old(Abs(tokens))
      ensures forall i :: toknext <= i < tokens.Length ==> tokens[i] == old(tokens[i])
    {
      var c := js[pos];
      r, made := 0, 0;
      if c == '{' || c == '[' {
        var ok := OpenBracket(js, tokens, if c == '{' then Object else Array);
        if !ok {
          return -1, 1;
        }
        made := 1;
      } else if c == '}' || c == ']' {
        var ok := CloseBracket(js, tokens, if c == '}' then Object else Array);
        if !ok {
          return -2, 0;
        }
      } else if IsBlank(c) {
      } else if c == ':' {
        toksuper := toknext - 1;
      } else if c == ',' {
        RestoreSuper(js, tokens);
      } else {
        r := Leaf(js, tokens);
        made := if r < 0 then 0 else 1;
      }
    }

    /** The same switch with a null token array. */
    method DispatchCounting(js: string) returns (r: int, made: nat)
      requires pos < |js| && !AtEnd(js, pos)
      modifies this
      ensures toknext == old(toknext)
      ensures r == 0 ==>
                && old(pos) <= pos < |js|
                && forall n: nat :: CountRun(js, old(pos), n) == CountRun(js, pos + 1, n + made)
      ensures r != 0 ==>
                && pos == old(pos)
                && forall n: nat :: CountRun(js, pos, n).pos == pos && CountCode(CountRun(js, pos, n)) == r
    {
      var c := js[pos];
      r, made := 0, 0;
      if c == '{' || c == '[' {
        made := 1;
      } else if c == ':' {
        toksuper := toknext - 1;
      } else if EndsPrimitive(c) {
      } else {
        if c == '\"' {
          r := ParseString(js, null);
        } else {
          r := ParsePrimitive(js, null);
        }
        made := if r < 0 then 0 else 1;
      }
    }

    /** One call of the parser.  In token mode it stores exactly what `Run` says and
        touches no entry past `toknext`; with a null array it only counts. */
    method Parse(js: string, tokens: array?<Token>) returns (r: int)
      requires pos <= |js|
      requires tokens != null ==> Ready(js, tokens)
      modifies this, tokens
      ensures tokens != null ==>
                && Ready(js, tokens)
                && Abs(tokens) == Run(js, tokens.Length, old(Abs(tokens))).st
                && r == Code(Run(js, tokens.Length, old(Abs(tokens))))
                && forall i :: toknext <= i < tokens.Length ==> tokens[i] == old(tokens[i])
      ensures tokens == null ==>
                && var o := CountRun(js, old(pos), old(toknext));
                && r == CountCode(o) && pos == o.pos && toknext == old(toknext)
    {
      hide Step, ScanString, ScanPrimitive, LastOpen;
      var count: nat := toknext;
      var made: nat;
      while pos < |js| && js[pos] != NUL
        invariant pos <= |js|
        invariant tokens != null ==>
          && Ready(js, tokens) && count == toknext
          && Run(js, tokens.Length, Abs(tokens)) == old(Run(js, tokens.Length, Abs(tokens)))
          && forall i :: toknext <= i < tokens.Length ==> tokens[i] == old(tokens[i])
        invariant tokens == null ==>
          toknext == old(toknext) && CountRun(js, pos, count) == old(CountRun(js, pos, toknext))
        decreases |js| - pos
      {
        if tokens == null {
          r, made := DispatchCounting(js);
        } else {
          r, made := Dispatch(js, tokens);
        }
        if r < 0 {
          return;
        }
        count := count + made;
        pos := pos + 1;
      }
      if tokens != null {
        var i := FindOpen(tokens, toknext - 1);
        if i >= 0 {
          return -3;
        }
      }
      return count;
    }
  }
}
