/** The static message buffer: NUL-terminated text in a fixed array, extended with snprintf and
    stripped of trailing commas. */
module JsonBuffer {
  import opened JsmnSpec
  import opened Numbers

  const SIZE: nat := 1024

  /** The C string at the start of b. */
  function CString(b: seq<char>): string {
    if b == [] || b[0] == NUL then [] else [b[0]] + CString(b[1..])
  }

  predicate NoNul(s: string) {
    forall i :: 0 <= i < |s| ==> s[i] != NUL
  }

  lemma {:induction false} CStringIs(b: seq<char>, t: string)
    requires NoNul(t) && |t| < |b| && b[..|t|] == t && b[|t|] == NUL
    ensures CString(b) == t
    decreases |t|
  {
    if t != [] {
      assert b[0] == t[0];
      assert b[1..][..|t| - 1] == b[..|t|][1..] == t[1..];
      CStringIs(b[1..], t[1..]);
    }
  }

  lemma {:induction false} CStringShape(b: seq<char>)
    requires NUL in b
    ensures var t := CString(b);
            |t| < |b| && b[..|t|] == t && b[|t|] == NUL && NoNul(t)
    decreases |b|
  {
    if b[0] != NUL {
      CStringShape(b[1..]);
      var t := CString(b[1..]);
      assert b[..|t| + 1] == [b[0]] + b[1..][..|t|];
    }
  }

  lemma TextChars(b: seq<char>)
    requires NUL in b
    ensures var t := CString(b);
            |t| < |b| && b[|t|] == NUL && forall i :: 0 <= i < |t| ==> b[i] != NUL
  {
    CStringShape(b);
    var t := CString(b);
    forall i | 0 <= i < |t|
      ensures b[i] != NUL
    {
      assert b[i] == b[..|t|][i] == t[i];
    }
  }

  /** What of a text fits before the terminating NUL. */
  function Cut(t: string): string {
    if |t| < SIZE then t else t[..SIZE - 1]
  }

  function DropComma(t: string): string {
    if t != [] && t[|t| - 1] == ',' then t[..|t| - 1] else t
  }

  class Buffer {
    const buf: array<char>

    ghost predicate Valid()
      reads this, buf
    {
      buf.Length == SIZE && NUL in buf[..]
    }

    ghost function Text(): string
      reads this, buf
    {
      CString(buf[..])
    }

    constructor ()
      ensures Valid() && fresh(buf)
    {
      buf := new char[SIZE](_ => NUL);
      new;
      assert buf[0] == NUL && buf[0] in buf[..];
    }

    method Strlen() returns (n: nat)
      requires Valid()
      ensures n == |Text()| < SIZE
    {
      CStringShape(buf[..]);
      ghost var t := Text();
      TextChars(buf[..]);
      n := 0;
      while buf[n] != NUL
        invariant n <= |t|
        decreases |t| - n
      {
        n := n + 1;
      }
    }

    /** Writes what fits of the piece into len bytes at `at`, always terminated; the result is the
        length of the whole piece, so a cut is not reported as an error. */
    method Snprintf(at: nat, len: nat, piece: string) returns (rc: nat)
      requires NoNul(piece) && at + len <= buf.Length
      modifies buf
      ensures rc == |piece|
      ensures len > 0 ==>
                var k := if |piece| < len then |piece| else len - 1;
                buf[..] == old(buf[..at]) + piece[..k] + [NUL] + old(buf[at + k + 1..])
      ensures len == 0 ==> buf[..] == old(buf[..])
    {
      rc := |piece|;
      if len > 0 {
        var k := if |piece| < len then |piece| else len - 1;
        forall i | 0 <= i < k {
          buf[at + i] := piece[i];
        }
        buf[at + k] := NUL;
      }
    }

    /** Prints behind the first n characters of the text, which stay. */
    method PrintAfter(n: nat, piece: string) returns (rc: nat)
      requires Valid() && n <= |Text()| < SIZE && NoNul(piece)
      modifies buf
      ensures Valid() && Text() == Cut(old(Text())[..n] + piece) && rc == |piece|
    {
      CStringShape(buf[..]);
      ghost var t := Text()[..n] + piece;
      assert buf[..][..n] == Text()[..n];
      rc := Snprintf(n, SIZE - n, piece);
      assert buf[..][|Cut(t)|] == NUL;
      assert buf[..][..|Cut(t)|] == Cut(t);
      CStringIs(buf[..], Cut(t));
    }

    method Append(piece: string) returns (rc: nat)
      requires Valid() && NoNul(piece)
      modifies buf
      ensures Valid() && Text() == Cut(old(Text()) + piece) && rc == |piece|
    {
      var n := Strlen();
      assert Text()[..n] == Text();
      rc := PrintAfter(n, piece);
    }

    /** Appends, but first takes back a trailing comma. */
    method AppendOverComma(piece: string) returns (rc: nat)
      requires Valid() && Text() != [] && NoNul(piece)
      modifies buf
      ensures Valid() && Text() == Cut(DropComma(old(Text())) + piece) && rc == |piece|
    {
      CStringShape(buf[..]);
      var n := Strlen();
      assert buf[..][..n] == Text() == Text()[..n];
      assert Text()[n - 1] == buf[n - 1];
      if buf[n - 1] == ',' {
        n := n - 1;
      }
      rc := PrintAfter(n, piece);
    }

    // ---------- The builder ----------

    method BeginSection(name: string) returns (ret: int)
      requires buf.Length == SIZE && NoNul(name)
      modifies buf
      ensures Valid() && Text() == Cut("{\"" + name + "\":{")
      ensures ret == if |name| + 5 == SIZE then -1 else 0
    {
      var piece := "{\"" + name + "\":{";
      var rc := Snprintf(0, SIZE, piece);
      assert buf[..][|Cut(piece)|] == NUL;
      assert buf[..][..|Cut(piece)|] == Cut(piece);
      CStringIs(buf[..], Cut(piece));
      ret := if rc == SIZE then -1 else 0;
    }

    method AddSectionEnd() returns (ret: int)
      requires Valid() && Text() != []
      modifies buf
      ensures Valid() && ret == 0 && Text() == Cut(DropComma(old(Text())) + "},")
    {
      var rc := AppendOverComma("},");
      ret := if rc != 2 then -1 else 0;
    }

    method AddNameInt(name: string, value: int) returns (ret: int)
      requires Valid() && NoNul(name)
      modifies buf
      ensures Valid() && ret == 0 && Text() == Cut(old(Text()) + ("\"" + name + "\":" + Signed(value) + ","))
    {
      SignedShape(value);
      var rc := Append("\"" + name + "\":" + Signed(value) + ",");
      ret := 0;
    }

    /** Closes the message.  The bound passed to snprintf is the size of the whole buffer, so the
        caller must have left room for the bracket. */
    method End() returns (ret: int)
      requires Valid() && Text() != [] && |DropComma(Text())| + 1 < SIZE
      modifies buf
      ensures Valid() && ret == 0 && Text() == DropComma(old(Text())) + "}"
    {
      var rc := AppendOverComma("}");
      ret := if rc != 1 then -1 else 0;
    }
  }
}
