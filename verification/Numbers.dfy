/** Numbers as text: printed in decimal, scanned as the C library does. */
module Numbers {
  import opened Bytes
  import opened Slices

  function DigitChar(d: nat): char
    requires d < 10
  {
    ('0' as int + d) as char
  }

  function Dec(n: nat): (r: string)
    ensures r != []
  {
    if n < 10 then [DigitChar(n)] else Dec(n / 10) + [DigitChar(n % 10)]
  }

  function Signed(v: int): (r: string)
    ensures r != []
  {
    if v < 0 then "-" + Dec(-v) else Dec(v)
  }

  lemma {:induction false} DecShape(n: nat)
    ensures forall i :: 0 <= i < |Dec(n)| ==> '0' <= Dec(n)[i] <= '9'
    ensures Dec(n)[0] == '0' <==> n == 0
  {
    if n >= 10 {
      DecShape(n / 10);
    }
  }

  lemma SignedShape(v: int)
    ensures forall i :: 0 <= i < |Signed(v)| ==> '0' <= Signed(v)[i] <= '9' || (i == 0 && Signed(v)[0] == '-')
  {
    hide Dec;
    DecShape(if v < 0 then -v else v);
  }

  // ---------- Scanning ----------

  function DigitOf(c: char, base: nat): Option<nat> {
    if '0' <= c <= '9' && c as int - '0' as int < base then Some(c as int - '0' as int)
    else if base == 16 && 'a' <= c <= 'f' then Some(c as int - 'a' as int + 10)
    else if base == 16 && 'A' <= c <= 'F' then Some(c as int - 'A' as int + 10)
    else None
  }

  predicate DigitAt(js: string, p: nat, base: nat) {
    p < |js| && DigitOf(js[p], base).Some?
  }

  function ScanMore(js: string, p: nat, base: nat, acc: nat): nat
    decreases |js| - p
  {
    if DigitAt(js, p, base) then ScanMore(js, p + 1, base, acc * base + DigitOf(js[p], base).value) else acc
  }

  /** The longest run of digits at p; None if there is none. */
  function ScanDigits(js: string, p: nat, base: nat): Option<nat> {
    if DigitAt(js, p, base) then Some(ScanMore(js, p, base, 0)) else None
  }

  /** The base `%i` reads a number in: 0x for hexadecimal, 0 for octal. */
  function ScanBased(js: string, p: nat): Option<nat> {
    if p + 1 < |js| && js[p] == '0' && js[p + 1] in "xX" then ScanDigits(js, p + 2, 16)
    else if p < |js| && js[p] == '0' then ScanDigits(js, p, 8)
    else ScanDigits(js, p, 10)
  }

  /** `%i` (any base) or `%u` (decimal), an optional sign first. */
  function ScanInt(js: string, p: nat, anyBase: bool): Option<int> {
    var q := if p < |js| && js[p] in "+-" then p + 1 else p;
    var m := if anyBase then ScanBased(js, q) else ScanDigits(js, q, 10);
    if m == None then None
    else
      var v: int := m.value;
      Some(if q > p && js[p] == '-' then -v else v)
  }

  predicate IsSpace(c: char) {
    c == ' ' || '\t' <= c <= '\r'
  }

  /** Past the white space a number may be preceded by. */
  function SkipSpace(js: string, p: nat): (q: nat)
    ensures p <= q
    decreases |js| - p
  {
    if p < |js| && IsSpace(js[p]) then SkipSpace(js, p + 1) else p
  }

  /** `%u` as a whole: the value is kept in 32 bits. */
  function ScanU32(js: string, p: nat): Option<nat> {
    var v := ScanInt(js, SkipSpace(js, p), false);
    if v.Some? then Some(v.value % 0x1_0000_0000) else None
  }

  // ---------- Round trip ----------

  lemma {:induction false} ScanDec(js: string, p: nat, n: nat)
    requires At(js, p, Dec(n))
    ensures ScanMore(js, p, 10, 0) == ScanMore(js, p + |Dec(n)|, 10, n)
    ensures DigitAt(js, p, 10)
    decreases n
  {
    hide At;
    if n < 10 {
      AtIndex(js, p, Dec(n), 0);
    } else {
      AtSplit(js, p, Dec(n / 10), [DigitChar(n % 10)]);
      ScanDec(js, p, n / 10);
      AtIndex(js, p + |Dec(n / 10)|, [DigitChar(n % 10)], 0);
    }
  }

  /** What may follow a number for it to be read whole. */
  predicate Stops(js: string, p: nat) {
    p < |js| ==> js[p] in ",}\""
  }

  lemma ScanUnsigned(js: string, p: nat, n: nat, anyBase: bool)
    requires At(js, p, Dec(n)) && Stops(js, p + |Dec(n)|)
    ensures (if anyBase then ScanBased(js, p) else ScanDigits(js, p, 10)) == Some(n)
    ensures p < |js| && js[p] !in "+-"
  {
    hide At, Dec;
    DecShape(n);
    AtIndex(js, p, Dec(n), 0);
    ScanDec(js, p, n);
    if n == 0 {
      DecZero();
      assert ScanMore(js, p, 8, 0) == ScanMore(js, p + 1, 8, 0) == 0;
    }
  }

  lemma DecZero()
    ensures Dec(0) == "0"
  {
  }

  /** A printed number is read back, also by the scan that guesses the base. */
  lemma ScanBack(js: string, p: nat, v: int, anyBase: bool)
    requires At(js, p, Signed(v)) && Stops(js, p + |Signed(v)|)
    ensures ScanInt(js, p, anyBase) == Some(v)
  {
    hide At, Dec, ScanBased, ScanDigits;
    if v < 0 {
      AtSplit(js, p, "-", Dec(-v));
      AtIndex(js, p, "-", 0);
      ScanUnsigned(js, p + 1, -v, anyBase);
    } else {
      ScanUnsigned(js, p, v, anyBase);
    }
  }

  // ---------- Examples ----------

  /** Decimal digits, most significant first. */
  lemma PrintedNumbers()
    ensures Signed(0) == "0" && Signed(-305) == "-305" && Signed(4096) == "4096"
  {
    assert Dec(30) == Dec(3) + [DigitChar(0)] == "30";
    assert Dec(305) == Dec(30) + [DigitChar(5)] == "305";
    assert Dec(40) == Dec(4) + [DigitChar(0)] == "40";
    assert Dec(409) == Dec(40) + [DigitChar(9)] == "409";
    assert Dec(4096) == Dec(409) + [DigitChar(6)] == "4096";
  }

  /** The digits of each base, in either case. */
  lemma DigitValues(d: nat)
    requires d < 16
    ensures DigitOf("0123456789abcdef"[d], 16) == DigitOf("0123456789ABCDEF"[d], 16) == Some(d)
    ensures DigitOf("0123456789abcdef"[d], 10) == (if d < 10 then Some(d) else None)
    ensures DigitOf("0123456789abcdef"[d], 8) == (if d < 8 then Some(d) else None)
  {
  }

  /** Blank, and the five control characters from horizontal tab to carriage return. */
  lemma SpaceCharacters(c: char)
    ensures IsSpace(c) <==> c as int == 32 || 9 <= c as int <= 13
  {
  }

  /** The number a row of digits stands for. */
  function Positional(ds: seq<nat>, base: nat): nat
    decreases |ds|
  {
    if ds == [] then 0 else Positional(ds[..|ds| - 1], base) * base + ds[|ds| - 1]
  }

  /** These digits stand at p, and no more. */
  predicate DigitsAt(js: string, p: nat, base: nat, ds: seq<nat>) {
    && (forall i :: 0 <= i < |ds| ==> p + i < |js| && DigitOf(js[p + i], base) == Some(ds[i]))
    && !DigitAt(js, p + |ds|, base)
  }

  lemma {:induction false} ScanRest(js: string, p: nat, base: nat, ds: seq<nat>, k: nat)
    requires DigitsAt(js, p, base, ds) && k <= |ds|
    ensures ScanMore(js, p + k, base, Positional(ds[..k], base)) == Positional(ds, base)
    decreases |ds| - k
  {
    hide DigitOf;
    if k < |ds| {
      assert ds[..k + 1][..k] == ds[..k];
      ScanRest(js, p, base, ds, k + 1);
    } else {
      assert ds[..k] == ds;
    }
  }

  /** A row of digits is read as the number it stands for in its base: 16 behind 0x, 8 behind 0. */
  lemma BasedNumbers(js: string, p: nat, base: nat, ds: seq<nat>)
    requires ds != [] && DigitsAt(js, p, base, ds)
    ensures ScanDigits(js, p, base) == Some(Positional(ds, base))
    ensures base == 10 && js[p] != '0' ==> ScanBased(js, p) == Some(Positional(ds, base))
    ensures base == 16 && p >= 2 && js[p - 2] == '0' && js[p - 1] in "xX" ==>
              ScanBased(js, p - 2) == Some(Positional(ds, base))
    ensures base == 8 && js[p] == '0' && (p + 1 < |js| ==> js[p + 1] !in "xX") ==>
              ScanBased(js, p) == Some(Positional(ds, base))
  {
    hide DigitOf;
    ScanRest(js, p, base, ds, 0);
    assert ds[..0] == [];
    assert DigitOf(js[p + 0], base) == Some(ds[0]);
  }

  /** A sign, white space, and the 32 bits that are kept. */
  lemma SignedNumbers()
    ensures ScanInt("-7,", 0, false) == Some(-7) && ScanInt("+7,", 0, true) == Some(7) && ScanInt("-", 0, true) == None
    ensures ScanU32(" 7\"", 0) == Some(7) && ScanU32("-7\"", 0) == Some(4294967289)
  {
    assert ScanMore("-7,", 2, 10, 7) == 7 && ScanMore("+7,", 2, 10, 7) == 7;
    assert ScanMore(" 7\"", 2, 10, 7) == 7 && ScanMore("-7\"", 2, 10, 7) == 7;
    assert SkipSpace(" 7\"", 0) == 1 && SkipSpace("-7\"", 0) == 0;
  }
}
