/** The streaming MD5 as it is written: a context that keeps a partial block and a split
    byte counter, updated in place. */
module Md5Stream {
  import opened Md5Spec
  import opened Arith

  type U32 = x: int | 0 <= x < 0x1_0000_0000

  /** The optimized selections agree with the definitions of RFC 1321. */
  lemma OptimizedSelections(x: bv32, y: bv32, z: bv32)
    ensures z ^ (x & (y ^ z)) == F(x, y, z)
    ensures y ^ (z & (x ^ y)) == G(x, y, z)
  {
  }

  /** The two shifts of the STEP macro are one rotation. */
  lemma ShiftsRotate(x: bv32, s: bv32)
    requires s < 32
    ensures (x << s) | ((x & 0xffffffff) >> (32 - s)) == RotateLeft(x, s)
  {
    assert x & 0xffffffff == x;
  }

  /** Four operations in a row write the registers a, d, c, b. */
  lemma FourOps(i: nat, block: seq<bv8>, r: Regs)
    requires i + 3 < 64 && i % 4 == 0 && |block| == 64
    ensures var a := New(i, block, r.a, r.b, r.c, r.d);
            var d := New(i + 1, block, r.d, a, r.b, r.c);
            var c := New(i + 2, block, r.c, d, a, r.b);
            var b := New(i + 3, block, r.b, c, d, a);
            Four(i, block, r) == Regs(a, b, c, d)
  {
    hide New;
  }

  /** The common part of the STEP macro. */
  method Step(f: bv32, a: bv32, b: bv32, x: bv32, t: bv32, s: bv32) returns (r: bv32)
    requires s < 32
    ensures r == Mix(f, a, b, x, t, s)
  {
    r := Plus(a, Plus(Plus(f, x), t));
    ShiftsRotate(r, s);
    hide RotateLeft, Plus;
    r := (r << s) | ((r & 0xffffffff) >> (32 - s));
    PlusCommutes(r, b);
    r := Plus(r, b);
  }

  lemma PlusCommutes(x: bv32, y: bv32)
    ensures Plus(x, y) == Plus(y, x)
  {
  }

  method StepF(a: bv32, b: bv32, c: bv32, d: bv32, x: bv32, t: bv32, s: bv32) returns (r: bv32)
    requires s < 32
    ensures r == Mix(F(b, c, d), a, b, x, t, s)
  {
    OptimizedSelections(b, c, d);
    r := Step(d ^ (b & (c ^ d)), a, b, x, t, s);
  }

  method StepG(a: bv32, b: bv32, c: bv32, d: bv32, x: bv32, t: bv32, s: bv32) returns (r: bv32)
    requires s < 32
    ensures r == Mix(G(b, c, d), a, b, x, t, s)
  {
    OptimizedSelections(b, c, d);
    r := Step(c ^ (d & (b ^ c)), a, b, x, t, s);
  }

  method StepH(a: bv32, b: bv32, c: bv32, d: bv32, x: bv32, t: bv32, s: bv32) returns (r: bv32)
    requires s < 32
    ensures r == Mix(H(b, c, d), a, b, x, t, s)
  {
    r := Step(b ^ c ^ d, a, b, x, t, s);
  }

  method StepI(a: bv32, b: bv32, c: bv32, d: bv32, x: bv32, t: bv32, s: bv32) returns (r: bv32)
    requires s < 32
    ensures r == Mix(I(b, c, d), a, b, x, t, s)
  {
    r := Step(c ^ (b | !d), a, b, x, t, s);
  }

  /** What round 1 reads from the tables. */
  lemma Table1()
    ensures K(0) == 0 && S(0) == 7 && T(0) == 0xd76aa478
    ensures K(1) == 1 && S(1) == 12 && T(1) == 0xe8c7b756
    ensures K(2) == 2 && S(2) == 17 && T(2) == 0x242070db
    ensures K(3) == 3 && S(3) == 22 && T(3) == 0xc1bdceee
    ensures K(4) == 4 && S(4) == 7 && T(4) == 0xf57c0faf
    ensures K(5) == 5 && S(5) == 12 && T(5) == 0x4787c62a
    ensures K(6) == 6 && S(6) == 17 && T(6) == 0xa8304613
    ensures K(7) == 7 && S(7) == 22 && T(7) == 0xfd469501
    ensures K(8) == 8 && S(8) == 7 && T(8) == 0x698098d8
    ensures K(9) == 9 && S(9) == 12 && T(9) == 0x8b44f7af
    ensures K(10) == 10 && S(10) == 17 && T(10) == 0xffff5bb1
    ensures K(11) == 11 && S(11) == 22 && T(11) == 0x895cd7be
    ensures K(12) == 12 && S(12) == 7 && T(12) == 0x6b901122
    ensures K(13) == 13 && S(13) == 12 && T(13) == 0xfd987193
    ensures K(14) == 14 && S(14) == 17 && T(14) == 0xa679438e
    ensures K(15) == 15 && S(15) == 22 && T(15) == 0x49b40821
  {
  }

  /** What round 2 reads from the tables. */
  lemma Table2()
    ensures K(16) == 1 && S(16) == 5 && T(16) == 0xf61e2562
    ensures K(17) == 6 && S(17) == 9 && T(17) == 0xc040b340
    ensures K(18) == 11 && S(18) == 14 && T(18) == 0x265e5a51
    ensures K(19) == 0 && S(19) == 20 && T(19) == 0xe9b6c7aa
    ensures K(20) == 5 && S(20) == 5 && T(20) == 0xd62f105d
    ensures K(21) == 10 && S(21) == 9 && T(21) == 0x02441453
    ensures K(22) == 15 && S(22) == 14 && T(22) == 0xd8a1e681
    ensures K(23) == 4 && S(23) == 20 && T(23) == 0xe7d3fbc8
    ensures K(24) == 9 && S(24) == 5 && T(24) == 0x21e1cde6
    ensures K(25) == 14 && S(25) == 9 && T(25) == 0xc33707d6
    ensures K(26) == 3 && S(26) == 14 && T(26) == 0xf4d50d87
    ensures K(27) == 8 && S(27) == 20 && T(27) == 0x455a14ed
    ensures K(28) == 13 && S(28) == 5 && T(28) == 0xa9e3e905
    ensures K(29) == 2 && S(29) == 9 && T(29) == 0xfcefa3f8
    ensures K(30) == 7 && S(30) == 14 && T(30) == 0x676f02d9
    ensures K(31) == 12 && S(31) == 20 && T(31) == 0x8d2a4c8a
  {
  }

  /** What round 3 reads from the tables. */
  lemma Table3()
    ensures K(32) == 5 && S(32) == 4 && T(32) == 0xfffa3942
    ensures K(33) == 8 && S(33) == 11 && T(33) == 0x8771f681
    ensures K(34) == 11 && S(34) == 16 && T(34) == 0x6d9d6122
    ensures K(35) == 14 && S(35) == 23 && T(35) == 0xfde5380c
    ensures K(36) == 1 && S(36) == 4 && T(36) == 0xa4beea44
    ensures K(37) == 4 && S(37) == 11 && T(37) == 0x4bdecfa9
    ensures K(38) == 7 && S(38) == 16 && T(38) == 0xf6bb4b60
    ensures K(39) == 10 && S(39) == 23 && T(39) == 0xbebfbc70
    ensures K(40) == 13 && S(40) == 4 && T(40) == 0x289b7ec6
    ensures K(41) == 0 && S(41) == 11 && T(41) == 0xeaa127fa
    ensures K(42) == 3 && S(42) == 16 && T(42) == 0xd4ef3085
    ensures K(43) == 6 && S(43) == 23 && T(43) == 0x04881d05
    ensures K(44) == 9 && S(44) == 4 && T(44) == 0xd9d4d039
    ensures K(45) == 12 && S(45) == 11 && T(45) == 0xe6db99e5
    ensures K(46) == 15 && S(46) == 16 && T(46) == 0x1fa27cf8
    ensures K(47) == 2 && S(47) == 23 && T(47) == 0xc4ac5665
  {
  }

  /** What round 4 reads from the tables. */
  lemma Table4()
    ensures K(48) == 0 && S(48) == 6 && T(48) == 0xf4292244
    ensures K(49) == 7 && S(49) == 10 && T(49) == 0x432aff97
    ensures K(50) == 14 && S(50) == 15 && T(50) == 0xab9423a7
    ensures K(51) == 5 && S(51) == 21 && T(51) == 0xfc93a039
    ensures K(52) == 12 && S(52) == 6 && T(52) == 0x655b59c3
    ensures K(53) == 3 && S(53) == 10 && T(53) == 0x8f0ccc92
    ensures K(54) == 10 && S(54) == 15 && T(54) == 0xffeff47d
    ensures K(55) == 1 && S(55) == 21 && T(55) == 0x85845dd1
    ensures K(56) == 8 && S(56) == 6 && T(56) == 0x6fa87e4f
    ensures K(57) == 15 && S(57) == 10 && T(57) == 0xfe2ce6e0
    ensures K(58) == 6 && S(58) == 15 && T(58) == 0xa3014314
    ensures K(59) == 13 && S(59) == 21 && T(59) == 0x4e0811a1
    ensures K(60) == 4 && S(60) == 6 && T(60) == 0xf7537e82
    ensures K(61) == 11 && S(61) == 10 && T(61) == 0xbd3af235
    ensures K(62) == 2 && S(62) == 15 && T(62) == 0x2ad7d2bb
    ensures K(63) == 9 && S(63) == 21 && T(63) == 0xeb86d391
  {
  }

  method Round1(block: seq<bv8>, a0: bv32, b0: bv32, c0: bv32, d0: bv32)
    returns (a: bv32, b: bv32, c: bv32, d: bv32)
    requires |block| == 64
    ensures Regs(a, b, c, d) == Round(0, block, Regs(a0, b0, c0, d0))
  {
    hide Mix, F, G, H, I, Word, Four, Op, K, S, T;
    Table1();
    a, b, c, d := a0, b0, c0, d0;
    ghost var r0 := Regs(a, b, c, d);
    a := StepF(a, b, c, d, Word(block, 0), 0xd76aa478, 7);
    d := StepF(d, a, b, c, Word(block, 1), 0xe8c7b756, 12);
    c := StepF(c, d, a, b, Word(block, 2), 0x242070db, 17);
    b := StepF(b, c, d, a, Word(block, 3), 0xc1bdceee, 22);
    FourOps(0, block, r0);
    assert Regs(a, b, c, d) == Four(0, block, r0);
    ghost var r1 := Regs(a, b, c, d);
    a := StepF(a, b, c, d, Word(block, 4), 0xf57c0faf, 7);
    d := StepF(d, a, b, c, Word(block, 5), 0x4787c62a, 12);
    c := StepF(c, d, a, b, Word(block, 6), 0xa8304613, 17);
    b := StepF(b, c, d, a, Word(block, 7), 0xfd469501, 22);
    FourOps(4, block, r1);
    assert Regs(a, b, c, d) == Four(4, block, r1);
    ghost var r2 := Regs(a, b, c, d);
    a := StepF(a, b, c, d, Word(block, 8), 0x698098d8, 7);
    d := StepF(d, a, b, c, Word(block, 9), 0x8b44f7af, 12);
    c := StepF(c, d, a, b, Word(block, 10), 0xffff5bb1, 17);
    b := StepF(b, c, d, a, Word(block, 11), 0x895cd7be, 22);
    FourOps(8, block, r2);
    assert Regs(a, b, c, d) == Four(8, block, r2);
    ghost var r3 := Regs(a, b, c, d);
    a := StepF(a, b, c, d, Word(block, 12), 0x6b901122, 7);
    d := StepF(d, a, b, c, Word(block, 13), 0xfd987193, 12);
    c := StepF(c, d, a, b, Word(block, 14), 0xa679438e, 17);
    b := StepF(b, c, d, a, Word(block, 15), 0x49b40821, 22);
    FourOps(12, block, r3);
    assert Regs(a, b, c, d) == Four(12, block, r3);
  }

  method Round2(block: seq<bv8>, a0: bv32, b0: bv32, c0: bv32, d0: bv32)
    returns (a: bv32, b: bv32, c: bv32, d: bv32)
    requires |block| == 64
    ensures Regs(a, b, c, d) == Round(1, block, Regs(a0, b0, c0, d0))
  {
    hide Mix, F, G, H, I, Word, Four, Op, K, S, T;
    Table2();
    a, b, c, d := a0, b0, c0, d0;
    ghost var r0 := Regs(a, b, c, d);
    a := StepG(a, b, c, d, Word(block, 1), 0xf61e2562, 5);
    d := StepG(d, a, b, c, Word(block, 6), 0xc040b340, 9);
    c := StepG(c, d, a, b, Word(block, 11), 0x265e5a51, 14);
    b := StepG(b, c, d, a, Word(block, 0), 0xe9b6c7aa, 20);
    FourOps(16, block, r0);
    assert Regs(a, b, c, d) == Four(16, block, r0);
    ghost var r1 := Regs(a, b, c, d);
    a := StepG(a, b, c, d, Word(block, 5), 0xd62f105d, 5);
    d := StepG(d, a, b, c, Word(block, 10), 0x02441453, 9);
    c := StepG(c, d, a, b, Word(block, 15), 0xd8a1e681, 14);
    b := StepG(b, c, d, a, Word(block, 4), 0xe7d3fbc8, 20);
    FourOps(20, block, r1);
    assert Regs(a, b, c, d) == Four(20, block, r1);
    ghost var r2 := Regs(a, b, c, d);
    a := StepG(a, b, c, d, Word(block, 9), 0x21e1cde6, 5);
    d := StepG(d, a, b, c, Word(block, 14), 0xc33707d6, 9);
    c := StepG(c, d, a, b, Word(block, 3), 0xf4d50d87, 14);
    b := StepG(b, c, d, a, Word(block, 8), 0x455a14ed, 20);
    FourOps(24, block, r2);
    assert Regs(a, b, c, d) == Four(24, block, r2);
    ghost var r3 := Regs(a, b, c, d);
    a := StepG(a, b, c, d, Word(block, 13), 0xa9e3e905, 5);
    d := StepG(d, a, b, c, Word(block, 2), 0xfcefa3f8, 9);
    c := StepG(c, d, a, b, Word(block, 7), 0x676f02d9, 14);
    b := StepG(b, c, d, a, Word(block, 12), 0x8d2a4c8a, 20);
    FourOps(28, block, r3);
    assert Regs(a, b, c, d) == Four(28, block, r3);
  }

  method Round3(block: seq<bv8>, a0: bv32, b0: bv32, c0: bv32, d0: bv32)
    returns (a: bv32, b: bv32, c: bv32, d: bv32)
    requires |block| == 64
    ensures Regs(a, b, c, d) == Round(2, block, Regs(a0, b0, c0, d0))
  {
    hide Mix, F, G, H, I, Word, Four, Op, K, S, T;
    Table3();
    a, b, c, d := a0, b0, c0, d0;
    ghost var r0 := Regs(a, b, c, d);
    a := StepH(a, b, c, d, Word(block, 5), 0xfffa3942, 4);
    d := StepH(d, a, b, c, Word(block, 8), 0x8771f681, 11);
    c := StepH(c, d, a, b, Word(block, 11), 0x6d9d6122, 16);
    b := StepH(b, c, d, a, Word(block, 14), 0xfde5380c, 23);
    FourOps(32, block, r0);
    assert Regs(a, b, c, d) == Four(32, block, r0);
    ghost var r1 := Regs(a, b, c, d);
    a := StepH(a, b, c, d, Word(block, 1), 0xa4beea44, 4);
    d := StepH(d, a, b, c, Word(block, 4), 0x4bdecfa9, 11);
    c := StepH(c, d, a, b, Word(block, 7), 0xf6bb4b60, 16);
    b := StepH(b, c, d, a, Word(block, 10), 0xbebfbc70, 23);
    FourOps(36, block, r1);
    assert Regs(a, b, c, d) == Four(36, block, r1);
    ghost var r2 := Regs(a, b, c, d);
    a := StepH(a, b, c, d, Word(block, 13), 0x289b7ec6, 4);
    d := StepH(d, a, b, c, Word(block, 0), 0xeaa127fa, 11);
    c := StepH(c, d, a, b, Word(block, 3), 0xd4ef3085, 16);
    b := StepH(b, c, d, a, Word(block, 6), 0x04881d05, 23);
    FourOps(40, block, r2);
    assert Regs(a, b, c, d) == Four(40, block, r2);
    ghost var r3 := Regs(a, b, c, d);
    a := StepH(a, b, c, d, Word(block, 9), 0xd9d4d039, 4);
    d := StepH(d, a, b, c, Word(block, 12), 0xe6db99e5, 11);
    c := StepH(c, d, a, b, Word(block, 15), 0x1fa27cf8, 16);
    b := StepH(b, c, d, a, Word(block, 2), 0xc4ac5665, 23);
    FourOps(44, block, r3);
    assert Regs(a, b, c, d) == Four(44, block, r3);
  }

  method Round4(block: seq<bv8>, a0: bv32, b0: bv32, c0: bv32, d0: bv32)
    returns (a: bv32, b: bv32, c: bv32, d: bv32)
    requires |block| == 64
    ensures Regs(a, b, c, d) == Round(3, block, Regs(a0, b0, c0, d0))
  {
    hide Mix, F, G, H, I, Word, Four, Op, K, S, T;
    Table4();
    a, b, c, d := a0, b0, c0, d0;
    ghost var r0 := Regs(a, b, c, d);
    a := StepI(a, b, c, d, Word(block, 0), 0xf4292244, 6);
    d := StepI(d, a, b, c, Word(block, 7), 0x432aff97, 10);
    c := StepI(c, d, a, b, Word(block, 14), 0xab9423a7, 15);
    b := StepI(b, c, d, a, Word(block, 5), 0xfc93a039, 21);
    FourOps(48, block, r0);
    assert Regs(a, b, c, d) == Four(48, block, r0);
    ghost var r1 := Regs(a, b, c, d);
    a := StepI(a, b, c, d, Word(block, 12), 0x655b59c3, 6);
    d := StepI(d, a, b, c, Word(block, 3), 0x8f0ccc92, 10);
    c := StepI(c, d, a, b, Word(block, 10), 0xffeff47d, 15);
    b := StepI(b, c, d, a, Word(block, 1), 0x85845dd1, 21);
    FourOps(52, block, r1);
    assert Regs(a, b, c, d) == Four(52, block, r1);
    ghost var r2 := Regs(a, b, c, d);
    a := StepI(a, b, c, d, Word(block, 8), 0x6fa87e4f, 6);
    d := StepI(d, a, b, c, Word(block, 15), 0xfe2ce6e0, 10);
    c := StepI(c, d, a, b, Word(block, 6), 0xa3014314, 15);
    b := StepI(b, c, d, a, Word(block, 13), 0x4e0811a1, 21);
    FourOps(56, block, r2);
    assert Regs(a, b, c, d) == Four(56, block, r2);
    ghost var r3 := Regs(a, b, c, d);
    a := StepI(a, b, c, d, Word(block, 4), 0xf7537e82, 6);
    d := StepI(d, a, b, c, Word(block, 11), 0xbd3af235, 10);
    c := StepI(c, d, a, b, Word(block, 2), 0x2ad7d2bb, 15);
    b := StepI(b, c, d, a, Word(block, 9), 0xeb86d391, 21);
    FourOps(60, block, r3);
    assert Regs(a, b, c, d) == Four(60, block, r3);
  }

  // ---------- Counters and padding ----------

  /** The counters after `size` more bytes: the low 29 bits carry into the high word. */
  lemma CountersAdvance(n: nat, size: nat, lo: nat, hi: nat, lo': nat, hi': nat)
    requires lo == n % 0x2000_0000 && hi == n / 0x2000_0000 % 0x1_0000_0000
    requires lo' == (lo + size) % 0x2000_0000
    requires hi' == (hi + (if lo' < lo then 1 else 0) + size / 0x2000_0000) % 0x1_0000_0000
    ensures lo' == (n + size) % 0x2000_0000
    ensures hi' == (n + size) / 0x2000_0000 % 0x1_0000_0000
  {
    var q, s, t := n / 0x2000_0000, size / 0x2000_0000, size % 0x2000_0000;
    assert n == q * 0x2000_0000 + lo && size == s * 0x2000_0000 + t;
    var carry := if lo + t >= 0x2000_0000 then 1 else 0;
    assert n + size == (q + s + carry) * 0x2000_0000 + (lo + t - carry * 0x2000_0000);
    assert lo + size == (s + carry) * 0x2000_0000 + (lo + t - carry * 0x2000_0000);
    DivModIs(n + size, 0x2000_0000, q + s + carry, lo + t - carry * 0x2000_0000);
    DivModIs(lo + size, 0x2000_0000, s + carry, lo + t - carry * 0x2000_0000);
    ModAdd(q, carry + s, 0x1_0000_0000);
  }

  lemma CountersSplit(n: nat, size: nat, lo: nat, hi: nat, lo': nat, hi': nat)
    requires lo == n % 0x2000_0000 && hi == n / 0x2000_0000 % 0x1_0000_0000
    requires lo' == (lo + size) % 0x2000_0000
    requires hi' == ((if lo' < lo then (hi + 1) % 0x1_0000_0000 else hi) + size / 0x2000_0000) % 0x1_0000_0000
    ensures lo' == (n + size) % 0x2000_0000
    ensures hi' == (n + size) / 0x2000_0000 % 0x1_0000_0000
  {
    if lo' < lo {
      ModAdd(hi + 1, size / 0x2000_0000, 0x1_0000_0000);
    }
    CountersAdvance(n, size, lo, hi, lo', hi');
  }

  /** Length of the complete blocks of an n-byte message. */
  function Full(n: nat): (f: nat)
    ensures f <= n && f % 64 == 0 && n - f == n % 64
  {
    n - n % 64
  }

  lemma FullBounds(n: nat)
    ensures Full(n) <= n && Full(n) % 64 == 0 && n - Full(n) == n % 64
    ensures n % 0x2000_0000 % 64 == n % 64
  {
    var q, r := n / 0x2000_0000, n % 0x2000_0000;
    DivModIs(n, 64, q * 0x80_0000 + r / 64, r % 64);
  }

  /** When a 64-byte multiple of the message has been folded in and fewer bytes remain, it
      is the complete blocks. */
  lemma TailIs(msg: seq<bv8>, done: seq<bv8>, rest: seq<bv8>)
    requires msg == done + rest && |done| % 64 == 0 && |rest| < 64
    ensures msg[..Full(|msg|)] == done && msg[Full(|msg|)..] == rest && |msg| % 64 == |rest|
  {
  }

  lemma FoldNothing(r: Regs)
    ensures Fold(r, []) == r
  {
  }

  /** The padding fits behind the tail, or takes one more block. */
  lemma PaddingShape(n: nat)
    ensures var t := n % 64;
            Padding(n) == if t <= 55 then [0x80] + Zeros(55 - t) + LengthBytes(n)
                          else [0x80] + Zeros(63 - t) + (Zeros(56) + LengthBytes(n))
  {
    hide LengthBytes;
    var t := n % 64;
    var q := n / 64;
    assert n == 64 * q + t;
    assert (55 - n) % 64 == if t <= 55 then 55 - t else 119 - t;
    if t > 55 {
      assert Zeros(119 - t) == Zeros(63 - t) + Zeros(56);
    }
  }

  lemma PaddedMessage(msg: seq<bv8>, done: seq<bv8>, tail: seq<bv8>, next: seq<bv8>, head: seq<bv8>)
    requires msg == done + tail && |tail| == |msg| % 64
    requires if |tail| <= 55 then next == done && head == tail + [0x80]
             else next == done + (tail + [0x80] + Zeros(63 - |tail|)) && head == []
    ensures next + (head + Zeros(56 - |head|) + LengthBytes(|msg|)) == msg + Padding(|msg|)
  {
    hide LengthBytes, Zeros, Padding;
    PaddingShape(|msg|);
    var mark: seq<bv8> := [0x80];
    if |tail| <= 55 {
      OneBlock(done, tail, mark, Zeros(55 - |tail|), LengthBytes(|msg|));
    } else {
      assert head + Zeros(56) == Zeros(56);
      TwoBlocks(done, tail, mark, Zeros(63 - |tail|), Zeros(56) + LengthBytes(|msg|));
    }
  }

  lemma OneBlock(a: seq<bv8>, b: seq<bv8>, c: seq<bv8>, d: seq<bv8>, e: seq<bv8>)
    ensures a + (b + c + d + e) == a + b + (c + d + e)
  {
    assert b + c + d + e == b + (c + d + e);
    assert a + (b + (c + d + e)) == a + b + (c + d + e);
  }

  lemma TwoBlocks(a: seq<bv8>, b: seq<bv8>, c: seq<bv8>, d: seq<bv8>, e: seq<bv8>)
    ensures a + (b + c + d) + e == a + b + (c + d + e)
  {
    assert b + c + d == b + (c + d);
    assert a + (b + (c + d)) == a + b + (c + d);
    assert a + b + (c + d) + e == a + b + (c + d + e);
  }

  /** The two counters, shifted by three bits, are the bit count mod 2^64. */
  lemma CountersAreLength(n: nat, lo8: nat, hi: nat)
    requires lo8 == n % 0x2000_0000 * 8 % 0x1_0000_0000 && hi == n / 0x2000_0000 % 0x1_0000_0000
    ensures LengthBytes(n) == [ByteOf(lo8, 0), ByteOf(lo8, 1), ByteOf(lo8, 2), ByteOf(lo8, 3),
                               ByteOf(hi, 0), ByteOf(hi, 1), ByteOf(hi, 2), ByteOf(hi, 3)]
  {
    var q := n / 0x2000_0000;
    assert n == q * 0x2000_0000 + n % 0x2000_0000 && q == q / 0x1_0000_0000 * 0x1_0000_0000 + hi;
    var len := hi * 0x1_0000_0000 + lo8;
    assert lo8 == n % 0x2000_0000 * 8;
    assert 8 * n == q / 0x1_0000_0000 * 0x1_0000_0000_0000_0000 + len;
    DivModIs(8 * n, 0x1_0000_0000_0000_0000, q / 0x1_0000_0000, len);
    hide ByteOf;
    forall j: nat | j < 8
      ensures ByteOf(len, j) == if j < 4 then ByteOf(lo8, j) else ByteOf(hi, j - 4)
    {
      ByteOfPair(hi, lo8, 0x1_0000_0000, 4, j);
    }
  }

  lemma {:induction false} ByteOfPair(hi: nat, lo: nat, m: nat, k: nat, j: nat)
    requires k <= 4 && lo < m && m == Pow256(k)
    ensures j < k ==> ByteOf(hi * m + lo, j) == ByteOf(lo, j)
    ensures j >= k ==> ByteOf(hi * m + lo, j) == ByteOf(hi, j - k)
    decreases k
  {
    hide ToByte;
    if k > 0 {
      var h := m / 256;
      assert m == 256 * h && h == Pow256(k - 1);
      var n := hi * m + lo;
      assert hi * m == 256 * (hi * h);
      DivModIs(n, 256, hi * h + lo / 256, lo % 256);
      if j > 0 {
        ByteOfPair(hi, lo / 256, h, k - 1, j - 1);
      }
    } else {
      assert hi * m + lo == hi;
    }
  }

  function Pow256(k: nat): nat
    requires k <= 4
  {
    if k == 0 then 1 else if k == 1 then 0x100 else if k == 2 then 0x1_0000 else if k == 3 then 0x100_0000 else 0x1_0000_0000
  }

  // ---------- The context ----------

  class Context {
    var lo: U32
    var hi: U32
    var a: bv32
    var b: bv32
    var c: bv32
    var d: bv32
    const buffer: array<bv8>
    ghost var msg: seq<bv8>  // everything absorbed since the last Init

    ghost function Regs(): Regs
      reads this
    {
      Md5Spec.Regs(a, b, c, d)
    }

    /** The registers have folded the complete blocks of the message, the buffer holds the
        rest, and the counters split the byte count as 29 low and 32 high bits. */
    ghost predicate Valid()
      reads this, buffer
    {
      && buffer.Length == 64
      && Regs() == Fold(INIT_REGS, msg[..Full(|msg|)])
      && buffer[..|msg| % 64] == msg[Full(|msg|)..]
      && lo == |msg| % 0x2000_0000
      && hi == |msg| / 0x2000_0000 % 0x1_0000_0000
    }

    constructor ()
      ensures Valid() && msg == [] && fresh(buffer)
    {
      buffer := new bv8[64];
      new;
      Init();
    }

    method Init()
      requires buffer.Length == 64
      modifies this, buffer
      ensures Valid() && msg == []
    {
      hide Fold;
      FoldNothing(INIT_REGS);
      a, b, c, d := 0x67452301, 0xefcdab89, 0x98badcfe, 0x10325476;
      lo, hi := 0, 0;
      forall i | 0 <= i < 64 {
        buffer[i] := 0;
      }
      msg := [];
      assert msg[..Full(|msg|)] == [];
    }

    /** One or more 64-byte blocks; the counters are not touched. */
    method Body(data: seq<bv8>)
      requires 0 < |data| && |data| % 64 == 0
      modifies this`a, this`b, this`c, this`d
      ensures Regs() == Fold(old(Regs()), data)
    {
      hide Round, Plus;
      var p := 0;
      while p < |data|
        invariant 0 <= p <= |data| && p % 64 == 0
        invariant Fold(Regs(), data[p..]) == Fold(old(Regs()), data)
        decreases |data| - p
      {
        var block := data[p..p + 64];
        var a', b', c', d' := Round1(block, a, b, c, d);
        a', b', c', d' := Round2(block, a', b', c', d');
        a', b', c', d' := Round3(block, a', b', c', d');
        a', b', c', d' := Round4(block, a', b', c', d');
        assert block == data[p..][..64] && data[p..][64..] == data[p + 64..];
        a, b, c, d := Plus(a', a), Plus(b', b), Plus(c', c), Plus(d', d);
        p := p + 64;
      }
      assert data[p..] == [];
    }

    method CopyToBuffer(at: nat, data: seq<bv8>)
      requires at + |data| <= buffer.Length
      modifies buffer
      ensures buffer[..] == old(buffer[..at]) + data + old(buffer[at + |data|..])
    {
      forall i | 0 <= i < |data| {
        buffer[at + i] := data[i];
      }
    }

    /** The byte counters, low 29 bits and high 32 bits. */
    method Count(size: nat)
      requires lo == |msg| % 0x2000_0000 && hi == |msg| / 0x2000_0000 % 0x1_0000_0000
      modifies this`lo, this`hi
      ensures lo == (|msg| + size) % 0x2000_0000 && hi == (|msg| + size) / 0x2000_0000 % 0x1_0000_0000
    {
      var savedLo := lo;
      lo := (savedLo + size) % 0x2000_0000;
      if lo < savedLo {
        hi := (hi + 1) % 0x1_0000_0000;
      }
      hi := (hi + size / 0x2000_0000) % 0x1_0000_0000;
      CountersSplit(|msg|, size, savedLo, old(hi), lo, hi);
    }

    /** The blocks of `data` are folded in and the rest is kept, after `done` has been. */
    method Blocks(data: seq<bv8>, ghost done: seq<bv8>)
      requires buffer.Length == 64 && |done| % 64 == 0 && Regs() == Fold(INIT_REGS, done)
      modifies this`a, this`b, this`c, this`d, buffer
      ensures Regs() == Fold(INIT_REGS, (done + data)[..Full(|done + data|)])
      ensures buffer[..|done + data| % 64] == (done + data)[Full(|done + data|)..]
    {
      hide Fold, Compress, Full;
      var size := |data|;
      ghost var whole := |data| - |data| % 64;
      if size >= 64 {
        Body(data[..|data| - |data| % 64]);
        size := size % 64;
      } else {
        assert data[..whole] == [];
        FoldNothing(Regs());
      }
      var rest := data[|data| - size..];
      CopyToBuffer(0, rest);
      FoldConcat(INIT_REGS, done, data[..whole]);
      TailIs(done + data, done + data[..whole], rest);
      assert buffer[..|rest|] == rest;
    }

    /** The first bytes of `data` complete the block in the buffer. */
    method TopUp(data: seq<bv8>, ghost done: seq<bv8>, ghost tail: seq<bv8>)
      requires buffer.Length == 64 && |done| % 64 == 0 && Regs() == Fold(INIT_REGS, done)
      requires |tail| + |data| == 64 && buffer[..|tail|] == tail
      modifies this`a, this`b, this`c, this`d, buffer
      ensures Regs() == Fold(INIT_REGS, done + (tail + data))
    {
      hide Fold, Compress;
      CopyToBuffer(64 - |data|, data);
      assert buffer[..] == tail + data;
      Body(buffer[..]);
      FoldConcat(INIT_REGS, done, tail + data);
    }

    /** The three cases of an update, on `done` folded bytes and `tail` buffered ones. */
    method Absorb(data: seq<bv8>, used: nat, ghost done: seq<bv8>, ghost tail: seq<bv8>)
      requires buffer.Length == 64 && |done| % 64 == 0 && Regs() == Fold(INIT_REGS, done)
      requires used == |tail| < 64 && buffer[..used] == tail
      modifies this`a, this`b, this`c, this`d, buffer
      ensures var all := done + (tail + data);
              && Regs() == Fold(INIT_REGS, all[..Full(|all|)])
              && buffer[..|all| % 64] == all[Full(|all|)..]
    {
      hide Fold, Compress, Full;
      if used != 0 {
        var free := 64 - used;
        if |data| < free {
          CopyToBuffer(used, data);
          TailIs(done + (tail + data), done, tail + data);
          assert buffer[..used + |data|] == tail + data;
          return;
        }
        TopUp(data[..free], done, tail);
        assert done + (tail + data[..free]) + data[free..] == done + (tail + data) by {
          assert data == data[..free] + data[free..];
        }
        Blocks(data[free..], done + (tail + data[..free]));
      } else {
        assert tail + data == data;
        Blocks(data, done);
      }
    }

    /** Any number of bytes; the message grows by exactly them. */
    method Update(data: seq<bv8>)
      requires Valid()
      modifies this, buffer
      ensures Valid() && msg == old(msg) + data
    {
      hide Fold, Compress, Full;
      ghost var done, tail := msg[..Full(|msg|)], msg[Full(|msg|)..];
      FullBounds(|msg|);
      var used := lo % 64;
      Count(|data|);
      Absorb(data, used, done, tail);
      assert done + (tail + data) == msg + data;
      msg := msg + data;
    }

    /** The 0x80 byte, and a first padding block when the length would not fit behind it. */
    method MarkEnd(ghost done: seq<bv8>, ghost tail: seq<bv8>) returns (used: nat, ghost next: seq<bv8>)
      requires buffer.Length == 64 && |done| % 64 == 0 && Regs() == Fold(INIT_REGS, done)
      requires lo % 64 == |tail| && buffer[..|tail|] == tail
      modifies this`a, this`b, this`c, this`d, buffer
      ensures |next| % 64 == 0 && Regs() == Fold(INIT_REGS, next)
      ensures if |tail| <= 55 then used == |tail| + 1 && next == done && buffer[..used] == tail + [0x80]
              else used == 0 && next == done + (tail + [0x80] + Zeros(63 - |tail|))
    {
      hide Fold, Compress;
      used := lo % 64;
      buffer[used] := 0x80;
      used := used + 1;
      var free := 64 - used;
      assert buffer[..used] == tail + [0x80];
      next := done;
      if free < 8 {
        Clear(used, free);
        assert buffer[..] == tail + [0x80] + Zeros(free);
        Body(buffer[..]);
        FoldConcat(INIT_REGS, done, tail + [0x80] + Zeros(free));
        next := done + (tail + [0x80] + Zeros(free));
        used := 0;
      }
    }

    /** All the padding of RFC 1321: afterwards the registers have folded the padded message. */
    method Finish()
      requires Valid()
      modifies this, buffer
      ensures Regs() == Fold(INIT_REGS, old(msg) + Padding(|old(msg)|))
    {
      hide Fold, Compress, Full, LengthBytes, Zeros;
      ghost var done, tail := msg[..Full(|msg|)], msg[Full(|msg|)..];
      FullBounds(|msg|);
      assert done + tail == msg;
      var used;
      ghost var next;
      used, next := MarkEnd(done, tail);
      ghost var head := buffer[..used];
      Clear(used, 56 - used);
      assert buffer[..56] == head + Zeros(56 - used);
      WriteLength();
      Body(buffer[..]);
      FoldConcat(INIT_REGS, next, head + Zeros(56 - used) + LengthBytes(|msg|));
      PaddedMessage(msg, done, tail, next, head);
    }

    /** The digest of everything absorbed, whatever the cuts were. */
    method Final(result: array<bv8>)
      requires Valid() && result.Length == 16 && result != buffer
      modifies this, buffer, result
      ensures result[..] == Digest(old(msg))
    {
      hide Fold, Output, Padding;
      Finish();
      StoreRegs(result);
    }

    method StoreRegs(result: array<bv8>)
      requires result.Length == 16 && result != buffer
      modifies result
      ensures result[..] == Output(Regs())
    {
      hide WordBytes;
      Store(result, 0, a);
      ghost var r4 := result[..4];
      Store(result, 4, b);
      ghost var r8 := result[..8];
      assert r8 == r4 + WordBytes(b);
      Store(result, 8, c);
      ghost var r12 := result[..12];
      assert r12 == r8 + WordBytes(c);
      Store(result, 12, d);
      assert result[..] == r12 + WordBytes(d);
    }

    method Clear(at: nat, n: nat)
      requires at + n <= buffer.Length
      modifies buffer
      ensures buffer[..] == old(buffer[..at]) + Zeros(n) + old(buffer[at + n..])
    {
      forall i | 0 <= i < n {
        buffer[at + i] := 0;
      }
    }

    /** The bit count, low word first: three bits of the low counter spill over nothing. */
    method WriteLength()
      requires buffer.Length == 64
      requires lo == |msg| % 0x2000_0000 && hi == |msg| / 0x2000_0000 % 0x1_0000_0000
      modifies this`lo, buffer
      ensures buffer[..] == old(buffer[..56]) + LengthBytes(|msg|)
    {
      lo := lo * 8 % 0x1_0000_0000;
      CountersAreLength(|msg|, lo, hi);
      hide ByteOf;
      buffer[56], buffer[57], buffer[58], buffer[59] := ByteOf(lo, 0), ByteOf(lo, 1), ByteOf(lo, 2), ByteOf(lo, 3);
      buffer[60], buffer[61], buffer[62], buffer[63] := ByteOf(hi, 0), ByteOf(hi, 1), ByteOf(hi, 2), ByteOf(hi, 3);
      assert buffer[..56] == old(buffer[..56]);
    }

    method Store(result: array<bv8>, at: nat, w: bv32)
      requires at + 4 <= result.Length && result != buffer
      modifies result
      ensures result[at..at + 4] == WordBytes(w)
      ensures forall i :: 0 <= i < result.Length && !(at <= i < at + 4) ==> result[i] == old(result[i])
    {
      result[at] := (w & 0xff) as bv8;
      result[at + 1] := ((w >> 8) & 0xff) as bv8;
      result[at + 2] := ((w >> 16) & 0xff) as bv8;
      result[at + 3] := ((w >> 24) & 0xff) as bv8;
    }
  }
}
