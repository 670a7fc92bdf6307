/** The MD5 message digest as RFC 1321 defines it (sections 3.1 to 3.5), on whole messages. */
module Md5Spec {

  datatype Regs = Regs(a: bv32, b: bv32, c: bv32, d: bv32)

  // ---------- Section 3.4: auxiliary functions, table and operations ----------

  function F(x: bv32, y: bv32, z: bv32): bv32 { (x & y) | (!x & z) }

  function G(x: bv32, y: bv32, z: bv32): bv32 { (x & z) | (y & !z) }

  function H(x: bv32, y: bv32, z: bv32): bv32 { x ^ y ^ z }

  function I(x: bv32, y: bv32, z: bv32): bv32 { y ^ (x | !z) }

  /** The i-th entry (from 0) is the integer part of 4294967296 times abs(sin(i + 1)). */
  function T(i: nat): bv32
    requires i < 64
  {
    if i < 16 then T1(i) else if i < 32 then T2(i - 16) else if i < 48 then T3(i - 32) else T4(i - 48)
  }

  function T1(i: nat): bv32
    requires i < 16
  {
    match i
    case 0 => 0xd76aa478
    case 1 => 0xe8c7b756
    case 2 => 0x242070db
    case 3 => 0xc1bdceee
    case 4 => 0xf57c0faf
    case 5 => 0x4787c62a
    case 6 => 0xa8304613
    case 7 => 0xfd469501
    case 8 => 0x698098d8
    case 9 => 0x8b44f7af
    case 10 => 0xffff5bb1
    case 11 => 0x895cd7be
    case 12 => 0x6b901122
    case 13 => 0xfd987193
    case 14 => 0xa679438e
    case 15 => 0x49b40821
  }

  function T2(i: nat): bv32
    requires i < 16
  {
    match i
    case 0 => 0xf61e2562
    case 1 => 0xc040b340
    case 2 => 0x265e5a51
    case 3 => 0xe9b6c7aa
    case 4 => 0xd62f105d
    case 5 => 0x02441453
    case 6 => 0xd8a1e681
    case 7 => 0xe7d3fbc8
    case 8 => 0x21e1cde6
    case 9 => 0xc33707d6
    case 10 => 0xf4d50d87
    case 11 => 0x455a14ed
    case 12 => 0xa9e3e905
    case 13 => 0xfcefa3f8
    case 14 => 0x676f02d9
    case 15 => 0x8d2a4c8a
  }

  function T3(i: nat): bv32
    requires i < 16
  {
    match i
    case 0 => 0xfffa3942
    case 1 => 0x8771f681
    case 2 => 0x6d9d6122
    case 3 => 0xfde5380c
    case 4 => 0xa4beea44
    case 5 => 0x4bdecfa9
    case 6 => 0xf6bb4b60
    case 7 => 0xbebfbc70
    case 8 => 0x289b7ec6
    case 9 => 0xeaa127fa
    case 10 => 0xd4ef3085
    case 11 => 0x04881d05
    case 12 => 0xd9d4d039
    case 13 => 0xe6db99e5
    case 14 => 0x1fa27cf8
    case 15 => 0xc4ac5665
  }

  function T4(i: nat): bv32
    requires i < 16
  {
    match i
    case 0 => 0xf4292244
    case 1 => 0x432aff97
    case 2 => 0xab9423a7
    case 3 => 0xfc93a039
    case 4 => 0x655b59c3
    case 5 => 0x8f0ccc92
    case 6 => 0xffeff47d
    case 7 => 0x85845dd1
    case 8 => 0x6fa87e4f
    case 9 => 0xfe2ce6e0
    case 10 => 0xa3014314
    case 11 => 0x4e0811a1
    case 12 => 0xf7537e82
    case 13 => 0xbd3af235
    case 14 => 0x2ad7d2bb
    case 15 => 0xeb86d391
  }


  /** F and G select bit by bit, H is the parity of three bits, I takes Y or its complement. */
  lemma AuxiliaryLaws(x: bv32, y: bv32, z: bv32)
    ensures F(0xffffffff, y, z) == y && F(0, y, z) == z && F(x, y, y) == y
    ensures G(x, y, z) == F(z, x, y)
    ensures H(x, y, z) == H(y, z, x) == H(y, x, z) && H(x, x, z) == z
    ensures I(0xffffffff, y, z) == I(x, y, 0) == !y && I(0, y, 0xffffffff) == y
    ensures I(x, y, z) == I(!z, y, !x)
  {
  }

  /** Which word of the block operation i reads. */
  function K(i: nat): (k: nat)
    requires i < 64
    ensures k < 16
  {
    if i < 16 then i
    else if i < 32 then (5 * i + 1) % 16
    else if i < 48 then (3 * i + 5) % 16
    else (7 * i) % 16
  }

  /** How far operation i rotates. */
  function S(i: nat): (s: bv32)
    requires i < 64
    ensures 0 < s < 32
  {
    var j := i % 4;
    if i < 16 then (if j == 0 then 7 else if j == 1 then 12 else if j == 2 then 17 else 22)
    else if i < 32 then (if j == 0 then 5 else if j == 1 then 9 else if j == 2 then 14 else 20)
    else if i < 48 then (if j == 0 then 4 else if j == 1 then 11 else if j == 2 then 16 else 23)
    else (if j == 0 then 6 else if j == 1 then 10 else if j == 2 then 15 else 21)
  }

  function Aux(i: nat, x: bv32, y: bv32, z: bv32): bv32 {
    if i < 16 then F(x, y, z) else if i < 32 then G(x, y, z) else if i < 48 then H(x, y, z) else I(x, y, z)
  }

  /** The n-th word of a block, low-order byte first. */
  function Word(block: seq<bv8>, n: nat): bv32
    requires 4 * n + 4 <= |block|
  {
    (block[4 * n] as bv32) | ((block[4 * n + 1] as bv32) << 8)
    | ((block[4 * n + 2] as bv32) << 16) | ((block[4 * n + 3] as bv32) << 24)
  }

  /** Addition of 32-bit words, modulo 2^32. */
  function Plus(x: bv32, y: bv32): bv32 {
    x + y
  }

  /** b + ((a + f + x + t) <<< s) */
  function Mix(f: bv32, a: bv32, b: bv32, x: bv32, t: bv32, s: bv32): bv32
    requires s < 32
  {
    Plus(b, RotateLeft(Plus(a, Plus(Plus(f, x), t)), s))
  }

  function RotateLeft(x: bv32, s: bv32): bv32
    requires s <= 32
  {
    (x << s) | (x >> (32 - s))
  }

  /** It rotates, for each of the shifts the table uses. */
  lemma RotateLeftRotates(x: bv32)
    ensures RotateLeft(x, 4) == x.RotateLeft(4)
    ensures RotateLeft(x, 5) == x.RotateLeft(5)
    ensures RotateLeft(x, 6) == x.RotateLeft(6)
    ensures RotateLeft(x, 7) == x.RotateLeft(7)
    ensures RotateLeft(x, 9) == x.RotateLeft(9)
    ensures RotateLeft(x, 10) == x.RotateLeft(10)
    ensures RotateLeft(x, 11) == x.RotateLeft(11)
    ensures RotateLeft(x, 12) == x.RotateLeft(12)
    ensures RotateLeft(x, 14) == x.RotateLeft(14)
    ensures RotateLeft(x, 15) == x.RotateLeft(15)
    ensures RotateLeft(x, 16) == x.RotateLeft(16)
    ensures RotateLeft(x, 17) == x.RotateLeft(17)
    ensures RotateLeft(x, 20) == x.RotateLeft(20)
    ensures RotateLeft(x, 21) == x.RotateLeft(21)
    ensures RotateLeft(x, 22) == x.RotateLeft(22)
    ensures RotateLeft(x, 23) == x.RotateLeft(23)
  {
  }

  function New(i: nat, block: seq<bv8>, a: bv32, b: bv32, c: bv32, d: bv32): bv32
    requires i < 64 && |block| == 64
  {
    Mix(Aux(i, b, c, d), a, b, Word(block, K(i)), T(i), S(i))
  }

  /** Operation i; the registers take turns in the order a, d, c, b. */
  function Op(i: nat, block: seq<bv8>, r: Regs): Regs
    requires i < 64 && |block| == 64
  {
    if i % 4 == 0 then r.(a := New(i, block, r.a, r.b, r.c, r.d))
    else if i % 4 == 1 then r.(d := New(i, block, r.d, r.a, r.b, r.c))
    else if i % 4 == 2 then r.(c := New(i, block, r.c, r.d, r.a, r.b))
    else r.(b := New(i, block, r.b, r.c, r.d, r.a))
  }

  /** Operations i to i + 3. */
  function Four(i: nat, block: seq<bv8>, r: Regs): Regs
    requires i + 3 < 64 && |block| == 64
  {
    Op(i + 3, block, Op(i + 2, block, Op(i + 1, block, Op(i, block, r))))
  }

  function Round(q: nat, block: seq<bv8>, r: Regs): Regs
    requires q < 4 && |block| == 64
  {
    var i := 16 * q;
    Four(i + 12, block, Four(i + 8, block, Four(i + 4, block, Four(i, block, r))))
  }

  function Compress(r: Regs, block: seq<bv8>): Regs
    requires |block| == 64
  {
    var n := Round(3, block, Round(2, block, Round(1, block, Round(0, block, r))));
    Regs(Plus(n.a, r.a), Plus(n.b, r.b), Plus(n.c, r.c), Plus(n.d, r.d))
  }

  // ---------- Sections 3.1 to 3.3 and 3.5: padding, length, initial value, output ----------

  const INIT_REGS := Regs(0x67452301, 0xefcdab89, 0x98badcfe, 0x10325476)

  /** Byte k of a number written low-order byte first. */
  function ByteOf(n: nat, k: nat): bv8 {
    if k == 0 then ToByte(n % 256) else ByteOf(n / 256, k - 1)
  }

  function ToByte(x: nat): bv8
    requires x < 256
  {
    x as bv8
  }

  function Zeros(n: nat): (z: seq<bv8>)
    ensures |z| == n && forall i :: 0 <= i < n ==> z[i] == 0
  {
    seq(n, _ => 0 as bv8)
  }

  /** The bit length mod 2^64, low-order byte first. */
  function LengthBytes(len: nat): (r: seq<bv8>)
    ensures |r| == 8
  {
    var n := 8 * len % 0x1_0000_0000_0000_0000;
    [ByteOf(n, 0), ByteOf(n, 1), ByteOf(n, 2), ByteOf(n, 3), ByteOf(n, 4), ByteOf(n, 5), ByteOf(n, 6), ByteOf(n, 7)]
  }

  /** A one bit, the fewest zero bits that leave 8 bytes to a block boundary, the length. */
  function Padding(len: nat): seq<bv8> {
    [0x80] + Zeros((55 - len) % 64) + LengthBytes(len)
  }

  /** The registers after all complete blocks of the data. */
  function Fold(r: Regs, data: seq<bv8>): Regs
    decreases |data|
  {
    if |data| < 64 then r else Fold(Compress(r, data[..64]), data[64..])
  }

  function WordBytes(w: bv32): (r: seq<bv8>)
    ensures |r| == 4
  {
    [(w & 0xff) as bv8, ((w >> 8) & 0xff) as bv8, ((w >> 16) & 0xff) as bv8, ((w >> 24) & 0xff) as bv8]
  }

  function Output(r: Regs): (d: seq<bv8>)
    ensures |d| == 16
  {
    WordBytes(r.a) + WordBytes(r.b) + WordBytes(r.c) + WordBytes(r.d)
  }

  /** Reading a word and writing it restores the four bytes. */
  lemma WordBytesBack(block: seq<bv8>, n: nat)
    requires 4 * n + 4 <= |block|
    ensures WordBytes(Word(block, n)) == block[4 * n..4 * n + 4]
  {
    hide WordBytes;
    BytesBack(block[4 * n], block[4 * n + 1], block[4 * n + 2], block[4 * n + 3]);
  }

  lemma BytesBack(b0: bv8, b1: bv8, b2: bv8, b3: bv8)
    ensures WordBytes((b0 as bv32) | ((b1 as bv32) << 8) | ((b2 as bv32) << 16) | ((b3 as bv32) << 24))
            == [b0, b1, b2, b3]
  {
  }

  /** Section 3.3 gives the initial registers byte by byte. */
  lemma InitialBytes()
    ensures Output(INIT_REGS) == [0x01, 0x23, 0x45, 0x67] + [0x89, 0xab, 0xcd, 0xef]
                                 + [0xfe, 0xdc, 0xba, 0x98] + [0x76, 0x54, 0x32, 0x10]
  {
    hide WordBytes;
    InitialWords();
  }

  lemma InitialWords()
    ensures WordBytes(0x67452301) == [0x01, 0x23, 0x45, 0x67] && WordBytes(0xefcdab89) == [0x89, 0xab, 0xcd, 0xef]
    ensures WordBytes(0x98badcfe) == [0xfe, 0xdc, 0xba, 0x98] && WordBytes(0x10325476) == [0x76, 0x54, 0x32, 0x10]
  {
  }

  /** The one-shot digest of a message. */
  function Digest(msg: seq<bv8>): (d: seq<bv8>)
    ensures |d| == 16
  {
    Output(Fold(INIT_REGS, msg + Padding(|msg|)))
  }

  // ---------- Laws of the fold ----------

  lemma {:induction false} FoldConcat(r: Regs, x: seq<bv8>, y: seq<bv8>)
    requires |x| % 64 == 0
    ensures Fold(r, x + y) == Fold(Fold(r, x), y)
    decreases |x|
  {
    hide Compress;
    if x == [] {
      assert x + y == y;
    } else {
      assert (x + y)[..64] == x[..64] && (x + y)[64..] == x[64..] + y;
      FoldConcat(Compress(r, x[..64]), x[64..], y);
    }
  }
}
