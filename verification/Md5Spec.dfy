/** The MD5 digest as RFC 1321 defines it, in one shot over the whole message. */
module Md5Spec {
  const TWO32 := 0x1_0000_0000

  type byte = x: int | 0 <= x < 256
  type word = x: int | 0 <= x < TWO32

  datatype Regs = Regs(a: word, b: word, c: word, d: word)

  const INITIAL := Regs(0x67452301, 0xefcdab89, 0x98badcfe, 0x10325476)

  function Add(x: word, y: word): word { (x + y) % TWO32 }

  function F(x: word, y: word, z: word): word {
    var x, y, z := x as bv32, y as bv32, z as bv32;
    ((x & y) | (!x & z)) as word
  }

  function G(x: word, y: word, z: word): word {
    var x, y, z := x as bv32, y as bv32, z as bv32;
    ((x & z) | (y & !z)) as word
  }

  function H(x: word, y: word, z: word): word {
    var v: bv32 := (x as bv32) ^ (y as bv32) ^ (z as bv32);
    v as word
  }

  function I(x: word, y: word, z: word): word {
    var x, y, z := x as bv32, y as bv32, z as bv32;
    (y ^ (x | !z)) as word
  }

  function RotateLeft(x: word, s: nat): word
    requires 0 < s < 32
  {
    var x := x as bv32;
    ((x << s) | (x >> (32 - s))) as word
  }

  /** T[i + 1] of the RFC: the integer part of 4294967296 times abs(sin(i + 1)). */
  function T(i: nat): word
    requires i < 64
  {
    if i < 16 then TableRound1(i)
    else if i < 32 then TableRound2(i - 16)
    else if i < 48 then TableRound3(i - 32)
    else TableRound4(i - 48)
  }

  function TableRound1(i: nat): word
    requires i < 16
  {
    match i
    case 0 => 0xd76aa478
    case 1 => 0xe8c7b756
    case 2 => 0x242070db
    case 3 => 0xc1bdceee
    case 4 => 0xf57c0faf
    case 5 => 0x4787c62a
    case 6 => 0xa8304613
    case 7 => 0xfd469501
    case 8 => 0x698098d8
    case 9 => 0x8b44f7af
    case 10 => 0xffff5bb1
    case 11 => 0x895cd7be
    case 12 => 0x6b901122
    case 13 => 0xfd987193
    case 14 => 0xa679438e
    case _ => 0x49b40821
  }

  function TableRound2(i: nat): word
    requires i < 16
  {
    match i
    case 0 => 0xf61e2562
    case 1 => 0xc040b340
    case 2 => 0x265e5a51
    case 3 => 0xe9b6c7aa
    case 4 => 0xd62f105d
    case 5 => 0x02441453
    case 6 => 0xd8a1e681
    case 7 => 0xe7d3fbc8
    case 8 => 0x21e1cde6
    case 9 => 0xc33707d6
    case 10 => 0xf4d50d87
    case 11 => 0x455a14ed
    case 12 => 0xa9e3e905
    case 13 => 0xfcefa3f8
    case 14 => 0x676f02d9
    case _ => 0x8d2a4c8a
  }

  function TableRound3(i: nat): word
    requires i < 16
  {
    match i
    case 0 => 0xfffa3942
    case 1 => 0x8771f681
    case 2 => 0x6d9d6122
    case 3 => 0xfde5380c
    case 4 => 0xa4beea44
    case 5 => 0x4bdecfa9
    case 6 => 0xf6bb4b60
    case 7 => 0xbebfbc70
    case 8 => 0x289b7ec6
    case 9 => 0xeaa127fa
    case 10 => 0xd4ef3085
    case 11 => 0x04881d05
    case 12 => 0xd9d4d039
    case 13 => 0xe6db99e5
    case 14 => 0x1fa27cf8
    case _ => 0xc4ac5665
  }

  function TableRound4(i: nat): word
    requires i < 16
  {
    match i
    case 0 => 0xf4292244
    case 1 => 0x432aff97
    case 2 => 0xab9423a7
    case 3 => 0xfc93a039
    case 4 => 0x655b59c3
    case 5 => 0x8f0ccc92
    case 6 => 0xffeff47d
    case 7 => 0x85845dd1
    case 8 => 0x6fa87e4f
    case 9 => 0xfe2ce6e0
    case 10 => 0xa3014314
    case 11 => 0x4e0811a1
    case 12 => 0xf7537e82
    case 13 => 0xbd3af235
    case 14 => 0x2ad7d2bb
    case _ => 0xeb86d391
  }

  /** Which word of the block step i uses. */
  function K(i: nat): nat
    requires i < 64
    ensures K(i) < 16
  {
    if i < 16 then i
    else if i < 32 then (5 * i + 1) % 16
    else if i < 48 then (3 * i + 5) % 16
    else 7 * i % 16
  }

  /** The rotation of step i. */
  function S(i: nat): (s: nat)
    requires i < 64
    ensures 0 < s < 32
  {
    var j := i % 4;
    if i < 16 then (if j == 0 then 7 else if j == 1 then 12 else if j == 2 then 17 else 22)
    else if i < 32 then (if j == 0 then 5 else if j == 1 then 9 else if j == 2 then 14 else 20)
    else if i < 48 then (if j == 0 then 4 else if j == 1 then 11 else if j == 2 then 16 else 23)
    else (if j == 0 then 6 else if j == 1 then 10 else if j == 2 then 15 else 21)
  }

  function Auxiliary(i: nat, x: word, y: word, z: word): word {
    if i < 16 then F(x, y, z) else if i < 32 then G(x, y, z) else if i < 48 then H(x, y, z) else I(x, y, z)
  }

  /** Step i: the registers rotate, so one formula serves all 64 steps. */
  function Operation(i: nat, r: Regs, x: seq<word>): Regs
    requires i < 64 && |x| == 16
  {
    var sum := Add(Add(Add(r.a, Auxiliary(i, r.b, r.c, r.d)), x[K(i)]), T(i));
    Regs(r.d, Add(r.b, RotateLeft(sum, S(i))), r.b, r.c)
  }

  /** `n` steps in order, the first being step `from`. */
  function Operations(from: nat, n: nat, r: Regs, x: seq<word>): Regs
    requires from + n <= 64 && |x| == 16
    decreases n
  {
    if n == 0 then r else Operations(from + 1, n - 1, Operation(from, r, x), x)
  }

  // ---------------------------------------------------------------- bytes and words

  /** The number whose bytes are b, low-order byte first (section 2). */
  function FromBytes(b: seq<byte>): nat {
    if b == [] then 0 else b[0] as int + 256 * FromBytes(b[1..])
  }

  /** The k low-order bytes of n, low-order byte first. */
  function LittleEndian(n: nat, k: nat): (b: seq<byte>)
    ensures |b| == k
  {
    if k == 0 then [] else [n % 256] + LittleEndian(n / 256, k - 1)
  }

  lemma {:induction false} FirstByte(n: nat, k: nat)
    ensures LittleEndian(n, k) == if k == 0 then [] else [n % 256] + LittleEndian(n / 256, k - 1)
  {
  }

  lemma {:induction false} DivideTwice(w: nat)
    ensures w / 256 / 256 == w / 0x1_0000 && w / 0x1_0000 / 256 == w / 0x100_0000
  {
  }

  lemma {:induction false} FourBytes(w: nat)
    ensures LittleEndian(w, 4) == [w % 256, w / 0x100 % 256, w / 0x1_0000 % 256, w / 0x100_0000 % 256]
  {
    hide LittleEndian;
    DivideTwice(w);
    var w1, w2, w3 := w / 256, w / 0x1_0000, w / 0x100_0000;
    FirstByte(w, 4);
    FirstByte(w1, 3);
    FirstByte(w2, 2);
    FirstByte(w3, 1);
    FirstByte(w3 / 256, 0);
  }

  /** Four bytes assembled as the big-endian branch does it. */
  function Assemble(b0: byte, b1: byte, b2: byte, b3: byte): word {
    b0 as int + 0x100 * b1 as int + 0x1_0000 * b2 as int + 0x100_0000 * b3 as int
  }

  lemma {:induction false} AssembleIsFromBytes(b: seq<byte>)
    requires |b| == 4
    ensures FromBytes(b) == Assemble(b[0], b[1], b[2], b[3])
  {
    assert b[1..][1..] == b[2..] && b[2..][1..] == b[3..] && b[3..][1..] == [];
    assert FromBytes(b[3..]) == b[3] as int;
    assert FromBytes(b[2..]) == b[2] as int + 256 * b[3] as int;
  }

  lemma {:induction false} LowByte(x: byte, n: nat)
    ensures (x as int + 256 * n) % 256 == x && (x as int + 256 * n) / 256 == n
  {
  }

  lemma {:induction false} BytesRoundTrip(b: seq<byte>)
    ensures LittleEndian(FromBytes(b), |b|) == b
  {
    if b != [] {
      var n := FromBytes(b[1..]);
      BytesRoundTrip(b[1..]);
      LowByte(b[0], n);
      FirstByte(b[0] as int + 256 * n, |b|);
      hide LittleEndian;
      assert b == [b[0]] + b[1..];
    }
  }

  /** Assembling the bytes gives the one word whose little-endian memory image they are, so
      both branches of the block load read the same words. */
  lemma {:induction false} AssembleIsImage(w: word, b: seq<byte>)
    requires |b| == 4
    ensures LittleEndian(w, 4) == b <==> w == Assemble(b[0], b[1], b[2], b[3])
  {
    AssembleIsFromBytes(b);
    BytesRoundTrip(b);
    if LittleEndian(w, 4) == b {
      FourBytes(w);
      assert w == b[0] as int + 0x100 * b[1] as int + 0x1_0000 * b[2] as int + 0x100_0000 * b[3] as int by {
        WordDigits(w);
      }
    }
  }

  lemma {:induction false} WordDigits(w: word)
    ensures w == w % 256 + 0x100 * (w / 0x100 % 256) + 0x1_0000 * (w / 0x1_0000 % 256) + 0x100_0000 * (w / 0x100_0000 % 256)
  {
    assert w == w % 256 + 256 * (w / 256);
    assert w / 256 == w / 256 % 256 + 256 * (w / 0x1_0000);
    assert w / 0x1_0000 == w / 0x1_0000 % 256 + 256 * (w / 0x100_0000);
  }

  // ---------------------------------------------------------------- one-shot digest

  const TWO64 := 0x1_0000_0000_0000_0000

  function WordOf(b: seq<byte>): word
    requires |b| == 4
  {
    AssembleIsFromBytes(b);
    FromBytes(b)
  }

  function Words(block: seq<byte>): (x: seq<word>)
    requires |block| == 64
    ensures |x| == 16
  {
    seq(16, i requires 0 <= i < 16 => WordOf(block[4 * i..4 * i + 4]))
  }

  /** Section 3.4 for one block. */
  function Compress(r: Regs, block: seq<byte>): Regs
    requires |block| == 64
  {
    var s := Operations(0, 64, r, Words(block));
    Regs(Add(r.a, s.a), Add(r.b, s.b), Add(r.c, s.c), Add(r.d, s.d))
  }

  /** All whole blocks of m, in order. */
  function Blocks(m: seq<byte>): Regs
    requires |m| % 64 == 0
  {
    if m == [] then INITIAL else Compress(Blocks(m[..|m| - 64]), m[|m| - 64..])
  }

  /** Bytes of padding (section 3.1): at least `p`, and no more than it takes to reach a
      length of 56 modulo 64. */
  function PadLength(len: nat, p: nat): (n: nat)
    ensures p <= n < p + 64 && (len + n) % 64 == 56
    decreases (56 - (len + p)) % 64
  {
    if (len + p) % 64 == 56 then p
    else
      NearerPad(len + p);
      NoFullTurn(len + p);
      PadLength(len, p + 1)
  }

  lemma {:induction false} NoFullTurn(x: nat)
    requires x % 64 != 56
    ensures (x + 64) % 64 != 56
  {
  }

  lemma {:induction false} NearerPad(x: nat)
    requires x % 64 != 56
    ensures (56 - (x + 1)) % 64 == (56 - x) % 64 - 1
  {
    var q := (56 - x) / 64;
    assert 56 - (x + 1) == 64 * q + ((56 - x) % 64 - 1);
  }

  /** Sections 3.1 and 3.2: a one bit, zero bits, and the bit length modulo 2^64. */
  function Padded(m: seq<byte>): (p: seq<byte>)
    ensures |p| % 64 == 0
  {
    var n := PadLength(|m|, 1);
    PadEnds(|m| + n);
    m + [0x80] + seq(n - 1, _ => 0) + LittleEndian(8 * |m| % TWO64, 8)
  }

  lemma {:induction false} PadEnds(x: nat)
    requires x % 64 == 56
    ensures (x + 8) % 64 == 0
  {
  }

  /** Section 3.5. */
  function Output(r: Regs): seq<byte> {
    LittleEndian(r.a, 4) + LittleEndian(r.b, 4) + LittleEndian(r.c, 4) + LittleEndian(r.d, 4)
  }

  function Digest(m: seq<byte>): seq<byte> {
    Output(Blocks(Padded(m)))
  }

  lemma {:induction false} SplitSteps(from: nat, n: nat, m: nat, r: Regs, x: seq<word>)
    requires from + n + m <= 64 && |x| == 16
    ensures Operations(from, n + m, r, x) == Operations(from + n, m, Operations(from, n, r, x), x)
    decreases n
  {
    hide Operation;
    if n > 0 {
      SplitSteps(from + 1, n - 1, m, Operation(from, r, x), x);
    }
  }
}
