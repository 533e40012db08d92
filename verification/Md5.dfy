/**
  MD5 (lib/b_md5.c).

  `Digest` is the function of sections 3.1 to 3.5 of RFC 1321 on a whole message.  `Context` is
  the streaming context of the code.  Whatever the sizes of the pieces in which a message is
  handed to `Update`, `Final` leaves the digest of the message.
*/
module Md5 {

  type byte = bv8

  datatype Quad = Quad(a: bv32, b: bv32, c: bv32, d: bv32)

  // ----- RFC 1321

  /** Section 3.4: the auxiliary functions, F for the first round to I for the fourth. */
  function Auxiliary(round: nat, x: bv32, y: bv32, z: bv32): bv32
    requires round < 4
  {
    match round
    case 0 => (x & y) | (!x & z)
    case 1 => (x & z) | (y & !z)
    case 2 => x ^ y ^ z
    case _ => y ^ (x | !z)
  }

  /** In the words of section 3.4: in each bit position F means if x then y else z. */
  lemma FChooses(x: bv32, y: bv32, z: bv32)
    ensures Auxiliary(0, x, y, z) & x == y & x && Auxiliary(0, x, y, z) & !x == z & !x
  {
  }

  /** G means if z then x else y. */
  lemma GChooses(x: bv32, y: bv32, z: bv32)
    ensures Auxiliary(1, x, y, z) & z == x & z && Auxiliary(1, x, y, z) & !z == y & !z
  {
  }

  /** H is a parity function: set where one of its inputs is, or all three are. */
  lemma HIsParity(x: bv32, y: bv32, z: bv32)
    ensures Auxiliary(2, x, y, z) == (x & !y & !z) | (!x & y & !z) | (!x & !y & z) | (x & y & z)
  {
  }

  /** I turns the bits of y round where x is set or z is not. */
  lemma IInverts(x: bv32, y: bv32, z: bv32)
    ensures Auxiliary(3, x, y, z) & x == !y & x && Auxiliary(3, x, y, z) & !z == !y & !z
    ensures Auxiliary(3, x, y, z) & (!x & z) == y & (!x & z)
  {
  }

  /** What a step uses: the number of a word of the block, a shift amount, and a sine. */
  datatype Entry = Entry(k: nat, s: nat, t: bv32)

  function Table1(j: nat): Entry
  {
    match j
    case 0 => Entry(0, 7, 0xd76aa478) case 1 => Entry(1, 12, 0xe8c7b756)
    case 2 => Entry(2, 17, 0x242070db) case 3 => Entry(3, 22, 0xc1bdceee)
    case 4 => Entry(4, 7, 0xf57c0faf) case 5 => Entry(5, 12, 0x4787c62a)
    case 6 => Entry(6, 17, 0xa8304613) case 7 => Entry(7, 22, 0xfd469501)
    case 8 => Entry(8, 7, 0x698098d8) case 9 => Entry(9, 12, 0x8b44f7af)
    case 10 => Entry(10, 17, 0xffff5bb1) case 11 => Entry(11, 22, 0x895cd7be)
    case 12 => Entry(12, 7, 0x6b901122) case 13 => Entry(13, 12, 0xfd987193)
    case 14 => Entry(14, 17, 0xa679438e) case _ => Entry(15, 22, 0x49b40821)
  }

  function Table2(j: nat): Entry
  {
    match j
    case 0 => Entry(1, 5, 0xf61e2562) case 1 => Entry(6, 9, 0xc040b340)
    case 2 => Entry(11, 14, 0x265e5a51) case 3 => Entry(0, 20, 0xe9b6c7aa)
    case 4 => Entry(5, 5, 0xd62f105d) case 5 => Entry(10, 9, 0x02441453)
    case 6 => Entry(15, 14, 0xd8a1e681) case 7 => Entry(4, 20, 0xe7d3fbc8)
    case 8 => Entry(9, 5, 0x21e1cde6) case 9 => Entry(14, 9, 0xc33707d6)
    case 10 => Entry(3, 14, 0xf4d50d87) case 11 => Entry(8, 20, 0x455a14ed)
    case 12 => Entry(13, 5, 0xa9e3e905) case 13 => Entry(2, 9, 0xfcefa3f8)
    case 14 => Entry(7, 14, 0x676f02d9) case _ => Entry(12, 20, 0x8d2a4c8a)
  }

  function Table3(j: nat): Entry
  {
    match j
    case 0 => Entry(5, 4, 0xfffa3942) case 1 => Entry(8, 11, 0x8771f681)
    case 2 => Entry(11, 16, 0x6d9d6122) case 3 => Entry(14, 23, 0xfde5380c)
    case 4 => Entry(1, 4, 0xa4beea44) case 5 => Entry(4, 11, 0x4bdecfa9)
    case 6 => Entry(7, 16, 0xf6bb4b60) case 7 => Entry(10, 23, 0xbebfbc70)
    case 8 => Entry(13, 4, 0x289b7ec6) case 9 => Entry(0, 11, 0xeaa127fa)
    case 10 => Entry(3, 16, 0xd4ef3085) case 11 => Entry(6, 23, 0x04881d05)
    case 12 => Entry(9, 4, 0xd9d4d039) case 13 => Entry(12, 11, 0xe6db99e5)
    case 14 => Entry(15, 16, 0x1fa27cf8) case _ => Entry(2, 23, 0xc4ac5665)
  }

  function Table4(j: nat): Entry
  {
    match j
    case 0 => Entry(0, 6, 0xf4292244) case 1 => Entry(7, 10, 0x432aff97)
    case 2 => Entry(14, 15, 0xab9423a7) case 3 => Entry(5, 21, 0xfc93a039)
    case 4 => Entry(12, 6, 0x655b59c3) case 5 => Entry(3, 10, 0x8f0ccc92)
    case 6 => Entry(10, 15, 0xffeff47d) case 7 => Entry(1, 21, 0x85845dd1)
    case 8 => Entry(8, 6, 0x6fa87e4f) case 9 => Entry(15, 10, 0xfe2ce6e0)
    case 10 => Entry(6, 15, 0xa3014314) case 11 => Entry(13, 21, 0x4e0811a1)
    case 12 => Entry(4, 6, 0xf7537e82) case 13 => Entry(11, 10, 0xbd3af235)
    case 14 => Entry(2, 15, 0x2ad7d2bb) case _ => Entry(9, 21, 0xeb86d391)
  }

  /** The k, s and T[i] of the steps of section 3.4, sixteen to a round. */
  function Table(round: nat, j: nat): Entry
    requires round < 4 && j < 16
  {
    match round
    case 0 => Table1(j)
    case 1 => Table2(j)
    case 2 => Table3(j)
    case _ => Table4(j)
  }

  function Add(x: bv32, y: bv32): bv32 { x + y }

  function Rotate(x: bv32, s: nat): bv32
    requires s < 32
  {
    x.RotateLeft(s)
  }

  /** The operation [abcd k s i]: a = b + ((a + f + X[k] + T[i]) <<< s). */
  function Operation(f: bv32, a: bv32, b: bv32, x: bv32, s: nat, t: bv32): bv32
    requires s < 32
  {
    Add(b, Rotate(Add(Add(Add(a, f), x), t), s))
  }

  /** One step; the registers change places so that the next step has the same form. */
  function Step(q: Quad, x: seq<bv32>, round: nat, j: nat): Quad
    requires |x| == 16 && round < 4 && j < 16
  {
    var e := Table(round, j);
    assert e.k < 16 && e.s < 32 by { TableRange(round, j); }
    Quad(q.d, Operation(Auxiliary(round, q.b, q.c, q.d), q.a, q.b, x[e.k], e.s, e.t), q.b, q.c)
  }

  /** The shift amounts that occur. */
  predicate Shift(s: nat)
  {
    s in {4, 5, 6, 7, 9, 10, 11, 12, 14, 15, 16, 17, 20, 21, 22, 23}
  }

  lemma TableRange(round: nat, j: nat)
    requires round < 4 && j < 16
    ensures Table(round, j).k < 16 && 0 < Table(round, j).s < 32 && Shift(Table(round, j).s)
  {
  }

  /** The first `n` steps of a round. */
  function Steps(q: Quad, x: seq<bv32>, round: nat, n: nat): Quad
    requires |x| == 16 && round < 4 && n <= 16
  {
    if n == 0 then q else Step(Steps(q, x, round, n - 1), x, round, n - 1)
  }

  /** One block: the four rounds, and the increment by the old values. */
  function Compress(q: Quad, x: seq<bv32>): Quad
    requires |x| == 16
  {
    var r := Steps(Steps(Steps(Steps(q, x, 0, 16), x, 1, 16), x, 2, 16), x, 3, 16);
    Quad(Add(q.a, r.a), Add(q.b, r.b), Add(q.c, r.c), Add(q.d, r.d))
  }

  /** Section 2: a word has its low-order byte first. */
  function Word(b: seq<byte>, at: nat): bv32
    requires at + 4 <= |b|
  {
    Little(b[at], b[at + 1], b[at + 2], b[at + 3])
  }

  function Little(b0: byte, b1: byte, b2: byte, b3: byte): bv32
  {
    ((b3 as bv32) << 24) | ((b2 as bv32) << 16) | ((b1 as bv32) << 8) | (b0 as bv32)
  }

  function Bytes(w: bv32): (b: seq<byte>)
    ensures |b| == 4
  {
    [(w & 0xff) as byte, ((w >> 8) & 0xff) as byte, ((w >> 16) & 0xff) as byte, ((w >> 24) & 0xff) as byte]
  }

  function Words(block: seq<byte>): (x: seq<bv32>)
    requires |block| == 64
    ensures |x| == 16
  {
    seq(16, i requires 0 <= i < 16 => Word(block, 4 * i))
  }

  /** Section 3.3. */
  const INITIAL := Quad(0x67452301, 0xefcdab89, 0x98badcfe, 0x10325476)

  /** The registers after the full blocks of a message. */
  function Chain(m: seq<byte>): Quad
    requires |m| % 64 == 0
  {
    if m == [] then INITIAL else Compress(Chain(m[..|m| - 64]), Words(m[|m| - 64..]))
  }

  /** Section 3.1: a one bit, then zero bits up to 56 bytes modulo 64. */
  function Padding(n: nat): (p: seq<byte>)
    ensures 1 <= |p| <= 64 && (n + |p|) % 64 == 56
  {
    var zeros := if n % 64 < 56 then 55 - n % 64 else 119 - n % 64;
    [0x80] + seq(zeros, _ => 0)
  }

  /** Section 3.2: the length in bits modulo 2^64, low-order word first. */
  function Length(n: nat): (l: seq<byte>)
    ensures |l| == 8
  {
    var bits := 8 * n % 0x1_0000_0000_0000_0000;
    Bytes(WordOfNumber(bits)) + Bytes(WordOfNumber(bits / 0x1_0000_0000))
  }

  /** A number modulo 2^32. */
  function WordOfNumber(x: nat): bv32 { (x % 0x1_0000_0000) as bv32 }

  lemma EightMore(n: nat)
    requires n % 64 == 56
    ensures (n + 8) % 64 == 0
  {
  }

  function Padded(m: seq<byte>): (p: seq<byte>)
    ensures |p| % 64 == 0
  {
    EightMore(|m| + |Padding(|m|)|);
    m + Padding(|m|) + Length(|m|)
  }

  /** Section 3.5. */
  function Digest(m: seq<byte>): seq<byte>
  {
    var q := Chain(Padded(m));
    Bytes(q.a) + Bytes(q.b) + Bytes(q.c) + Bytes(q.d)
  }

  // ----- the block transformation of the code

  /** ROTATE_LEFT. */
  function RotateLeft(x: bv32, s: nat): bv32
    requires 0 < s < 32
  {
    (x << s) | (x >> (32 - s))
  }

  // The macros F, G, H and I.
  function F(x: bv32, y: bv32, z: bv32): bv32 { (x & y) | (!x & z) }
  function G(x: bv32, y: bv32, z: bv32): bv32 { (x & z) | (y & !z) }
  function H(x: bv32, y: bv32, z: bv32): bv32 { x ^ y ^ z }
  function I(x: bv32, y: bv32, z: bv32): bv32 { y ^ (x | !z) }

  lemma MacrosAreAuxiliary(x: bv32, y: bv32, z: bv32)
    ensures F(x, y, z) == Auxiliary(0, x, y, z) && G(x, y, z) == Auxiliary(1, x, y, z)
    ensures H(x, y, z) == Auxiliary(2, x, y, z) && I(x, y, z) == Auxiliary(3, x, y, z)
  {
  }

  function FF(a: bv32, b: bv32, c: bv32, d: bv32, x: bv32, s: nat, ac: bv32): bv32
    requires 0 < s < 32
  {
    Add(RotateLeft(Add(a, Add(Add(F(b, c, d), x), ac)), s), b)
  }

  function GG(a: bv32, b: bv32, c: bv32, d: bv32, x: bv32, s: nat, ac: bv32): bv32
    requires 0 < s < 32
  {
    Add(RotateLeft(Add(a, Add(Add(G(b, c, d), x), ac)), s), b)
  }

  function HH(a: bv32, b: bv32, c: bv32, d: bv32, x: bv32, s: nat, ac: bv32): bv32
    requires 0 < s < 32
  {
    Add(RotateLeft(Add(a, Add(Add(H(b, c, d), x), ac)), s), b)
  }

  function II(a: bv32, b: bv32, c: bv32, d: bv32, x: bv32, s: nat, ac: bv32): bv32
    requires 0 < s < 32
  {
    Add(RotateLeft(Add(a, Add(Add(I(b, c, d), x), ac)), s), b)
  }

  lemma RotateLeftIsRotation(x: bv32, s: nat)
    requires 0 < s < 32 && Shift(s)
    ensures RotateLeft(x, s) == Rotate(x, s)
  {
    if s == 4 { assert (x << 4) | (x >> 28) == x.RotateLeft(4); }
    if s == 5 { assert (x << 5) | (x >> 27) == x.RotateLeft(5); }
    if s == 6 { assert (x << 6) | (x >> 26) == x.RotateLeft(6); }
    if s == 7 { assert (x << 7) | (x >> 25) == x.RotateLeft(7); }
    if s == 9 { assert (x << 9) | (x >> 23) == x.RotateLeft(9); }
    if s == 10 { assert (x << 10) | (x >> 22) == x.RotateLeft(10); }
    if s == 11 { assert (x << 11) | (x >> 21) == x.RotateLeft(11); }
    if s == 12 { assert (x << 12) | (x >> 20) == x.RotateLeft(12); }
    if s == 14 { assert (x << 14) | (x >> 18) == x.RotateLeft(14); }
    if s == 15 { assert (x << 15) | (x >> 17) == x.RotateLeft(15); }
    if s == 16 { assert (x << 16) | (x >> 16) == x.RotateLeft(16); }
    if s == 17 { assert (x << 17) | (x >> 15) == x.RotateLeft(17); }
    if s == 20 { assert (x << 20) | (x >> 12) == x.RotateLeft(20); }
    if s == 21 { assert (x << 21) | (x >> 11) == x.RotateLeft(21); }
    if s == 22 { assert (x << 22) | (x >> 10) == x.RotateLeft(22); }
    if s == 23 { assert (x << 23) | (x >> 9) == x.RotateLeft(23); }
  }

  lemma AddCommutes(x: bv32, y: bv32)
    ensures Add(x, y) == Add(y, x)
  {
  }

  lemma AddAssociates(x: bv32, y: bv32, z: bv32)
    ensures Add(x, Add(y, z)) == Add(Add(x, y), z)
  {
    assert Add(x, y + z) == Add(x + y, z);
  }

  lemma FFIsOperation(a: bv32, b: bv32, c: bv32, d: bv32, x: bv32, s: nat, ac: bv32)
    requires 0 < s < 32 && Shift(s)
    ensures FF(a, b, c, d, x, s, ac) == Operation(Auxiliary(0, b, c, d), a, b, x, s, ac)
  {
    hide RotateLeft, Rotate, Add, Auxiliary, F;
    MacrosAreAuxiliary(b, c, d);
    var f := F(b, c, d);
    AddAssociates(a, Add(f, x), ac);
    AddAssociates(a, f, x);
    RotateLeftIsRotation(Add(Add(Add(a, f), x), ac), s);
    AddCommutes(b, Rotate(Add(Add(Add(a, f), x), ac), s));
  }

  lemma GGIsOperation(a: bv32, b: bv32, c: bv32, d: bv32, x: bv32, s: nat, ac: bv32)
    requires 0 < s < 32 && Shift(s)
    ensures GG(a, b, c, d, x, s, ac) == Operation(Auxiliary(1, b, c, d), a, b, x, s, ac)
  {
    hide RotateLeft, Rotate, Add, Auxiliary, G;
    MacrosAreAuxiliary(b, c, d);
    var f := G(b, c, d);
    AddAssociates(a, Add(f, x), ac);
    AddAssociates(a, f, x);
    RotateLeftIsRotation(Add(Add(Add(a, f), x), ac), s);
    AddCommutes(b, Rotate(Add(Add(Add(a, f), x), ac), s));
  }

  lemma HHIsOperation(a: bv32, b: bv32, c: bv32, d: bv32, x: bv32, s: nat, ac: bv32)
    requires 0 < s < 32 && Shift(s)
    ensures HH(a, b, c, d, x, s, ac) == Operation(Auxiliary(2, b, c, d), a, b, x, s, ac)
  {
    hide RotateLeft, Rotate, Add, Auxiliary, H;
    MacrosAreAuxiliary(b, c, d);
    var f := H(b, c, d);
    AddAssociates(a, Add(f, x), ac);
    AddAssociates(a, f, x);
    RotateLeftIsRotation(Add(Add(Add(a, f), x), ac), s);
    AddCommutes(b, Rotate(Add(Add(Add(a, f), x), ac), s));
  }

  lemma IIIsOperation(a: bv32, b: bv32, c: bv32, d: bv32, x: bv32, s: nat, ac: bv32)
    requires 0 < s < 32 && Shift(s)
    ensures II(a, b, c, d, x, s, ac) == Operation(Auxiliary(3, b, c, d), a, b, x, s, ac)
  {
    hide RotateLeft, Rotate, Add, Auxiliary, I;
    MacrosAreAuxiliary(b, c, d);
    var f := I(b, c, d);
    AddAssociates(a, Add(f, x), ac);
    AddAssociates(a, f, x);
    RotateLeftIsRotation(Add(Add(Add(a, f), x), ac), s);
    AddCommutes(b, Rotate(Add(Add(Add(a, f), x), ac), s));
  }

  lemma FFStep(q: Quad, x: seq<bv32>, j: nat, a: bv32, b: bv32, c: bv32, d: bv32)
    requires |x| == 16 && j < 16 && Quad(a, b, c, d) == Steps(q, x, 0, j)
    ensures Table1(j).k < 16 && 0 < Table1(j).s < 32
    ensures var e := Table1(j);
            Quad(d, FF(a, b, c, d, x[e.k], e.s, e.t), b, c) == Steps(q, x, 0, j + 1)
  {
    hide FF, Operation, Auxiliary, Table1;
    TableRange(0, j);
    var e := Table1(j);
    FFIsOperation(a, b, c, d, x[e.k], e.s, e.t);
  }

  method Round1(q: Quad, x: seq<bv32>) returns (r: Quad)
    requires |x| == 16
    ensures r == Steps(q, x, 0, 16)
  {
    hide FF, Steps;
    var a, b, c, d := q.a, q.b, q.c, q.d;
    NoSteps(q, x, 0);
    FFStep(q, x, 0, a, b, c, d);
    a := FF(a, b, c, d, x[0], 7, 0xd76aa478);
    FFStep(q, x, 1, d, a, b, c);
    d := FF(d, a, b, c, x[1], 12, 0xe8c7b756);
    FFStep(q, x, 2, c, d, a, b);
    c := FF(c, d, a, b, x[2], 17, 0x242070db);
    FFStep(q, x, 3, b, c, d, a);
    b := FF(b, c, d, a, x[3], 22, 0xc1bdceee);
    FFStep(q, x, 4, a, b, c, d);
    a := FF(a, b, c, d, x[4], 7, 0xf57c0faf);
    FFStep(q, x, 5, d, a, b, c);
    d := FF(d, a, b, c, x[5], 12, 0x4787c62a);
    FFStep(q, x, 6, c, d, a, b);
    c := FF(c, d, a, b, x[6], 17, 0xa8304613);
    FFStep(q, x, 7, b, c, d, a);
    b := FF(b, c, d, a, x[7], 22, 0xfd469501);
    FFStep(q, x, 8, a, b, c, d);
    a := FF(a, b, c, d, x[8], 7, 0x698098d8);
    FFStep(q, x, 9, d, a, b, c);
    d := FF(d, a, b, c, x[9], 12, 0x8b44f7af);
    FFStep(q, x, 10, c, d, a, b);
    c := FF(c, d, a, b, x[10], 17, 0xffff5bb1);
    FFStep(q, x, 11, b, c, d, a);
    b := FF(b, c, d, a, x[11], 22, 0x895cd7be);
    FFStep(q, x, 12, a, b, c, d);
    a := FF(a, b, c, d, x[12], 7, 0x6b901122);
    FFStep(q, x, 13, d, a, b, c);
    d := FF(d, a, b, c, x[13], 12, 0xfd987193);
    FFStep(q, x, 14, c, d, a, b);
    c := FF(c, d, a, b, x[14], 17, 0xa679438e);
    FFStep(q, x, 15, b, c, d, a);
    b := FF(b, c, d, a, x[15], 22, 0x49b40821);
    r := Quad(a, b, c, d);
  }

  lemma GGStep(q: Quad, x: seq<bv32>, j: nat, a: bv32, b: bv32, c: bv32, d: bv32)
    requires |x| == 16 && j < 16 && Quad(a, b, c, d) == Steps(q, x, 1, j)
    ensures Table2(j).k < 16 && 0 < Table2(j).s < 32
    ensures var e := Table2(j);
            Quad(d, GG(a, b, c, d, x[e.k], e.s, e.t), b, c) == Steps(q, x, 1, j + 1)
  {
    hide GG, Operation, Auxiliary, Table2;
    TableRange(1, j);
    var e := Table2(j);
    GGIsOperation(a, b, c, d, x[e.k], e.s, e.t);
  }

  method Round2(q: Quad, x: seq<bv32>) returns (r: Quad)
    requires |x| == 16
    ensures r == Steps(q, x, 1, 16)
  {
    hide GG, Steps;
    var a, b, c, d := q.a, q.b, q.c, q.d;
    NoSteps(q, x, 1);
    GGStep(q, x, 0, a, b, c, d);
    a := GG(a, b, c, d, x[1], 5, 0xf61e2562);
    GGStep(q, x, 1, d, a, b, c);
    d := GG(d, a, b, c, x[6], 9, 0xc040b340);
    GGStep(q, x, 2, c, d, a, b);
    c := GG(c, d, a, b, x[11], 14, 0x265e5a51);
    GGStep(q, x, 3, b, c, d, a);
    b := GG(b, c, d, a, x[0], 20, 0xe9b6c7aa);
    GGStep(q, x, 4, a, b, c, d);
    a := GG(a, b, c, d, x[5], 5, 0xd62f105d);
    GGStep(q, x, 5, d, a, b, c);
    d := GG(d, a, b, c, x[10], 9, 0x02441453);
    GGStep(q, x, 6, c, d, a, b);
    c := GG(c, d, a, b, x[15], 14, 0xd8a1e681);
    GGStep(q, x, 7, b, c, d, a);
    b := GG(b, c, d, a, x[4], 20, 0xe7d3fbc8);
    GGStep(q, x, 8, a, b, c, d);
    a := GG(a, b, c, d, x[9], 5, 0x21e1cde6);
    GGStep(q, x, 9, d, a, b, c);
    d := GG(d, a, b, c, x[14], 9, 0xc33707d6);
    GGStep(q, x, 10, c, d, a, b);
    c := GG(c, d, a, b, x[3], 14, 0xf4d50d87);
    GGStep(q, x, 11, b, c, d, a);
    b := GG(b, c, d, a, x[8], 20, 0x455a14ed);
    GGStep(q, x, 12, a, b, c, d);
    a := GG(a, b, c, d, x[13], 5, 0xa9e3e905);
    GGStep(q, x, 13, d, a, b, c);
    d := GG(d, a, b, c, x[2], 9, 0xfcefa3f8);
    GGStep(q, x, 14, c, d, a, b);
    c := GG(c, d, a, b, x[7], 14, 0x676f02d9);
    GGStep(q, x, 15, b, c, d, a);
    b := GG(b, c, d, a, x[12], 20, 0x8d2a4c8a);
    r := Quad(a, b, c, d);
  }

  lemma HHStep(q: Quad, x: seq<bv32>, j: nat, a: bv32, b: bv32, c: bv32, d: bv32)
    requires |x| == 16 && j < 16 && Quad(a, b, c, d) == Steps(q, x, 2, j)
    ensures Table3(j).k < 16 && 0 < Table3(j).s < 32
    ensures var e := Table3(j);
            Quad(d, HH(a, b, c, d, x[e.k], e.s, e.t), b, c) == Steps(q, x, 2, j + 1)
  {
    hide HH, Operation, Auxiliary, Table3;
    TableRange(2, j);
    var e := Table3(j);
    HHIsOperation(a, b, c, d, x[e.k], e.s, e.t);
  }

  method Round3(q: Quad, x: seq<bv32>) returns (r: Quad)
    requires |x| == 16
    ensures r == Steps(q, x, 2, 16)
  {
    hide HH, Steps;
    var a, b, c, d := q.a, q.b, q.c, q.d;
    NoSteps(q, x, 2);
    HHStep(q, x, 0, a, b, c, d);
    a := HH(a, b, c, d, x[5], 4, 0xfffa3942);
    HHStep(q, x, 1, d, a, b, c);
    d := HH(d, a, b, c, x[8], 11, 0x8771f681);
    HHStep(q, x, 2, c, d, a, b);
    c := HH(c, d, a, b, x[11], 16, 0x6d9d6122);
    HHStep(q, x, 3, b, c, d, a);
    b := HH(b, c, d, a, x[14], 23, 0xfde5380c);
    HHStep(q, x, 4, a, b, c, d);
    a := HH(a, b, c, d, x[1], 4, 0xa4beea44);
    HHStep(q, x, 5, d, a, b, c);
    d := HH(d, a, b, c, x[4], 11, 0x4bdecfa9);
    HHStep(q, x, 6, c, d, a, b);
    c := HH(c, d, a, b, x[7], 16, 0xf6bb4b60);
    HHStep(q, x, 7, b, c, d, a);
    b := HH(b, c, d, a, x[10], 23, 0xbebfbc70);
    HHStep(q, x, 8, a, b, c, d);
    a := HH(a, b, c, d, x[13], 4, 0x289b7ec6);
    HHStep(q, x, 9, d, a, b, c);
    d := HH(d, a, b, c, x[0], 11, 0xeaa127fa);
    HHStep(q, x, 10, c, d, a, b);
    c := HH(c, d, a, b, x[3], 16, 0xd4ef3085);
    HHStep(q, x, 11, b, c, d, a);
    b := HH(b, c, d, a, x[6], 23, 0x04881d05);
    HHStep(q, x, 12, a, b, c, d);
    a := HH(a, b, c, d, x[9], 4, 0xd9d4d039);
    HHStep(q, x, 13, d, a, b, c);
    d := HH(d, a, b, c, x[12], 11, 0xe6db99e5);
    HHStep(q, x, 14, c, d, a, b);
    c := HH(c, d, a, b, x[15], 16, 0x1fa27cf8);
    HHStep(q, x, 15, b, c, d, a);
    b := HH(b, c, d, a, x[2], 23, 0xc4ac5665);
    r := Quad(a, b, c, d);
  }

  lemma IIStep(q: Quad, x: seq<bv32>, j: nat, a: bv32, b: bv32, c: bv32, d: bv32)
    requires |x| == 16 && j < 16 && Quad(a, b, c, d) == Steps(q, x, 3, j)
    ensures Table4(j).k < 16 && 0 < Table4(j).s < 32
    ensures var e := Table4(j);
            Quad(d, II(a, b, c, d, x[e.k], e.s, e.t), b, c) == Steps(q, x, 3, j + 1)
  {
    hide II, Operation, Auxiliary, Table4;
    TableRange(3, j);
    var e := Table4(j);
    IIIsOperation(a, b, c, d, x[e.k], e.s, e.t);
  }

  method Round4(q: Quad, x: seq<bv32>) returns (r: Quad)
    requires |x| == 16
    ensures r == Steps(q, x, 3, 16)
  {
    hide II, Steps;
    var a, b, c, d := q.a, q.b, q.c, q.d;
    NoSteps(q, x, 3);
    IIStep(q, x, 0, a, b, c, d);
    a := II(a, b, c, d, x[0], 6, 0xf4292244);
    IIStep(q, x, 1, d, a, b, c);
    d := II(d, a, b, c, x[7], 10, 0x432aff97);
    IIStep(q, x, 2, c, d, a, b);
    c := II(c, d, a, b, x[14], 15, 0xab9423a7);
    IIStep(q, x, 3, b, c, d, a);
    b := II(b, c, d, a, x[5], 21, 0xfc93a039);
    IIStep(q, x, 4, a, b, c, d);
    a := II(a, b, c, d, x[12], 6, 0x655b59c3);
    IIStep(q, x, 5, d, a, b, c);
    d := II(d, a, b, c, x[3], 10, 0x8f0ccc92);
    IIStep(q, x, 6, c, d, a, b);
    c := II(c, d, a, b, x[10], 15, 0xffeff47d);
    IIStep(q, x, 7, b, c, d, a);
    b := II(b, c, d, a, x[1], 21, 0x85845dd1);
    IIStep(q, x, 8, a, b, c, d);
    a := II(a, b, c, d, x[8], 6, 0x6fa87e4f);
    IIStep(q, x, 9, d, a, b, c);
    d := II(d, a, b, c, x[15], 10, 0xfe2ce6e0);
    IIStep(q, x, 10, c, d, a, b);
    c := II(c, d, a, b, x[6], 15, 0xa3014314);
    IIStep(q, x, 11, b, c, d, a);
    b := II(b, c, d, a, x[13], 21, 0x4e0811a1);
    IIStep(q, x, 12, a, b, c, d);
    a := II(a, b, c, d, x[4], 6, 0xf7537e82);
    IIStep(q, x, 13, d, a, b, c);
    d := II(d, a, b, c, x[11], 10, 0xbd3af235);
    IIStep(q, x, 14, c, d, a, b);
    c := II(c, d, a, b, x[2], 15, 0x2ad7d2bb);
    IIStep(q, x, 15, b, c, d, a);
    b := II(b, c, d, a, x[9], 21, 0xeb86d391);
    r := Quad(a, b, c, d);
  }

  lemma NoSteps(q: Quad, x: seq<bv32>, round: nat)
    requires |x| == 16 && round < 4
    ensures Steps(q, x, round, 0) == q
  {
  }

  /** Transform. */
  method Transform(buf: Quad, x: seq<bv32>) returns (r: Quad)
    requires |x| == 16
    ensures r == Compress(buf, x)
  {
    hide Steps, Add;
    r := Round1(buf, x);
    r := Round2(r, x);
    r := Round3(r, x);
    r := Round4(r, x);
    r := Quad(Add(buf.a, r.a), Add(buf.b, r.b), Add(buf.c, r.c), Add(buf.d, r.d));
  }

  // ----- the streaming context

  /** The full blocks at the front of a message, and what is left. */
  function Blocks(m: seq<byte>): (b: seq<byte>)
    ensures |b| % 64 == 0
  {
    m[..|m| - |m| % 64]
  }

  function Partial(m: seq<byte>): (p: seq<byte>)
    ensures |p| == |m| % 64
  {
    m[|m| - |m| % 64..]
  }

  /** The next byte either grows the partial block or completes it. */
  lemma NextByte(m: seq<byte>, b: byte)
    ensures var n := m + [b];
            if |m| % 64 < 63 then Blocks(n) == Blocks(m) && Partial(n) == Partial(m) + [b]
            else Partial(n) == [] && Blocks(n) == Blocks(m) + (Partial(m) + [b])
  {
    var n := m + [b];
    if |m| % 64 < 63 {
      assert |n| - |n| % 64 == |m| - |m| % 64;
    } else {
      assert |n| % 64 == 0;
      assert Blocks(m) + Partial(m) == m;
    }
  }

  lemma ChainExtended(m: seq<byte>, block: seq<byte>)
    requires |m| % 64 == 0 && |block| == 64
    ensures Chain(m + block) == Compress(Chain(m), Words(block))
  {
  }

  const TWO_TO_32 := 0x1_0000_0000
  const TWO_TO_64 := 0x1_0000_0000_0000_0000

  /** The two-word count after another `k` bytes, with the carry as the code finds it. */
  function Counted(low: nat, high: nat, k: nat): (nat, nat)
  {
    var sum := (low + 8 * k % TWO_TO_32) % TWO_TO_32;
    var carried := if sum < low then (high + 1) % TWO_TO_32 else high;
    (sum, (carried + k / 0x2000_0000) % TWO_TO_32)
  }

  /** The two words count the bits of `n` bytes modulo 2^64. */
  ghost predicate Counts(low: nat, high: nat, n: nat)
  {
    low < TWO_TO_32 && high < TWO_TO_32 && low + TWO_TO_32 * high == 8 * n % TWO_TO_64
  }

  lemma ModUnique(x: nat, r: nat, q: nat)
    requires r < TWO_TO_64 && x == r + TWO_TO_64 * q
    ensures x % TWO_TO_64 == r
  {
  }

  lemma CountAdded(low: nat, high: nat, n: nat, k: nat)
    requires Counts(low, high, n)
    ensures Counts(Counted(low, high, k).0, Counted(low, high, k).1, n + k)
  {
    var a, u := 8 * k % TWO_TO_32, k / 0x2000_0000;
    assert 8 * k == a + TWO_TO_32 * u;
    var carry := if low + a >= TWO_TO_32 then 1 else 0;
    var sum := low + a - TWO_TO_32 * carry;
    assert sum == Counted(low, high, k).0;
    var h := high + carry + u;
    assert Counted(low, high, k).1 == h % TWO_TO_32 by {
      CarriedTwice(high, carry, u);
    }
    var q := 8 * n / TWO_TO_64;
    assert h == h % TWO_TO_32 + TWO_TO_32 * (h / TWO_TO_32);
    assert 8 * (n + k) == sum + TWO_TO_32 * (h % TWO_TO_32) + TWO_TO_64 * (q + h / TWO_TO_32);
    ModUnique(8 * (n + k), sum + TWO_TO_32 * (h % TWO_TO_32), q + h / TWO_TO_32);
  }

  lemma CarriedTwice(high: nat, carry: nat, u: nat)
    requires high < TWO_TO_32 && carry <= 1
    ensures ((if carry == 1 then (high + 1) % TWO_TO_32 else high) + u) % TWO_TO_32 == (high + carry + u) % TWO_TO_32
  {
  }

  /** The count says how much of the block is full. */
  lemma CountedBytes(low: nat, high: nat, n: nat)
    requires Counts(low, high, n)
    ensures low / 8 % 64 == n % 64
  {
    var h := high + TWO_TO_32 * (8 * n / TWO_TO_64);
    BytesOfBits(low, h, n);
  }

  lemma BytesOfBits(low: nat, h: nat, n: nat)
    requires 8 * n == low + TWO_TO_32 * h
    ensures low / 8 % 64 == n % 64
  {
    var m := n - 64 * (0x80_0000 * h);
    Eighth(low, m);
    BlocksDropped(m, 0x80_0000 * h);
  }

  lemma Eighth(low: nat, m: int)
    requires low == 8 * m
    ensures low / 8 == m && m >= 0
  {
  }

  lemma BlocksDropped(m: nat, blocks: nat)
    ensures (m + 64 * blocks) % 64 == m % 64
  {
  }

  /** The loop that makes the first `n` words of a block from its bytes. */
  method Decode(input: array<byte>, n: nat) returns (x: seq<bv32>)
    requires input.Length == 64 && n <= 16
    ensures x == Words(input[..])[..n]
  {
    hide Word;
    x := [];
    for i := 0 to n
      invariant x == Words(input[..])[..i]
    {
      x := x + [Word(input[..], 4 * i)];
    }
  }

  class Context {
    // The number of bits modulo 2^64, in two words.
    var low: nat
    var high: nat
    var buf: Quad
    const input: array<byte>
    const digest: array<byte>
    ghost var message: seq<byte>

    /** The context stands for the message fed to it so far. */
    ghost predicate Valid()
      reads this, input
    {
      && input.Length == 64 && digest.Length == 16 && input != digest
      && Counts(low, high, |message|)
      && buf == Chain(Blocks(message))
      && input[..|message| % 64] == Partial(message)
    }

    /** bk_MD5Init on a new context. */
    constructor ()
      ensures Valid() && message == [] && fresh(input) && fresh(digest)
    {
      hide Chain, Blocks, Partial, Compress;
      input := new byte[64];
      digest := new byte[16];
      low, high := 0, 0;
      buf := INITIAL;
      message := [];
      new;
      assert Chain([]) == INITIAL && Blocks([]) == [] && Partial([]) == [] by { EmptyMessage(); }
    }

    /** The part of bk_MD5Update that counts the bits. */
    method Count(k: nat)
      requires Counts(low, high, |message|)
      modifies this`low, this`high
      ensures Counts(low, high, |message| + k)
    {
      hide Counts;
      CountAdded(low, high, |message|, k);
      if (low + 8 * k % TWO_TO_32) % TWO_TO_32 < low {
        high := (high + 1) % TWO_TO_32;
      }
      low := (low + 8 * k % TWO_TO_32) % TWO_TO_32;
      high := (high + k / 0x2000_0000) % TWO_TO_32;
    }

    /** bk_MD5Update.  The length is an unsigned int. */
    method Update(data: seq<byte>)
      requires Valid() && |data| < TWO_TO_32
      modifies this, input
      ensures Valid() && message == old(message) + data
    {
      hide Counts, Chain, Blocks, Partial;
      ghost var before := message;
      CountedBytes(low, high, |message|);
      var mdi: nat := low / 8 % 64;
      Count(|data|);
      var i := 0;
      while i < |data|
        invariant i <= |data| && message == before + data[..i] && Counts(low, high, |before| + |data|)
        invariant Follows(mdi)
      {
        mdi := AddByte(data[i], mdi);
        assert data[..i + 1] == data[..i] + [data[i]];
        i := i + 1;
      }
      assert data[..i] == data;
    }

    /** The registers and the partial block, without the count, which runs ahead during an update. */
    ghost predicate Follows(mdi: nat)
      reads this, input
    {
      && input.Length == 64 && digest.Length == 16 && input != digest
      && buf == Chain(Blocks(message)) && mdi == |message| % 64 && input[..mdi] == Partial(message)
    }

    /** The body of the loop: one byte, and a transformation if it fills the block. */
    method AddByte(b: byte, at: nat) returns (mdi: nat)
      requires Follows(at)
      modifies this`buf, this`message, input
      ensures Follows(mdi) && message == old(message) + [b]
    {
      hide Chain, Blocks, Partial, Compress, Words;
      NextByte(message, b);
      mdi := at;
      input[mdi] := b;
      mdi := mdi + 1;
      assert input[..mdi] == Partial(message) + [b];
      if mdi == 64 {
        assert input[..64] == input[..];
        ChainExtended(Blocks(message), input[..]);
        var x := Decode(input, 16);
        assert x == Words(input[..]);
        buf := Transform(buf, x);
        mdi := 0;
      }
      message := message + [b];
    }

    /** bk_MD5Final.  The context is spent afterwards. */
    method Final()
      requires Valid()
      modifies this, input, digest
      ensures digest[..] == Digest(old(message))
    {
      hide Counts, Chain, Blocks, Partial, Compress, Words, Bytes, Padding, Length, Padded, WordOfNumber;
      ghost var m := message;
      var countLow, countHigh := WordOfNumber(low), WordOfNumber(high);
      CountIsLength(low, high, |m|);
      CountedBytes(low, high, |m|);
      var mdi := low / 8 % 64;
      var padLen := if mdi < 56 then 56 - mdi else 120 - mdi;
      var padding: seq<byte> := [0x80] + seq(padLen - 1, _ => 0);
      PaddingIs(|m|, padding);
      Update(padding);
      var x := Decode(input, 14);
      x := x + [countLow, countHigh];
      assert |message| % 64 == 56;
      LastBlock(m, input[..], countLow, countHigh, x);
      buf := Transform(buf, x);
      var out := Bytes(buf.a) + Bytes(buf.b) + Bytes(buf.c) + Bytes(buf.d);
      Store(out);
    }

    /** The loop that stores the registers in the digest. */
    method Store(out: seq<byte>)
      requires |out| == 16 && digest.Length == 16
      modifies digest
      ensures digest[..] == out
    {
      for k := 0 to 16
        invariant digest[..k] == out[..k]
      {
        digest[k] := out[k];
        assert digest[..k + 1] == digest[..k] + [out[k]];
      }
      assert digest[..16] == digest[..] && out[..16] == out;
    }
  }

  lemma EmptyMessage()
    ensures Chain([]) == INITIAL && Blocks([]) == [] && Partial([]) == []
  {
  }

  lemma PaddingIs(n: nat, padding: seq<byte>)
    requires var len := if n % 64 < 56 then 56 - n % 64 else 120 - n % 64;
             padding == [0x80] + seq(len - 1, _ => 0)
    ensures padding == Padding(n)
  {
  }

  lemma Halves(low: nat, high: nat)
    requires low < TWO_TO_32
    ensures WordOfNumber(low + TWO_TO_32 * high) == WordOfNumber(low)
    ensures (low + TWO_TO_32 * high) / TWO_TO_32 == high
  {
  }

  lemma CountIsLength(low: nat, high: nat, n: nat)
    requires Counts(low, high, n)
    ensures Bytes(WordOfNumber(low)) + Bytes(WordOfNumber(high)) == Length(n)
  {
    hide Bytes, WordOfNumber;
    Halves(low, high);
  }

  lemma WordOfBytes(w: bv32, b: seq<byte>, at: nat)
    requires at + 4 <= |b| && b[at..at + 4] == Bytes(w)
    ensures Word(b, at) == w
  {
  }

  lemma WordOfPrefix(a: seq<byte>, b: seq<byte>, at: nat, n: nat)
    requires at + 4 <= n <= |a| && n <= |b| && a[..n] == b[..n]
    ensures Word(a, at) == Word(b, at)
  {
  }

  /** The words that Final makes of the padded partial block and the count are the last block. */
  lemma LastBlock(m: seq<byte>, input: seq<byte>, low: bv32, high: bv32, x: seq<bv32>)
    requires |input| == 64 && |x| == 16
    requires input[..56] == Partial(m + Padding(|m|)) && Bytes(low) + Bytes(high) == Length(|m|)
    requires x == Words(input)[..14] + [low, high]
    ensures Chain(Padded(m)) == Compress(Chain(Blocks(m + Padding(|m|))), x)
  {
    hide Word, Bytes, Chain, Compress, Length, Padding;
    var padded := m + Padding(|m|);
    var block := Partial(padded) + Length(|m|);
    assert Padded(m) == Blocks(padded) + block;
    ChainExtended(Blocks(padded), block);
    assert block[..56] == input[..56];
    assert block[56..60] == Bytes(low) && block[60..64] == Bytes(high);
    WordOfBytes(low, block, 56);
    WordOfBytes(high, block, 60);
    forall i | 0 <= i < 16 ensures Words(block)[i] == x[i] {
      if i < 14 {
        WordOfPrefix(block, input, 4 * i, 56);
      }
    }
    assert Words(block) == x;
  }

  // ----- whole runs

  function Concat(pieces: seq<seq<byte>>): seq<byte>
  {
    if pieces == [] then [] else Concat(pieces[..|pieces| - 1]) + pieces[|pieces| - 1]
  }

  /** Init, any number of Updates, and Final: the cut of the message does not matter. */
  method DigestOfPieces(pieces: seq<seq<byte>>) returns (digest: seq<byte>)
    requires forall i :: 0 <= i < |pieces| ==> |pieces[i]| < TWO_TO_32
    ensures digest == Digest(Concat(pieces))
  {
    hide Digest;
    var ctx := new Context();
    for i := 0 to |pieces|
      invariant ctx.Valid() && ctx.message == Concat(pieces[..i])
      invariant fresh(ctx) && fresh(ctx.input) && fresh(ctx.digest)
    {
      assert pieces[..i + 1][..i] == pieces[..i];
      ctx.Update(pieces[i]);
    }
    assert pieces[..|pieces|] == pieces;
    ctx.Final();
    digest := ctx.digest[..];
  }
}
