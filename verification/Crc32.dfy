/**
  CRC-32 (lib/b_crc.c).

  `Crc32` is the table-driven routine, `Bitwise` the definition: one bit at a time, least
  significant bit first, a division by the reflected polynomial 0xedb88320 (section 8 of
  RFC 1952, without its two complements, which the routine leaves to its caller).  They agree for
  every starting value and buffer, and the code detects every burst error of up to 32 bits.
*/
module Crc32 {

  type byte = bv8

  // ----- the definition

  /** Divide one bit out of the register. */
  function Step(c: bv32): bv32
  {
    if c & 1 == 1 then 0xedb88320 ^ (c >> 1) else c >> 1
  }

  function Step8(c: bv32): bv32 { Step(Step(Step(Step(Step(Step(Step(Step(c)))))))) }

  /** Addition of polynomials with coefficients 0 and 1. */
  function Sum(x: bv32, y: bv32): bv32 { x ^ y }

  /** Add a byte to the low end of the register and divide it out. */
  function Feed(c: bv32, b: byte): bv32 { Step8(Sum(c, b as bv32)) }

  function Bitwise(crc: bv32, data: seq<byte>): bv32
  {
    if data == [] then crc else Feed(Bitwise(crc, data[..|data| - 1]), data[|data| - 1])
  }

  // ----- the table of the code, as sixteen rows of sixteen entries

  function Row0(k: byte): bv32
  {
    match k
    case 0 => 0x00000000 case 1 => 0x77073096 case 2 => 0xee0e612c case 3 => 0x990951ba
    case 4 => 0x076dc419 case 5 => 0x706af48f case 6 => 0xe963a535 case 7 => 0x9e6495a3
    case 8 => 0x0edb8832 case 9 => 0x79dcb8a4 case 10 => 0xe0d5e91e case 11 => 0x97d2d988
    case 12 => 0x09b64c2b case 13 => 0x7eb17cbd case 14 => 0xe7b82d07 case _ => 0x90bf1d91
  }

  function Row1(k: byte): bv32
  {
    match k
    case 0 => 0x1db71064 case 1 => 0x6ab020f2 case 2 => 0xf3b97148 case 3 => 0x84be41de
    case 4 => 0x1adad47d case 5 => 0x6ddde4eb case 6 => 0xf4d4b551 case 7 => 0x83d385c7
    case 8 => 0x136c9856 case 9 => 0x646ba8c0 case 10 => 0xfd62f97a case 11 => 0x8a65c9ec
    case 12 => 0x14015c4f case 13 => 0x63066cd9 case 14 => 0xfa0f3d63 case _ => 0x8d080df5
  }

  function Row2(k: byte): bv32
  {
    match k
    case 0 => 0x3b6e20c8 case 1 => 0x4c69105e case 2 => 0xd56041e4 case 3 => 0xa2677172
    case 4 => 0x3c03e4d1 case 5 => 0x4b04d447 case 6 => 0xd20d85fd case 7 => 0xa50ab56b
    case 8 => 0x35b5a8fa case 9 => 0x42b2986c case 10 => 0xdbbbc9d6 case 11 => 0xacbcf940
    case 12 => 0x32d86ce3 case 13 => 0x45df5c75 case 14 => 0xdcd60dcf case _ => 0xabd13d59
  }

  function Row3(k: byte): bv32
  {
    match k
    case 0 => 0x26d930ac case 1 => 0x51de003a case 2 => 0xc8d75180 case 3 => 0xbfd06116
    case 4 => 0x21b4f4b5 case 5 => 0x56b3c423 case 6 => 0xcfba9599 case 7 => 0xb8bda50f
    case 8 => 0x2802b89e case 9 => 0x5f058808 case 10 => 0xc60cd9b2 case 11 => 0xb10be924
    case 12 => 0x2f6f7c87 case 13 => 0x58684c11 case 14 => 0xc1611dab case _ => 0xb6662d3d
  }

  function Row4(k: byte): bv32
  {
    match k
    case 0 => 0x76dc4190 case 1 => 0x01db7106 case 2 => 0x98d220bc case 3 => 0xefd5102a
    case 4 => 0x71b18589 case 5 => 0x06b6b51f case 6 => 0x9fbfe4a5 case 7 => 0xe8b8d433
    case 8 => 0x7807c9a2 case 9 => 0x0f00f934 case 10 => 0x9609a88e case 11 => 0xe10e9818
    case 12 => 0x7f6a0dbb case 13 => 0x086d3d2d case 14 => 0x91646c97 case _ => 0xe6635c01
  }

  function Row5(k: byte): bv32
  {
    match k
    case 0 => 0x6b6b51f4 case 1 => 0x1c6c6162 case 2 => 0x856530d8 case 3 => 0xf262004e
    case 4 => 0x6c0695ed case 5 => 0x1b01a57b case 6 => 0x8208f4c1 case 7 => 0xf50fc457
    case 8 => 0x65b0d9c6 case 9 => 0x12b7e950 case 10 => 0x8bbeb8ea case 11 => 0xfcb9887c
    case 12 => 0x62dd1ddf case 13 => 0x15da2d49 case 14 => 0x8cd37cf3 case _ => 0xfbd44c65
  }

  function Row6(k: byte): bv32
  {
    match k
    case 0 => 0x4db26158 case 1 => 0x3ab551ce case 2 => 0xa3bc0074 case 3 => 0xd4bb30e2
    case 4 => 0x4adfa541 case 5 => 0x3dd895d7 case 6 => 0xa4d1c46d case 7 => 0xd3d6f4fb
    case 8 => 0x4369e96a case 9 => 0x346ed9fc case 10 => 0xad678846 case 11 => 0xda60b8d0
    case 12 => 0x44042d73 case 13 => 0x33031de5 case 14 => 0xaa0a4c5f case _ => 0xdd0d7cc9
  }

  function Row7(k: byte): bv32
  {
    match k
    case 0 => 0x5005713c case 1 => 0x270241aa case 2 => 0xbe0b1010 case 3 => 0xc90c2086
    case 4 => 0x5768b525 case 5 => 0x206f85b3 case 6 => 0xb966d409 case 7 => 0xce61e49f
    case 8 => 0x5edef90e case 9 => 0x29d9c998 case 10 => 0xb0d09822 case 11 => 0xc7d7a8b4
    case 12 => 0x59b33d17 case 13 => 0x2eb40d81 case 14 => 0xb7bd5c3b case _ => 0xc0ba6cad
  }

  function Row8(k: byte): bv32
  {
    match k
    case 0 => 0xedb88320 case 1 => 0x9abfb3b6 case 2 => 0x03b6e20c case 3 => 0x74b1d29a
    case 4 => 0xead54739 case 5 => 0x9dd277af case 6 => 0x04db2615 case 7 => 0x73dc1683
    case 8 => 0xe3630b12 case 9 => 0x94643b84 case 10 => 0x0d6d6a3e case 11 => 0x7a6a5aa8
    case 12 => 0xe40ecf0b case 13 => 0x9309ff9d case 14 => 0x0a00ae27 case _ => 0x7d079eb1
  }

  function Row9(k: byte): bv32
  {
    match k
    case 0 => 0xf00f9344 case 1 => 0x8708a3d2 case 2 => 0x1e01f268 case 3 => 0x6906c2fe
    case 4 => 0xf762575d case 5 => 0x806567cb case 6 => 0x196c3671 case 7 => 0x6e6b06e7
    case 8 => 0xfed41b76 case 9 => 0x89d32be0 case 10 => 0x10da7a5a case 11 => 0x67dd4acc
    case 12 => 0xf9b9df6f case 13 => 0x8ebeeff9 case 14 => 0x17b7be43 case _ => 0x60b08ed5
  }

  function Row10(k: byte): bv32
  {
    match k
    case 0 => 0xd6d6a3e8 case 1 => 0xa1d1937e case 2 => 0x38d8c2c4 case 3 => 0x4fdff252
    case 4 => 0xd1bb67f1 case 5 => 0xa6bc5767 case 6 => 0x3fb506dd case 7 => 0x48b2364b
    case 8 => 0xd80d2bda case 9 => 0xaf0a1b4c case 10 => 0x36034af6 case 11 => 0x41047a60
    case 12 => 0xdf60efc3 case 13 => 0xa867df55 case 14 => 0x316e8eef case _ => 0x4669be79
  }

  function Row11(k: byte): bv32
  {
    match k
    case 0 => 0xcb61b38c case 1 => 0xbc66831a case 2 => 0x256fd2a0 case 3 => 0x5268e236
    case 4 => 0xcc0c7795 case 5 => 0xbb0b4703 case 6 => 0x220216b9 case 7 => 0x5505262f
    case 8 => 0xc5ba3bbe case 9 => 0xb2bd0b28 case 10 => 0x2bb45a92 case 11 => 0x5cb36a04
    case 12 => 0xc2d7ffa7 case 13 => 0xb5d0cf31 case 14 => 0x2cd99e8b case _ => 0x5bdeae1d
  }

  function Row12(k: byte): bv32
  {
    match k
    case 0 => 0x9b64c2b0 case 1 => 0xec63f226 case 2 => 0x756aa39c case 3 => 0x026d930a
    case 4 => 0x9c0906a9 case 5 => 0xeb0e363f case 6 => 0x72076785 case 7 => 0x05005713
    case 8 => 0x95bf4a82 case 9 => 0xe2b87a14 case 10 => 0x7bb12bae case 11 => 0x0cb61b38
    case 12 => 0x92d28e9b case 13 => 0xe5d5be0d case 14 => 0x7cdcefb7 case _ => 0x0bdbdf21
  }

  function Row13(k: byte): bv32
  {
    match k
    case 0 => 0x86d3d2d4 case 1 => 0xf1d4e242 case 2 => 0x68ddb3f8 case 3 => 0x1fda836e
    case 4 => 0x81be16cd case 5 => 0xf6b9265b case 6 => 0x6fb077e1 case 7 => 0x18b74777
    case 8 => 0x88085ae6 case 9 => 0xff0f6a70 case 10 => 0x66063bca case 11 => 0x11010b5c
    case 12 => 0x8f659eff case 13 => 0xf862ae69 case 14 => 0x616bffd3 case _ => 0x166ccf45
  }

  function Row14(k: byte): bv32
  {
    match k
    case 0 => 0xa00ae278 case 1 => 0xd70dd2ee case 2 => 0x4e048354 case 3 => 0x3903b3c2
    case 4 => 0xa7672661 case 5 => 0xd06016f7 case 6 => 0x4969474d case 7 => 0x3e6e77db
    case 8 => 0xaed16a4a case 9 => 0xd9d65adc case 10 => 0x40df0b66 case 11 => 0x37d83bf0
    case 12 => 0xa9bcae53 case 13 => 0xdebb9ec5 case 14 => 0x47b2cf7f case _ => 0x30b5ffe9
  }

  function Row15(k: byte): bv32
  {
    match k
    case 0 => 0xbdbdf21c case 1 => 0xcabac28a case 2 => 0x53b39330 case 3 => 0x24b4a3a6
    case 4 => 0xbad03605 case 5 => 0xcdd70693 case 6 => 0x54de5729 case 7 => 0x23d967bf
    case 8 => 0xb3667a2e case 9 => 0xc4614ab8 case 10 => 0x5d681b02 case 11 => 0x2a6f2b94
    case 12 => 0xb40bbe37 case 13 => 0xc30c8ea1 case 14 => 0x5a05df1b case _ => 0x2d02ef8d
  }

  function CrcTable(n: byte): bv32
  {
    var k := n & 0x0f;
    match n >> 4
    case 0 => Row0(k) case 1 => Row1(k) case 2 => Row2(k) case 3 => Row3(k)
    case 4 => Row4(k) case 5 => Row5(k) case 6 => Row6(k) case 7 => Row7(k)
    case 8 => Row8(k) case 9 => Row9(k) case 10 => Row10(k) case 11 => Row11(k)
    case 12 => Row12(k) case 13 => Row13(k) case 14 => Row14(k) case _ => Row15(k)
  }

  // ----- the table holds the remainders of its indices

  function Bit(n: byte, mask: byte, v: bv32): bv32 { if n & mask == 0 then 0 else v }

  /** Division is linear, so a remainder is the sum of the remainders of the bits. */
  function Remainder(n: byte): bv32 { Sum(LowRemainder(n), HighRemainder(n)) }

  function LowRemainder(n: byte): bv32
  {
    Bit(n, 0x01, 0x77073096) ^ Bit(n, 0x02, 0xee0e612c) ^ Bit(n, 0x04, 0x076dc419) ^ Bit(n, 0x08, 0x0edb8832)
  }

  function HighRemainder(n: byte): bv32
  {
    Bit(n, 0x10, 0x1db71064) ^ Bit(n, 0x20, 0x3b6e20c8) ^ Bit(n, 0x40, 0x76dc4190) ^ Bit(n, 0x80, 0xedb88320)
  }

  lemma LowIsDivision(low: byte)
    requires low & 0xf0 == 0
    ensures Step8(low as bv32) == LowRemainder(low)
  {
  }

  lemma HighIsDivision(high: byte)
    requires high & 0x0f == 0
    ensures Step8(high as bv32) == HighRemainder(high)
  {
  }

  lemma Nibbles(n: byte)
    ensures n as bv32 == Sum((n & 0x0f) as bv32, (n & 0xf0) as bv32)
  {
  }

  lemma RemaindersOfNibbles(n: byte)
    ensures LowRemainder(n) == LowRemainder(n & 0x0f) && HighRemainder(n) == HighRemainder(n & 0xf0)
  {
  }

  lemma RemainderIsDivision(n: byte)
    ensures Step8(n as bv32) == Remainder(n)
  {
    hide Step8, LowRemainder, HighRemainder, Sum;
    var low, high := n & 0x0f, n & 0xf0;
    assert low & 0xf0 == 0 && high & 0x0f == 0;
    LowIsDivision(low);
    HighIsDivision(high);
    Nibbles(n);
    RemaindersOfNibbles(n);
    Step8Linear(low as bv32, high as bv32);
  }

  lemma Row0Linear(k: byte)
    requires k < 16
    ensures Row0(k) == Remainder(0x00 | k)
  {
  }

  lemma Row1Linear(k: byte)
    requires k < 16
    ensures Row1(k) == Remainder(0x10 | k)
  {
  }

  lemma Row2Linear(k: byte)
    requires k < 16
    ensures Row2(k) == Remainder(0x20 | k)
  {
  }

  lemma Row3Linear(k: byte)
    requires k < 16
    ensures Row3(k) == Remainder(0x30 | k)
  {
  }

  lemma Row4Linear(k: byte)
    requires k < 16
    ensures Row4(k) == Remainder(0x40 | k)
  {
  }

  lemma Row5Linear(k: byte)
    requires k < 16
    ensures Row5(k) == Remainder(0x50 | k)
  {
  }

  lemma Row6Linear(k: byte)
    requires k < 16
    ensures Row6(k) == Remainder(0x60 | k)
  {
  }

  lemma Row7Linear(k: byte)
    requires k < 16
    ensures Row7(k) == Remainder(0x70 | k)
  {
  }

  lemma Row8Linear(k: byte)
    requires k < 16
    ensures Row8(k) == Remainder(0x80 | k)
  {
  }

  lemma Row9Linear(k: byte)
    requires k < 16
    ensures Row9(k) == Remainder(0x90 | k)
  {
  }

  lemma Row10Linear(k: byte)
    requires k < 16
    ensures Row10(k) == Remainder(0xa0 | k)
  {
  }

  lemma Row11Linear(k: byte)
    requires k < 16
    ensures Row11(k) == Remainder(0xb0 | k)
  {
  }

  lemma Row12Linear(k: byte)
    requires k < 16
    ensures Row12(k) == Remainder(0xc0 | k)
  {
  }

  lemma Row13Linear(k: byte)
    requires k < 16
    ensures Row13(k) == Remainder(0xd0 | k)
  {
  }

  lemma Row14Linear(k: byte)
    requires k < 16
    ensures Row14(k) == Remainder(0xe0 | k)
  {
  }

  lemma Row15Linear(k: byte)
    requires k < 16
    ensures Row15(k) == Remainder(0xf0 | k)
  {
  }

  lemma TableIsDivision(n: byte)
    ensures CrcTable(n) == Step8(n as bv32)
  {
    hide Step8, Remainder;
    hide Row0, Row1, Row2, Row3, Row4, Row5, Row6, Row7, Row8, Row9, Row10, Row11, Row12, Row13, Row14, Row15;
    RemainderIsDivision(n);
    var k := n & 0x0f;
    match n >> 4 {
      case 0 => Row0Linear(k); assert 0x00 | k == n;
      case 1 => Row1Linear(k); assert 0x10 | k == n;
      case 2 => Row2Linear(k); assert 0x20 | k == n;
      case 3 => Row3Linear(k); assert 0x30 | k == n;
      case 4 => Row4Linear(k); assert 0x40 | k == n;
      case 5 => Row5Linear(k); assert 0x50 | k == n;
      case 6 => Row6Linear(k); assert 0x60 | k == n;
      case 7 => Row7Linear(k); assert 0x70 | k == n;
      case 8 => Row8Linear(k); assert 0x80 | k == n;
      case 9 => Row9Linear(k); assert 0x90 | k == n;
      case 10 => Row10Linear(k); assert 0xa0 | k == n;
      case 11 => Row11Linear(k); assert 0xb0 | k == n;
      case 12 => Row12Linear(k); assert 0xc0 | k == n;
      case 13 => Row13Linear(k); assert 0xd0 | k == n;
      case 14 => Row14Linear(k); assert 0xe0 | k == n;
      case _ => Row15Linear(k); assert 0xf0 | k == n;
    }
  }

  // ----- the code

  lemma SumZero(x: bv32)
    ensures Sum(x, 0) == x && Sum(0, x) == x && Sum(x, x) == 0
  {
  }

  lemma SumOfSums(w: bv32, x: bv32, y: bv32, z: bv32)
    ensures Sum(Sum(w, x), Sum(y, z)) == Sum(Sum(w, y), Sum(x, z))
  {
    assert Sum(w ^ x, y ^ z) == Sum(w ^ y, x ^ z);
  }

  function Half(c: bv32): bv32 { c >> 1 }

  /** What is subtracted when a bit is divided out. */
  function Subtrahend(c: bv32): bv32 { if LowBit(c) then 0xedb88320 else 0 }

  function LowBit(w: bv32): bool { w & 1 == 1 }

  lemma StepOfOdd(c: bv32)
    requires LowBit(c)
    ensures Step(c) == Sum(0xedb88320, Half(c))
  {
  }

  lemma StepOfEven(c: bv32)
    requires !LowBit(c)
    ensures Step(c) == Sum(0, Half(c))
  {
    assert 0 ^ (c >> 1) == c >> 1;
  }

  lemma StepIsSum(c: bv32)
    ensures Step(c) == Sum(Subtrahend(c), Half(c))
  {
    hide Step, Sum, Half, LowBit;
    if LowBit(c) {
      StepOfOdd(c);
    } else {
      StepOfEven(c);
    }
  }

  lemma HalfLinear(x: bv32, y: bv32)
    ensures Half(Sum(x, y)) == Sum(Half(x), Half(y))
  {
  }

  lemma LowBitLinear(x: bv32, y: bv32)
    ensures LowBit(Sum(x, y)) == (LowBit(x) != LowBit(y))
  {
  }

  lemma StepLinear(x: bv32, y: bv32)
    ensures Step(Sum(x, y)) == Sum(Step(x), Step(y))
  {
    hide Step, Sum, Half, LowBit;
    StepIsSum(x);
    StepIsSum(y);
    StepIsSum(Sum(x, y));
    HalfLinear(x, y);
    LowBitLinear(x, y);
    SumOfSums(Subtrahend(x), Half(x), Subtrahend(y), Half(y));
    SumZero(0);
    SumZero(0xedb88320);
  }

  lemma Step8Linear(x: bv32, y: bv32)
    ensures Step8(Sum(x, y)) == Sum(Step8(x), Step8(y))
  {
    hide Step, Sum;
    StepLinear(x, y);
    var x1, y1 := Step(x), Step(y);
    StepLinear(x1, y1);
    var x2, y2 := Step(x1), Step(y1);
    StepLinear(x2, y2);
    var x3, y3 := Step(x2), Step(y2);
    StepLinear(x3, y3);
    var x4, y4 := Step(x3), Step(y3);
    StepLinear(x4, y4);
    var x5, y5 := Step(x4), Step(y4);
    StepLinear(x5, y5);
    var x6, y6 := Step(x5), Step(y5);
    StepLinear(x6, y6);
    var x7, y7 := Step(x6), Step(y6);
    StepLinear(x7, y7);
  }

  function LowByte(c: bv32): byte { (c & 0xff) as byte }
  function HighPart(c: bv32): bv32 { c & 0xffff_ff00 }
  function Down(c: bv32): bv32 { c >> 8 }

  /** The step of the code: the table looks after the low byte, the rest of the register moves down. */
  function TableFeed(c: bv32, b: byte): bv32 { Sum(CrcTable(LowByte(Sum(c, b as bv32))), Down(c)) }

  lemma FeedByTable(c: bv32, b: byte)
    ensures Feed(c, b) == TableFeed(c, b)
  {
    hide Step8, CrcTable, Sum, LowByte, HighPart, Down;
    var x := Sum(c, b as bv32);
    LowAndHigh(c, b);
    Step8Linear(LowByte(x) as bv32, HighPart(x));
    TableIsDivision(LowByte(x));
    HighDivided(x);
  }

  /** With nothing in the low byte, dividing a byte out only moves the register down. */
  lemma HighDivided(x: bv32)
    ensures Step8(HighPart(x)) == Down(x)
  {
  }

  lemma LowAndHigh(c: bv32, b: byte)
    ensures var x := Sum(c, b as bv32);
      Sum(LowByte(x) as bv32, HighPart(x)) == x && Down(x) == Down(c)
  {
  }

  /** bk_crc32. */
  method Crc32(crc: bv32, buf: seq<byte>) returns (c: bv32)
    ensures c == Bitwise(crc, buf)
  {
    hide Feed, CrcTable, Sum;
    c := crc;
    for n := 0 to |buf|
      invariant c == Bitwise(crc, buf[..n])
    {
      assert buf[..n + 1][..n] == buf[..n];
      FeedByTable(c, buf[n]);
      c := TableFeed(c, buf[n]);
    }
    assert buf[..|buf|] == buf;
  }

  /** gen_crc_table: what the code would fill the table with is the table it has. */
  method GenCrcTable() returns (table: array<bv32>)
    ensures fresh(table) && table.Length == 256
    ensures forall i: nat :: i < 256 ==> table[i] == CrcTable(i as byte)
  {
    hide Step8, CrcTable;
    table := new bv32[256];
    for n := 0 to 256
      invariant forall i: nat :: i < n ==> table[i] == CrcTable(i as byte)
    {
      var c := n as bv32;
      ghost var start := c;
      for k := 0 to 8
        invariant c == Steps(start, k)
      {
        c := if c & 1 == 1 then 0xedb88320 ^ (c >> 1) else c >> 1;
      }
      EightSteps(start);
      TableIsDivision(n as byte);
      assert (n as byte) as bv32 == n as bv32;
      table[n] := c;
    }
  }

  function Steps(c: bv32, n: nat): bv32
  {
    if n == 0 then c else Step(Steps(c, n - 1))
  }

  lemma EightSteps(c: bv32)
    ensures Steps(c, 8) == Step8(c)
  {
    hide Step;
    assert Steps(c, 0) == c;
    assert Steps(c, 1) == Step(c);
    assert Steps(c, 2) == Step(Step(c));
    assert Steps(c, 3) == Step(Step(Step(c)));
    assert Steps(c, 4) == Step(Step(Step(Step(c))));
    assert Steps(c, 5) == Step(Step(Step(Step(Step(c)))));
    assert Steps(c, 6) == Step(Step(Step(Step(Step(Step(c))))));
    assert Steps(c, 7) == Step(Step(Step(Step(Step(Step(Step(c)))))));
  }

  /** Continuing from the checksum of `a` with `b` gives the checksum of both. */
  lemma {:induction false} BitwiseConcat(crc: bv32, a: seq<byte>, b: seq<byte>)
    ensures Bitwise(Bitwise(crc, a), b) == Bitwise(crc, a + b)
  {
    hide Feed;
    if b == [] {
      assert a + b == a;
    } else {
      assert (a + b)[..|a + b| - 1] == a + b[..|b| - 1];
      BitwiseConcat(crc, a, b[..|b| - 1]);
    }
  }

  // ----- burst errors

  function OneBit(b: bool): bv32 { if b then 1 else 0 }

  /** The register after each bit has been added to its low end and divided out. */
  function CrcBits(c: bv32, bits: seq<bool>): bv32
  {
    if bits == [] then c else Step(Sum(CrcBits(c, bits[..|bits| - 1]), OneBit(bits[|bits| - 1])))
  }

  function BitAt(b: byte, i: nat): bool
    requires i < 8
  {
    (b >> i) & 1 == 1
  }

  /** The bits of a buffer, the least significant bit of each byte first. */
  function Bits(data: seq<byte>): (bits: seq<bool>)
    ensures |bits| == 8 * |data|
  {
    seq(8 * |data|, i requires 0 <= i < 8 * |data| => BitAt(data[i / 8], i % 8))
  }

  lemma StepInjective(x: bv32, y: bv32)
    requires Step(x) == Step(y)
    ensures x == y
  {
  }

  lemma SumTwice(x: bv32, y: bv32)
    ensures Sum(Sum(x, y), y) == x
  {
  }

  lemma SumCancels(x: bv32, y: bv32, z: bv32)
    ensures Sum(x, z) == Sum(y, z) ==> x == y
    ensures Sum(x, y) == 0 <==> x == y
  {
    hide Sum;
    SumTwice(x, z);
    SumTwice(y, z);
    SumTwice(x, y);
    SumZero(x);
    SumZero(y);
  }

  /** Over the same bits, different registers stay different. */
  lemma {:induction false} CrcBitsInjective(c: bv32, d: bv32, bits: seq<bool>)
    requires CrcBits(c, bits) == CrcBits(d, bits)
    ensures c == d
  {
    hide Step, Sum, OneBit;
    if bits != [] {
      var init, last := bits[..|bits| - 1], OneBit(bits[|bits| - 1]);
      StepInjective(Sum(CrcBits(c, init), last), Sum(CrcBits(d, init), last));
      SumCancels(CrcBits(c, init), CrcBits(d, init), last);
      CrcBitsInjective(c, d, init);
    }
  }

  lemma {:induction false} CrcBitsConcat(c: bv32, a: seq<bool>, b: seq<bool>)
    ensures CrcBits(CrcBits(c, a), b) == CrcBits(c, a + b)
  {
    hide Step, Sum, OneBit;
    if b == [] {
      assert a + b == a;
    } else {
      assert (a + b)[..|a + b| - 1] == a + b[..|b| - 1];
      CrcBitsConcat(c, a, b[..|b| - 1]);
    }
  }

  /** The bits in which two sequences differ. */
  function Difference(a: seq<bool>, b: seq<bool>): (d: seq<bool>)
    requires |a| == |b|
    ensures |d| == |a|
  {
    seq(|a|, i requires 0 <= i < |a| => a[i] != b[i])
  }

  lemma OneBitDifference(a: bool, b: bool)
    ensures Sum(OneBit(a), OneBit(b)) == OneBit(a != b)
  {
  }

  /** Division is linear, so the two checksums differ by the checksum of the difference. */
  lemma {:induction false} CrcBitsLinear(c: bv32, a: seq<bool>, b: seq<bool>)
    requires |a| == |b|
    ensures Sum(CrcBits(c, a), CrcBits(c, b)) == CrcBits(0, Difference(a, b))
  {
    hide Step, Sum, OneBit;
    var n := |a|;
    if n == 0 {
      SumZero(c);
    } else {
      var a', b', x, y := a[..n - 1], b[..n - 1], OneBit(a[n - 1]), OneBit(b[n - 1]);
      CrcBitsLinear(c, a', b');
      assert Difference(a, b)[..n - 1] == Difference(a', b');
      var p, q := CrcBits(c, a'), CrcBits(c, b');
      StepLinear(Sum(p, x), Sum(q, y));
      SumOfSums(p, x, q, y);
      OneBitDifference(a[n - 1], b[n - 1]);
    }
  }

  /** The register in which only bit `k` is set. */
  function Power(k: nat): bv32
  {
    if k == 0 then 1 else Power(k - 1) << 1
  }

  function Both(x: bv32, y: bv32): bv32 { x & y }

  lemma {:induction false} PowersDisjoint(i: nat, j: nat)
    requires i < j
    ensures Both(Power(i), Power(j)) == 0
  {
    if i == 0 {
      LowBitClear(Power(j - 1));
    } else {
      PowersDisjoint(i - 1, j - 1);
      ShiftDisjoint(Power(i - 1), Power(j - 1));
    }
  }

  lemma LowBitClear(x: bv32)
    ensures Both(1, x << 1) == 0
  {
  }

  lemma ShiftDisjoint(x: bv32, y: bv32)
    requires Both(x, y) == 0
    ensures Both(x << 1, y << 1) == 0
  {
  }

  lemma TopPower()
    ensures Power(31) == 0x8000_0000
  {
    assert Power(8) == 0x100;
    assert Power(16) == 0x1_0000;
    assert Power(24) == 0x100_0000;
  }

  lemma {:induction false} PowerNonzero(k: nat)
    requires k <= 31
    ensures Power(k) != 0
    decreases 31 - k
  {
    if k == 31 {
      TopPower();
    } else {
      PowerNonzero(k + 1);
    }
  }

  lemma StepOfPower(k: nat)
    requires 1 <= k <= 31
    ensures Step(Power(k)) == Power(k - 1)
  {
    PowersDisjoint(k - 1, 31);
    TopPower();
    ShiftBack(Power(k - 1));
  }

  lemma ShiftBack(x: bv32)
    requires Both(x, 0x8000_0000) == 0
    ensures Step(x << 1) == x
  {
  }

  lemma {:induction false} StepsFirst(c: bv32, n: nat)
    ensures Steps(Step(c), n) == Steps(c, n + 1)
  {
    hide Step;
    if n > 0 {
      StepsFirst(c, n - 1);
    }
  }

  lemma {:induction false} StepsOfPower(k: nat)
    requires k <= 31
    ensures Steps(Power(k), k) == 1
  {
    hide Step, Power;
    if k == 0 {
      assert Power(0) == 1 by { FirstPower(); }
    } else {
      StepOfPower(k);
      StepsFirst(Power(k), k - 1);
      StepsOfPower(k - 1);
    }
  }

  lemma FirstPower()
    ensures Power(0) == 1
  {
  }

  lemma {:induction false} StepsLinear(x: bv32, y: bv32, n: nat)
    ensures Steps(Sum(x, y), n) == Sum(Steps(x, n), Steps(y, n))
  {
    hide Step, Sum;
    if n > 0 {
      StepsLinear(x, y, n - 1);
      StepLinear(Steps(x, n - 1), Steps(y, n - 1));
    }
  }

  function Chosen(b: bool, k: nat): bv32 { if b then Power(k) else 0 }

  /** The bits side by side in one register. */
  function Packed(bits: seq<bool>): bv32
  {
    if bits == [] then 0
    else Sum(Packed(bits[..|bits| - 1]), Chosen(bits[|bits| - 1], |bits| - 1))
  }

  /** Up to 32 bits fed one by one act like one word fed at once. */
  lemma {:induction false} CrcOfPacked(bits: seq<bool>)
    requires |bits| <= 32
    ensures CrcBits(0, bits) == Steps(Packed(bits), |bits|)
  {
    hide Step, Sum, Chosen, OneBit, Steps;
    var n := |bits|;
    if n == 0 {
      NoSteps(0);
    } else {
      var init, last := bits[..n - 1], bits[n - 1];
      CrcOfPacked(init);
      ChosenSteps(last, n - 1);
      StepsLinear(Packed(init), Chosen(last, n - 1), n - 1);
      OneMoreStep(Packed(bits), n - 1);
    }
  }

  lemma NoSteps(c: bv32)
    ensures Steps(c, 0) == c
  {
  }

  lemma OneMoreStep(c: bv32, n: nat)
    ensures Steps(c, n + 1) == Step(Steps(c, n))
  {
  }

  lemma {:induction false} ZeroSteps(n: nat)
    ensures Steps(0, n) == 0
  {
    if n > 0 {
      ZeroSteps(n - 1);
      assert Step(0) == 0;
    }
  }

  lemma ChosenSteps(b: bool, k: nat)
    requires k <= 31
    ensures Steps(Chosen(b, k), k) == OneBit(b)
  {
    hide Step, Steps, Power;
    StepsOfPower(k);
    ZeroSteps(k);
  }

  /** Bit `i` of the packed register is bit `i` of the sequence. */
  lemma {:induction false} PackedBit(bits: seq<bool>, i: nat)
    requires |bits| <= 32 && i < 32
    ensures Both(Packed(bits), Power(i)) != 0 <==> i < |bits| && bits[i]
  {
    hide Power, Both, Chosen, Sum;
    var n := |bits|;
    BothLaws(Power(i), 0);
    if n > 0 {
      PackedBit(bits[..n - 1], i);
      ChosenBit(bits[n - 1], n - 1, i);
      BothOfSum(Packed(bits[..n - 1]), Chosen(bits[n - 1], n - 1), Power(i));
      SumZero(Both(Packed(bits[..n - 1]), Power(i)));
      SumZero(Both(Chosen(bits[n - 1], n - 1), Power(i)));
      PowerNonzero(i);
    }
  }

  lemma BothLaws(x: bv32, y: bv32)
    ensures Both(x, x) == x && Both(x, y) == Both(y, x) && Both(0, x) == 0
  {
  }

  lemma BothOfSum(x: bv32, y: bv32, m: bv32)
    ensures Both(Sum(x, y), m) == Sum(Both(x, m), Both(y, m))
  {
    assert Both(x ^ y, m) == Sum(x & m, y & m);
  }

  lemma ChosenBit(b: bool, k: nat, i: nat)
    requires k <= 31 && i <= 31
    ensures Both(Chosen(b, k), Power(i)) == if b && k == i then Power(i) else 0
  {
    hide Power, Both;
    BothLaws(Power(i), Power(k));
    if k < i {
      PowersDisjoint(k, i);
    } else if i < k {
      PowersDisjoint(i, k);
    }
  }

  lemma {:induction false} StepsToZero(c: bv32, n: nat)
    requires Steps(c, n) == 0
    ensures c == 0
  {
    if n > 0 {
      StepInjective(Steps(c, n - 1), 0);
      StepsToZero(c, n - 1);
    }
  }

  /** Two different sequences of up to 32 bits, from the same register, lead to different registers. */
  lemma BurstBits(c: bv32, a: seq<bool>, b: seq<bool>)
    requires |a| == |b| <= 32 && a != b
    ensures CrcBits(c, a) != CrcBits(c, b)
  {
    hide CrcBits, Packed, Sum, Steps, Both, Power;
    var d := Difference(a, b);
    CrcBitsLinear(c, a, b);
    SumCancels(CrcBits(c, a), CrcBits(c, b), 0);
    CrcOfPacked(d);
    var i :| 0 <= i < |a| && a[i] != b[i];
    PackedBit(d, i);
    BothLaws(Power(i), 0);
    if CrcBits(c, a) == CrcBits(c, b) {
      StepsToZero(Packed(d), |d|);
    }
  }

  // ----- bytes as bits

  function Halved(w: bv32, n: nat): bv32
  {
    if n == 0 then w else Half(Halved(w, n - 1))
  }

  /** A word in the register steps like its lowest bit, with the other bits moved down. */
  lemma PeelBit(c: bv32, w: bv32)
    ensures Step(Sum(c, w)) == Sum(Step(Sum(c, OneBit(LowBit(w)))), Half(w))
  {
    var low, high := OneBit(LowBit(w)), w & 0xffff_fffe;
    assert Sum(low, high) == w;
    assert Step(high) == w >> 1;
    SumAssociates(c, low, high);
    StepLinear(Sum(c, low), high);
  }

  lemma SumAssociates(x: bv32, y: bv32, z: bv32)
    ensures Sum(x, Sum(y, z)) == Sum(Sum(x, y), z)
  {
    assert Sum(x, y ^ z) == Sum(x ^ y, z);
  }

  lemma {:induction false} PeelBits(c: bv32, w: bv32, bits: seq<bool>)
    requires forall i: nat :: i < |bits| ==> bits[i] == LowBit(Halved(w, i))
    ensures Steps(Sum(c, w), |bits|) == Sum(CrcBits(c, bits), Halved(w, |bits|))
  {
    hide Step, Sum, OneBit, LowBit, Half;
    var n := |bits|;
    if n > 0 {
      PeelBits(c, w, bits[..n - 1]);
      PeelBit(CrcBits(c, bits[..n - 1]), Halved(w, n - 1));
    }
  }

  lemma HalfOfShift(w: bv32)
    ensures Half(w) == w >> 1 && Half(w >> 1) == w >> 2 && Half(w >> 2) == w >> 3 && Half(w >> 3) == w >> 4
    ensures Half(w >> 4) == w >> 5 && Half(w >> 5) == w >> 6 && Half(w >> 6) == w >> 7 && Half(w >> 7) == w >> 8
  {
  }

  lemma {:induction false} HalvedIsShift(w: bv32, n: nat)
    requires n <= 8
    ensures Halved(w, n) == Shifted(w, n)
  {
    hide Half;
    if n > 0 {
      HalvedIsShift(w, n - 1);
      HalfOfShift(w);
    }
  }

  /** The shifts of a word by up to eight bits, written out. */
  function Shifted(w: bv32, n: nat): bv32
  {
    match n
    case 0 => w case 1 => w >> 1 case 2 => w >> 2 case 3 => w >> 3 case 4 => w >> 4
    case 5 => w >> 5 case 6 => w >> 6 case 7 => w >> 7 case _ => w >> 8
  }

  lemma ByteHalved(b: byte)
    ensures forall i: nat :: i < 8 ==> BitAt(b, i) == LowBit(Halved(b as bv32, i))
    ensures Halved(b as bv32, 8) == 0
  {
    hide Halved;
    var w := b as bv32;
    forall i: nat | i < 8 ensures BitAt(b, i) == LowBit(Halved(w, i)) {
      HalvedIsShift(w, i);
      ShiftedBit(b, i);
    }
    HalvedIsShift(w, 8);
  }

  lemma ShiftedBit(b: byte, i: nat)
    requires i < 8
    ensures BitAt(b, i) == LowBit(Shifted(b as bv32, i))
  {
    var w := b as bv32;
    assert BitAt(b, 0) == LowBit(w) && BitAt(b, 1) == LowBit(w >> 1);
    assert BitAt(b, 2) == LowBit(w >> 2) && BitAt(b, 3) == LowBit(w >> 3);
    assert BitAt(b, 4) == LowBit(w >> 4) && BitAt(b, 5) == LowBit(w >> 5);
    assert BitAt(b, 6) == LowBit(w >> 6) && BitAt(b, 7) == LowBit(w >> 7);
  }

  /** One byte fed at once is its eight bits fed one by one. */
  lemma FeedIsBits(c: bv32, b: byte)
    ensures Feed(c, b) == CrcBits(c, Bits([b]))
  {
    hide Step, Sum, BitAt, LowBit, Halved, CrcBits, Steps, Step8;
    var bits, w := Bits([b]), b as bv32;
    ByteHalved(b);
    forall i: nat | i < 8 ensures bits[i] == LowBit(Halved(w, i)) {
      assert i / 8 == 0 && i % 8 == i;
    }
    PeelBits(c, w, bits);
    EightSteps(Sum(c, w));
    SumZero(CrcBits(c, bits));
  }

  lemma {:induction false} BitwiseIsBits(c: bv32, data: seq<byte>)
    ensures Bitwise(c, data) == CrcBits(c, Bits(data))
  {
    hide Feed, CrcBits;
    if data == [] {
      assert CrcBits(c, []) == c by { NoBits(c); }
    } else {
      var init, last := data[..|data| - 1], data[|data| - 1];
      BitwiseIsBits(c, init);
      FeedIsBits(Bitwise(c, init), last);
      CrcBitsConcat(c, Bits(init), Bits([last]));
      BitsConcat(init, [last]);
      assert init + [last] == data;
    }
  }

  lemma NoBits(c: bv32)
    ensures CrcBits(c, []) == c
  {
  }

  lemma BitsConcat(a: seq<byte>, b: seq<byte>)
    ensures Bits(a + b) == Bits(a) + Bits(b)
  {
  }

  lemma BitsDetermineByte(x: byte, y: byte)
    requires forall k: nat :: k < 8 ==> BitAt(x, k) == BitAt(y, k)
    ensures x == y
  {
    assert BitAt(x, 0) == BitAt(y, 0) && BitAt(x, 1) == BitAt(y, 1) && BitAt(x, 2) == BitAt(y, 2);
    assert BitAt(x, 3) == BitAt(y, 3) && BitAt(x, 4) == BitAt(y, 4) && BitAt(x, 5) == BitAt(y, 5);
    assert BitAt(x, 6) == BitAt(y, 6) && BitAt(x, 7) == BitAt(y, 7);
  }

  lemma BitsInjective(a: seq<byte>, b: seq<byte>)
    requires Bits(a) == Bits(b)
    ensures a == b
  {
    hide BitAt;
    forall i | 0 <= i < |a| ensures a[i] == b[i] {
      forall k: nat | k < 8 ensures BitAt(a[i], k) == BitAt(b[i], k) {
        assert (8 * i + k) / 8 == i && (8 * i + k) % 8 == k;
        assert Bits(a)[8 * i + k] == Bits(b)[8 * i + k];
      }
      BitsDetermineByte(a[i], b[i]);
    }
  }

  lemma BurstInContext(c: bv32, before: seq<bool>, a: seq<bool>, b: seq<bool>, after: seq<bool>)
    requires |a| == |b| <= 32 && a != b
    ensures CrcBits(c, before + a + after) != CrcBits(c, before + b + after)
  {
    hide CrcBits;
    var d := CrcBits(c, before);
    CrcBitsConcat(c, before, a);
    CrcBitsConcat(c, before, b);
    CrcBitsConcat(c, before + a, after);
    CrcBitsConcat(c, before + b, after);
    BurstBits(d, a, b);
    if CrcBits(CrcBits(d, a), after) == CrcBits(CrcBits(d, b), after) {
      CrcBitsInjective(CrcBits(d, a), CrcBits(d, b), after);
    }
  }

  /** Two sequences that agree outside [lo, hi) are the same before and after it. */
  lemma SplitAt(x: seq<bool>, y: seq<bool>, lo: nat, hi: nat)
    requires |x| == |y| && lo <= hi <= |x|
    requires forall j :: 0 <= j < |x| && !(lo <= j < hi) ==> x[j] == y[j]
    ensures x == x[..lo] + x[lo..hi] + x[hi..] && y == x[..lo] + y[lo..hi] + x[hi..]
  {
  }

  /**
    Every burst error of up to 32 bits is detected: two different buffers of equal length whose
    bits agree outside some 32 consecutive ones have different checksums, from any start.
  */
  lemma BurstDetected(crc: bv32, a: seq<byte>, b: seq<byte>, i: nat)
    requires |a| == |b| && a != b
    requires forall j :: 0 <= j < 8 * |a| && !(i <= j < i + 32) ==> Bits(a)[j] == Bits(b)[j]
    ensures Bitwise(crc, a) != Bitwise(crc, b)
  {
    hide Bits, CrcBits, Bitwise;
    BitwiseIsBits(crc, a);
    BitwiseIsBits(crc, b);
    var n, x, y := 8 * |a|, Bits(a), Bits(b);
    if x == y {
      BitsInjective(a, b);
    }
    var lo := if i < n then i else n;
    var hi := if i + 32 < n then i + 32 else n;
    SplitAt(x, y, lo, hi);
    BurstInContext(crc, x[..lo], x[lo..hi], y[lo..hi], x[hi..]);
  }

  /** The bound is tight: the generator polynomial itself, 33 bits long, is not detected. */
  lemma LongerBurstUndetected()
    ensures Bitwise(0, [0x41, 0x06, 0x71, 0xdb, 0x01]) == Bitwise(0, [0, 0, 0, 0, 0])
  {
    hide Feed, Bitwise;
    FeedGenerator();
    BitwiseFive(0, 0x41, 0x06, 0x71, 0xdb, 0x01);
    BitwiseFive(0, 0, 0, 0, 0, 0);
  }

  /** The two buffers have the same bits outside `w` consecutive ones. */
  ghost predicate AgreeOutside(a: seq<byte>, b: seq<byte>, i: nat, w: nat)
  {
    |a| == |b| && forall j :: 0 <= j < 8 * |a| && !(i <= j < i + w) ==> Bits(a)[j] == Bits(b)[j]
  }

  /** Every burst error of up to `w` bits is detected. */
  ghost predicate DetectsBursts(w: nat)
  {
    forall crc, a, b, i: nat :: AgreeOutside(a, b, i, w) && a != b ==> Bitwise(crc, a) != Bitwise(crc, b)
  }

  /** 32 bits is exactly how far the guarantee goes. */
  lemma BurstExactly(w: nat)
    ensures DetectsBursts(w) <==> w <= 32
  {
    hide Bits, Bitwise;
    if w <= 32 {
      forall crc, a, b, i: nat | AgreeOutside(a, b, i, w) && a != b ensures Bitwise(crc, a) != Bitwise(crc, b) {
        BurstDetected(crc, a, b, i);
      }
    } else {
      var a: seq<byte>, b: seq<byte> := [0x41, 0x06, 0x71, 0xdb, 0x01], [0, 0, 0, 0, 0];
      LongerBurstUndetected();
      LongerBurstWidth();
      assert a[0] != b[0] && AgreeOutside(a, b, 0, w);
    }
  }

  lemma LongerBurstWidth()
    ensures AgreeOutside([0x41, 0x06, 0x71, 0xdb, 0x01], [0, 0, 0, 0, 0], 0, 33)
  {
    var a: seq<byte>, b: seq<byte> := [0x41, 0x06, 0x71, 0xdb, 0x01], [0, 0, 0, 0, 0];
    forall j: nat | 33 <= j < 40 ensures Bits(a)[j] == Bits(b)[j] {
      assert j / 8 == 4 && 1 <= j % 8 < 8;
      HighBitsClear(j % 8);
    }
  }

  lemma HighBitsClear(k: nat)
    requires 1 <= k < 8
    ensures BitAt(0x01, k) == BitAt(0, k)
  {
    assert k == 1 || k == 2 || k == 3 || k == 4 || k == 5 || k == 6 || k == 7;
  }

  lemma BitwiseFive(c: bv32, v: byte, w: byte, x: byte, y: byte, z: byte)
    ensures Bitwise(c, [v, w, x, y, z]) == Feed(Feed(Feed(Feed(Feed(c, v), w), x), y), z)
  {
    hide Feed, Bitwise;
    NoBytes(c);
    OneMoreByte(c, [], v);
    OneMoreByte(c, [v], w);
    OneMoreByte(c, [v, w], x);
    OneMoreByte(c, [v, w, x], y);
    OneMoreByte(c, [v, w, x, y], z);
    assert [] + [v] == [v] && [v] + [w] == [v, w] && [v, w] + [x] == [v, w, x];
    assert [v, w, x] + [y] == [v, w, x, y] && [v, w, x, y] + [z] == [v, w, x, y, z];
  }

  lemma NoBytes(c: bv32)
    ensures Bitwise(c, []) == c
  {
  }

  lemma OneMoreByte(c: bv32, data: seq<byte>, b: byte)
    ensures Bitwise(c, data + [b]) == Feed(Bitwise(c, data), b)
  {
  }

  lemma FeedGenerator()
    ensures Feed(0, 0) == 0
    ensures Feed(0x0, 0x41) == 0x1db7106
    ensures Feed(0x1db7106, 0x06) == 0x1db71
    ensures Feed(0x1db71, 0x71) == 0x1db
    ensures Feed(0x1db, 0xdb) == 0x1
    ensures Feed(0x1, 0x01) == 0x0
  {
  }

  // ----- the published check value

  lemma CheckFeeds()
    ensures Feed(0xffffffff, 0x31) == 0x7c231048
    ensures Feed(0x7c231048, 0x32) == 0xb0acbb32
    ensures Feed(0xb0acbb32, 0x33) == 0x77b79c2d
    ensures Feed(0x77b79c2d, 0x34) == 0x641c1f5c
    ensures Feed(0x641c1f5c, 0x35) == 0x340ac5e3
    ensures Feed(0x340ac5e3, 0x36) == 0xf68d2c9e
    ensures Feed(0xf68d2c9e, 0x37) == 0xaffc9660
    ensures Feed(0xaffc9660, 0x38) == 0x651f2550
    ensures Feed(0x651f2550, 0x39) == 0x340bc6d9
  {
  }

  /** The nine digits, with the two complements that RFC 1952 puts around them, give 0xcbf43926. */
  lemma CheckValue()
    ensures !Bitwise(0xffff_ffff, [0x31, 0x32, 0x33, 0x34, 0x35, 0x36, 0x37, 0x38, 0x39]) == 0xcbf43926
  {
    hide Feed;
    CheckFeeds();
    var d: seq<byte> := [0x31, 0x32, 0x33, 0x34, 0x35, 0x36, 0x37, 0x38, 0x39];
    assert d[..9] == d;
    assert Bitwise(0xffff_ffff, d[..0]) == 0xffffffff;
    FeedOne(0xffff_ffff, d, 0, 0xffffffff);
    FeedOne(0xffff_ffff, d, 1, 0x7c231048);
    FeedOne(0xffff_ffff, d, 2, 0xb0acbb32);
    FeedOne(0xffff_ffff, d, 3, 0x77b79c2d);
    FeedOne(0xffff_ffff, d, 4, 0x641c1f5c);
    FeedOne(0xffff_ffff, d, 5, 0x340ac5e3);
    FeedOne(0xffff_ffff, d, 6, 0xf68d2c9e);
    FeedOne(0xffff_ffff, d, 7, 0xaffc9660);
    FeedOne(0xffff_ffff, d, 8, 0x651f2550);
  }

  lemma FeedOne(crc: bv32, d: seq<byte>, n: nat, c: bv32)
    requires n < |d| && Bitwise(crc, d[..n]) == c
    ensures Bitwise(crc, d[..n + 1]) == Feed(c, d[n])
  {
    hide Feed;
    assert d[..n + 1][..n] == d[..n];
  }
}
