/**
 The checksum in numbers: what fixes its start, its final complement and the order of bits
 and bytes.
 */
module CrcValues {
  import opened Wrappers
  import opened Crc32
  import opened Checksum

  // ----- words in hexadecimal, the lowest digit first

  function HexBits(digits: seq<nat>): (r: Bits)
    ensures |r| == 4 * |digits|
  {
    if digits == [] then [] else Nibble(digits[0]) + HexBits(digits[1..])
  }

  predicate XorNibbles(a: nat, b: nat, c: nat) {
    && (c % 2 == 1) == ((a % 2 == 1) != (b % 2 == 1))
    && (c / 2 % 2 == 1) == ((a / 2 % 2 == 1) != (b / 2 % 2 == 1))
    && (c / 4 % 2 == 1) == ((a / 4 % 2 == 1) != (b / 4 % 2 == 1))
    && (c / 8 % 2 == 1) == ((a / 8 % 2 == 1) != (b / 8 % 2 == 1))
  }

  predicate XorDigits(a: seq<nat>, b: seq<nat>, c: seq<nat>) {
    |a| == |b| == |c| && forall i :: 0 <= i < |a| ==> XorNibbles(a[i], b[i], c[i])
  }

  lemma NibbleXor(a: nat, b: nat, c: nat)
    requires XorNibbles(a, b, c)
    ensures Nibble(c) == XorBits(Nibble(a), Nibble(b))
  {
  }

  lemma {:induction false} XorDigitsBits(a: seq<nat>, b: seq<nat>, c: seq<nat>)
    requires XorDigits(a, b, c)
    ensures HexBits(c) == XorBits(HexBits(a), HexBits(b))
    decreases |a|
  {
    if a != [] {
      XorDigitsBits(a[1..], b[1..], c[1..]);
      NibbleXor(a[0], b[0], c[0]);
      XorBitsAppend(Nibble(a[0]), Nibble(b[0]), HexBits(a[1..]), HexBits(b[1..]));
    }
  }

  /** Digit `i` of the number shifted right by one bit. */
  function HalfDigit(x: seq<nat>, i: nat): nat
    requires i < |x|
  {
    x[i] / 2 + if i + 1 < |x| && x[i + 1] % 2 == 1 then 8 else 0
  }

  predicate IsHalf(x: seq<nat>, y: seq<nat>) {
    |x| == |y| && forall i :: 0 <= i < |x| ==> x[i] < 16 && y[i] == HalfDigit(x, i)
  }

  lemma NibbleHalf(x: nat, high: bool)
    requires x < 16
    ensures Nibble(x / 2 + if high then 8 else 0) == Nibble(x)[1..] + [high]
  {
    var y := x / 2 + if high then 8 else 0;
    assert y / 8 % 2 == (if high then 1 else 0);
    assert y / 2 % 2 == x / 4 % 2 && y / 4 % 2 == x / 8 % 2 && y % 2 == x / 2 % 2;
  }

  lemma JoinHalves(a: Bits, h: Bits, b: Bits)
    requires |a| == 4 && |h| == 1 && h <= b
    ensures (a[1..] + h) + (b[1..] + [false]) == (a + b)[1..] + [false]
  {
    assert b == h + b[1..];
  }

  lemma {:induction false} HalfBits(x: seq<nat>, y: seq<nat>)
    requires IsHalf(x, y) && x != []
    ensures HexBits(y) == HexBits(x)[1..] + [false]
    decreases |x|
  {
    var high := |x| > 1 && x[1] % 2 == 1;
    NibbleHalf(x[0], high);
    if |x| > 1 {
      HalfBits(x[1..], y[1..]);
      JoinHalves(Nibble(x[0]), [high], HexBits(x[1..]));
    } else {
      assert x[1..] == [] && y[1..] == [];
    }
  }

  const GENERATOR_DIGITS: seq<nat> := [0, 2, 3, 8, 8, 0xB, 0xD, 0xE]

  lemma GeneratorDigits()
    ensures HexBits(GENERATOR_DIGITS) == GENERATOR
  {
    GeneratorBits();
    HexNumber(0xEDB88320, GENERATOR_DIGITS, 0xEDB8832, 0xEDB883, 0xEDB88, 0xEDB8, 0xEDB, 0xED, 0xE);
  }

  predicate SameNibble(x: nat, d: nat) {
    x % 16 == d
  }

  lemma NibbleOfDigit(x: nat, d: nat)
    requires SameNibble(x, d)
    ensures Nibble(x) == Nibble(d)
  {
    var q := x / 16;
    assert x == 16 * q + d;
    assert x / 2 == 8 * q + d / 2;
    assert x / 4 == 4 * q + d / 4;
    assert x / 8 == 2 * q + d / 8;
    EvenPart(8 * q, d);
    EvenPart(4 * q, d / 2);
    EvenPart(2 * q, d / 4);
    EvenPart(q, d / 8);
  }

  lemma EvenPart(k: nat, y: nat)
    ensures (2 * k + y) % 2 == y % 2
  {
  }

  /** A number and its digits. */
  lemma HexNumber(x: nat, d: seq<nat>, x1: nat, x2: nat, x3: nat, x4: nat, x5: nat, x6: nat, x7: nat)
    requires |d| == 8
    requires x1 == x / 16 && x2 == x1 / 16 && x3 == x2 / 16 && x4 == x3 / 16
    requires x5 == x4 / 16 && x6 == x5 / 16 && x7 == x6 / 16 && x7 < 16
    requires SameNibble(x, d[0]) && SameNibble(x1, d[1]) && SameNibble(x2, d[2]) && SameNibble(x3, d[3])
    requires SameNibble(x4, d[4]) && SameNibble(x5, d[5]) && SameNibble(x6, d[6]) && SameNibble(x7, d[7])
    ensures NumberBits(x, 32) == HexBits(d)
  {
    WordNibbles(x, x1, x2, x3, x4, x5, x6, x7);
    NibbleOfDigit(x, d[0]);
    NibbleOfDigit(x1, d[1]);
    NibbleOfDigit(x2, d[2]);
    NibbleOfDigit(x3, d[3]);
    NibbleOfDigit(x4, d[4]);
    NibbleOfDigit(x5, d[5]);
    NibbleOfDigit(x6, d[6]);
    NibbleOfDigit(x7, d[7]);
    EightDigits(d);
  }

  lemma EightDigits(d: seq<nat>)
    requires |d| == 8
    ensures HexBits(d) == Nibble(d[0]) + (Nibble(d[1]) + (Nibble(d[2]) + (Nibble(d[3])
                        + (Nibble(d[4]) + (Nibble(d[5]) + (Nibble(d[6]) + (Nibble(d[7]) + [])))))))
  {
    assert HexBits(d[7..]) == Nibble(d[7]) + HexBits(d[8..]);
    assert HexBits(d[6..]) == Nibble(d[6]) + HexBits(d[7..]);
    assert HexBits(d[5..]) == Nibble(d[5]) + HexBits(d[6..]);
    assert HexBits(d[4..]) == Nibble(d[4]) + HexBits(d[5..]);
    assert HexBits(d[3..]) == Nibble(d[3]) + HexBits(d[4..]);
    assert HexBits(d[2..]) == Nibble(d[2]) + HexBits(d[3..]);
    assert HexBits(d[1..]) == Nibble(d[1]) + HexBits(d[2..]);
  }

  /** One shift of the register, by digits. */
  predicate Shifted(x: seq<nat>, half: seq<nat>, y: seq<nat>) {
    |x| == 8 && IsHalf(x, half) && if x[0] % 2 == 1 then XorDigits(GENERATOR_DIGITS, half, y) else y == half
  }

  lemma ShiftedBits(x: seq<nat>, half: seq<nat>, y: seq<nat>)
    requires Shifted(x, half, y)
    ensures |HexBits(x)| == 32 && Shift(HexBits(x)) == HexBits(y)
  {
    HalfBits(x, half);
    assert HexBits(x)[0] == (x[0] % 2 == 1);
    assert Right(HexBits(x), 1) == HexBits(half);
    GeneratorDigits();
    if x[0] % 2 == 1 {
      XorDigitsBits(GENERATOR_DIGITS, half, y);
    }
  }

  /** The exclusive or of eight digits, digit by digit. */
  predicate XorEight(a: seq<nat>, b: seq<nat>, c: seq<nat>) {
    && |a| == |b| == |c| == 8
    && XorNibbles(a[0], b[0], c[0]) && XorNibbles(a[1], b[1], c[1])
    && XorNibbles(a[2], b[2], c[2]) && XorNibbles(a[3], b[3], c[3])
    && XorNibbles(a[4], b[4], c[4]) && XorNibbles(a[5], b[5], c[5])
    && XorNibbles(a[6], b[6], c[6]) && XorNibbles(a[7], b[7], c[7])
  }

  // ----- eight shifts from the start

  predicate Step(x: seq<nat>, half: seq<nat>, y: seq<nat>) {
    && |x| == 8 && IsHalf(x, half)
    && if x[0] % 2 == 1 then XorEight(GENERATOR_DIGITS, half, y) else y == half
  }

  lemma StepShifts(x: seq<nat>, half: seq<nat>, y: seq<nat>)
    requires Step(x, half, y)
    ensures |HexBits(x)| == |HexBits(y)| == 32 && Shift(HexBits(x)) == HexBits(y)
  {
    ShiftedBits(x, half, y);
  }

  /** The register after `i` zero bits. */
  function Register(i: nat): seq<nat>
    requires i <= 8
  {
    match i
    case 0 => [0xF, 0xF, 0xF, 0xF, 0xF, 0xF, 0xF, 0xF]
    case 1 => [0xF, 0xD, 0xC, 7, 7, 4, 2, 9]
    case 2 => [0xF, 4, 0xD, 3, 0xB, 9, 4, 0xA]
    case 3 => [7, 8, 0xD, 1, 5, 0xF, 0xF, 0xB]
    case 4 => [3, 0xE, 0xD, 0, 2, 4, 2, 0xB]
    case 5 => [1, 0xD, 5, 8, 9, 9, 4, 0xB]
    case 6 => [8, 0xC, 1, 4, 4, 0xF, 7, 0xB]
    case 7 => [4, 0xE, 0, 2, 0xA, 0xF, 0xB, 5]
    case _ => [2, 7, 0, 1, 0xD, 0xF, 0xD, 2]
  }

  lemma Step0()
    ensures Step([0xF, 0xF, 0xF, 0xF, 0xF, 0xF, 0xF, 0xF],
                 [0xF, 0xF, 0xF, 0xF, 0xF, 0xF, 0xF, 7],
                 [0xF, 0xD, 0xC, 7, 7, 4, 2, 9])
  {
  }

  lemma Step1()
    ensures Step([0xF, 0xD, 0xC, 7, 7, 4, 2, 9],
                 [0xF, 6, 0xE, 0xB, 3, 2, 9, 4],
                 [0xF, 4, 0xD, 3, 0xB, 9, 4, 0xA])
  {
  }

  lemma Step2()
    ensures Step([0xF, 4, 0xD, 3, 0xB, 9, 4, 0xA],
                 [7, 0xA, 0xE, 9, 0xD, 4, 2, 5],
                 [7, 8, 0xD, 1, 5, 0xF, 0xF, 0xB])
  {
  }

  lemma Step3()
    ensures Step([7, 8, 0xD, 1, 5, 0xF, 0xF, 0xB],
                 [3, 0xC, 0xE, 8, 0xA, 0xF, 0xF, 5],
                 [3, 0xE, 0xD, 0, 2, 4, 2, 0xB])
  {
  }

  lemma Step4()
    ensures Step([3, 0xE, 0xD, 0, 2, 4, 2, 0xB],
                 [1, 0xF, 6, 0, 1, 2, 9, 5],
                 [1, 0xD, 5, 8, 9, 9, 4, 0xB])
  {
  }

  lemma Step5()
    ensures Step([1, 0xD, 5, 8, 9, 9, 4, 0xB],
                 [8, 0xE, 2, 0xC, 0xC, 4, 0xA, 5],
                 [8, 0xC, 1, 4, 4, 0xF, 7, 0xB])
  {
  }

  lemma Step6()
    ensures Step([8, 0xC, 1, 4, 4, 0xF, 7, 0xB],
                 [4, 0xE, 0, 2, 0xA, 0xF, 0xB, 5],
                 [4, 0xE, 0, 2, 0xA, 0xF, 0xB, 5])
  {
  }

  lemma Step7()
    ensures Step([4, 0xE, 0, 2, 0xA, 0xF, 0xB, 5],
                 [2, 7, 0, 1, 0xD, 0xF, 0xD, 2],
                 [2, 7, 0, 1, 0xD, 0xF, 0xD, 2])
  {
  }

  lemma NextStep(i: nat) returns (half: seq<nat>)
    requires i < 8
    ensures Step(Register(i), half, Register(i + 1))
  {
    match i {
      case 0 => Step0(); half := [0xF, 0xF, 0xF, 0xF, 0xF, 0xF, 0xF, 7];
      case 1 => Step1(); half := [0xF, 6, 0xE, 0xB, 3, 2, 9, 4];
      case 2 => Step2(); half := [7, 0xA, 0xE, 9, 0xD, 4, 2, 5];
      case 3 => Step3(); half := [3, 0xC, 0xE, 8, 0xA, 0xF, 0xF, 5];
      case 4 => Step4(); half := [1, 0xF, 6, 0, 1, 2, 9, 5];
      case 5 => Step5(); half := [8, 0xE, 2, 0xC, 0xC, 4, 0xA, 5];
      case 6 => Step6(); half := [4, 0xE, 0, 2, 0xA, 0xF, 0xB, 5];
      case _ => Step7(); half := [2, 7, 0, 1, 0xD, 0xF, 0xD, 2];
    }
  }

  lemma {:induction false} StartRegisters(i: nat)
    requires i <= 8
    ensures |HexBits(Register(i))| == 32
    ensures Shifts(HexBits(Register(i)), 8 - i) == HexBits(Register(8))
    decreases 8 - i
  {
    if i < 8 {
      var half := NextStep(i);
      StepShifts(Register(i), half, Register(i + 1));
      StartRegisters(i + 1);
    }
  }

  // ----- the start and the end

  lemma Power32()
    ensures Power2(8) == 256 && Power2(31) == 0x8000_0000 && Power2(32) == 0x1_0000_0000
  {
    assert Power2(8) == 256;
    assert Power2(16) == 0x1_0000;
    assert Power2(24) == 0x100_0000;
  }

  lemma {:induction false} OnesAreOnes(n: nat)
    ensures Power2(n) >= 1
    ensures NumberBits(Power2(n) - 1, n) == Constant(n, true)
  {
    if n > 0 {
      OnesAreOnes(n - 1);
      assert (Power2(n) - 1) / 2 == Power2(n - 1) - 1;
    }
  }

  /** The register starts as 0xFFFFFFFF. */
  lemma OnesBits()
    ensures ONES == NumberBits(0xFFFF_FFFF, 32)
  {
    Power32();
    OnesAreOnes(32);
  }

  /** And it is complemented at the end: an empty buffer has checksum 0. */
  lemma EmptyBuffer()
    ensures Crc([]) == NumberBits(0, 32)
  {
    TableComputesCrc([]);
    NumberBitsLonger(0, 0, 32);
  }

  /** A zero byte goes in as eight shifts. */
  lemma ZeroByteShifts(c: Word)
    ensures Feed(c, ByteBits(0)) == Shifts(c, 8)
  {
    NumberBitsLonger(0, 0, 8);
    FeedWord(c, ByteBits(0));
    assert XorBits(c, Extend(ByteBits(0))) == c;
  }

  lemma StartNumber(digits: seq<nat>)
    requires digits == Register(0)
    ensures NumberBits(0xFFFF_FFFF, 32) == HexBits(digits)
  {
    HexNumber(0xFFFF_FFFF, digits, 0xFFF_FFFF, 0xFF_FFFF, 0xF_FFFF, 0xFFFF, 0xFFF, 0xFF, 0xF);
  }

  lemma StartShifts() returns (first: seq<nat>, last: seq<nat>)
    ensures first == Register(0) && last == Register(8) && |HexBits(last)| == 32
    ensures ONES == HexBits(first) && Shifts(ONES, 8) == HexBits(last)
  {
    first, last := Register(0), Register(8);
    OnesBits();
    StartNumber(first);
    StartRegisters(0);
  }

  lemma ZeroCrcNumber(digits: seq<nat>)
    requires digits == [0xD, 8, 0xF, 0xE, 2, 0, 2, 0xD]
    ensures NumberBits(0xD202EF8D, 32) == HexBits(digits)
  {
    HexNumber(0xD202EF8D, digits, 0xD202EF8, 0xD202EF, 0xD202E, 0xD202, 0xD20, 0xD2, 0xD);
  }

  lemma Complement(first: seq<nat>, last: seq<nat>, digits: seq<nat>)
    requires first == Register(0) && last == Register(8) && digits == [0xD, 8, 0xF, 0xE, 2, 0, 2, 0xD]
    ensures XorEight(last, first, digits)
  {
  }

  /** The checksum of a single zero byte. */
  lemma OneZeroByte(buf: Bytes)
    requires buf == [0]
    ensures Crc(buf) == NumberBits(0xD202EF8D, 32)
  {
    CrcIsFeed(buf);
    assert MessageBits(buf[1..]) == [];
    assert MessageBits(buf) == ByteBits(0);
    ZeroByteShifts(ONES);
    var first, last := StartShifts();
    var digits: seq<nat> := [0xD, 8, 0xF, 0xE, 2, 0, 2, 0xD];
    Complement(first, last, digits);
    XorDigitsBits(last, first, digits);
    ZeroCrcNumber(digits);
  }

  /** A zero byte in front is never unnoticed. */
  lemma LeadingZero(buf: Bytes)
    ensures Crc([0] + buf) != Crc(buf)
  {
    if Crc([0] + buf) == Crc(buf) {
      var zeros, bits := ByteBits(0), MessageBits(buf);
      CrcIsFeed(buf);
      CrcIsFeed([0] + buf);
      assert ([0] + buf)[1..] == buf;
      FeedAppend(ONES, zeros, bits);
      XorTwice(Feed(ONES, bits));
      XorTwice(Feed(ONES, zeros + bits));
      FeedKeepsDifference(Feed(ONES, zeros), ONES, bits);
      ZerosMoveStart();
    }
  }

  lemma ZerosMoveStart()
    ensures Feed(ONES, ByteBits(0)) != ONES
  {
    ZeroByteShifts(ONES);
    var first, last := StartShifts();
    assert HexBits(last)[0] == (last[0] % 2 == 1);
  }

  // ----- the order of the bits

  lemma {:induction false} PowerPositive(n: nat)
    ensures Power2(n) >= 1
  {
    if n > 0 {
      PowerPositive(n - 1);
    }
  }

  /** Bit `i` of a byte in transmission order is worth 2^i. */
  lemma LowBitFirst(b: byte, i: nat)
    requires i < 8
    ensures Power2(i) > 0 && (ByteBits(b)[i] <==> b as nat / Power2(i) % 2 == 1)
  {
    BitOfNumber(b as nat, 8, i);
  }

  lemma {:induction false} BitOfNumber(x: nat, n: nat, i: nat)
    requires i < n
    ensures Power2(i) > 0 && (NumberBits(x, n)[i] <==> x / Power2(i) % 2 == 1)
    decreases n
  {
    PowerPositive(i);
    if i > 0 {
      PowerPositive(i - 1);
      BitOfNumber(x / 2, n - 1, i - 1);
      HalfAgain(x, Power2(i - 1));
    }
  }

  lemma HalfAgain(x: nat, p: nat)
    requires 0 < p
    ensures x / 2 / p == x / (2 * p)
  {
    var q, r := x / 2 / p, x / 2 % p;
    assert x == q * (2 * p) + (2 * r + x % 2);
    Quotient(x, 2 * p, q, 2 * r + x % 2);
  }

  lemma Quotient(x: nat, d: nat, q: nat, r: nat)
    requires 0 < d && x == q * d + r && r < d
    ensures x / d == q
  {
    var k: int := x / d - q;
    assert k * d == r - x % d;
    assert k >= 1 ==> k * d >= d;
    assert k <= -1 ==> k * d <= 0 - d;
  }
}
