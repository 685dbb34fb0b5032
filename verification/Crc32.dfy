/**
 CRC-32: the textbook definition by long division of polynomials over GF(2), the
 bit-at-a-time register, the table-driven register of the program, and which changes of a
 buffer the checksum detects.

 A machine word is the sequence of its bits, lowest first, so that `^`, `>>` and `& 0xFF`
 are what the hardware does bit by bit.
 */
module Crc32 {
  import opened Wrappers

  type Bits = seq<bool>
  type Word = w: Bits | |w| == 32 witness seq(32, _ => false)

  // ----- bits and numbers

  function Constant(n: nat, bit: bool): (r: Bits)
    ensures |r| == n && forall i :: 0 <= i < n ==> r[i] == bit
  {
    seq(n, _ => bit)
  }

  function XorBits(a: Bits, b: Bits): (r: Bits)
    requires |a| == |b|
    ensures |r| == |a|
    ensures forall i :: 0 <= i < |r| ==> r[i] == (a[i] != b[i])
  {
    seq(|a|, i requires 0 <= i < |a| => a[i] != b[i])
  }

  /** The low `n` bits of a number. */
  function NumberBits(x: nat, n: nat): (r: Bits)
    ensures |r| == n
    decreases n, x
  {
    if n == 0 then [] else [x % 2 == 1] + NumberBits(x / 2, n - 1)
  }

  function Number(bits: Bits): nat {
    if bits == [] then 0 else (if bits[0] then 1 else 0) + 2 * Number(bits[1..])
  }

  function Power2(n: nat): nat {
    if n == 0 then 1 else 2 * Power2(n - 1)
  }

  lemma {:induction false} NumberRoundTrip(bits: Bits)
    ensures Number(bits) < Power2(|bits|)
    ensures NumberBits(Number(bits), |bits|) == bits
  {
    if bits != [] {
      NumberRoundTrip(bits[1..]);
      assert Number(bits) / 2 == Number(bits[1..]);
    }
  }

  lemma {:induction false} NumberOfBits(x: nat, n: nat)
    requires x < Power2(n)
    ensures Number(NumberBits(x, n)) == x
    decreases n
  {
    if n > 0 {
      NumberOfBits(x / 2, n - 1);
      assert NumberBits(x, n)[1..] == NumberBits(x / 2, n - 1);
    }
  }

  function ByteBits(b: byte): (r: Bits)
    ensures |r| == 8
  {
    NumberBits(b as nat, 8)
  }

  /** The bits of a message in transmission order: the low bit of each byte first. */
  function MessageBits(buf: Bytes): (r: Bits)
    ensures |r| == 8 * |buf|
  {
    if buf == [] then [] else ByteBits(buf[0]) + MessageBits(buf[1..])
  }

  // ----- the definition: long division

  /** The generator's coefficients below its leading one, from x^31 down: 04C11DB7. */
  const GENERATOR: Word :=
    [false, false, false, false] + ([false, true, false, false]        // 04
    + ([true, true, false, false] + ([false, false, false, true]       // C1
    + ([false, false, false, true] + ([true, true, false, true]        // 1D
    + ([true, false, true, true] + ([false, true, true, true]          // B7
    + [])))))))

  /** Remainder modulo the generator of a polynomial given from its highest coefficient
      down: subtract the generator wherever the leading coefficient is one. */
  function Remainder(s: Bits): (r: Word)
    requires 32 <= |s|
    decreases |s|
  {
    if |s| == 32 then s
    else if s[0] then Remainder(XorBits(s[1..33], GENERATOR) + s[33..])
    else Remainder(s[1..])
  }

  /** Adds a word to the 32 leading coefficients of a polynomial. */
  function XorLeading(w: Word, s: Bits): (r: Bits)
    requires 32 <= |s|
    ensures |r| == |s|
  {
    XorBits(w, s[..32]) + s[32..]
  }

  const ONES: Word := Constant(32, true)
  const ZEROS: Word := Constant(32, false)

  /** CRC-32: append 32 zeros, complement the 32 leading coefficients, divide, complement. */
  function Crc(buf: Bytes): Word {
    XorBits(Remainder(XorLeading(ONES, MessageBits(buf) + ZEROS)), ONES)
  }

  // ----- the register, bit by bit

  function Right(c: Word, n: nat): (r: Word)
    requires n <= 32
  {
    c[n..] + Constant(n, false)
  }

  /** The body of the table's inner loop. Its constant 0xEDB88320 is the generator with the
      highest coefficient in the lowest bit; see GeneratorBits. */
  function Shift(c: Word): Word {
    if c[0] then XorBits(GENERATOR, Right(c, 1)) else Right(c, 1)
  }

  function Shifts(c: Word, n: nat): Word
    decreases n, c
  {
    if n == 0 then c else Shifts(Shift(c), n - 1)
  }

  function FeedBit(c: Word, bit: bool): Word {
    Shift(c[0 := c[0] != bit])
  }

  function Feed(c: Word, bits: Bits): Word
    decreases |bits|
  {
    if bits == [] then c else Feed(FeedBit(c, bits[0]), bits[1..])
  }

  // ----- the register, byte by byte through the table

  function Extend(bits: Bits): (r: Word)
    requires |bits| <= 32
  {
    bits + Constant(32 - |bits|, false)
  }

  /** Entry i of the table. */
  function TableEntry(i: nat): Word {
    Shifts(NumberBits(i, 32), 8)
  }

  /** The index (c ^ b) & 0xFF. */
  function TableIndex(c: Word, b: byte): (i: nat)
    ensures i < 256
  {
    NumberRoundTrip(XorBits(c[..8], ByteBits(b)));
    assert Power2(8) == 256;
    Number(XorBits(c[..8], ByteBits(b)))
  }

  function FeedByte(c: Word, b: byte): Word {
    XorBits(TableEntry(TableIndex(c, b)), Right(c, 8))
  }

  function FeedBytes(c: Word, buf: Bytes): Word
    decreases |buf|
  {
    if buf == [] then c else FeedBytes(FeedByte(c, buf[0]), buf[1..])
  }

  // ----- one shift

  function Nibble(x: nat): Bits {
    [x % 2 == 1, x / 2 % 2 == 1, x / 4 % 2 == 1, x / 8 % 2 == 1]
  }

  lemma LowNibble(x: nat, n: nat)
    ensures NumberBits(x, n + 4) == Nibble(x) + NumberBits(x / 16, n)
  {
    var a, b, c := x / 2, x / 4, x / 8;
    assert a / 2 == b && b / 2 == c && c / 2 == x / 16;
    assert NumberBits(x, n + 4) == [x % 2 == 1] + NumberBits(a, n + 3);
    assert NumberBits(a, n + 3) == [a % 2 == 1] + NumberBits(b, n + 2);
    assert NumberBits(b, n + 2) == [b % 2 == 1] + NumberBits(c, n + 1);
    assert NumberBits(c, n + 1) == [c % 2 == 1] + NumberBits(x / 16, n);
  }

  lemma WordNibbles(x: nat, x1: nat, x2: nat, x3: nat, x4: nat, x5: nat, x6: nat, x7: nat)
    requires x1 == x / 16 && x2 == x1 / 16 && x3 == x2 / 16 && x4 == x3 / 16
    requires x5 == x4 / 16 && x6 == x5 / 16 && x7 == x6 / 16 && x7 < 16
    ensures NumberBits(x, 32)
         == Nibble(x) + (Nibble(x1) + (Nibble(x2) + (Nibble(x3)
            + (Nibble(x4) + (Nibble(x5) + (Nibble(x6) + (Nibble(x7) + [])))))))
  {
    LowNibble(x7, 0);
    LowNibble(x6, 4);
    LowNibble(x5, 8);
    LowNibble(x4, 12);
    LowNibble(x3, 16);
    LowNibble(x2, 20);
    LowNibble(x1, 24);
    LowNibble(x, 28);
  }

  lemma PolynomialNibbles()
    ensures Nibble(0xEDB88320) == [false, false, false, false] && Nibble(0xEDB8832) == [false, true, false, false]
    ensures Nibble(0xEDB883) == [true, true, false, false] && Nibble(0xEDB88) == [false, false, false, true]
    ensures Nibble(0xEDB8) == [false, false, false, true] && Nibble(0xEDB) == [true, true, false, true]
    ensures Nibble(0xED) == [true, false, true, true] && Nibble(0xE) == [false, true, true, true]
  {
  }

  /** 0x04C11DB7 from its highest bit down is 0xEDB88320 from its lowest bit up. */
  lemma GeneratorBits()
    ensures NumberBits(0xEDB88320, 32) == GENERATOR
  {
    WordNibbles(0xEDB88320, 0xEDB8832, 0xEDB883, 0xEDB88, 0xEDB8, 0xEDB, 0xED, 0xE);
    PolynomialNibbles();
  }

  lemma ShiftLinear(a: Word, b: Word)
    ensures Shift(XorBits(a, b)) == XorBits(Shift(a), Shift(b))
  {
  }

  lemma ShiftInjective(a: Word, b: Word)
    requires Shift(a) == Shift(b)
    ensures a == b
  {
    var x, y := Shift(a), Shift(b);
    assert x[31] == a[0] && y[31] == b[0];
    forall i | 0 <= i < 32 ensures a[i] == b[i] {
      if i > 0 {
        assert x[i - 1] == y[i - 1];
        assert Right(a, 1)[i - 1] == a[i] && Right(b, 1)[i - 1] == b[i];
      }
    }
  }

  lemma {:induction false} ShiftsLinear(a: Word, b: Word, n: nat)
    ensures Shifts(XorBits(a, b), n) == XorBits(Shifts(a, n), Shifts(b, n))
    decreases n
  {
    if n > 0 {
      ShiftLinear(a, b);
      ShiftsLinear(Shift(a), Shift(b), n - 1);
    }
  }

  lemma {:induction false} ShiftsInjective(a: Word, b: Word, n: nat)
    requires Shifts(a, n) == Shifts(b, n)
    ensures a == b
    decreases n
  {
    if n > 0 {
      ShiftsInjective(Shift(a), Shift(b), n - 1);
      ShiftInjective(a, b);
    }
  }

  /** Shifting zeros out moves no polynomial in. */
  lemma {:induction false} ShiftsOfZeros(x: Word, n: nat)
    requires n <= 32 && x[..n] == Constant(n, false)
    ensures Shifts(x, n) == Right(x, n)
    decreases n
  {
    if n > 0 {
      assert !x[..n][0];
      var y := Right(x, 1);
      assert y[..n - 1] == x[..n][1..];
      ShiftsOfZeros(y, n - 1);
      assert Right(y, n - 1) == Right(x, n);
    } else {
      assert Right(x, 0) == x;
    }
  }

  // ----- the table refines the bits

  lemma ShiftFirstBit(c: Word, w: Bits)
    requires 1 <= |w| <= 32
    ensures Shift(XorBits(c, Extend(w))) == XorBits(FeedBit(c, w[0]), Extend(w[1..]))
  {
  }

  /** Feeding up to 32 bits is adding them to the register and shifting that often. */
  lemma {:induction false} FeedWord(c: Word, w: Bits)
    requires |w| <= 32
    ensures Feed(c, w) == Shifts(XorBits(c, Extend(w)), |w|)
    decreases |w|
  {
    if w == [] {
      assert XorBits(c, Extend([])) == c;
    } else {
      ShiftFirstBit(c, w);
      FeedWord(FeedBit(c, w[0]), w[1..]);
    }
  }

  lemma {:induction false} FeedAppend(c: Word, a: Bits, b: Bits)
    ensures Feed(c, a + b) == Feed(Feed(c, a), b)
    decreases |a|
  {
    if a == [] {
      assert [] + b == b;
    } else {
      assert (a + b)[1..] == a[1..] + b;
      FeedAppend(FeedBit(c, a[0]), a[1..], b);
    }
  }

  lemma {:induction false} NumberBitsLonger(x: nat, n: nat, m: nat)
    requires x < Power2(n) && n <= m
    ensures NumberBits(x, m) == NumberBits(x, n) + Constant(m - n, false)
    decreases m
  {
    if n > 0 {
      NumberBitsLonger(x / 2, n - 1, m - 1);
    } else if m > 0 {
      NumberBitsLonger(0, 0, m - 1);
    }
  }

  /** One table step is eight bits. */
  lemma FeedByteIsFeed(c: Word, b: byte)
    ensures FeedByte(c, b) == Feed(c, ByteBits(b))
  {
    var bits := ByteBits(b);
    var low := XorBits(c[..8], bits);
    var high := Constant(8, false) + c[8..];
    NumberRoundTrip(low);
    NumberBitsLonger(Number(low), 8, 32);
    assert XorBits(c, Extend(bits)) == XorBits(Extend(low), high);
    ShiftsLinear(Extend(low), high, 8);
    ShiftsOfZeros(high, 8);
    assert Right(high, 8) == Right(c, 8);
    FeedWord(c, bits);
  }

  /** The table-driven register is the bit-by-bit register, from any start. */
  lemma {:induction false} TableRefinesBits(c: Word, buf: Bytes)
    ensures FeedBytes(c, buf) == Feed(c, MessageBits(buf))
    decreases |buf|
  {
    if buf != [] {
      FeedByteIsFeed(c, buf[0]);
      FeedAppend(c, ByteBits(buf[0]), MessageBits(buf[1..]));
      TableRefinesBits(FeedByte(c, buf[0]), buf[1..]);
    }
  }

  // ----- the register is long division

  /** Dropping the leading coefficient of the sum shifts the register against the rest. */
  lemma DropLeading(c: Word, b: bool, s: Bits)
    requires 32 <= |s|
    ensures var t := XorLeading(c, [b] + s);
            && t[0] == (c[0] != b)
            && t[1..33] == XorBits(Right(c, 1), s[..32])
            && t[33..] == s[32..]
            && t[1..] == XorLeading(Right(c, 1), s)
  {
    var u := [b] + s;
    assert u[32..] == s[31..];
    var t := XorLeading(c, u);
    assert forall i :: 0 <= i < 31 ==> t[i + 1] == (c[i + 1] != s[i]);
    assert t[32] == s[31];
  }

  lemma DivisionStep(c: Word, b: bool, s: Bits)
    requires 32 <= |s|
    ensures Remainder(XorLeading(c, [b] + s)) == Remainder(XorLeading(FeedBit(c, b), s))
  {
    DropLeading(c, b, s);
    var half := Right(c, 1);
    assert Right(c[0 := c[0] != b], 1) == half;
    assert XorBits(XorBits(half, s[..32]), GENERATOR) == XorBits(XorBits(GENERATOR, half), s[..32]);
  }

  lemma {:induction false} RegisterDivides(c: Word, bits: Bits)
    ensures Remainder(XorLeading(c, bits + ZEROS)) == Feed(c, bits)
    decreases |bits|
  {
    if bits == [] {
      assert XorLeading(c, [] + ZEROS) == c;
    } else {
      assert bits + ZEROS == [bits[0]] + (bits[1..] + ZEROS);
      DivisionStep(c, bits[0], bits[1..] + ZEROS);
      RegisterDivides(FeedBit(c, bits[0]), bits[1..]);
    }
  }

  /** The program's checksum is the CRC of the definition. */
  lemma TableComputesCrc(buf: Bytes)
    ensures XorBits(FeedBytes(ONES, buf), ONES) == Crc(buf)
  {
    TableRefinesBits(ONES, buf);
    RegisterDivides(ONES, MessageBits(buf));
  }
}
