/**
 The checksum object of the sender, and what its values say about buffers.
 */
module Checksum {
  import opened Wrappers
  import opened Crc32

  class Checksum {
    const crc_table: array<Word>

    ghost predicate Valid()
      reads this, crc_table
    {
      crc_table.Length == 256 && forall i :: 0 <= i < 256 ==> crc_table[i] == TableEntry(i)
    }

    /** Fills the lookup table. */
    constructor ()
      ensures Valid() && fresh(crc_table)
    {
      crc_table := new Word[256](_ => ZEROS);
      new;
      var i := 0;
      while i < 256
        invariant 0 <= i <= 256
        invariant forall k :: 0 <= k < i ==> crc_table[k] == TableEntry(k)
      {
        var c := Entry(i);
        crc_table[i] := c;
        i := i + 1;
      }
    }

    /** The inner loop. */
    static method Entry(i: nat) returns (c: Word)
      ensures c == TableEntry(i)
    {
      c := NumberBits(i, 32);
      var j := 0;
      while j < 8
        invariant 0 <= j <= 8
        invariant Shifts(c, 8 - j) == TableEntry(i)
      {
        c := Shift(c);
        j := j + 1;
      }
    }

    /** The table-driven loop computes the CRC of the definition. */
    method CRC32(buf: array<byte>) returns (crc: Word)
      requires Valid()
      ensures crc == Crc(buf[..])
    {
      var c: Word := ONES;
      var i := 0;
      while i < buf.Length
        invariant 0 <= i <= buf.Length
        invariant FeedBytes(c, buf[i..]) == FeedBytes(ONES, buf[..])
      {
        ghost var rest := buf[i..];
        assert rest[1..] == buf[i + 1..];
        c := XorBits(crc_table[TableIndex(c, buf[i])], Right(c, 8));
        i := i + 1;
      }
      TableComputesCrc(buf[..]);
      return XorBits(c, ONES);
    }
  }

  // ----- incremental computation

  lemma {:induction false} FeedBytesAppend(c: Word, a: Bytes, b: Bytes)
    ensures FeedBytes(c, a + b) == FeedBytes(FeedBytes(c, a), b)
    decreases |a|
  {
    if a == [] {
      assert [] + b == b;
    } else {
      assert (a + b)[1..] == a[1..] + b;
      FeedBytesAppend(FeedByte(c, a[0]), a[1..], b);
    }
  }

  lemma XorTwice(a: Word)
    ensures XorBits(XorBits(a, ONES), ONES) == a
  {
  }

  /** The CRC of a buffer continues from the CRC of any prefix. */
  lemma CrcIncremental(a: Bytes, b: Bytes)
    ensures Crc(a + b) == XorBits(FeedBytes(XorBits(Crc(a), ONES), b), ONES)
  {
    TableComputesCrc(a);
    TableComputesCrc(a + b);
    FeedBytesAppend(ONES, a, b);
    XorTwice(FeedBytes(ONES, a));
  }

  // ----- affine

  function XorByte(a: byte, b: byte): (r: byte)
    ensures ByteBits(r) == XorBits(ByteBits(a), ByteBits(b))
  {
    NumberRoundTrip(XorBits(ByteBits(a), ByteBits(b)));
    assert Power2(8) == 256;
    Number(XorBits(ByteBits(a), ByteBits(b))) as byte
  }

  function XorBytes(a: Bytes, b: Bytes): (r: Bytes)
    requires |a| == |b|
    ensures |r| == |a|
  {
    seq(|a|, i requires 0 <= i < |a| => XorByte(a[i], b[i]))
  }

  lemma {:induction false} MessageBitsXor(a: Bytes, b: Bytes)
    requires |a| == |b|
    ensures MessageBits(XorBytes(a, b)) == XorBits(MessageBits(a), MessageBits(b))
    decreases |a|
  {
    if a != [] {
      assert XorBytes(a, b)[1..] == XorBytes(a[1..], b[1..]);
      MessageBitsXor(a[1..], b[1..]);
      XorBitsAppend(ByteBits(a[0]), ByteBits(b[0]), MessageBits(a[1..]), MessageBits(b[1..]));
    }
  }

  lemma XorByteZero(b: byte)
    ensures XorByte(b, 0) == b
  {
    var bits := ByteBits(b);
    assert NumberBits(0, 8) == Constant(8, false) by {
      NumberBitsLonger(0, 0, 8);
    }
    assert XorBits(bits, NumberBits(0, 8)) == bits;
    assert Power2(8) == 256;
    NumberOfBits(b as nat, 8);
  }

  lemma XorBitsAppend(a: Bits, b: Bits, x: Bits, y: Bits)
    requires |a| == |b| && |x| == |y|
    ensures XorBits(a + x, b + y) == XorBits(a, b) + XorBits(x, y)
  {
  }

  lemma FeedBitLinear(c: Word, d: Word, x: bool, y: bool)
    ensures FeedBit(XorBits(c, d), x != y) == XorBits(FeedBit(c, x), FeedBit(d, y))
  {
    var u, v := c[0 := c[0] != x], d[0 := d[0] != y];
    assert XorBits(c, d)[0 := XorBits(c, d)[0] != (x != y)] == XorBits(u, v);
    ShiftLinear(u, v);
  }

  lemma {:induction false} FeedLinear(c: Word, d: Word, x: Bits, y: Bits)
    requires |x| == |y|
    ensures Feed(XorBits(c, d), XorBits(x, y)) == XorBits(Feed(c, x), Feed(d, y))
    decreases |x|
  {
    if x != [] {
      FeedBitLinear(c, d, x[0], y[0]);
      assert XorBits(x, y)[1..] == XorBits(x[1..], y[1..]);
      FeedLinear(FeedBit(c, x[0]), FeedBit(d, y[0]), x[1..], y[1..]);
    }
  }

  /** What CRC32 computes, as one run of the bit register. */
  lemma CrcIsFeed(buf: Bytes)
    ensures Crc(buf) == XorBits(Feed(ONES, MessageBits(buf)), ONES)
  {
    TableRefinesBits(ONES, buf);
    TableComputesCrc(buf);
  }

  /** The CRC is affine: crc(a) ^ crc(b) ^ crc(00..0) = crc(a ^ b). */
  lemma CrcAffine(a: Bytes, b: Bytes)
    requires |a| == |b|
    ensures var zeros := seq(|a|, _ => 0 as byte);
            XorBits(XorBits(Crc(a), Crc(b)), Crc(zeros)) == Crc(XorBytes(a, b))
  {
    var zeros := seq(|a|, _ => 0 as byte);
    var x, y, z := MessageBits(a), MessageBits(b), MessageBits(zeros);
    CrcIsFeed(a);
    CrcIsFeed(b);
    CrcIsFeed(zeros);
    CrcIsFeed(XorBytes(a, b));
    var both := XorBytes(a, b);
    assert XorBytes(both, zeros) == both by {
      forall i | 0 <= i < |a| ensures XorByte(both[i], zeros[i]) == both[i] {
        XorByteZero(both[i]);
      }
    }
    MessageBitsXor(a, b);
    MessageBitsXor(both, zeros);
    FeedLinear(ONES, ONES, x, y);
    FeedLinear(XorBits(ONES, ONES), ONES, XorBits(x, y), z);
    assert XorBits(XorBits(ONES, ONES), ONES) == ONES;
    var p, q, r := Feed(ONES, x), Feed(ONES, y), Feed(ONES, z);
    assert XorBits(XorBits(XorBits(p, ONES), XorBits(q, ONES)), XorBits(r, ONES))
        == XorBits(XorBits(XorBits(p, q), r), ONES);
  }

  // ----- error detection

  lemma FeedBitInjective(c: Word, d: Word, bit: bool)
    requires FeedBit(c, bit) == FeedBit(d, bit)
    ensures c == d
  {
    var u, v := c[0 := c[0] != bit], d[0 := d[0] != bit];
    ShiftInjective(u, v);
    assert c == u[0 := u[0] != bit] && d == v[0 := v[0] != bit];
  }

  /** Equal bits never make different registers equal. */
  lemma {:induction false} FeedKeepsDifference(c: Word, d: Word, bits: Bits)
    requires Feed(c, bits) == Feed(d, bits)
    ensures c == d
    decreases |bits|
  {
    if bits != [] {
      FeedKeepsDifference(FeedBit(c, bits[0]), FeedBit(d, bits[0]), bits[1..]);
      FeedBitInjective(c, d, bits[0]);
    }
  }

  /** Up to 32 bits act one-to-one on the register. */
  lemma FeedWordInjective(c: Word, x: Bits, y: Bits)
    requires |x| == |y| <= 32 && Feed(c, x) == Feed(c, y)
    ensures x == y
  {
    FeedWord(c, x);
    FeedWord(c, y);
    var u, v := XorBits(c, Extend(x)), XorBits(c, Extend(y));
    ShiftsInjective(u, v, |x|);
    forall i | 0 <= i < |x| ensures x[i] == y[i] {
      assert u[i] == (c[i] != x[i]) && v[i] == (c[i] != y[i]);
    }
  }

  lemma ByteBitsInjective(a: byte, b: byte)
    requires ByteBits(a) == ByteBits(b)
    ensures a == b
  {
    assert Power2(8) == 256;
    NumberOfBits(a as nat, 8);
    NumberOfBits(b as nat, 8);
  }

  lemma {:induction false} MessageBitsInjective(a: Bytes, b: Bytes)
    requires |a| == |b| && MessageBits(a) == MessageBits(b)
    ensures a == b
    decreases |a|
  {
    if a != [] {
      var x, y := MessageBits(a), MessageBits(b);
      assert x[..8] == ByteBits(a[0]) && y[..8] == ByteBits(b[0]);
      assert x[8..] == MessageBits(a[1..]) && y[8..] == MessageBits(b[1..]);
      ByteBitsInjective(a[0], b[0]);
      MessageBitsInjective(a[1..], b[1..]);
    }
  }

  /** Two equally long bit sequences that differ only within 32 consecutive bits. */
  predicate Burst(x: Bits, y: Bits, at: nat) {
    && |x| == |y|
    && forall i :: 0 <= i < |x| && !(at <= i < at + 32) ==> x[i] == y[i]
  }

  lemma BurstOfBits(x: Bits, y: Bits, at: nat)
    requires Burst(x, y, at) && Feed(ONES, x) == Feed(ONES, y)
    ensures x == y
  {
    var start, end := Min(at, |x|), Min(at + 32, |x|);
    SplitFeed(x, start, end);
    SplitFeed(y, start, end);
    assert x[..start] == y[..start] && x[end..] == y[end..];
    var c := Feed(ONES, x[..start]);
    FeedKeepsDifference(Feed(c, x[start..end]), Feed(c, y[start..end]), x[end..]);
    FeedWordInjective(c, x[start..end], y[start..end]);
    assert x == x[..start] + x[start..end] + x[end..];
    assert y == y[..start] + y[start..end] + y[end..];
  }

  /** Every change of a buffer confined to 32 consecutive bits, wherever they lie, changes
      the checksum. */
  lemma BurstDetected(a: Bytes, b: Bytes, at: nat)
    requires |a| == |b| && a != b
    requires Burst(MessageBits(a), MessageBits(b), at)
    ensures Crc(a) != Crc(b)
  {
    if Crc(a) == Crc(b) {
      CrcIsFeed(a);
      CrcIsFeed(b);
      XorTwice(Feed(ONES, MessageBits(a)));
      XorTwice(Feed(ONES, MessageBits(b)));
      BurstOfBits(MessageBits(a), MessageBits(b), at);
      MessageBitsInjective(a, b);
    }
  }

  lemma Thirds(x: Bits, start: nat, end: nat)
    requires start <= end <= |x|
    ensures x == x[..start] + (x[start..end] + x[end..])
  {
  }

  lemma SplitFeed(x: Bits, start: nat, end: nat)
    requires start <= end <= |x|
    ensures Feed(ONES, x) == Feed(Feed(Feed(ONES, x[..start]), x[start..end]), x[end..])
  {
    Thirds(x, start, end);
    FeedAppend(ONES, x[..start], x[start..end] + x[end..]);
    FeedAppend(Feed(ONES, x[..start]), x[start..end], x[end..]);
  }

  /** In particular any change within 4 consecutive bytes. */
  lemma FourBytesDetected(a: Bytes, b: Bytes, at: nat)
    requires |a| == |b| && a != b
    requires forall i :: 0 <= i < |a| && !(at <= i < at + 4) ==> a[i] == b[i]
    ensures Crc(a) != Crc(b)
  {
    forall i | 0 <= i < 8 * |a| && !(8 * at <= i < 8 * at + 32)
      ensures MessageBits(a)[i] == MessageBits(b)[i]
    {
      MessageBitAt(a, i);
      MessageBitAt(b, i);
    }
    BurstDetected(a, b, 8 * at);
  }

  lemma {:induction false} MessageBitAt(a: Bytes, i: nat)
    requires i < 8 * |a|
    ensures MessageBits(a)[i] == ByteBits(a[i / 8])[i % 8]
    decreases |a|
  {
    if 8 <= i {
      MessageBitAt(a[1..], i - 8);
    }
  }
}
