/**
 The Internet checksum with a single carry fold, against the one's-complement sum of
 section 1 of RFC 1071.
 */
module InternetChecksum {
  import opened Wrappers

  /** The 16-bit words of a buffer in the machine's byte order, an odd last byte on its own. */
  function Words(buf: Bytes): (r: seq<nat>)
    ensures |r| == (|buf| + 1) / 2
    ensures forall i :: 0 <= i < |r| ==> r[i] <= 0xFFFF
    decreases |buf|
  {
    if buf == [] then []
    else if |buf| == 1 then [buf[0] as nat]
    else [buf[0] as nat + 256 * buf[1] as nat] + Words(buf[2..])
  }

  function Sum(words: seq<nat>): nat {
    if words == [] then 0 else words[0] + Sum(words[1..])
  }

  /** One's-complement addition: a carry out of the top is added at the bottom. */
  function AddWithCarry(a: nat, b: nat): nat {
    if a + b > 0xFFFF then a + b - 0xFFFF else a + b
  }

  function OnesComplementSum(words: seq<nat>): nat {
    if words == [] then 0 else AddWithCarry(words[0], OnesComplementSum(words[1..]))
  }

  /** The checksum RFC 1071 asks for. */
  function TrueChecksum(buf: Bytes): int {
    0xFFFF - OnesComplementSum(Words(buf))
  }

  function Fold(s: nat): nat {
    s / 0x1_0000 + s % 0x1_0000
  }

  /** A 32-bit value. */
  function Wrapped(n: nat): nat {
    n % 0x1_0000_0000
  }

  /** The complement of the low half of the once-folded 32-bit sum. */
  function Returned(buf: Bytes): int {
    0xFFFF - Fold(Wrapped(Sum(Words(buf)))) % 0x1_0000
  }

  // ----- the code

  /** The next word the loop adds: two bytes, or the last one on its own. */
  function WordAt(buf: Bytes, at: nat): nat
    requires at < |buf|
  {
    if at + 1 < |buf| then buf[at] as nat + 256 * buf[at + 1] as nat else buf[at] as nat
  }

  lemma WordsFrom(buf: Bytes, at: nat)
    requires at < |buf|
    ensures Sum(Words(buf[at..])) == WordAt(buf, at) + Sum(Words(buf[Min(at + 2, |buf|)..]))
  {
    var rest := buf[at..];
    if at + 1 < |buf| {
      assert rest[2..] == buf[at + 2..];
      assert Words(rest)[1..] == Words(rest[2..]);
    } else {
      assert Words(rest)[1..] == [];
    }
  }

  /** Adding in 32 bits and wrapping keeps the sum modulo 2^32. */
  lemma WrapAgain(sum: nat, word: nat)
    ensures Wrapped(Wrapped(sum) + word) == Wrapped(sum + word)
  {
    var q := sum / 0x1_0000_0000;
    assert sum + word == (sum % 0x1_0000_0000 + word) + q * 0x1_0000_0000;
  }

  /** The accumulator once the words in front of `at` were added. */
  predicate Added(buf: Bytes, at: nat, cksum: nat)
    requires at <= |buf|
  {
    exists sum: nat :: sum + Sum(Words(buf[at..])) == Sum(Words(buf)) && cksum == Wrapped(sum)
  }

  lemma AddWord(buf: Bytes, at: nat, cksum: nat)
    requires at < |buf| && Added(buf, at, cksum)
    ensures Added(buf, Min(at + 2, |buf|), Wrapped(cksum + WordAt(buf, at)))
  {
    var sum: nat :| sum + Sum(Words(buf[at..])) == Sum(Words(buf)) && cksum == Wrapped(sum);
    WordsFrom(buf, at);
    WrapAgain(sum, WordAt(buf, at));
    var more := sum + WordAt(buf, at);
    assert more + Sum(Words(buf[Min(at + 2, |buf|)..])) == Sum(Words(buf));
  }

  lemma AddedNone(buf: Bytes)
    ensures Added(buf, 0, 0)
  {
    assert buf[0..] == buf;
    var sum: nat := 0;
    assert sum + Sum(Words(buf[0..])) == Sum(Words(buf)) && Wrapped(sum) == 0;
  }

  lemma AddedAll(buf: Bytes, cksum: nat)
    requires Added(buf, |buf|, cksum)
    ensures cksum == Wrapped(Sum(Words(buf)))
  {
  }

  /** ip_checksum: a 32-bit accumulator that wraps, one fold, and the complement of the low
      16 bits. */
  method IpChecksum(buffer: array<byte>) returns (checksum: nat)
    ensures checksum == Returned(buffer[..])
  {
    var cksum: nat := 0;
    var size, at := buffer.Length, 0;
    ghost var buf := buffer[..];
    AddedNone(buf);
    while size > 1
      invariant 0 <= size && at + size == buffer.Length
      invariant Added(buf, at, cksum)
    {
      AddWord(buf, at, cksum);
      cksum := Wrapped(cksum + (buffer[at] as nat + 256 * buffer[at + 1] as nat));
      at, size := at + 2, size - 2;
    }
    if size != 0 {
      AddWord(buf, at, cksum);
      cksum := Wrapped(cksum + buffer[at] as nat);
    }
    AddedAll(buf, cksum);
    cksum := Fold(cksum);
    return 0xFFFF - cksum % 0x1_0000;
  }

  // ----- what it computes

  lemma {:induction false} SumBound(words: seq<nat>)
    requires forall i :: 0 <= i < |words| ==> words[i] <= 0xFFFF
    ensures Sum(words) <= 0xFFFF * |words|
  {
    if words != [] {
      SumBound(words[1..]);
    }
  }

  /** Buffers of up to 65537 words never overflow the 32-bit sum. */
  lemma NoOverflow(buf: Bytes)
    requires |Words(buf)| <= 65537
    ensures Sum(Words(buf)) < 0x1_0000_0000
    ensures Wrapped(Sum(Words(buf))) == Sum(Words(buf))
  {
    SumBound(Words(buf));
  }

  lemma SameAfterAdding(w: nat, r: nat, s: nat)
    requires r % 0xFFFF == s % 0xFFFF
    ensures (w + r) % 0xFFFF == (w + s) % 0xFFFF
  {
    var k, l := r / 0xFFFF, s / 0xFFFF;
    assert w + r == w + s + 0xFFFF * (k - l);
  }

  lemma CarryIsModular(a: nat, b: nat)
    ensures AddWithCarry(a, b) % 0xFFFF == (a + b) % 0xFFFF
  {
  }

  /** The one's-complement sum is the sum modulo FFFF, with FFFF standing for the multiples
      other than 0. */
  lemma {:induction false} OnesComplementIsModular(words: seq<nat>)
    requires forall i :: 0 <= i < |words| ==> words[i] <= 0xFFFF
    ensures OnesComplementSum(words) <= 0xFFFF
    ensures OnesComplementSum(words) % 0xFFFF == Sum(words) % 0xFFFF
    ensures OnesComplementSum(words) == 0 <==> Sum(words) == 0
  {
    if words != [] {
      OnesComplementIsModular(words[1..]);
      var w, r, s := words[0], OnesComplementSum(words[1..]), Sum(words[1..]);
      SameAfterAdding(w, r, s);
      assert AddWithCarry(w, r) % 0xFFFF == (w + r) % 0xFFFF by { CarryIsModular(w, r); }
    }
  }

  lemma FoldIsModular(s: nat)
    ensures Fold(s) % 0xFFFF == s % 0xFFFF
    ensures Fold(s) == 0 <==> s == 0
    ensures s < 0x1_0000_0000 ==> Fold(s) <= 0x1_FFFE
  {
    assert s == 0xFFFF * (s / 0x1_0000) + Fold(s);
  }

  lemma SameResidue(a: nat, b: nat)
    requires a % 0xFFFF == b % 0xFFFF && a <= 0xFFFF && b <= 0xFFFF && (a == 0 <==> b == 0)
    ensures a == b
  {
  }

  /** What the code returns is the true checksum exactly when the fold leaves no second
      carry; otherwise it is one too large. */
  lemma SingleFold(buf: Bytes)
    requires |Words(buf)| <= 65537
    ensures Returned(buf) == TrueChecksum(buf) <==> Fold(Sum(Words(buf))) <= 0xFFFF
    ensures Fold(Sum(Words(buf))) > 0xFFFF ==> Returned(buf) == TrueChecksum(buf) + 1
  {
    NoOverflow(buf);
    var sum := Sum(Words(buf));
    OnesComplementIsModular(Words(buf));
    FoldIsModular(sum);
    OneFold(sum, OnesComplementSum(Words(buf)));
  }

  lemma OneFold(sum: nat, ones: nat)
    requires sum < 0x1_0000_0000 && ones <= 0xFFFF && (ones == 0 <==> sum == 0)
    requires Fold(sum) % 0xFFFF == ones % 0xFFFF && Fold(sum) <= 0x1_FFFE && (Fold(sum) == 0 <==> sum == 0)
    ensures Fold(sum) % 0x1_0000 == if Fold(sum) <= 0xFFFF then ones else ones - 1
  {
    var fold := Fold(sum);
    if fold <= 0xFFFF {
      SameResidue(fold, ones);
    } else {
      assert (fold - 0xFFFF) % 0xFFFF == fold % 0xFFFF;
      SameResidue(fold - 0xFFFF, ones);
    }
  }

  /** Up to two words there is never a second carry. */
  lemma ShortBuffersExact(buf: Bytes)
    requires |buf| <= 4
    ensures Returned(buf) == TrueChecksum(buf)
  {
    SumBound(Words(buf));
    SingleFold(buf);
  }

  /** Three words are enough for a second carry. */
  lemma SecondCarry()
    ensures var buf: Bytes := [0xFF, 0xFF, 0xFF, 0xFF, 0x01, 0x00];
            Returned(buf) == TrueChecksum(buf) + 1
  {
    var buf: Bytes := [0xFF, 0xFF, 0xFF, 0xFF, 0x01, 0x00];
    assert Words(buf[4..]) == [1] by { assert buf[4..] == [0x01, 0x00]; }
    assert Words(buf[2..]) == [0xFFFF, 1] by { assert buf[2..][2..] == buf[4..]; }
    assert Words(buf) == [0xFFFF, 0xFFFF, 1];
    assert Sum([1]) == 1 && [0xFFFF, 1][1..] == [1] && Words(buf)[1..] == [0xFFFF, 1];
    SingleFold(buf);
  }

  /** Beyond that the sum counts modulo 2^32. */
  lemma CountsModulo(buf: Bytes, turns: nat, rest: nat)
    requires Sum(Words(buf)) == turns * 0x1_0000_0000 + rest && rest < 0x1_0000_0000
    ensures Returned(buf) == 0xFFFF - (rest / 0x1_0000 + rest % 0x1_0000) % 0x1_0000
  {
    WrappedIs(Sum(Words(buf)), turns, rest);
  }

  lemma WrappedIs(n: nat, turns: nat, rest: nat)
    requires n == turns * 0x1_0000_0000 + rest && rest < 0x1_0000_0000
    ensures Wrapped(n) == rest
  {
  }

  // ----- the words and the bytes

  /** The sum of every second byte, from the first or from the second on. */
  function EvenBytes(buf: Bytes): nat
    decreases |buf|
  {
    if buf == [] then 0 else buf[0] as nat + OddBytes(buf[1..])
  }

  function OddBytes(buf: Bytes): nat
    decreases |buf|
  {
    if buf == [] then 0 else EvenBytes(buf[1..])
  }

  /** The low byte of a word comes first, and an odd last byte counts as a low byte. */
  lemma {:induction false} SumByBytes(buf: Bytes)
    ensures Sum(Words(buf)) == EvenBytes(buf) + 256 * OddBytes(buf)
    decreases |buf|
  {
    if |buf| >= 2 {
      SumByBytes(buf[2..]);
      assert buf[1..][1..] == buf[2..];
      assert Words(buf)[1..] == Words(buf[2..]);
    } else if |buf| == 1 {
      assert buf[1..] == [] && Words(buf)[1..] == [];
    }
  }

  lemma {:induction false} SumAppend(words: seq<nat>, last: nat)
    ensures Sum(words + [last]) == Sum(words) + last
  {
    if words == [] {
      assert [last][1..] == [];
    } else {
      assert (words + [last])[1..] == words[1..] + [last];
      SumAppend(words[1..], last);
    }
  }

  lemma {:induction false} WordsAppend(buf: Bytes, low: byte, high: byte)
    requires |buf| % 2 == 0
    ensures Words(buf + [low, high]) == Words(buf) + [low as nat + 256 * high as nat]
    decreases |buf|
  {
    if buf == [] {
      assert [low, high][2..] == [] && [] + [low, high] == [low, high];
    } else {
      assert (buf + [low, high])[2..] == buf[2..] + [low, high];
      WordsAppend(buf[2..], low, high);
    }
  }

  /** Section 1 of RFC 1071: with its checksum appended, a buffer sums to all ones. The code's
      value does that exactly when the fold leaves no second carry. */
  lemma SumsToOnes(buf: Bytes, low: byte, high: byte)
    requires |buf| % 2 == 0 && |Words(buf)| <= 65537
    requires Returned(buf) == low as int + 256 * high as int
    ensures OnesComplementSum(Words(buf + [low, high])) == 0xFFFF <==> Fold(Sum(Words(buf))) <= 0xFFFF
  {
    var words, last := Words(buf), low as nat + 256 * high as nat;
    WordsAppend(buf, low, high);
    SumAppend(words, last);
    OnesComplementIsModular(words);
    OnesComplementIsModular(Words(buf + [low, high]));
    SingleFold(buf);
    NoOverflow(buf);
    FoldIsModular(Sum(words));
    OnesExactly(Sum(words), OnesComplementSum(words), last, OnesComplementSum(Words(buf + [low, high])));
  }

  lemma OnesExactly(sum: nat, ones: nat, last: nat, total: nat)
    requires ones <= 0xFFFF && 0 < total <= 0xFFFF && last <= 0xFFFF
    requires ones % 0xFFFF == sum % 0xFFFF && total % 0xFFFF == (sum + last) % 0xFFFF
    requires last == 0xFFFF - ones || last == 0xFFFF - ones + 1
    ensures total == 0xFFFF <==> last == 0xFFFF - ones
  {
    SameAfterAdding(last, ones, sum);
    assert last + ones == 0xFFFF || last + ones == 0x1_0000;
  }
}
