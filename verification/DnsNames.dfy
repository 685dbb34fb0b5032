/**
 Names in DNS packets as the lookup tool reads them: C strings in memory whose length bytes
 are turned into dots, and compression pointers that it follows recursively.

 Memory is a sequence of bytes with zeros behind its end.
 */
module DnsNames {
  import opened Wrappers

  const DOT: byte := 46
  const COMMA: byte := 44
  const JUMP_MARK: byte := 0xC0    // first byte of a pointer below offset 256
  const FILL: byte := 0xCC       // what an unwritten buffer holds
  const OFFSETS := 16384         // offsets a 14-bit pointer can name

  function At(mem: Bytes, i: nat): byte {
    if i < |mem| then mem[i] else 0
  }

  /** The C string at a position. */
  function CString(mem: Bytes, pos: nat): (s: Bytes)
    ensures 0 !in s
    ensures pos <= |mem| ==> pos + |s| <= |mem|
    ensures forall i :: 0 <= i < |s| ==> s[i] == At(mem, pos + i)
    ensures At(mem, pos + |s|) == 0
    decreases |mem| - pos
  {
    if At(mem, pos) == 0 then [] else [mem[pos]] + CString(mem, pos + 1)
  }

  /** Position of the first occurrence of a byte. */
  function Find(s: Bytes, b: byte): (r: Option<nat>)
    ensures r.Some? ==> r.value < |s| && s[r.value] == b && b !in s[..r.value]
    ensures r.None? ==> b !in s
  {
    if s == [] then None
    else if s[0] == b then Some(0)
    else
      match Find(s[1..], b)
      case None => None
      case Some(i) => assert s[..i + 1] == [s[0]] + s[1..][..i]; Some(i + 1)
  }

  /** The text in front of the first occurrence of a byte, or all of it. */
  function Before(s: Bytes, b: byte): (r: Bytes)
    ensures r <= s
  {
    match Find(s, b)
    case None => s
    case Some(i) => s[..i]
  }

  // ----- removeNumbers

  /** Codes 1 to 47 become dots; a char above 127 is negative and stays. */
  function Dotted(b: byte): byte {
    if 1 <= b <= 47 then DOT else b
  }

  function StrLen(s: Bytes): (n: nat)
    ensures n <= |s|
  {
    |CString(s, 0)|
  }

  function RemoveNumbers(s: Bytes): (r: Bytes)
    ensures |r| == |s|
  {
    seq(|s|, i requires 0 <= i < |s| => if i < StrLen(s) then Dotted(s[i]) else s[i])
  }

  /** Writing a non-zero byte over a non-zero byte does not move the end of the string. */
  lemma {:induction false} StrLenUpdate(s: Bytes, pos: nat, i: nat, b: byte)
    requires pos <= i < pos + |CString(s, pos)| <= |s| && b != 0
    ensures |CString(s[i := b], pos)| == |CString(s, pos)|
    decreases i - pos
  {
    if pos < i {
      StrLenUpdate(s, pos + 1, i, b);
    } else {
      CStringSuffix(s, s[i := b], pos + 1);
    }
  }

  lemma {:induction false} CStringSuffix(a: Bytes, b: Bytes, pos: nat)
    requires |a| == |b| && forall k :: pos <= k < |a| ==> a[k] == b[k]
    ensures CString(a, pos) == CString(b, pos)
    decreases |a| - pos
  {
    if At(a, pos) != 0 {
      CStringSuffix(a, b, pos + 1);
    }
  }

  /** The loop, which measures the string again before every step. */
  method RemoveNumbersInPlace(str: Bytes) returns (r: Bytes)
    ensures r == RemoveNumbers(str)
  {
    r := str;
    var i := 0;
    while i < StrLen(r)
      invariant i <= StrLen(r) == StrLen(str) && |r| == |str|
      invariant forall k :: 0 <= k < i ==> r[k] == Dotted(str[k])
      invariant forall k :: i <= k < |str| ==> r[k] == str[k]
      decreases |str| - i
    {
      var checkDigit := r[i];
      if 1 <= checkDigit <= 47 {
        StrLenUpdate(r, 0, i, DOT);
        r := r[i := DOT];
      } else if checkDigit == 10 {
        assert false;
      }
      i := i + 1;
    }
  }

  // ----- the loop check: decimal offsets in a growing string

  function Decimal(n: nat): Bytes {
    if n < 10 then [(48 + n) as byte] else Decimal(n / 10) + [(48 + n % 10) as byte]
  }

  predicate OccursAt(s: Bytes, t: Bytes, k: nat) {
    k + |t| <= |s| && s[k..k + |t|] == t
  }

  /** Position of the first occurrence of a text. */
  function FindText(s: Bytes, t: Bytes): (r: Option<nat>)
    ensures r.Some? ==> OccursAt(s, t, r.value)
    ensures r.None? ==> forall k: nat :: !OccursAt(s, t, k)
    decreases |s|
  {
    if |s| < |t| then None
    else if s[..|t|] == t then Some(0)
    else
      match FindText(s[1..], t)
      case None =>
        assert forall k: nat :: OccursAt(s, t, k) ==> 1 <= k && OccursAt(s[1..], t, k - 1);
        None
      case Some(k) =>
        assert s[k + 1..k + 1 + |t|] == s[1..][k..k + |t|];
        Some(k + 1)
  }

  function Record(log: Bytes, off: nat): Bytes {
    log + Decimal(off) + [COMMA]
  }

  /** The test made before following a pointer, with both of its searches. */
  predicate LoopSuspected(log: Bytes, off: nat, firstJump: nat, packetSize: int) {
    var text := Decimal(off);
    match FindText(log, text)
    case None => false
    case Some(k) => FindText(log[k..], text) == Some(0) && firstJump > packetSize
  }

  predicate Recorded(log: Bytes, off: nat) {
    FindText(log, Decimal(off)).Some?
  }

  /** The second search always succeeds at once. */
  lemma SecondSearch(log: Bytes, off: nat, firstJump: nat, packetSize: int)
    ensures LoopSuspected(log, off, firstJump, packetSize) <==> Recorded(log, off) && firstJump > packetSize
  {
  }

  /** Offsets for which the loop check has no record yet. */
  ghost function Unrecorded(log: Bytes): set<nat> {
    set off: nat | off < OFFSETS && !Recorded(log, off)
  }

  lemma RecordKeeps(log: Bytes, off: nat, other: nat)
    requires Recorded(log, other)
    ensures Recorded(Record(log, off), other)
  {
    var text := Decimal(other);
    var k := FindText(log, text).value;
    assert OccursAt(Record(log, off), text, k);
  }

  lemma RecordAdds(log: Bytes, off: nat)
    ensures Recorded(Record(log, off), off)
  {
    var text := Decimal(off);
    assert OccursAt(Record(log, off), text, |log|);
  }

  lemma {:induction false} DecimalDigits(n: nat)
    ensures Decimal(n) != [] && forall i :: 0 <= i < |Decimal(n)| ==> 48 <= Decimal(n)[i] <= 57
  {
    if n >= 10 {
      DecimalDigits(n / 10);
    }
  }

  /** A digit text within a log that ends in a comma, a number and a comma (44) lies in the log
      or in the number. */
  lemma OccursInPart(log: Bytes, number: Bytes, text: Bytes, k: nat)
    requires log == [] || log[|log| - 1] == 44
    requires text != [] && forall i :: 0 <= i < |text| ==> text[i] != 44
    requires OccursAt(log + number + [44], text, k)
    ensures OccursAt(log, text, k) || (|log| <= k && OccursAt(number, text, k - |log|))
  {
    var all := log + number + [44];
    forall i | k <= i < k + |text| ensures all[i] != 44 {
      assert all[k..k + |text|][i - k] == all[i];
    }
    assert all[|all| - 1] == 44 && (log != [] ==> all[|log| - 1] == 44);
    if |log| <= k {
      assert number[k - |log|..k - |log| + |text|] == all[k..k + |text|];
    } else {
      assert log[k..k + |text|] == all[k..k + |text|];
    }
  }

  lemma RecordedByPart(log: Bytes, off: nat, other: nat)
    requires log == [] || log[|log| - 1] == 44
    requires Recorded(Record(log, off), other)
    ensures Recorded(log, other) || FindText(Decimal(off), Decimal(other)).Some?
  {
    DecimalDigits(other);
    OccursInPart(log, Decimal(off), Decimal(other), FindText(Record(log, off), Decimal(other)).value);
  }

  lemma RecordedWithPart(log: Bytes, number: Bytes, text: Bytes, k: nat)
    requires OccursAt(number, text, k)
    ensures OccursAt(log + number + [44], text, |log| + k)
  {
    assert (log + number + [44])[|log| + k..|log| + k + |text|] == number[k..k + |text|];
  }

  /** What the loop check knows after one more offset: the offsets known before, and those
      whose digits occur in the digits of the new one, none across a comma. */
  lemma RecordedExactly(log: Bytes, off: nat, other: nat)
    requires log == [] || log[|log| - 1] == 44
    ensures Recorded(Record(log, off), other) <==>
              Recorded(log, other) || FindText(Decimal(off), Decimal(other)).Some?
    ensures Record(log, off)[|Record(log, off)| - 1] == 44
  {
    if Recorded(Record(log, off), other) {
      RecordedByPart(log, off, other);
    }
    if Recorded(log, other) {
      RecordKeeps(log, off, other);
    }
    var k := FindText(Decimal(off), Decimal(other));
    if k.Some? {
      RecordedWithPart(log, Decimal(off), Decimal(other), k.value);
    }
  }

  /** Recording leaves no more offsets unrecorded, and fewer if the offset was new. */
  lemma RecordShrinks(log: Bytes, off: nat)
    requires off < OFFSETS
    ensures |Unrecorded(Record(log, off))| <= |Unrecorded(log)|
    ensures !Recorded(log, off) ==> |Unrecorded(Record(log, off))| < |Unrecorded(log)|
  {
    var before, after := Unrecorded(log), Unrecorded(Record(log, off));
    RecordAdds(log, off);
    forall other | other in after ensures other in before && other != off {
      if Recorded(log, other) {
        RecordKeeps(log, off, other);
      }
    }
    if !Recorded(log, off) {
      assert off in before;
      SubsetSize(after, before - {off});
    } else {
      SubsetSize(after, before);
    }
  }

  lemma {:induction false} RangeCount(n: nat, s: set<nat>)
    requires forall x :: x in s ==> x < n
    ensures |s| <= n
  {
    if n > 0 {
      RangeCount(n - 1, s - {n - 1});
    } else {
      assert s == {};
    }
  }
}
