/**
 The question of a query packet: how the tool writes a name, how it reads one back, and for
 which names reading returns what was written.
 */
module DnsQuestion {
  import opened Wrappers
  import opened DnsNames

  // ----- writing

  /** A length is stored in one byte. */
  function SizeByte(n: nat): (r: Bytes)
    ensures |r| == 1
  {
    [(n % 256) as byte]
  }

  /** A name as length-prefixed labels and a zero byte. */
  function Encode(query: Bytes): (r: Bytes)
    ensures |r| == |query| + 2
    ensures r[|query| + 1] == 0
    decreases |query|
  {
    match Find(query, DOT)
    case None => SizeByte(|query|) + query + [0]
    case Some(k) => SizeByte(k) + query[..k] + Encode(query[k + 1..])
  }

  /** A buffer after `data` was written over it at `at`. */
  function Placed(buf: Bytes, at: nat, data: Bytes): (r: Bytes)
    requires at + |data| <= |buf|
    ensures |r| == |buf|
  {
    buf[..at] + data + buf[at + |data|..]
  }

  lemma PlacedBehind(buf: Bytes, at: nat, done: Bytes, more: Bytes)
    requires at + |done| + |more| <= |buf|
    ensures Placed(Placed(buf, at, done), at + |done|, more) == Placed(buf, at, done + more)
  {
  }

  method WriteBytes(buf: array<byte>, at: nat, data: Bytes)
    requires at + |data| <= buf.Length
    modifies buf
    ensures buf[..] == Placed(old(buf[..]), at, data)
  {
    forall k | 0 <= k < |data| {
      buf[at + k] := data[k];
    }
  }

  lemma EncodeSplit(query: Bytes, k: nat, done: Bytes)
    requires Find(query, DOT) == Some(k)
    ensures done + Encode(query) == (done + (SizeByte(k) + query[..k])) + Encode(query[k + 1..])
  {
  }

  /** makeDNSquestion: fills `buf` from `at` on and tells how much it wrote. */
  method MakeDnsQuestion(buf: array<byte>, at: nat, query: Bytes) returns (written: nat)
    requires at + |query| + 2 <= buf.Length
    modifies buf
    ensures written == |query| + 2
    ensures buf[..] == Placed(old(buf[..]), at, Encode(query))
  {
    var tempQuery, i := query, 0;
    ghost var before := buf[..];
    ghost var done: Bytes := [];
    while Find(tempQuery, DOT).Some?
      invariant |tempQuery| + i == |query| && |done| == i
      invariant done + Encode(tempQuery) == Encode(query)
      invariant buf[..] == Placed(before, at, done)
      decreases |tempQuery|
    {
      var k := Find(tempQuery, DOT).value;
      var word := SizeByte(k) + tempQuery[..k];
      WriteBytes(buf, at + i, word);
      PlacedBehind(before, at, done, word);
      EncodeSplit(tempQuery, k, done);
      done := done + word;
      i := i + 1 + k;
      tempQuery := tempQuery[k + 1..];
    }
    var word := SizeByte(|tempQuery|) + tempQuery + [0];
    WriteBytes(buf, at + i, word);
    PlacedBehind(before, at, done, word);
    written := i + |word|;
  }

  /** The packet's fixed header: TXID AA03, recursion desired, one question. */
  const HEADER: Bytes := [0xAA, 0x03, 0x01, 0x00, 0, 1, 0, 0, 0, 0, 0, 0]

  const DNS_INET: byte := 1

  /** The packet the tool sends for a query of a type below 256. */
  function Packet(query: Bytes, qType: byte): (r: Bytes)
    ensures |r| == |query| + 18
  {
    HEADER + Encode(query) + [0, qType, 0, DNS_INET]
  }

  /** The question meets the QueryHeader with no gap and no overlap. */
  method BuildQuery(query: Bytes, qType: byte) returns (buf: array<byte>)
    ensures fresh(buf) && buf[..] == Packet(query, qType)
  {
    var pktSize := |query| + 2 + 12 + 4;
    buf := new byte[pktSize](_ => 0);
    WriteBytes(buf, 0, HEADER);
    WriteBytes(buf, pktSize - 4, [0, qType, 0, DNS_INET]);
    ghost var framed := buf[..];
    var written := MakeDnsQuestion(buf, 12, query);
    assert framed[..12] == HEADER;
    assert framed[12 + written..] == [0, qType, 0, DNS_INET];
  }

  // ----- reading

  datatype Question =
    | Question(text: Bytes, qType: int, qClass: int, past: nat)
    | Rejected
    | Undefined

  function Signed(b: byte): int {
    if b < 128 then b as int else b as int - 256
  }

  /** One turn of the question loop with the cursor at `past`. On an empty name the program
      writes behind the end of a string, which has no defined result. */
  function ParseQuestion(mem: Bytes, past: nat): Question {
    var link := CString(mem, past);
    if Find(link, FILL).Some? then Rejected
    else if link == [] then Undefined
    else
      var text := RemoveNumbers(link[0 := 32])[1..];
      var cursor := |link| + past + 2;
      Question(text, Signed(At(mem, cursor)), Signed(At(mem, cursor + 2)), cursor + 2 + 1)
  }

  // ----- which names survive

  predicate PlainLabel(word: Bytes) {
    forall i :: 0 <= i < |word| ==> !(1 <= word[i] <= 47) && word[i] != FILL
  }

  /** Names all of whose labels have a length, modulo 256, of 1 to 47. */
  predicate ShortLabels(query: Bytes)
    decreases |query|
  {
    match Find(query, DOT)
    case None => 1 <= |query| % 256 <= 47 && PlainLabel(query)
    case Some(k) => 1 <= k % 256 <= 47 && PlainLabel(query[..k]) && ShortLabels(query[k + 1..])
  }

  /** The first label's length is overwritten before it is read: it only must not end the
      string nor look like an unwritten byte. */
  predicate Recoverable(query: Bytes) {
    match Find(query, DOT)
    case None => |query| % 256 != 0 && |query| % 256 != 0xCC && PlainLabel(query)
    case Some(k) => k % 256 != 0 && k % 256 != 0xCC && PlainLabel(query[..k]) && ShortLabels(query[k + 1..])
  }

  /** The encoded name without its final zero. */
  function Wire(query: Bytes): (r: Bytes)
    ensures |r| == |query| + 1
  {
    Encode(query)[..|query| + 1]
  }

  function DotAll(s: Bytes): (r: Bytes)
    ensures |r| == |s|
    ensures forall i :: 0 <= i < |s| ==> r[i] == Dotted(s[i])
  {
    seq(|s|, i requires 0 <= i < |s| => Dotted(s[i]))
  }

  predicate Readable(s: Bytes) {
    0 !in s && FILL !in s
  }

  lemma WireIs(query: Bytes, wire: Bytes)
    requires Encode(query) == wire + [0]
    ensures Wire(query) == wire
  {
  }

  lemma EncodeIsWire(query: Bytes)
    ensures Encode(query) == Wire(query) + [0]
  {
  }

  lemma Reassociate(a: Bytes, b: Bytes, c: Bytes, d: Bytes)
    ensures a + b + (c + d) == (a + (b + c)) + d
  {
  }

  lemma WirePlain(query: Bytes)
    requires Find(query, DOT).None?
    ensures Wire(query) == SizeByte(|query|) + query
  {
    WireIs(query, SizeByte(|query|) + query);
  }

  lemma WireDotted(query: Bytes, k: nat, size: Bytes)
    requires Find(query, DOT) == Some(k) && size == SizeByte(k)
    ensures Wire(query) == size + (query[..k] + Wire(query[k + 1..]))
  {
    var rest := query[k + 1..];
    EncodeIsWire(rest);
    Reassociate(size, query[..k], Wire(rest), [0]);
    WireIs(query, size + (query[..k] + Wire(rest)));
  }

  lemma LabelSurvives(word: Bytes)
    requires DOT !in word && 0 !in word
    ensures Readable(word) && DotAll(word) == word <==> PlainLabel(word)
  {
    if DotAll(word) == word && FILL !in word {
      forall i | 0 <= i < |word| ensures !(1 <= word[i] <= 47) && word[i] != FILL {
        assert word[i] in word && DotAll(word)[i] == word[i];
      }
    }
  }

  lemma DotAllAppend(a: Bytes, b: Bytes)
    ensures DotAll(a + b) == DotAll(a) + DotAll(b)
    ensures Readable(a + b) <==> Readable(a) && Readable(b)
  {
  }

  lemma SameParts(a: Bytes, b: Bytes, x: Bytes, y: Bytes)
    requires |a| == |x|
    ensures a + b == x + y <==> a == x && b == y
  {
    if a + b == x + y {
      assert a == (a + b)[..|a|] && b == (a + b)[|a|..];
      assert x == (x + y)[..|x|] && y == (x + y)[|x|..];
    }
  }

  lemma Joined(query: Bytes, k: nat)
    requires k < |query| && query[k] == DOT
    ensures query == query[..k] + ([DOT] + query[k + 1..])
  {
  }

  /** A label behind its length byte, and what follows it. */
  lemma {:induction false} LaterLabels(query: Bytes)
    requires 0 !in query
    ensures Readable(Wire(query)) && DotAll(Wire(query)) == [DOT] + query <==> ShortLabels(query)
    decreases |query|
  {
    match Find(query, DOT) {
      case None =>
        WirePlain(query);
        var size := SizeByte(|query|);
        LabelSurvives(query);
        DotAllAppend(size, query);
        SameParts(DotAll(size), DotAll(query), [DOT], query);
        LengthByte(|query|);
      case Some(k) =>
        var size, word, rest := SizeByte(k), query[..k], query[k + 1..];
        WireDotted(query, k, size);
        LabelSurvives(word);
        LaterLabels(rest);
        Joined(query, k);
        DotAllAppend(word, Wire(rest));
        SameParts(DotAll(word), DotAll(Wire(rest)), word, [DOT] + rest);
        DotAllAppend(size, word + Wire(rest));
        SameParts(DotAll(size), DotAll(word + Wire(rest)), [DOT], query);
        LengthByte(k);
    }
  }

  lemma LengthByte(n: nat)
    ensures var size := SizeByte(n);
            Readable(size) && DotAll(size) == [DOT] <==> 1 <= n % 256 <= 47
  {
    var size := SizeByte(n);
    assert DotAll(size)[0] == Dotted(size[0]);
  }

  /** The whole name, whose first length byte is not read. */
  lemma WholeName(query: Bytes)
    requires 0 !in query
    ensures Readable(Wire(query)) && DotAll(Wire(query)[1..]) == query <==> Recoverable(query)
  {
    match Find(query, DOT) {
      case None =>
        WirePlain(query);
        var size := SizeByte(|query|);
        assert Wire(query)[1..] == query;
        LabelSurvives(query);
        DotAllAppend(size, query);
        FirstLengthByte(|query|);
      case Some(k) =>
        var size, word, rest := SizeByte(k), query[..k], query[k + 1..];
        WireDotted(query, k, size);
        assert Wire(query)[1..] == word + Wire(rest);
        LabelSurvives(word);
        LaterLabels(rest);
        Joined(query, k);
        DotAllAppend(word, Wire(rest));
        SameParts(DotAll(word), DotAll(Wire(rest)), word, [DOT] + rest);
        DotAllAppend(size, word + Wire(rest));
        FirstLengthByte(k);
    }
  }

  lemma FirstLengthByte(n: nat)
    ensures Readable(SizeByte(n)) <==> n % 256 != 0 && n % 256 != 0xCC
  {
    var size := SizeByte(n);
    assert size[0] in size;
  }

  /** A string of non-zero bytes in front of a zero is read back whole. */
  lemma {:induction false} CStringIs(mem: Bytes, pos: nat, s: Bytes)
    requires pos + |s| < |mem| && mem[pos..pos + |s|] == s && mem[pos + |s|] == 0
    ensures 0 !in s ==> CString(mem, pos) == s
    ensures 0 in s ==> |CString(mem, pos)| < |s|
    decreases |s|
  {
    if s != [] {
      assert mem[pos] == s[0];
      if s[0] != 0 {
        assert mem[pos + 1..pos + |s|] == s[1..];
        CStringIs(mem, pos + 1, s[1..]);
      }
    }
  }

  lemma RemoveNumbersOfText(s: Bytes)
    requires 0 !in s
    ensures RemoveNumbers(s) == DotAll(s)
  {
    WholeString(s);
  }

  lemma WholeString(s: Bytes)
    requires 0 !in s
    ensures StrLen(s) == |s|
  {
  }

  /** The round trip: the tool reads back the query, its type and its class from the packet it
      sent, with the cursor at the packet's end, exactly when the name is recoverable. */
  lemma QuestionRoundTrip(query: Bytes, qType: byte)
    requires 0 !in query && qType < 128
    ensures ParseQuestion(Packet(query, qType), 12) == Question(query, qType as int, 1, |Packet(query, qType)|)
            <==> Recoverable(query)
  {
    var mem, wire := Packet(query, qType), Wire(query);
    assert mem[12..12 + |wire|] == wire;
    assert mem[12 + |wire|] == 0;
    CStringIs(mem, 12, wire);
    WholeName(query);
    if 0 !in wire {
      var link := wire[0 := 32];
      RemoveNumbersOfText(link);
      assert DotAll(link)[1..] == DotAll(wire[1..]);
      assert mem[|query| + 15] == qType && mem[|query| + 17] == 1;
    }
  }
}
