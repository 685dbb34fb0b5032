/**
 The query packet, read as sections 4.1.1, 4.1.2 and 3.1 of RFC 1035 define it.
 */
module DnsQuery {
  import opened Wrappers
  import opened DnsNames
  import opened DnsQuestion
  import opened DnsExpand
  import opened DnsCursor
  import opened DnsAnswers

  /** The labels of a name, between its dots (46 in ASCII). */
  function LabelsOf(query: Bytes): (r: seq<Bytes>)
    ensures r != []
    decreases |query|
  {
    match Find(query, 46)
    case None => [query]
    case Some(k) => [query[..k]] + LabelsOf(query[k + 1..])
  }

  function WithDots(labels: seq<Bytes>): Bytes
    requires labels != []
  {
    if |labels| == 1 then labels[0] else labels[0] + ([46] + WithDots(labels[1..]))
  }

  /** Nothing is lost between the dots. */
  lemma {:induction false} LabelsJoin(query: Bytes)
    ensures WithDots(LabelsOf(query)) == query
    ensures forall i :: 0 <= i < |LabelsOf(query)| ==> 46 !in LabelsOf(query)[i]
    decreases |query|
  {
    match Find(query, DOT) {
      case None =>
      case Some(k) =>
        LabelsJoin(query[k + 1..]);
        DnsQuestion.Joined(query, k);
        assert LabelsOf(query)[1..] == LabelsOf(query[k + 1..]);
    }
  }

  lemma SizeByteIs(n: nat)
    requires n <= 63
    ensures SizeByte(n) == [n as byte]
  {
  }

  predicate Lies(mem: Bytes, pos: nat, data: Bytes) {
    pos + |data| <= |mem| && mem[pos..pos + |data|] == data
  }

  lemma LiesInParts(mem: Bytes, pos: nat, data: Bytes, front: Bytes, rest: Bytes)
    requires Lies(mem, pos, data) && data == front + rest
    ensures Lies(mem, pos, front) && Lies(mem, pos + |front|, rest)
  {
    assert mem[pos..pos + |front|] == mem[pos..pos + |data|][..|front|];
    assert mem[pos + |front|..pos + |data|] == mem[pos..pos + |data|][|front|..];
  }

  /** One label in memory, in front of a name. */
  lemma ExpandMore(mem: Bytes, pos: nat, start: nat, word: Bytes, rest: seq<Bytes>, last: nat)
    requires 1 <= |word| <= 63 && HostBytes(word) && Lies(mem, pos, [|word| as byte] + word)
    requires Expand(mem, pos + 1 + |word|, start) == Some(rest)
    requires LabelsEnd(mem, pos + 1 + |word|, start) == last
    ensures Expand(mem, pos, start) == Some([word] + rest) && LabelsEnd(mem, pos, start) == last
  {
    LiesInParts(mem, pos, [|word| as byte] + word, [|word| as byte], word);
    assert mem[pos] == mem[pos..pos + 1][0];
  }

  lemma ExpandLast(mem: Bytes, pos: nat, start: nat, word: Bytes)
    requires 1 <= |word| <= 63 && HostBytes(word) && Lies(mem, pos, [|word| as byte] + word)
    requires Lies(mem, pos + 1 + |word|, [0])
    ensures Expand(mem, pos, start) == Some([word]) && LabelsEnd(mem, pos, start) == pos + |word| + 1
  {
    var end := pos + 1 + |word|;
    assert mem[end] == mem[end..end + 1][0];
    ExpandMore(mem, pos, start, word, [], end);
    assert [word] + [] == [word];
  }

  lemma FirstLabel(query: Bytes, k: nat, rest: seq<Bytes>)
    requires Find(query, DOT) == Some(k) && rest == LabelsOf(query[k + 1..]) && Labels(LabelsOf(query))
    ensures LabelsOf(query) == [query[..k]] + rest
    ensures 1 <= k <= 63 && HostBytes(query[..k]) && Labels(rest)
  {
    var labels := LabelsOf(query);
    assert labels[0] == query[..k];
    forall i | 0 <= i < |rest| ensures 1 <= |rest[i]| <= 63 && HostBytes(rest[i]) {
      assert rest[i] == labels[i + 1];
    }
  }

  lemma EncodedFirst(mem: Bytes, pos: nat, query: Bytes, k: nat)
    requires Lies(mem, pos, Encode(query)) && Find(query, DOT) == Some(k) && k <= 63
    ensures Lies(mem, pos, [k as byte] + query[..k]) && Lies(mem, pos + 1 + k, Encode(query[k + 1..]))
  {
    SizeByteIs(k);
    LiesInParts(mem, pos, Encode(query), SizeByte(k) + query[..k], Encode(query[k + 1..]));
  }

  lemma ExpandNoDot(mem: Bytes, pos: nat, start: nat, query: Bytes)
    requires Lies(mem, pos, Encode(query)) && Find(query, DOT).None?
    requires 1 <= |query| <= 63 && HostBytes(query)
    ensures Expand(mem, pos, start) == Some([query]) && LabelsEnd(mem, pos, start) == pos + |query| + 1
  {
    SizeByteIs(|query|);
    LiesInParts(mem, pos, Encode(query), SizeByte(|query|) + query, [0]);
    ExpandLast(mem, pos, start, query);
  }

  /** The rest of an encoded name is encoded behind the first label. */
  lemma RestEncoded(mem: Bytes, pos: nat, query: Bytes, k: nat, rest: Bytes)
    requires Lies(mem, pos, Encode(query)) && Labels(LabelsOf(query))
    requires Find(query, DOT) == Some(k) && rest == query[k + 1..]
    ensures Lies(mem, pos + 1 + k, Encode(rest)) && Labels(LabelsOf(rest))
  {
    FirstLabel(query, k, LabelsOf(rest));
    EncodedFirst(mem, pos, query, k);
  }

  lemma FirstExpands(mem: Bytes, pos: nat, start: nat, query: Bytes, k: nat, rest: Bytes)
    requires Lies(mem, pos, Encode(query)) && Labels(LabelsOf(query))
    requires Find(query, DOT) == Some(k) && rest == query[k + 1..]
    requires Expand(mem, pos + 1 + k, start) == Some(LabelsOf(rest))
    requires LabelsEnd(mem, pos + 1 + k, start) == pos + |query| + 1
    ensures Expand(mem, pos, start) == Some(LabelsOf(query))
    ensures LabelsEnd(mem, pos, start) == pos + |query| + 1
  {
    var labels := LabelsOf(rest);
    FirstLabel(query, k, labels);
    EncodedFirst(mem, pos, query, k);
    ExpandMore(mem, pos, start, query[..k], labels, pos + |query| + 1);
  }

  lemma OnlyLabel(mem: Bytes, pos: nat, start: nat, query: Bytes)
    requires Lies(mem, pos, Encode(query)) && Labels(LabelsOf(query)) && Find(query, DOT).None?
    ensures Expand(mem, pos, start) == Some(LabelsOf(query))
    ensures LabelsEnd(mem, pos, start) == pos + |query| + 1
  {
    assert LabelsOf(query)[0] == query;
    ExpandNoDot(mem, pos, start, query);
  }

  lemma {:induction false} ExpandEncoded(mem: Bytes, pos: nat, start: nat, query: Bytes)
    requires Lies(mem, pos, Encode(query)) && Labels(LabelsOf(query))
    ensures Expand(mem, pos, start) == Some(LabelsOf(query))
    ensures LabelsEnd(mem, pos, start) == pos + |query| + 1
    decreases |query|
  {
    var dot := Find(query, DOT);
    if dot.None? {
      OnlyLabel(mem, pos, start, query);
    } else {
      var k, rest := dot.value, query[dot.value + 1..];
      RestEncoded(mem, pos, query, k, rest);
      ExpandEncoded(mem, pos + 1 + k, start, rest);
      FirstExpands(mem, pos, start, query, k, rest);
    }
  }

  /** The number of a two-byte field in network order. */
  function Field(mem: Bytes, pos: nat): nat
    requires pos + 1 < |mem|
  {
    256 * mem[pos] as nat + mem[pos + 1] as nat
  }

  /** The fields of the packet's header and question. */
  lemma QueryFields(query: Bytes, qType: byte)
    ensures var p, end := Packet(query, qType), |query| + 14;
            && |p| == end + 4
            && Field(p, 0) == 0xAA03 && Field(p, 2) == 0x0100 && Field(p, 4) == 1
            && Field(p, 6) == 0 && Field(p, 8) == 0 && Field(p, 10) == 0
            && Field(p, end) == qType as nat && Field(p, end + 2) == 1
  {
    var p := Packet(query, qType);
    assert p[..12] == HEADER;
    assert p[|query| + 14..] == [0, qType, 0, DNS_INET];
  }

  /** The packet's name is the query's labels, and the type follows right behind it, exactly
      when every label is one that the definition knows. */
  lemma QueryName(query: Bytes, qType: byte)
    ensures Expand(Packet(query, qType), 12, 12) == Some(LabelsOf(query)) <==> Labels(LabelsOf(query))
    ensures Labels(LabelsOf(query)) ==> NameEnd(Packet(query, qType), 12, 12) == |query| + 14
    ensures WithDots(LabelsOf(query)) == query
  {
    var p := Packet(query, qType);
    LabelsJoin(query);
    assert Lies(p, 12, Encode(query));
    if Labels(LabelsOf(query)) {
      ExpandEncoded(p, 12, 12, query);
      assert Encode(query)[|query| + 1] == 0 && p[12 + |query| + 1] == 0;
    }
    if Expand(p, 12, 12).Some? {
      ExpandGivesLabels(p, 12, 12);
    }
  }

  // ----- what is printed

  lemma {:induction false} JoinedWithDots(labels: seq<Bytes>)
    requires labels != []
    ensures DnsExpand.Joined(labels) == [46] + WithDots(labels)
    decreases |labels|
  {
    if |labels| == 1 {
      assert labels[1..] == [] && labels[0] + [] == labels[0];
    } else {
      JoinedWithDots(labels[1..]);
    }
  }

  /** A name whose labels all print right is printed with dots between them and none in front. */
  lemma NamePrinted(mem: Bytes, p: nat)
    requires Expand(mem, p, p).Some? && Expand(mem, p, p).value != []
    requires forall i :: 0 <= i < |Expand(mem, p, p).value| ==> PrintsRight(Expand(mem, p, p).value[i])
    ensures Tail(NameText(mem, p)) == WithDots(Expand(mem, p, p).value)
  {
    var labels := Expand(mem, p, p).value;
    ExpandGivesLabels(mem, p, p);
    TextIsName(labels);
    JoinedWithDots(labels);
  }
}
