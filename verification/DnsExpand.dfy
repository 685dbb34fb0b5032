/**
 What decompression returns, against the definition of a compressed name in section 4.1.4 of
 RFC 1035.
 */
module DnsExpand {
  import opened Wrappers
  import opened DnsNames
  import opened DnsJump
  import opened DnsQuestion

  const LABEL_MAX: byte := 63

  /** Bytes that neither end a C string nor look like a short pointer or an unwritten byte. */
  predicate HostBytes(s: Bytes) {
    0 !in s && JUMP_MARK !in s && FILL !in s
  }

  /** The labels of the name at `pos`: labels up to a zero byte or a pointer to an earlier
      name, where `start` is the first byte of the labels being read. */
  function Expand(mem: Bytes, pos: nat, start: nat): Option<seq<Bytes>>
    decreases start, |mem| - pos
  {
    if |mem| <= pos then None
    else if mem[pos] == 0 then Some([])
    else if mem[pos] <= LABEL_MAX then
      var end := pos + 1 + mem[pos] as nat;
      if |mem| <= end || !HostBytes(mem[pos + 1..end]) then None
      else
        match Expand(mem, end, start)
        case None => None
        case Some(rest) => Some([mem[pos + 1..end]] + rest)
    else if mem[pos] >= JUMP_MARK && pos + 1 < |mem| && 12 <= PointerOffset(mem, pos) < start then
      Expand(mem, PointerOffset(mem, pos), PointerOffset(mem, pos))
    else None
  }

  /** Where the labels at `pos` end: at the zero byte or the pointer behind them. */
  function LabelsEnd(mem: Bytes, pos: nat, start: nat): (end: nat)
    requires Expand(mem, pos, start).Some?
    ensures pos <= end < |mem| && Expand(mem, end, start).Some?
    ensures mem[end] == 0 || (mem[end] >= JUMP_MARK && end + 1 < |mem|)
    decreases |mem| - pos
  {
    if 0 < mem[pos] <= LABEL_MAX then LabelsEnd(mem, pos + 1 + mem[pos] as nat, start) else pos
  }

  /** Behind the name at `pos`: past its zero byte, or past its first pointer. */
  function NameEnd(mem: Bytes, pos: nat, start: nat): (end: nat)
    requires Expand(mem, pos, start).Some?
    ensures pos < end <= |mem|
  {
    LabelsEnd(mem, pos, start) + if mem[LabelsEnd(mem, pos, start)] == 0 then 1 else 2
  }

  /** The labels as the tool prints them: each behind its length byte, both without codes
      1 to 47. */
  function Dots(labels: seq<Bytes>): Bytes {
    if labels == [] then [] else [Dotted(Min(|labels[0]|, 255) as byte)] + DotAll(labels[0]) + Dots(labels[1..])
  }

  lemma {:induction false} DotsAppend(a: seq<Bytes>, b: seq<Bytes>)
    ensures Dots(a + b) == Dots(a) + Dots(b)
    decreases |a|
  {
    if a == [] {
      assert [] + b == b;
    } else {
      assert (a + b)[1..] == a[1..] + b;
      DotsAppend(a[1..], b);
    }
  }

  predicate Labels(labels: seq<Bytes>) {
    forall i :: 0 <= i < |labels| ==> 1 <= |labels[i]| <= 63 && HostBytes(labels[i])
  }

  lemma {:induction false} ExpandGivesLabels(mem: Bytes, pos: nat, start: nat)
    requires Expand(mem, pos, start).Some?
    ensures Labels(Expand(mem, pos, start).value)
    decreases start, |mem| - pos
  {
    if 0 < mem[pos] <= LABEL_MAX {
      ExpandGivesLabels(mem, pos + 1 + mem[pos] as nat, start);
    } else if mem[pos] >= JUMP_MARK {
      ExpandGivesLabels(mem, PointerOffset(mem, pos), PointerOffset(mem, pos));
    }
  }

  // ----- a run of labels as a C string

  /** `raw` is the run of labels at `pos`, up to the zero byte or pointer at its end. */
  predicate IsRun(mem: Bytes, pos: nat, raw: Bytes) {
    && pos + |raw| < |mem| && mem[pos..pos + |raw|] == raw && HostBytes(raw)
    && (mem[pos + |raw|] == 0 || mem[pos + |raw|] >= JUMP_MARK)
  }

  lemma LongerRun(mem: Bytes, pos: nat, end: nat, raw: Bytes)
    requires pos < end < |mem| && HostBytes(mem[pos..end]) && IsRun(mem, end, raw)
    ensures IsRun(mem, pos, mem[pos..end] + raw)
  {
  }

  lemma LabelAsRun(mem: Bytes, pos: nat, end: nat)
    requires pos < end < |mem| && end == pos + 1 + mem[pos] as nat
    requires 0 < mem[pos] <= LABEL_MAX && HostBytes(mem[pos + 1..end])
    ensures mem[pos..end] == [mem[pos]] + mem[pos + 1..end] && HostBytes(mem[pos..end])
    ensures Dots([mem[pos + 1..end]]) == DotAll(mem[pos..end])
  {
    var word := mem[pos + 1..end];
    assert mem[pos..end] == [mem[pos]] + word;
    DotAllAppend([mem[pos]], word);
    assert DotAll([mem[pos]]) == [Dotted(mem[pos])];
    assert [word][1..] == [];
  }

  lemma MoreText(word: Bytes, labels: seq<Bytes>, front: Bytes, raw: Bytes, behind: Bytes)
    requires Dots([word]) == DotAll(front) && Dots(labels) == DotAll(raw) + behind
    ensures Dots([word] + labels) == DotAll(front + raw) + behind
  {
    DotsAppend([word], labels);
    DotAllAppend(front, raw);
  }

  /** The bytes of the labels at `pos`: their text begins the text of the name, and the rest
      follows behind them. */
  lemma {:induction false} FindRun(mem: Bytes, pos: nat, start: nat) returns (raw: Bytes)
    requires Expand(mem, pos, start).Some?
    ensures IsRun(mem, pos, raw) && RunBegins(mem, pos, start, raw)
    decreases |mem| - pos
  {
    if 0 < mem[pos] <= LABEL_MAX {
      var end := pos + 1 + mem[pos] as nat;
      var rest := FindRun(mem, end, start);
      raw := mem[pos..end] + rest;
      LabelBegins(mem, pos, start, end, rest, raw);
    } else {
      raw := [];
    }
  }

  predicate RunBegins(mem: Bytes, pos: nat, start: nat, raw: Bytes) {
    && Expand(mem, pos, start).Some?
    && pos + |raw| == LabelsEnd(mem, pos, start)
    && Dots(Expand(mem, pos, start).value) == DotAll(raw) + Dots(Expand(mem, pos + |raw|, start).value)
  }

  lemma LabelBegins(mem: Bytes, pos: nat, start: nat, end: nat, rest: Bytes, raw: Bytes)
    requires Expand(mem, pos, start).Some? && 0 < mem[pos] <= LABEL_MAX && end == pos + 1 + mem[pos] as nat
    requires end < |mem| && IsRun(mem, end, rest) && RunBegins(mem, end, start, rest) && raw == mem[pos..end] + rest
    ensures IsRun(mem, pos, raw) && RunBegins(mem, pos, start, raw)
  {
    LabelAsRun(mem, pos, end);
    LongerRun(mem, pos, end, rest);
    TextBegins(mem, pos, start, end, rest, raw);
  }

  lemma TextBegins(mem: Bytes, pos: nat, start: nat, end: nat, rest: Bytes, raw: Bytes)
    requires Expand(mem, pos, start).Some? && 0 < mem[pos] <= LABEL_MAX && end == pos + 1 + mem[pos] as nat
    requires end < |mem| && RunBegins(mem, end, start, rest) && raw == mem[pos..end] + rest
    requires Dots([mem[pos + 1..end]]) == DotAll(mem[pos..end])
    ensures RunBegins(mem, pos, start, raw)
  {
    MoreText(mem[pos + 1..end], Expand(mem, end, start).value, mem[pos..end], rest,
             Dots(Expand(mem, end + |rest|, start).value));
  }

  /** The C string at a run goes on behind it unless a zero byte follows. */
  lemma {:induction false} RunInCString(mem: Bytes, pos: nat, raw: Bytes)
    requires IsRun(mem, pos, raw)
    ensures raw <= CString(mem, pos)
    ensures mem[pos + |raw|] == 0 ==> CString(mem, pos) == raw
    ensures mem[pos + |raw|] != 0 ==> raw + [mem[pos + |raw|]] <= CString(mem, pos)
    decreases |raw|
  {
    if raw != [] {
      assert mem[pos] == raw[0] && mem[pos + 1..pos + |raw|] == raw[1..];
      RunInCString(mem, pos + 1, raw[1..]);
    }
  }

  lemma {:induction false} FindFirst(s: Bytes, front: Bytes, b: byte)
    requires front <= s && b !in front && (|front| == |s| || s[|front|] == b)
    ensures Find(s, b) == if |front| == |s| then None else Some(|front|)
    ensures Before(s, b) == front
    decreases |front|
  {
    if front != [] {
      assert s[0] == front[0];
      FindFirst(s[1..], front[1..], b);
    }
  }

  /** What jump's string functions find there when the run ends in a zero byte or C0. */
  lemma RunAsCString(mem: Bytes, pos: nat, raw: Bytes)
    requires IsRun(mem, pos, raw) && mem[pos + |raw|] <= JUMP_MARK
    ensures Before(CString(mem, pos), JUMP_MARK) == raw
    ensures Find(CString(mem, pos), JUMP_MARK) == if mem[pos + |raw|] == 0 then None else Some(|raw|)
    ensures mem[pos + |raw|] == 0 ==> CString(mem, pos) == raw
  {
    RunInCString(mem, pos, raw);
    FindFirst(CString(mem, pos), raw, JUMP_MARK);
  }

  /** Any other pointer is taken for text. */
  lemma RunMissesPointer(mem: Bytes, pos: nat, raw: Bytes)
    requires IsRun(mem, pos, raw) && mem[pos + |raw|] > JUMP_MARK
    ensures raw + [mem[pos + |raw|]] <= Before(CString(mem, pos), JUMP_MARK)
    ensures 0 !in Before(CString(mem, pos), JUMP_MARK)
  {
    RunInCString(mem, pos, raw);
    FrontBefore(CString(mem, pos), raw + [mem[pos + |raw|]], JUMP_MARK);
  }

  lemma {:induction false} FrontBefore(s: Bytes, front: Bytes, b: byte)
    requires front <= s && b !in front
    ensures front <= Before(s, b)
    decreases |front|
  {
    if front != [] {
      assert s[0] == front[0];
      FrontBefore(s[1..], front[1..], b);
    }
  }

  lemma RunText(raw: Bytes)
    requires HostBytes(raw)
    ensures RemoveNumbers(raw) == DotAll(raw)
    ensures Find(raw, FILL).None? && Find(DotAll(raw), FILL).None?
  {
    RemoveNumbersOfText(raw);
    assert FILL !in DotAll(raw);
  }

  // ----- pointers

  /** Which pointers jump follows to the end of the name: behind labels it sees only those
      that begin with C0, and behind offset 511 it reads on at the zero byte that ends the
      name, which it takes for an error if another zero byte follows. */
  predicate Follows(mem: Bytes, p: nat, start: nat)
    requires Expand(mem, p, start).Some? && mem[p] >= JUMP_MARK
    decreases start
  {
    var off := PointerOffset(mem, p);
    var end := LabelsEnd(mem, off, off);
    if mem[end] == 0 then off < 512 || At(mem, end + 1) != 0 else mem[end] == JUMP_MARK && Follows(mem, end, off)
  }

  /** jump returned a text and no error, and left the marks for the cursor as they were. */
  predicate GivesText(r: JumpResult, text: Bytes, st: JumpState) {
    && r.answer == text
    && r.state.jumpCheck
    && r.state.breakCheck == st.breakCheck
    && r.state.checkCompression == st.checkCompression
    && r.state.uncompressed == st.uncompressed
  }

  /** jump reported an error or returned another text. */
  predicate Fails(r: JumpResult, text: Bytes) {
    r.state.breakCheck || r.answer != text
  }

  /** The text of the labels at `pos`, as jump makes it. */
  lemma ReadRun(mem: Bytes, pos: nat, start: nat) returns (name: Bytes)
    requires Expand(mem, pos, start).Some? && mem[LabelsEnd(mem, pos, start)] <= JUMP_MARK
    ensures pos + |name| == LabelsEnd(mem, pos, start)
    ensures ReadableAs(mem, pos, name)
    ensures Dots(Expand(mem, pos, start).value) == name + Dots(Expand(mem, pos + |name|, start).value)
  {
    var raw := FindRun(mem, pos, start);
    ReadableRun(mem, pos, raw);
    name := DotAll(raw);
  }

  lemma ReadableRun(mem: Bytes, pos: nat, raw: Bytes)
    requires IsRun(mem, pos, raw) && mem[pos + |raw|] <= JUMP_MARK
    ensures ReadableAs(mem, pos, DotAll(raw))
  {
    RunAsCString(mem, pos, raw);
    RunText(raw);
  }

  /** A call at a zero byte. */
  lemma ZeroCall(mem: Bytes, pos: nat, st: JumpState, packetSize: int)
    requires At(mem, pos) == 0
    ensures OneCall(mem, pos, st, packetSize)
         == if At(mem, pos + 1) == 0 then Returns(Text(Random5), st.(breakCheck := true)) else Returns([], st)
  {
  }

  /** jump at a pointer to text that ends in a zero byte. */
  lemma JumpToEnd(mem: Bytes, p: nat, st: JumpState, packetSize: int, off: nat, name: Bytes)
    requires At(mem, p) >= JUMP_MARK && PointerOffset(mem, p) == off && 12 <= off < 512
    requires st.firstJump <= packetSize && ReadableAs(mem, off, name) && At(mem, off + |name|) == 0
    ensures GivesText(Jump(mem, p, st, packetSize), name, st)
  {
    PointerReturns(mem, p, st, packetSize, off, name);
    JumpReturns(mem, p, st, packetSize, name, Noted(st, off));
  }

  lemma ZeroText(mem: Bytes, pos: nat, st: JumpState, packetSize: int)
    requires At(mem, pos) == 0 && st.jumpCheck
    ensures At(mem, pos + 1) == 0 ==> Jump(mem, pos, st, packetSize).state.breakCheck
    ensures At(mem, pos + 1) != 0 ==> GivesText(Jump(mem, pos, st, packetSize), [], st)
  {
    ZeroCall(mem, pos, st, packetSize);
  }

  /** At a pointer that it follows, jump returns the text of the name. */
  lemma {:induction false} PointerFollowed(mem: Bytes, p: nat, start: nat, st: JumpState, packetSize: int)
    requires Expand(mem, p, start).Some? && mem[p] >= JUMP_MARK && Follows(mem, p, start)
    requires st.firstJump + start <= packetSize
    ensures GivesText(Jump(mem, p, st, packetSize), Dots(Expand(mem, p, start).value), st)
    decreases start
  {
    var off := PointerOffset(mem, p);
    var end := LabelsEnd(mem, off, off);
    if mem[end] == JUMP_MARK {
      PointerFollowed(mem, end, off, After(st, off), packetSize);
      FollowedOn(mem, p, start, st, packetSize, off, end);
    } else if off < 512 {
      FollowedToEnd(mem, p, start, st, packetSize);
    } else {
      ZeroText(mem, end, After(st, off), packetSize);
      FollowedOn(mem, p, start, st, packetSize, off, end);
    }
  }

  lemma FollowedToEnd(mem: Bytes, p: nat, start: nat, st: JumpState, packetSize: int)
    requires Expand(mem, p, start).Some? && mem[p] >= JUMP_MARK && st.firstJump <= packetSize
    requires mem[LabelsEnd(mem, PointerOffset(mem, p), PointerOffset(mem, p))] == 0 && PointerOffset(mem, p) < 512
    ensures GivesText(Jump(mem, p, st, packetSize), Dots(Expand(mem, p, start).value), st)
  {
    var off := PointerOffset(mem, p);
    var name := ReadRun(mem, off, off);
    JumpToEnd(mem, p, st, packetSize, off, name);
    assert name + Dots([]) == name;
  }

  lemma FollowedOn(mem: Bytes, p: nat, start: nat, st: JumpState, packetSize: int, off: nat, end: nat)
    requires Expand(mem, p, start).Some? && mem[p] >= JUMP_MARK && st.firstJump <= packetSize
    requires off == PointerOffset(mem, p) && end == LabelsEnd(mem, off, off)
    requires mem[end] == JUMP_MARK || (mem[end] == 0 && 512 <= off)
    requires GivesText(Jump(mem, end, After(st, off), packetSize), Dots(Expand(mem, end, off).value), After(st, off))
    ensures GivesText(Jump(mem, p, st, packetSize), Dots(Expand(mem, p, start).value), st)
  {
    var name := PointerGoesOn(mem, p, start, st, packetSize, off, end);
    ThenGivesText(name, Jump(mem, end, After(st, off), packetSize), Dots(Expand(mem, end, off).value), st, off);
  }

  lemma ThenGivesText(name: Bytes, r: JumpResult, rest: Bytes, st: JumpState, off: nat)
    requires GivesText(r, rest, After(st, off))
    ensures GivesText(Then(name, r), name + rest, st)
  {
  }

  /** One call at a pointer to labels that end in C0, or lie behind offset 511. */
  lemma PointerStep(mem: Bytes, p: nat, start: nat, st: JumpState, packetSize: int, off: nat, end: nat)
      returns (name: Bytes)
    requires Expand(mem, p, start).Some? && mem[p] >= JUMP_MARK && st.firstJump <= packetSize
    requires off == PointerOffset(mem, p) && end == LabelsEnd(mem, off, off)
    requires mem[end] == JUMP_MARK || (mem[end] == 0 && 512 <= off)
    ensures Dots(Expand(mem, p, start).value) == name + Dots(Expand(mem, end, off).value)
    ensures OneCall(mem, p, st, packetSize) == Continues(name, end, After(st, off))
  {
    name := ReadRun(mem, off, off);
    PointerContinues(mem, p, st, packetSize, off, name);
  }

  lemma PointerGoesOn(mem: Bytes, p: nat, start: nat, st: JumpState, packetSize: int, off: nat, end: nat)
      returns (name: Bytes)
    requires Expand(mem, p, start).Some? && mem[p] >= JUMP_MARK && st.firstJump <= packetSize
    requires off == PointerOffset(mem, p) && end == LabelsEnd(mem, off, off)
    requires mem[end] == JUMP_MARK || (mem[end] == 0 && 512 <= off)
    ensures Dots(Expand(mem, p, start).value) == name + Dots(Expand(mem, end, off).value)
    ensures Jump(mem, p, st, packetSize) == Then(name, Jump(mem, end, After(st, off), packetSize))
  {
    name := PointerStep(mem, p, start, st, packetSize, off, end);
    JumpGoesOn(mem, p, st, packetSize, name, end, After(st, off));
  }

  // ----- pointers that are missed

  /** A text that runs over a pointer behind the labels is not the text of the name. */
  lemma OverrunIsWrong(raw: Bytes, mark: byte, copy: Bytes, labels: seq<Bytes>, answer: Bytes)
    requires HostBytes(raw) && mark > JUMP_MARK && raw + [mark] <= copy && 0 !in copy
    requires Labels(labels) && RemoveNumbers(copy) <= answer
    ensures answer != DotAll(raw) + Dots(labels)
  {
    RemoveNumbersOfText(copy);
    assert copy[|raw|] == mark && DotAll(copy)[|raw|] == mark && answer[|raw|] == mark;
    DotsStart(labels);
    var text := DotAll(raw) + Dots(labels);
    assert |raw| < |text| ==> text[|raw|] == Dots(labels)[0];
  }

  lemma RestOfName(mem: Bytes, pos: nat, start: nat, raw: Bytes) returns (rest: seq<Bytes>)
    requires RunBegins(mem, pos, start, raw)
    ensures Labels(rest) && Dots(Expand(mem, pos, start).value) == DotAll(raw) + Dots(rest)
  {
    rest := Expand(mem, pos + |raw|, start).value;
    ExpandGivesLabels(mem, pos + |raw|, start);
  }

  lemma OverrunText(mem: Bytes, pos: nat, start: nat, answer: Bytes)
    requires Expand(mem, pos, start).Some? && mem[LabelsEnd(mem, pos, start)] > JUMP_MARK
    requires RemoveNumbers(Before(CString(mem, pos), JUMP_MARK)) <= answer
    ensures answer != Dots(Expand(mem, pos, start).value)
  {
    var raw := FindRun(mem, pos, start);
    RunMissesPointer(mem, pos, raw);
    var rest := RestOfName(mem, pos, start, raw);
    OverrunIsWrong(raw, mem[pos + |raw|], Before(CString(mem, pos), JUMP_MARK), rest, answer);
  }

  lemma DotsStart(labels: seq<Bytes>)
    requires Labels(labels)
    ensures Dots(labels) == [] || Dots(labels)[0] <= LABEL_MAX
  {
  }

  /** A call at a pointer to labels that end in a pointer it does not see. */
  lemma OverrunCall(mem: Bytes, p: nat, st: JumpState, packetSize: int, copy: Bytes)
    requires At(mem, p) >= JUMP_MARK && 12 <= PointerOffset(mem, p) && st.firstJump <= packetSize
    requires copy == Before(CString(mem, PointerOffset(mem, p)), JUMP_MARK)
    ensures var r := Jump(mem, p, st, packetSize); r.state.breakCheck || RemoveNumbers(copy) <= r.answer
  {
    var call := OneCall(mem, p, st, packetSize);
    AtPointerText(mem, p, st.(jumpCheck := true), packetSize, copy);
    match call {
      case Returns(name, state) => JumpReturns(mem, p, st, packetSize, name, state);
      case Continues(name, end, state) => JumpGoesOn(mem, p, st, packetSize, name, end, state);
    }
  }

  lemma AtPointerText(mem: Bytes, p: nat, st: JumpState, packetSize: int, copy: Bytes)
    requires copy == Before(CString(mem, PointerOffset(mem, p)), JUMP_MARK)
    ensures var call := AtPointer(mem, p, st, packetSize);
            (call.Returns? && call.state.breakCheck) || call.text == RemoveNumbers(copy)
  {
  }

  lemma MissedOverrun(mem: Bytes, p: nat, start: nat, st: JumpState, packetSize: int, off: nat, end: nat)
    requires Expand(mem, p, start).Some? && mem[p] >= JUMP_MARK && st.firstJump <= packetSize
    requires off == PointerOffset(mem, p) && end == LabelsEnd(mem, off, off) && mem[end] > JUMP_MARK
    ensures Fails(Jump(mem, p, st, packetSize), Dots(Expand(mem, p, start).value))
  {
    var r := Jump(mem, p, st, packetSize);
    OverrunCall(mem, p, st, packetSize, Before(CString(mem, off), JUMP_MARK));
    if !r.state.breakCheck {
      OverrunText(mem, off, off, r.answer);
    }
  }

  lemma MissedOn(mem: Bytes, p: nat, start: nat, st: JumpState, packetSize: int, off: nat, end: nat)
    requires Expand(mem, p, start).Some? && mem[p] >= JUMP_MARK && st.firstJump <= packetSize
    requires off == PointerOffset(mem, p) && end == LabelsEnd(mem, off, off)
    requires mem[end] == JUMP_MARK || (mem[end] == 0 && 512 <= off)
    requires Fails(Jump(mem, end, After(st, off), packetSize), Dots(Expand(mem, end, off).value))
    ensures Fails(Jump(mem, p, st, packetSize), Dots(Expand(mem, p, start).value))
  {
    var name := PointerGoesOn(mem, p, start, st, packetSize, off, end);
    SameFront(name, Jump(mem, end, After(st, off), packetSize).answer, Dots(Expand(mem, end, off).value));
  }

  lemma SameFront(a: Bytes, b: Bytes, c: Bytes)
    ensures a + b == a + c <==> b == c
  {
    SameParts(a, b, a, c);
  }

  /** At a pointer that it does not follow to the end, jump fails. */
  lemma {:induction false} PointerMissed(mem: Bytes, p: nat, start: nat, st: JumpState, packetSize: int)
    requires Expand(mem, p, start).Some? && mem[p] >= JUMP_MARK && !Follows(mem, p, start)
    requires st.firstJump + start <= packetSize
    ensures Fails(Jump(mem, p, st, packetSize), Dots(Expand(mem, p, start).value))
    decreases start
  {
    var off := PointerOffset(mem, p);
    var end := LabelsEnd(mem, off, off);
    if mem[end] > JUMP_MARK {
      MissedOverrun(mem, p, start, st, packetSize, off, end);
    } else if mem[end] == JUMP_MARK {
      PointerMissed(mem, end, off, After(st, off), packetSize);
      MissedOn(mem, p, start, st, packetSize, off, end);
    } else {
      ZeroText(mem, end, After(st, off), packetSize);
      MissedOn(mem, p, start, st, packetSize, off, end);
    }
  }

  // ----- whole names

  /** The names that jump decompresses; a root name it takes for an error if another zero byte
      follows. */
  predicate Recognised(mem: Bytes, p: nat)
    requires Expand(mem, p, p).Some?
  {
    var end := LabelsEnd(mem, p, p);
    if mem[p] == 0 then At(mem, p + 1) != 0
    else if mem[p] >= JUMP_MARK then Follows(mem, p, p)
    else mem[end] == 0 || (mem[end] == JUMP_MARK && Follows(mem, end, p))
  }

  /** What jump should return for the name at `p`: its text, no error, and what processJump
      needs to find the end of the name. */
  predicate Decompressed(mem: Bytes, p: nat, r: JumpResult)
    requires Expand(mem, p, p).Some?
  {
    var end := LabelsEnd(mem, p, p);
    && r.answer == Dots(Expand(mem, p, p).value)
    && !r.state.breakCheck
    && if mem[p] >= JUMP_MARK then r.state.jumpCheck && !r.state.checkCompression
       else if mem[end] == 0 then
         !r.state.jumpCheck && !r.state.checkCompression && p + |r.answer| == end
       else
         r.state.checkCompression && p + |r.state.uncompressed| == end
  }

  /** For every name that the definition expands: jump returns just that exactly when it
      recognises all of its pointers. */
  lemma JumpExpands(mem: Bytes, p: nat, packetSize: int)
    requires Expand(mem, p, p).Some? && p < packetSize
    ensures Decompressed(mem, p, Jump(mem, p, NO_JUMPS, packetSize)) <==> Recognised(mem, p)
  {
    if mem[p] >= JUMP_MARK {
      PointerName(mem, p, packetSize);
    } else if mem[p] == 0 {
      RootName(mem, p, packetSize);
    } else {
      LabelName(mem, p, packetSize);
    }
  }

  lemma PointerName(mem: Bytes, p: nat, packetSize: int)
    requires Expand(mem, p, p).Some? && mem[p] >= JUMP_MARK && p < packetSize
    ensures Decompressed(mem, p, Jump(mem, p, NO_JUMPS, packetSize)) <==> Follows(mem, p, p)
  {
    if Follows(mem, p, p) {
      PointerFollowed(mem, p, p, NO_JUMPS, packetSize);
    } else {
      PointerMissed(mem, p, p, NO_JUMPS, packetSize);
    }
  }

  lemma LabelName(mem: Bytes, p: nat, packetSize: int)
    requires Expand(mem, p, p).Some? && 0 < mem[p] <= LABEL_MAX && p < packetSize
    ensures Decompressed(mem, p, Jump(mem, p, NO_JUMPS, packetSize)) <==> Recognised(mem, p)
  {
    var end := LabelsEnd(mem, p, p);
    if mem[end] == 0 {
      PlainName(mem, p, packetSize);
    } else if mem[end] == JUMP_MARK {
      MixedName(mem, p, packetSize);
    } else {
      OverrunName(mem, p, packetSize);
    }
  }

  lemma RootName(mem: Bytes, p: nat, packetSize: int)
    requires p < |mem| && mem[p] == 0
    ensures Decompressed(mem, p, Jump(mem, p, NO_JUMPS, packetSize)) <==> At(mem, p + 1) != 0
  {
    ZeroCall(mem, p, NO_JUMPS, packetSize);
  }

  /** A name without a pointer takes one call. */
  lemma PlainName(mem: Bytes, p: nat, packetSize: int)
    requires Expand(mem, p, p).Some? && 0 < mem[p] <= LABEL_MAX && mem[LabelsEnd(mem, p, p)] == 0
    ensures Decompressed(mem, p, Jump(mem, p, NO_JUMPS, packetSize))
  {
    var raw := FindRun(mem, p, p);
    RunAsCString(mem, p, raw);
    RunText(raw);
    PlainCall(mem, p, packetSize, raw);
    JumpReturns(mem, p, NO_JUMPS, packetSize, DotAll(raw), NO_JUMPS);
    assert DotAll(raw) + Dots([]) == DotAll(raw);
  }

  lemma PlainCall(mem: Bytes, p: nat, packetSize: int, raw: Bytes)
    requires 0 < At(mem, p) < JUMP_MARK && CString(mem, p) == raw
    requires Find(raw, JUMP_MARK).None? && Find(RemoveNumbers(raw), FILL).None?
    ensures OneCall(mem, p, NO_JUMPS, packetSize) == Returns(RemoveNumbers(raw), NO_JUMPS)
  {
  }

  /** The state in which labels in front of a pointer leave the first call. */
  function Compressed(raw: Bytes, off: nat): JumpState {
    NO_JUMPS.(uncompressed := raw, checkCompression := true, log := Record([], off), firstJump := 1)
  }

  /** Labels in front of a pointer are remembered for the cursor. */
  lemma MixedName(mem: Bytes, p: nat, packetSize: int)
    requires Expand(mem, p, p).Some? && 0 < mem[p] <= LABEL_MAX && p < packetSize
    requires mem[LabelsEnd(mem, p, p)] == JUMP_MARK
    ensures Decompressed(mem, p, Jump(mem, p, NO_JUMPS, packetSize)) <==> Follows(mem, LabelsEnd(mem, p, p), p)
  {
    var end := LabelsEnd(mem, p, p);
    var name, next := FirstCall(mem, p, packetSize);
    JumpGoesOn(mem, p, NO_JUMPS, packetSize, name, end, next);
    var rest := Jump(mem, end, next, packetSize);
    if Follows(mem, end, p) {
      PointerFollowed(mem, end, p, next, packetSize);
      MixedIs(mem, p, name, next, rest, Jump(mem, p, NO_JUMPS, packetSize));
    } else {
      PointerMissed(mem, end, p, next, packetSize);
      MixedIsNot(mem, p, name, next, rest, Jump(mem, p, NO_JUMPS, packetSize));
    }
  }

  predicate FirstText(mem: Bytes, p: nat, name: Bytes, next: JumpState)
    requires Expand(mem, p, p).Some?
  {
    var end := LabelsEnd(mem, p, p);
    && Dots(Expand(mem, p, p).value) == name + Dots(Expand(mem, end, p).value)
    && next.firstJump == 1 && !next.breakCheck && next.checkCompression && p + |next.uncompressed| == end
  }

  lemma MixedIs(mem: Bytes, p: nat, name: Bytes, next: JumpState, rest: JumpResult, r: JumpResult)
    requires Expand(mem, p, p).Some? && 0 < mem[p] <= LABEL_MAX && mem[LabelsEnd(mem, p, p)] == JUMP_MARK
    requires FirstText(mem, p, name, next) && GivesText(rest, Dots(Expand(mem, LabelsEnd(mem, p, p), p).value), next)
    requires r.answer == name + rest.answer && r.state == rest.state
    ensures Decompressed(mem, p, r)
  {
  }

  lemma MixedIsNot(mem: Bytes, p: nat, name: Bytes, next: JumpState, rest: JumpResult, r: JumpResult)
    requires Expand(mem, p, p).Some? && 0 < mem[p] <= LABEL_MAX && mem[LabelsEnd(mem, p, p)] == JUMP_MARK
    requires FirstText(mem, p, name, next) && Fails(rest, Dots(Expand(mem, LabelsEnd(mem, p, p), p).value))
    requires r.answer == name + rest.answer && r.state == rest.state
    ensures !Decompressed(mem, p, r)
  {
    SameFront(name, rest.answer, Dots(Expand(mem, LabelsEnd(mem, p, p), p).value));
  }

  lemma FirstCall(mem: Bytes, p: nat, packetSize: int) returns (name: Bytes, next: JumpState)
    requires Expand(mem, p, p).Some? && 0 < mem[p] <= LABEL_MAX && p < packetSize
    requires mem[LabelsEnd(mem, p, p)] == JUMP_MARK
    ensures FirstText(mem, p, name, next)
    ensures OneCall(mem, p, NO_JUMPS, packetSize) == Continues(name, LabelsEnd(mem, p, p), next)
  {
    var raw := FindRun(mem, p, p);
    var end := LabelsEnd(mem, p, p);
    var off := PointerOffset(mem, end);
    RunAsCString(mem, p, raw);
    RunText(raw);
    name, next := DotAll(raw), Compressed(raw, off);
    MixedCall(mem, p, packetSize, raw, off);
  }

  lemma MixedCall(mem: Bytes, p: nat, packetSize: int, raw: Bytes, off: nat)
    requires 0 < At(mem, p) < JUMP_MARK && raw <= CString(mem, p) && 0 <= packetSize
    requires Find(CString(mem, p), JUMP_MARK) == Some(|raw|) && Find(raw, FILL).None?
    requires At(mem, p + |raw|) != 0 && PointerOffset(mem, p + |raw|) == off && 12 <= off
    ensures OneCall(mem, p, NO_JUMPS, packetSize)
         == Continues(RemoveNumbers(raw), p + |raw|, Compressed(raw, off))
  {
    SecondSearch([], off, 0, packetSize);
    assert CString(mem, p)[..|raw|] == raw;
  }

  /** Labels in front of a pointer that is taken for text. */
  lemma OverrunName(mem: Bytes, p: nat, packetSize: int)
    requires Expand(mem, p, p).Some? && 0 < mem[p] <= LABEL_MAX && mem[LabelsEnd(mem, p, p)] > JUMP_MARK
    requires 0 <= packetSize
    ensures !Decompressed(mem, p, Jump(mem, p, NO_JUMPS, packetSize))
  {
    var r := Jump(mem, p, NO_JUMPS, packetSize);
    OverrunFirstCall(mem, p, packetSize, Before(CString(mem, p), JUMP_MARK));
    if !r.state.breakCheck {
      OverrunText(mem, p, p, r.answer);
    }
  }

  lemma OverrunFirstCall(mem: Bytes, p: nat, packetSize: int, copy: Bytes)
    requires 0 < At(mem, p) < JUMP_MARK && copy == Before(CString(mem, p), JUMP_MARK)
    ensures var r := Jump(mem, p, NO_JUMPS, packetSize); r.state.breakCheck || RemoveNumbers(copy) <= r.answer
  {
    var call := OneCall(mem, p, NO_JUMPS, packetSize);
    FirstCallText(mem, p, packetSize, copy);
    match call {
      case Returns(name, state) => JumpReturns(mem, p, NO_JUMPS, packetSize, name, state);
      case Continues(name, end, state) => JumpGoesOn(mem, p, NO_JUMPS, packetSize, name, end, state);
    }
  }

  lemma FirstCallText(mem: Bytes, p: nat, packetSize: int, copy: Bytes)
    requires 0 < At(mem, p) < JUMP_MARK && copy == Before(CString(mem, p), JUMP_MARK)
    ensures var call := OneCall(mem, p, NO_JUMPS, packetSize);
            (call.Returns? && call.state.breakCheck) || call.text == RemoveNumbers(copy)
  {
    var whole := CString(mem, p);
    match Find(whole, JUMP_MARK) {
      case None =>
      case Some(i) => BeforePointerText(mem, p, whole[..i], NO_JUMPS, packetSize);
    }
  }

  lemma BeforePointerText(mem: Bytes, p: nat, modifier: Bytes, st: JumpState, packetSize: int)
    ensures var call := BeforePointer(mem, p, modifier, st, packetSize);
            (call.Returns? && call.state.breakCheck) || call.text == RemoveNumbers(modifier)
  {
  }

  // ----- which texts are right

  /** The name as it should read, a dot in front of every label. */
  function Joined(labels: seq<Bytes>): Bytes {
    if labels == [] then [] else [DOT] + labels[0] + Joined(labels[1..])
  }

  /** A label that prints right: short, and without codes 1 to 47 other than the dot. */
  predicate PrintsRight(word: Bytes) {
    |word| <= 47 && forall i :: 0 <= i < |word| && 1 <= word[i] <= 47 ==> word[i] == DOT
  }

  lemma LabelPrints(word: Bytes)
    requires 1 <= |word| <= 63
    ensures Dotted(|word| as byte) == DOT && DotAll(word) == word <==> PrintsRight(word)
  {
    if DotAll(word) == word {
      forall i | 0 <= i < |word| && 1 <= word[i] <= 47 ensures word[i] == DOT {
        assert DotAll(word)[i] == word[i];
      }
    }
  }

  /** The printed text is the name exactly when every label prints right. */
  lemma {:induction false} TextIsName(labels: seq<Bytes>)
    requires Labels(labels)
    ensures Dots(labels) == Joined(labels) <==> forall i :: 0 <= i < |labels| ==> PrintsRight(labels[i])
    decreases |labels|
  {
    if labels != [] {
      var word, rest := labels[0], labels[1..];
      TextIsName(rest);
      LabelPrints(word);
      SameParts([Dotted(|word| as byte)] + DotAll(word), Dots(rest), [DOT] + word, Joined(rest));
      SameParts([Dotted(|word| as byte)], DotAll(word), [DOT], word);
    }
  }

  /** So the tool reads a recognised name right exactly when all of its labels print right. */
  lemma NameReadRight(mem: Bytes, p: nat, packetSize: int)
    requires Expand(mem, p, p).Some? && p < packetSize && Recognised(mem, p)
    ensures var labels := Expand(mem, p, p).value;
            Jump(mem, p, NO_JUMPS, packetSize).answer == Joined(labels)
            <==> forall i :: 0 <= i < |labels| ==> PrintsRight(labels[i])
  {
    JumpExpands(mem, p, packetSize);
    ExpandGivesLabels(mem, p, p);
    TextIsName(Expand(mem, p, p).value);
  }

  // ----- loops

  /** A pointer to itself is reported as a jump loop, once more jumps were made than the packet
      has bytes, and not before. */
  lemma {:induction false} SelfPointer(mem: Bytes, p: nat, st: JumpState, packetSize: nat)
    requires p + 1 < |mem| && mem[p] == 0xC0 && mem[p + 1] as nat == p && 12 <= p
    requires 0 < st.firstJump <= packetSize + 1 && Recorded(st.log, p)
    ensures var r := Jump(mem, p, st, packetSize);
            && r.answer == [114, 97, 110, 100, 111, 109, 54]    // "random6"
            && r.state.breakCheck && r.calls == packetSize + 2 - st.firstJump
    decreases packetSize + 1 - st.firstJump
  {
    if st.firstJump <= packetSize {
      SelfCall(mem, p, st, packetSize);
      RecordKeeps(st.log, p, p);
      SelfPointer(mem, p, After(st, p), packetSize);
      JumpGoesOn(mem, p, st, packetSize, [], p, After(st, p));
    } else {
      SelfCaught(mem, p, st, packetSize);
    }
  }

  lemma SelfCall(mem: Bytes, p: nat, st: JumpState, packetSize: nat)
    requires p + 1 < |mem| && mem[p] == 0xC0 && mem[p + 1] as nat == p && 12 <= p
    requires st.firstJump <= packetSize
    ensures OneCall(mem, p, st, packetSize) == Continues([], p, After(st, p))
  {
    RunAsCString(mem, p, []);
    RunText([]);
    PointerContinues(mem, p, st, packetSize, p, []);
  }

  lemma SelfCaught(mem: Bytes, p: nat, st: JumpState, packetSize: nat)
    requires p + 1 < |mem| && mem[p] == 0xC0 && mem[p + 1] as nat == p
    requires packetSize < st.firstJump && Recorded(st.log, p)
    ensures OneCall(mem, p, st, packetSize)
         == Returns([114, 97, 110, 100, 111, 109, 54], st.(jumpCheck := true, breakCheck := true))
  {
    SecondSearch(st.log, p, st.firstJump, packetSize);
  }

  /** So processJump takes packet_size + 2 calls to find it. */
  lemma SelfPointerFound(mem: Bytes, p: nat, packetSize: nat)
    requires p + 1 < |mem| && mem[p] == 0xC0 && mem[p + 1] as nat == p && 12 <= p
    ensures var r := Jump(mem, p, NO_JUMPS, packetSize);
            && r.answer == [114, 97, 110, 100, 111, 109, 54] && r.state.breakCheck
            && r.calls == packetSize + 2
  {
    SelfCall(mem, p, NO_JUMPS, packetSize);
    RecordAdds([], p);
    SelfPointer(mem, p, After(NO_JUMPS, p), packetSize);
    JumpGoesOn(mem, p, NO_JUMPS, packetSize, [], p, After(NO_JUMPS, p));
  }

  // ----- reports

  /** Two zero bytes are no name: "random5". */
  lemma EmptyReported(mem: Bytes, p: nat, packetSize: int)
    requires At(mem, p) == 0 && At(mem, p + 1) == 0
    ensures var r := Jump(mem, p, NO_JUMPS, packetSize);
            r.answer == [114, 97, 110, 100, 111, 109, 53] && r.state.breakCheck
  {
    ZeroCall(mem, p, NO_JUMPS, packetSize);
  }

  /** A pointer into the header is reported as "random0", if its text has no unwritten byte. */
  lemma HeaderPointerReported(mem: Bytes, p: nat, packetSize: nat)
    requires At(mem, p) >= JUMP_MARK && PointerOffset(mem, p) < 12
    requires FILL !in Before(CString(mem, PointerOffset(mem, p)), JUMP_MARK)
    ensures var r := Jump(mem, p, NO_JUMPS, packetSize);
            r.answer == [114, 97, 110, 100, 111, 109, 48] && r.state.breakCheck
  {
    HeaderPointerCall(mem, p, packetSize);
  }

  lemma HeaderPointerCall(mem: Bytes, p: nat, packetSize: nat)
    requires At(mem, p) >= JUMP_MARK && PointerOffset(mem, p) < 12
    requires FILL !in Before(CString(mem, PointerOffset(mem, p)), JUMP_MARK)
    ensures var call := OneCall(mem, p, NO_JUMPS, packetSize);
            call.Returns? && call.text == [114, 97, 110, 100, 111, 109, 48] && call.state.breakCheck
  {
    SecondSearch([], PointerOffset(mem, p), 0, packetSize);
  }

  /** So is a pointer into the header behind labels. */
  lemma HeaderPointerBehindReported(mem: Bytes, p: nat, packetSize: nat)
    requires 0 < At(mem, p) < JUMP_MARK && JUMP_MARK in CString(mem, p)
    requires FILL !in Before(CString(mem, p), JUMP_MARK)
    requires PointerOffset(mem, p + |Before(CString(mem, p), JUMP_MARK)|) < 12
    ensures var r := Jump(mem, p, NO_JUMPS, packetSize);
            r.answer == [114, 97, 110, 100, 111, 109, 48] && r.state.breakCheck
  {
    var raw := Before(CString(mem, p), JUMP_MARK);
    HeaderPointerBehindCall(mem, p, packetSize, raw, PointerOffset(mem, p + |raw|));
  }

  lemma HeaderPointerBehindCall(mem: Bytes, p: nat, packetSize: nat, raw: Bytes, off: nat)
    requires 0 < At(mem, p) < JUMP_MARK && JUMP_MARK in CString(mem, p) && FILL !in raw
    requires raw == Before(CString(mem, p), JUMP_MARK) && off == PointerOffset(mem, p + |raw|) && off < 12
    ensures var call := OneCall(mem, p, NO_JUMPS, packetSize);
            call.Returns? && call.text == [114, 97, 110, 100, 111, 109, 48] && call.state.breakCheck
  {
    HeaderBehindFails(mem, p, raw, packetSize, off);
    assert OneCall(mem, p, NO_JUMPS, packetSize) == BeforePointer(mem, p, raw, NO_JUMPS, packetSize);
  }

  lemma HeaderBehindFails(mem: Bytes, p: nat, raw: Bytes, packetSize: nat, off: nat)
    requires FILL !in raw && off == PointerOffset(mem, p + |raw|) && off < 12
    ensures BeforePointer(mem, p, raw, NO_JUMPS, packetSize)
         == Fail(NO_JUMPS.(log := Record(NO_JUMPS.log, off)), Random0)
  {
    SecondSearch([], off, 0, packetSize);
  }

  /** An unwritten byte in a text, up to the pointer behind it, is reported as "random4p1". */
  lemma TruncatedReported(mem: Bytes, p: nat, packetSize: int)
    requires 0 < At(mem, p) < JUMP_MARK && FILL in Before(CString(mem, p), JUMP_MARK)
    ensures var r := Jump(mem, p, NO_JUMPS, packetSize);
            r.answer == [114, 97, 110, 100, 111, 109, 52, 112, 49] && r.state.breakCheck
  {
    var s := CString(mem, p);
    if JUMP_MARK !in s {
      RemoveNumbersOfText(s);
      var i :| 0 <= i < |s| && s[i] == FILL;
      assert DotAll(s)[i] == FILL;
      TruncatedCall(mem, p, packetSize);
    } else {
      TruncatedMixedCall(mem, p, packetSize);
    }
  }

  lemma TruncatedCall(mem: Bytes, p: nat, packetSize: int)
    requires 0 < At(mem, p) < JUMP_MARK && JUMP_MARK !in CString(mem, p)
    requires FILL in RemoveNumbers(CString(mem, p))
    ensures var call := OneCall(mem, p, NO_JUMPS, packetSize);
            call.Returns? && call.text == [114, 97, 110, 100, 111, 109, 52, 112, 49] && call.state.breakCheck
  {
  }

  lemma TruncatedMixedCall(mem: Bytes, p: nat, packetSize: int)
    requires 0 < At(mem, p) < JUMP_MARK && JUMP_MARK in CString(mem, p)
    requires FILL in Before(CString(mem, p), JUMP_MARK)
    ensures var call := OneCall(mem, p, NO_JUMPS, packetSize);
            call.Returns? && call.text == [114, 97, 110, 100, 111, 109, 52, 112, 49] && call.state.breakCheck
  {
  }

  /** Behind a pointer the report depends on where the pointer leads: "random4p1" for a place
      within the packet, else "random7" for a pointer that ends the packet, else "random5". */
  lemma UnwrittenTargetReported(mem: Bytes, p: nat, packetSize: nat)
    requires At(mem, p) >= JUMP_MARK && FILL in Before(CString(mem, PointerOffset(mem, p)), JUMP_MARK)
    ensures var r, off := Jump(mem, p, NO_JUMPS, packetSize), PointerOffset(mem, p);
            && r.state.breakCheck
            && r.answer == if 12 < off <= packetSize then [114, 97, 110, 100, 111, 109, 52, 112, 49]
                           else if p + 1 == packetSize then [114, 97, 110, 100, 111, 109, 55]
                           else [114, 97, 110, 100, 111, 109, 53]
  {
    UnwrittenTargetCall(mem, p, packetSize, PointerOffset(mem, p));
  }

  lemma UnwrittenTargetCall(mem: Bytes, p: nat, packetSize: nat, off: nat)
    requires At(mem, p) >= JUMP_MARK && off == PointerOffset(mem, p)
    requires FILL in Before(CString(mem, off), JUMP_MARK)
    ensures var call := OneCall(mem, p, NO_JUMPS, packetSize);
            && call.Returns? && call.state.breakCheck
            && call.text == if 12 < off <= packetSize then [114, 97, 110, 100, 111, 109, 52, 112, 49]
                            else if p + 1 == packetSize then [114, 97, 110, 100, 111, 109, 55]
                            else [114, 97, 110, 100, 111, 109, 53]
  {
    SecondSearch([], off, 0, packetSize);
  }

  /** Only the first call starts at labels: every later one starts at a pointer that begins
      with C0, or at a zero byte. */
  lemma LaterCalls(mem: Bytes, p: nat, st: JumpState, packetSize: int)
    requires OneCall(mem, p, st, packetSize).Continues?
    ensures At(mem, OneCall(mem, p, st, packetSize).end) == 0xC0 || At(mem, OneCall(mem, p, st, packetSize).end) == 0
  {
    if At(mem, p) >= JUMP_MARK {
      LaterAtPointer(mem, p, st.(jumpCheck := true), packetSize);
    } else {
      LaterBehindLabels(mem, p, st, packetSize);
    }
  }

  lemma LaterAtPointer(mem: Bytes, p: nat, st: JumpState, packetSize: int)
    requires AtPointer(mem, p, st, packetSize).Continues?
    ensures var end := AtPointer(mem, p, st, packetSize).end; At(mem, end) == 0xC0 || At(mem, end) == 0
  {
    FrontEnds(mem, PointerOffset(mem, p));
  }

  lemma LaterBehindLabels(mem: Bytes, p: nat, st: JumpState, packetSize: int)
    requires At(mem, p) < JUMP_MARK && OneCall(mem, p, st, packetSize).Continues?
    ensures var end := OneCall(mem, p, st, packetSize).end; At(mem, end) == 0xC0 || At(mem, end) == 0
  {
    FrontEnds(mem, p);
  }

  /** A text ends at a C0 or at its zero byte. */
  lemma FrontEnds(mem: Bytes, pos: nat)
    ensures At(mem, pos + |Before(CString(mem, pos), JUMP_MARK)|) == JUMP_MARK
            || At(mem, pos + |Before(CString(mem, pos), JUMP_MARK)|) == 0
  {
  }

  /** On an error processJump stays where it is and drops the dots in front of the report. */
  lemma ErrorStays(mem: Bytes, p: nat, packetSize: int)
    requires At(mem, p) != FILL && Jump(mem, p, NO_JUMPS, packetSize).state.breakCheck
    ensures var r, answer := ProcessJump(mem, p, packetSize), Jump(mem, p, NO_JUMPS, packetSize).answer;
            && r.past == p && (r.answer == [] || r.answer[0] != DOT)
            && |r.answer| <= |answer| && r.answer == answer[|answer| - |r.answer|..]
            && forall i :: 0 <= i < |answer| - |r.answer| ==> answer[i] == DOT
  {
    ProcessJumpLands(mem, p, packetSize);
    StripsDots(Jump(mem, p, NO_JUMPS, packetSize).answer);
  }

  lemma {:induction false} StripsDots(s: Bytes)
    ensures var r := StripDots(s);
            && (r == [] || r[0] != DOT) && |r| <= |s| && r == s[|s| - |r|..]
            && forall i :: 0 <= i < |s| - |r| ==> s[i] == DOT
    decreases |s|
  {
    if s != [] && s[0] == DOT {
      StripsDots(s[1..]);
    }
  }
}
