/**
 For which records the answer loop reads what is there and stays in step with the section.
 */
module DnsRecords {
  import opened Wrappers
  import opened DnsNames
  import opened DnsJump
  import opened DnsExpand
  import opened DnsCursor
  import opened DnsAnswers

  /** A name other than the root of which jump recognises all pointers. */
  predicate IsName(mem: Bytes, p: nat) {
    && Expand(mem, p, p).Some? && Expand(mem, p, p).value != []
    && mem[p] != 0 && Recognised(mem, p)
  }

  /** A record of section 4.1.3 of RFC 1035, of class IN and type A (1), NS (2), CNAME (5) or
      PTR (12). */
  predicate IsRecord(mem: Bytes, p: nat) {
    && IsName(mem, p)
    && var e := NameEnd(mem, p, p);
       && e + 10 <= |mem| && mem[e] == 0 && mem[e + 2] == 0 && mem[e + 3] == 1
       && var length := 256 * mem[e + 8] as nat + mem[e + 9] as nat;
          if mem[e + 1] == 1 then length == 4 && e + 14 <= |mem|
          else
            && (mem[e + 1] == 2 || mem[e + 1] == 5 || mem[e + 1] == 12)
            && IsName(mem, e + 10) && length == NameEnd(mem, e + 10, e + 10) - (e + 10)
  }

  function RecordEnd(mem: Bytes, p: nat): (end: nat)
    requires IsRecord(mem, p)
    ensures p < end
  {
    var e := NameEnd(mem, p, p);
    if mem[e + 1] == 1 then e + 14 else NameEnd(mem, e + 10, e + 10)
  }

  /** What the tool should print for it. */
  function RecordLine(mem: Bytes, p: nat): Line
    requires IsRecord(mem, p)
  {
    var e := NameEnd(mem, p, p);
    if mem[e + 1] == 1 then
      Address(Tail(NameText(mem, p)), [mem[e + 10], mem[e + 11], mem[e + 12], mem[e + 13]])
    else Target(mem[e + 1] as nat, Tail(NameText(mem, p)), Tail(NameText(mem, e + 10)))
  }

  /** The owner's name is a single pointer, or labels that end in a letter; no byte CC is in
      front of it or at the end of the TTL. */
  predicate OwnerInStep(mem: Bytes, p: nat)
    requires IsRecord(mem, p)
  {
    var e := NameEnd(mem, p, p);
    && mem[p] != FILL
    && (mem[p] >= JUMP_MARK || (!IsMixed(mem, p) && IsLetter(mem[e - 2])))
    && mem[e + 7] != FILL
  }

  /** The target's name is labels and a pointer, or labels alone such that the last character
      is no letter or no zero byte follows, and no byte CC eight bytes on. */
  predicate TargetInStep(mem: Bytes, t: nat)
    requires IsName(mem, t)
  {
    var end := NameEnd(mem, t, t);
    && mem[t] < JUMP_MARK
    && (IsMixed(mem, t) || (!(IsLetter(mem[end - 2]) && At(mem, end) == 0) && At(mem, end + 8) != FILL))
  }

  predicate InStep(mem: Bytes, p: nat)
    requires IsRecord(mem, p)
  {
    var e := NameEnd(mem, p, p);
    OwnerInStep(mem, p) && (mem[e + 1] == 1 || TargetInStep(mem, e + 10))
  }

  function Right(mem: Bytes, p: nat): Section
    requires IsRecord(mem, p)
  {
    Section([RecordLine(mem, p)], RecordEnd(mem, p), false)
  }

  // ----- one record

  lemma NameTextIsNoError(mem: Bytes, p: nat)
    requires Expand(mem, p, p).Some?
    ensures !IsError(NameText(mem, p))
  {
    ExpandGivesLabels(mem, p, p);
    DotsStart(Expand(mem, p, p).value);
    NotAnError(NameText(mem, p));
  }

  lemma ReportsAreErrors()
    ensures forall report: Report :: IsError(Text(report))
  {
  }

  /** Where the cursor lands behind an owner and behind a target. */
  lemma OwnerLanding(mem: Bytes, p: nat)
    requires IsRecord(mem, p)
    ensures var e := NameEnd(mem, p, p);
            if OwnerInStep(mem, p) then Landed(mem, p) == Name(NameText(mem, p), e - 1)
            else IsError(Landed(mem, p).answer) || Landed(mem, p).past == e
  {
    ReportsAreErrors();
    if mem[p] < JUMP_MARK && !IsMixed(mem, p) {
      LastCharacter(mem, p);
    }
  }

  lemma TargetLanding(mem: Bytes, t: nat)
    requires IsName(mem, t)
    ensures if TargetInStep(mem, t) then Landed(mem, t) == Name(NameText(mem, t), NameEnd(mem, t, t))
            else IsError(Landed(mem, t).answer) || Landed(mem, t).past == NameEnd(mem, t, t) - 1
  {
    ReportsAreErrors();
    if mem[t] < JUMP_MARK && !IsMixed(mem, t) {
      LastCharacter(mem, t);
    }
  }

  // ----- how the rest of a turn reads on from the name

  lemma ReadError(mem: Bytes, bytes: int, name: Name, target: Name)
    requires IsError(name.answer)
    ensures ReadRecord(mem, bytes, name, target).terminated
  {
  }

  lemma ReadAddress(mem: Bytes, bytes: int, name: Name, target: Name, cursor: nat)
    requires !IsError(name.answer) && At(mem, name.past + 2) == 1 && At(mem, name.past + 3) == 0
    requires cursor == name.past + DATA_OFFSET && cursor + 1 <= bytes
    ensures ReadRecord(mem, bytes, name, target)
         == Section([Address(Tail(name.answer),
                             [At(mem, cursor), At(mem, cursor + 1), At(mem, cursor + 2), At(mem, cursor + 3)])],
                    cursor + 4, false)
  {
  }

  lemma ReadUnknown(mem: Bytes, bytes: int, name: Name, target: Name)
    requires !IsError(name.answer) && At(mem, name.past + 2) == 0 && At(mem, name.past + 3) == 1
    ensures ReadRecord(mem, bytes, name, target).lines == [Unknown(Tail(name.answer))]
  {
  }

  lemma ReadNamed(mem: Bytes, bytes: int, name: Name, target: Name, kind: byte)
    requires !IsError(name.answer) && At(mem, name.past + 2) == kind && At(mem, name.past + 3) == 0
    requires kind == 2 || kind == 5 || kind == 12
    ensures ReadRecord(mem, bytes, name, target)
         == ReadTarget(kind as nat, name.answer, target)
  {
  }

  /** One byte too far, class and type are read as 256, and the record is unknown. */
  lemma OwnerOffByOne(mem: Bytes, bytes: int, p: nat, name: Name, target: Name)
    requires IsRecord(mem, p) && (IsError(name.answer) || name.past == NameEnd(mem, p, p))
    ensures ReadRecord(mem, bytes, name, target) != Right(mem, p)
  {
    if IsError(name.answer) {
      ReadError(mem, bytes, name, target);
    } else {
      ReadUnknown(mem, bytes, name, target);
    }
  }

  lemma AddressRead(mem: Bytes, bytes: int, p: nat, name: Name, target: Name)
    requires IsRecord(mem, p) && mem[NameEnd(mem, p, p) + 1] == 1 && RecordEnd(mem, p) <= bytes
    requires name == Name(NameText(mem, p), NameEnd(mem, p, p) - 1)
    ensures ReadRecord(mem, bytes, name, target) == Right(mem, p)
  {
    NameTextIsNoError(mem, p);
    ReadAddress(mem, bytes, name, target, NameEnd(mem, p, p) + 10);
  }

  lemma TargetRead(mem: Bytes, bytes: int, p: nat, name: Name, t: nat, target: Name)
    requires IsRecord(mem, p) && t == NameEnd(mem, p, p) + 10 && mem[t - 9] != 1
    requires name == Name(NameText(mem, p), t - DATA_OFFSET) && target == Landed(mem, t)
    ensures ReadRecord(mem, bytes, name, target) == Right(mem, p) <==> TargetInStep(mem, t)
  {
    NameTextIsNoError(mem, p);
    ReadNamed(mem, bytes, name, target, mem[t - 9]);
    TargetExactly(mem, p, t, target);
  }

  lemma TargetExactly(mem: Bytes, p: nat, t: nat, target: Name)
    requires IsRecord(mem, p) && t == NameEnd(mem, p, p) + 10 && mem[t - 9] != 1
    requires target == Landed(mem, t)
    ensures ReadTarget(mem[t - 9] as nat, NameText(mem, p), target) == Right(mem, p) <==> TargetInStep(mem, t)
  {
    NameTextIsNoError(mem, t);
    TargetLanding(mem, t);
  }

  /** The record as it is read with any function for the names that is right on its own. */
  lemma RecordJudged(mem: Bytes, bytes: int, p: nat, names: nat -> Name)
    requires IsRecord(mem, p) && RecordEnd(mem, p) <= bytes && names(p) == Landed(mem, p)
    requires var e := NameEnd(mem, p, p);
             OwnerInStep(mem, p) && mem[e + 1] != 1 ==> names(e + 10) == Landed(mem, e + 10)
    ensures ReadNames(mem, bytes, names, p) == Right(mem, p) <==> InStep(mem, p)
  {
    OwnerLanding(mem, p);
    if !OwnerInStep(mem, p) {
      OwnerOffByOne(mem, bytes, p, names(p), names(names(p).past + DATA_OFFSET));
    } else if mem[NameEnd(mem, p, p) + 1] == 1 {
      AddressRead(mem, bytes, p, names(p), names(names(p).past + DATA_OFFSET));
    } else {
      TargetJudged(mem, bytes, p, NameEnd(mem, p, p) + 10, names);
    }
  }

  lemma TargetJudged(mem: Bytes, bytes: int, p: nat, t: nat, names: nat -> Name)
    requires IsRecord(mem, p) && t == NameEnd(mem, p, p) + 10 && mem[t - 9] != 1
    requires names(p) == Name(NameText(mem, p), t - DATA_OFFSET) && names(t) == Landed(mem, t)
    ensures ReadNames(mem, bytes, names, p) == Right(mem, p) <==> TargetInStep(mem, t)
  {
    TargetRead(mem, bytes, p, names(p), t, names(t));
  }

  lemma NamesLand(mem: Bytes, bytes: int, p: nat)
    requires IsName(mem, p) && p < bytes
    ensures Names(mem, bytes)(p) == Landed(mem, p)
  {
    CursorBehindName(mem, p, bytes);
  }

  /** A turn of the loop prints the record and lands at its end exactly when it is in step. */
  lemma RecordExactly(mem: Bytes, bytes: int, p: nat)
    requires IsRecord(mem, p) && RecordEnd(mem, p) <= bytes
    ensures AnswerRecord(mem, bytes, p) == Right(mem, p) <==> InStep(mem, p)
  {
    NamesLand(mem, bytes, p);
    if mem[NameEnd(mem, p, p) + 1] != 1 {
      NamesLand(mem, bytes, NameEnd(mem, p, p) + 10);
    }
    RecordJudged(mem, bytes, p, Names(mem, bytes));
  }

  // ----- other records

  /** The beginning of a record of class IN with an owner that is in step. */
  predicate BeginsRecord(mem: Bytes, p: nat) {
    && IsName(mem, p)
    && var e := NameEnd(mem, p, p);
       && e + 10 <= |mem| && mem[e] == 0 && mem[e + 2] == 0 && mem[e + 3] == 1
       && mem[p] != FILL && mem[e + 7] != FILL
       && (mem[p] >= JUMP_MARK || (!IsMixed(mem, p) && IsLetter(mem[e - 2])))
  }

  lemma BeginsLanding(mem: Bytes, p: nat)
    requires BeginsRecord(mem, p)
    ensures Landed(mem, p) == Name(NameText(mem, p), NameEnd(mem, p, p) - 1)
    ensures !IsError(NameText(mem, p))
  {
    NameTextIsNoError(mem, p);
    if mem[p] < JUMP_MARK {
      LastCharacter(mem, p);
    }
  }

  /** A record of another type prints its owner only, and the loop goes on at its data. */
  lemma OtherType(mem: Bytes, bytes: int, p: nat)
    requires BeginsRecord(mem, p) && p < bytes && mem[NameEnd(mem, p, p) + 1] !in [1, 2, 5, 12]
    ensures AnswerRecord(mem, bytes, p)
         == Section([Unknown(Tail(NameText(mem, p)))], NameEnd(mem, p, p) + 10, false)
  {
    NamesLand(mem, bytes, p);
    BeginsLanding(mem, p);
    OtherTypeRead(mem, bytes, p, Names(mem, bytes));
  }

  lemma OtherTypeRead(mem: Bytes, bytes: int, p: nat, names: nat -> Name)
    requires BeginsRecord(mem, p) && mem[NameEnd(mem, p, p) + 1] !in [1, 2, 5, 12]
    requires names(p) == Name(NameText(mem, p), NameEnd(mem, p, p) - 1) && !IsError(NameText(mem, p))
    ensures ReadNames(mem, bytes, names, p)
         == Section([Unknown(Tail(NameText(mem, p)))], NameEnd(mem, p, p) + 10, false)
  {
  }

  /** An address that begins behind the packet ends the loop; one that begins within is read,
      even where it runs over the end. */
  predicate ReadsAddress(mem: Bytes, bytes: int, text: Bytes, d: nat, r: Section) {
    if d < bytes then
      r == Section([Address(Tail(text), [At(mem, d), At(mem, d + 1), At(mem, d + 2), At(mem, d + 3)])], d + 4, false)
    else r.terminated && r.lines == []
  }

  lemma AddressAtEnd(mem: Bytes, bytes: int, p: nat)
    requires BeginsRecord(mem, p) && p < bytes && mem[NameEnd(mem, p, p) + 1] == 1
    ensures ReadsAddress(mem, bytes, NameText(mem, p), NameEnd(mem, p, p) + 10, AnswerRecord(mem, bytes, p))
  {
    NamesLand(mem, bytes, p);
    BeginsLanding(mem, p);
    AddressAtEndRead(mem, bytes, NameEnd(mem, p, p) + 10, p, NameText(mem, p), Names(mem, bytes));
  }

  lemma AddressAtEndRead(mem: Bytes, bytes: int, d: nat, p: nat, text: Bytes, names: nat -> Name)
    requires 11 <= d && names(p) == Name(text, d - 11) && !IsError(text)
    requires At(mem, d - 9) == 1 && At(mem, d - 8) == 0
    ensures ReadsAddress(mem, bytes, text, d, ReadNames(mem, bytes, names, p))
  {
  }

  // ----- the section

  predicate AreRecords(mem: Bytes, p: nat, n: nat)
    decreases n
  {
    n == 0 || (IsRecord(mem, p) && AreRecords(mem, RecordEnd(mem, p), n - 1))
  }

  /** Where record `i` of the section begins, and the lines of those before it. */
  function Position(mem: Bytes, p: nat, i: nat): nat
    requires AreRecords(mem, p, i)
    decreases i
  {
    if i == 0 then p else Position(mem, RecordEnd(mem, p), i - 1)
  }

  function RecordLines(mem: Bytes, p: nat, i: nat): (r: seq<Line>)
    requires AreRecords(mem, p, i)
    ensures |r| == i
    decreases i
  {
    if i == 0 then [] else [RecordLine(mem, p)] + RecordLines(mem, RecordEnd(mem, p), i - 1)
  }

  predicate AllInStep(mem: Bytes, p: nat, n: nat)
    requires AreRecords(mem, p, n)
    decreases n
  {
    n == 0 || (InStep(mem, p) && AllInStep(mem, RecordEnd(mem, p), n - 1))
  }

  lemma {:induction false} PositionGrows(mem: Bytes, p: nat, n: nat)
    requires AreRecords(mem, p, n)
    ensures p <= Position(mem, p, n)
    decreases n
  {
    if n > 0 {
      PositionGrows(mem, RecordEnd(mem, p), n - 1);
    }
  }

  /** After `i` turns the loop printed the first `i` records and stands behind them. */
  predicate InStepAfter(turn: nat -> Section, mem: Bytes, p: nat, i: nat)
    requires AreRecords(mem, p, i)
  {
    Turns(turn, p, i) == Section(RecordLines(mem, p, i), Position(mem, p, i), false)
  }

  lemma FirstRight(turn: nat -> Section, mem: Bytes, p: nat)
    requires IsRecord(mem, p)
    ensures AreRecords(mem, p, 1)
    ensures InStepAfter(turn, mem, p, 1) <==> turn(p) == Right(mem, p)
  {
    assert AreRecords(mem, RecordEnd(mem, p), 0);
    assert RecordLines(mem, p, 1) == [RecordLine(mem, p)];
    assert Turns(turn, turn(p).past, 0) == Section([], turn(p).past, false);
  }

  lemma OneMore(turn: nat -> Section, mem: Bytes, p: nat, j: nat)
    requires IsRecord(mem, p) && turn(p) == Right(mem, p) && AreRecords(mem, RecordEnd(mem, p), j)
    ensures InStepAfter(turn, mem, p, j + 1) <==> InStepAfter(turn, mem, RecordEnd(mem, p), j)
  {
    var rest := Turns(turn, RecordEnd(mem, p), j);
    var lines := RecordLines(mem, RecordEnd(mem, p), j);
    assert Turns(turn, p, j + 1) == Section([RecordLine(mem, p)] + rest.lines, rest.past, rest.terminated);
    assert [RecordLine(mem, p)] + rest.lines == [RecordLine(mem, p)] + lines <==> rest.lines == lines by {
      assert ([RecordLine(mem, p)] + rest.lines)[1..] == rest.lines;
      assert ([RecordLine(mem, p)] + lines)[1..] == lines;
    }
  }

  ghost predicate InStepThroughout(turn: nat -> Section, mem: Bytes, p: nat, n: nat)
    requires AreRecords(mem, p, n)
  {
    forall i: nat :: i <= n && AreRecords(mem, p, i) ==> InStepAfter(turn, mem, p, i)
  }

  lemma ThroughoutRest(turn: nat -> Section, mem: Bytes, p: nat, n: nat)
    requires 0 < n && AreRecords(mem, p, n) && turn(p) == Right(mem, p) && InStepThroughout(turn, mem, p, n)
    ensures InStepThroughout(turn, mem, RecordEnd(mem, p), n - 1)
  {
    var q := RecordEnd(mem, p);
    forall j: nat | j <= n - 1 && AreRecords(mem, q, j) ensures InStepAfter(turn, mem, q, j) {
      OneMore(turn, mem, p, j);
      assert AreRecords(mem, p, j + 1);
    }
  }

  lemma ThroughoutMore(turn: nat -> Section, mem: Bytes, p: nat, n: nat)
    requires 0 < n && AreRecords(mem, p, n) && turn(p) == Right(mem, p)
    requires InStepThroughout(turn, mem, RecordEnd(mem, p), n - 1)
    ensures InStepThroughout(turn, mem, p, n)
  {
    forall i: nat | i <= n && AreRecords(mem, p, i) ensures InStepAfter(turn, mem, p, i) {
      if i > 0 {
        assert AreRecords(mem, RecordEnd(mem, p), i - 1);
        OneMore(turn, mem, p, i - 1);
      }
    }
  }

  lemma ThroughoutByOne(turn: nat -> Section, mem: Bytes, p: nat, n: nat)
    requires 0 < n && AreRecords(mem, p, n) && turn(p) == Right(mem, p)
    ensures InStepThroughout(turn, mem, p, n) <==> InStepThroughout(turn, mem, RecordEnd(mem, p), n - 1)
  {
    if InStepThroughout(turn, mem, p, n) {
      ThroughoutRest(turn, mem, p, n);
    }
    if InStepThroughout(turn, mem, RecordEnd(mem, p), n - 1) {
      ThroughoutMore(turn, mem, p, n);
    }
  }

  lemma {:induction false} SectionJudged(turn: nat -> Section, mem: Bytes, bytes: int, p: nat, n: nat)
    requires AreRecords(mem, p, n) && Position(mem, p, n) <= bytes
    requires forall q: nat :: IsRecord(mem, q) && RecordEnd(mem, q) <= bytes ==>
               (turn(q) == Right(mem, q) <==> InStep(mem, q))
    ensures InStepThroughout(turn, mem, p, n) <==> AllInStep(mem, p, n)
    decreases n
  {
    if n > 0 {
      var q := RecordEnd(mem, p);
      PositionGrows(mem, q, n - 1);
      FirstRight(turn, mem, p);
      SectionJudged(turn, mem, bytes, q, n - 1);
      if turn(p) == Right(mem, p) {
        ThroughoutByOne(turn, mem, p, n);
      }
    }
  }

  /** For any section of such records: the loop prints each of them and always stands at the
      next one exactly when all are in step. */
  lemma SectionInStep(mem: Bytes, bytes: int, p: nat, n: nat)
    requires AreRecords(mem, p, n) && Position(mem, p, n) <= bytes
    ensures InStepThroughout(Turn(mem, bytes), mem, p, n) <==> AllInStep(mem, p, n)
    ensures AllInStep(mem, p, n) ==>
              Turns(Turn(mem, bytes), p, n) == Section(RecordLines(mem, p, n), Position(mem, p, n), false)
  {
    forall q: nat | IsRecord(mem, q) && RecordEnd(mem, q) <= bytes
      ensures Turn(mem, bytes)(q) == Right(mem, q) <==> InStep(mem, q)
    {
      RecordExactly(mem, bytes, q);
    }
    SectionJudged(Turn(mem, bytes), mem, bytes, p, n);
  }
}
