/**
 The answer section of a reply: processJump moves the cursor over a name, and the loop reads
 one record after the other.
 */
module DnsAnswers {
  import opened Wrappers
  import opened DnsNames
  import opened DnsJump

  const DNS_A := 1
  const DNS_NS := 2
  const DNS_CNAME := 5
  const DNS_PTR := 12

  /** From where processJump lands to the record's data: the size of a pointer, and 3. */
  const DATA_OFFSET := 11

  /** checkErrors: the text is one of the error codes. */
  predicate IsError(answer: Bytes) {
    exists report: Report :: answer == Text(report)
  }

  datatype Line =
    | Address(name: Bytes, ip: Bytes)
    | Target(kind: nat, name: Bytes, target: Bytes)
    | Unknown(name: Bytes)

  datatype Section = Section(lines: seq<Line>, past: nat, terminated: bool)

  /** c_str() + 1 of a text without a zero byte. */
  function Tail(s: Bytes): Bytes {
    if s == [] then [] else s[1..]
  }

  /** One turn of the loop: at most one line, and whether the loop is left. */
  function AnswerRecord(mem: Bytes, bytes: int, past: nat): (r: Section)
    ensures |r.lines| <= 1
  {
    ReadNames(mem, bytes, Names(mem, bytes), past)
  }

  /** processJump on the packet. */
  function Names(mem: Bytes, bytes: int): nat -> Name {
    (past: nat) => ProcessJump(mem, past, bytes)
  }

  function ReadNames(mem: Bytes, bytes: int, names: nat -> Name, past: nat): (r: Section)
    ensures |r.lines| <= 1
  {
    ReadRecord(mem, bytes, names(past), names(names(past).past + DATA_OFFSET))
  }

  /** The rest of the turn, behind the owner's name; `target` is the name at the record's data,
      which only some types have. */
  function ReadRecord(mem: Bytes, bytes: int, name: Name, target: Name): (r: Section)
    ensures |r.lines| <= 1
  {
    if IsError(name.answer) then Section([], name.past, true)
    else
      // the struct laid over the cursor: its second field, in the machine's byte order
      var classDef := At(mem, name.past + 2) as nat + 256 * At(mem, name.past + 3) as nat;
      var cursor := name.past + DATA_OFFSET;
      if classDef == DNS_A then
        if cursor + 1 > bytes then Section([], cursor, true)
        else
          var ip := [At(mem, cursor), At(mem, cursor + 1), At(mem, cursor + 2), At(mem, cursor + 3)];
          Section([Address(Tail(name.answer), ip)], cursor + 4, false)
      else if classDef == DNS_NS || classDef == DNS_CNAME || classDef == DNS_PTR then
        ReadTarget(classDef, name.answer, target)
      else
        Section([Unknown(Tail(name.answer))], cursor, false)
  }

  /** The name a record of such a type holds. */
  function ReadTarget(kind: nat, owner: Bytes, target: Name): (r: Section)
    ensures |r.lines| <= 1
  {
    if IsError(target.answer) then Section([], target.past, true)
    else Section([Target(kind, Tail(owner), Tail(target.answer))], target.past, false)
  }

  function Prepend(lines: seq<Line>, rest: Section): Section {
    Section(lines + rest.lines, rest.past, rest.terminated)
  }

  lemma PrependNothing(rest: Section)
    ensures Prepend([], rest) == rest
  {
  }

  lemma PrependTwice(a: seq<Line>, b: seq<Line>, rest: Section)
    ensures Prepend(a, Prepend(b, rest)) == Prepend(a + b, rest)
  {
    assert a + (b + rest.lines) == (a + b) + rest.lines;
  }

  /** `n` turns of a loop that stops early when a turn says so. */
  function Turns(turn: nat -> Section, past: nat, n: nat): Section
    decreases n
  {
    if n == 0 then Section([], past, false)
    else if turn(past).terminated then turn(past)
    else Prepend(turn(past).lines, Turns(turn, turn(past).past, n - 1))
  }

  function Turn(mem: Bytes, bytes: int): nat -> Section {
    (past: nat) => AnswerRecord(mem, bytes, past)
  }

  /** What is left of a loop after one more turn that went on. */
  lemma OneTurn(turn: nat -> Section, past: nat, n: nat, lines: seq<Line>)
    requires 0 < n
    ensures var record := turn(past);
            if record.terminated then Turns(turn, past, n) == record
            else Prepend(lines, Turns(turn, past, n))
                 == Prepend(lines + record.lines, Turns(turn, record.past, n - 1))
  {
    if !turn(past).terminated {
      PrependTwice(lines, turn(past).lines, Turns(turn, turn(past).past, n - 1));
    }
  }

  /** The loop over the answer count of the header. */
  method ReadAnswers(buf: Bytes, bytes: int, pastHeader: nat, answers: nat) returns (s: Section)
    ensures s == Turns(Turn(buf, bytes), pastHeader, answers)
  {
    s := ReadTurns(Turn(buf, bytes), pastHeader, answers);
  }

  method ReadTurns(turn: nat -> Section, pastHeader: nat, answers: nat) returns (s: Section)
    ensures s == Turns(turn, pastHeader, answers)
  {
    var lines, past, i := [], pastHeader, 0;
    PrependNothing(Turns(turn, pastHeader, answers));
    while i < answers
      invariant i <= answers
      invariant Turns(turn, pastHeader, answers) == Prepend(lines, Turns(turn, past, answers - i))
    {
      var record := turn(past);
      OneTurn(turn, past, answers - i, lines);
      lines, past, i := lines + record.lines, record.past, i + 1;
      if record.terminated {
        return Section(lines, past, true);
      }
    }
    PrependTwice(lines, [], Section([], past, false));
    return Section(lines, past, false);
  }

  // ----- address records named by a pointer to the question

  /** The name at offset 12 is plain: not empty, ASCII, behind a length byte of at most 63. */
  predicate PlainQuestion(mem: Bytes) {
    var name := CString(mem, 12);
    name != [] && name[0] <= 63 && forall i :: 0 <= i < |name| ==> name[i] < 128
  }

  /** An A record at `p` whose name is the pointer C00C. */
  predicate AddressRecord(mem: Bytes, p: nat) {
    && p + 16 <= |mem|
    && mem[p] == 0xC0 && mem[p + 1] == 0x0C                                           // name
    && mem[p + 2] == 0 && mem[p + 3] == 1 && mem[p + 4] == 0 && mem[p + 5] == 1      // type A, class IN
    && mem[p + 10] == 0 && mem[p + 11] == 4                                           // length
  }

  predicate AddressRecords(mem: Bytes, p: nat, n: nat) {
    forall i :: 0 <= i < n ==> AddressRecord(mem, p + 16 * i)
  }

  function QuestionText(mem: Bytes): Bytes {
    Tail(RemoveNumbers(CString(mem, 12)))
  }

  /** The pointer C00C reads as the question's name in a single call. */
  lemma PointerToQuestion(mem: Bytes, p: nat, packetSize: int)
    requires PlainQuestion(mem) && At(mem, p) == 0xC0 && At(mem, p + 1) == 0x0C && 0 <= packetSize
    ensures Jump(mem, p, NO_JUMPS, packetSize)
         == JumpResult(RemoveNumbers(CString(mem, 12)), Noted(NO_JUMPS, 12), 1)
  {
    var name := CString(mem, 12);
    assert Find(name, JUMP_MARK).None? && Find(name, FILL).None?;
    PointerReturns(mem, p, NO_JUMPS, packetSize, 12, RemoveNumbers(name));
    JumpReturns(mem, p, NO_JUMPS, packetSize, RemoveNumbers(name), Noted(NO_JUMPS, 12));
  }

  lemma NotAnError(answer: Bytes)
    requires answer == [] || answer[0] != 114
    ensures !IsError(answer)
  {
    assert forall report :: Text(report)[0] == RANDOM[0];
  }

  /** The line for the address record at `p`. */
  function AddressAt(mem: Bytes, p: nat): Line {
    Address(QuestionText(mem), [At(mem, p + 12), At(mem, p + 13), At(mem, p + 14), At(mem, p + 15)])
  }

  /** What a turn of the loop gives: nothing and an end, or one line and the next position. */
  predicate Reads(turn: Section, line: Line, bad: bool, next: nat) {
    if bad then turn.terminated && turn.lines == [] else turn == Section([line], next, false)
  }

  /** One such record: read whole, unless the low byte of its TTL is CC. */
  lemma AddressRecordRead(mem: Bytes, bytes: int, p: nat)
    requires PlainQuestion(mem) && AddressRecord(mem, p) && p + 16 <= bytes
    ensures Reads(AnswerRecord(mem, bytes, p), AddressAt(mem, p), At(mem, p + 9) == FILL, p + 16)
  {
    PointedName(mem, bytes, p);
    AnswerIsNoError(mem);
    assert IsError(Text(Random4p2));
  }

  lemma AnswerIsNoError(mem: Bytes)
    requires PlainQuestion(mem)
    ensures !IsError(RemoveNumbers(CString(mem, 12)))
  {
    NotAnError(RemoveNumbers(CString(mem, 12)));
  }

  /** The name of such a record, with the cursor on the second byte of the pointer. */
  lemma PointedName(mem: Bytes, bytes: int, p: nat)
    requires PlainQuestion(mem) && At(mem, p) == 0xC0 && At(mem, p + 1) == 0x0C && 0 <= bytes
    ensures ProcessJump(mem, p, bytes)
         == if At(mem, p + 9) == FILL then Name(Text(Random4p2), p + 1)
            else Name(RemoveNumbers(CString(mem, 12)), p + 1)
  {
    PointerToQuestion(mem, p, bytes);
    LandAtPointer(mem, p, Jump(mem, p, NO_JUMPS, bytes));
    ProcessJumpLands(mem, p, bytes);
  }

  /** Record `i` of the section: where it is, its address, and whether its TTL ends in CC. */
  function Spaced(p: nat): nat -> nat {
    (i: nat) => p + 16 * i
  }

  function AddressOf(mem: Bytes, p: nat): nat -> Line {
    (i: nat) => AddressAt(mem, p + 16 * i)
  }

  function TtlEndsInFill(mem: Bytes, p: nat): nat -> bool {
    (i: nat) => At(mem, p + 16 * i + 9) == FILL
  }

  /** The first index below `n`, counted from `j`, at which `bad` holds; `n` if there is none. */
  function FirstBad(bad: nat -> bool, j: nat, n: nat): (k: nat)
    requires j <= n
    ensures j <= k <= n
    ensures forall i :: j <= i < k ==> !bad(i)
    ensures k < n ==> bad(k)
    decreases n - j
  {
    if j == n || bad(j) then j else FirstBad(bad, j + 1, n)
  }

  function Lines(line: nat -> Line, j: nat, k: nat): (r: seq<Line>)
    requires j <= k
    ensures |r| == k - j && forall i :: 0 <= i < |r| ==> r[i] == line(j + i)
    decreases k - j
  {
    if j == k then [] else [line(j)] + Lines(line, j + 1, k)
  }

  /** A turn at record `i` reads one line and moves to the next, unless the record is bad. */
  predicate ReadsRecord(turn: nat -> Section, line: nat -> Line, bad: nat -> bool, at: nat -> nat, i: nat) {
    Reads(turn(at(i)), line(i), bad(i), at(i + 1))
  }

  lemma {:induction false} TurnsRead(turn: nat -> Section, line: nat -> Line, bad: nat -> bool, at: nat -> nat,
                                     j: nat, n: nat)
    requires j <= n && forall i :: j <= i < n ==> ReadsRecord(turn, line, bad, at, i)
    ensures var r := Turns(turn, at(j), n - j);
            var k := FirstBad(bad, j, n);
            r.lines == Lines(line, j, k) && (r.terminated <==> k < n) && (k == n ==> r.past == at(n))
    decreases n - j
  {
    if j < n {
      assert ReadsRecord(turn, line, bad, at, j);
      if !bad(j) {
        TurnsRead(turn, line, bad, at, j + 1, n);
      }
    }
  }

  lemma AddressTurn(mem: Bytes, bytes: int, p: nat)
    requires PlainQuestion(mem) && AddressRecord(mem, p) && p + 16 <= bytes
    ensures Reads(Turn(mem, bytes)(p), AddressAt(mem, p), At(mem, p + 9) == FILL, p + 16)
  {
    AddressRecordRead(mem, bytes, p);
  }

  /** What a turn reads at its position, it reads of record `i`. */
  lemma RecordRead(turn: nat -> Section, mem: Bytes, p: nat, i: nat, q: nat)
    requires q == p + 16 * i && Reads(turn(q), AddressAt(mem, q), At(mem, q + 9) == FILL, q + 16)
    ensures ReadsRecord(turn, AddressOf(mem, p), TtlEndsInFill(mem, p), Spaced(p), i)
  {
  }

  /** For any number of records the loop reads the addresses, in order, up to the first TTL
      that ends in CC; it reads them all, and ends behind the section, exactly when no TTL
      does. */
  lemma AnswersRead(mem: Bytes, bytes: int, p: nat, n: nat)
    requires PlainQuestion(mem) && AddressRecords(mem, p, n) && p + 16 * n <= bytes
    ensures var r := Turns(Turn(mem, bytes), p, n);
            var k := FirstBad(TtlEndsInFill(mem, p), 0, n);
            && r.lines == Lines(AddressOf(mem, p), 0, k)
            && (r.terminated <==> k < n)
            && (k == n ==> r.past == p + 16 * n)
  {
    forall i: nat | 0 <= i < n
      ensures ReadsRecord(Turn(mem, bytes), AddressOf(mem, p), TtlEndsInFill(mem, p), Spaced(p), i)
    {
      assert AddressRecord(mem, p + 16 * i);
      AddressTurn(mem, bytes, p + 16 * i);
      RecordRead(Turn(mem, bytes), mem, p, i, p + 16 * i);
    }
    TurnsRead(Turn(mem, bytes), AddressOf(mem, p), TtlEndsInFill(mem, p), Spaced(p), 0, n);
  }
}
