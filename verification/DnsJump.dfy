/**
 Decompression of a name: `jump` follows pointers recursively, and `processJump` moves the
 cursor behind the name.
 */
module DnsJump {
  import opened Wrappers
  import opened DnsNames

  /** What jump's reference parameters hold. */
  datatype JumpState = JumpState(
    uncompressed: Bytes,
    firstJump: nat,
    jumpCheck: bool,
    checkCompression: bool,
    breakCheck: bool,
    log: Bytes)

  /** The text returned, the reference parameters afterwards, and how many calls it took. */
  datatype JumpResult = JumpResult(answer: Bytes, state: JumpState, calls: nat)

  /** The texts by which jump and its callers report an invalid record. */
  datatype Report = Random0 | Random1 | Random4p1 | Random4p2 | Random4p3 | Random5 | Random6 | Random7

  const RANDOM: Bytes := [114, 97, 110, 100, 111, 109]    // "random"

  function Text(report: Report): Bytes {
    RANDOM + match report
             case Random0 => [48]
             case Random1 => [49]
             case Random4p1 => [52, 112, 49]
             case Random4p2 => [52, 112, 50]
             case Random4p3 => [52, 112, 51]
             case Random5 => [53]
             case Random6 => [54]
             case Random7 => [55]
  }

  predicate ReportIs(report: Report, s: string) {
    |Text(report)| == |s| && forall i :: 0 <= i < |s| ==> Text(report)[i] as int == s[i] as int
  }

  /** The texts as the program writes them. */
  lemma ReportTexts()
    ensures ReportIs(Random0, "random0") && ReportIs(Random1, "random1") && ReportIs(Random5, "random5")
    ensures ReportIs(Random6, "random6") && ReportIs(Random7, "random7")
    ensures ReportIs(Random4p1, "random4p1") && ReportIs(Random4p2, "random4p2") && ReportIs(Random4p3, "random4p3")
  {
  }

  /** The 14-bit offset of the pointer at a position. */
  function PointerOffset(mem: Bytes, pos: nat): (off: nat)
    ensures off < OFFSETS
  {
    (At(mem, pos) as nat % 64) * 256 + At(mem, pos + 1) as nat
  }

  /** What one call of jump comes to: it returns, or it puts a text in front of what the next
      call returns. */
  datatype Call = Returns(text: Bytes, state: JumpState) | Continues(text: Bytes, end: nat, state: JumpState)

  function Fail(st: JumpState, report: Report): Call {
    Returns(Text(report), st.(breakCheck := true))
  }

  /** Jumps that may still happen before the loop check stops them. */
  ghost function JumpsLeft(st: JumpState, packetSize: int): nat {
    if st.firstJump <= packetSize then packetSize + 1 - st.firstJump else 0
  }

  /** Fewer jumps are left, or fewer offsets are unrecorded. */
  ghost predicate Descends(next: JumpState, st: JumpState, packetSize: int) {
    && JumpsLeft(next, packetSize) <= JumpsLeft(st, packetSize)
    && |Unrecorded(next.log)| <= |Unrecorded(st.log)|
    && JumpsLeft(next, packetSize) + |Unrecorded(next.log)| < JumpsLeft(st, packetSize) + |Unrecorded(st.log)|
  }

  lemma JumpDescends(st: JumpState, next: JumpState, off: nat, packetSize: int)
    requires off < OFFSETS && !LoopSuspected(st.log, off, st.firstJump, packetSize)
    requires next.log == Record(st.log, off) && next.firstJump == st.firstJump + 1
    ensures Descends(next, st, packetSize)
  {
    SecondSearch(st.log, off, st.firstJump, packetSize);
    RecordShrinks(st.log, off);
  }

  /** The body of jump up to its recursive calls. */
  function OneCall(mem: Bytes, curPos: nat, st: JumpState, packetSize: int): (r: Call)
    ensures r.Continues? ==> Descends(r.state, st, packetSize)
  {
    if At(mem, curPos) == 0 && At(mem, curPos + 1) == 0 then
      Fail(st, Random5)
    else if At(mem, curPos) >= JUMP_MARK then
      AtPointer(mem, curPos, st.(jumpCheck := true), packetSize)
    else
      var whole := CString(mem, curPos);
      match Find(whole, JUMP_MARK)
      case Some(i) =>
        BeforePointer(mem, curPos, whole[..i], st, packetSize)
      case None =>
        var name := RemoveNumbers(whole);
        if Find(name, FILL).Some? then Fail(st, Random4p1) else Returns(name, st)
  }

  /** The branch for a pointer at the position. */
  function AtPointer(mem: Bytes, curPos: nat, st: JumpState, packetSize: int): (r: Call)
    ensures r.Continues? ==> Descends(r.state, st, packetSize)
  {
    var off := PointerOffset(mem, curPos);
    if LoopSuspected(st.log, off, st.firstJump, packetSize) then
      Fail(st, Random6)
    else
      var recorded := st.(log := Record(st.log, off));
      var copy := Before(CString(mem, off), JUMP_MARK);
      if Find(copy, FILL).Some? then
        Fail(recorded,
             if off > packetSize || off <= 12 then (if curPos + 1 == packetSize then Random7 else Random5)
             else Random4p1)
      else if off < 12 then
        Fail(recorded, Random0)
      else
        var name := RemoveNumbers(copy);
        var end := off + |name|;
        if At(mem, end) == 0 && off < 512 then
          Returns(name, recorded)
        else
          var next := recorded.(firstJump := recorded.firstJump + 1);
          JumpDescends(st, next, off, packetSize);
          Continues(name, end, next)
  }

  /** The branch for text in front of a pointer. */
  function BeforePointer(mem: Bytes, curPos: nat, modifier: Bytes, st: JumpState, packetSize: int): (r: Call)
    ensures r.Continues? ==> Descends(r.state, st, packetSize)
  {
    var pointer := curPos + |modifier|;
    if Find(modifier, FILL).Some? then
      Fail(st, Random4p1)
    else
      var off := PointerOffset(mem, pointer);
      if LoopSuspected(st.log, off, st.firstJump, packetSize) then
        Fail(st, Random6)
      else
        var recorded := st.(log := Record(st.log, off));
        if off < 12 then
          Fail(recorded, Random0)
        else
          var kept := if recorded.firstJump == 0 then recorded.(uncompressed := modifier, checkCompression := true)
                      else recorded;
          var name := RemoveNumbers(modifier);
          if At(mem, pointer) == 0 then
            Returns(name, kept)
          else
            var next := kept.(firstJump := kept.firstJump + 1);
            JumpDescends(st, next, off, packetSize);
            Continues(name, pointer, next)
  }

  /** jump. Its recursion ends on every memory content, after at most as many calls as jumps
      are left and offsets are unrecorded, plus one. */
  function Jump(mem: Bytes, curPos: nat, st: JumpState, packetSize: int): (r: JumpResult)
    ensures r.calls <= JumpsLeft(st, packetSize) + |Unrecorded(st.log)| + 1
    decreases JumpsLeft(st, packetSize) + |Unrecorded(st.log)|
  {
    match OneCall(mem, curPos, st, packetSize)
    case Returns(name, state) => JumpResult(name, state, 1)
    case Continues(name, end, state) => Then(name, Jump(mem, end, state, packetSize))
  }

  function Then(name: Bytes, rest: JumpResult): JumpResult {
    JumpResult(name + rest.answer, rest.state, rest.calls + 1)
  }

  const NO_JUMPS := JumpState([], 0, false, false, false, [])

  /** From the start processJump gives it, jump makes at most packet_size + 2^14 + 2 calls,
      whatever the packet and the memory behind it contain. */
  lemma JumpTerminates(mem: Bytes, curPos: nat, packetSize: nat)
    ensures Jump(mem, curPos, NO_JUMPS, packetSize).calls <= packetSize + 16384 + 2
  {
    RangeCount(OFFSETS, Unrecorded([]));
  }

  // ----- single calls

  function Noted(st: JumpState, off: nat): JumpState {
    st.(jumpCheck := true, log := Record(st.log, off))
  }

  /** The state in which the next call starts. */
  function After(st: JumpState, off: nat): JumpState {
    Noted(st, off).(firstJump := st.firstJump + 1)
  }

  /** Text that jump can read at `pos`, and what it makes of it. */
  predicate ReadableAs(mem: Bytes, pos: nat, name: Bytes) {
    && Find(Before(CString(mem, pos), JUMP_MARK), FILL).None?
    && RemoveNumbers(Before(CString(mem, pos), JUMP_MARK)) == name
  }

  /** One call at a pointer to text that ends in a zero byte. */
  lemma PointerReturns(mem: Bytes, p: nat, st: JumpState, packetSize: int, off: nat, name: Bytes)
    requires At(mem, p) >= JUMP_MARK && PointerOffset(mem, p) == off && 12 <= off < 512
    requires st.firstJump <= packetSize && ReadableAs(mem, off, name) && At(mem, off + |name|) == 0
    ensures OneCall(mem, p, st, packetSize) == Returns(name, Noted(st, off))
  {
    SecondSearch(st.log, off, st.firstJump, packetSize);
  }

  /** One call at a pointer to text that ends otherwise, or lies behind offset 511. */
  lemma PointerContinues(mem: Bytes, p: nat, st: JumpState, packetSize: int, off: nat, name: Bytes)
    requires At(mem, p) >= JUMP_MARK && PointerOffset(mem, p) == off && 12 <= off
    requires st.firstJump <= packetSize && ReadableAs(mem, off, name) && (At(mem, off + |name|) != 0 || 512 <= off)
    ensures OneCall(mem, p, st, packetSize) == Continues(name, off + |name|, After(st, off))
  {
    SecondSearch(st.log, off, st.firstJump, packetSize);
  }

  lemma JumpReturns(mem: Bytes, p: nat, st: JumpState, packetSize: int, name: Bytes, next: JumpState)
    requires OneCall(mem, p, st, packetSize) == Returns(name, next)
    ensures Jump(mem, p, st, packetSize) == JumpResult(name, next, 1)
  {
  }

  /** A call that continues puts its text in front of what the next one returns. */
  lemma JumpGoesOn(mem: Bytes, p: nat, st: JumpState, packetSize: int, name: Bytes, end: nat, next: JumpState)
    requires OneCall(mem, p, st, packetSize) == Continues(name, end, next)
    ensures Jump(mem, p, st, packetSize) == Then(name, Jump(mem, end, next, packetSize))
  {
  }

  // ----- the cursor

  predicate IsAlpha(b: byte) {
    65 <= b <= 90 || 97 <= b <= 122
  }

  function StripDots(s: Bytes): Bytes {
    if s != [] && s[0] == DOT then StripDots(s[1..]) else s
  }

  /** A name, and the cursor behind it; an error code leaves the cursor somewhere before. */
  datatype Name = Name(answer: Bytes, past: nat)

  function ProcessJump(mem: Bytes, past: nat, packetSize: int): Name {
    if At(mem, past) == FILL then Name(Text(Random1), past)
    else Land(mem, past, Jump(mem, past, NO_JUMPS, packetSize))
  }

  /** Where the cursor goes once jump returned. */
  function Land(mem: Bytes, past: nat, r: JumpResult): Name {
    if r.state.breakCheck then
      Name(StripDots(r.answer), past)
    else if r.state.checkCompression then
      Name(r.answer, past + |r.state.uncompressed| + 2)
    else
      Settle(mem, r.answer, past + (if r.state.jumpCheck then 0 else |r.answer|) + 1)
  }

  /** The last adjustments of the cursor. */
  function Settle(mem: Bytes, answer: Bytes, cursor: nat): Name
    requires 1 <= cursor
  {
    var back := && 2 <= cursor && IsAlpha(At(mem, cursor - 2))
                && answer != [] && At(mem, cursor - 2) == answer[|answer| - 1]
                && At(mem, cursor - 1) == 0 && At(mem, cursor) == 0;
    var landed := if back then cursor - 1 else cursor;
    if At(mem, landed + 8) == FILL then Name(Text(Random4p2), landed) else Name(answer, landed)
  }

  lemma ProcessJumpLands(mem: Bytes, past: nat, packetSize: int)
    requires At(mem, past) != FILL
    ensures ProcessJump(mem, past, packetSize) == Land(mem, past, Jump(mem, past, NO_JUMPS, packetSize))
  {
  }

  lemma SettleOnPointer(mem: Bytes, answer: Bytes, p: nat)
    requires At(mem, p) != 0
    ensures Settle(mem, answer, p + 1)
         == if At(mem, p + 9) == FILL then Name(Text(Random4p2), p + 1) else Name(answer, p + 1)
  {
  }

  lemma LandAtPointer(mem: Bytes, p: nat, r: JumpResult)
    requires At(mem, p) != 0 && r.state.jumpCheck && !r.state.breakCheck && !r.state.checkCompression
    ensures Land(mem, p, r)
         == if At(mem, p + 9) == FILL then Name(Text(Random4p2), p + 1) else Name(r.answer, p + 1)
  {
    SettleOnPointer(mem, r.answer, p);
  }
}
