/**
 Where processJump leaves the cursor behind a name.
 */
module DnsCursor {
  import opened Wrappers
  import opened DnsNames
  import opened DnsJump
  import opened DnsQuestion
  import opened DnsExpand

  function NameText(mem: Bytes, p: nat): Bytes
    requires Expand(mem, p, p).Some?
  {
    Dots(Expand(mem, p, p).value)
  }

  /** An ASCII letter. */
  predicate IsLetter(b: byte) {
    'A' <= b as char <= 'Z' || 'a' <= b as char <= 'z'
  }

  /** Labels in front of a pointer. */
  predicate IsMixed(mem: Bytes, p: nat)
    requires Expand(mem, p, p).Some?
  {
    mem[p] < JUMP_MARK && mem[LabelsEnd(mem, p, p)] != 0
  }

  /** Behind the name if labels come in front of a pointer; one byte before that for a pointer
      alone, and for labels alone if their last character is a letter and another zero byte
      follows. */
  function Landing(mem: Bytes, p: nat): nat
    requires Expand(mem, p, p).Some?
  {
    var end := NameEnd(mem, p, p);
    if mem[p] >= JUMP_MARK then end - 1
    else if IsMixed(mem, p) then end
    else if 2 <= end && IsLetter(mem[end - 2]) && At(mem, end) == 0 then end - 1
    else end
  }

  /** An unwritten byte in front is an error, and so is one eight bytes behind the landing,
      except behind labels and a pointer. */
  function Landed(mem: Bytes, p: nat): Name
    requires Expand(mem, p, p).Some?
  {
    if mem[p] == FILL then Name(Text(Random1), p)
    else if !IsMixed(mem, p) && At(mem, Landing(mem, p) + 8) == FILL then Name(Text(Random4p2), Landing(mem, p))
    else Name(NameText(mem, p), Landing(mem, p))
  }

  /** processJump on every name that jump recognises. */
  lemma CursorBehindName(mem: Bytes, p: nat, packetSize: int)
    requires Expand(mem, p, p).Some? && mem[p] != 0 && Recognised(mem, p) && p < packetSize
    ensures ProcessJump(mem, p, packetSize) == Landed(mem, p)
  {
    if mem[p] != FILL {
      var r := Jump(mem, p, NO_JUMPS, packetSize);
      JumpExpands(mem, p, packetSize);
      LandsBehind(mem, p, r);
      ProcessJumpLands(mem, p, packetSize);
    }
  }

  lemma LandsBehind(mem: Bytes, p: nat, r: JumpResult)
    requires Expand(mem, p, p).Some? && mem[p] != 0 && mem[p] != FILL && Decompressed(mem, p, r)
    ensures Land(mem, p, r) == Landed(mem, p)
  {
    if mem[p] >= JUMP_MARK {
      LandsOnPointer(mem, p, r);
    } else if IsMixed(mem, p) {
      LandsMixed(mem, p, r);
    } else {
      LastCharacter(mem, p);
      LandsPlain(mem, p, r);
    }
  }

  lemma LandsOnPointer(mem: Bytes, p: nat, r: JumpResult)
    requires Expand(mem, p, p).Some? && mem[p] >= JUMP_MARK && mem[p] != FILL && Decompressed(mem, p, r)
    ensures Land(mem, p, r) == Landed(mem, p)
  {
    LandAtPointer(mem, p, r);
  }

  lemma LandsMixed(mem: Bytes, p: nat, r: JumpResult)
    requires Expand(mem, p, p).Some? && 0 < mem[p] < JUMP_MARK && mem[p] != FILL && IsMixed(mem, p)
    requires Decompressed(mem, p, r)
    ensures Land(mem, p, r) == Landed(mem, p)
  {
  }

  /** The text of a name without a pointer ends in its last character. */
  lemma LastCharacter(mem: Bytes, p: nat)
    requires Expand(mem, p, p).Some? && 0 < mem[p] <= LABEL_MAX && !IsMixed(mem, p)
    ensures var end, text := NameEnd(mem, p, p), NameText(mem, p);
            2 <= end && text != [] && text[|text| - 1] == Dotted(mem[end - 2])
  {
    var raw := FindRun(mem, p, p);
    var last := LabelsEnd(mem, p, p) - 1;
    assert Dots([]) == [] && NameText(mem, p) == DotAll(raw);
    assert raw[|raw| - 1] == mem[last];
  }

  lemma LandsPlain(mem: Bytes, p: nat, r: JumpResult)
    requires Expand(mem, p, p).Some? && 0 < mem[p] <= LABEL_MAX && !IsMixed(mem, p) && Decompressed(mem, p, r)
    requires var end, text := NameEnd(mem, p, p), NameText(mem, p);
             2 <= end && text != [] && text[|text| - 1] == Dotted(mem[end - 2])
    ensures Land(mem, p, r) == Landed(mem, p)
  {
  }
}
