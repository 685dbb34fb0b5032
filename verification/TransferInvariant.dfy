/**
 The invariant of a transfer, conjunct by conjunct, and that every step keeps it as long
 as the worker does not transmit a slot that Send is halfway through filling.
 */
module TransferInvariant {
  import opened Wrappers
  import opened SenderModel
  import opened Transfer

  // ----- the conjuncts

  /** Sequence numbers for which Send holds, or already used, a credit. */
  function Acquired(s: System): nat {
    s.snd.sendSequenceNumber + if s.pc.Holding? || s.pc.HeaderWritten? || s.pc.PayloadWritten? then 1 else 0
  }

  /** Sequence numbers whose slot holds its chunk. */
  function Written(chunks: seq<Bytes>, s: System): nat
    requires s.snd.Valid()
  {
    s.snd.sendSequenceNumber
    + if s.pc.PayloadWritten? || (s.pc.HeaderWritten? && !HalfFilled(chunks, s)) then 1 else 0
  }

  /** Order of the counters, and conservation of the credits of `empty` and `full`. */
  predicate FlowInv(chunks: seq<Bytes>, s: System)
    requires s.snd.Valid()
  {
    var snd := s.snd;
    && snd.base <= |s.delivered| <= Written(chunks, s) <= Acquired(s) <= |chunks|
    && Acquired(s) <= snd.lastReleased
    && snd.empty + Acquired(s) == snd.lastReleased
    && snd.base == s.lastAck.ackSeq
    && snd.lastReleased == snd.base + Min(snd.window, s.lastAck.recvWnd)
    && snd.full <= snd.window
    && snd.nextToSend + snd.full + s.lost + (if s.pc.Published? then 1 else 0) == snd.sendSequenceNumber
    && snd.closeConnection == snd.closeCalled
    && (snd.closeCalled ==> s.pc.Idle? && snd.sendSequenceNumber == |chunks|)
    && (s.workerDone ==> WorkerMayExit(snd))
  }

  function RightEdge(ack: Ack): nat {
    ack.ackSeq + ack.recvWnd
  }

  /** Every ack ever sent: none beyond the receiver's state, and the right edge only grew. */
  ghost predicate AckInv(s: System) {
    && s.lastAck in s.acks
    && (forall a :: a in s.acks ==> a.ackSeq <= |s.delivered| && RightEdge(a) <= s.edge)
    && (forall a, b :: a in s.acks && b in s.acks && a.ackSeq < b.ackSeq ==> RightEdge(a) <= RightEdge(b))
  }

  /** The slot holds one of the first `written` chunks, complete under its own number. */
  predicate Holds(chunks: seq<Bytes>, slot: Slot, written: nat)
    requires slot.Valid()
  {
    && slot.seqNo.Some?
    && slot.seqNo.value < written <= |chunks|
    && |chunks[slot.seqNo.value]| <= MAX_PAYLOAD
    && slot.size == |chunks[slot.seqNo.value]| + HEADER_SIZE
    && slot.body[..|chunks[slot.seqNo.value]|] == chunks[slot.seqNo.value]
  }

  /** A half-filled slot: the new header over the old payload. */
  predicate Torn(chunks: seq<Bytes>, slot: Slot, q: nat) {
    q < |chunks| && slot.seqNo == Some(q) && slot.size == |chunks[q]| + HEADER_SIZE
  }

  predicate BeingFilled(chunks: seq<Bytes>, s: System, i: nat)
    requires s.snd.Valid()
  {
    HalfFilled(chunks, s) && i == s.snd.sendSequenceNumber % s.snd.window
  }

  ghost predicate SlotsInv(chunks: seq<Bytes>, s: System)
    requires s.snd.Valid()
  {
    && (forall i: nat :: i < s.snd.window ==>
          if BeingFilled(chunks, s, i) then Torn(chunks, s.snd.slots[i], s.snd.sendSequenceNumber)
          else s.snd.slots[i].seqNo == None || Holds(chunks, s.snd.slots[i], Written(chunks, s)))
    && (forall q: nat :: s.snd.base <= q < Written(chunks, s) ==> SlotOf(s.snd, q).seqNo == Some(q))
  }

  /** A datagram is faithful when it carries no header, or exactly the chunk it claims. */
  predicate Faithful(chunks: seq<Bytes>, p: Packet, written: nat) {
    p.seqNo == None || (p.seqNo.value < written <= |chunks| && p.payload == chunks[p.seqNo.value])
  }

  ghost predicate WireInv(chunks: seq<Bytes>, s: System)
    requires s.snd.Valid()
  {
    forall p :: p in s.wire ==> Faithful(chunks, p, Written(chunks, s))
  }

  predicate DeliveredInv(chunks: seq<Bytes>, s: System) {
    s.delivered <= chunks
  }

  /** The duplicate-ack counters are a function of the acks that came since the base moved. */
  predicate DupInv(s: System) {
    && s.snd.numRTX == s.dups
    && s.snd.dupAck == (if s.dups == 0 then 0 else s.dups + 1)
    && s.snd.duplicateAckCheck == (if s.dups == 0 then -1 else s.snd.base)
  }

  predicate Increasing(xs: seq<nat>) {
    forall i, j :: 0 <= i < j < |xs| ==> xs[i] < xs[j]
  }

  /** Fast retransmissions happen once per base, and their packets are never timed. */
  predicate HistoryInv(s: System) {
    && Increasing(s.fast)
    && |s.fast| == s.snd.fastRetransmits
    && (forall i :: 0 <= i < |s.fast| ==> s.fast[i] <= s.snd.base)
    && (forall i :: 0 <= i < |s.timed| ==> s.timed[i].packet < s.snd.base && s.timed[i].packet !in s.fast)
    && (s.snd.base in s.fast <==> 2 <= s.dups)
  }

  function TotalBytes(chunks: seq<Bytes>): nat {
    if chunks == [] then 0 else TotalBytes(chunks[..|chunks| - 1]) + |chunks[|chunks| - 1]|
  }

  predicate BytesInv(chunks: seq<Bytes>, s: System) {
    s.snd.base <= |chunks| && s.snd.bytesTotal == TotalBytes(chunks[..s.snd.base])
  }

  ghost predicate Inv(chunks: seq<Bytes>, s: System) {
    && WellFormed(chunks, s)
    && FlowInv(chunks, s)
    && AckInv(s)
    && SlotsInv(chunks, s)
    && WireInv(chunks, s)
    && DeliveredInv(chunks, s)
    && DupInv(s)
    && HistoryInv(s)
    && BytesInv(chunks, s)
  }

  // ----- arithmetic of the ring

  /** Sequence numbers that share a slot are at least a window apart. */
  lemma SharedSlot(a: nat, b: nat, window: nat)
    requires a < b && 1 <= window && a % window == b % window
    ensures a + window <= b
  {
    var turns := b / window - a / window;
    assert b - a == turns * window;
    assert turns <= 0 ==> turns * window <= 0;
  }

  /** Within one window, distinct sequence numbers live in distinct slots. */
  lemma SlotsDistinct(a: nat, b: nat, window: nat)
    requires a < b < a + window
    ensures a % window != b % window
  {
    if a % window == b % window {
      SharedSlot(a, b, window);
    }
  }

  // ----- one step: counters and credits

  /** An ack that moves the base asks `empty` for an amount that is never negative and never
      above its maximum, so nothing is lost when the call with 0 is refused. */
  lemma CreditStep(chunks: seq<Bytes>, s: System, ack: Ack)
    requires s.snd.Valid() && FlowInv(chunks, s) && AckInv(s)
    requires ack in s.acks && s.snd.base < ack.ackSeq
    ensures var asked := ack.ackSeq + Min(s.snd.window, ack.recvWnd) - s.snd.lastReleased;
            && 0 <= asked
            && s.snd.empty + asked <= s.snd.window
            && Release(s.snd.empty, asked, s.snd.window) == s.snd.empty + asked
  {
    assert RightEdge(s.lastAck) <= RightEdge(ack);
  }

  lemma FlowAdvanceStep(chunks: seq<Bytes>, s: System, ack: Ack, now: int)
    requires WellFormed(chunks, s) && FlowInv(chunks, s) && AckInv(s)
    requires ack in s.acks && !s.workerDone && s.snd.base < ack.ackSeq
    ensures FlowInv(chunks, ReceiveAckStep(s, ack, now))
  {
    CreditStep(chunks, s, ack);
    var snd := Advance(s.snd, ack, now);
    assert ReceiveAckStep(s, ack, now).snd == snd;
    assert snd.base == ack.ackSeq && snd.window == s.snd.window && snd.full == s.snd.full;
    assert snd.empty + Acquired(s) == snd.lastReleased;
  }

  lemma FlowDuplicateStep(chunks: seq<Bytes>, s: System, ack: Ack, now: int)
    requires WellFormed(chunks, s) && FlowInv(chunks, s)
    requires !s.workerDone && ack.ackSeq <= s.snd.base
    ensures FlowInv(chunks, ReceiveAckStep(s, ack, now))
  {
    var r := ReceiveAckStep(s, ack, now);
    DuplicateKeeps(chunks, s, ack, now);
    assert Written(chunks, r) == Written(chunks, s) && Acquired(r) == Acquired(s);
  }

  /** An ack that does not move the base touches no counter of the flow and no payload. */
  lemma DuplicateKeeps(chunks: seq<Bytes>, s: System, ack: Ack, now: int)
    requires WellFormed(chunks, s) && ack.ackSeq <= s.snd.base
    ensures var r := ReceiveAckStep(s, ack, now);
            && HalfFilled(chunks, r) == HalfFilled(chunks, s) && r.pc == s.pc && r.lost == s.lost
            && r.delivered == s.delivered && r.lastAck == s.lastAck && r.workerDone == s.workerDone
            && r.snd == s.snd.(slots := r.snd.slots, dupAck := r.snd.dupAck, numRTX := r.snd.numRTX,
                               duplicateAckCheck := r.snd.duplicateAckCheck,
                               fastRetransmits := r.snd.fastRetransmits)
  {
  }

  lemma FlowDeliverStep(chunks: seq<Bytes>, s: System, p: Packet)
    requires WellFormed(chunks, s) && FlowInv(chunks, s) && WireInv(chunks, s)
    requires p in s.wire && p.seqNo == Some(|s.delivered|)
    ensures FlowInv(chunks, s.(delivered := s.delivered + [p.payload]))
  {
    assert Faithful(chunks, p, Written(chunks, s));
  }

  lemma FlowSenderStep(chunks: seq<Bytes>, s: System, e: Event)
    requires WellFormed(chunks, s) && FlowInv(chunks, s) && Enabled(chunks, s, e)
    requires !e.EReceiveAck? && !e.EDeliver?
    ensures FlowInv(chunks, Apply(chunks, s, e))
  {
  }

  lemma FlowStep(chunks: seq<Bytes>, s: System, e: Event)
    requires WellFormed(chunks, s) && FlowInv(chunks, s) && AckInv(s) && WireInv(chunks, s)
    requires Enabled(chunks, s, e)
    ensures FlowInv(chunks, Apply(chunks, s, e))
  {
    match e {
      case EReceiveAck(ack, now) =>
        if s.snd.base < ack.ackSeq {
          FlowAdvanceStep(chunks, s, ack, now);
        } else {
          FlowDuplicateStep(chunks, s, ack, now);
        }
      case EDeliver(p) => FlowDeliverStep(chunks, s, p);
      case _ => FlowSenderStep(chunks, s, e);
    }
  }

  lemma AckStep(chunks: seq<Bytes>, s: System, e: Event)
    requires WellFormed(chunks, s) && AckInv(s) && Enabled(chunks, s, e)
    ensures AckInv(Apply(chunks, s, e))
  {
  }

  // ----- one step: contents of the ring

  /** What a transmission of slot `i` puts on the wire, unless Send is filling that slot. */
  lemma FaithfulDatagram(chunks: seq<Bytes>, s: System, i: nat)
    requires WellFormed(chunks, s) && SlotsInv(chunks, s)
    requires i < s.snd.window && !BeingFilled(chunks, s, i)
    ensures Faithful(chunks, Datagram(s.snd.slots[i]), Written(chunks, s))
  {
  }

  lemma SlotsFillStep(chunks: seq<Bytes>, s: System, e: Event)
    requires WellFormed(chunks, s) && FlowInv(chunks, s) && SlotsInv(chunks, s) && Enabled(chunks, s, e)
    requires e.EWriteHeader? || e.EWritePayload?
    ensures SlotsInv(chunks, Apply(chunks, s, e))
  {
    var snd := s.snd;
    var r := Apply(chunks, s, e);
    var q := snd.sendSequenceNumber;
    forall k: nat | snd.base <= k < q ensures k % snd.window != q % snd.window {
      SlotsDistinct(k, q, snd.window);
    }
    forall k: nat | r.snd.base <= k < Written(chunks, r) ensures SlotOf(r.snd, k).seqNo == Some(k) {
      if k < q {
        assert SlotOf(snd, k).seqNo == Some(k);
      }
    }
  }

  lemma SlotsStampStep(chunks: seq<Bytes>, s: System, r: System, i: nat, now: int)
    requires WellFormed(chunks, s) && WellFormed(chunks, r) && SlotsInv(chunks, s)
    requires i < s.snd.window
    requires r.snd.window == s.snd.window && r.snd.slots == Stamp(s.snd, i, now).slots
    requires r.snd.sendSequenceNumber == s.snd.sendSequenceNumber && r.pc == s.pc && s.snd.base <= r.snd.base
    ensures SlotsInv(chunks, r)
  {
    forall k: nat | r.snd.base <= k < Written(chunks, r) ensures SlotOf(r.snd, k).seqNo == Some(k) {
      assert SlotOf(s.snd, k).seqNo == Some(k);
    }
  }

  lemma SlotsKeptStep(chunks: seq<Bytes>, s: System, r: System)
    requires WellFormed(chunks, s) && WellFormed(chunks, r) && SlotsInv(chunks, s)
    requires r.snd.window == s.snd.window && r.snd.slots == s.snd.slots
    requires s.snd.base <= r.snd.base
    requires HalfFilled(chunks, r) == HalfFilled(chunks, s)
    requires HalfFilled(chunks, s) ==> r.snd.sendSequenceNumber == s.snd.sendSequenceNumber
    requires Written(chunks, r) == Written(chunks, s)
    ensures SlotsInv(chunks, r)
  {
    forall k: nat | r.snd.base <= k < Written(chunks, r) ensures SlotOf(r.snd, k).seqNo == Some(k) {
      assert SlotOf(s.snd, k).seqNo == Some(k);
    }
  }

  lemma SlotsWorkerStep(chunks: seq<Bytes>, s: System, e: Event)
    requires WellFormed(chunks, s) && SlotsInv(chunks, s) && Enabled(chunks, s, e)
    requires TransmittedSlot(s.snd, e).Some?
    ensures SlotsInv(chunks, Apply(chunks, s, e))
  {
    var now := match e case EFirstSend(t) => t case ETimeout(t) => t case EReceiveAck(_, t) => t case _ => 0;
    SlotsStampStep(chunks, s, Apply(chunks, s, e), TransmittedSlot(s.snd, e).value, now);
  }

  lemma SlotsStep(chunks: seq<Bytes>, s: System, e: Event)
    requires WellFormed(chunks, s) && FlowInv(chunks, s) && SlotsInv(chunks, s) && Enabled(chunks, s, e)
    ensures SlotsInv(chunks, Apply(chunks, s, e))
  {
    if e.EWriteHeader? || e.EWritePayload? {
      SlotsFillStep(chunks, s, e);
    } else if TransmittedSlot(s.snd, e).Some? {
      SlotsWorkerStep(chunks, s, e);
    } else {
      SlotsKeptStep(chunks, s, Apply(chunks, s, e));
    }
  }

  // ----- one step: the wire and the receiver

  /** The worker changes no payload and no header. */
  lemma WorkerKeepsWritten(chunks: seq<Bytes>, s: System, e: Event)
    requires WellFormed(chunks, s) && Enabled(chunks, s, e)
    requires e.EFirstSend? || e.ETimeout? || e.EReceiveAck?
    ensures Written(chunks, Apply(chunks, s, e)) == Written(chunks, s)
  {
    var r := Apply(chunks, s, e);
    var i := s.snd.sendSequenceNumber % s.snd.window;
    assert r.pc == s.pc && r.snd.sendSequenceNumber == s.snd.sendSequenceNumber;
    assert r.snd.slots[i].body == s.snd.slots[i].body;
  }

  lemma WrittenGrows(chunks: seq<Bytes>, s: System, e: Event)
    requires WellFormed(chunks, s) && Enabled(chunks, s, e)
    ensures Written(chunks, s) <= Written(chunks, Apply(chunks, s, e))
  {
    if e.EFirstSend? || e.ETimeout? || e.EReceiveAck? {
      WorkerKeepsWritten(chunks, s, e);
    }
  }

  lemma NewOnWire(chunks: seq<Bytes>, s: System, e: Event)
    requires WellFormed(chunks, s) && Enabled(chunks, s, e)
    ensures var sent := TransmittedSlot(s.snd, e);
            Apply(chunks, s, e).wire == s.wire + if sent.Some? then {Datagram(s.snd.slots[sent.value])} else {}
  {
  }

  lemma WireStep(chunks: seq<Bytes>, s: System, e: Event)
    requires WellFormed(chunks, s) && SlotsInv(chunks, s) && WireInv(chunks, s)
    requires Enabled(chunks, s, e) && !Racy(chunks, s, e) && Written(chunks, Apply(chunks, s, e)) <= |chunks|
    ensures WireInv(chunks, Apply(chunks, s, e))
  {
    var r := Apply(chunks, s, e);
    WrittenGrows(chunks, s, e);
    NewOnWire(chunks, s, e);
    if TransmittedSlot(s.snd, e).Some? {
      FaithfulDatagram(chunks, s, TransmittedSlot(s.snd, e).value);
    }
    FaithfulLonger(chunks, s.wire, Written(chunks, s), Written(chunks, r));
  }

  /** Faithful packets stay so while more slots are written. */
  lemma FaithfulLonger(chunks: seq<Bytes>, wire: set<Packet>, written: nat, more: nat)
    requires written <= more <= |chunks|
    requires forall p :: p in wire ==> Faithful(chunks, p, written)
    ensures forall p :: p in wire ==> Faithful(chunks, p, more)
  {
  }

  lemma DeliveredStep(chunks: seq<Bytes>, s: System, e: Event)
    requires WellFormed(chunks, s) && WireInv(chunks, s) && DeliveredInv(chunks, s) && Enabled(chunks, s, e)
    ensures DeliveredInv(chunks, Apply(chunks, s, e))
  {
    match e {
      case EDeliver(p) => assert Faithful(chunks, p, Written(chunks, s));
      case _ =>
    }
  }

  // ----- one step: duplicate acks, samples and the byte count

  lemma DupStep(chunks: seq<Bytes>, s: System, e: Event)
    requires WellFormed(chunks, s) && DupInv(s) && Enabled(chunks, s, e)
    ensures DupInv(Apply(chunks, s, e))
  {
  }

  lemma HistoryAdvanceStep(s: System, ack: Ack, now: int)
    requires s.snd.Valid() && DupInv(s) && HistoryInv(s) && s.snd.base < ack.ackSeq
    ensures HistoryInv(ReceiveAckStep(s, ack, now))
  {
    var r := ReceiveAckStep(s, ack, now);
    assert r.snd.base == ack.ackSeq && r.dups == 0 && r.fast == s.fast;
    assert r.snd.fastRetransmits == s.snd.fastRetransmits;
    assert r.timed == s.timed || (s.dups == 0 && r.timed[..|s.timed|] == s.timed);
  }

  lemma HistoryDuplicateStep(s: System, ack: Ack, now: int)
    requires s.snd.Valid() && DupInv(s) && HistoryInv(s) && ack.ackSeq <= s.snd.base
    ensures HistoryInv(ReceiveAckStep(s, ack, now))
  {
    var r := ReceiveAckStep(s, ack, now);
    assert r.snd.base == s.snd.base && r.timed == s.timed;
    assert FiresFastRetransmit(s.snd, ack) <==> ack.ackSeq == s.snd.base && s.dups == 1;
  }

  lemma HistoryStep(chunks: seq<Bytes>, s: System, e: Event)
    requires WellFormed(chunks, s) && DupInv(s) && HistoryInv(s) && Enabled(chunks, s, e)
    ensures HistoryInv(Apply(chunks, s, e))
  {
    if e.EReceiveAck? && s.snd.base < e.ack.ackSeq {
      HistoryAdvanceStep(s, e.ack, e.now);
    } else if e.EReceiveAck? {
      HistoryDuplicateStep(s, e.ack, e.now);
    } else {
      assert Apply(chunks, s, e).snd.base == s.snd.base;
    }
  }

  /** All chunks of a range but possibly the last one are full. */
  lemma {:induction false} TotalBytesRange(chunks: seq<Bytes>, a: nat, b: nat)
    requires ChunksOk(chunks) && a < b <= |chunks|
    ensures TotalBytes(chunks[..b]) == TotalBytes(chunks[..a]) + (b - a - 1) * MAX_PAYLOAD + |chunks[b - 1]|
    decreases b
  {
    assert chunks[..b][..b - 1] == chunks[..b - 1];
    if a < b - 1 {
      TotalBytesRange(chunks, a, b - 1);
    }
  }

  lemma BytesAdvanceStep(chunks: seq<Bytes>, s: System, ack: Ack, now: int)
    requires WellFormed(chunks, s) && FlowInv(chunks, s) && AckInv(s) && SlotsInv(chunks, s)
    requires BytesInv(chunks, s) && ack in s.acks && s.snd.base < ack.ackSeq
    ensures BytesInv(chunks, ReceiveAckStep(s, ack, now))
  {
    TotalBytesRange(chunks, s.snd.base, ack.ackSeq);
    LastAckedSlot(chunks, s, ack);
    assert ReceiveAckStep(s, ack, now).snd == Advance(s.snd, ack, now);
  }

  lemma BytesStep(chunks: seq<Bytes>, s: System, e: Event)
    requires WellFormed(chunks, s) && FlowInv(chunks, s) && AckInv(s) && SlotsInv(chunks, s)
    requires BytesInv(chunks, s) && Enabled(chunks, s, e)
    ensures BytesInv(chunks, Apply(chunks, s, e))
  {
    if e.EReceiveAck? && s.snd.base < e.ack.ackSeq {
      BytesAdvanceStep(chunks, s, e.ack, e.now);
    } else {
      assert Apply(chunks, s, e).snd.bytesTotal == s.snd.bytesTotal;
    }
  }

  /** The one slot whose size ReceiveACK reads still holds the last acknowledged chunk. */
  lemma LastAckedSlot(chunks: seq<Bytes>, s: System, ack: Ack)
    requires WellFormed(chunks, s) && FlowInv(chunks, s) && AckInv(s) && SlotsInv(chunks, s)
    requires ack in s.acks && s.snd.base < ack.ackSeq
    ensures ack.ackSeq <= |chunks|
    ensures SlotOf(s.snd, ack.ackSeq - 1).size == |chunks[ack.ackSeq - 1]| + HEADER_SIZE
  {
    var q := ack.ackSeq - 1;
    assert SlotOf(s.snd, q).seqNo == Some(q);
    if s.pc.HeaderWritten? && q < s.snd.sendSequenceNumber {
      SlotsDistinct(q, s.snd.sendSequenceNumber, s.snd.window);
    }
  }

  // ----- all of it

  lemma InvStart(chunks: seq<Bytes>, memory: seq<Slot>, recvWnd: nat, rtt: real)
    requires ChunksOk(chunks) && 1 <= |memory| && FreshMemory(memory)
    ensures Inv(chunks, Start(memory, recvWnd, rtt))
  {
    assert chunks[..0] == [];
  }

  lemma InvStep(chunks: seq<Bytes>, s: System, e: Event)
    requires Inv(chunks, s) && Enabled(chunks, s, e) && !Racy(chunks, s, e)
    ensures Inv(chunks, Apply(chunks, s, e))
  {
    FlowStep(chunks, s, e);
    AckStep(chunks, s, e);
    SlotsStep(chunks, s, e);
    WireStep(chunks, s, e);
    DeliveredStep(chunks, s, e);
    DupStep(chunks, s, e);
    HistoryStep(chunks, s, e);
    BytesStep(chunks, s, e);
  }

  lemma {:induction false} InvRun(chunks: seq<Bytes>, s: System, es: seq<Event>)
    requires Inv(chunks, s) && CleanRun(chunks, s, es)
    ensures CanRun(chunks, s, es) && Inv(chunks, After(chunks, s, es))
    decreases |es|
  {
    if es != [] {
      InvStep(chunks, s, es[0]);
      InvRun(chunks, Apply(chunks, s, es[0]), es[1..]);
    }
  }

  lemma InvReachable(chunks: seq<Bytes>, s: System)
    requires Reachable(chunks, s)
    ensures Inv(chunks, s)
  {
    var memory: seq<Slot>, recvWnd: nat, rtt: real, es: seq<Event> :| ReachedBy(chunks, s, memory, recvWnd, rtt, es);
    InvStart(chunks, memory, recvWnd, rtt);
    InvRun(chunks, Start(memory, recvWnd, rtt), es);
  }
}
