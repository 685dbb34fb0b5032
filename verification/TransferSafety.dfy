/**
 What holds in every reachable state of a transfer.
 */
module TransferSafety {
  import opened Wrappers
  import opened SenderModel
  import opened Transfer
  import opened TransferInvariant
  import opened Chunker

  /** End to end: the counters are ordered, everything on the wire under a sequence number
      is that chunk, and what the receiver has is a prefix of the source. */
  lemma EndToEndSafety(chunks: seq<Bytes>, s: System)
    requires Reachable(chunks, s)
    ensures s.snd.base <= |s.delivered| <= Acquired(s) <= s.snd.lastReleased <= s.snd.base + s.snd.window
    ensures !s.pc.PayloadWritten? && !s.pc.HeaderWritten? ==> |s.delivered| <= s.snd.sendSequenceNumber
    ensures forall p :: p in s.wire && p.seqNo.Some? ==>
              p.seqNo.value < |chunks| && p.payload == chunks[p.seqNo.value]
    ensures s.delivered <= chunks
  {
    InvReachable(chunks, s);
    forall p | p in s.wire && p.seqNo.Some?
      ensures p.seqNo.value < |chunks| && p.payload == chunks[p.seqNo.value]
    {
      assert Faithful(chunks, p, Written(chunks, s));
    }
  }

  /** Credits are conserved, and no amount asked of `empty` is negative or too large. */
  lemma CreditConservation(chunks: seq<Bytes>, s: System)
    requires Reachable(chunks, s)
    ensures s.snd.empty + Acquired(s) == s.snd.lastReleased
    ensures s.snd.lastReleased == s.snd.base + Min(s.snd.window, s.lastAck.recvWnd)
    ensures s.lastAck in s.acks && s.lastAck.ackSeq == s.snd.base
    ensures s.snd.empty <= s.snd.window && s.snd.full <= s.snd.window
    ensures forall ack :: ack in s.acks && s.snd.base < ack.ackSeq ==>
              var asked := ack.ackSeq + Min(s.snd.window, ack.recvWnd) - s.snd.lastReleased;
              0 <= asked && s.snd.empty + asked <= s.snd.window
  {
    InvReachable(chunks, s);
    forall ack | ack in s.acks && s.snd.base < ack.ackSeq
      ensures var asked := ack.ackSeq + Min(s.snd.window, ack.recvWnd) - s.snd.lastReleased;
              0 <= asked && s.snd.empty + asked <= s.snd.window
    {
      CreditStep(chunks, s, ack);
    }
  }

  /** Why the receiver must not take its right edge back: an acknowledgment keeps the credits
      conserved exactly when its edge is not left of the last one. The code does not check
      this, and counts a refused release as made. */
  lemma CreditsNeedRightEdge(chunks: seq<Bytes>, s: System, ack: Ack)
    requires Reachable(chunks, s) && s.snd.base < ack.ackSeq <= Acquired(s)
    ensures Slide(s.snd, ack).empty + Acquired(s) == Slide(s.snd, ack).lastReleased
            <==> s.snd.lastReleased <= ack.ackSeq + Min(s.snd.window, ack.recvWnd)
  {
    InvReachable(chunks, s);
  }

  /** A release is made whole or not at all, and lastReleased moves either way. */
  lemma ReleasesWhole(s: Sender, ack: Ack)
    ensures var r, asked := Slide(s, ack), ack.ackSeq + Min(s.window, ack.recvWnd) - s.lastReleased;
            && r.lastReleased == s.lastReleased + asked
            && (0 <= asked && s.empty + asked <= s.window ==> r.empty == s.empty + asked)
            && (asked < 0 || s.window < s.empty + asked ==> r.empty == s.empty)
  {
  }

  /** Filling a slot leaves every unacknowledged packet in the ring as it was. */
  lemma NoOverwrite(chunks: seq<Bytes>, s: System, e: Event, q: nat)
    requires Reachable(chunks, s) && WellFormed(chunks, s) && Enabled(chunks, s, e)
    requires e.EWriteHeader? || e.EWritePayload?
    requires s.snd.base <= q < s.snd.sendSequenceNumber
    ensures SlotOf(Apply(chunks, s, e).snd, q) == SlotOf(s.snd, q)
    ensures Datagram(SlotOf(s.snd, q)) == Packet(Some(q), chunks[q])
    ensures SlotOf(s.snd, q).size == |chunks[q]| + 8 <= 1472
  {
    InvReachable(chunks, s);
    SlotsDistinct(q, s.snd.sendSequenceNumber, s.snd.window);
    assert SlotOf(s.snd, q).seqNo == Some(q);
  }

  /** The worker's first transmission sends the packet it is meant to send, provided no
      retransmission got that packet acknowledged before. */
  lemma FirstSendIsNext(chunks: seq<Bytes>, s: System, now: int)
    requires Reachable(chunks, s) && 0 < s.snd.full && s.snd.Valid()
    requires s.snd.base <= s.snd.nextToSend
    ensures s.snd.nextToSend < |chunks|
    ensures FirstSend(s.snd, now).1 == Packet(Some(s.snd.nextToSend), chunks[s.snd.nextToSend])
  {
    InvReachable(chunks, s);
    var q := s.snd.nextToSend;
    assert SlotOf(s.snd, q).seqNo == Some(q);
    if s.pc.HeaderWritten? {
      SlotsDistinct(q, s.snd.sendSequenceNumber, s.snd.window);
    }
  }

  /** A timeout and the second duplicate put the oldest unacknowledged packet on the wire;
      other acknowledgments send nothing. */
  lemma RetransmitsOldest(chunks: seq<Bytes>, s: System, e: Event)
    requires Reachable(chunks, s) && WellFormed(chunks, s) && Enabled(chunks, s, e)
    requires (e.ETimeout? || e.EReceiveAck?) && s.snd.base < s.snd.sendSequenceNumber
    ensures s.snd.base < |chunks|
    ensures Apply(chunks, s, e).wire
         == s.wire + if SendsAgain(s, e) then {Packet(Some(s.snd.base), chunks[s.snd.base])} else {}
  {
    InvReachable(chunks, s);
    NewOnWire(chunks, s, e);
    OldestDatagram(chunks, s);
    AgainIsTransmitted(s, e);
  }

  predicate SendsAgain(s: System, e: Event) {
    e.ETimeout? || (e.EReceiveAck? && e.ack.ackSeq == s.snd.base && s.dups == 1)
  }

  lemma AgainIsTransmitted(s: System, e: Event)
    requires s.snd.Valid() && DupInv(s) && (e.ETimeout? || e.EReceiveAck?)
    ensures TransmittedSlot(s.snd, e) == if SendsAgain(s, e) then Some(s.snd.base % s.snd.window) else None
  {
  }

  lemma OldestDatagram(chunks: seq<Bytes>, s: System)
    requires Inv(chunks, s) && s.snd.base < s.snd.sendSequenceNumber
    ensures s.snd.base < |chunks|
    ensures Datagram(SlotOf(s.snd, s.snd.base)) == Packet(Some(s.snd.base), chunks[s.snd.base])
  {
    assert SlotOf(s.snd, s.snd.base).seqNo == Some(s.snd.base);
    if s.pc.HeaderWritten? {
      SlotsDistinct(s.snd.base, s.snd.sendSequenceNumber, s.snd.window);
    }
  }

  /** What ReceiveACK reports to the worker. */
  lemma StatusTells(chunks: seq<Bytes>, s: System, ack: Ack, now: int)
    requires Reachable(chunks, s) && WellFormed(chunks, s) && ack in s.acks
    ensures var r := ReceiveAck(s.snd, ack, now);
            && (r.status == StatusOk <==> s.snd.base < ack.ackSeq)
            && (r.status == RetxOccured <==> ack.ackSeq == s.snd.base && s.dups == 1)
            && (r.sent.Some? <==> r.status == RetxOccured)
            && (r.sender.base == Max(s.snd.base, ack.ackSeq))
  {
    InvReachable(chunks, s);
  }

  function CountTimeouts(es: seq<Event>): nat {
    if es == [] then 0 else (if es[0].ETimeout? then 1 else 0) + CountTimeouts(es[1..])
  }

  /** The statistics count every timeout of a run, and nothing else. */
  lemma {:induction false} TimeoutsCounted(chunks: seq<Bytes>, s: System, es: seq<Event>)
    requires WellFormed(chunks, s) && CanRun(chunks, s, es)
    ensures After(chunks, s, es).snd.timeouts == s.snd.timeouts + CountTimeouts(es)
    decreases |es|
  {
    if es != [] {
      TimeoutsCounted(chunks, Apply(chunks, s, es[0]), es[1..]);
    }
  }

  /** When the worker leaves its loop, the receiver has the whole buffer that main cut, and
      the byte count says so. */
  lemma ExitDelivers(buf: Bytes, s: System)
    requires Reachable(Chunks(buf), s) && s.workerDone
    ensures s.delivered == Chunks(buf)
    ensures Flatten(s.delivered) == buf
    ensures s.snd.bytesTotal == |buf|
    ensures s.pc.Idle? && s.snd.closeCalled && s.snd.closeConnection
    ensures s.snd.base == s.snd.sendSequenceNumber == |Chunks(buf)|
  {
    var chunks := Chunks(buf);
    InvReachable(chunks, s);
    ChunksPartition(buf);
    assert s.delivered == chunks[..|s.delivered|];
    assert chunks[..|chunks|] == chunks;
    FlattenLength(chunks);
  }

  /** bytesTotal counts the payload of exactly the acknowledged chunks. */
  lemma BytesConserved(chunks: seq<Bytes>, s: System)
    requires Reachable(chunks, s)
    ensures s.snd.base <= |chunks|
    ensures s.snd.bytesTotal == |Flatten(chunks[..s.snd.base])|
  {
    InvReachable(chunks, s);
    FlattenLength(chunks[..s.snd.base]);
  }

  /** The duplicate-ack machine: its counters after k duplicates, and the branch that resets
      duplicateAckCheck is dead. */
  lemma DuplicateAcks(chunks: seq<Bytes>, s: System, ack: Ack)
    requires Reachable(chunks, s) && ack in s.acks
    ensures s.snd.numRTX == s.dups
    ensures s.snd.dupAck == if s.dups == 0 then 0 else s.dups + 1
    ensures s.snd.duplicateAckCheck == s.snd.base <==> 0 < s.snd.dupAck
    ensures FiresFastRetransmit(s.snd, ack) <==> ack.ackSeq == s.snd.base && s.dups == 1
    ensures ack.ackSeq == s.snd.base ==> CountDuplicate(s.snd).duplicateAckCheck == s.snd.base
  {
    InvReachable(chunks, s);
  }

  /** Over a whole run: one fast retransmission per base at most, exactly one from the second
      duplicate on, and no packet that was fast-retransmitted is ever timed. */
  lemma FastRetransmitsOnce(chunks: seq<Bytes>, s: System)
    requires Reachable(chunks, s)
    ensures |s.fast| == s.snd.fastRetransmits
    ensures forall i, j :: 0 <= i < j < |s.fast| ==> s.fast[i] < s.fast[j]
    ensures s.snd.base in s.fast <==> 2 <= s.dups
    ensures forall timing :: timing in s.timed ==> timing.packet !in s.fast
  {
    InvReachable(chunks, s);
  }
}
