/**
 The signals of `full`: one of them can be refused, and what that costs.
 */
module TransferSignals {
  import opened Wrappers
  import opened SenderModel
  import opened Transfer
  import opened TransferInvariant
  import opened TransferProgress
  import opened TransferRace

  /** Every packet handed over was sent a first time, is signalled, or lost its signal. */
  lemma SignalsConserved(chunks: seq<Bytes>, s: System)
    requires Reachable(chunks, s)
    ensures s.snd.nextToSend + s.snd.full + s.lost + (if s.pc.Published? then 1 else 0) == s.snd.sendSequenceNumber
  {
    InvReachable(chunks, s);
  }

  /** A signal is refused exactly when the ring is full of signals; then the packet the worker
      would send first is already acknowledged. */
  lemma LostSignal(chunks: seq<Bytes>, s: System)
    requires Reachable(chunks, s) && s.pc.Published?
    ensures SignalFull(s.snd).full == s.snd.full <==> s.snd.full == s.snd.window
    ensures s.snd.full == s.snd.window ==> s.snd.nextToSend + s.lost < s.snd.base
  {
    InvReachable(chunks, s);
  }

  /** A lost signal is never made up for. */
  lemma {:induction false} LostForGood(chunks: seq<Bytes>, s: System, es: seq<Event>)
    requires WellFormed(chunks, s) && CanRun(chunks, s, es)
    ensures s.lost <= After(chunks, s, es).lost
    decreases |es|
  {
    if es != [] {
      LostForGood(chunks, Apply(chunks, s, es[0]), es[1..]);
    }
  }

  /** So from then on the worker's first transmissions stay that many packets behind: the last
      ones go out by a retransmission only. The transfer can be completed all the same. */
  lemma LastPacketsRetransmitted(chunks: seq<Bytes>, s: System, es: seq<Event>)
    requires Reachable(chunks, s) && WellFormed(chunks, s) && CleanRun(chunks, s, es) && CanRun(chunks, s, es)
    ensures After(chunks, s, es).snd.nextToSend + s.lost <= After(chunks, s, es).snd.sendSequenceNumber
    ensures CanFinish(chunks, s) <==> !Stuck(chunks, s)
  {
    InvReachable(chunks, s);
    InvRun(chunks, s, es);
    LostForGood(chunks, s, es);
    CompletionPossible(chunks, s);
  }

  // ----- a signal is refused

  const TWO_CHUNKS: seq<Bytes> := [Zeros(MAX_PAYLOAD), [1]]

  /** Send hands over the first packet, all but its signal. */
  const HAND_OVER: seq<Event> := [ETakeCredit, EWriteHeader(0), EWritePayload, EPublish]

  /** A timeout sends it and the receiver takes it. */
  const EARLY_SEND: seq<Event> := [ETimeout(0), EDeliver(Packet(Some(0), Zeros(MAX_PAYLOAD)))]

  /** Its acknowledgment arrives before the signal is given. */
  const EARLY_ACK: seq<Event> := [EAdvertise(1), EReceiveAck(Ack(1, 1), 0), ESignalFull]

  const SECOND_SEND: seq<Event> := [ETakeCredit, EWriteHeader(0), EWritePayload, EPublish, ESignalFull]

  predicate Unsignalled(s: System) {
    && s.snd.Valid() && s.snd.window == 1 && s.pc.Published? && !s.workerDone && !s.snd.closeConnection
    && s.snd.sendSequenceNumber == 1 && s.snd.base == 0 && s.snd.nextToSend == 0 && s.snd.full == 0
    && s.snd.empty == 0 && s.snd.lastReleased == 1
    && s.edge == 1 && s.lost == 0
  }

  predicate HandedOver(s: System) {
    && Unsignalled(s) && s.delivered == []
    && Datagram(s.snd.slots[0]) == Packet(Some(0), Zeros(MAX_PAYLOAD))
  }

  predicate EarlyAcked(s: System) {
    && s.snd.Valid() && s.snd.window == 1 && s.pc.Idle? && !s.workerDone && !s.snd.closeConnection
    && s.snd.sendSequenceNumber == 1 && s.snd.base == 1 && s.snd.nextToSend == 0 && s.snd.full == 1
    && s.snd.empty == 1 && s.lost == 0
  }

  lemma HandOverRun()
    ensures FreshMemory(MEMORY) && ChunksOk(TWO_CHUNKS)
    ensures CanRun(TWO_CHUNKS, Start(MEMORY, 1, 0.0), HAND_OVER)
    ensures CleanRun(TWO_CHUNKS, Start(MEMORY, 1, 0.0), HAND_OVER)
    ensures HandedOver(After(TWO_CHUNKS, Start(MEMORY, 1, 0.0), HAND_OVER))
  {
    var c, es := TWO_CHUNKS, HAND_OVER;
    var s0 := Start(MEMORY, 1, 0.0);
    var s1 := Apply(c, s0, es[0]);
    var s2 := Apply(c, s1, es[1]);
    var s3 := Apply(c, s2, es[2]);
    assert s3.snd.slots[0].body == Zeros(MAX_PAYLOAD);
    var s4 := Apply(c, s3, es[3]);
    StatesMakeRun(c, [s0, s1, s2, s3, s4], es);
    StatesMakeCleanRun(c, [s0, s1, s2, s3, s4], es);
  }

  lemma EarlySendRun(s0: System)
    requires HandedOver(s0)
    ensures WellFormed(TWO_CHUNKS, s0) && CanRun(TWO_CHUNKS, s0, EARLY_SEND) && CleanRun(TWO_CHUNKS, s0, EARLY_SEND)
    ensures var r := After(TWO_CHUNKS, s0, EARLY_SEND); Unsignalled(r) && |r.delivered| == 1
  {
    var c, es := TWO_CHUNKS, EARLY_SEND;
    var s1 := Apply(c, s0, es[0]);
    var s2 := Apply(c, s1, es[1]);
    StatesMakeRun(c, [s0, s1, s2], es);
    StatesMakeCleanRun(c, [s0, s1, s2], es);
  }

  lemma EarlyAckRun(s0: System)
    requires Unsignalled(s0) && |s0.delivered| == 1
    ensures WellFormed(TWO_CHUNKS, s0) && CanRun(TWO_CHUNKS, s0, EARLY_ACK) && CleanRun(TWO_CHUNKS, s0, EARLY_ACK)
    ensures EarlyAcked(After(TWO_CHUNKS, s0, EARLY_ACK))
  {
    var c, es := TWO_CHUNKS, EARLY_ACK;
    var s1 := Apply(c, s0, es[0]);
    var s2 := Apply(c, s1, es[1]);
    var s3 := Apply(c, s2, es[2]);
    StatesMakeRun(c, [s0, s1, s2, s3], es);
    StatesMakeCleanRun(c, [s0, s1, s2, s3], es);
  }

  lemma SecondSendRun(s0: System)
    requires EarlyAcked(s0)
    ensures WellFormed(TWO_CHUNKS, s0) && CanRun(TWO_CHUNKS, s0, SECOND_SEND) && CleanRun(TWO_CHUNKS, s0, SECOND_SEND)
    ensures After(TWO_CHUNKS, s0, SECOND_SEND).lost == 1
  {
    var c, es := TWO_CHUNKS, SECOND_SEND;
    var s1 := Apply(c, s0, es[0]);
    var s2 := Apply(c, s1, es[1]);
    var s3 := Apply(c, s2, es[2]);
    var s4 := Apply(c, s3, es[3]);
    var s5 := Apply(c, s4, es[4]);
    StatesMakeRun(c, [s0, s1, s2, s3, s4, s5], es);
    StatesMakeCleanRun(c, [s0, s1, s2, s3, s4, s5], es);
  }

  /** A transfer of two packets in which a signal is refused. */
  lemma SignalRefused()
    ensures exists s: System :: Reachable(TWO_CHUNKS, s) && s.lost == 1
  {
    var c, s0 := TWO_CHUNKS, Start(MEMORY, 1, 0.0);
    HandOverRun();
    var s1 := After(c, s0, HAND_OVER);
    EarlySendRun(s1);
    var s2 := After(c, s1, EARLY_SEND);
    EarlyAckRun(s2);
    var s3 := After(c, s2, EARLY_ACK);
    SecondSendRun(s3);
    RunAppend(c, s2, EARLY_ACK, SECOND_SEND);
    RunAppend(c, s1, EARLY_SEND, EARLY_ACK + SECOND_SEND);
    var es := HAND_OVER + (EARLY_SEND + (EARLY_ACK + SECOND_SEND));
    RunAppend(c, s0, HAND_OVER, EARLY_SEND + (EARLY_ACK + SECOND_SEND));
    assert ReachedBy(c, After(c, s0, es), MEMORY, 1, 0.0, es);
  }
}
