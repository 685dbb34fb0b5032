/**
 From which reachable states a transfer can still be completed.
 */
module TransferProgress {
  import opened Wrappers
  import opened SenderModel
  import opened Transfer
  import opened TransferInvariant

  /** Everything sent is acknowledged, the last window left no credit, and chunks remain. */
  predicate Stuck(chunks: seq<Bytes>, s: System) {
    !s.workerDone && s.snd.base == Acquired(s) == s.snd.lastReleased && Acquired(s) < |chunks|
  }

  /** Some continuation without a race delivers everything and ends the worker. */
  ghost predicate CanFinish(chunks: seq<Bytes>, s: System)
    requires WellFormed(chunks, s)
  {
    exists es: seq<Event> :: Finishes(chunks, s, es)
  }

  ghost predicate Finishes(chunks: seq<Bytes>, s: System, es: seq<Event>)
    requires WellFormed(chunks, s)
  {
    CleanRun(chunks, s, es) && CanRun(chunks, s, es)
    && After(chunks, s, es).workerDone && After(chunks, s, es).delivered == chunks
  }

  function StepsOfSend(pc: Producer): nat {
    match pc
    case Idle => 0
    case Holding => 4
    case HeaderWritten => 3
    case PayloadWritten => 2
    case Published => 1
  }

  /** Events still needed: five per Send and the first transmission it signals, a
      retransmission with its delivery, and a window advertisement with its arrival, per
      chunk, then the close and the exit. */
  function Remaining(chunks: seq<Bytes>, s: System): int {
    6 * (|chunks| - Acquired(s)) + StepsOfSend(s.pc) + (if s.pc.Idle? then 0 else 1) + s.snd.full
    + 2 * (|chunks| - |s.delivered|) + 2 * (|chunks| - s.snd.base)
    + (if s.snd.closeCalled then 0 else 1) + (if s.workerDone then 0 else 1)
  }

  /** The next thing worth doing: finish the Send under way; else get the oldest packet
      delivered, by a timeout once `full` is drained, and acknowledged; else send; else
      close. */
  function Helpful(chunks: seq<Bytes>, s: System): (es: seq<Event>)
    requires s.snd.Valid()
  {
    match s.pc
    case Holding => [EWriteHeader(0)]
    case HeaderWritten => [EWritePayload]
    case PayloadWritten => [EPublish]
    case Published => [ESignalFull]
    case Idle =>
      if s.snd.base < |s.delivered| then
        var wnd := Max(1, s.edge - |s.delivered|);
        [EAdvertise(wnd), EReceiveAck(Ack(|s.delivered|, wnd), 0)]
      else if s.snd.base < s.snd.sendSequenceNumber && 0 < s.snd.full then
        [EFirstSend(0)]
      else if s.snd.base < s.snd.sendSequenceNumber then
        [ETimeout(0), EDeliver(Datagram(SlotOf(s.snd, s.snd.base)))]
      else if s.snd.sendSequenceNumber < |chunks| then
        [ETakeCredit]
      else if !s.snd.closeCalled then
        [EClose]
      else
        [EWorkerExit]
  }

  /** The way stays open and `n` events less are needed. */
  predicate Closer(chunks: seq<Bytes>, s: System, r: System, n: nat) {
    !Stuck(chunks, r) && Remaining(chunks, r) + n <= Remaining(chunks, s)
  }

  lemma AckHelps(chunks: seq<Bytes>, s: System, r: System, wnd: nat)
    requires Inv(chunks, s) && s.pc.Idle? && s.snd.base < |s.delivered| && 1 <= wnd
    requires r == ReceiveAckStep(s.(acks := s.acks + {Ack(|s.delivered|, wnd)}, edge := |s.delivered| + wnd),
                                 Ack(|s.delivered|, wnd), 0)
    ensures Closer(chunks, s, r, 2)
  {
    var snd := Advance(s.snd, Ack(|s.delivered|, wnd), 0);
    assert r.snd == snd && snd.base == |s.delivered| && snd.full == s.snd.full;
    assert Acquired(r) == Acquired(s) && snd.lastReleased == snd.base + Min(s.snd.window, wnd);
  }

  lemma AcknowledgeOldest(chunks: seq<Bytes>, s: System)
    requires Inv(chunks, s) && s.pc.Idle? && s.snd.base < |s.delivered|
    requires !s.workerDone
    ensures Advances(chunks, s, Helpful(chunks, s))
  {
    var es := Helpful(chunks, s);
    var s1 := Apply(chunks, s, es[0]);
    assert es[1].ack in s1.acks;
    AckHelps(chunks, s, Apply(chunks, s1, es[1]), Max(1, s.edge - |s.delivered|));
    TwoAdvance(chunks, s, es);
  }

  lemma DeliverOldest(chunks: seq<Bytes>, s: System)
    requires Inv(chunks, s) && s.pc.Idle? && s.snd.base == |s.delivered| < s.snd.sendSequenceNumber
    requires !s.workerDone && s.snd.full == 0
    ensures Advances(chunks, s, Helpful(chunks, s))
  {
    var es := Helpful(chunks, s);
    assert SlotOf(s.snd, s.snd.base).seqNo == Some(s.snd.base);
    var s1 := Apply(chunks, s, es[0]);
    assert es[1].packet in s1.wire;
    TwoAdvance(chunks, s, es);
  }

  /** The events can happen, keep the invariant and the way open, and use up the measure. */
  ghost predicate Advances(chunks: seq<Bytes>, s: System, es: seq<Event>)
    requires WellFormed(chunks, s)
  {
    && CleanRun(chunks, s, es) && CanRun(chunks, s, es)
    && var r := After(chunks, s, es);
       Inv(chunks, r) && Closer(chunks, s, r, |es|)
  }

  lemma OneEvent(chunks: seq<Bytes>, s: System, es: seq<Event>)
    requires WellFormed(chunks, s) && |es| == 1 && Enabled(chunks, s, es[0]) && !Racy(chunks, s, es[0])
    ensures CleanRun(chunks, s, es) && CanRun(chunks, s, es)
    ensures After(chunks, s, es) == Apply(chunks, s, es[0])
  {
    assert es[1..] == [];
  }

  lemma TwoEvents(chunks: seq<Bytes>, s: System, es: seq<Event>)
    requires WellFormed(chunks, s) && |es| == 2 && Enabled(chunks, s, es[0]) && !Racy(chunks, s, es[0])
    requires Enabled(chunks, Apply(chunks, s, es[0]), es[1]) && !Racy(chunks, Apply(chunks, s, es[0]), es[1])
    ensures CleanRun(chunks, s, es) && CanRun(chunks, s, es)
    ensures After(chunks, s, es) == Apply(chunks, Apply(chunks, s, es[0]), es[1])
  {
    OneEvent(chunks, Apply(chunks, s, es[0]), es[1..]);
  }

  lemma TwoAdvance(chunks: seq<Bytes>, s: System, es: seq<Event>)
    requires Inv(chunks, s) && |es| == 2 && Enabled(chunks, s, es[0]) && !Racy(chunks, s, es[0])
    requires Enabled(chunks, Apply(chunks, s, es[0]), es[1]) && !Racy(chunks, Apply(chunks, s, es[0]), es[1])
    requires Closer(chunks, s, Apply(chunks, Apply(chunks, s, es[0]), es[1]), 2)
    ensures Advances(chunks, s, es)
  {
    TwoEvents(chunks, s, es);
    InvStep(chunks, s, es[0]);
    InvStep(chunks, Apply(chunks, s, es[0]), es[1]);
  }

  lemma HelpfulAdvances(chunks: seq<Bytes>, s: System)
    requires Inv(chunks, s) && !Stuck(chunks, s) && !s.workerDone
    ensures Advances(chunks, s, Helpful(chunks, s))
  {
    if s.pc.Idle? && s.snd.base < |s.delivered| {
      AcknowledgeOldest(chunks, s);
    } else if s.pc.Idle? && s.snd.base < s.snd.sendSequenceNumber && s.snd.full == 0 {
      DeliverOldest(chunks, s);
    } else {
      var es := Helpful(chunks, s);
      OneHelps(chunks, s, es);
      OneEvent(chunks, s, es);
      InvStep(chunks, s, es[0]);
    }
  }

  lemma OneHelps(chunks: seq<Bytes>, s: System, es: seq<Event>)
    requires Inv(chunks, s) && !Stuck(chunks, s) && !s.workerDone && es == Helpful(chunks, s)
    requires s.pc.Idle? ==> |s.delivered| == s.snd.base
    requires s.pc.Idle? && s.snd.base < s.snd.sendSequenceNumber ==> 0 < s.snd.full
    ensures |es| == 1 && Enabled(chunks, s, es[0]) && !Racy(chunks, s, es[0])
    ensures Closer(chunks, s, Apply(chunks, s, es[0]), 1)
  {
  }

  /** From a state that is not stuck, an explicit continuation of at most `Remaining` events
      completes the transfer. */
  lemma {:induction false} Finish(chunks: seq<Bytes>, s: System) returns (es: seq<Event>)
    requires Inv(chunks, s) && !Stuck(chunks, s)
    ensures Finishes(chunks, s, es)
    ensures |es| <= Remaining(chunks, s)
    decreases Remaining(chunks, s)
  {
    if s.workerDone {
      es := [];
    } else {
      var first := Helpful(chunks, s);
      HelpfulAdvances(chunks, s);
      var r := After(chunks, s, first);
      var rest := Finish(chunks, r);
      RunAppend(chunks, s, first, rest);
      es := first + rest;
    }
  }

  // ----- a stuck transfer stays stuck

  lemma StuckStep(chunks: seq<Bytes>, s: System, e: Event)
    requires Inv(chunks, s) && Stuck(chunks, s) && Enabled(chunks, s, e)
    ensures !Racy(chunks, s, e) && Stuck(chunks, Apply(chunks, s, e))
  {
  }

  lemma {:induction false} StuckRun(chunks: seq<Bytes>, s: System, es: seq<Event>)
    requires Inv(chunks, s) && Stuck(chunks, s) && CanRun(chunks, s, es)
    ensures Stuck(chunks, After(chunks, s, es))
    decreases |es|
  {
    if es != [] {
      StuckStep(chunks, s, es[0]);
      InvStep(chunks, s, es[0]);
      StuckRun(chunks, Apply(chunks, s, es[0]), es[1..]);
    }
  }

  // ----- the exact condition

  /** A reachable transfer can be completed exactly when it is not stuck. */
  lemma CompletionPossible(chunks: seq<Bytes>, s: System)
    requires Reachable(chunks, s) && WellFormed(chunks, s)
    ensures CanFinish(chunks, s) <==> !Stuck(chunks, s)
    ensures Stuck(chunks, s) <==>
              !s.workerDone && s.lastAck.recvWnd == 0 && s.snd.base == Acquired(s) < |chunks|
  {
    InvReachable(chunks, s);
    if Stuck(chunks, s) {
      forall es: seq<Event> | CanRun(chunks, s, es) ensures Stuck(chunks, After(chunks, s, es)) {
        StuckRun(chunks, s, es);
      }
    } else {
      var es := Finish(chunks, s);
      assert Finishes(chunks, s, es);
    }
  }

  /** No event of the run advertises a window of 0. */
  predicate PositiveWindows(es: seq<Event>) {
    forall i :: 0 <= i < |es| ==> es[i] != EAdvertise(0)
  }

  lemma {:induction false} PositiveAcks(chunks: seq<Bytes>, s: System, es: seq<Event>)
    requires WellFormed(chunks, s) && CanRun(chunks, s, es) && PositiveWindows(es)
    requires forall ack :: ack in s.acks ==> 1 <= ack.recvWnd
    ensures forall ack :: ack in After(chunks, s, es).acks ==> 1 <= ack.recvWnd
    decreases |es|
  {
    if es != [] {
      assert es[0] != EAdvertise(0);
      assert PositiveWindows(es[1..]);
      PositiveAcks(chunks, Apply(chunks, s, es[0]), es[1..]);
    }
  }

  /** A receiver that never advertises an empty window never deadlocks the transfer: every
      state of every such run can be completed. */
  lemma NoDeadlock(chunks: seq<Bytes>, memory: seq<Slot>, recvWnd: nat, rtt: real, es: seq<Event>)
    requires ChunksOk(chunks) && 1 <= |memory| && FreshMemory(memory) && 1 <= recvWnd
    requires CleanRun(chunks, Start(memory, recvWnd, rtt), es) && PositiveWindows(es)
    ensures CanRun(chunks, Start(memory, recvWnd, rtt), es)
    ensures CanFinish(chunks, After(chunks, Start(memory, recvWnd, rtt), es))
  {
    InvStart(chunks, memory, recvWnd, rtt);
    InvRun(chunks, Start(memory, recvWnd, rtt), es);
    PositiveAcks(chunks, Start(memory, recvWnd, rtt), es);
    var s := After(chunks, Start(memory, recvWnd, rtt), es);
    var more := Finish(chunks, s);
    assert Finishes(chunks, s, more);
  }
}
