/**
 Round trips over a whole transfer: what ReceiveACK feeds the estimator, and what the timeout
 is worth in every reachable state.
 */
module TransferTiming {
  import opened Wrappers
  import opened RttEstimator
  import opened SenderModel
  import opened Transfer
  import opened TransferInvariant

  /** The measured round trips, in milliseconds. */
  function Elapsed(timed: seq<Timing>): (r: seq<real>)
    ensures |r| == |timed| && forall i :: 0 <= i < |timed| ==> r[i] == timed[i].elapsed as real
  {
    seq(|timed|, i requires 0 <= i < |timed| => timed[i].elapsed as real)
  }

  // ----- the conjuncts

  /** A header is written to its own slot only. */
  predicate PlacedInv(s: System)
    requires s.snd.Valid()
  {
    forall i :: 0 <= i < s.snd.window && s.snd.slots[i].seqNo.Some? ==>
      s.snd.slots[i].seqNo.value % s.snd.window == i
  }

  /** What was sent was written, and what is on the wire or was received was sent. */
  ghost predicate SentInv(chunks: seq<Bytes>, s: System)
    requires s.snd.Valid()
  {
    && (forall q :: q in s.sentAt ==> q < Written(chunks, s))
    && (forall p :: p in s.wire && p.seqNo.Some? ==> p.seqNo.value in s.sentAt)
    && (forall q: nat :: q < |s.delivered| ==> q in s.sentAt)
  }

  /** Slots of unacknowledged packets carry the time of their last transmission. */
  ghost predicate ClockInv(s: System)
    requires s.snd.Valid()
  {
    forall q: nat :: q in s.sentAt && s.snd.base <= q ==> SlotOf(s.snd, q).txTime == s.sentAt[q]
  }

  predicate EstimatorInv(s: System) {
    s.snd.estimator == AfterSamples(FirstSample(s.rtt), Elapsed(s.timed))
  }

  ghost predicate TimingInv(chunks: seq<Bytes>, s: System)
    requires s.snd.Valid()
  {
    PlacedInv(s) && SentInv(chunks, s) && ClockInv(s) && EstimatorInv(s)
  }

  // ----- one step

  lemma PlacedStep(chunks: seq<Bytes>, s: System, e: Event)
    requires WellFormed(chunks, s) && Enabled(chunks, s, e) && PlacedInv(s)
    ensures PlacedInv(Apply(chunks, s, e))
  {
  }

  /** When packets were last sent, after a step. */
  lemma SentByStep(chunks: seq<Bytes>, s: System, e: Event)
    requires WellFormed(chunks, s) && Enabled(chunks, s, e)
    ensures var sent := TransmittedSlot(s.snd, e);
            if sent.Some? then
              Apply(chunks, s, e).sentAt == Noted(s.sentAt, Datagram(s.snd.slots[sent.value]), TimeOf(e))
            else Apply(chunks, s, e).sentAt == s.sentAt
  {
  }

  function TimeOf(e: Event): int {
    match e
    case EFirstSend(now) => now
    case ETimeout(now) => now
    case EReceiveAck(_, now) => now
    case _ => 0
  }

  lemma SentStep(chunks: seq<Bytes>, s: System, e: Event)
    requires Inv(chunks, s) && Enabled(chunks, s, e) && !Racy(chunks, s, e) && SentInv(chunks, s)
    ensures SentInv(chunks, Apply(chunks, s, e))
  {
    var r := Apply(chunks, s, e);
    WrittenGrows(chunks, s, e);
    NewOnWire(chunks, s, e);
    SentByStep(chunks, s, e);
    if TransmittedSlot(s.snd, e).Some? {
      FaithfulDatagram(chunks, s, TransmittedSlot(s.snd, e).value);
    }
    forall q: nat | q < |r.delivered| ensures q in r.sentAt {
    }
  }

  lemma ClockStampStep(chunks: seq<Bytes>, s: System, e: Event)
    requires Inv(chunks, s) && Enabled(chunks, s, e) && PlacedInv(s) && SentInv(chunks, s) && ClockInv(s)
    requires TransmittedSlot(s.snd, e).Some?
    ensures ClockInv(Apply(chunks, s, e))
  {
    var r, i := Apply(chunks, s, e), TransmittedSlot(s.snd, e).value;
    SentByStep(chunks, s, e);
    SlotsAfterStamp(chunks, s, e);
    forall q: nat | q in r.sentAt && r.snd.base <= q ensures SlotOf(r.snd, q).txTime == r.sentAt[q] {
      if q in s.sentAt {
        assert SlotOf(s.snd, q).seqNo == Some(q);
      }
    }
  }

  lemma SlotsAfterStamp(chunks: seq<Bytes>, s: System, e: Event)
    requires WellFormed(chunks, s) && Enabled(chunks, s, e) && TransmittedSlot(s.snd, e).Some?
    ensures var r, i := Apply(chunks, s, e), TransmittedSlot(s.snd, e).value;
            && r.snd.slots == s.snd.slots[i := s.snd.slots[i].(txTime := TimeOf(e))]
            && r.snd.base == s.snd.base && r.snd.window == s.snd.window
  {
  }

  lemma ClockFillStep(chunks: seq<Bytes>, s: System, e: Event)
    requires Inv(chunks, s) && Enabled(chunks, s, e) && SentInv(chunks, s) && ClockInv(s)
    requires e.EWriteHeader? || e.EWritePayload?
    ensures ClockInv(Apply(chunks, s, e))
  {
    var r, n := Apply(chunks, s, e), s.snd.sendSequenceNumber;
    forall q: nat | q in r.sentAt && r.snd.base <= q ensures SlotOf(r.snd, q).txTime == r.sentAt[q] {
      if q < n {
        SlotsDistinct(q, n, s.snd.window);
      }
    }
  }

  lemma ClockStep(chunks: seq<Bytes>, s: System, e: Event)
    requires Inv(chunks, s) && Enabled(chunks, s, e) && PlacedInv(s) && SentInv(chunks, s) && ClockInv(s)
    ensures ClockInv(Apply(chunks, s, e))
  {
    if TransmittedSlot(s.snd, e).Some? {
      ClockStampStep(chunks, s, e);
    } else if e.EWriteHeader? || e.EWritePayload? {
      ClockFillStep(chunks, s, e);
    } else {
      ClockKeptStep(chunks, s, e);
    }
  }

  lemma ClockKeptStep(chunks: seq<Bytes>, s: System, e: Event)
    requires Inv(chunks, s) && Enabled(chunks, s, e) && ClockInv(s)
    requires TransmittedSlot(s.snd, e).None? && !e.EWriteHeader? && !e.EWritePayload?
    ensures ClockInv(Apply(chunks, s, e))
  {
    var r := Apply(chunks, s, e);
    assert r.sentAt == s.sentAt && r.snd.slots == s.snd.slots && r.snd.window == s.snd.window;
    assert s.snd.base <= r.snd.base;
    forall q: nat | q in r.sentAt && r.snd.base <= q ensures SlotOf(r.snd, q).txTime == r.sentAt[q] {
      assert SlotOf(r.snd, q) == SlotOf(s.snd, q);
    }
  }

  /** What an acknowledgment does to the estimator: the time since the oldest packet was last
      sent is a sample exactly when it is acknowledged alone and without duplicates before. */
  lemma SampleExactly(chunks: seq<Bytes>, s: System, ack: Ack, now: int)
    requires Inv(chunks, s) && SentInv(chunks, s) && ClockInv(s) && ack in s.acks
    ensures ack.ackSeq == s.snd.base + 1 ==> s.snd.base in s.sentAt
    ensures ReceiveAckStep(s, ack, now).snd.estimator
         == if ack.ackSeq == s.snd.base + 1 && s.dups == 0
            then Sample(s.snd.estimator, (now - s.sentAt[s.snd.base]) as real)
            else s.snd.estimator
  {
    if ack.ackSeq > s.snd.base {
      SampleOnAdvance(chunks, s, ack, now);
    }
  }

  lemma SampleOnAdvance(chunks: seq<Bytes>, s: System, ack: Ack, now: int)
    requires Inv(chunks, s) && SentInv(chunks, s) && ClockInv(s) && ack in s.acks && ack.ackSeq > s.snd.base
    ensures s.snd.base in s.sentAt
    ensures Advance(s.snd, ack, now).estimator
         == if ack.ackSeq == s.snd.base + 1 && s.dups == 0
            then Sample(s.snd.estimator, (now - s.sentAt[s.snd.base]) as real)
            else s.snd.estimator
  {
    assert SlotOf(s.snd, s.snd.base).txTime == s.sentAt[s.snd.base];
    ElapsedIs(now, s.sentAt[s.snd.base]);
  }

  lemma ElapsedIs(now: int, before: int)
    ensures ElapsedMs(now, before) == (now - before) as real
  {
  }

  lemma EstimatorStep(chunks: seq<Bytes>, s: System, e: Event)
    requires Inv(chunks, s) && Enabled(chunks, s, e)
    requires SentInv(chunks, s) && ClockInv(s) && EstimatorInv(s)
    ensures EstimatorInv(Apply(chunks, s, e))
  {
    var r := Apply(chunks, s, e);
    if e.EReceiveAck? {
      SampleExactly(chunks, s, e.ack, e.now);
      if r.timed != s.timed {
        var last := r.timed[|s.timed|];
        AfterOneMore(FirstSample(s.rtt), Elapsed(s.timed), last.elapsed as real);
        assert Elapsed(r.timed) == Elapsed(s.timed) + [last.elapsed as real];
      }
    } else {
      assert r.timed == s.timed && r.rtt == s.rtt && r.snd.estimator == s.snd.estimator;
    }
  }

  lemma TimingStep(chunks: seq<Bytes>, s: System, e: Event)
    requires Inv(chunks, s) && Enabled(chunks, s, e) && !Racy(chunks, s, e) && TimingInv(chunks, s)
    ensures TimingInv(chunks, Apply(chunks, s, e))
  {
    PlacedStep(chunks, s, e);
    SentStep(chunks, s, e);
    ClockStep(chunks, s, e);
    EstimatorStep(chunks, s, e);
  }

  lemma TimingStart(chunks: seq<Bytes>, memory: seq<Slot>, recvWnd: nat, rtt: real)
    requires 1 <= |memory| && FreshMemory(memory)
    ensures TimingInv(chunks, Start(memory, recvWnd, rtt))
  {
  }

  lemma {:induction false} TimingRun(chunks: seq<Bytes>, s: System, es: seq<Event>)
    requires Inv(chunks, s) && TimingInv(chunks, s) && CleanRun(chunks, s, es)
    ensures CanRun(chunks, s, es) && TimingInv(chunks, After(chunks, s, es))
    decreases |es|
  {
    if es != [] {
      InvStep(chunks, s, es[0]);
      TimingStep(chunks, s, es[0]);
      TimingRun(chunks, Apply(chunks, s, es[0]), es[1..]);
    }
  }

  lemma TimingReachable(chunks: seq<Bytes>, s: System)
    requires Reachable(chunks, s)
    ensures Inv(chunks, s) && TimingInv(chunks, s)
  {
    var memory: seq<Slot>, recvWnd: nat, rtt: real, es: seq<Event> :| ReachedBy(chunks, s, memory, recvWnd, rtt, es);
    InvStart(chunks, memory, recvWnd, rtt);
    TimingStart(chunks, memory, recvWnd, rtt);
    TimingRun(chunks, Start(memory, recvWnd, rtt), es);
    InvRun(chunks, Start(memory, recvWnd, rtt), es);
  }

  // ----- results

  /** In every reachable state the estimator is the one of the handshake's round trip followed
      by the measured ones, each the time from a packet's last transmission to its
      acknowledgment, and no others. */
  lemma EstimatorFollows(chunks: seq<Bytes>, s: System)
    requires Reachable(chunks, s)
    ensures s.snd.estimator == AfterSamples(FirstSample(s.rtt), Elapsed(s.timed))
  {
    TimingReachable(chunks, s);
  }

  /** What an acknowledgment does there, step by step. */
  lemma AckMeasures(chunks: seq<Bytes>, s: System, ack: Ack, now: int)
    requires Reachable(chunks, s) && WellFormed(chunks, s) && ack in s.acks
    ensures ack.ackSeq == s.snd.base + 1 ==> s.snd.base in s.sentAt
    ensures ReceiveAckStep(s, ack, now).snd.estimator
         == if ack.ackSeq == s.snd.base + 1 && s.dups == 0
            then Sample(s.snd.estimator, (now - s.sentAt[s.snd.base]) as real)
            else s.snd.estimator
  {
    TimingReachable(chunks, s);
    SampleExactly(chunks, s, ack, now);
  }

  /** So the timeout of a transfer is bounded by the round trips that happened in it. */
  lemma TimeoutBounded(chunks: seq<Bytes>, s: System, lo: real, hi: real)
    requires Reachable(chunks, s) && lo <= s.rtt <= hi
    requires forall i :: 0 <= i < |s.timed| ==> lo <= s.timed[i].elapsed as real <= hi
    ensures lo <= s.snd.estimator.estimate <= hi
    ensures 0.0 <= s.snd.estimator.deviation <= hi - lo
    ensures lo + 40.0 <= s.snd.estimator.rto <= hi + 4.0 * MaxReal(hi - lo, 10.0)
  {
    EstimatorFollows(chunks, s);
    TimeoutBounds(s.rtt, Elapsed(s.timed), lo, hi);
  }
}
