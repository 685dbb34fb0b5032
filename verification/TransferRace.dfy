/**
 Send fills a slot with two copies, first the header and then the payload, and nothing
 keeps the worker from transmitting the slot in between.
 */
module TransferRace {
  import opened Wrappers
  import opened SenderModel
  import opened Transfer
  import opened TransferInvariant

  /** No header, or exactly the chunk the header announces. */
  predicate Honest(chunks: seq<Bytes>, p: Packet) {
    p.seqNo == None || (p.seqNo.value < |chunks| && p.payload == chunks[p.seqNo.value])
  }

  ghost predicate HonestWire(chunks: seq<Bytes>, s: System) {
    forall p :: p in s.wire ==> Honest(chunks, p)
  }

  lemma InvIsHonest(chunks: seq<Bytes>, s: System)
    requires Inv(chunks, s)
    ensures HonestWire(chunks, s)
  {
    forall p | p in s.wire ensures Honest(chunks, p) {
      assert Faithful(chunks, p, Written(chunks, s));
    }
  }

  /** A step puts a wrong packet on the wire exactly when it transmits a half-filled slot. */
  lemma WrongPacketExactly(chunks: seq<Bytes>, s: System, e: Event)
    requires Inv(chunks, s) && Enabled(chunks, s, e)
    ensures !HonestWire(chunks, Apply(chunks, s, e)) <==> Racy(chunks, s, e)
  {
    if Racy(chunks, s, e) {
      var i, q := TransmittedSlot(s.snd, e).value, s.snd.sendSequenceNumber;
      var p := Datagram(s.snd.slots[i]);
      assert BeingFilled(chunks, s, i);
      assert p == Packet(Some(q), SlotOf(s.snd, q).body[..|chunks[q]|]);
      assert p in Apply(chunks, s, e).wire;
    } else {
      InvStep(chunks, s, e);
      InvIsHonest(chunks, Apply(chunks, s, e));
    }
  }

  /** What is on the wire stays there. */
  lemma {:induction false} WireGrows(chunks: seq<Bytes>, s: System, es: seq<Event>)
    requires WellFormed(chunks, s) && CanRun(chunks, s, es)
    ensures s.wire <= After(chunks, s, es).wire
    decreases |es|
  {
    if es != [] {
      WireGrows(chunks, Apply(chunks, s, es[0]), es[1..]);
    }
  }

  lemma {:induction false} HonestRun(chunks: seq<Bytes>, s: System, es: seq<Event>)
    requires Inv(chunks, s) && CanRun(chunks, s, es)
    ensures HonestWire(chunks, After(chunks, s, es)) <==> CleanRun(chunks, s, es)
    decreases |es|
  {
    if es == [] {
      InvIsHonest(chunks, s);
    } else {
      var r := Apply(chunks, s, es[0]);
      WrongPacketExactly(chunks, s, es[0]);
      if Racy(chunks, s, es[0]) {
        WireGrows(chunks, r, es[1..]);
      } else {
        InvStep(chunks, s, es[0]);
        HonestRun(chunks, r, es[1..]);
      }
    }
  }

  /** For every run of a transfer: all packets it sent are right exactly when no step of it
      transmitted a half-filled slot. */
  lemma HonestExactly(chunks: seq<Bytes>, memory: seq<Slot>, recvWnd: nat, rtt: real, es: seq<Event>)
    requires ChunksOk(chunks) && 1 <= |memory| && FreshMemory(memory)
    requires CanRun(chunks, Start(memory, recvWnd, rtt), es)
    ensures HonestWire(chunks, After(chunks, Start(memory, recvWnd, rtt), es))
            <==> CleanRun(chunks, Start(memory, recvWnd, rtt), es)
  {
    InvStart(chunks, memory, recvWnd, rtt);
    HonestRun(chunks, Start(memory, recvWnd, rtt), es);
  }

  /** Some step of the run gives the receiver a wrong packet that it accepts. */
  predicate AcceptsWrong(chunks: seq<Bytes>, es: seq<Event>) {
    exists i :: 0 <= i < |es| && es[i].EDeliver? && !Honest(chunks, es[i].packet)
  }

  lemma {:induction false} DeliveredGrows(chunks: seq<Bytes>, s: System, es: seq<Event>)
    requires WellFormed(chunks, s) && CanRun(chunks, s, es)
    ensures s.delivered <= After(chunks, s, es).delivered
    decreases |es|
  {
    if es != [] {
      DeliveredGrows(chunks, Apply(chunks, s, es[0]), es[1..]);
    }
  }

  /** For every run, races included: what the receiver has is a prefix of the source exactly
      when it never accepted a wrong packet. */
  lemma {:induction false} CorruptedExactly(chunks: seq<Bytes>, s: System, es: seq<Event>)
    requires WellFormed(chunks, s) && CanRun(chunks, s, es) && s.delivered <= chunks
    ensures After(chunks, s, es).delivered <= chunks <==> !AcceptsWrong(chunks, es)
    decreases |es|
  {
    if es != [] {
      var r := Apply(chunks, s, es[0]);
      assert AcceptsWrong(chunks, es) <==>
        (es[0].EDeliver? && !Honest(chunks, es[0].packet)) || AcceptsWrong(chunks, es[1..]);
      if es[0].EDeliver? && !Honest(chunks, es[0].packet) {
        DeliveredGrows(chunks, r, es[1..]);
        assert !(r.delivered <= chunks);
      } else {
        CorruptedExactly(chunks, r, es[1..]);
      }
    }
  }

  /** When a retransmission races: Send left the slot half filled and nothing is outstanding.
      A worker that retransmits only while base < sendSequenceNumber never does. */
  lemma RetransmissionRaces(chunks: seq<Bytes>, s: System, e: Event)
    requires Inv(chunks, s)
    requires e.ETimeout? || (e.EReceiveAck? && FiresFastRetransmit(s.snd, e.ack))
    ensures Racy(chunks, s, e) <==> HalfFilled(chunks, s) && s.snd.base == s.snd.sendSequenceNumber
  {
    if HalfFilled(chunks, s) && s.snd.base < s.snd.sendSequenceNumber {
      SlotsDistinct(s.snd.base, s.snd.sendSequenceNumber, s.snd.window);
    }
  }

  /** A first transmission can race only after its packet was acknowledged. */
  lemma FirstSendRaces(chunks: seq<Bytes>, s: System, now: int)
    requires Inv(chunks, s) && 0 < s.snd.full
    requires Racy(chunks, s, EFirstSend(now))
    ensures s.snd.nextToSend < s.snd.base
  {
    if s.snd.base <= s.snd.nextToSend {
      SlotsDistinct(s.snd.nextToSend, s.snd.sendSequenceNumber, s.snd.window);
    }
  }

  /** And when it does, the receiver may take the wrong packet at once. */
  lemma RaceCanCorrupt(chunks: seq<Bytes>, s: System, e: Event)
    requires Inv(chunks, s) && Enabled(chunks, s, e) && Racy(chunks, s, e) && !e.EFirstSend?
    ensures var r, p := Apply(chunks, s, e), Datagram(SlotOf(s.snd, s.snd.base));
            Enabled(chunks, r, EDeliver(p)) && !(Apply(chunks, r, EDeliver(p)).delivered <= chunks)
  {
    RetransmissionRaces(chunks, s, e);
    var q := s.snd.sendSequenceNumber;
    NewOnWire(chunks, s, e);
    assert BeingFilled(chunks, s, q % s.snd.window);
    assert Datagram(SlotOf(s.snd, q)) == Packet(Some(q), SlotOf(s.snd, q).body[..|chunks[q]|]);
    assert |s.delivered| == q;
  }

  /** So a run after which the receiver holds something else than a prefix of the source must
      have raced. */
  lemma OnlyRacesCorrupt(chunks: seq<Bytes>, memory: seq<Slot>, recvWnd: nat, rtt: real, es: seq<Event>)
    requires ChunksOk(chunks) && 1 <= |memory| && FreshMemory(memory)
    requires CanRun(chunks, Start(memory, recvWnd, rtt), es)
    requires !(After(chunks, Start(memory, recvWnd, rtt), es).delivered <= chunks)
    ensures !CleanRun(chunks, Start(memory, recvWnd, rtt), es)
  {
    if CleanRun(chunks, Start(memory, recvWnd, rtt), es) {
      InvStart(chunks, memory, recvWnd, rtt);
      InvRun(chunks, Start(memory, recvWnd, rtt), es);
    }
  }

  // ----- the race happens

  const MEMORY: seq<Slot> := [Slot(0, None, Zeros(MAX_PAYLOAD), 0)]
  const ONE_CHUNK: seq<Bytes> := [[1]]

  /** A timeout fires between the two copies. */
  const TORN_SEND: seq<Event> := [ETakeCredit, EWriteHeader(0), ETimeout(0)]

  /** The receiver accepts its packet. */
  const ACCEPTED: seq<Event> := [EDeliver(Packet(Some(0), [0])), EAdvertise(1)]

  /** Its ack arrives and Send goes on. */
  const UNNOTICED_SEND: seq<Event> := [EReceiveAck(Ack(1, 1), 0), EWritePayload, EPublish]

  /** The transfer ends as if all were well. */
  const UNNOTICED_END: seq<Event> := [ESignalFull, EClose, EWorkerExit]

  predicate MidSend(s: System) {
    && s.snd.Valid() && s.snd.window == 1 && s.pc.HeaderWritten? && !s.workerDone
    && s.snd.sendSequenceNumber == 0 && s.snd.base == 0 && s.snd.full == 0 && !s.snd.closeCalled
  }

  predicate TornOnWire(s: System) {
    MidSend(s) && Packet(Some(0), [0]) in s.wire && s.delivered == [] && s.edge == 1
  }

  predicate TornAndAccepted(s: System) {
    MidSend(s) && Ack(1, 1) in s.acks && s.delivered == [[0]]
  }

  lemma TornRun()
    ensures FreshMemory(MEMORY) && ChunksOk(ONE_CHUNK)
    ensures CanRun(ONE_CHUNK, Start(MEMORY, 1, 0.0), TORN_SEND)
    ensures TornOnWire(After(ONE_CHUNK, Start(MEMORY, 1, 0.0), TORN_SEND))
  {
    var c, es := ONE_CHUNK, TORN_SEND;
    var s0 := Start(MEMORY, 1, 0.0);
    var s1 := Apply(c, s0, es[0]);
    var s2 := Apply(c, s1, es[1]);
    assert s2.snd.slots[0].body[..1] == [0];
    var s3 := Apply(c, s2, es[2]);
    StatesMakeRun(c, [s0, s1, s2, s3], es);
  }

  lemma AcceptedRun(s0: System)
    requires TornOnWire(s0)
    ensures WellFormed(ONE_CHUNK, s0) && CanRun(ONE_CHUNK, s0, ACCEPTED)
    ensures TornAndAccepted(After(ONE_CHUNK, s0, ACCEPTED))
  {
    var c, es := ONE_CHUNK, ACCEPTED;
    var s1 := Apply(c, s0, es[0]);
    var s2 := Apply(c, s1, es[1]);
    StatesMakeRun(c, [s0, s1, s2], es);
  }

  predicate LooksSent(s: System) {
    && s.snd.Valid() && s.pc.Published? && !s.workerDone && !s.snd.closeCalled
    && s.snd.sendSequenceNumber == 1 == s.snd.base && s.delivered == [[0]]
  }

  lemma UnnoticedSend(s0: System)
    requires TornAndAccepted(s0)
    ensures WellFormed(ONE_CHUNK, s0) && CanRun(ONE_CHUNK, s0, UNNOTICED_SEND)
    ensures LooksSent(After(ONE_CHUNK, s0, UNNOTICED_SEND))
  {
    var c, es := ONE_CHUNK, UNNOTICED_SEND;
    var s1 := Apply(c, s0, es[0]);
    var s2 := Apply(c, s1, es[1]);
    var s3 := Apply(c, s2, es[2]);
    StatesMakeRun(c, [s0, s1, s2, s3], es);
  }

  lemma UnnoticedEnd(s0: System)
    requires LooksSent(s0)
    ensures WellFormed(ONE_CHUNK, s0) && CanRun(ONE_CHUNK, s0, UNNOTICED_END)
    ensures var r := After(ONE_CHUNK, s0, UNNOTICED_END); r.workerDone && r.delivered == [[0]]
  {
    var c, es := ONE_CHUNK, UNNOTICED_END;
    var s1 := Apply(c, s0, es[0]);
    var s2 := Apply(c, s1, es[1]);
    var s3 := Apply(c, s2, es[2]);
    StatesMakeRun(c, [s0, s1, s2, s3], es);
  }

  /** So without a guard the promise fails: a run of the transfer of the single byte 1 that
      ends with the worker gone, its loop satisfied, and the byte 0 delivered. */
  lemma RaceCorrupts()
    ensures ChunksOk(ONE_CHUNK) && FreshMemory(MEMORY)
    ensures exists es: seq<Event> :: CanRun(ONE_CHUNK, Start(MEMORY, 1, 0.0), es)
              && var s := After(ONE_CHUNK, Start(MEMORY, 1, 0.0), es);
                 s.workerDone && s.delivered == [[0]] && s.delivered != ONE_CHUNK
  {
    var s0 := Start(MEMORY, 1, 0.0);
    TornRun();
    var s1 := After(ONE_CHUNK, s0, TORN_SEND);
    AcceptedRun(s1);
    var s2 := After(ONE_CHUNK, s1, ACCEPTED);
    UnnoticedSend(s2);
    var s3 := After(ONE_CHUNK, s2, UNNOTICED_SEND);
    UnnoticedEnd(s3);
    RunAppend(ONE_CHUNK, s2, UNNOTICED_SEND, UNNOTICED_END);
    RunAppend(ONE_CHUNK, s1, ACCEPTED, UNNOTICED_SEND + UNNOTICED_END);
    RunAppend(ONE_CHUNK, s0, TORN_SEND, ACCEPTED + (UNNOTICED_SEND + UNNOTICED_END));
  }
}
