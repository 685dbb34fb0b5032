/**
 One transfer as a state machine: the thread that runs main and Send, the worker thread,
 a network that may lose, duplicate and reorder in both directions, and a receiver that
 acknowledges the next expected sequence number.
 */
module Transfer {
  import opened Wrappers
  import opened SenderModel

  /** Where the thread running Send stands. */
  datatype Producer = Idle | Holding | HeaderWritten | PayloadWritten | Published

  /** The sender, the producer's position, everything ever put on the wire, everything the
      receiver accepted, its right window edge, and what the run did so far:
      `lastAck` moved the base last, `dups` acks equal to the base came since then,
      `fast` lists the sequence numbers fast-retransmitted, `lost` counts the refused signals of
      `full`, `sentAt` tells when each packet was last put on the wire, and `timed` lists the
      round trips measured since the handshake's `rtt`. */
  datatype System = System(
    snd: Sender,
    pc: Producer,
    workerDone: bool,
    wire: set<Packet>,
    acks: set<Ack>,
    delivered: seq<Bytes>,
    edge: nat,
    lastAck: Ack,
    dups: nat,
    fast: seq<nat>,
    lost: nat,
    sentAt: map<nat, int>,
    timed: seq<Timing>,
    rtt: real)

  /** A round trip: the packet acknowledged, and the milliseconds since it was last sent. */
  datatype Timing = Timing(packet: nat, elapsed: int)

  datatype Event =
    | ETakeCredit
    | EWriteHeader(now: int)
    | EWritePayload
    | EPublish
    | ESignalFull
    | EClose
    | EFirstSend(now: int)
    | ETimeout(now: int)
    | EReceiveAck(ack: Ack, now: int)
    | EWorkerExit
    | EDeliver(packet: Packet)
    | EAdvertise(recvWnd: nat)

  /** What main's loop hands to Send: every chunk but the last is full, none is empty. */
  predicate ChunksOk(chunks: seq<Bytes>) {
    && (forall i :: 0 <= i < |chunks| ==> 1 <= |chunks[i]| <= MAX_PAYLOAD)
    && (forall i :: 0 <= i < |chunks| - 1 ==> |chunks[i]| == MAX_PAYLOAD)
  }

  /** Shape facts without which the steps make no sense. */
  predicate WellFormed(chunks: seq<Bytes>, s: System) {
    && ChunksOk(chunks)
    && s.snd.Valid()
    && (!s.pc.Idle? && !s.pc.Published? ==> s.snd.sendSequenceNumber < |chunks|)
  }

  /** A wait of the worker times out only while `full` is not signalled. */
  predicate Enabled(chunks: seq<Bytes>, s: System, e: Event)
    requires WellFormed(chunks, s)
  {
    match e
    case ETakeCredit =>
      s.pc.Idle? && s.snd.sendSequenceNumber < |chunks| && (s.snd.closeConnection || 0 < s.snd.empty)
    case EWriteHeader(_) => s.pc.Holding?
    case EWritePayload => s.pc.HeaderWritten?
    case EPublish => s.pc.PayloadWritten?
    case ESignalFull => s.pc.Published?
    case EClose => s.pc.Idle? && s.snd.sendSequenceNumber == |chunks| && !s.snd.closeCalled
    case EFirstSend(_) => !s.workerDone && 0 < s.snd.full
    case ETimeout(_) => !s.workerDone && s.snd.full == 0
    case EReceiveAck(ack, _) => !s.workerDone && ack in s.acks
    case EWorkerExit => !s.workerDone && WorkerMayExit(s.snd)
    case EDeliver(p) => p in s.wire && p.seqNo == Some(|s.delivered|)
    case EAdvertise(w) => s.edge <= |s.delivered| + w
  }

  /** When a packet was last sent, after one more transmission. */
  function Noted(sentAt: map<nat, int>, packet: Packet, now: int): map<nat, int> {
    match packet.seqNo
    case None => sentAt
    case Some(q) => sentAt[q := now]
  }

  function Transmit(s: System, sent: (Sender, Packet), now: int): System {
    s.(snd := sent.0, wire := s.wire + {sent.1}, sentAt := Noted(s.sentAt, sent.1, now))
  }

  /** An acknowledgment of the oldest packet alone, the first since the base moved, measures a
      round trip. */
  function TimedBy(s: System, ack: Ack, now: int): seq<Timing> {
    if ack.ackSeq == s.snd.base + 1 && s.dups == 0 && s.snd.base in s.sentAt then
      s.timed + [Timing(s.snd.base, now - s.sentAt[s.snd.base])]
    else
      s.timed
  }

  function ReceiveAckStep(s: System, ack: Ack, now: int): System
    requires s.snd.Valid()
  {
    var r := ReceiveAck(s.snd, ack, now);
    s.(snd := r.sender,
       wire := s.wire + (if r.sent.Some? then {r.sent.value} else {}),
       lastAck := if ack.ackSeq > s.snd.base then ack else s.lastAck,
       dups := if ack.ackSeq > s.snd.base then 0 else if ack.ackSeq == s.snd.base then s.dups + 1 else s.dups,
       fast := if r.sent.Some? then s.fast + [s.snd.base] else s.fast,
       sentAt := if r.sent.Some? then Noted(s.sentAt, r.sent.value, now) else s.sentAt,
       timed := TimedBy(s, ack, now))
  }

  function Apply(chunks: seq<Bytes>, s: System, e: Event): (r: System)
    requires WellFormed(chunks, s) && Enabled(chunks, s, e)
    ensures WellFormed(chunks, r)
  {
    var snd := s.snd;
    match e
    case ETakeCredit => s.(snd := TakeCredit(snd), pc := Holding)
    case EWriteHeader(now) =>
      s.(snd := WriteHeader(snd, |chunks[snd.sendSequenceNumber]|, now), pc := HeaderWritten)
    case EWritePayload => s.(snd := WritePayload(snd, chunks[snd.sendSequenceNumber]), pc := PayloadWritten)
    case EPublish => s.(snd := Publish(snd), pc := Published)
    case ESignalFull =>
      s.(snd := SignalFull(snd), pc := Idle, lost := if SignalFull(snd).full == snd.full then s.lost + 1 else s.lost)
    case EClose => s.(snd := CloseTransfer(snd))
    case EFirstSend(now) => Transmit(s, FirstSend(snd, now), now)
    case ETimeout(now) => Transmit(s, Timeout(snd, now), now)
    case EReceiveAck(ack, now) => ReceiveAckStep(s, ack, now)
    case EWorkerExit => s.(workerDone := true)
    case EDeliver(p) => s.(delivered := s.delivered + [p.payload])
    case EAdvertise(w) => s.(acks := s.acks + {Ack(|s.delivered|, w)}, edge := |s.delivered| + w)
  }

  /** Fresh memory of the ring: no header was written to it yet. */
  predicate FreshMemory(memory: seq<Slot>) {
    forall i :: 0 <= i < |memory| ==> memory[i].Valid() && memory[i].seqNo == None
  }

  /** The state right after Open; the handshake's answer may turn up again as an ack of 0. */
  function Start(memory: seq<Slot>, recvWnd: nat, rtt: real): (s: System)
    requires 1 <= |memory| && FreshMemory(memory)
    ensures s.snd.Valid()
  {
    var first := Ack(0, recvWnd);
    System(Opened(|memory|, memory, recvWnd, rtt), Idle, false, {}, {first}, [], recvWnd, first, 0, [], 0, map[], [],
           rtt)
  }

  /** The ring slot whose bytes an event reads in order to transmit them, if it transmits. */
  function TransmittedSlot(s: Sender, e: Event): (r: Option<nat>)
    requires s.Valid()
    ensures r.Some? ==> r.value < s.window
  {
    match e
    case EFirstSend(_) => Some(s.nextToSend % s.window)
    case ETimeout(_) => Some(s.base % s.window)
    case EReceiveAck(ack, _) => if FiresFastRetransmit(s, ack) then Some(s.base % s.window) else None
    case _ => None
  }

  /** The ring slot of sequence number `q`. */
  function SlotOf(snd: Sender, q: nat): Slot
    requires snd.Valid()
  {
    snd.slots[q % snd.window]
  }

  /** Send wrote a header and not yet the payload, and the old payload differs from the one
      it is about to copy. */
  predicate HalfFilled(chunks: seq<Bytes>, s: System)
    requires s.snd.Valid()
  {
    var q := s.snd.sendSequenceNumber;
    && s.pc.HeaderWritten?
    && q < |chunks| && |chunks[q]| <= MAX_PAYLOAD
    && SlotOf(s.snd, q).body[..|chunks[q]|] != chunks[q]
  }

  /** The worker transmits the very slot that Send left half filled. */
  predicate Racy(chunks: seq<Bytes>, s: System, e: Event)
    requires s.snd.Valid()
  {
    HalfFilled(chunks, s) && TransmittedSlot(s.snd, e) == Some(s.snd.sendSequenceNumber % s.snd.window)
  }

  /** `es` can happen one after the other from `s`. */
  predicate CanRun(chunks: seq<Bytes>, s: System, es: seq<Event>)
    requires WellFormed(chunks, s)
    decreases |es|
  {
    es == [] || (Enabled(chunks, s, es[0]) && CanRun(chunks, Apply(chunks, s, es[0]), es[1..]))
  }

  /** Where `es` leads from `s`. */
  function After(chunks: seq<Bytes>, s: System, es: seq<Event>): (r: System)
    requires WellFormed(chunks, s) && CanRun(chunks, s, es)
    ensures WellFormed(chunks, r)
    decreases |es|
  {
    if es == [] then s else After(chunks, Apply(chunks, s, es[0]), es[1..])
  }

  /** `es` can happen from `s` and never transmits a half-filled slot. */
  predicate CleanRun(chunks: seq<Bytes>, s: System, es: seq<Event>)
    requires WellFormed(chunks, s)
    decreases |es|
  {
    es == [] || (Enabled(chunks, s, es[0]) && !Racy(chunks, s, es[0])
                 && CleanRun(chunks, Apply(chunks, s, es[0]), es[1..]))
  }

  lemma RunCons(chunks: seq<Bytes>, s: System, e: Event, es: seq<Event>)
    requires WellFormed(chunks, s) && Enabled(chunks, s, e)
    requires CanRun(chunks, Apply(chunks, s, e), es)
    ensures CanRun(chunks, s, [e] + es)
    ensures After(chunks, s, [e] + es) == After(chunks, Apply(chunks, s, e), es)
    ensures !Racy(chunks, s, e) && CleanRun(chunks, Apply(chunks, s, e), es) ==> CleanRun(chunks, s, [e] + es)
  {
    assert ([e] + es)[1..] == es;
  }

  lemma {:induction false} RunAppend(chunks: seq<Bytes>, s: System, es: seq<Event>, more: seq<Event>)
    requires WellFormed(chunks, s) && CanRun(chunks, s, es)
    requires CanRun(chunks, After(chunks, s, es), more)
    ensures CanRun(chunks, s, es + more)
    ensures After(chunks, s, es + more) == After(chunks, After(chunks, s, es), more)
    ensures CleanRun(chunks, s, es) && CleanRun(chunks, After(chunks, s, es), more) ==> CleanRun(chunks, s, es + more)
    decreases |es|
  {
    if es == [] {
      assert [] + more == more;
    } else {
      var r := Apply(chunks, s, es[0]);
      RunAppend(chunks, r, es[1..], more);
      RunCons(chunks, s, es[0], es[1..] + more);
      ConsAppend(es, more);
    }
  }

  /** A list of states, each the result of one event, is a run. */
  predicate IsRun(chunks: seq<Bytes>, states: seq<System>, es: seq<Event>) {
    && |states| == |es| + 1
    && (forall i :: 0 <= i < |states| ==> WellFormed(chunks, states[i]))
    && (forall i :: 0 <= i < |es| ==>
          Enabled(chunks, states[i], es[i]) && states[i + 1] == Apply(chunks, states[i], es[i]))
  }

  lemma {:induction false} StatesMakeRun(chunks: seq<Bytes>, states: seq<System>, es: seq<Event>)
    requires IsRun(chunks, states, es)
    ensures CanRun(chunks, states[0], es)
    ensures After(chunks, states[0], es) == states[|es|]
    decreases |es|
  {
    if es != [] {
      StatesMakeRun(chunks, states[1..], es[1..]);
    }
  }

  lemma {:induction false} StatesMakeCleanRun(chunks: seq<Bytes>, states: seq<System>, es: seq<Event>)
    requires IsRun(chunks, states, es)
    requires forall i :: 0 <= i < |es| ==> !HalfFilled(chunks, states[i]) || TransmittedSlot(states[i].snd, es[i]).None?
    ensures CleanRun(chunks, states[0], es)
    decreases |es|
  {
    if es != [] {
      StatesMakeCleanRun(chunks, states[1..], es[1..]);
    }
  }

  /** The states a transfer of `chunks` can reach without a race. */
  ghost predicate Reachable(chunks: seq<Bytes>, s: System) {
    exists memory: seq<Slot>, recvWnd: nat, rtt: real, es: seq<Event> ::
      ReachedBy(chunks, s, memory, recvWnd, rtt, es)
  }

  ghost predicate ReachedBy(chunks: seq<Bytes>, s: System, memory: seq<Slot>, recvWnd: nat, rtt: real, es: seq<Event>) {
    && ChunksOk(chunks)
    && 1 <= |memory| && FreshMemory(memory)
    && CleanRun(chunks, Start(memory, recvWnd, rtt), es)
    && CanRun(chunks, Start(memory, recvWnd, rtt), es)
    && s == After(chunks, Start(memory, recvWnd, rtt), es)
  }
}
