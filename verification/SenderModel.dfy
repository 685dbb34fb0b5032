/**
 Values and atomic steps of the sliding-window sender: the ring of packet slots that
 `Send` fills and the worker thread transmits, the two counting semaphores that
 coordinate them, and what one acknowledgment does to the window.

 Every function here is one uninterrupted piece of the sender's code. `Send` is cut
 where another thread can run between two of its statements.
 */
module SenderModel {
  import opened Wrappers
  import opened RttEstimator

  const MAX_PKT_SIZE := 1472    // 1500 - 28
  const HEADER_SIZE := 8        // flags and sequence number
  const MAX_PAYLOAD := 1464     // what a packet holds behind its header

  /** One element of the ring. `seqNo` is the header's sequence number, `None` while no
      header was ever written; `body` is the room behind the header. */
  datatype Slot = Slot(size: nat, seqNo: Option<nat>, body: Bytes, txTime: int) {
    predicate Valid() {
      |body| == MAX_PAYLOAD && size <= MAX_PKT_SIZE
    }
  }

  /** A datagram from the sender, and one from the receiver. */
  datatype Packet = Packet(seqNo: Option<nat>, payload: Bytes)
  datatype Ack = Ack(ackSeq: nat, recvWnd: nat)

  datatype Status = StatusOk | RetxOccured | DoNothing

  /** The sender's fields. `base` is the field packetsSendBaseStats. */
  datatype Sender = Sender(
    window: nat,
    slots: seq<Slot>,
    sendSequenceNumber: nat,
    nextToSend: nat,
    base: nat,
    lastReleased: int,
    empty: nat,
    full: nat,
    dupAck: int,
    duplicateAckCheck: int,
    numRTX: int,
    bytesTotal: int,
    timeouts: nat,
    fastRetransmits: nat,
    estimator: Estimator,
    closeConnection: bool,
    closeCalled: bool)
  {
    predicate Valid() {
      && 1 <= window
      && |slots| == window
      && forall i :: 0 <= i < window ==> slots[i].Valid()
    }
  }

  /** ReleaseSemaphore: the call is refused, and changes nothing, when the amount is not
      positive or would take the count past the semaphore's maximum. */
  function Release(count: nat, amount: int, max: nat): (r: nat)
  {
    if amount <= 0 || count + amount > max then count else count + amount
  }

  /** The bytes that sendto puts on the wire for a slot. */
  function Datagram(slot: Slot): Packet
    requires slot.Valid()
  {
    Packet(slot.seqNo, if slot.size < HEADER_SIZE then [] else slot.body[..slot.size - HEADER_SIZE])
  }

  // ----- Open

  /** The fields once the SYN has been answered with `recvWnd` after `rtt` milliseconds. */
  function Opened(window: nat, memory: seq<Slot>, recvWnd: nat, rtt: real): (s: Sender)
    requires 1 <= window && |memory| == window
    requires forall i :: 0 <= i < window ==> memory[i].Valid()
  {
    var credit := Min(window, recvWnd);
    Sender(window, memory, 0, 0, 0, credit, Release(0, credit, window), 0,
           0, -1, 0, 0, 0, 0, FirstSample(rtt), false, false)
  }

  // ----- Send, one atomic piece at a time

  /** The wait on { closeConnection, empty } returns: the first signalled object is consumed. */
  function TakeCredit(s: Sender): Sender
    requires s.closeConnection || 0 < s.empty
  {
    if s.closeConnection then s.(closeConnection := false) else s.(empty := s.empty - 1)
  }

  /** Size, time and header of the slot of the next sequence number. */
  function WriteHeader(s: Sender, size: nat, now: int): (r: Sender)
    requires s.Valid() && size <= MAX_PAYLOAD
    ensures r.Valid()
  {
    var slot := s.sendSequenceNumber % s.window;
    s.(slots := s.slots[slot := s.slots[slot].(size := size + HEADER_SIZE, txTime := now,
                                               seqNo := Some(s.sendSequenceNumber))])
  }

  /** memcpy of the payload; the bytes behind it keep what an earlier packet left there. */
  function WritePayload(s: Sender, data: Bytes): (r: Sender)
    requires s.Valid() && |data| <= MAX_PAYLOAD
    ensures r.Valid()
  {
    var slot := s.sendSequenceNumber % s.window;
    s.(slots := s.slots[slot := s.slots[slot].(body := data + s.slots[slot].body[|data|..])])
  }

  function Publish(s: Sender): Sender {
    s.(sendSequenceNumber := s.sendSequenceNumber + 1)
  }

  function SignalFull(s: Sender): Sender {
    s.(full := Release(s.full, 1, s.window))
  }

  // ----- the worker thread

  /** Stamps slot `i` with the time and transmits it. */
  function Stamp(s: Sender, i: nat, now: int): (r: Sender)
    requires s.Valid() && i < s.window
    ensures r.Valid()
  {
    s.(slots := s.slots[i := s.slots[i].(txTime := now)])
  }

  /** The wait returned `full`: first transmission of the next packet. */
  function FirstSend(s: Sender, now: int): (r: (Sender, Packet))
    requires s.Valid() && 0 < s.full
    ensures r.0.Valid()
  {
    var i := s.nextToSend % s.window;
    (Stamp(s, i, now).(full := s.full - 1, nextToSend := s.nextToSend + 1), Datagram(s.slots[i]))
  }

  /** The wait timed out: the oldest unacknowledged slot is sent again. */
  function Timeout(s: Sender, now: int): (r: (Sender, Packet))
    requires s.Valid()
    ensures r.0.Valid()
  {
    var i := s.base % s.window;
    (Stamp(s, i, now).(timeouts := s.timeouts + 1), Datagram(s.slots[i]))
  }

  function ElapsedMs(now: int, txTime: int): real {
    1000.0 * ((now - txTime) as real / 1000.0)
  }

  /** Whether an acknowledgment that moves the base is also timed. */
  predicate TakesSample(s: Sender, ack: Ack) {
    ack.ackSeq > s.base && s.dupAck == 0 && s.numRTX + 1 == 1 && ack.ackSeq - 1 == s.base
  }

  /** The branch of ReceiveACK for an acknowledgment above the base. */
  function Advance(s: Sender, ack: Ack, now: int): (r: Sender)
    requires s.Valid() && ack.ackSeq > s.base
    ensures r.Valid()
  {
    Slide(TimeAck(CountBytes(s, ack), ack, now), ack)
  }

  /** The last acknowledged packet counts with its own size, those before it as full ones. */
  function CountBytes(s: Sender, ack: Ack): (r: Sender)
    requires s.Valid() && ack.ackSeq > s.base
    ensures r.Valid()
  {
    var acked := ack.ackSeq - s.base;
    var packetSize := s.slots[(ack.ackSeq - 1) % s.window].size - HEADER_SIZE;
    s.(bytesTotal := s.bytesTotal + packetSize + (acked - 1) * MAX_PAYLOAD)
  }

  function TimeAck(s: Sender, ack: Ack, now: int): (r: Sender)
    requires s.Valid() && ack.ackSeq > s.base
    ensures r.Valid()
  {
    if TakesSample(s, ack) then
      s.(estimator := Sample(s.estimator, ElapsedMs(now, s.slots[(ack.ackSeq - 1) % s.window].txTime)))
    else
      s
  }

  /** Moves the base and hands the producer the credits up to the new right edge. */
  function Slide(s: Sender, ack: Ack): (r: Sender) {
    var newReleased := ack.ackSeq + Min(s.window, ack.recvWnd) - s.lastReleased;
    s.(base := ack.ackSeq,
       dupAck := 0,
       numRTX := 0,
       duplicateAckCheck := -1,
       empty := Release(s.empty, newReleased, s.window),
       lastReleased := s.lastReleased + newReleased)
  }

  /** The counters of ReceiveACK after an acknowledgment equal to the base. */
  function CountDuplicate(s: Sender): Sender {
    var counted := s.(numRTX := s.numRTX + 1);
    var started := if counted.dupAck == 0 then counted.(duplicateAckCheck := s.base, dupAck := 1) else counted;
    if started.duplicateAckCheck == s.base then
      started.(dupAck := started.dupAck + 1)
    else if started.numRTX > 4 then
      started.(duplicateAckCheck := -1)
    else
      started
  }

  /** Whether an acknowledgment triggers a fast retransmission. */
  predicate FiresFastRetransmit(s: Sender, ack: Ack) {
    && ack.ackSeq == s.base
    && CountDuplicate(s).duplicateAckCheck == s.base
    && CountDuplicate(s).dupAck == 3
  }

  datatype AckResult = AckResult(sender: Sender, status: Status, sent: Option<Packet>)

  function ReceiveAck(s: Sender, ack: Ack, now: int): (r: AckResult)
    requires s.Valid()
    ensures r.sender.Valid()
  {
    if ack.ackSeq < s.base then
      AckResult(s, DoNothing, None)
    else if ack.ackSeq > s.base then
      AckResult(Advance(s, ack, now), StatusOk, None)
    else if FiresFastRetransmit(s, ack) then
      var i := s.base % s.window;
      AckResult(Stamp(CountDuplicate(s), i, now).(fastRetransmits := s.fastRetransmits + 1),
                RetxOccured, Some(Datagram(s.slots[i])))
    else
      AckResult(CountDuplicate(s), DoNothing, None)
  }

  /** The test at the top of the worker's loop. */
  predicate WorkerMayExit(s: Sender) {
    s.closeCalled && s.base == s.sendSequenceNumber
  }

  /** What main does once every chunk was handed to Send. */
  function CloseTransfer(s: Sender): Sender {
    s.(closeConnection := true, closeCalled := true)
  }
}
