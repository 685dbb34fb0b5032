/**
 The sender as the object it is in the program: every method works on the fields in place
 and is proved against the atomic steps of the model.
 */
module SenderSocket {
  import opened Wrappers
  import opened RttEstimator
  import opened SenderModel

  class SenderSocket {
    const senderWindow: nat
    const packetsSharedQueue: array<Slot>
    var sendSequenceNumber: nat
    var nextToSend: nat
    var packetsSendBaseStats: nat
    var lastReleased: int
    var empty: nat
    var full: nat
    var dupAck: int
    var duplicateAckCheck: int
    var numRTX: int
    var bytesTotal: int
    var timeoutCountStats: nat
    var fastRetransmitCountStats: nat
    var estimateRTT: real
    var deviationRTT: real
    var setRTO: real
    var closeConnection: bool
    var closeCalled: bool

    ghost function State(): (s: Sender)
      reads this, packetsSharedQueue
    {
      Sender(senderWindow, packetsSharedQueue[..], sendSequenceNumber, nextToSend, packetsSendBaseStats,
             lastReleased, empty, full, dupAck, duplicateAckCheck, numRTX, bytesTotal, timeoutCountStats,
             fastRetransmitCountStats, Estimator(estimateRTT, deviationRTT, setRTO), closeConnection, closeCalled)
    }

    ghost predicate Valid()
      reads this, packetsSharedQueue
    {
      State().Valid()
    }

    /** Open, once the SYN was answered: `memory` is what the heap held in the new ring. */
    constructor Open(senderWindow: nat, memory: seq<Slot>, recvWnd: nat, sampleRTT: real)
      requires 1 <= senderWindow && |memory| == senderWindow
      requires forall i :: 0 <= i < senderWindow ==> memory[i].Valid()
      ensures Valid() && fresh(packetsSharedQueue)
      ensures State() == Opened(senderWindow, memory, recvWnd, sampleRTT)
    {
      this.senderWindow := senderWindow;
      packetsSharedQueue := new Slot[senderWindow](i requires 0 <= i < |memory| => memory[i]);
      packetsSendBaseStats, bytesTotal, timeoutCountStats, fastRetransmitCountStats := 0, 0, 0, 0;
      sendSequenceNumber, nextToSend := 0, 0;
      dupAck, numRTX, duplicateAckCheck := 0, 0, -1;
      closeCalled, closeConnection := false, false;
      full := 0;
      estimateRTT, deviationRTT := sampleRTT, 0.0;
      setRTO := sampleRTT + 4.0 * MaxReal(10.0, 0.0);
      lastReleased := Min(senderWindow, recvWnd);
      empty := Release(0, Min(senderWindow, recvWnd), senderWindow);
      new;
      assert packetsSharedQueue[..] == memory;
    }

    /** Send, once its wait returned, with nothing else running in between. */
    method Send(data: Bytes, now: int)
      requires Valid() && |data| <= MAX_PAYLOAD
      requires closeConnection || 0 < empty
      modifies this, packetsSharedQueue
      ensures Valid()
      ensures State() == SignalFull(Publish(WritePayload(WriteHeader(TakeCredit(old(State())), |data|, now), data)))
    {
      if closeConnection {
        closeConnection := false;
      } else {
        empty := empty - 1;
      }
      var slot := sendSequenceNumber % senderWindow;
      packetsSharedQueue[slot] :=
        packetsSharedQueue[slot].(size := |data| + HEADER_SIZE, txTime := now, seqNo := Some(sendSequenceNumber));
      packetsSharedQueue[slot] :=
        packetsSharedQueue[slot].(body := data + packetsSharedQueue[slot].body[|data|..]);
      sendSequenceNumber := sendSequenceNumber + 1;
      full := Release(full, 1, senderWindow);
    }

    /** The worker's case for `full`. */
    method FirstSend(now: int) returns (sent: Packet)
      requires Valid() && 0 < full
      modifies this, packetsSharedQueue
      ensures Valid()
      ensures (State(), sent) == SenderModel.FirstSend(old(State()), now)
    {
      full := full - 1;
      var i := nextToSend % senderWindow;
      packetsSharedQueue[i] := packetsSharedQueue[i].(txTime := now);
      sent := Datagram(packetsSharedQueue[i]);
      nextToSend := nextToSend + 1;
    }

    /** The worker's case for WAIT_TIMEOUT. */
    method Timeout(now: int) returns (sent: Packet)
      requires Valid()
      modifies this, packetsSharedQueue
      ensures Valid()
      ensures (State(), sent) == SenderModel.Timeout(old(State()), now)
    {
      var i := packetsSendBaseStats % senderWindow;
      packetsSharedQueue[i] := packetsSharedQueue[i].(txTime := now);
      sent := Datagram(packetsSharedQueue[i]);
      timeoutCountStats := timeoutCountStats + 1;
    }

    /** ReceiveACK on a datagram that recvfrom did return. */
    method ReceiveACK(rh: Ack, now: int) returns (status: Status, sent: Option<Packet>)
      requires Valid()
      modifies this, packetsSharedQueue
      ensures Valid()
      ensures AckResult(State(), status, sent) == ReceiveAck(old(State()), rh, now)
    {
      status, sent := DoNothing, None;
      if rh.ackSeq > packetsSendBaseStats {
        MoveBase(rh, now);
        status := StatusOk;
      } else if rh.ackSeq == packetsSendBaseStats {
        status, sent := DuplicateACK(rh, now);
      }
    }

    /** One measured round trip updates deviation, estimate and timeout, in this order. */
    method FindRTO(measuredRTT: real)
      modifies `deviationRTT, `estimateRTT, `setRTO
      ensures Estimator(estimateRTT, deviationRTT, setRTO)
           == Sample(old(Estimator(estimateRTT, deviationRTT, setRTO)), measuredRTT)
    {
      deviationRTT := (1.0 - 0.25) * deviationRTT + 0.25 * Abs(measuredRTT - estimateRTT);
      estimateRTT := (1.0 - 0.125) * estimateRTT + 0.125 * measuredRTT;
      setRTO := estimateRTT + 4.0 * MaxReal(deviationRTT, 10.0);
    }

    /** Its branch for an acknowledgment above the base. */
    method MoveBase(rh: Ack, now: int)
      requires Valid() && packetsSendBaseStats < rh.ackSeq
      modifies this
      ensures State() == Advance(old(State()), rh, now)
    {
      CountBytes(rh);
      TimeACK(rh, now);
      SlideWindow(rh);
    }

    method CountBytes(rh: Ack)
      requires Valid() && packetsSendBaseStats < rh.ackSeq
      modifies `bytesTotal
      ensures State() == SenderModel.CountBytes(old(State()), rh)
    {
      var numberOfPacketsReceived := rh.ackSeq - packetsSendBaseStats;
      var packetSize := packetsSharedQueue[(rh.ackSeq - 1) % senderWindow].size - HEADER_SIZE;
      bytesTotal := bytesTotal + packetSize + (numberOfPacketsReceived - 1) * MAX_PAYLOAD;
    }

    /** Times the acknowledged packet, when it was sent once and acknowledged alone. */
    method TimeACK(rh: Ack, now: int)
      requires Valid() && packetsSendBaseStats < rh.ackSeq
      modifies `deviationRTT, `estimateRTT, `setRTO
      ensures State() == TimeAck(old(State()), rh, now)
    {
      if dupAck == 0 && numRTX + 1 == 1 && rh.ackSeq - 1 == packetsSendBaseStats {
        FindRTO(ElapsedMs(now, packetsSharedQueue[(rh.ackSeq - 1) % senderWindow].txTime));
      }
    }

    method SlideWindow(rh: Ack)
      modifies this
      ensures State() == Slide(old(State()), rh)
    {
      packetsSendBaseStats := rh.ackSeq;
      dupAck, numRTX, duplicateAckCheck := 0, 0, -1;
      var windowStats := Min(senderWindow, rh.recvWnd);
      var newReleased := packetsSendBaseStats + windowStats - lastReleased;
      empty := Release(empty, newReleased, senderWindow);
      lastReleased := lastReleased + newReleased;
    }

    /** Its branch for an acknowledgment equal to the base. */
    method DuplicateACK(rh: Ack, now: int) returns (status: Status, sent: Option<Packet>)
      requires Valid() && packetsSendBaseStats == rh.ackSeq
      modifies this, packetsSharedQueue
      ensures AckResult(State(), status, sent) == ReceiveAck(old(State()), rh, now)
    {
      var third := CountDuplicateACK();
      packetsSendBaseStats := rh.ackSeq;
      if third {
        fastRetransmitCountStats := fastRetransmitCountStats + 1;
        var i := packetsSendBaseStats % senderWindow;
        packetsSharedQueue[i] := packetsSharedQueue[i].(txTime := now);
        return RetxOccured, Some(Datagram(packetsSharedQueue[i]));
      }
      return DoNothing, None;
    }

    /** Its counters, and whether they call for a fast retransmission. */
    method CountDuplicateACK() returns (third: bool)
      modifies `numRTX, `dupAck, `duplicateAckCheck
      ensures State() == CountDuplicate(old(State()))
      ensures third == (duplicateAckCheck == packetsSendBaseStats && dupAck == 3)
    {
      numRTX := numRTX + 1;
      if dupAck == 0 {
        duplicateAckCheck := packetsSendBaseStats;
        dupAck := dupAck + 1;
      }
      if duplicateAckCheck == packetsSendBaseStats {
        dupAck := dupAck + 1;
        return dupAck == 3;
      } else if numRTX > 4 {
        duplicateAckCheck := -1;
      }
      return false;
    }

    /** The test at the top of the worker's loop. */
    method LoopEnds() returns (ends: bool)
      requires Valid()
      ensures ends == WorkerMayExit(State())
    {
      ends := closeCalled && packetsSendBaseStats == sendSequenceNumber;
    }
  }
}
