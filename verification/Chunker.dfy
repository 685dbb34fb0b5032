/**
 The loop in main that cuts the buffer into what Send is given.
 */
module Chunker {
  import opened Wrappers
  import opened SenderModel
  import opened Transfer
  import opened TransferInvariant

  /** The chunks of `buf`, in order. */
  function Chunks(buf: Bytes): (r: seq<Bytes>) {
    if buf == [] then []
    else
      var size := Min(|buf|, MAX_PAYLOAD);
      [buf[..size]] + Chunks(buf[size..])
  }

  function Flatten(chunks: seq<Bytes>): Bytes {
    if chunks == [] then [] else chunks[0] + Flatten(chunks[1..])
  }

  lemma {:induction false} FlattenAppend(chunks: seq<Bytes>, last: Bytes)
    ensures Flatten(chunks + [last]) == Flatten(chunks) + last
  {
    if chunks == [] {
      assert [last][1..] == [];
    } else {
      assert (chunks + [last])[1..] == chunks[1..] + [last];
      FlattenAppend(chunks[1..], last);
    }
  }

  lemma {:induction false} FlattenLength(chunks: seq<Bytes>)
    ensures |Flatten(chunks)| == TotalBytes(chunks)
  {
    if chunks != [] {
      var front := chunks[..|chunks| - 1];
      assert chunks == front + [chunks[|chunks| - 1]];
      FlattenAppend(front, chunks[|chunks| - 1]);
      FlattenLength(front);
    }
  }

  /** Cutting loses nothing, and gives what the transfer expects of its chunks. */
  lemma {:induction false} ChunksPartition(buf: Bytes)
    ensures Flatten(Chunks(buf)) == buf
    ensures ChunksOk(Chunks(buf))
    ensures forall i :: 0 <= i < |Chunks(buf)| ==>
              if i < |Chunks(buf)| - 1 then |Chunks(buf)[i]| == 1464 else 1 <= |Chunks(buf)[i]| <= 1464
    ensures buf == [] <==> Chunks(buf) == []
    decreases |buf|
  {
    if buf != [] {
      var size := Min(|buf|, MAX_PAYLOAD);
      var rest := Chunks(buf[size..]);
      ChunksPartition(buf[size..]);
      var all := Chunks(buf);
      assert all == [buf[..size]] + rest;
      assert all[1..] == rest;
      forall i | 0 <= i < |all| - 1 ensures |all[i]| == MAX_PAYLOAD {
        if i > 0 {
          assert all[i] == rest[i - 1];
        }
      }
      forall i | 0 <= i < |all| ensures 1 <= |all[i]| <= MAX_PAYLOAD {
        if i > 0 {
          assert all[i] == rest[i - 1];
        }
      }
      assert buf[..size] + buf[size..] == buf;
    }
  }

  /** main's loop: `off` advances by the size of each chunk handed to Send. */
  method CutAndSend(buf: Bytes) returns (sent: seq<Bytes>)
    ensures sent == Chunks(buf)
    ensures Flatten(sent) == buf && ChunksOk(sent)
  {
    var off := 0;
    sent := [];
    while off < |buf|
      invariant 0 <= off <= |buf|
      invariant sent + Chunks(buf[off..]) == Chunks(buf)
    {
      var bytes := Min(|buf| - off, MAX_PKT_SIZE - HEADER_SIZE);
      ghost var rest := buf[off..];
      assert rest[..bytes] == buf[off..off + bytes] && rest[bytes..] == buf[off + bytes..];
      sent := sent + [buf[off..off + bytes]];
      off := off + bytes;
    }
    assert buf[off..] == [];
    ChunksPartition(buf);
  }
}
