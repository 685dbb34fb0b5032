/**
 Reading a page: the receive buffer that doubles while segments come in, up to a cap.
 */
module PageSocket {
  import opened Wrappers

  const INITIAL_BUF_SIZE := 8192
  const PAGE_MAX := 2097152
  const ROBOT_MAX := 16384

  /** What the connection brings: bytes, an orderly close, or an error or timeout. Empty data
      is what recv reports for a close, too; the end of the list is a timeout. */
  datatype Arrival = Data(bytes: Bytes) | Close | Failure

  /** All bytes that come before the connection ends. */
  function Stream(arrivals: seq<Arrival>): Bytes {
    if arrivals == [] || !arrivals[0].Data? || arrivals[0].bytes == [] then []
    else arrivals[0].bytes + Stream(arrivals[1..])
  }

  predicate ClosesCleanly(arrivals: seq<Arrival>) {
    && arrivals != []
    && !arrivals[0].Failure?
    && (arrivals[0] == Close || arrivals[0].bytes == [] || ClosesCleanly(arrivals[1..]))
  }

  /** What is left to come once recv took the first `n` bytes of the first arrival. */
  function Rest(arrivals: seq<Arrival>, n: nat): seq<Arrival>
    requires arrivals != [] && arrivals[0].Data? && n <= |arrivals[0].bytes|
  {
    if n == |arrivals[0].bytes| then arrivals[1..] else [Data(arrivals[0].bytes[n..])] + arrivals[1..]
  }

  lemma CutBytes(bytes: Bytes, n: nat, more: Bytes)
    requires n <= |bytes|
    ensures bytes + more == bytes[..n] + (bytes[n..] + more)
  {
  }

  lemma RestOfStream(arrivals: seq<Arrival>, n: nat)
    requires arrivals != [] && arrivals[0].Data? && 0 < n <= |arrivals[0].bytes|
    ensures Stream(arrivals) == arrivals[0].bytes[..n] + Stream(Rest(arrivals, n))
    ensures ClosesCleanly(arrivals) == ClosesCleanly(Rest(arrivals, n))
  {
    var bytes, rest := arrivals[0].bytes, Rest(arrivals, n);
    if n < |bytes| {
      assert rest[0] == Data(bytes[n..]) && rest[1..] == arrivals[1..];
      CutBytes(bytes, n, Stream(arrivals[1..]));
    } else {
      assert bytes[..n] == bytes;
    }
  }

  /** What was received and what is to come make up the whole. */
  predicate Splits(arrivals: seq<Arrival>, received: Bytes, rest: seq<Arrival>) {
    && Stream(arrivals) == received + Stream(rest)
    && ClosesCleanly(arrivals) == ClosesCleanly(rest)
  }

  lemma SplitMoves(arrivals: seq<Arrival>, received: Bytes, rest: seq<Arrival>, n: nat)
    requires Splits(arrivals, received, rest)
    requires rest != [] && rest[0].Data? && 0 < n <= |rest[0].bytes|
    ensures Splits(arrivals, received + rest[0].bytes[..n], Rest(rest, n))
    ensures |Stream(Rest(rest, n))| < |Stream(rest)|
  {
    RestOfStream(rest, n);
  }

  predicate AtEnd(rest: seq<Arrival>) {
    rest == [] || !rest[0].Data? || rest[0].bytes == []
  }

  /** What is read whole: an orderly close after 50 bytes to three quarters of 16 KB for
      robots.txt, of 2 MB for a page. */
  predicate Acceptable(arrivals: seq<Arrival>, robots: bool) {
    ClosesCleanly(arrivals) && 50 <= |Stream(arrivals)| <= if robots then 12288 else 1572864
  }

  lemma SplitDecides(arrivals: seq<Arrival>, received: Bytes, rest: seq<Arrival>, robots: bool)
    requires Splits(arrivals, received, rest)
    ensures received <= Stream(arrivals)
    ensures rest == [] || rest[0].Failure? ==> !Acceptable(arrivals, robots)
    ensures |received| > (if robots then 12288 else 1572864) ==> !Acceptable(arrivals, robots)
    ensures rest != [] && !rest[0].Failure? && AtEnd(rest) ==>
              Stream(arrivals) == received && (Acceptable(arrivals, robots) <==>
                50 <= |received| <= if robots then 12288 else 1572864)
  {
    SplitEnds(arrivals, received, rest);
  }

  lemma SplitEnds(arrivals: seq<Arrival>, received: Bytes, rest: seq<Arrival>)
    requires Splits(arrivals, received, rest)
    ensures received <= Stream(arrivals) && |received| <= |Stream(arrivals)|
    ensures AtEnd(rest) ==>
              Stream(arrivals) == received && (ClosesCleanly(arrivals) <==> rest != [] && !rest[0].Failure?)
  {
  }

  /** The size after so many doublings. */
  function SizeAfter(doublings: nat): (r: nat)
    ensures r >= INITIAL_BUF_SIZE && r % 4 == 0
  {
    if doublings == 0 then INITIAL_BUF_SIZE else 2 * SizeAfter(doublings - 1)
  }

  /** Both caps are such sizes, so a size below the cap doubles to at most the cap. */
  lemma {:induction false} DoublingStaysCapped(doublings: nat, more: nat)
    requires more > 0 && SizeAfter(doublings) < SizeAfter(more)
    ensures 2 * SizeAfter(doublings) <= SizeAfter(more)
  {
    if doublings > 0 {
      if more > 1 {
        DoublingStaysCapped(doublings - 1, more - 1);
      }
    }
  }

  /** How a buffer of `before` bytes may have grown while `used` bytes came in: never past the
      limit, only as far as it had to, since half its size would leave less than a quarter
      free, and with as many bytes copied as it grew by. */
  predicate Grown(before: int, size: int, used: int, copied: int, robots: bool) {
    && before <= size <= (if robots then 16384 else 2097152)
    && (size == before || 3 * (size / 2) < 4 * used)
    && copied == size - before
  }

  lemma GrowsOn(before: int, size: int, used: int, copied: int, size1: int, used1: int, copied1: int, robots: bool)
    requires Grown(before, size, used, copied, robots) && 0 <= size && used <= used1
    requires Grown(size, size1, used1, copied1, robots)
    ensures Grown(before, size1, used1, copied + copied1, robots)
  {
  }

  class Socket {
    var buf: array<byte>
    var allocatedSize: int
    var curPos: int
    var robots: bool
    ghost var doublings: nat

    function Cap(): int
      reads this
    {
      if robots then ROBOT_MAX else PAGE_MAX
    }

    ghost predicate Valid()
      reads this
    {
      && buf.Length == allocatedSize
      && allocatedSize == SizeAfter(doublings)
      && INITIAL_BUF_SIZE <= allocatedSize <= Cap()
      && 0 <= curPos <= allocatedSize
    }

    /** The buffer holds all of it with a final zero, and a quarter is free. */
    ghost predicate HoldsWhole(stream: Bytes)
      reads this, buf
    {
      && 0 <= curPos < buf.Length == allocatedSize && 4 * curPos <= 3 * allocatedSize
      && buf[..curPos] == stream && buf[curPos] == 0
    }

    constructor (robots: bool)
      ensures Valid() && fresh(buf) && this.robots == robots && allocatedSize == 8192
    {
      buf := new byte[INITIAL_BUF_SIZE](_ => 0xCD);
      allocatedSize, curPos, this.robots, doublings := INITIAL_BUF_SIZE, 0, robots, 0;
    }

    /** Read. Whatever the segmentation, it succeeds exactly when the connection closes in
        order after at least 50 bytes and at most three quarters of 16 KB for robots.txt, of
        2 MB for a page; the buffer then holds the whole stream and a final zero. In every
        case the buffer holds what was received, is the smallest that leaves a quarter free,
        never passes those sizes, and doubling copied what it grew by. */
    method Read(arrivals: seq<Arrival>) returns (ok: bool, ghost copied: nat)
      requires Valid()
      modifies this, buf
      ensures Valid() && (buf == old(buf) || fresh(buf)) && robots == old(robots)
      ensures buf[..curPos] <= Stream(arrivals)
      ensures ok <==> Acceptable(arrivals, robots)
      ensures ok ==> HoldsWhole(Stream(arrivals))
      ensures Grown(old(allocatedSize), allocatedSize, curPos, copied, robots)
    {
      var rest := arrivals;
      curPos := 0;
      copied := 0;
      while true
        invariant Valid() && (buf == old(buf) || fresh(buf)) && robots == old(robots)
        invariant Splits(arrivals, buf[..curPos], rest)
        invariant 4 * curPos <= 3 * Cap() && allocatedSize / 4 <= allocatedSize - curPos
        invariant Grown(old(allocatedSize), allocatedSize, curPos, copied, robots)
        decreases |Stream(rest)|
      {
        SplitDecides(arrivals, buf[..curPos], rest, robots);
        if rest == [] || rest[0].Failure? {
          return false, copied;
        }
        if rest[0] == Close || rest[0].bytes == [] {
          ok := Finish(arrivals, rest);
          return ok, copied;
        }
        ghost var size, used := allocatedSize, curPos;
        var room;
        ghost var more;
        room, rest, more := ReadSegment(arrivals, rest);
        GrowsOn(old(allocatedSize), size, used, copied, allocatedSize, curPos, more, robots);
        copied := copied + more;
        if !room {
          return false, copied;
        }
      }
    }

    /** The branch for data: what fits is received, and the buffer grows when it has to. */
    method ReadSegment(ghost arrivals: seq<Arrival>, rest: seq<Arrival>)
        returns (room: bool, more: seq<Arrival>, ghost copied: nat)
      requires Valid() && curPos < allocatedSize && Splits(arrivals, buf[..curPos], rest) && !AtEnd(rest)
      modifies this, buf
      ensures Valid() && (buf == old(buf) || fresh(buf)) && robots == old(robots) && old(curPos) <= curPos
      ensures Splits(arrivals, buf[..curPos], more) && |Stream(more)| < |Stream(rest)|
      ensures buf[..curPos] <= Stream(arrivals)
      ensures Grown(old(allocatedSize), allocatedSize, curPos, copied, robots)
      ensures room ==> 4 * curPos <= 3 * Cap() && allocatedSize / 4 <= allocatedSize - curPos
      ensures !room ==> !Acceptable(arrivals, robots)
    {
      var n := Min(|rest[0].bytes|, allocatedSize - curPos);
      SplitMoves(arrivals, buf[..curPos], rest, n);
      room, copied := Accept(rest[0].bytes[..n]);
      more := Rest(rest, n);
      SplitDecides(arrivals, buf[..curPos], more, robots);
    }

    /** The branch for an orderly close. */
    method Finish(ghost arrivals: seq<Arrival>, ghost rest: seq<Arrival>) returns (ok: bool)
      requires Valid() && Splits(arrivals, buf[..curPos], rest)
      requires rest != [] && !rest[0].Failure? && AtEnd(rest)
      requires 4 * curPos <= 3 * Cap() && allocatedSize / 4 <= allocatedSize - curPos
      modifies buf
      ensures buf[..curPos] == old(buf[..curPos]) == Stream(arrivals)
      ensures ok <==> Acceptable(arrivals, robots)
      ensures ok ==> HoldsWhole(Stream(arrivals))
    {
      SplitDecides(arrivals, buf[..curPos], rest, robots);
      if curPos < 50 {
        return false;
      }
      ghost var received := buf[..curPos];
      buf[curPos] := 0;
      assert buf[..curPos] == received;
      return true;
    }

    /** A segment comes in and the buffer grows if less than a quarter is left; there is no
        room exactly when more than three quarters of the cap are full. */
    method Accept(segment: Bytes) returns (room: bool, ghost copied: nat)
      requires Valid() && curPos + |segment| <= allocatedSize
      modifies this, buf
      ensures Valid() && (buf == old(buf) || fresh(buf)) && robots == old(robots)
      ensures curPos == old(curPos) + |segment|
      ensures buf[..curPos] == old(buf[..curPos]) + segment
      ensures Grown(old(allocatedSize), allocatedSize, curPos, copied, robots)
      ensures room <==> 4 * curPos <= 3 * Cap()
      ensures room ==> allocatedSize / 4 <= allocatedSize - curPos
    {
      copied := 0;
      Receive(segment);
      if allocatedSize - curPos < allocatedSize / 4 {
        if allocatedSize == Cap() {
          return false, copied;
        }
        copied := allocatedSize;
        Double();
      }
      return true, copied;
    }

    /** recv: the segment goes behind what is there. */
    method Receive(segment: Bytes)
      requires Valid() && curPos + |segment| <= allocatedSize
      modifies this`curPos, buf
      ensures Valid() && curPos == old(curPos) + |segment|
      ensures buf[..curPos] == old(buf[..curPos]) + segment
    {
      forall k | 0 <= k < |segment| {
        buf[curPos + k] := segment[k];
      }
      curPos := curPos + |segment|;
    }

    /** A buffer of twice the size with the same contents. */
    method Double()
      requires Valid() && allocatedSize < Cap()
      modifies this`buf, this`allocatedSize, this`doublings
      ensures Valid() && fresh(buf)
      ensures allocatedSize == 2 * old(allocatedSize)
      ensures buf[..curPos] == old(buf[..curPos])
    {
      assert Cap() == SizeAfter(if robots then 1 else 8);
      DoublingStaysCapped(doublings, if robots then 1 else 8);
      var tmp := new byte[allocatedSize * 2](i requires 0 <= i reads this, buf =>
        if i < buf.Length then buf[i] else 0xCD);
      allocatedSize := allocatedSize * 2;
      buf := tmp;
      doublings := doublings + 1;
    }
  }
}
