/**
 * One keep-alive connection (crates/http-ingest/src/connection.rs).
 *
 * `Exchange` says what one request/response exchange means for the bytes the peer
 * has still to deliver, looked at all at once. `Connection.RoundTrip` works on a read
 * buffer that is refilled in pieces whose sizes the network chooses; its contract is
 * that no choice of pieces shows.
 */
module HttpConnection {
  import opened Wrappers
  import opened Bytes
  import opened HttpResponse

  const DISCARD_CAP: nat := 8 * 1024
  const READ_CHUNK: nat := 8 * 1024

  /**
   * What one attempt comes to. `Overflowed` is not a value of the original: a sum over a
   * chunk size does not fit 64 bits, the checked addition panics, and nothing is returned.
   */
  datatype Attempt = Success(body: seq<byte>) | ClosedEmpty | Failed(error: Error) | Overflowed

  // ---------------------------------------------------------------- meaning of a byte stream

  /** What is made of a body, and the bytes left after the point that was reached. */
  datatype BodyRead =
    | Cut(rest: seq<byte>)
    | Wrong(error: Error, rest: seq<byte>)
    | Overflow(rest: seq<byte>)
    | Whole(body: seq<byte>, rest: seq<byte>)

  /** After the last size line: exactly one more CRLF, no trailers. */
  function TakeEnd(t: seq<byte>, body: seq<byte>): (r: BodyRead)
    ensures |r.rest| <= |t|
    ensures r.Whole? ==> r.body == body
  {
    if |t| < 2 then Cut(t)
    else if t[..2] != CRLF then Wrong(Protocol("chunk trailers not supported"), t)
    else Whole(body, t[2..])
  }

  /** After a size line: `size` bytes and a CRLF. */
  function TakeChunk(t: seq<byte>, size: nat): (r: BodyRead)
    ensures |r.rest| <= |t|
    ensures r.Whole? ==> |r.body| == size && |r.rest| < |t|
  {
    if |t| < size + 2 then Cut(t)
    else if t[size..size + 2] != CRLF then Wrong(Protocol("malformed chunk terminator"), t[size..])
    else Whole(t[..size], t[size + 2..])
  }

  function Dechunk(s: seq<byte>, sofar: seq<byte>, cap: nat): (r: BodyRead)
    ensures |r.rest| <= |s|
    ensures r.Whole? && |sofar| <= cap ==> |r.body| <= cap
    decreases |s|, 1
  {
    match ParseChunkSizeLine(s)
    case NeedMore => Cut(s)
    case Bad(e) => Wrong(e, s)
    case Done(line) => AfterSize(s[line.1..], line.0, sofar, cap)
  }

  function AfterSize(t: seq<byte>, size: nat, sofar: seq<byte>, cap: nat): (r: BodyRead)
    ensures |r.rest| <= |t|
    ensures r.Whole? && |sofar| <= cap ==> |r.body| <= cap
    decreases |t|, 0
  {
    if size == 0 then TakeEnd(t, sofar)
    else if |sofar| + size >= U64_LIMIT then Overflow(t)
    else if |sofar| + size > cap then Wrong(BodyTooLarge(|sofar| + size, cap), t)
    else if size + 2 >= U64_LIMIT then Overflow(t)
    else
      var c := TakeChunk(t, size);
      if c.Whole? then Dechunk(c.rest, sofar + c.body, cap) else c
  }

  /** One round of `Dechunk`. */
  lemma DechunkOne(s: seq<byte>, sofar: seq<byte>, cap: nat)
    ensures ParseChunkSizeLine(s).NeedMore? ==> Dechunk(s, sofar, cap) == Cut(s)
    ensures ParseChunkSizeLine(s).Bad? ==> Dechunk(s, sofar, cap) == Wrong(ParseChunkSizeLine(s).error, s)
    ensures ParseChunkSizeLine(s).Done? ==>
              Dechunk(s, sofar, cap) ==
              AfterSize(s[ParseChunkSizeLine(s).value.1..], ParseChunkSizeLine(s).value.0, sofar, cap)
  {
  }

  /** How a size that cannot be read is answered. */
  lemma NotRead(t: seq<byte>, size: nat, sofar: seq<byte>, cap: nat)
    requires 0 < size
    ensures |sofar| + size >= U64_LIMIT ==> AfterSize(t, size, sofar, cap) == Overflow(t)
    ensures cap < |sofar| + size < U64_LIMIT ==>
              AfterSize(t, size, sofar, cap) == Wrong(BodyTooLarge(|sofar| + size, cap), t)
    ensures |sofar| + size <= cap && size + 2 >= U64_LIMIT ==> AfterSize(t, size, sofar, cap) == Overflow(t)
  {
  }

  function TakeBody(s: seq<byte>, framing: Framing, cap: nat): (r: BodyRead)
    ensures |r.rest| <= |s|
    ensures r.Whole? ==> |r.body| <= cap
  {
    match framing
    case NoBody => Whole([], s)
    case ContentLength(len) =>
      if len > cap then Wrong(BodyTooLarge(len, cap), s)
      else if |s| < len then Cut(s)
      else Whole(s[..len], s[len..])
    case Chunked => Dechunk(s, [], cap)
  }

  predicate Is2xx(status: nat) {
    200 <= status < 300
  }

  function CapFor(status: nat, limits: Limits): nat {
    if Is2xx(status) then limits.maxBodyBytes else Min(DISCARD_CAP, limits.maxBodyBytes)
  }

  datatype Outcome = Outcome(attempt: Attempt, reusable: bool, rest: seq<byte>)

  function WhenCut(sawBytes: bool): Attempt {
    if sawBytes then Failed(ClosedByPeer) else ClosedEmpty
  }

  /**
   * How an exchange ends once its body has been read, or has not. After an overflow there
   * is no caller left to be told whether the connection can be used again.
   */
  function Conclude(head: Head, b: BodyRead, sawBytes: bool): (r: Outcome)
    ensures r.rest == b.rest
    ensures r.attempt.Success? ==> b.Whole? && r.attempt.body == b.body
  {
    match b
    case Whole(body, rest) =>
      Outcome(if Is2xx(head.status) then Success(body) else Failed(HttpStatus(head.status)),
              !head.connectionClose, rest)
    case Wrong(e, rest) =>
      Outcome(Failed(if e.BodyTooLarge? && !Is2xx(head.status) then HttpStatus(head.status) else e), false, rest)
    case Overflow(rest) => Outcome(Overflowed, false, rest)
    case Cut(rest) => Outcome(WhenCut(sawBytes), false, rest)
  }

  /**
   * The exchange on a stream that holds `s` and then ends. `sawBytes` is whether any
   * of `s` still had to be read from the socket: only the report of an early end
   * depends on it.
   */
  function Exchange(s: seq<byte>, limits: Limits, sawBytes: bool): (r: Outcome)
    ensures |r.rest| <= |s|
    ensures r.attempt.Success? ==> |r.attempt.body| <= limits.maxBodyBytes
  {
    match ParseHead(s, limits)
    case NeedMore => Outcome(WhenCut(sawBytes), false, s)
    case Bad(e) => Outcome(Failed(e), false, s)
    case Done(head) =>
      Conclude(head, TakeBody(s[head.headLen..], head.framing, CapFor(head.status, limits)), sawBytes)
  }

  // ---------------------------------------------------------------- the connection itself

  datatype Read = Got | Eof | ReadFailed | ReadTimedOut

  /** `Internal`: why reading a response stopped early. */
  datatype Internal = Timeout(phase: Phase) | Io(sawBytes: bool) | Fatal(error: Error) | Panic

  class Connection {
    /** Bytes the peer will deliver and that have not been read from the socket yet. */
    var unread: seq<byte>
    var rbuf: seq<byte>
    var reusable: bool
    /** Requests written to the socket. */
    var requests: nat
    /** How often the network failed (a timeout or an I/O error) on this connection. */
    ghost var faults: nat

    constructor (peerBytes: seq<byte>)
      ensures unread == peerBytes && rbuf == [] && reusable && faults == 0 && requests == 0
    {
      unread, rbuf, reusable, faults, requests := peerBytes, [], true, 0, 0;
    }

    /** Everything still to be consumed: the read buffer, then the socket. */
    ghost function Stream(): seq<byte>
      reads this`rbuf, this`unread
    {
      rbuf + unread
    }

    /** The socket has been read from, or has not been touched. */
    ghost predicate Drained(before: seq<byte>)
      reads this`unread
    {
      |unread| < |before| || unread == before
    }

    /** One socket read. The network picks the number of bytes, or fails. */
    method ReadMore() returns (r: Read)
      modifies this`rbuf, this`unread, this`faults
      ensures Stream() == old(Stream())
      ensures Drained(old(unread))
      ensures r.Got? ==> |unread| < |old(unread)| && IsPrefix(old(rbuf), rbuf)
      ensures !r.Got? ==> unread == old(unread) && rbuf == old(rbuf)
      ensures r.Eof? ==> unread == []
      ensures faults == old(faults) + if r.ReadFailed? || r.ReadTimedOut? then 1 else 0
    {
      var fails: bool := *;
      var late: bool := *;
      if fails {
        faults := faults + 1;
        return if late then ReadTimedOut else ReadFailed;
      }
      if unread == [] {
        return Eof;
      }
      var n: nat :| 0 < n <= |unread| && n <= READ_CHUNK;
      assert rbuf + unread == rbuf + unread[..n] + unread[n..];
      rbuf, unread := rbuf + unread[..n], unread[n..];
      r := Got;
    }

    /** Drops `n` bytes from the front of the read buffer. */
    method Advance(n: nat)
      requires n <= |rbuf|
      modifies this`rbuf
      ensures rbuf == old(rbuf)[n..]
      ensures Stream() == old(Stream())[n..]
    {
      rbuf := rbuf[n..];
    }

    method ReadHead(limits: Limits, sawBytes: bool) returns (head: Result<Head, Internal>, saw: bool)
      modifies this`rbuf, this`unread, this`faults
      ensures Stream() == old(Stream())
      ensures saw == (sawBytes || |unread| < |old(unread)|) && Drained(old(unread))
      ensures faults >= old(faults)
      ensures head.Ok? ==> ParseHead(Stream(), limits) == Done(head.value) && head.value.headLen <= |rbuf|
      ensures head.Ok? ==> faults == old(faults)
      ensures head.Err? ==> Stopped(head.error, saw, old(faults))
      ensures head.Err? && faults == old(faults) ==>
                match ParseHead(Stream(), limits)
                case NeedMore => head.error == Io(saw) && unread == []
                case Bad(e) => head.error == Fatal(e)
                case Done(_) => false
    {
      saw := sawBytes;
      while true
        invariant Stream() == old(Stream()) && faults == old(faults)
        invariant saw == (sawBytes || |unread| < |old(unread)|) && Drained(old(unread))
        decreases |unread|
      {
        var answer := ScanHead(rbuf, limits);
        if !answer.NeedMore? {
          HeadAnswerIsStable(rbuf, Stream(), limits);
          head := if answer.Bad? then Err(Fatal(answer.error)) else Ok(answer.value);
          return;
        }
        var r := ReadMore();
        match r {
          case Got => saw := true;
          case Eof =>
            assert rbuf == Stream();
            return Err(Io(saw)), saw;
          case ReadFailed => return Err(Io(saw)), saw;
          case ReadTimedOut => return Err(Timeout(HeadersPhase)), saw;
        }
      }
    }

    method FillTo(needed: nat, sawBytes: bool) returns (stop: Option<Internal>, saw: bool)
      modifies this`rbuf, this`unread, this`faults
      ensures Stream() == old(Stream())
      ensures saw == (sawBytes || |unread| < |old(unread)|) && Drained(old(unread))
      ensures faults >= old(faults)
      ensures stop.None? ==> |rbuf| >= needed && faults == old(faults)
      ensures stop.Some? ==> Stopped(stop.value, saw, old(faults)) && stop.value != Panic
      ensures stop.Some? && faults == old(faults) ==>
                |Stream()| < needed && stop.value == Io(saw) && unread == []
    {
      saw := sawBytes;
      while |rbuf| < needed
        invariant Stream() == old(Stream()) && faults == old(faults)
        invariant saw == (sawBytes || |unread| < |old(unread)|) && Drained(old(unread))
        decreases |unread|
      {
        var r := ReadMore();
        match r {
          case Got => saw := true;
          case Eof => return Some(Io(saw)), saw;
          case ReadFailed => return Some(Io(saw)), saw;
          case ReadTimedOut => return Some(Timeout(BodyPhase)), saw;
        }
      }
      stop := None;
    }

    /** A reading error says whether bytes were seen; an overflow is not the network's doing. */
    ghost predicate Stopped(stop: Internal, saw: bool, faultsBefore: nat)
      reads this`faults
    {
      && (stop.Io? ==> stop.sawBytes == saw)
      && (stop.Panic? ==> faults == faultsBefore)
    }

    /** Whether what was read of a body (or the reason it was not) is what `b` says. */
    ghost predicate Agrees(b: BodyRead, got: Result<seq<byte>, Internal>, saw: bool)
      reads this`rbuf, this`unread
    {
      && Stream() == b.rest
      && match b
         case Whole(body, _) => got == Ok(body)
         case Wrong(e, _) => got == Err(Fatal(e))
         case Overflow(_) => got == Err(Panic)
         case Cut(_) => got == Err(Io(saw)) && unread == []
    }

    /** Reads the next chunk-size line, refilling the buffer while it is incomplete. */
    method ReadChunkSize(sawBytes: bool) returns (line: Result<(nat, nat), Internal>, saw: bool)
      modifies this`rbuf, this`unread, this`faults
      ensures Stream() == old(Stream())
      ensures saw == (sawBytes || |unread| < |old(unread)|) && Drained(old(unread))
      ensures faults >= old(faults)
      ensures line.Ok? ==> ParseChunkSizeLine(Stream()) == Done(line.value) && line.value.1 <= |rbuf|
      ensures line.Ok? ==> faults == old(faults)
      ensures line.Err? ==> Stopped(line.error, saw, old(faults))
      ensures line.Err? && faults == old(faults) ==>
                match ParseChunkSizeLine(Stream())
                case NeedMore => line.error == Io(saw) && unread == []
                case Bad(e) => line.error == Fatal(e)
                case Done(_) => false
    {
      saw := sawBytes;
      while true
        invariant Stream() == old(Stream()) && faults == old(faults)
        invariant saw == (sawBytes || |unread| < |old(unread)|) && Drained(old(unread))
        decreases |unread|
      {
        var answer := ParseChunkSizeLine(rbuf);
        if !answer.NeedMore? {
          ChunkLineAnswerIsStable(rbuf, Stream());
          line := if answer.Bad? then Err(Fatal(answer.error)) else Ok(answer.value);
          return;
        }
        var r := ReadMore();
        match r {
          case Got => saw := true;
          case Eof =>
            assert rbuf == Stream();
            return Err(Io(saw)), saw;
          case ReadFailed => return Err(Io(saw)), saw;
          case ReadTimedOut => return Err(Timeout(BodyPhase)), saw;
        }
      }
    }

    method ReadEnd(body: seq<byte>, sawBytes: bool) returns (got: Result<seq<byte>, Internal>, saw: bool)
      modifies this`rbuf, this`unread, this`faults
      ensures saw == (sawBytes || |unread| < |old(unread)|) && Drained(old(unread))
      ensures faults >= old(faults)
      ensures got.Ok? ==> faults == old(faults)
      ensures got.Err? ==> Stopped(got.error, saw, old(faults))
      ensures faults == old(faults) ==> Agrees(TakeEnd(old(Stream()), body), got, saw)
    {
      var stop;
      stop, saw := FillTo(2, sawBytes);
      if stop.Some? {
        return Err(stop.value), saw;
      }
      assert Stream()[..2] == rbuf[..2];
      if rbuf[..2] != CRLF {
        return Err(Fatal(Protocol("chunk trailers not supported"))), saw;
      }
      Advance(2);
      got := Ok(body);
    }

    method ReadChunk(size: nat, sawBytes: bool) returns (got: Result<seq<byte>, Internal>, saw: bool)
      modifies this`rbuf, this`unread, this`faults
      ensures saw == (sawBytes || |unread| < |old(unread)|) && Drained(old(unread))
      ensures faults >= old(faults)
      ensures got.Ok? ==> faults == old(faults)
      ensures got.Err? ==> Stopped(got.error, saw, old(faults))
      ensures faults == old(faults) ==> Agrees(TakeChunk(old(Stream()), size), got, saw)
    {
      var stop;
      stop, saw := FillTo(size + 2, sawBytes);
      if stop.Some? {
        return Err(stop.value), saw;
      }
      ghost var t := Stream();
      var chunk := rbuf[..size];
      assert chunk == t[..size];
      assert rbuf[size..][..2] == t[size..size + 2];
      Advance(size);
      if rbuf[..2] != CRLF {
        return Err(Fatal(Protocol("malformed chunk terminator"))), saw;
      }
      Advance(2);
      assert t[size..][2..] == t[size + 2..];
      got := Ok(chunk);
    }

    /** One turn of the chunk loop: a size line, then a chunk, or the end of the body. */
    method ChunkTurn(out: seq<byte>, cap: nat, sawBytes: bool)
      returns (more: bool, got: Result<seq<byte>, Internal>, saw: bool)
      modifies this`rbuf, this`unread, this`faults
      ensures saw == (sawBytes || |unread| < |old(unread)|) && Drained(old(unread))
      ensures faults >= old(faults)
      ensures got.Ok? ==> faults == old(faults)
      ensures got.Err? ==> Stopped(got.error, saw, old(faults))
      ensures more ==>
                && got.Ok? && |Stream()| < |old(Stream())|
                && Dechunk(old(Stream()), out, cap) == Dechunk(Stream(), got.value, cap)
      ensures !more && faults == old(faults) ==> Agrees(Dechunk(old(Stream()), out, cap), got, saw)
    {
      DechunkOne(Stream(), out, cap);
      more := false;
      var line;
      line, saw := ReadChunkSize(sawBytes);
      if line.Err? {
        return false, Err(line.error), saw;
      }
      var (size, consumed) := line.value;
      Advance(consumed);
      if size == 0 {
        got, saw := ReadEnd(out, saw);
        return;
      }
      NotRead(Stream(), size, out, cap);
      var newTotal := |out| + size;
      if newTotal >= U64_LIMIT {
        return false, Err(Panic), saw;
      }
      if newTotal > cap {
        return false, Err(Fatal(BodyTooLarge(newTotal, cap))), saw;
      }
      if size + 2 >= U64_LIMIT {
        return false, Err(Panic), saw;
      }
      got, saw := ReadChunk(size, saw);
      if got.Ok? {
        return true, Ok(out + got.value), saw;
      }
    }

    method ReadChunkedBody(cap: nat, sawBytes: bool) returns (got: Result<seq<byte>, Internal>, saw: bool)
      modifies this`rbuf, this`unread, this`faults
      ensures saw == (sawBytes || |unread| < |old(unread)|) && Drained(old(unread))
      ensures faults >= old(faults)
      ensures got.Ok? ==> faults == old(faults)
      ensures got.Err? ==> Stopped(got.error, saw, old(faults))
      ensures faults == old(faults) ==> Agrees(Dechunk(old(Stream()), [], cap), got, saw)
    {
      saw := sawBytes;
      ghost var meant := Dechunk(Stream(), [], cap);
      var out: seq<byte> := [];
      while true
        invariant faults == old(faults)
        invariant saw == (sawBytes || |unread| < |old(unread)|) && Drained(old(unread))
        invariant meant == Dechunk(Stream(), out, cap)
        decreases |Stream()|
      {
        var more;
        more, got, saw := ChunkTurn(out, cap, saw);
        if !more {
          return;
        }
        out := got.value;
      }
    }

    method ReadBody(framing: Framing, cap: nat, sawBytes: bool) returns (got: Result<seq<byte>, Internal>, saw: bool)
      modifies this`rbuf, this`unread, this`faults
      ensures saw == (sawBytes || |unread| < |old(unread)|) && Drained(old(unread))
      ensures faults >= old(faults)
      ensures got.Ok? ==> faults == old(faults)
      ensures got.Err? ==> Stopped(got.error, saw, old(faults))
      ensures faults == old(faults) ==> Agrees(TakeBody(old(Stream()), framing, cap), got, saw)
    {
      saw := sawBytes;
      match framing {
        case NoBody =>
          got := Ok([]);
        case ContentLength(len) =>
          if len > cap {
            return Err(Fatal(BodyTooLarge(len, cap))), saw;
          }
          var stop;
          stop, saw := FillTo(len, saw);
          if stop.Some? {
            return Err(stop.value), saw;
          }
          var body := rbuf[..len];
          assert body == Stream()[..len];
          Advance(len);
          got := Ok(body);
        case Chunked =>
          got, saw := ReadChunkedBody(cap, saw);
      }
    }

    method FinishWithInternal(stop: Internal) returns (a: Attempt)
      requires !stop.Panic?
      modifies this`reusable
      ensures !reusable
      ensures match stop
              case Io(sawBytes) => a == WhenCut(sawBytes)
              case Fatal(e) => a == Failed(e)
              case Timeout(phase) => a == Failed(TimedOut(phase))
    {
      reusable := false;
      match stop {
        case Timeout(phase) => a := Failed(TimedOut(phase));
        case Io(sawBytes) => a := if sawBytes then Failed(ClosedByPeer) else ClosedEmpty;
        case Fatal(e) => a := Failed(e);
      }
    }

    /** Turns what became of the body into the attempt's outcome. */
    method Settle(head: Head, got: Result<seq<byte>, Internal>) returns (a: Attempt)
      modifies this`reusable
      ensures got.Err? && got.error != Panic ==> !reusable && !a.Success? && a != Overflowed
      ensures got == Err(Panic) ==> a == Overflowed && reusable == old(reusable)
      ensures a == ClosedEmpty ==> got == Err(Io(false))
      ensures forall b: BodyRead, saw: bool :: Agrees(b, got, saw) ==>
                && a == Conclude(head, b, saw).attempt
                && (a != Overflowed ==> reusable == Conclude(head, b, saw).reusable)
    {
      var is2xx := Is2xx(head.status);
      match got {
        case Ok(bytes) =>
          reusable := !head.connectionClose;
          a := if is2xx then Success(bytes) else Failed(HttpStatus(head.status));
        case Err(Fatal(BodyTooLarge(len, limit))) =>
          if !is2xx {
            reusable := false;
            a := Failed(HttpStatus(head.status));
          } else {
            a := FinishWithInternal(got.error);
          }
        case Err(Panic) =>
          a := Overflowed;
        case Err(stop) =>
          a := FinishWithInternal(stop);
      }
    }

    /**
     * Writes the request and reads one response.
     *
     * Whatever sizes the reads have, an exchange during which the network does not
     * fail ends as `Exchange` says for the bytes of the stream (overflows included), with
     * exactly the bytes `Exchange` leaves still to be consumed. A network failure always
     * retires the connection and never yields a body. In either case an empty close is
     * reported only if nothing was read from the socket.
     */
    method RoundTrip(limits: Limits) returns (a: Attempt)
      modifies this
      ensures faults >= old(faults)
      ensures requests <= old(requests) + 1
      ensures Drained(old(unread))
      ensures faults == old(faults) ==>
                var meant := Exchange(old(Stream()), limits, old(unread) != []);
                && a == meant.attempt && Stream() == meant.rest
                && (a != Overflowed ==> reusable == meant.reusable)
      ensures faults != old(faults) ==> !reusable && !a.Success? && a != Overflowed
      ensures a == Overflowed ==> reusable == old(reusable)
      ensures a == ClosedEmpty ==> unread == old(unread)
    {
      var writeFails: bool := *;
      if writeFails {
        faults := faults + 1;
        reusable := false;
        return ClosedEmpty;
      }
      requests := requests + 1;
      var head, saw := ReadHead(limits, false);
      if head.Err? {
        a := FinishWithInternal(head.error);
        return;
      }
      Advance(head.value.headLen);
      var got;
      got, saw := ReadBody(head.value.framing, CapFor(head.value.status, limits), saw);
      a := Settle(head.value, got);
    }
  }
}
