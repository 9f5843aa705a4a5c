/** Responses whose body is over the limit: what the caller is told, and that the connection is given up. */
module HttpLimits {
  import opened Wrappers
  import opened Bytes
  import opened HttpResponse
  import opened HttpConnection
  import opened HttpRoundTrip

  /** Well formed but for the size of the body. */
  predicate Sendable(r: Response, limits: Limits) {
    && HeadOk(r, limits)
    && !(100 <= r.status < 200)
    && Meaning(r.fields, NO_FIELDS).Ok?
    && PayloadOk(r, Meaning(r.fields, NO_FIELDS).value)
  }

  /** The chunk that takes the total over the cap is where reading stops. */
  lemma {:induction false} ChunksOverrun(chunks: seq<Chunk>, lastText: seq<byte>, sofar: seq<byte>, cap: nat,
                                         tail: seq<byte>)
    requires ChunksOk(chunks)
    requires |sofar| <= cap < |sofar| + |Joined(chunks)| && |sofar| + |Joined(chunks)| + 2 < U64_LIMIT
    ensures var b := Dechunk(PrintChunks(chunks, lastText) + tail, sofar, cap);
            && b.Wrong? && b.error.BodyTooLarge? && b.error.limit == cap
            && cap < b.error.len <= |sofar| + |Joined(chunks)|
    decreases |chunks|
  {
    hide Dechunk, ParseChunkSizeLine, SizeText;
    var s := PrintChunks(chunks, lastText) + tail;
    DechunkOne(s, sofar, cap);
    var c := chunks[0];
    var more := PrintChunks(chunks[1..], lastText) + tail;
    var t := c.data + CRLF + more;
    ChunkAlgebra(c, PrintChunks(chunks[1..], lastText), tail);
    SizeLineReadsBack(c.sizeText, |c.data|, t);
    Cut3(c.sizeText, CRLF, t);
    Cut3(c.data, CRLF, more);
    assert TakeChunk(t, |c.data|) == Whole(c.data, more);
    if |sofar| + |c.data| <= cap {
      ChunksOverrun(chunks[1..], lastText, sofar + c.data, cap, tail);
    }
  }

  /**
   * A body over the limit is never returned and its connection never used again. What is
   * reported is the status where it is not one of success and the body is merely too long
   * to be read for reuse; otherwise that the body is too large, with the limit.
   */
  lemma OverLimit(r: Response, limits: Limits, tail: seq<byte>, sawBytes: bool)
    requires Sendable(r, limits) && |BodyOf(r.payload)| > BodyLimit(r.status, limits)
    ensures var o := Exchange(Print(r) + tail, limits, sawBytes);
            && !o.reusable && o.attempt.Failed?
            && if (r.payload.Sized? && |r.payload.data| > limits.maxBodyBytes) || 200 <= r.status <= 299
               then o.attempt.error.BodyTooLarge? && o.attempt.error.limit == limits.maxBodyBytes
                    && limits.maxBodyBytes < o.attempt.error.len <= |BodyOf(r.payload)|
               else o.attempt.error == HttpStatus(r.status)
  {
    hide PrintHead, ParseHead, Meaning, Dechunk;
    var after := PrintPayload(r.payload) + tail;
    Assoc(PrintHead(r), PrintPayload(r.payload), tail);
    HeadReadsBack(r, limits, after);
    Cut2(PrintHead(r), after);
    if r.payload.Chunks? {
      ChunksOverrun(r.payload.chunks, r.payload.lastText, [], BodyLimit(r.status, limits), tail);
    }
  }

  // ---------------------------------------------------------------- responses cut short

  /** What more bytes would make of it. */
  function WithMore(b: BodyRead, more: seq<byte>): BodyRead {
    match b
    case Cut(rest) => Cut(rest + more)
    case Wrong(e, rest) => Wrong(e, rest + more)
    case Overflow(rest) => Overflow(rest + more)
    case Whole(body, rest) => Whole(body, rest + more)
  }

  lemma ChunkIsStable(t: seq<byte>, size: nat, more: seq<byte>)
    requires !TakeChunk(t, size).Cut?
    ensures TakeChunk(t + more, size) == WithMore(TakeChunk(t, size), more)
  {
    assert (t + more)[..size] == t[..size] && (t + more)[size..] == t[size..] + more;
    assert (t + more)[size..size + 2] == t[size..size + 2] && (t + more)[size + 2..] == t[size + 2..] + more;
  }

  lemma EndIsStable(t: seq<byte>, sofar: seq<byte>, more: seq<byte>)
    requires !TakeEnd(t, sofar).Cut?
    ensures TakeEnd(t + more, sofar) == WithMore(TakeEnd(t, sofar), more)
  {
    assert (t + more)[..2] == t[..2] && (t + more)[2..] == t[2..] + more;
  }

  /** A body that has been read, or found wrong, is so whatever follows. */
  lemma {:induction false} BodyIsStable(s: seq<byte>, sofar: seq<byte>, cap: nat, more: seq<byte>)
    requires !Dechunk(s, sofar, cap).Cut?
    ensures Dechunk(s + more, sofar, cap) == WithMore(Dechunk(s, sofar, cap), more)
    decreases |s|
  {
    hide Dechunk, TakeChunk, TakeEnd, ParseChunkSizeLine;
    DechunkOne(s, sofar, cap);
    DechunkOne(s + more, sofar, cap);
    assert IsPrefix(s, s + more);
    ChunkLineAnswerIsStable(s, s + more);
    match ParseChunkSizeLine(s) {
      case Bad(_) =>
      case Done(line) =>
        var t, size := s[line.1..], line.0;
        assert (s + more)[line.1..] == t + more;
        if size == 0 {
          EndIsStable(t, sofar, more);
        } else if |sofar| + size <= cap && size + 2 < U64_LIMIT && |sofar| + size < U64_LIMIT {
          ChunkIsStable(t, size, more);
          var c := TakeChunk(t, size);
          if c.Whole? {
            BodyIsStable(c.rest, sofar + c.body, cap, more);
          }
        }
    }
  }

  lemma TakenIsStable(s: seq<byte>, framing: Framing, cap: nat, more: seq<byte>)
    requires !TakeBody(s, framing, cap).Cut?
    ensures TakeBody(s + more, framing, cap) == WithMore(TakeBody(s, framing, cap), more)
  {
    match framing {
      case NoBody =>
      case ContentLength(len) =>
        if len <= cap {
          assert (s + more)[..len] == s[..len] && (s + more)[len..] == s[len..] + more;
        }
      case Chunked => BodyIsStable(s, [], cap, more);
    }
  }

  /**
   * A response that stops before its end is never taken for a shorter one: wherever it is
   * cut, the connection is given up, and only whether anything was read is reported.
   */
  lemma CutShortIsNoticed(r: Response, limits: Limits, k: nat, sawBytes: bool)
    requires WellFormed(r, limits) && k < |Print(r)|
    ensures var o := Exchange(Print(r)[..k], limits, sawBytes);
            !o.reusable && o.attempt == if sawBytes then Failed(ClosedByPeer) else ClosedEmpty
  {
    hide Print, WellFormed, ParseHead, TakeBody, Closes;
    var s, more := Print(r)[..k], Print(r)[k..];
    assert s + more == Print(r) && Print(r) + [] == Print(r);
    ExchangeRecovers(r, limits, [], sawBytes);
    var p := ParseHead(s, limits);
    if !p.NeedMore? {
      assert IsPrefix(s, Print(r));
      HeadAnswerIsStable(s, Print(r), limits);
    }
    if p.Done? {
      var head, t := p.value, s[p.value.headLen..];
      assert Print(r)[head.headLen..] == t + more;
      if !TakeBody(t, head.framing, CapFor(head.status, limits)).Cut? {
        TakenIsStable(t, head.framing, CapFor(head.status, limits), more);
      }
    }
  }
}
