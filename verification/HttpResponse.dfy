/**
 * Response heads and chunk-size lines (crates/http-ingest/src/response.rs).
 *
 * Both parsers are run again and again over a growing read buffer. The functions
 * here say what they answer for a buffer; `ScanHead` and the lemmas relate that
 * to the byte loop of the original, and show that an answer, once given, does not
 * change when more bytes arrive.
 */
module HttpResponse {
  import opened Wrappers
  import opened Bytes

  datatype Limits = Limits(maxHeadBytes: nat, maxHeaderCount: nat, maxBodyBytes: nat)

  datatype Phase = HeadersPhase | BodyPhase

  datatype Error =
    | Protocol(rule: string)
    | HttpStatus(status: nat)
    | TimedOut(phase: Phase)
    | ConnectFailed
    | ClosedByPeer
    | BodyTooLarge(len: nat, limit: nat)

  datatype Framing = NoBody | ContentLength(len: nat) | Chunked

  datatype Head = Head(status: nat, framing: Framing, connectionClose: bool, headLen: nat)

  /** What an incremental parser answers: not enough bytes, a violation, or a value. */
  datatype Answer<+T> = NeedMore | Bad(error: Error) | Done(value: T)

  const COLON: byte := 58
  const COMMA: byte := 44
  const SEMICOLON: byte := 59
  const U64_LIMIT: nat := 0x1_0000_0000_0000_0000
  const MAX_CHUNK_HEADER_LINE: nat := 256

  const CONTENT_LENGTH: seq<byte> := Ascii("content-length")
  const TRANSFER_ENCODING: seq<byte> := Ascii("transfer-encoding")
  const CONNECTION: seq<byte> := Ascii("connection")
  const CONTENT_ENCODING: seq<byte> := Ascii("content-encoding")
  const CHUNKED: seq<byte> := Ascii("chunked")
  const CLOSE: seq<byte> := Ascii("close")
  const IDENTITY: seq<byte> := Ascii("identity")
  const HTTP11: seq<byte> := [72, 84, 84, 80, 47, 49, 46, 49]
  const HTTP10: seq<byte> := [72, 84, 84, 80, 47, 49, 46, 48]

  // ---------------------------------------------------------------- octet classes

  predicate IsOws(b: byte) {
    b == SP || b == HTAB
  }

  predicate IsText(b: byte) {
    0x21 <= b <= 0x7E || b == SP || b == HTAB
  }

  predicate IsTchar(b: byte) {
    IsAlpha(b) || IsDigit(b) || b in {33, 35, 36, 37, 38, 39, 42, 43, 45, 46, 94, 95, 96, 124, 126}
  }

  predicate AllText(s: seq<byte>) {
    forall i :: 0 <= i < |s| ==> IsText(s[i])
  }

  predicate AllTchar(s: seq<byte>) {
    forall i :: 0 <= i < |s| ==> IsTchar(s[i])
  }

  predicate AllDigits(s: seq<byte>) {
    forall i :: 0 <= i < |s| ==> IsDigit(s[i])
  }

  predicate AllHexDigits(s: seq<byte>) {
    forall i :: 0 <= i < |s| ==> IsHexDigit(s[i])
  }

  predicate AllOws(s: seq<byte>) {
    forall i :: 0 <= i < |s| ==> IsOws(s[i])
  }

  /** Neither end of `s` is a space or a tab. */
  predicate Trimmed(s: seq<byte>) {
    s != [] ==> !IsOws(s[0]) && !IsOws(s[|s| - 1])
  }

  function TrimOws(s: seq<byte>): (r: seq<byte>)
    ensures Trimmed(r)
    ensures |r| <= |s|
    decreases |s|
  {
    if s == [] then s
    else if IsOws(s[0]) then TrimOws(s[1..])
    else if IsOws(s[|s| - 1]) then TrimOws(s[..|s| - 1])
    else s
  }

  /** Trimming undoes any optional whitespace put around a trimmed value. */
  lemma {:induction false} TrimUndoesPadding(lead: seq<byte>, v: seq<byte>, trail: seq<byte>)
    requires AllOws(lead) && AllOws(trail) && Trimmed(v)
    ensures TrimOws(lead + v + trail) == v
    decreases |lead| + |trail|
  {
    var s := lead + v + trail;
    if lead != [] {
      assert s[1..] == lead[1..] + v + trail;
      TrimUndoesPadding(lead[1..], v, trail);
    } else if trail != [] {
      if v == [] {
        assert s[1..] == [] + v + trail[1..];
        TrimUndoesPadding([], v, trail[1..]);
      } else {
        assert s[0] == v[0];
        assert s[..|s| - 1] == [] + v + trail[..|trail| - 1];
        TrimUndoesPadding([], v, trail[..|trail| - 1]);
      }
    } else {
      assert s == v;
    }
  }

  function SplitOn(s: seq<byte>, sep: byte): (r: seq<seq<byte>>)
    decreases |s|
  {
    var i := IndexOf(s, sep, 0, |s|);
    if i == |s| then [s] else [s[..i]] + SplitOn(s[i + 1..], sep)
  }

  // ---------------------------------------------------------------- single lines

  /** The number three digits are. */
  function StatusCode(ds: seq<byte>): (n: nat)
    requires |ds| == 3 && AllDigits(ds)
    ensures n < 1000
  {
    assert IsDigit(ds[0]) && IsDigit(ds[1]) && IsDigit(ds[2]);
    (ds[0] as int - 48) * 100 + (ds[1] as int - 48) * 10 + (ds[2] as int - 48)
  }

  function ParseStatusLine(line: seq<byte>): (r: Result<nat, Error>)
    ensures r.Ok? ==> r.value < 1000
  {
    if |line| < 12 then Err(Protocol("status line too short"))
    else if (line[..8] != HTTP11 && line[..8] != HTTP10) || line[8] != SP then
      Err(Protocol("unsupported protocol token"))
    else if !AllDigits(line[9..12]) then Err(Protocol("non-digit status code"))
    else if |line| > 12 && line[12] != SP then Err(Protocol("malformed reason phrase separator"))
    else if |line| > 12 && !AllText(line[13..]) then Err(Protocol("invalid byte in reason phrase"))
    else Ok(StatusCode(line[9..12]))
  }

  function ParseHeaderLine(line: seq<byte>): (r: Result<(seq<byte>, seq<byte>), Error>)
    ensures r.Ok? ==> r.value.0 != [] && AllTchar(r.value.0) && Trimmed(r.value.1) && AllText(r.value.1)
  {
    if line != [] && IsOws(line[0]) then Err(Protocol("obs-fold"))
    else
      var colon := IndexOf(line, COLON, 0, |line|);
      if colon == |line| then Err(Protocol("missing header colon"))
      else
        var name := line[..colon];
        if name == [] || !AllTchar(name) then Err(Protocol("invalid header name"))
        else
          var value := TrimOws(line[colon + 1..]);
          if !AllText(value) then Err(Protocol("invalid byte in header value")) else Ok((name, value))
  }

  function ParseContentLength(value: seq<byte>): (r: Result<nat, Error>)
    ensures r.Ok? ==> AllDigits(value) && r.value == Value(value, 10) < U64_LIMIT
  {
    if value == [] || |value| > 20 || !AllDigits(value) then Err(Protocol("malformed Content-Length"))
    else
      var n := Value(value, 10);
      if n >= U64_LIMIT then Err(Protocol("Content-Length overflow")) else Ok(n)
  }

  // ---------------------------------------------------------------- header fields

  /** What the header fields seen so far have settled. */
  datatype Fields = Fields(contentLength: Option<nat>, chunked: bool, connectionClose: bool)

  const NO_FIELDS: Fields := Fields(None, false, false)

  predicate NamesClose(value: seq<byte>) {
    exists i :: 0 <= i < |SplitOn(value, COMMA)| && SameIgnoringCase(TrimOws(SplitOn(value, COMMA)[i]), CLOSE)
  }

  function AddField(name: seq<byte>, value: seq<byte>, st: Fields): (r: Result<Fields, Error>) {
    if SameIgnoringCase(name, CONTENT_LENGTH) then
      if st.contentLength.Some? then Err(Protocol("duplicate Content-Length"))
      else match ParseContentLength(value)
        case Err(e) => Err(e)
        case Ok(n) => Ok(st.(contentLength := Some(n)))
    else if SameIgnoringCase(name, TRANSFER_ENCODING) then
      if st.chunked then Err(Protocol("duplicate Transfer-Encoding"))
      else if !SameIgnoringCase(TrimOws(value), CHUNKED) then Err(Protocol("unsupported Transfer-Encoding"))
      else Ok(st.(chunked := true))
    else if SameIgnoringCase(name, CONNECTION) then
      Ok(if NamesClose(value) then st.(connectionClose := true) else st)
    else if SameIgnoringCase(name, CONTENT_ENCODING) && !SameIgnoringCase(TrimOws(value), IDENTITY) then
      Err(Protocol("unsupported Content-Encoding"))
    else Ok(st)
  }

  function FoldLines(lines: seq<seq<byte>>, st: Fields): (r: Result<Fields, Error>) {
    if lines == [] then Ok(st)
    else match ParseHeaderLine(lines[0])
      case Err(e) => Err(e)
      case Ok(field) =>
        match AddField(field.0, field.1, st)
        case Err(e) => Err(e)
        case Ok(st') => FoldLines(lines[1..], st')
  }

  /** The framing decision of section 6.3 of RFC 9112, as far as the client supports it. */
  function Decide(status: nat, f: Fields, limits: Limits, headLen: nat): (r: Answer<Head>)
    ensures r.Done? ==> r.value.headLen == headLen && r.value.status == status
    ensures r.Done? && r.value.framing.ContentLength? ==> r.value.framing.len <= limits.maxBodyBytes
  {
    if f.contentLength.Some? && f.chunked then Bad(Protocol("Content-Length and Transfer-Encoding together"))
    else if 100 <= status < 200 then Bad(Protocol("1xx status"))
    else if status == 204 || status == 304 then Done(Head(status, NoBody, f.connectionClose, headLen))
    else if f.chunked then Done(Head(status, Chunked, f.connectionClose, headLen))
    else if f.contentLength.Some? then
      var len := f.contentLength.value;
      if len > limits.maxBodyBytes then Bad(BodyTooLarge(len, limits.maxBodyBytes))
      else Done(Head(status, ContentLength(len), f.connectionClose, headLen))
    else Bad(Protocol("missing Content-Length"))
  }

  // ---------------------------------------------------------------- whole heads

  /** Lines up to the empty one, looked for in `s[start..limit]`. */
  datatype Split = Open | Broken(error: Error) | Ended(lines: seq<seq<byte>>, headLen: nat)

  function Prepend(lines: seq<seq<byte>>, r: Split): Split {
    if r.Ended? then Ended(lines + r.lines, r.headLen) else r
  }

  function SplitHead(s: seq<byte>, start: nat, limit: nat, count: nat, maxCount: nat): (r: Split)
    requires start <= limit <= |s|
    ensures r.Ended? ==> start < r.headLen <= limit
    decreases limit - start
  {
    var nl := IndexOf(s, LF, start, limit);
    if nl == limit then Open
    else if nl == start || s[nl - 1] != CR then Broken(Protocol("bare LF"))
    else
      var line := s[start..nl - 1];
      if CR in line then Broken(Protocol("bare CR in header line"))
      else if line == [] then Ended([], nl + 1)
      else if count > maxCount then Broken(Protocol("too many headers"))
      else Prepend([line], SplitHead(s, nl + 1, limit, count + 1, maxCount))
  }

  function Interpret(lines: seq<seq<byte>>, headLen: nat, limits: Limits): (r: Answer<Head>)
    ensures !r.NeedMore?
    ensures r.Done? ==> r.value.headLen == headLen
    ensures r.Done? && r.value.framing.ContentLength? ==> r.value.framing.len <= limits.maxBodyBytes
  {
    if lines == [] then Bad(Protocol("missing status line"))
    else match ParseStatusLine(lines[0])
      case Err(e) => Bad(e)
      case Ok(status) =>
        match FoldLines(lines[1..], NO_FIELDS)
        case Err(e) => Bad(e)
        case Ok(f) => Decide(status, f, limits, headLen)
  }

  function ParseHead(s: seq<byte>, limits: Limits): (r: Answer<Head>)
    ensures r.Done? ==> 0 < r.value.headLen <= |s| && r.value.headLen <= limits.maxHeadBytes
    ensures r.Done? && r.value.framing.ContentLength? ==> r.value.framing.len <= limits.maxBodyBytes
  {
    match SplitHead(s, 0, Min(|s|, limits.maxHeadBytes), 0, limits.maxHeaderCount)
    case Broken(e) => Bad(e)
    case Open => if |s| >= limits.maxHeadBytes then Bad(Protocol("head too large")) else NeedMore
    case Ended(lines, n) => Interpret(lines, n, limits)
  }

  lemma {:induction false} IndexOfSkips(s: seq<byte>, b: byte, from: nat, i: nat, limit: nat)
    requires from <= i <= limit <= |s|
    requires forall k :: from <= k < i ==> s[k] != b
    ensures IndexOf(s, b, from, limit) == IndexOf(s, b, i, limit)
    decreases i - from
  {
    if from < i {
      IndexOfSkips(s, b, from + 1, i, limit);
    }
  }

  lemma PrependTwice(a: seq<seq<byte>>, b: seq<byte>, r: Split)
    ensures Prepend(a, Prepend([b], r)) == Prepend(a + [b], r)
  {
    if r.Ended? {
      assert a + ([b] + r.lines) == a + [b] + r.lines;
    }
  }

  /** One line of `SplitHead`, for the line feed at `i`. */
  lemma SplitHeadAt(s: seq<byte>, start: nat, i: nat, limit: nat, count: nat, maxCount: nat)
    requires start <= i < limit <= |s|
    requires s[i] == LF && forall k :: start <= k < i ==> s[k] != LF
    ensures var r := SplitHead(s, start, limit, count, maxCount);
            if i == start || s[i - 1] != CR then r == Broken(Protocol("bare LF"))
            else if CR in s[start..i - 1] then r == Broken(Protocol("bare CR in header line"))
            else if s[start..i - 1] == [] then r == Ended([], i + 1)
            else if count > maxCount then r == Broken(Protocol("too many headers"))
            else r == Prepend([s[start..i - 1]], SplitHead(s, i + 1, limit, count + 1, maxCount))
  {
    IndexOfSkips(s, LF, start, i, limit);
  }

  lemma SplitHeadOpen(s: seq<byte>, start: nat, limit: nat, count: nat, maxCount: nat)
    requires start <= limit <= |s|
    requires forall k :: start <= k < limit ==> s[k] != LF
    ensures SplitHead(s, start, limit, count, maxCount) == Open
  {
    IndexOfSkips(s, LF, start, limit, limit);
  }

  /** The original's single pass over the bytes finds the same lines. */
  method ScanLines(buf: seq<byte>, limits: Limits) returns (r: Split)
    ensures r == SplitHead(buf, 0, Min(|buf|, limits.maxHeadBytes), 0, limits.maxHeaderCount)
  {
    hide SplitHead;
    var searchLimit := Min(|buf|, limits.maxHeadBytes);
    ghost var whole := SplitHead(buf, 0, searchLimit, 0, limits.maxHeaderCount);
    var lines: seq<seq<byte>> := [];
    var lineStart, i := 0, 0;
    while i < searchLimit
      invariant 0 <= lineStart <= i <= searchLimit
      invariant forall k :: lineStart <= k < i ==> buf[k] != LF
      invariant whole == Prepend(lines, SplitHead(buf, lineStart, searchLimit, |lines|, limits.maxHeaderCount))
    {
      if buf[i] != LF {
        i := i + 1;
        continue;
      }
      SplitHeadAt(buf, lineStart, i, searchLimit, |lines|, limits.maxHeaderCount);
      if i == lineStart || buf[i - 1] != CR {
        return Broken(Protocol("bare LF"));
      }
      var line := buf[lineStart..i - 1];
      if CR in line {
        return Broken(Protocol("bare CR in header line"));
      }
      if line == [] {
        assert lines + [] == lines;
        return Ended(lines, i + 1);
      }
      if |lines| > limits.maxHeaderCount {
        return Broken(Protocol("too many headers"));
      }
      PrependTwice(lines, line, SplitHead(buf, i + 1, searchLimit, |lines| + 1, limits.maxHeaderCount));
      lines := lines + [line];
      lineStart := i + 1;
      i := i + 1;
    }
    SplitHeadOpen(buf, lineStart, searchLimit, |lines|, limits.maxHeaderCount);
    r := Open;
  }

  method ScanHead(buf: seq<byte>, limits: Limits) returns (r: Answer<Head>)
    ensures r == ParseHead(buf, limits)
  {
    var split := ScanLines(buf, limits);
    match split {
      case Broken(e) =>
        r := Bad(e);
      case Open =>
        r := if |buf| >= limits.maxHeadBytes then Bad(Protocol("head too large")) else NeedMore;
      case Ended(lines, headLen) =>
        if lines == [] {
          return Bad(Protocol("missing status line"));
        }
        var status := ParseStatusLine(lines[0]);
        if status.Err? {
          return Bad(status.error);
        }
        var fields := ScanFields(lines[1..]);
        r := match fields
          case Err(e) => Bad(e)
          case Ok(f) => Decide(status.value, f, limits, headLen);
    }
  }

  /** The header loop, with the original's four running variables. */
  method ScanFields(lines: seq<seq<byte>>) returns (r: Result<Fields, Error>)
    ensures r == FoldLines(lines, NO_FIELDS)
  {
    var contentLength: Option<nat> := None;
    var transferEncodingSeen, chunked, connectionClose := false, false, false;
    for i := 0 to |lines|
      invariant transferEncodingSeen == chunked
      invariant FoldLines(lines, NO_FIELDS)
             == FoldLines(lines[i..], Fields(contentLength, chunked, connectionClose))
    {
      assert lines[i..][1..] == lines[i + 1..];
      var parsed := ParseHeaderLine(lines[i]);
      if parsed.Err? {
        return Err(parsed.error);
      }
      var (name, value) := parsed.value;
      if SameIgnoringCase(name, CONTENT_LENGTH) {
        if contentLength.Some? {
          return Err(Protocol("duplicate Content-Length"));
        }
        var n := ParseContentLength(value);
        if n.Err? {
          return Err(n.error);
        }
        contentLength := Some(n.value);
      } else if SameIgnoringCase(name, TRANSFER_ENCODING) {
        if transferEncodingSeen {
          return Err(Protocol("duplicate Transfer-Encoding"));
        }
        transferEncodingSeen := true;
        if !SameIgnoringCase(TrimOws(value), CHUNKED) {
          return Err(Protocol("unsupported Transfer-Encoding"));
        }
        chunked := true;
      } else if SameIgnoringCase(name, CONNECTION) {
        if NamesClose(value) {
          connectionClose := true;
        }
      } else if SameIgnoringCase(name, CONTENT_ENCODING) && !SameIgnoringCase(TrimOws(value), IDENTITY) {
        return Err(Protocol("unsupported Content-Encoding"));
      }
    }
    r := Ok(Fields(contentLength, chunked, connectionClose));
  }

  // ---------------------------------------------------------------- chunk-size lines

  /** The size a complete line gives; `consumed` is its length with its end. */
  function ChunkSize(line: seq<byte>, consumed: nat): (r: Answer<(nat, nat)>)
    ensures !r.NeedMore?
    ensures r.Done? ==> r.value.0 < U64_LIMIT && r.value.1 == consumed
  {
    if CR in line then Bad(Protocol("bare CR in chunk size line"))
    else if SEMICOLON in line then Bad(Protocol("chunk extensions not supported"))
    else if line == [] || |line| > 16 || !AllHexDigits(line) then Bad(Protocol("invalid chunk size"))
    else
      HexValueBound(line);
      PowGrows(16, |line|, 16);
      SixteenToTheSixteenth();
      Done((Value(line, 16), consumed))
  }

  /** A chunk size and the length of the line that carried it. */
  function ParseChunkSizeLine(s: seq<byte>): (r: Answer<(nat, nat)>)
    ensures r.Done? ==> r.value.0 < U64_LIMIT && 0 < r.value.1 <= |s|
  {
    var limit := Min(|s|, MAX_CHUNK_HEADER_LINE);
    var nl := IndexOf(s, LF, 0, limit);
    if nl == limit then
      if |s| >= MAX_CHUNK_HEADER_LINE then Bad(Protocol("chunk size line too large")) else NeedMore
    else if nl == 0 || s[nl - 1] != CR then Bad(Protocol("bare LF in chunk size line"))
    else ChunkSize(s[..nl - 1], nl + 1)
  }

  // ---------------------------------------------------------------- stability

  predicate IsPrefix(s: seq<byte>, t: seq<byte>) {
    |s| <= |t| && s == t[..|s|]
  }

  lemma PrefixAgrees(s: seq<byte>, t: seq<byte>, a: nat, b: nat)
    requires IsPrefix(s, t) && a <= b <= |s|
    ensures s[a..b] == t[a..b]
    ensures forall k :: 0 <= k < |s| ==> s[k] == t[k]
  {
  }

  lemma {:induction false} IndexOfStable(s: seq<byte>, t: seq<byte>, b: byte, from: nat, limit: nat, limit': nat)
    requires IsPrefix(s, t)
    requires from <= limit <= |s| && limit <= limit' <= |t|
    requires IndexOf(s, b, from, limit) < limit
    ensures IndexOf(t, b, from, limit') == IndexOf(s, b, from, limit)
    decreases limit - from
  {
    assert s[from] == t[from];
    if s[from] != b {
      IndexOfStable(s, t, b, from + 1, limit, limit');
    }
  }

  /**
   * The lines found in `s[start..limit]` are found in any longer stream, with any later
   * limit, unless the search ran to the limit, and then only the limit has to stay.
   */
  lemma {:induction false} SplitHeadStable(s: seq<byte>, t: seq<byte>, start: nat, limit: nat, limit': nat,
                                           count: nat, maxCount: nat)
    requires IsPrefix(s, t)
    requires start <= limit <= |s| && limit <= limit' <= |t|
    requires limit == limit' || !SplitHead(s, start, limit, count, maxCount).Open?
    ensures SplitHead(t, start, limit', count, maxCount) == SplitHead(s, start, limit, count, maxCount)
    decreases limit - start
  {
    hide SplitHead, IsPrefix;
    var nl := IndexOf(s, LF, start, limit);
    PrefixAgrees(s, t, start, nl);
    if nl == limit {
      SplitHeadOpen(s, start, limit, count, maxCount);
      SplitHeadOpen(t, start, limit', count, maxCount);
    } else {
      SplitHeadAt(s, start, nl, limit, count, maxCount);
      SplitHeadAt(t, start, nl, limit', count, maxCount);
      if nl != start && s[nl - 1] == CR {
        PrefixAgrees(s, t, start, nl - 1);
        var line := s[start..nl - 1];
        if CR !in line && line != [] && count <= maxCount {
          SplitHeadStable(s, t, nl + 1, limit, limit', count + 1, maxCount);
        }
      }
    }
  }

  lemma {:induction false} IndexOfSame(s: seq<byte>, t: seq<byte>, b: byte, from: nat, limit: nat)
    requires IsPrefix(s, t) && from <= limit <= |s|
    ensures IndexOf(t, b, from, limit) == IndexOf(s, b, from, limit)
    decreases limit - from
  {
    if from < limit {
      assert s[from] == t[from];
      IndexOfSame(s, t, b, from + 1, limit);
    }
  }

  /** Once a buffer has an answer, no further bytes change it. */
  lemma HeadAnswerIsStable(s: seq<byte>, t: seq<byte>, limits: Limits)
    requires IsPrefix(s, t)
    requires !ParseHead(s, limits).NeedMore?
    ensures ParseHead(t, limits) == ParseHead(s, limits)
  {
    hide SplitHead, Interpret;
    var limit, limit' := Min(|s|, limits.maxHeadBytes), Min(|t|, limits.maxHeadBytes);
    SplitHeadStable(s, t, 0, limit, limit', 0, limits.maxHeaderCount);
  }

  lemma ChunkLineAnswerIsStable(s: seq<byte>, t: seq<byte>)
    requires IsPrefix(s, t)
    requires !ParseChunkSizeLine(s).NeedMore?
    ensures ParseChunkSizeLine(t) == ParseChunkSizeLine(s)
  {
    var limit, limit' := Min(|s|, MAX_CHUNK_HEADER_LINE), Min(|t|, MAX_CHUNK_HEADER_LINE);
    var nl := IndexOf(s, LF, 0, limit);
    if nl == limit {
      assert limit == limit';
      IndexOfSame(s, t, LF, 0, limit);
    } else {
      IndexOfStable(s, t, LF, 0, limit, limit');
      if nl != 0 {
        assert s[..nl - 1] == t[..nl - 1];
      }
    }
  }
}
