/**
 * What a server prints, and the proof that the client reads it back: for every
 * well-formed response, however its header names are spelled, its values padded or
 * its body cut into chunks, and for every list of them on one connection.
 */
module HttpRoundTrip {
  import opened Wrappers
  import opened Bytes
  import opened HttpResponse
  import opened HttpOptions
  import opened HttpConnection

  // ---------------------------------------------------------------- printing

  datatype Field = Field(name: seq<byte>, lead: seq<byte>, value: seq<byte>, trail: seq<byte>)

  datatype Chunk = Chunk(sizeText: seq<byte>, data: seq<byte>)

  datatype Payload = Bare | Sized(data: seq<byte>) | Chunks(chunks: seq<Chunk>, lastText: seq<byte>)

  datatype Response = Response(
    http10: bool, status: nat, reason: Option<seq<byte>>, fields: seq<Field>, payload: Payload)

  predicate FieldOk(f: Field) {
    f.name != [] && AllTchar(f.name) && AllOws(f.lead) && AllOws(f.trail) && Trimmed(f.value) && AllText(f.value)
  }

  function PrintField(f: Field): seq<byte> {
    f.name + [COLON] + (f.lead + f.value + f.trail)
  }

  function ThreeDigits(n: nat): seq<byte> {
    [48 + n / 100 % 10, 48 + n / 10 % 10, 48 + n % 10]
  }

  function PrintStatusLine(r: Response): seq<byte> {
    (if r.http10 then HTTP10 else HTTP11) + [SP] + ThreeDigits(r.status)
      + (match r.reason case None => [] case Some(text) => [SP] + text)
  }

  function PrintFields(fs: seq<Field>): seq<seq<byte>> {
    if fs == [] then [] else [PrintField(fs[0])] + PrintFields(fs[1..])
  }

  /** Each line with its CRLF, then the empty line. */
  function PrintLines(lines: seq<seq<byte>>): seq<byte> {
    if lines == [] then CRLF else lines[0] + CRLF + PrintLines(lines[1..])
  }

  function PrintHead(r: Response): seq<byte> {
    PrintLines([PrintStatusLine(r)] + PrintFields(r.fields))
  }

  function PrintChunks(chunks: seq<Chunk>, lastText: seq<byte>): seq<byte> {
    if chunks == [] then lastText + CRLF + CRLF
    else chunks[0].sizeText + CRLF + chunks[0].data + CRLF + PrintChunks(chunks[1..], lastText)
  }

  function PrintPayload(p: Payload): seq<byte> {
    match p
    case Bare => []
    case Sized(data) => data
    case Chunks(chunks, lastText) => PrintChunks(chunks, lastText)
  }

  function Print(r: Response): seq<byte> {
    PrintHead(r) + PrintPayload(r.payload)
  }

  function Joined(chunks: seq<Chunk>): seq<byte> {
    if chunks == [] then [] else chunks[0].data + Joined(chunks[1..])
  }

  function BodyOf(p: Payload): seq<byte> {
    match p
    case Bare => []
    case Sized(data) => data
    case Chunks(chunks, _) => Joined(chunks)
  }

  // ---------------------------------------------------------------- well-formed responses

  predicate SizeText(t: seq<byte>, n: nat) {
    1 <= |t| <= 16 && AllHexDigits(t) && Value(t, 16) == n
  }

  /** The fields' own meaning, before any of them is printed. */
  function Meaning(fs: seq<Field>, st: Fields): Result<Fields, Error> {
    if fs == [] then Ok(st)
    else match AddField(fs[0].name, fs[0].value, st)
      case Err(e) => Err(e)
      case Ok(st') => Meaning(fs[1..], st')
  }

  predicate HeadOk(r: Response, limits: Limits) {
    && r.status < 1000
    && (r.reason.Some? ==> AllText(r.reason.value))
    && (forall i :: 0 <= i < |r.fields| ==> FieldOk(r.fields[i]))
    && |r.fields| <= limits.maxHeaderCount
    && |PrintHead(r)| <= limits.maxHeadBytes
  }

  predicate PayloadOk(r: Response, f: Fields) {
    match r.payload
    case Bare => (r.status == 204 || r.status == 304) && (f.contentLength.None? || !f.chunked)
    case Sized(data) => r.status != 204 && r.status != 304 && !f.chunked && f.contentLength == Some(|data|)
    case Chunks(chunks, lastText) =>
      && r.status != 204 && r.status != 304 && f.chunked && f.contentLength.None?
      && SizeText(lastText, 0)
      && ChunksOk(chunks)
      && |Joined(chunks)| + 2 < U64_LIMIT
  }

  predicate ChunksOk(chunks: seq<Chunk>) {
    chunks != [] ==>
      chunks[0].data != [] && SizeText(chunks[0].sizeText, |chunks[0].data|) && ChunksOk(chunks[1..])
  }

  predicate WellFormed(r: Response, limits: Limits) {
    && HeadOk(r, limits)
    && !(100 <= r.status < 200)
    && Meaning(r.fields, NO_FIELDS).Ok?
    && PayloadOk(r, Meaning(r.fields, NO_FIELDS).value)
    && |BodyOf(r.payload)| <= BodyLimit(r.status, limits)
  }

  /** A body that is only discarded is read no further than 8 KiB. */
  function BodyLimit(status: nat, limits: Limits): nat {
    if 200 <= status <= 299 || limits.maxBodyBytes <= 8192 then limits.maxBodyBytes else 8192
  }

  /** The field is a `Connection` header, however spelled, that lists `close`, however spelled. */
  ghost predicate ClosesBy(f: Field) {
    Spells(f.name, "connection") && Lists(f.value, "close")
  }

  ghost predicate Closes(r: Response) {
    exists i :: 0 <= i < |r.fields| && ClosesBy(r.fields[i])
  }

  function Expected(r: Response): Attempt {
    if 200 <= r.status <= 299 then Success(BodyOf(r.payload)) else Failed(HttpStatus(r.status))
  }

  // ---------------------------------------------------------------- heads

  lemma ThreeDigitsRead(n: nat)
    requires n < 1000
    ensures AllDigits(ThreeDigits(n))
    ensures var d := ThreeDigits(n);
            (d[0] as int - 48) * 100 + (d[1] as int - 48) * 10 + (d[2] as int - 48) == n
  {
  }

  lemma StatusLineParts(r: Response)
    ensures var line := PrintStatusLine(r);
            && |line| >= 12
            && line[..8] == (if r.http10 then HTTP10 else HTTP11)
            && line[8] == SP
            && line[9..12] == ThreeDigits(r.status)
            && (r.reason.None? ==> |line| == 12)
            && (r.reason.Some? ==> |line| == 13 + |r.reason.value| && line[12] == SP && line[13..] == r.reason.value)
  {
    var version, digits := if r.http10 then HTTP10 else HTTP11, ThreeDigits(r.status);
    var stem := version + [SP] + digits;
    assert |version| == 8 && |digits| == 3 && |stem| == 12;
    hide ThreeDigits;
    if r.reason.Some? {
      assert PrintStatusLine(r) == stem + [SP] + r.reason.value;
    } else {
      assert PrintStatusLine(r) == stem;
    }
  }

  lemma StatusLineReadsBack(r: Response)
    requires r.status < 1000
    requires r.reason.Some? ==> AllText(r.reason.value)
    ensures ParseStatusLine(PrintStatusLine(r)) == Ok(r.status)
    ensures AllText(PrintStatusLine(r))
    ensures PrintStatusLine(r) != []
  {
    hide PrintStatusLine, ThreeDigits;
    var line := PrintStatusLine(r);
    StatusLineParts(r);
    ThreeDigitsRead(r.status);
    var d := ThreeDigits(r.status);
    assert StatusCode(line[9..12]) == r.status;
    assert line[9] == d[0] && line[10] == d[1] && line[11] == d[2];
    forall i | 0 <= i < |line|
      ensures IsText(line[i])
    {
      if i < 8 {
        assert line[i] == line[..8][i];
      } else if 9 <= i < 12 {
        assert line[i] == d[i - 9] && IsDigit(d[i - 9]);
      } else if i >= 13 {
        assert line[i] == r.reason.value[i - 13];
      }
    }
  }

  lemma {:induction false} IndexOfFound(s: seq<byte>, b: byte, from: nat, at: nat, limit: nat)
    requires from <= at < limit <= |s|
    requires s[at] == b && forall k :: from <= k < at ==> s[k] != b
    ensures IndexOf(s, b, from, limit) == at
    decreases at - from
  {
    if from < at {
      IndexOfFound(s, b, from + 1, at, limit);
    }
  }

  lemma FieldReadsBack(f: Field)
    requires FieldOk(f)
    ensures ParseHeaderLine(PrintField(f)) == Ok((f.name, f.value))
    ensures forall i :: 0 <= i < |PrintField(f)| ==> IsText(PrintField(f)[i])
    ensures PrintField(f) != []
  {
    var line := PrintField(f);
    var k := |f.name|;
    assert IsTchar(f.name[0]) && line[0] == f.name[0];
    forall i | 0 <= i < k
      ensures line[i] != COLON
    {
      assert line[i] == f.name[i] && IsTchar(f.name[i]);
    }
    IndexOfFound(line, COLON, 0, k, |line|);
    assert line[..k] == f.name;
    assert line[k + 1..] == f.lead + f.value + f.trail;
    TrimUndoesPadding(f.lead, f.value, f.trail);
  }

  lemma SplitHeadLine(s: seq<byte>, start: nat, line: seq<byte>, limit: nat, count: nat, maxCount: nat)
    requires start + |line| + 2 <= limit <= |s|
    requires s[start..start + |line|] == line && AllText(line)
    requires s[start + |line|] == CR && s[start + |line| + 1] == LF
    ensures line == [] ==> SplitHead(s, start, limit, count, maxCount) == Ended([], start + 2)
    ensures line != [] && count <= maxCount ==>
              SplitHead(s, start, limit, count, maxCount)
              == Prepend([line], SplitHead(s, start + |line| + 2, limit, count + 1, maxCount))
  {
    var nl := start + |line| + 1;
    forall k | start <= k < nl
      ensures s[k] != LF
    {
      assert k < nl - 1 ==> s[k] == line[k - start] && IsText(line[k - start]);
    }
    IndexOfFound(s, LF, start, nl, limit);
    assert CR !in line by {
      assert forall i :: 0 <= i < |line| ==> IsText(line[i]);
    }
  }

  lemma LineAlgebra(before: seq<byte>, line: seq<byte>, rest: seq<byte>, tail: seq<byte>)
    ensures before + (line + CRLF + rest) + tail == before + line + CRLF + rest + tail
    ensures (before + line + CRLF + rest + tail)[|before|..|before| + |line|] == line
    ensures (before + line + CRLF + rest + tail)[|before| + |line|] == CR
    ensures (before + line + CRLF + rest + tail)[|before| + |line| + 1] == LF
  {
  }

  predicate TextLines(lines: seq<seq<byte>>) {
    lines != [] ==> lines[0] != [] && AllText(lines[0]) && TextLines(lines[1..])
  }

  lemma EmptyLineReadsBack(before: seq<byte>, tail: seq<byte>, limit: nat, count: nat, maxCount: nat)
    requires |before| + 2 <= limit <= |before| + 2 + |tail|
    ensures SplitHead(before + CRLF + tail, |before|, limit, count, maxCount) == Ended([], |before| + 2)
  {
    var s := before + CRLF + tail;
    assert s[|before|] == CR && s[|before| + 1] == LF;
    assert s[|before|..|before| + 0] == [];
    SplitHeadLine(s, |before|, [], limit, count, maxCount);
  }

  /** Lines without CR or LF are found again, whatever follows the empty line. */
  lemma {:induction false} LinesReadBack(before: seq<byte>, lines: seq<seq<byte>>, tail: seq<byte>, limit: nat,
                                         count: nat, maxCount: nat)
    requires TextLines(lines)
    requires count + |lines| <= maxCount + 1
    requires |before| + |PrintLines(lines)| <= limit <= |before| + |PrintLines(lines)| + |tail|
    ensures SplitHead(before + PrintLines(lines) + tail, |before|, limit, count, maxCount)
            == Ended(lines, |before| + |PrintLines(lines)|)
    decreases |lines|
  {
    if lines == [] {
      EmptyLineReadsBack(before, tail, limit, count, maxCount);
    } else {
      var line, more := lines[0], lines[1..];
      LinesReadBack(before + line + CRLF, more, tail, limit, count + 1, maxCount);
      NextLine(before, line, more, tail, limit, count, maxCount);
      assert [line] + more == lines;
    }
  }

  lemma NextLine(before: seq<byte>, line: seq<byte>, more: seq<seq<byte>>, tail: seq<byte>, limit: nat,
                 count: nat, maxCount: nat)
    requires line != [] && AllText(line) && count <= maxCount
    requires |before| + |line| + 2 + |PrintLines(more)| <= limit <= |before| + |line| + 2 + |PrintLines(more)| + |tail|
    requires SplitHead(before + line + CRLF + PrintLines(more) + tail, |before + line + CRLF|, limit, count + 1,
                       maxCount)
             == Ended(more, |before + line + CRLF| + |PrintLines(more)|)
    ensures SplitHead(before + (line + CRLF + PrintLines(more)) + tail, |before|, limit, count, maxCount)
            == Ended([line] + more, |before| + |line + CRLF + PrintLines(more)|)
  {
    hide SplitHead, AllText, PrintLines;
    var s := before + line + CRLF + PrintLines(more) + tail;
    LineAlgebra(before, line, PrintLines(more), tail);
    SplitHeadLine(s, |before|, line, limit, count, maxCount);
    assert |before + line + CRLF| == |before| + |line| + 2;
  }

  lemma {:induction false} FieldsReadBack(fs: seq<Field>, st: Fields)
    requires forall i :: 0 <= i < |fs| ==> FieldOk(fs[i])
    ensures FoldLines(PrintFields(fs), st) == Meaning(fs, st)
    ensures |PrintFields(fs)| == |fs|
    ensures TextLines(PrintFields(fs))
  {
    if fs != [] {
      FieldReadsBack(fs[0]);
      var lines := PrintFields(fs);
      assert lines[1..] == PrintFields(fs[1..]);
      FieldsReadBack(fs[1..], st);
      match AddField(fs[0].name, fs[0].value, st)
      case Err(_) =>
      case Ok(st') => FieldsReadBack(fs[1..], st');
    }
  }

  /** Any printed head is read back as what its fields mean, and ends where it ended. */
  lemma HeadReadsBack(r: Response, limits: Limits, tail: seq<byte>)
    requires HeadOk(r, limits)
    ensures Meaning(r.fields, NO_FIELDS).Ok? ==>
              ParseHead(PrintHead(r) + tail, limits)
              == Decide(r.status, Meaning(r.fields, NO_FIELDS).value, limits, |PrintHead(r)|)
    ensures Meaning(r.fields, NO_FIELDS).Err? ==>
              ParseHead(PrintHead(r) + tail, limits) == Bad(Meaning(r.fields, NO_FIELDS).error)
  {
    HeadLinesFound(r, limits, tail);
    LinesInterpreted(r, limits, |PrintHead(r)|);
  }

  function LinesOf(r: Response): seq<seq<byte>> {
    [PrintStatusLine(r)] + PrintFields(r.fields)
  }

  lemma HeadLinesFound(r: Response, limits: Limits, tail: seq<byte>)
    requires HeadOk(r, limits)
    ensures ParseHead(PrintHead(r) + tail, limits) == Interpret(LinesOf(r), |PrintHead(r)|, limits)
  {
    hide SplitHead, PrintLines, PrintFields, PrintStatusLine, Interpret;
    StatusLineReadsBack(r);
    FieldsReadBack(r.fields, NO_FIELDS);
    var lines := LinesOf(r);
    var s := PrintHead(r) + tail;
    assert lines[1..] == PrintFields(r.fields);
    assert [] + PrintLines(lines) + tail == s;
    LinesReadBack([], lines, tail, Min(|s|, limits.maxHeadBytes), 0, limits.maxHeaderCount);
  }

  lemma LinesInterpreted(r: Response, limits: Limits, headLen: nat)
    requires HeadOk(r, limits)
    ensures Interpret(LinesOf(r), headLen, limits) ==
              match Meaning(r.fields, NO_FIELDS)
              case Err(e) => Bad(e)
              case Ok(f) => Decide(r.status, f, limits, headLen)
  {
    hide Decide, Meaning, FoldLines, PrintLines, PrintFields, PrintStatusLine, ParseStatusLine;
    StatusLineReadsBack(r);
    FieldsReadBack(r.fields, NO_FIELDS);
    assert LinesOf(r)[1..] == PrintFields(r.fields);
  }

  // ---------------------------------------------------------------- bodies

  lemma SizeLineReadsBack(t: seq<byte>, n: nat, tail: seq<byte>)
    requires SizeText(t, n)
    ensures ParseChunkSizeLine(t + CRLF + tail) == Done((n, |t| + 2))
  {
    var s := t + CRLF + tail;
    var nl := |t| + 1;
    forall k | 0 <= k < nl
      ensures s[k] != LF
    {
      assert k < |t| ==> s[k] == t[k] && IsHexDigit(t[k]);
    }
    IndexOfFound(s, LF, 0, nl, Min(|s|, MAX_CHUNK_HEADER_LINE));
    assert s[..nl - 1] == t;
    assert CR !in t && SEMICOLON !in t by {
      assert forall i :: 0 <= i < |t| ==> IsHexDigit(t[i]);
    }
  }

  lemma ChunkAlgebra(c: Chunk, more: seq<byte>, tail: seq<byte>)
    ensures c.sizeText + CRLF + c.data + CRLF + more + tail == c.sizeText + CRLF + (c.data + CRLF + (more + tail))
  {
  }

  lemma {:induction false} ChunksReadBack(chunks: seq<Chunk>, lastText: seq<byte>, sofar: seq<byte>, cap: nat,
                                          tail: seq<byte>)
    requires SizeText(lastText, 0)
    requires ChunksOk(chunks)
    requires |sofar| + |Joined(chunks)| <= cap && |sofar| + |Joined(chunks)| + 2 < U64_LIMIT
    ensures Dechunk(PrintChunks(chunks, lastText) + tail, sofar, cap) == Whole(sofar + Joined(chunks), tail)
    decreases |chunks|
  {
    hide Dechunk, ParseChunkSizeLine, SizeText;
    var s := PrintChunks(chunks, lastText) + tail;
    DechunkOne(s, sofar, cap);
    if chunks == [] {
      var t := CRLF + tail;
      Assoc(lastText + CRLF, CRLF, tail);
      SizeLineReadsBack(lastText, 0, t);
      Cut3(lastText, CRLF, t);
      Cut2(CRLF, tail);
      assert sofar + [] == sofar;
    } else {
      var c := chunks[0];
      var more := PrintChunks(chunks[1..], lastText) + tail;
      var t := c.data + CRLF + more;
      ChunkAlgebra(c, PrintChunks(chunks[1..], lastText), tail);
      SizeLineReadsBack(c.sizeText, |c.data|, t);
      Cut3(c.sizeText, CRLF, t);
      Cut3(c.data, CRLF, more);
      assert TakeChunk(t, |c.data|) == Whole(c.data, more);
      ChunksReadBack(chunks[1..], lastText, sofar + c.data, cap, tail);
      assert sofar + c.data + Joined(chunks[1..]) == sofar + Joined(chunks);
    }
  }

  /** One exchange on a stream that starts with a well-formed response. */
  lemma ExchangeRecovers(r: Response, limits: Limits, tail: seq<byte>, sawBytes: bool)
    requires WellFormed(r, limits)
    ensures Exchange(Print(r) + tail, limits, sawBytes) == Outcome(Expected(r), !Closes(r), tail)
  {
    hide PrintHead, PrintPayload, ParseHead, Decide, TakeBody, Meaning, Closes;
    var after := PrintPayload(r.payload) + tail;
    Assoc(PrintHead(r), PrintPayload(r.payload), tail);
    HeadReadsBack(r, limits, after);
    Cut2(PrintHead(r), after);
    PayloadReadsBack(r, limits, tail);
  }

  /** The fold over the fields finds the connection to be closed exactly when one of them says so. */
  lemma {:induction false} ClosesIff(fs: seq<Field>, st: Fields)
    requires Meaning(fs, st).Ok?
    ensures Meaning(fs, st).value.connectionClose <==>
              st.connectionClose || exists i :: 0 <= i < |fs| && ClosesBy(fs[i])
  {
    hide ClosesBy;
    if fs != [] {
      var f, rest := fs[0], fs[1..];
      FieldCloses(f, st);
      ClosesIff(rest, AddField(f.name, f.value, st).value);
      assert forall i :: 0 <= i < |rest| ==> rest[i] == fs[i + 1];
      if i :| 0 <= i < |fs| && ClosesBy(fs[i]) {
        assert i > 0 ==> ClosesBy(rest[i - 1]);
      }
    }
  }

  lemma FieldCloses(f: Field, st: Fields)
    requires AddField(f.name, f.value, st).Ok?
    ensures AddField(f.name, f.value, st).value.connectionClose <==> st.connectionClose || ClosesBy(f)
  {
    NamesAreDistinct(f);
    NamesCloseIff(f.value);
    SpellsIff(f.name, "connection");
    ConnectionName();
    hide SameIgnoringCase, NamesClose, Lists, Spells, ParseContentLength, TrimOws, Ascii;
  }

  lemma ConnectionName()
    ensures IsWord("connection") && CONNECTION == Ascii("connection")
  {
  }

  lemma PayloadReadsBack(r: Response, limits: Limits, tail: seq<byte>)
    requires WellFormed(r, limits)
    ensures var head := Decide(r.status, Meaning(r.fields, NO_FIELDS).value, limits, |PrintHead(r)|);
            && head.Done?
            && head.value.connectionClose == Closes(r)
            && TakeBody(PrintPayload(r.payload) + tail, head.value.framing, CapFor(r.status, limits))
               == Whole(BodyOf(r.payload), tail)
  {
    var after := PrintPayload(r.payload) + tail;
    ClosesIff(r.fields, NO_FIELDS);
    hide ClosesBy;
    match r.payload {
      case Bare =>
        assert after == tail;
      case Sized(data) =>
        Cut2(data, tail);
      case Chunks(chunks, lastText) =>
        ChunksReadBack(chunks, lastText, [], CapFor(r.status, limits), tail);
        assert [] + Joined(chunks) == Joined(chunks);
    }
  }

  // ---------------------------------------------------------------- sessions

  /** Successive exchanges, as long as each leaves the connection reusable. */
  function Session(s: seq<byte>, limits: Limits, n: nat): (r: Option<(seq<Attempt>, seq<byte>)>)
    decreases n
  {
    if n == 0 then Some(([], s))
    else
      var first := Exchange(s, limits, true);
      if !first.reusable then None
      else
        var more := Session(first.rest, limits, n - 1);
        if more.None? then None else Some(([first.attempt] + more.value.0, more.value.1))
  }

  function PrintAll(rs: seq<Response>): seq<byte> {
    if rs == [] then [] else Print(rs[0]) + PrintAll(rs[1..])
  }

  function ExpectedAll(rs: seq<Response>): (r: seq<Attempt>)
    ensures |r| == |rs|
    ensures forall i :: 0 <= i < |rs| ==> r[i] == Expected(rs[i])
  {
    seq(|rs|, i requires 0 <= i < |rs| => Expected(rs[i]))
  }

  ghost predicate AllKeepAlive(rs: seq<Response>, limits: Limits) {
    rs != [] ==> WellFormed(rs[0], limits) && !Closes(rs[0]) && AllKeepAlive(rs[1..], limits)
  }

  lemma SessionStep(s: seq<byte>, limits: Limits, n: nat, first: Attempt, t: seq<byte>)
    requires Exchange(s, limits, true) == Outcome(first, true, t)
    requires Session(t, limits, n).Some?
    ensures Session(s, limits, n + 1)
            == Some(([first] + Session(t, limits, n).value.0, Session(t, limits, n).value.1))
  {
  }

  /** Back-to-back responses come back one by one, and nothing of what follows is touched. */
  lemma {:induction false} SessionRecovers(rs: seq<Response>, limits: Limits, tail: seq<byte>)
    requires AllKeepAlive(rs, limits)
    ensures Session(PrintAll(rs) + tail, limits, |rs|) == Some((ExpectedAll(rs), tail))
  {
    if rs == [] {
      assert [] + tail == tail;
    } else {
      var first, more := rs[0], rs[1..];
      var t := PrintAll(more) + tail;
      SessionRecovers(more, limits, tail);
      ExchangeRecovers(first, limits, t, true);
      SessionStep(Print(first) + t, limits, |more|, Expected(first), t);
      Assoc(Print(first), PrintAll(more), tail);
      ExpectedCons(rs);
    }
  }

  lemma ExpectedCons(rs: seq<Response>)
    requires rs != []
    ensures [Expected(rs[0])] + ExpectedAll(rs[1..]) == ExpectedAll(rs)
  {
  }

  /** A reusable outcome does not depend on what had been buffered before the call. */
  lemma ReusableIgnoresBuffering(s: seq<byte>, limits: Limits, a: bool, b: bool)
    requires Exchange(s, limits, a).reusable
    ensures Exchange(s, limits, b) == Exchange(s, limits, a)
  {
  }

  /** The session `(s, n)` has given `done` so far and goes on as `(t, m)`. */
  predicate Reached(s: seq<byte>, limits: Limits, n: nat, done: seq<Attempt>, t: seq<byte>, m: nat) {
    var all, more := Session(s, limits, n), Session(t, limits, m);
    all.Some? && more.Some? && all.value == (done + more.value.0, more.value.1)
  }

  lemma ReachedNext(s: seq<byte>, limits: Limits, n: nat, done: seq<Attempt>, t: seq<byte>, m: nat, saw: bool)
    requires Reached(s, limits, n, done, t, m + 1)
    ensures var next := Exchange(t, limits, saw);
            next.reusable && Reached(s, limits, n, done + [next.attempt], next.rest, m)
  {
    var next := Exchange(t, limits, true);
    ReusableIgnoresBuffering(t, limits, true, saw);
    hide Exchange;
    var more := Session(next.rest, limits, m);
    assert Session(t, limits, m + 1) == Some(([next.attempt] + more.value.0, more.value.1));
    Assoc(done, [next.attempt], more.value.0);
  }

  /**
   * `n` calls of `RoundTrip` on one connection. The read sizes, and so what is buffered
   * between calls, are the network's; the answers and the final stream are not.
   */
  method RunSession(c: Connection, limits: Limits, n: nat) returns (attempts: seq<Attempt>)
    requires Session(c.Stream(), limits, n).Some?
    modifies c
    ensures c.faults >= old(c.faults)
    ensures c.faults == old(c.faults) ==>
              Session(old(c.Stream()), limits, n) == Some((attempts, c.Stream()))
  {
    hide Session, Exchange;
    attempts := [];
    ghost var s := c.Stream();
    assert Reached(s, limits, n, [], s, n) by {
      assert [] + Session(s, limits, n).value.0 == Session(s, limits, n).value.0;
    }
    for i := 0 to n
      invariant c.faults >= old(c.faults)
      invariant c.faults == old(c.faults) ==> Reached(s, limits, n, attempts, c.Stream(), n - i)
    {
      if c.faults == old(c.faults) {
        ReachedNext(s, limits, n, attempts, c.Stream(), n - i - 1, c.unread != []);
      }
      var a := c.RoundTrip(limits);
      attempts := attempts + [a];
    }
    SessionOfNone(c.Stream(), limits);
    assert attempts + [] == attempts;
  }

  lemma SessionOfNone(s: seq<byte>, limits: Limits)
    ensures Session(s, limits, 0) == Some(([], s))
  {
  }

  // ---------------------------------------------------------------- which heads are accepted

  predicate Names(f: Field, name: seq<byte>) {
    SameIgnoringCase(f.name, name)
  }

  /** At most one field of the list has this name. */
  predicate AtMostOne(fs: seq<Field>, name: seq<byte>) {
    forall i, j :: 0 <= i < j < |fs| ==> !(Names(fs[i], name) && Names(fs[j], name))
  }

  predicate FieldAcceptable(f: Field) {
    && (Names(f, CONTENT_LENGTH) ==> ParseContentLength(f.value).Ok?)
    && (Names(f, TRANSFER_ENCODING) ==> SameIgnoringCase(TrimOws(f.value), CHUNKED))
    && (Names(f, CONTENT_ENCODING) ==> SameIgnoringCase(TrimOws(f.value), IDENTITY))
  }

  predicate Acceptable(fs: seq<Field>) {
    && AtMostOne(fs, CONTENT_LENGTH)
    && AtMostOne(fs, TRANSFER_ENCODING)
    && forall i :: 0 <= i < |fs| ==> FieldAcceptable(fs[i])
  }

  predicate Mentions(fs: seq<Field>, name: seq<byte>) {
    exists i :: 0 <= i < |fs| && Names(fs[i], name)
  }

  lemma NamesAreDistinct(f: Field)
    ensures !(Names(f, CONTENT_LENGTH) && Names(f, TRANSFER_ENCODING))
    ensures !(Names(f, CONTENT_LENGTH) && Names(f, CONNECTION))
    ensures !(Names(f, CONTENT_LENGTH) && Names(f, CONTENT_ENCODING))
    ensures !(Names(f, TRANSFER_ENCODING) && Names(f, CONNECTION))
    ensures !(Names(f, TRANSFER_ENCODING) && Names(f, CONTENT_ENCODING))
    ensures !(Names(f, CONNECTION) && Names(f, CONTENT_ENCODING))
  {
    assert |CONTENT_LENGTH| == 14 && |TRANSFER_ENCODING| == 17 && |CONNECTION| == 10 && |CONTENT_ENCODING| == 16;
  }

  predicate AcceptableFrom(fs: seq<Field>, st: Fields) {
    && Acceptable(fs)
    && (st.contentLength.Some? ==> !Mentions(fs, CONTENT_LENGTH))
    && (st.chunked ==> !Mentions(fs, TRANSFER_ENCODING))
  }

  /** What one field does to the fold, in the vocabulary of `Acceptable`. */
  lemma FieldAccepted(f: Field, st: Fields)
    ensures AddField(f.name, f.value, st).Ok? <==>
              && FieldAcceptable(f)
              && !(st.contentLength.Some? && Names(f, CONTENT_LENGTH))
              && !(st.chunked && Names(f, TRANSFER_ENCODING))
    ensures AddField(f.name, f.value, st).Ok? ==>
              var st' := AddField(f.name, f.value, st).value;
              && (st'.contentLength.Some? <==> st.contentLength.Some? || Names(f, CONTENT_LENGTH))
              && (st'.chunked <==> st.chunked || Names(f, TRANSFER_ENCODING))
  {
    NamesAreDistinct(f);
    hide SameIgnoringCase, ParseContentLength, NamesClose, TrimOws;
  }

  lemma AcceptableSplits(fs: seq<Field>, st: Fields)
    requires fs != []
    ensures AcceptableFrom(fs, st) <==>
              && FieldAcceptable(fs[0])
              && !(st.contentLength.Some? && Names(fs[0], CONTENT_LENGTH))
              && !(st.chunked && Names(fs[0], TRANSFER_ENCODING))
              && AcceptableFrom(fs[1..], st)
              && !(Names(fs[0], CONTENT_LENGTH) && Mentions(fs[1..], CONTENT_LENGTH))
              && !(Names(fs[0], TRANSFER_ENCODING) && Mentions(fs[1..], TRANSFER_ENCODING))
  {
    SplitFirst(fs, CONTENT_LENGTH);
    SplitFirst(fs, TRANSFER_ENCODING);
    hide FieldAcceptable, Names, Mentions, AtMostOne;
    var rest := fs[1..];
    assert forall i :: 0 <= i < |rest| ==> rest[i] == fs[i + 1];
    assert forall i :: 0 < i < |fs| ==> fs[i] == rest[i - 1];
  }

  lemma {:induction false} AcceptedFrom(fs: seq<Field>, st: Fields)
    ensures Meaning(fs, st).Ok? <==> AcceptableFrom(fs, st)
    ensures Meaning(fs, st).Ok? ==>
              && (Meaning(fs, st).value.chunked <==> st.chunked || Mentions(fs, TRANSFER_ENCODING))
              && (Meaning(fs, st).value.contentLength.Some? <==>
                    st.contentLength.Some? || Mentions(fs, CONTENT_LENGTH))
  {
    if fs != [] {
      hide AddField, FieldAcceptable, Names, AtMostOne, Mentions, Acceptable;
      var f, rest := fs[0], fs[1..];
      SplitFirst(fs, CONTENT_LENGTH);
      SplitFirst(fs, TRANSFER_ENCODING);
      AcceptableSplits(fs, st);
      FieldAccepted(f, st);
      match AddField(f.name, f.value, st)
      case Err(_) =>
      case Ok(st') => AcceptedFrom(rest, st');
    }
  }

  lemma SplitFirst(fs: seq<Field>, name: seq<byte>)
    requires fs != []
    ensures Mentions(fs, name) <==> Names(fs[0], name) || Mentions(fs[1..], name)
    ensures AtMostOne(fs, name) <==> AtMostOne(fs[1..], name) && !(Names(fs[0], name) && Mentions(fs[1..], name))
  {
    var rest := fs[1..];
    if Mentions(rest, name) {
      var i :| 0 <= i < |rest| && Names(rest[i], name);
      assert Names(fs[i + 1], name);
    }
    if AtMostOne(fs, name) {
      forall i, j | 0 <= i < j < |rest|
        ensures !(Names(rest[i], name) && Names(rest[j], name))
      {
        assert rest[i] == fs[i + 1] && rest[j] == fs[j + 1];
      }
    }
    if AtMostOne(rest, name) && !(Names(fs[0], name) && Mentions(rest, name)) {
      forall i, j | 0 <= i < j < |fs|
        ensures !(Names(fs[i], name) && Names(fs[j], name))
      {
        assert fs[j] == rest[j - 1];
        assert i > 0 ==> fs[i] == rest[i - 1];
      }
    }
  }

  // ---------------------------------------------------------------- a response to start from

  /** The plain response a server sends for `body`. */
  function Plain(status: nat, body: seq<byte>): Response {
    Response(false, status, None, [Field(CONTENT_LENGTH, [SP], Numeral(|body|, 10), [])], Sized(body))
  }

  lemma ContentLengthName()
    ensures |CONTENT_LENGTH| == 14 && AllTchar(CONTENT_LENGTH)
  {
    var s := "content-length";
    forall i | 0 <= i < 14
      ensures IsTchar(CONTENT_LENGTH[i])
    {
      assert CONTENT_LENGTH[i] == s[i] as int % 256;
      assert s[i] in {'c', 'o', 'n', 't', 'e', '-', 'l', 'g', 'h'};
    }
  }

  lemma NumeralIsText(n: nat)
    ensures AllText(Numeral(n, 10)) && Trimmed(Numeral(n, 10)) && AllDigits(Numeral(n, 10))
  {
    var t := Numeral(n, 10);
    assert forall i :: 0 <= i < |t| ==> IsDigit(t[i]);
  }

  /** Every body within the limit can be sent this way and is well formed. */
  lemma PlainIsWellFormed(status: nat, body: seq<byte>, limits: Limits)
    requires 200 <= status < 1000 && status != 204 && status != 304
    requires |body| <= BodyLimit(status, limits) && |body| < U64_LIMIT
    requires limits.maxHeaderCount >= 1 && limits.maxHeadBytes >= 64
    ensures WellFormed(Plain(status, body), limits)
    ensures !Closes(Plain(status, body))
  {
    var r := Plain(status, body);
    var digits := Numeral(|body|, 10);
    NumeralValue(|body|, 10);
    assert Pow(10, 20) == 100_000_000_000_000_000_000 by { TenToTheTwentieth(); }
    NumeralLength(|body|, 10, 20);
    NumeralIsText(|body|);
    ContentLengthName();
    var f := r.fields[0];
    assert FieldOk(f);
    var line := PrintField(f);
    assert |line| <= 36;
    assert PrintFields(r.fields) == [line] by {
      assert r.fields[1..] == [];
    }
    var lines := [PrintStatusLine(r), line];
    assert [PrintStatusLine(r)] + PrintFields(r.fields) == lines;
    assert lines[1..] == [line];
    var none: seq<seq<byte>> := [];
    assert [line][1..] == none;
    assert PrintLines([line]) == line + CRLF + CRLF by {
      assert PrintLines(none) == CRLF;
    }
    assert PrintLines(lines) == lines[0] + CRLF + (line + CRLF + CRLF);
    assert |PrintStatusLine(r)| == 12;
    assert Meaning(r.fields, NO_FIELDS) == Ok(Fields(Some(|body|), false, false)) by {
      assert AddField(f.name, f.value, NO_FIELDS) == Ok(Fields(Some(|body|), false, false));
      assert r.fields[1..] == [];
    }
  }

  lemma TenToTheTwentieth()
    ensures Pow(10, 20) == 100_000_000_000_000_000_000
  {
    assert Pow(10, 5) == 100_000;
    assert Pow(10, 10) == 10_000_000_000;
    assert Pow(10, 15) == 1_000_000_000_000_000;
  }

  // ---------------------------------------------------------------- early ends

  /** The stream ends before the response does. */
  predicate EndsEarly(s: seq<byte>, limits: Limits) {
    match ParseHead(s, limits)
    case NeedMore => true
    case Bad(_) => false
    case Done(head) => TakeBody(s[head.headLen..], head.framing, CapFor(head.status, limits)).Cut?
  }

  /**
   * `ClosedEmpty` is reported exactly when the response is cut short and no byte had to
   * be read from the socket in this call.
   */
  lemma ClosedEmptyIff(buffered: seq<byte>, unread: seq<byte>, limits: Limits)
    requires limits.maxHeadBytes > 0
    ensures Exchange(buffered + unread, limits, unread != []).attempt == ClosedEmpty <==>
              unread == [] && EndsEarly(buffered, limits)
    ensures buffered == [] ==>
              (Exchange(buffered + unread, limits, unread != []).attempt == ClosedEmpty <==> unread == [])
  {
    assert unread == [] ==> buffered + unread == buffered;
  }

  /**
   * So the report does not mean that no byte of the response arrived: one that was
   * buffered by the previous call is overlooked.
   */
  lemma BufferedByteOverlooked()
    ensures Exchange([72] + [], Limits(64, 1, 64), false).attempt == ClosedEmpty
  {
    assert [72] + [] == [72 as byte];
    assert ParseHead([72], Limits(64, 1, 64)).NeedMore? by {
      assert IndexOf([72], LF, 0, 1) == 1;
    }
  }
}
