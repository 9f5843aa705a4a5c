/**
 * When the 64-bit sums over chunk sizes do not fit (connection.rs, `read_chunked_body`):
 * exactly which streams bring that about, and one that does.
 */
module HttpOverflow {
  import opened Wrappers
  import opened Bytes
  import opened HttpResponse
  import opened HttpConnection
  import opened HttpRoundTrip
  import opened HttpHeads

  /** The chunks before a size line, each with its own size line and line end. */
  function PrintData(chunks: seq<Chunk>): seq<byte> {
    if chunks == [] then [] else chunks[0].sizeText + CRLF + chunks[0].data + CRLF + PrintData(chunks[1..])
  }

  /** Chunks that are read: each total stays within the cap and within 64 bits. */
  predicate AllRead(chunks: seq<Chunk>, total: nat, cap: nat) {
    chunks != [] ==>
      var c := chunks[0];
      && c.data != [] && SizeText(c.sizeText, |c.data|)
      && total + |c.data| <= cap && total + |c.data| < U64_LIMIT && |c.data| + 2 < U64_LIMIT
      && AllRead(chunks[1..], total + |c.data|, cap)
  }

  /** Adding this size to the total, or the line end to a size that is allowed, does not fit 64 bits. */
  predicate TooWide(size: nat, total: nat, cap: nat) {
    total + size >= U64_LIMIT || (total + size <= cap && size + 2 >= U64_LIMIT)
  }

  /** A stream cut at the size line that does not fit. */
  datatype Overflowing = Overflowing(chunks: seq<Chunk>, sizeText: seq<byte>, rest: seq<byte>)

  ghost predicate OverflowsAt(s: seq<byte>, total: nat, cap: nat, o: Overflowing) {
    && s == PrintData(o.chunks) + (o.sizeText + CRLF + o.rest)
    && AllRead(o.chunks, total, cap)
    && 1 <= |o.sizeText| <= 16 && AllHexDigits(o.sizeText) && Value(o.sizeText, 16) > 0
    && TooWide(Value(o.sizeText, 16), total + |Joined(o.chunks)|, cap)
  }

  // ---------------------------------------------------------------- size lines and chunks, read backwards

  lemma SizeLineIs(s: seq<byte>) returns (text: seq<byte>)
    requires ParseChunkSizeLine(s).Done?
    ensures var (size, n) := ParseChunkSizeLine(s).value;
            SizeText(text, size) && n == |text| + 2 && s == text + CRLF + s[n..]
  {
    var nl := IndexOf(s, LF, 0, Min(|s|, MAX_CHUNK_HEADER_LINE));
    text := s[..nl - 1];
    assert s == s[..nl - 1] + [s[nl - 1], s[nl]] + s[nl + 1..];
  }

  /** A size line is one to sixteen hexadecimal digits and a line end, whatever follows. */
  lemma SizeLineIff(s: seq<byte>, size: nat, n: nat)
    ensures ParseChunkSizeLine(s) == Done((size, n)) <==>
              exists text: seq<byte> ::
                SizeText(text, size) && n == |text| + 2 <= |s| && s == text + CRLF + s[n..]
  {
    hide ParseChunkSizeLine, SizeText;
    if ParseChunkSizeLine(s) == Done((size, n)) {
      var text := SizeLineIs(s);
    }
    if text: seq<byte> :| SizeText(text, size) && n == |text| + 2 <= |s| && s == text + CRLF + s[n..] {
      SizeLineReadsBack(text, size, s[n..]);
    }
  }

  // ---------------------------------------------------------------- exactly when

  lemma OneMoreChunk(c: Chunk, o: Overflowing, rest: seq<byte>)
    requires rest == PrintData(o.chunks) + (o.sizeText + CRLF + o.rest)
    ensures PrintData([c] + o.chunks) + (o.sizeText + CRLF + o.rest) == c.sizeText + CRLF + (c.data + CRLF + rest)
    ensures Joined([c] + o.chunks) == c.data + Joined(o.chunks)
  {
    assert ([c] + o.chunks)[1..] == o.chunks;
    var tail := o.sizeText + CRLF + o.rest;
    assert c.sizeText + CRLF + c.data + CRLF + PrintData(o.chunks) + tail
           == c.sizeText + CRLF + (c.data + CRLF + (PrintData(o.chunks) + tail));
  }

  lemma OverflowsNow(text: seq<byte>, rest: seq<byte>, total: nat, cap: nat, size: nat)
    requires SizeText(text, size) && size > 0 && TooWide(size, total, cap)
    ensures OverflowsAt(text + CRLF + rest, total, cap, Overflowing([], text, rest))
  {
    assert PrintData([]) + (text + CRLF + rest) == text + CRLF + rest;
  }

  lemma OverflowsLater(c: Chunk, rest: seq<byte>, total: nat, cap: nat, o: Overflowing)
    requires c.data != [] && SizeText(c.sizeText, |c.data|)
    requires total + |c.data| <= cap && total + |c.data| < U64_LIMIT && |c.data| + 2 < U64_LIMIT
    requires OverflowsAt(rest, total + |c.data|, cap, o)
    ensures OverflowsAt(c.sizeText + CRLF + (c.data + CRLF + rest), total, cap, o.(chunks := [c] + o.chunks))
  {
    hide PrintData, SizeText, Joined;
    OneMoreChunk(c, o, rest);
    assert ([c] + o.chunks)[1..] == o.chunks;
  }

  /** A chunk that is read: its octets, its line end, and what follows. */
  lemma ChunkIs(t: seq<byte>, size: nat)
    requires TakeChunk(t, size).Whole?
    ensures var c := TakeChunk(t, size);
            |c.body| == size && t == c.body + CRLF + c.rest
  {
    assert t == t[..size] + t[size..size + 2] + t[size + 2..];
  }

  lemma {:induction false} OverflowFound(s: seq<byte>, sofar: seq<byte>, cap: nat) returns (o: Overflowing)
    requires Dechunk(s, sofar, cap).Overflow?
    ensures OverflowsAt(s, |sofar|, cap, o)
    decreases |s|
  {
    hide Dechunk, ParseChunkSizeLine, SizeText, OverflowsAt, AllRead;
    DechunkOne(s, sofar, cap);
    var (size, n) := ParseChunkSizeLine(s).value;
    var text := SizeLineIs(s);
    var t := s[n..];
    assert Dechunk(s, sofar, cap) == AfterSize(t, size, sofar, cap);
    if TooWide(size, |sofar|, cap) {
      o := Overflowing([], text, t);
      OverflowsNow(text, t, |sofar|, cap, size);
    } else {
      var c := TakeChunk(t, size);
      ChunkIs(t, size);
      var more := OverflowFound(c.rest, sofar + c.body, cap);
      OverflowsLater(Chunk(text, c.body), c.rest, |sofar|, cap, more);
      o := more.(chunks := [Chunk(text, c.body)] + more.chunks);
    }
  }

  lemma NoData()
    ensures PrintData([]) == []
  {
  }

  lemma {:induction false} OverflowMet(s: seq<byte>, sofar: seq<byte>, cap: nat, o: Overflowing)
    requires OverflowsAt(s, |sofar|, cap, o)
    ensures Dechunk(s, sofar, cap).Overflow?
    decreases |o.chunks|
  {
    hide Dechunk, ParseChunkSizeLine, PrintData;
    if o.chunks == [] {
      NoData();
      assert s == o.sizeText + CRLF + o.rest;
      SizeLineReadsBack(o.sizeText, Value(o.sizeText, 16), o.rest);
      DechunkOne(s, sofar, cap);
    } else {
      var c := o.chunks[0];
      var more := o.(chunks := o.chunks[1..]);
      var rest := PrintData(more.chunks) + (o.sizeText + CRLF + o.rest);
      assert o.chunks == [c] + more.chunks;
      OneMoreChunk(c, more, rest);
      var t := c.data + CRLF + rest;
      SizeLineReadsBack(c.sizeText, |c.data|, t);
      Cut3(c.sizeText, CRLF, t);
      DechunkOne(s, sofar, cap);
      Cut3(c.data, CRLF, rest);
      assert TakeChunk(t, |c.data|) == Whole(c.data, rest);
      OverflowMet(rest, sofar + c.data, cap, more);
    }
  }

  /**
   * An exchange overflows exactly when its head is accepted, its body is chunked, and
   * after some chunks that are read a size line takes the running total (or, with its line
   * end, itself) beyond 64 bits.
   */
  lemma OverflowsIff(s: seq<byte>, limits: Limits, sawBytes: bool)
    ensures Exchange(s, limits, sawBytes).attempt == Overflowed <==>
              var p := ParseHead(s, limits);
              && p.Done? && p.value.framing.Chunked?
              && exists o: Overflowing :: OverflowsAt(s[p.value.headLen..], 0, CapFor(p.value.status, limits), o)
  {
    hide ParseHead, Dechunk, OverflowsAt, CapFor;
    var p := ParseHead(s, limits);
    if p.Done? && p.value.framing.Chunked? {
      var t, cap := s[p.value.headLen..], CapFor(p.value.status, limits);
      if Dechunk(t, [], cap).Overflow? {
        var o := OverflowFound(t, [], cap);
      }
      if o: Overflowing :| OverflowsAt(t, 0, cap, o) {
        OverflowMet(t, [], cap, o);
      }
    }
  }

  // ---------------------------------------------------------------- a stream that overflows

  lemma {:induction false} AllFs(n: nat)
    ensures AllHexDigits(seq(n, _ => 70)) && Value(seq(n, _ => 70), 16) == Pow(16, n) - 1
  {
    var ds: seq<byte> := seq(n, _ => 70);
    if n > 0 {
      AllFs(n - 1);
      assert ds[..n - 1] == seq(n - 1, _ => 70);
    }
  }

  /** A 200 response that announces a chunked body. */
  function ChunkedHead(): Response {
    Response(false, 200, None, [Field(TRANSFER_ENCODING, [SP], CHUNKED, [])], Bare)
  }

  lemma ChunkedNames()
    ensures |TRANSFER_ENCODING| == 17 && AllTchar(TRANSFER_ENCODING)
    ensures |CHUNKED| == 7 && AllText(CHUNKED) && Trimmed(CHUNKED)
    ensures !SameIgnoringCase(TRANSFER_ENCODING, CONTENT_LENGTH)
  {
    var s, t := "transfer-encoding", "chunked";
    forall i | 0 <= i < 17
      ensures IsTchar(TRANSFER_ENCODING[i])
    {
      assert TRANSFER_ENCODING[i] == s[i] as int % 256;
      assert s[i] in {'t', 'r', 'a', 'n', 's', 'f', 'e', '-', 'c', 'o', 'd', 'i', 'g'};
    }
    forall i | 0 <= i < 7
      ensures IsText(CHUNKED[i]) && !IsOws(CHUNKED[i])
    {
      assert CHUNKED[i] == t[i] as int % 256;
      assert t[i] in {'c', 'h', 'u', 'n', 'k', 'e', 'd'};
    }
    assert |CONTENT_LENGTH| == 14;
  }

  lemma ChunkedHeadIsRead(limits: Limits, tail: seq<byte>)
    requires limits.maxHeaderCount >= 1 && limits.maxHeadBytes >= 64
    ensures ParseHead(PrintHead(ChunkedHead()) + tail, limits)
            == Done(Head(200, Chunked, false, |PrintHead(ChunkedHead())|))
  {
    var r := ChunkedHead();
    var f := r.fields[0];
    ChunkedNames();
    TrimmedIsItself(CHUNKED);
    assert FieldOk(f);
    var line := PrintField(f);
    assert |line| == 26;
    assert PrintFields(r.fields) == [line] by {
      assert r.fields[1..] == [];
    }
    OneFieldHead(r, line);
    assert Meaning(r.fields, NO_FIELDS) == Ok(Fields(None, true, false)) by {
      assert AddField(f.name, f.value, NO_FIELDS) == Ok(Fields(None, true, false));
      assert r.fields[1..] == [];
    }
    HeadReadsBack(r, limits, tail);
  }

  lemma TrimmedIsItself(v: seq<byte>)
    requires Trimmed(v)
    ensures TrimOws(v) == v
  {
  }

  lemma OneFieldHead(r: Response, line: seq<byte>)
    requires PrintFields(r.fields) == [line]
    ensures |PrintHead(r)| == |PrintStatusLine(r)| + |line| + 6
  {
    hide PrintStatusLine, PrintFields;
    var none: seq<seq<byte>> := [];
    assert [line][1..] == none && PrintLines(none) == CRLF;
    assert ([PrintStatusLine(r)] + [line])[1..] == [line];
    assert PrintLines([line]) == line + CRLF + CRLF;
  }

  /** One chunk of one octet, and then a size of sixteen F digits. */
  function WideSizes(): seq<byte> {
    [49] + CRLF + [120] + CRLF + (seq(16, _ => 70) + CRLF)
  }

  /**
   * A peer can send that: whatever the limits that let the head and one octet through, the
   * total 1 + (2^64 - 1) does not fit, and the attempt ends in the panic.
   */
  lemma WideSizeOverflows(limits: Limits, tail: seq<byte>, sawBytes: bool)
    requires limits.maxHeaderCount >= 1 && limits.maxHeadBytes >= 64 && limits.maxBodyBytes >= 1
    ensures Exchange(PrintHead(ChunkedHead()) + (WideSizes() + tail), limits, sawBytes).attempt == Overflowed
  {
    hide ParseHead, PrintHead;
    var sizes := WideSizes() + tail;
    var s := PrintHead(ChunkedHead()) + sizes;
    ChunkedHeadIsRead(limits, sizes);
    var wide: seq<byte> := seq(16, _ => 70);
    AllFs(16);
    SixteenToTheSixteenth();
    var c := Chunk([49], [120]);
    var o := Overflowing([c], wide, tail);
    assert SizeText([49], 1) by {
      assert [49 as byte][..0] == [];
    }
    assert o.chunks[1..] == [];
    assert PrintData([c]) == [49] + CRLF + [120] + CRLF by {
      NoData();
    }
    assert sizes == PrintData([c]) + (wide + CRLF + tail);
    assert Joined([c]) == [120];
    assert AllRead([c], 0, CapFor(200, limits));
    assert OverflowsAt(sizes, 0, CapFor(200, limits), o);
    assert s[|PrintHead(ChunkedHead())|..] == sizes;
    OverflowsIff(s, limits, sawBytes);
  }
}
