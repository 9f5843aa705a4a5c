/**
 * Which bytes are a head: the parsers of response.rs read backwards, on every byte string.
 */
module HttpHeads {
  import opened Wrappers
  import opened Bytes
  import opened HttpResponse
  import opened HttpOptions
  import opened HttpConnection
  import opened HttpRoundTrip

  // ---------------------------------------------------------------- single lines

  lemma HeaderLineIs(line: seq<byte>) returns (f: Field)
    requires ParseHeaderLine(line).Ok?
    ensures FieldOk(f) && PrintField(f) == line && ParseHeaderLine(line) == Ok((f.name, f.value))
  {
    hide TrimOws;
    var colon := IndexOf(line, COLON, 0, |line|);
    var lead, trail := TrimOwsDrops(line[colon + 1..]);
    f := Field(line[..colon], lead, TrimOws(line[colon + 1..]), trail);
    assert line == line[..colon] + [COLON] + line[colon + 1..];
  }

  /** A line is a field exactly when it is a token, a colon and padded text. */
  lemma HeaderLineIff(line: seq<byte>, name: seq<byte>, value: seq<byte>)
    ensures ParseHeaderLine(line) == Ok((name, value)) <==>
              exists f: Field :: FieldOk(f) && f.name == name && f.value == value && PrintField(f) == line
  {
    hide FieldOk, PrintField, ParseHeaderLine;
    if ParseHeaderLine(line) == Ok((name, value)) {
      var f := HeaderLineIs(line);
    }
    if f: Field :| FieldOk(f) && f.name == name && f.value == value && PrintField(f) == line {
      FieldReadsBack(f);
    }
  }

  lemma ThreeDigitsAre(ds: seq<byte>)
    requires |ds| == 3 && AllDigits(ds)
    ensures ThreeDigits(StatusCode(ds)) == ds
  {
    assert IsDigit(ds[0]) && IsDigit(ds[1]) && IsDigit(ds[2]);
    DigitsOf(ds[0] - 48, ds[1] - 48, ds[2] - 48);
  }

  lemma DigitsOf(a: nat, b: nat, c: nat)
    requires a < 10 && b < 10 && c < 10
    ensures var n := a * 100 + b * 10 + c;
            n / 100 % 10 == a && n / 10 % 10 == b && n % 10 == c
  {
    var n := a * 100 + b * 10 + c;
    assert n == 10 * (10 * a + b) + c;
    assert n / 10 == 10 * a + b;
    assert n / 100 == a;
  }

  /** A status line is what is printed for its version, status and reason. */
  lemma StatusLineIs(line: seq<byte>) returns (r: Response)
    requires ParseStatusLine(line).Ok?
    ensures PrintStatusLine(r) == line && r.status == ParseStatusLine(line).value < 1000
    ensures r.reason.Some? ==> AllText(r.reason.value)
    ensures r.fields == []
  {
    hide ThreeDigits, StatusCode;
    ThreeDigitsAre(line[9..12]);
    var reason := if |line| == 12 then None else Some(line[13..]);
    r := Response(line[..8] == HTTP10, StatusCode(line[9..12]), reason, [], Bare);
    assert line[..12] == line[..8] + [line[8]] + line[9..12];
    assert |line| > 12 ==> line == line[..12] + ([line[12]] + line[13..]);
    assert |line| == 12 ==> line == line[..12] + [];
  }

  // ---------------------------------------------------------------- whole heads

  lemma {:induction false} LinesAre(s: seq<byte>, start: nat, limit: nat, count: nat, maxCount: nat)
    requires start <= limit <= |s| && SplitHead(s, start, limit, count, maxCount).Ended?
    ensures var r := SplitHead(s, start, limit, count, maxCount);
            && s[start..r.headLen] == PrintLines(r.lines)
            && (r.lines != [] ==> count + |r.lines| <= maxCount + 1)
    decreases limit - start
  {
    hide PrintLines;
    var nl := IndexOf(s, LF, start, limit);
    var line := s[start..nl - 1];
    assert s[start..nl + 1] == line + CRLF;
    if line == [] {
      NoMoreLines();
      assert s[start..nl + 1] == CRLF;
    } else {
      LinesAre(s, nl + 1, limit, count + 1, maxCount);
      var rest := SplitHead(s, nl + 1, limit, count + 1, maxCount);
      FirstLine(line, rest.lines);
      assert s[start..rest.headLen] == s[start..nl + 1] + s[nl + 1..rest.headLen];
    }
  }

  lemma NoMoreLines()
    ensures PrintLines([]) == CRLF
  {
  }

  lemma FirstLine(line: seq<byte>, lines: seq<seq<byte>>)
    ensures PrintLines([line] + lines) == line + CRLF + PrintLines(lines)
  {
    assert ([line] + lines)[1..] == lines;
  }

  lemma {:induction false} FieldsAre(lines: seq<seq<byte>>, st: Fields) returns (fs: seq<Field>)
    requires FoldLines(lines, st).Ok?
    ensures PrintFields(fs) == lines && |fs| == |lines| && forall i :: 0 <= i < |fs| ==> FieldOk(fs[i])
  {
    hide FieldOk, PrintField, ParseHeaderLine, AddField;
    if lines == [] {
      fs := [];
    } else {
      var f := HeaderLineIs(lines[0]);
      var more := FieldsAre(lines[1..], AddField(f.name, f.value, st).value);
      fs := [f] + more;
      assert fs[1..] == more && lines == [lines[0]] + lines[1..];
    }
  }

  /** Whatever is taken for a head is the printed form of a well-formed one within the limits. */
  lemma HeadIsPrinted(s: seq<byte>, limits: Limits) returns (r: Response)
    requires ParseHead(s, limits).Done?
    ensures HeadOk(r, limits) && PrintHead(r) == s[..ParseHead(s, limits).value.headLen]
  {
    hide SplitHead, FoldLines, ParseStatusLine, Decide, PrintLines, PrintFields, PrintStatusLine, FieldOk;
    var limit := Min(|s|, limits.maxHeadBytes);
    var split := SplitHead(s, 0, limit, 0, limits.maxHeaderCount);
    LinesAre(s, 0, limit, 0, limits.maxHeaderCount);
    var status := StatusLineIs(split.lines[0]);
    var fs := FieldsAre(split.lines[1..], NO_FIELDS);
    r := status.(fields := fs);
    SameStatusLine(status, fs);
    assert [split.lines[0]] + split.lines[1..] == split.lines;
    assert s[0..split.headLen] == s[..split.headLen];
  }

  lemma SameStatusLine(r: Response, fs: seq<Field>)
    ensures PrintStatusLine(r.(fields := fs)) == PrintStatusLine(r)
  {
  }

  // ---------------------------------------------------------------- which heads are accepted

  /** The announced length, where it is what frames the body, is within the body limit. */
  predicate LengthAllowed(r: Response, limits: Limits) {
    r.status == 204 || r.status == 304 ||
    forall i :: 0 <= i < |r.fields| && Names(r.fields[i], CONTENT_LENGTH) && AllDigits(r.fields[i].value) ==>
      Value(r.fields[i].value, 10) <= limits.maxBodyBytes
  }

  /**
   * The framing can be read in one way only: one decimal Content-Length or one `chunked`
   * Transfer-Encoding and not both (or a status that has no body), identity content
   * coding, no interim status, and no length over the limit.
   */
  predicate Unambiguous(r: Response, limits: Limits) {
    var hasLength, hasChunked := Mentions(r.fields, CONTENT_LENGTH), Mentions(r.fields, TRANSFER_ENCODING);
    && Acceptable(r.fields)
    && !(hasLength && hasChunked)
    && !(100 <= r.status < 200)
    && (hasLength || hasChunked || r.status == 204 || r.status == 304)
    && LengthAllowed(r, limits)
  }

  /** The length that the fields settle is the one of the field that names it. */
  lemma {:induction false} LengthOf(fs: seq<Field>, st: Fields, i: nat)
    requires Meaning(fs, st).Ok? && i < |fs| && Names(fs[i], CONTENT_LENGTH)
    ensures AllDigits(fs[i].value) && Meaning(fs, st).value.contentLength == Some(Value(fs[i].value, 10))
  {
    hide ParseContentLength, SameIgnoringCase, NamesClose, TrimOws;
    var st' := AddField(fs[0].name, fs[0].value, st).value;
    if i > 0 {
      LengthOf(fs[1..], st', i - 1);
    } else {
      LengthKept(fs[1..], st');
    }
  }

  lemma {:induction false} LengthKept(fs: seq<Field>, st: Fields)
    requires Meaning(fs, st).Ok? && st.contentLength.Some?
    ensures Meaning(fs, st).value.contentLength == st.contentLength
  {
    hide ParseContentLength, SameIgnoringCase, NamesClose, TrimOws;
    if fs != [] {
      LengthKept(fs[1..], AddField(fs[0].name, fs[0].value, st).value);
    }
  }

  lemma PrintedHeadAcceptedIff(r: Response, limits: Limits, tail: seq<byte>)
    requires HeadOk(r, limits)
    ensures ParseHead(PrintHead(r) + tail, limits).Done? <==> Unambiguous(r, limits)
  {
    hide HeadOk, PrintHead, ParseHead, Mentions, Acceptable;
    HeadReadsBack(r, limits, tail);
    AcceptedFrom(r.fields, NO_FIELDS);
    if Meaning(r.fields, NO_FIELDS).Ok? {
      var f := Meaning(r.fields, NO_FIELDS).value;
      forall i: nat | i < |r.fields| && Names(r.fields[i], CONTENT_LENGTH)
        ensures AllDigits(r.fields[i].value) && f.contentLength == Some(Value(r.fields[i].value, 10))
      {
        LengthOf(r.fields, NO_FIELDS, i);
      }
      if f.contentLength.Some? {
        var i: nat := MentionedAt(r.fields, CONTENT_LENGTH);
      }
    }
  }

  lemma MentionedAt(fs: seq<Field>, name: seq<byte>) returns (i: nat)
    requires Mentions(fs, name)
    ensures i < |fs| && Names(fs[i], name)
  {
    i :| 0 <= i < |fs| && Names(fs[i], name);
  }

  ghost predicate StartsWithHead(s: seq<byte>, limits: Limits, r: Response) {
    HeadOk(r, limits) && |PrintHead(r)| <= |s| && s[..|PrintHead(r)|] == PrintHead(r)
  }

  /**
   * For every byte string: a head is accepted exactly when the string begins with the
   * printed form of a well-formed head within the limits whose framing is unambiguous. So
   * a bare CR or LF, a folded line, a bad octet or a line too many is never accepted.
   */
  lemma HeadAcceptedIff(s: seq<byte>, limits: Limits)
    ensures ParseHead(s, limits).Done? <==> exists r: Response :: StartsWithHead(s, limits, r) && Unambiguous(r, limits)
  {
    hide HeadOk, PrintHead, ParseHead, Unambiguous;
    if ParseHead(s, limits).Done? {
      var r := HeadIsPrinted(s, limits);
      var n := ParseHead(s, limits).value.headLen;
      assert s == PrintHead(r) + s[n..];
      PrintedHeadAcceptedIff(r, limits, s[n..]);
      assert StartsWithHead(s, limits, r);
    }
    if r: Response :| StartsWithHead(s, limits, r) && Unambiguous(r, limits) {
      var tail := s[|PrintHead(r)|..];
      assert s == PrintHead(r) + tail;
      PrintedHeadAcceptedIff(r, limits, tail);
    }
  }

  /** The parser asks for more bytes only while the head can still fit: at the limit it has decided. */
  lemma HeadDecided(s: seq<byte>, limits: Limits)
    ensures |s| >= limits.maxHeadBytes ==> !ParseHead(s, limits).NeedMore?
  {
    hide SplitHead, Interpret;
  }

  /** A size line is waited for exactly while there is no line feed among fewer than 256 octets. */
  lemma SizeLineDecidedIff(s: seq<byte>)
    ensures ParseChunkSizeLine(s).NeedMore? <==> |s| < 256 && LF !in s
  {
    hide ChunkSize;
    var nl := IndexOf(s, LF, 0, Min(|s|, MAX_CHUNK_HEADER_LINE));
    if |s| < 256 && nl == |s| {
      assert forall k :: 0 <= k < |s| ==> s[k] != LF;
    }
  }
}
