/**
 * Cutting a message stream where a record ends: what that does to the walk and to the
 * radials read from it (crates/nexrad-decoder/src/parse/mod.rs).
 */
module MessageCuts {
  import opened Bytes
  import opened Wrappers
  import opened MessageStream

  /** The smallest record there can be of type 31 here: sixteen octets, its header cut off. */
  function ShortRecord(): (r: seq<byte>)
    ensures |r| == 16
  {
    [0, 0, 0, 0, 0, 0, 0, 0, 0, 0, 0, 0, 0, 2, 0, 31]
  }

  lemma ShortFrame(tail: seq<byte>)
    requires |tail| >= 12
    ensures FrameOf(ShortRecord() + tail) == Call(Message(31, ShortRecord()), 16)
    ensures Drop(ShortRecord() + tail, 16) == tail
  {
    var all := ShortRecord() + tail;
    assert all[12] == 0 && all[13] == 2 && all[15] == 31;
    assert all[..16] == ShortRecord();
  }

  /**
   * For instance: a record of sixteen octets is handed over while twelve more follow it,
   * and is not seen at the end of a piece.
   */
  lemma ShortRecordIsLost(tail: seq<byte>, accepts: Message -> bool)
    requires |tail| >= 12 && accepts(Message(31, ShortRecord()))
    ensures var all := ShortRecord() + tail;
            && Walk(all, accepts).calls == [Message(31, ShortRecord())] + Walk(tail, accepts).calls
            && Walk(all[..16], accepts) == Walked([], Ended) && all[16..] == tail
            && Walk(all, accepts) != Then(Walk(all[..16], accepts), Walk(all[16..], accepts))
  {
    hide Walk, FrameOf, Drop, ShortRecord;
    var m, all := Message(31, ShortRecord()), ShortRecord() + tail;
    ShortFrame(tail);
    WalkStep(all, accepts);
    NoHeaders(all[..16], accepts);
    assert all[16..] == tail;
    OneMore(m, Walk(tail, accepts));
  }

  lemma OneMore(m: Message, w: Walked)
    ensures Then(Walked([m], Ended), w) == Walked([m] + w.calls, w.outcome)
    ensures Then(Walked([], Ended), w) == w && Walked([m] + w.calls, w.outcome) != w
  {
    assert [] + w.calls == w.calls;
    assert |[m] + w.calls| == |w.calls| + 1;
  }

  // ---------------------------------------------------------------- the radials of a cut stream

  function Both<R>(a: Option<seq<R>>, b: Option<seq<R>>): Option<seq<R>> {
    if a.Some? && b.Some? then Some(a.value + b.value) else None
  }

  /** The radial parser refuses a record that does not reach beyond its headers. */
  ghost predicate RefusesShort<R>(parse: seq<byte> -> Option<R>) {
    forall r: seq<byte> :: |r| < HEADERS ==> parse(r).None?
  }

  lemma {:induction false} ParsedAppend<R>(a: seq<Message>, b: seq<Message>, parse: seq<byte> -> Option<R>)
    ensures Parsed(a + b, 31, parse) == Parsed(a, 31, parse) + Parsed(b, 31, parse)
  {
    hide Parsed;
    NoneParsed(parse);
    if a == [] {
      assert a + b == b && [] + Parsed(b, 31, parse) == Parsed(b, 31, parse);
    } else {
      var m, more := a[0], a[1..];
      assert a + b == [m] + (more + b) && a == [m] + more;
      ParsedAppend(more, b, parse);
      ParsedCons(m, more + b, 31, parse);
      ParsedCons(m, more, 31, parse);
      if m.msgType == 31 && parse(m.record).Some? {
        Assoc([parse(m.record).value], Parsed(more, 31, parse), Parsed(b, 31, parse));
      }
    }
  }

  lemma NoneParsed<R>(parse: seq<byte> -> Option<R>)
    ensures Parsed([], 31, parse) == []
  {
  }

  /** Only a Message 31 advances by less than the two headers, and then it is as short itself. */
  lemma ShortIsRadial(rest: seq<byte>)
    ensures var f := FrameOf(rest);
            (f.Skip? || f.Call?) && f.advance < HEADERS ==>
              f.Call? && f.message.msgType == 31 && |f.message.record| < HEADERS
  {
  }

  lemma {:induction false} ShortIsRefused<R>(rest: seq<byte>, b: nat, parse: seq<byte> -> Option<R>)
    requires b > 0 && Reaches(rest, b) && LastRecord(rest, b) < HEADERS && RefusesShort(parse)
    ensures Walk(rest, Parses(31, parse)).outcome == Refused
    decreases |rest|
  {
    hide FrameOf, Walk;
    var n := FrameOf(rest).advance;
    WalkStep(rest, Parses(31, parse));
    ShortIsRadial(rest);
    if n < b {
      ShortIsRefused(rest[n..], b - n, parse);
    }
  }

  /**
   * The radials of the whole are those of the two pieces exactly when the record that ends
   * at the cut covers its two headers, or one of the pieces gives none either: a shorter
   * record makes the whole stream fail, while the pieces do not see it.
   */
  lemma RadialsSplitIff<R>(rest: seq<byte>, b: nat, parse: seq<byte> -> Option<R>)
    requires b > 0 && Reaches(rest, b) && b <= |rest| && RefusesShort(parse)
    ensures var pieces := Both(RadialsOf(rest[..b], parse), RadialsOf(rest[b..], parse));
            && (RadialsOf(rest, parse) == pieces <==> LastRecord(rest, b) >= HEADERS || pieces.None?)
            && (LastRecord(rest, b) < HEADERS ==> RadialsOf(rest, parse).None?)
  {
    hide Walk, Reaches, LastRecord, Parsed, Parses;
    var accepts := Parses(31, parse);
    if LastRecord(rest, b) >= HEADERS {
      SplitIff(rest, b, accepts);
      ParsedAppend(Walk(rest[..b], accepts).calls, Walk(rest[b..], accepts).calls, parse);
    } else {
      ShortIsRefused(rest, b, parse);
    }
  }

  /** For instance: the short record again, before any stream that is read by itself. */
  lemma PiecesSucceedAlone<R>(tail: seq<byte>, parse: seq<byte> -> Option<R>)
    requires |tail| >= 12 && RadialsOf(tail, parse).Some? && RefusesShort(parse)
    ensures var all := ShortRecord() + tail;
            && RadialsOf(all, parse) == None
            && RadialsOf(all[..16], parse) == Some([]) && RadialsOf(all[16..], parse) == RadialsOf(tail, parse)
  {
    hide Walk, FrameOf, Drop, ShortRecord;
    var all := ShortRecord() + tail;
    ShortFrame(tail);
    WalkStep(all, Parses(31, parse));
    NoHeaders(all[..16], Parses(31, parse));
    assert all[16..] == tail;
  }
}
