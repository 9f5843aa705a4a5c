/**
 * The framing of a NEXRAD message stream (crates/nexrad-decoder/src/parse/mod.rs), over a
 * bounds-checked cursor (parse/cursor.rs).
 */
module MessageStream {
  import opened Bytes
  import opened Wrappers

  const CTM_HEADER_SIZE: nat := 12
  const MSG_HEADER_SIZE: nat := 16
  const HEADERS: nat := 28
  const LEGACY_MSG_SIZE: nat := 2432

  // ---------------------------------------------------------------- the cursor

  function U16(hi: byte, lo: byte): (r: nat)
    ensures r < 0x1_0000
  {
    hi as int * 256 + lo as int
  }

  /** The `n` octets at `at`, when there are that many. */
  function Slice(data: seq<byte>, at: nat, n: nat): (r: Option<seq<byte>>)
    ensures r.Some? ==> |r.value| == n
  {
    if at + n <= |data| then Some(data[at..at + n]) else None
  }

  function U16At(data: seq<byte>, at: nat): Option<nat> {
    if at + 2 <= |data| then Some(U16(data[at], data[at + 1])) else None
  }

  class Cursor {
    const data: seq<byte>
    var pos: nat

    constructor (data: seq<byte>, offset: nat)
      requires offset <= |data|
      ensures this.data == data && pos == offset
    {
      this.data := data;
      pos := offset;
    }

    /** `Cursor::at`: no cursor past the end. */
    static method At(data: seq<byte>, offset: nat) returns (c: Option<Cursor>)
      ensures c.Some? <==> offset <= |data|
      ensures c.Some? ==> fresh(c.value) && c.value.data == data && c.value.pos == offset
    {
      if offset > |data| {
        return None;
      }
      var made := new Cursor(data, offset);
      c := Some(made);
    }

    /** `n` octets, and the position moves past them; or neither. */
    method ReadBytes(n: nat) returns (r: Option<seq<byte>>)
      modifies this
      ensures r == Slice(data, old(pos), n)
      ensures pos == old(pos) + if r.Some? then n else 0
    {
      if pos + n > |data| {
        return None;
      }
      r := Some(data[pos..pos + n]);
      pos := pos + n;
    }

    method ReadU8() returns (r: Option<byte>)
      modifies this
      ensures r == if old(pos) < |data| then Some(data[old(pos)]) else None
      ensures pos == old(pos) + if r.Some? then 1 else 0
    {
      if pos >= |data| {
        return None;
      }
      r := Some(data[pos]);
      pos := pos + 1;
    }

    method ReadU16() returns (r: Option<nat>)
      modifies this
      ensures r == U16At(data, old(pos))
      ensures pos == old(pos) + if r.Some? then 2 else 0
    {
      var bytes := ReadBytes(2);
      if bytes.None? {
        return None;
      }
      r := Some(U16(bytes.value[0], bytes.value[1]));
    }
  }

  // ---------------------------------------------------------------- the walk

  /** One call back: the type in the header and the whole record. */
  datatype Message = Message(msgType: byte, record: seq<byte>)

  datatype Outcome = Ended | Truncated | Refused

  datatype Walked = Walked(calls: seq<Message>, outcome: Outcome)

  function SizeOf(rest: seq<byte>): nat
    requires HEADERS <= |rest|
  {
    U16(rest[CTM_HEADER_SIZE], rest[CTM_HEADER_SIZE + 1]) * 2
  }

  function TypeOf(rest: seq<byte>): byte
    requires HEADERS <= |rest|
  {
    rest[CTM_HEADER_SIZE + 3]
  }

  /** `(n + 3) & !3`. */
  function Aligned(n: nat): (r: nat)
    ensures n <= r < n + 4 && r % 4 == 0
  {
    (n + 3) / 4 * 4
  }

  function Drop(s: seq<byte>, n: nat): seq<byte> {
    if n <= |s| then s[n..] else []
  }

  datatype Frame =
    | NoFrame
    | CutShort
    | Skip(advance: nat)
    | Call(message: Message, advance: nat)

  /** What stands at the beginning of the rest of the stream. */
  function FrameOf(rest: seq<byte>): (f: Frame)
    ensures f.Skip? || f.Call? ==> 0 < f.advance
  {
    if |rest| < HEADERS then NoFrame
    else if SizeOf(rest) == 0 then Skip(LEGACY_MSG_SIZE)
    else if TypeOf(rest) == 31 then
      var end := CTM_HEADER_SIZE + SizeOf(rest);
      if end > |rest| then CutShort else Call(Message(31, rest[..end]), Aligned(end))
    else Call(Message(TypeOf(rest), rest[..Min(LEGACY_MSG_SIZE, |rest|)]), LEGACY_MSG_SIZE)
  }

  /** The messages handed over, up to the first one `accepts` refuses. */
  function Walk(rest: seq<byte>, accepts: Message -> bool): (w: Walked)
    decreases |rest|
  {
    match FrameOf(rest)
    case NoFrame => Walked([], Ended)
    case CutShort => Walked([], Truncated)
    case Skip(n) => Walk(Drop(rest, n), accepts)
    case Call(m, n) =>
      if !accepts(m) then Walked([m], Refused)
      else
        var w := Walk(Drop(rest, n), accepts);
        Walked([m] + w.calls, w.outcome)
  }

  /** Going on after `before`. */
  function Then(before: Walked, after: Walked): Walked {
    if before.outcome == Ended then Walked(before.calls + after.calls, after.outcome) else before
  }

  /** The two header fields the walk looks at, read through a cursor. */
  method ReadHeader(data: seq<byte>, offset: nat) returns (sizeHw: nat, msgType: byte)
    requires offset + HEADERS <= |data|
    ensures sizeHw == U16(data[offset + 12], data[offset + 13]) && msgType == data[offset + 15]
  {
    var hdr := Cursor.At(data, offset + CTM_HEADER_SIZE);
    var size := hdr.value.ReadU16();
    var channel := hdr.value.ReadU8();
    var type' := hdr.value.ReadU8();
    return size.value, type'.value;
  }

  method ForEachMessage(data: seq<byte>, accepts: Message -> bool) returns (calls: seq<Message>, outcome: Outcome)
    ensures Walked(calls, outcome) == Walk(data, accepts)
  {
    hide Walk, Drop, FrameOf, Aligned;
    calls := [];
    var offset := 0;
    DropNone(data);
    while offset + CTM_HEADER_SIZE + MSG_HEADER_SIZE <= |data|
      invariant Then(Walked(calls, Ended), Walk(Drop(data, offset), accepts)) == Walk(data, accepts)
      decreases |data| - offset
    {
      FrameAt(data, offset);
      WalkStep(Drop(data, offset), accepts);
      var sizeHw, msgType := ReadHeader(data, offset);
      if sizeHw == 0 {
        DropTwice(data, offset, LEGACY_MSG_SIZE);
        offset := offset + LEGACY_MSG_SIZE;
        continue;
      }
      var msgSizeBytes := sizeHw * 2;
      var recordEnd, advance;
      if msgType == 31 {
        recordEnd, advance := offset + CTM_HEADER_SIZE + msgSizeBytes, Aligned(CTM_HEADER_SIZE + msgSizeBytes);
        if recordEnd > |data| {
          return calls, Truncated;
        }
      } else {
        recordEnd, advance := Min(offset + LEGACY_MSG_SIZE, |data|), LEGACY_MSG_SIZE;
      }
      var message := Message(msgType, data[offset..recordEnd]);
      CallsOn(calls, message, Walk(Drop(data, offset + advance), accepts));
      DropTwice(data, offset, advance);
      calls := calls + [message];
      if !accepts(message) {
        return calls, Refused;
      }
      offset := offset + advance;
    }
    FrameAt(data, offset);
    WalkStep(Drop(data, offset), accepts);
    outcome := Ended;
  }

  lemma CallsOn(calls: seq<Message>, m: Message, after: Walked)
    ensures Then(Walked(calls, Ended), Then(Walked([m], Ended), after)) == Then(Walked(calls + [m], Ended), after)
  {
  }

  /** The record at an offset of the stream. */
  lemma FrameAt(data: seq<byte>, offset: nat)
    ensures offset + HEADERS > |data| ==> FrameOf(Drop(data, offset)).NoFrame?
    ensures offset + HEADERS <= |data| ==>
              var size := U16(data[offset + 12], data[offset + 13]) * 2;
              var type' := data[offset + 15];
              FrameOf(Drop(data, offset)) ==
                if size == 0 then Skip(LEGACY_MSG_SIZE)
                else if type' == 31 then
                  if offset + CTM_HEADER_SIZE + size > |data| then CutShort
                  else Call(Message(31, data[offset..offset + CTM_HEADER_SIZE + size]), Aligned(CTM_HEADER_SIZE + size))
                else Call(Message(type', data[offset..Min(offset + LEGACY_MSG_SIZE, |data|)]), LEGACY_MSG_SIZE)
  {
    if offset + HEADERS <= |data| {
      var rest := data[offset..];
      var size := U16(data[offset + 12], data[offset + 13]) * 2;
      assert rest[12] == data[offset + 12] && rest[13] == data[offset + 13] && rest[15] == data[offset + 15];
      if offset + CTM_HEADER_SIZE + size <= |data| {
        assert data[offset..offset + CTM_HEADER_SIZE + size] == rest[..CTM_HEADER_SIZE + size];
      }
      assert data[offset..Min(offset + LEGACY_MSG_SIZE, |data|)] == rest[..Min(LEGACY_MSG_SIZE, |rest|)];
    }
  }

  lemma DropNone(s: seq<byte>)
    ensures Drop(s, 0) == s
  {
  }

  lemma WalkStep(rest: seq<byte>, accepts: Message -> bool)
    ensures var f := FrameOf(rest);
            && (f.NoFrame? ==> Walk(rest, accepts) == Walked([], Ended))
            && (f.CutShort? ==> Walk(rest, accepts) == Walked([], Truncated))
            && (f.Skip? ==> Walk(rest, accepts) == Walk(Drop(rest, f.advance), accepts))
            && (f.Call? && !accepts(f.message) ==> Walk(rest, accepts) == Walked([f.message], Refused))
            && (f.Call? && accepts(f.message) ==>
                  Walk(rest, accepts) == Then(Walked([f.message], Ended), Walk(Drop(rest, f.advance), accepts)))
  {
  }

  lemma DropTwice(s: seq<byte>, a: nat, b: nat)
    ensures Drop(Drop(s, a), b) == Drop(s, a + b)
  {
  }

  // ---------------------------------------------------------------- laid-out streams

  /** A record as it is laid out: with the padding after it. */
  datatype Item =
    | Unused(record: seq<byte>)
    | Fixed(record: seq<byte>)
    | Radial(record: seq<byte>, padding: seq<byte>)

  /** The size, in halfwords and without the first twelve octets, is at octet 12, the type at octet 15. */
  predicate WellFormed(i: Item) {
    28 <= |i.record| &&
    match i
    case Unused(r) => |r| == 2432 && r[12] == 0 && r[13] == 0
    case Fixed(r) => |r| == 2432 && (r[12] != 0 || r[13] != 0) && r[15] != 31
    case Radial(r, padding) =>
      && |r| == 12 + 2 * (256 * r[12] as int + r[13] as int) && r[15] == 31
      && |padding| < 4 && (|r| + |padding|) % 4 == 0
  }

  function Octets(i: Item): seq<byte> {
    match i
    case Unused(r) => r
    case Fixed(r) => r
    case Radial(r, padding) => r + padding
  }

  function Layout(items: seq<Item>): seq<byte> {
    if items == [] then [] else Octets(items[0]) + Layout(items[1..])
  }

  function MessageOf(i: Item): Message
    requires WellFormed(i)
  {
    Message(i.record[15], i.record)
  }

  predicate AllWellFormed(items: seq<Item>) {
    forall k :: 0 <= k < |items| ==> WellFormed(items[k])
  }

  /** The messages among the items, in order. */
  function Messages(items: seq<Item>): seq<Message>
    requires AllWellFormed(items)
  {
    if items == [] then []
    else (if items[0].Unused? then [] else [MessageOf(items[0])]) + Messages(items[1..])
  }

  lemma ItemFrame(i: Item, rest: seq<byte>)
    requires WellFormed(i)
    ensures FrameOf(Octets(i) + rest) ==
              if i.Unused? then Skip(|Octets(i)|) else Call(MessageOf(i), |Octets(i)|)
    ensures Drop(Octets(i) + rest, |Octets(i)|) == rest
  {
    var all := Octets(i) + rest;
    assert forall k :: 0 <= k < |i.record| ==> all[k] == i.record[k];
    assert all[..|i.record|] == i.record;
  }

  /**
   * Messages laid out one after the other are handed over one after the other, whole and
   * in order, and whatever comes after them is walked as it would be alone.
   */
  lemma {:induction false} LayoutIsWalked(items: seq<Item>, rest: seq<byte>, accepts: Message -> bool)
    requires AllWellFormed(items)
    requires forall k :: 0 <= k < |items| ==> items[k].Unused? || accepts(MessageOf(items[k]))
    ensures Walk(Layout(items) + rest, accepts) == Then(Walked(Messages(items), Ended), Walk(rest, accepts))
    decreases |items|
  {
    hide Walk, FrameOf, WellFormed, Octets, Drop, MessageOf;
    if items == [] {
      assert Layout(items) + rest == rest;
    } else {
      assert forall k :: 0 <= k < |items| - 1 ==> items[1..][k] == items[k + 1];
      LayoutIsWalked(items[1..], rest, accepts);
      var after := Layout(items[1..]) + rest;
      assert Layout(items) + rest == Octets(items[0]) + after;
      ItemFrame(items[0], after);
      WalkStep(Octets(items[0]) + after, accepts);
    }
  }

  // ---------------------------------------------------------------- splitting a stream

  /** Walking `rest` gets to offset `b`. */
  predicate Reaches(rest: seq<byte>, b: nat)
    decreases |rest|
  {
    b == 0 ||
    var f := FrameOf(rest);
    (f.Skip? || f.Call?) && f.advance <= b && f.advance <= |rest| && Reaches(rest[f.advance..], b - f.advance)
  }

  /** How long, padding included, the record is that ends at `b`. */
  function LastRecord(rest: seq<byte>, b: nat): nat
    requires b > 0 && Reaches(rest, b)
    decreases |rest|
  {
    var n := FrameOf(rest).advance;
    if n == b then n else LastRecord(rest[n..], b - n)
  }

  lemma {:induction false} ReachedInside(rest: seq<byte>, b: nat)
    requires Reaches(rest, b)
    ensures b <= |rest|
    decreases |rest|
  {
    hide FrameOf;
    if b > 0 {
      var n := FrameOf(rest).advance;
      ReachedInside(rest[n..], b - n);
    }
  }

  /** The first record is the same in the first `b` octets, when its headers and its end are among them. */
  lemma FrameInPrefix(rest: seq<byte>, b: nat)
    requires HEADERS <= b <= |rest|
    requires var f := FrameOf(rest); (f.Skip? || f.Call?) && f.advance <= b
    ensures FrameOf(rest[..b]) == FrameOf(rest)
    ensures Drop(rest[..b], FrameOf(rest).advance) == rest[FrameOf(rest).advance..b]
  {
    var p := rest[..b];
    assert p[12] == rest[12] && p[13] == rest[13] && p[15] == rest[15];
    if TypeOf(rest) == 31 && SizeOf(rest) != 0 {
      assert p[..CTM_HEADER_SIZE + SizeOf(rest)] == rest[..CTM_HEADER_SIZE + SizeOf(rest)];
    } else {
      assert p[..LEGACY_MSG_SIZE] == rest[..LEGACY_MSG_SIZE];
    }
  }

  /** Only short radial records advance by less than the two headers. */
  lemma ShortIsCalled(rest: seq<byte>)
    ensures var f := FrameOf(rest); (f.Skip? || f.Call?) && f.advance < HEADERS ==> f.Call?
  {
  }

  lemma {:induction false} CallsAfter(rest: seq<byte>, b: nat, accepts: Message -> bool)
    requires Reaches(rest, b) && b <= |rest|
    ensures Walk(rest, accepts).outcome != Refused ==>
              && |Walk(rest[b..], accepts).calls| <= |Walk(rest, accepts).calls|
              && (b > 0 && FrameOf(rest).Call? ==> |Walk(rest[b..], accepts).calls| < |Walk(rest, accepts).calls|)
    decreases |rest|
  {
    hide FrameOf, Walk;
    WalkStep(rest, accepts);
    if b == 0 {
      assert rest[b..] == rest;
    } else {
      var n := FrameOf(rest).advance;
      assert rest[n..][b - n..] == rest[b..];
      CallsAfter(rest[n..], b - n, accepts);
    }
  }

  /**
   * Exactly when a stream can be cut where a record ends, and the two pieces walked
   * separately: when that record is no shorter than its two headers. (That it is needed
   * is said of walks no message stops.)
   */
  lemma {:induction false} SplitIff(rest: seq<byte>, b: nat, accepts: Message -> bool)
    requires b > 0 && Reaches(rest, b) && b <= |rest|
    ensures LastRecord(rest, b) >= HEADERS ==>
              Walk(rest, accepts) == Then(Walk(rest[..b], accepts), Walk(rest[b..], accepts))
    ensures Walk(rest, accepts).outcome != Refused
            && Walk(rest, accepts) == Then(Walk(rest[..b], accepts), Walk(rest[b..], accepts)) ==>
              LastRecord(rest, b) >= HEADERS
    decreases |rest|
  {
    hide FrameOf, Walk;
    var n := FrameOf(rest).advance;
    WalkStep(rest, accepts);
    if b < HEADERS {
      LastIsInside(rest, b);
      ShortIsCalled(rest);
      NoHeaders(rest[..b], accepts);
      CallsAfter(rest, b, accepts);
    } else {
      FrameInPrefix(rest, b);
      WalkStep(rest[..b], accepts);
      assert rest[n..][b - n..] == rest[b..] && rest[n..][..b - n] == rest[n..b];
      if n < b {
        SplitIff(rest[n..], b - n, accepts);
        if FrameOf(rest).Skip? || accepts(FrameOf(rest).message) {
          SplitStep(rest, n, b, accepts);
        }
      } else {
        NoHeaders(rest[n..b], accepts);
        assert rest[n..] == rest[b..];
      }
    }
  }

  lemma {:induction false} LastIsInside(rest: seq<byte>, b: nat)
    requires b > 0 && Reaches(rest, b)
    ensures LastRecord(rest, b) <= b
    decreases |rest|
  {
    hide FrameOf;
    var n := FrameOf(rest).advance;
    if n < b {
      LastIsInside(rest[n..], b - n);
    }
  }

  lemma NoHeaders(s: seq<byte>, accepts: Message -> bool)
    ensures |s| < HEADERS ==> Walk(s, accepts) == Walked([], Ended)
  {
  }

  /** A record in front of both pieces changes nothing about their being equal to the whole. */
  lemma SplitStep(rest: seq<byte>, n: nat, b: nat, accepts: Message -> bool)
    requires FrameOf(rest).Skip? || FrameOf(rest).Call?
    requires n < b <= |rest| && n == FrameOf(rest).advance
    requires FrameOf(rest[..b]) == FrameOf(rest) && (FrameOf(rest).Call? ==> accepts(FrameOf(rest).message))
    ensures Walk(rest, accepts) == Then(Walk(rest[..b], accepts), Walk(rest[b..], accepts)) <==>
              Walk(rest[n..], accepts) == Then(Walk(rest[n..b], accepts), Walk(rest[b..], accepts))
  {
    hide FrameOf, Walk;
    WalkStep(rest, accepts);
    WalkStep(rest[..b], accepts);
    assert Drop(rest[..b], n) == rest[n..b];
    if FrameOf(rest).Call? {
      ThenOnce(FrameOf(rest).message, Walk(rest[n..], accepts), Walk(rest[n..b], accepts), Walk(rest[b..], accepts));
    }
  }

  lemma ThenOnce(m: Message, whole: Walked, first: Walked, second: Walked)
    ensures var one := Walked([m], Ended);
            Then(one, whole) == Then(Then(one, first), second) <==> whole == Then(first, second)
  {
    var split := Then(first, second);
    assert ([m] + first.calls) + second.calls == [m] + (first.calls + second.calls);
    assert ([m] + whole.calls)[1..] == whole.calls && ([m] + split.calls)[1..] == split.calls;
  }

  // ---------------------------------------------------------------- the two readers of a stream

  /** What is made of each message of one type, as far as something can be. */
  function Parsed<R>(calls: seq<Message>, msgType: byte, parse: seq<byte> -> Option<R>): seq<R> {
    if calls == [] then []
    else
      var m := calls[0];
      (if m.msgType != msgType then []
       else match parse(m.record) case Some(r) => [r] case None => []) + Parsed(calls[1..], msgType, parse)
  }

  /** Only a message of the type looked for can stop the walk. */
  function Parses<R>(msgType: byte, parse: seq<byte> -> Option<R>): Message -> bool {
    (m: Message) => m.msgType != msgType || parse(m.record).Some?
  }

  function RadialsOf<R>(data: seq<byte>, parse: seq<byte> -> Option<R>): Option<seq<R>> {
    var w := Walk(data, Parses(31, parse));
    if w.outcome == Ended then Some(Parsed(w.calls, 31, parse)) else None
  }

  /** The radials of a chunk, or nothing when its framing or one of its radials is cut short. */
  method ParseRadialStream<R>(data: seq<byte>, parse: seq<byte> -> Option<R>) returns (radials: Option<seq<R>>)
    ensures radials == RadialsOf(data, parse)
  {
    hide Walk;
    var calls, outcome := ForEachMessage(data, Parses(31, parse));
    if outcome != Ended {
      return None;
    }
    var all := [];
    assert calls[0..] == calls && [] + Parsed(calls, 31, parse) == Parsed(calls, 31, parse);
    for i := 0 to |calls|
      invariant all + Parsed(calls[i..], 31, parse) == Parsed(calls, 31, parse)
    {
      assert calls[i..] == [calls[i]] + calls[i + 1..];
      ParsedCons(calls[i], calls[i + 1..], 31, parse);
      if calls[i].msgType == 31 {
        var radial := parse(calls[i].record);
        if radial.Some? {
          Assoc(all, [radial.value], Parsed(calls[i + 1..], 31, parse));
          all := all + [radial.value];
        }
      }
    }
    assert all + [] == all;
    radials := Some(all);
  }

  lemma ParsedCons<R>(m: Message, calls: seq<Message>, msgType: byte, parse: seq<byte> -> Option<R>)
    ensures Parsed([m] + calls, msgType, parse) ==
              if m.msgType != msgType || parse(m.record).None? then Parsed(calls, msgType, parse)
              else [parse(m.record).value] + Parsed(calls, msgType, parse)
  {
    assert ([m] + calls)[1..] == calls;
  }

  /** Every radial message laid out becomes one radial, in order, whatever stands between them. */
  lemma EveryRadialIsParsed<R>(items: seq<Item>, parse: seq<byte> -> Option<R>)
    requires AllWellFormed(items)
    requires forall k :: 0 <= k < |items| && items[k].Radial? ==> parse(items[k].record).Some?
    ensures Walk(Layout(items), Parses(31, parse)) == Walked(Messages(items), Ended)
    ensures |Parsed(Messages(items), 31, parse)| == RadialCount(items)
    ensures forall k :: 0 <= k < |items| && items[k].Radial? ==>
              && RadialCount(items[..k]) < RadialCount(items)
              && Parsed(Messages(items), 31, parse)[RadialCount(items[..k])] == parse(items[k].record).value
  {
    hide Walk;
    assert Layout(items) + [] == Layout(items);
    LayoutIsWalked(items, [], Parses(31, parse));
    NoHeaders([], Parses(31, parse));
    ParsedInOrder(items, parse);
  }

  function RadialCount(items: seq<Item>): nat {
    if items == [] then 0 else (if items[0].Radial? then 1 else 0) + RadialCount(items[1..])
  }

  lemma {:induction false} ParsedInOrder<R>(items: seq<Item>, parse: seq<byte> -> Option<R>)
    requires AllWellFormed(items)
    requires forall k :: 0 <= k < |items| && items[k].Radial? ==> parse(items[k].record).Some?
    ensures |Parsed(Messages(items), 31, parse)| == RadialCount(items)
    ensures forall k :: 0 <= k < |items| && items[k].Radial? ==>
              && RadialCount(items[..k]) < RadialCount(items)
              && Parsed(Messages(items), 31, parse)[RadialCount(items[..k])] == parse(items[k].record).value
  {
    if items != [] {
      hide SizeOf, Parsed;
      ParsedInOrder(items[1..], parse);
      FirstParsed(items, parse);
      forall k | 0 <= k < |items| && items[k].Radial?
        ensures RadialCount(items[..k]) < RadialCount(items)
        ensures Parsed(Messages(items), 31, parse)[RadialCount(items[..k])] == parse(items[k].record).value
      {
        if k > 0 {
          assert items[..k][1..] == items[1..][..k - 1] && items[1..][k - 1] == items[k];
        }
      }
    } else {
      assert Parsed(Messages(items), 31, parse) == [];
    }
  }

  lemma FirstParsed<R>(items: seq<Item>, parse: seq<byte> -> Option<R>)
    requires AllWellFormed(items) && items != []
    requires items[0].Radial? ==> parse(items[0].record).Some?
    ensures Parsed(Messages(items), 31, parse) ==
              if items[0].Radial? then [parse(items[0].record).value] + Parsed(Messages(items[1..]), 31, parse)
              else Parsed(Messages(items[1..]), 31, parse)
  {
    hide Parsed;
    assert WellFormed(items[0]);
    if items[0].Unused? {
      assert Messages(items) == Messages(items[1..]);
    } else {
      ParsedCons(MessageOf(items[0]), Messages(items[1..]), 31, parse);
    }
  }
}
