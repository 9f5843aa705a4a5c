/**
 * The `key = value` config file: reading it and saving changes into it
 * (crates/radar-workstation/src/config/parse.rs and save.rs).
 */
module ConfigFile {
  import opened Wrappers

  // ---------------------------------------------------------------- characters and lines

  /** `char::is_whitespace`. */
  predicate IsSpace(c: char) {
    var n := c as int;
    || 9 <= n <= 13 || n == 32 || n == 0x85 || n == 0xA0 || n == 0x1680
    || 0x2000 <= n <= 0x200A || n == 0x2028 || n == 0x2029 || n == 0x202F || n == 0x205F || n == 0x3000
  }

  predicate IsKeyChar(c: char) {
    'a' <= c <= 'z' || 'A' <= c <= 'Z' || '0' <= c <= '9' || c == '_'
  }

  predicate Trimmed(s: string) {
    s != "" ==> !IsSpace(s[0]) && !IsSpace(s[|s| - 1])
  }

  function Trim(s: string): (r: string)
    ensures Trimmed(r)
    decreases |s|
  {
    if s == "" then s
    else if IsSpace(s[0]) then Trim(s[1..])
    else if IsSpace(s[|s| - 1]) then Trim(s[..|s| - 1])
    else s
  }

  lemma TrimOfTrimmed(s: string)
    requires Trimmed(s)
    ensures Trim(s) == s
  {
  }

  /** A space on the right does not matter; nor does one on the left. */
  lemma {:induction false} TrimSpaceAfter(s: string, c: char)
    requires IsSpace(c)
    ensures Trim(s + [c]) == Trim(s)
    decreases |s|
  {
    var t := s + [c];
    if s == "" {
      assert t[1..] == "";
    } else if IsSpace(s[0]) {
      assert t[1..] == s[1..] + [c];
      TrimSpaceAfter(s[1..], c);
    } else {
      assert t[..|t| - 1] == s;
    }
  }

  lemma TrimSpaceBefore(s: string, c: char)
    requires IsSpace(c)
    ensures Trim([c] + s) == Trim(s)
  {
    assert ([c] + s)[1..] == s;
  }

  /** The first index of `c`, or the length. */
  function IndexOf(s: string, c: char): (i: nat)
    ensures i <= |s|
    ensures i < |s| ==> s[i] == c
    ensures forall k :: 0 <= k < i ==> s[k] != c
  {
    if s == "" || s[0] == c then 0 else 1 + IndexOf(s[1..], c)
  }

  lemma IndexOfIs(s: string, c: char, i: nat)
    requires i < |s| && s[i] == c && forall k :: 0 <= k < i ==> s[k] != c
    ensures IndexOf(s, c) == i
  {
    var j := IndexOf(s, c);
    assert !(i < j);
  }

  function Segments(s: string): (r: seq<string>)
    decreases |s|
  {
    var i := IndexOf(s, '.');
    if i == |s| then [s] else [s[..i]] + Segments(s[i + 1..])
  }

  predicate IsSegment(s: string) {
    s != "" && forall i :: 0 <= i < |s| ==> IsKeyChar(s[i])
  }

  predicate IsValidKey(key: string) {
    key != "" && forall i :: 0 <= i < |Segments(key)| ==> IsSegment(Segments(key)[i])
  }

  lemma {:induction false} SegmentChars(s: string)
    requires forall i :: 0 <= i < |Segments(s)| ==> IsSegment(Segments(s)[i])
    ensures forall k :: 0 <= k < |s| ==> IsKeyChar(s[k]) || s[k] == '.'
    decreases |s|
  {
    var i := IndexOf(s, '.');
    assert IsSegment(Segments(s)[0]);
    if i < |s| {
      var rest := s[i + 1..];
      assert forall k :: 0 <= k < |Segments(rest)| ==> Segments(s)[k + 1] == Segments(rest)[k];
      SegmentChars(rest);
      forall k | 0 <= k < |s|
        ensures IsKeyChar(s[k]) || s[k] == '.'
      {
        if k < i {
          assert s[..i][k] == s[k];
        } else if k > i {
          assert rest[k - i - 1] == s[k];
        }
      }
    }
  }

  function StripCr(line: string): string {
    if line != "" && line[|line| - 1] == '\r' then line[..|line| - 1] else line
  }

  /** `str::lines`: the carriage return goes only with a line feed. */
  function Lines(text: string): (r: seq<string>)
    decreases |text|
  {
    if text == "" then []
    else
      var i := IndexOf(text, '\n');
      if i == |text| then [text] else [StripCr(text[..i])] + Lines(text[i + 1..])
  }

  // ---------------------------------------------------------------- reading

  datatype Meaning = Ignored | Malformed | Pair(key: string, value: string)

  function MeaningOf(line: string): Meaning {
    var t := Trim(line);
    if t == "" || t[0] == '#' then Ignored
    else
      var i := IndexOf(t, '=');
      if i == |t| then Malformed
      else
        var key := Trim(t[..i]);
        if IsValidKey(key) then Pair(key, Trim(t[i + 1..])) else Malformed
  }

  /** `line_key`: the key a line defines, if it does define one. */
  function LineKey(line: string): Option<string> {
    var t := Trim(line);
    if t == "" || t[0] == '#' then None
    else
      var i := IndexOf(t, '=');
      if i == |t| then None
      else
        var key := Trim(t[..i]);
        if IsValidKey(key) then Some(key) else None
  }

  /** Reading and saving never disagree about which line defines a key. */
  lemma LineKeyAgrees(line: string, key: string)
    ensures LineKey(line) == Some(key) <==> MeaningOf(line).Pair? && MeaningOf(line).key == key
    ensures LineKey(line) == None <==> !MeaningOf(line).Pair?
  {
  }

  datatype Entry = Entry(key: string, value: string)

  function Put(pairs: seq<Entry>, key: string, value: string): seq<Entry> {
    if pairs == [] then [Entry(key, value)]
    else if pairs[0].key == key then [Entry(key, value)] + pairs[1..]
    else [pairs[0]] + Put(pairs[1..], key, value)
  }

  datatype Config = Config(pairs: seq<Entry>, skipped: seq<nat>)

  function ParseLines(lines: seq<string>): Config {
    if lines == [] then Config([], [])
    else
      var before := ParseLines(lines[..|lines| - 1]);
      match MeaningOf(lines[|lines| - 1])
      case Ignored => before
      case Malformed => before.(skipped := before.skipped + [|lines|])
      case Pair(key, value) => before.(pairs := Put(before.pairs, key, value))
  }

  function Parse(text: string): Config {
    ParseLines(Lines(text))
  }

  lemma {:induction false} PutFound(pairs: seq<Entry>, at: nat, key: string, value: string)
    requires at < |pairs| && pairs[at].key == key && forall j :: 0 <= j < at ==> pairs[j].key != key
    ensures Put(pairs, key, value) == pairs[at := Entry(key, value)]
    decreases at
  {
    if at > 0 {
      assert forall j :: 0 < j < |pairs| ==> pairs[1..][j - 1] == pairs[j];
      PutFound(pairs[1..], at - 1, key, value);
    }
  }

  lemma {:induction false} PutNew(pairs: seq<Entry>, key: string, value: string)
    requires forall j :: 0 <= j < |pairs| ==> pairs[j].key != key
    ensures Put(pairs, key, value) == pairs + [Entry(key, value)]
  {
    if pairs != [] {
      assert forall j :: 0 < j < |pairs| ==> pairs[1..][j - 1] == pairs[j];
      PutNew(pairs[1..], key, value);
    }
  }

  /** The loop over the lines, updating a pair in place where its key is already listed. */
  method ParseText(text: string) returns (c: Config)
    ensures c == Parse(text)
  {
    hide MeaningOf;
    var lines := Lines(text);
    var pairs: seq<Entry> := [];
    var skipped: seq<nat> := [];
    for idx := 0 to |lines|
      invariant Config(pairs, skipped) == ParseLines(lines[..idx])
    {
      assert lines[..idx + 1][..idx] == lines[..idx];
      match MeaningOf(lines[idx]) {
        case Ignored =>
        case Malformed => skipped := skipped + [idx + 1];
        case Pair(key, value) =>
          var at := 0;
          while at < |pairs| && pairs[at].key != key
            invariant 0 <= at <= |pairs| && forall j :: 0 <= j < at ==> pairs[j].key != key
          {
            at := at + 1;
          }
          if at < |pairs| {
            PutFound(pairs, at, key, value);
            pairs := pairs[at := Entry(key, value)];
          } else {
            PutNew(pairs, key, value);
            pairs := pairs + [Entry(key, value)];
          }
      }
    }
    assert lines[..|lines|] == lines;
    c := Config(pairs, skipped);
  }

  /** The value of the last line that defines `key`. */
  function Lookup(lines: seq<string>, key: string): Option<string> {
    if lines == [] then None
    else
      var m := MeaningOf(lines[|lines| - 1]);
      if m.Pair? && m.key == key then Some(m.value) else Lookup(lines[..|lines| - 1], key)
  }

  function Find(pairs: seq<Entry>, key: string): Option<string> {
    if pairs == [] then None
    else if pairs[0].key == key then Some(pairs[0].value) else Find(pairs[1..], key)
  }

  lemma {:induction false} FindPut(pairs: seq<Entry>, key: string, value: string, k: string)
    ensures Find(Put(pairs, key, value), k) == if k == key then Some(value) else Find(pairs, k)
  {
    if pairs != [] {
      if pairs[0].key != key {
        FindPut(pairs[1..], key, value, k);
        assert ([pairs[0]] + Put(pairs[1..], key, value))[1..] == Put(pairs[1..], key, value);
      } else {
        assert ([Entry(key, value)] + pairs[1..])[1..] == pairs[1..];
      }
    } else {
      assert [Entry(key, value)][1..] == [];
    }
  }

  /** In the parsed pairs, as in the file, the last duplicate wins. */
  lemma {:induction false} ParseIsLookup(lines: seq<string>, key: string)
    ensures Find(ParseLines(lines).pairs, key) == Lookup(lines, key)
  {
    if lines != [] {
      ParseIsLookup(lines[..|lines| - 1], key);
      var m := MeaningOf(lines[|lines| - 1]);
      if m.Pair? {
        FindPut(ParseLines(lines[..|lines| - 1]).pairs, m.key, m.value, key);
      }
    }
  }

  // ---------------------------------------------------------------- saving

  function Written(c: Entry): string {
    c.key + " = " + c.value
  }

  /** The first change for `key` that has not been used yet. */
  function Pick(changes: seq<Entry>, applied: seq<bool>, key: string): (r: Option<nat>)
    requires |applied| == |changes|
    ensures r.Some? ==>
              && r.value < |changes| && !applied[r.value] && changes[r.value].key == key
              && (forall j :: 0 <= j < r.value ==> applied[j] || changes[j].key != key)
    ensures r.None? ==> forall j :: 0 <= j < |changes| ==> applied[j] || changes[j].key != key
  {
    if changes == [] then None
    else if !applied[0] && changes[0].key == key then Some(0)
    else
      var rest := Pick(changes[1..], applied[1..], key);
      assert forall j :: 0 < j < |changes| ==> changes[1..][j - 1] == changes[j] && applied[1..][j - 1] == applied[j];
      match rest case None => None case Some(i) => Some(i + 1)
  }

  datatype Rewritten = Rewritten(lines: seq<string>, applied: seq<bool>)

  function Rewrite(lines: seq<string>, changes: seq<Entry>, applied: seq<bool>): (r: Rewritten)
    requires |applied| == |changes|
    ensures |r.lines| == |lines| && |r.applied| == |changes|
  {
    if lines == [] then Rewritten([], applied)
    else
      var front := Rewrite(lines[..|lines| - 1], changes, applied);
      var line := lines[|lines| - 1];
      var pick := match LineKey(line) case None => None case Some(k) => Pick(changes, front.applied, k);
      match pick
      case None => Rewritten(front.lines + [line], front.applied)
      case Some(idx) => Rewritten(front.lines + [Written(changes[idx])], front.applied[idx := true])
  }

  /** The changes not used on an existing line, written out. */
  function Appended(changes: seq<Entry>, applied: seq<bool>): seq<string>
    requires |applied| == |changes|
  {
    if changes == [] then []
    else
      var n := |changes| - 1;
      Appended(changes[..n], applied[..n]) + if applied[n] then [] else [Written(changes[n])]
  }

  function Join(lines: seq<string>): string {
    if lines == [] then ""
    else if |lines| == 1 then lines[0]
    else Join(lines[..|lines| - 1]) + "\n" + lines[|lines| - 1]
  }

  function Render(lines: seq<string>): string {
    var contents := Join(lines);
    if contents == "" then contents else contents + "\n"
  }

  function NewLines(lines: seq<string>, changes: seq<Entry>): seq<string> {
    var r := Rewrite(lines, changes, seq(|changes|, _ => false));
    r.lines + Appended(changes, r.applied)
  }

  function Save(text: string, changes: seq<Entry>): string {
    Render(NewLines(Lines(text), changes))
  }

  /** Looks for the change to apply to a line that defines `key`. */
  method FindChange(changes: seq<Entry>, applied: array<bool>, key: string) returns (found: Option<nat>)
    requires applied.Length == |changes|
    ensures found == Pick(changes, applied[..], key)
  {
    for idx := 0 to |changes|
      invariant forall j :: 0 <= j < idx ==> applied[j] || changes[j].key != key
    {
      if !applied[idx] && changes[idx].key == key {
        return Some(idx);
      }
    }
    return None;
  }

  lemma RewriteStep(lines: seq<string>, i: nat, changes: seq<Entry>, none: seq<bool>)
    requires i < |lines| && |none| == |changes|
    ensures var before := Rewrite(lines[..i], changes, none);
            var pick := match LineKey(lines[i]) case None => None case Some(k) => Pick(changes, before.applied, k);
            Rewrite(lines[..i + 1], changes, none)
            == match pick
               case None => Rewritten(before.lines + [lines[i]], before.applied)
               case Some(idx) => Rewritten(before.lines + [Written(changes[idx])], before.applied[idx := true])
  {
    assert lines[..i + 1][..i] == lines[..i];
  }

  /** The loop over the existing lines, rewriting in place the first line of each changed key. */
  method RewriteInPlace(lines: array<string>, changes: seq<Entry>, applied: array<bool>)
    requires applied.Length == |changes|
    requires forall k :: 0 <= k < applied.Length ==> !applied[k]
    modifies lines, applied
    ensures var r := Rewrite(old(lines[..]), changes, old(applied[..]));
            lines[..] == r.lines && applied[..] == r.applied
  {
    hide LineKey, Pick, Rewrite, Written;
    ghost var original, none := lines[..], applied[..];
    NoLines(changes, none);
    for i := 0 to lines.Length
      invariant lines[..i] == Rewrite(original[..i], changes, none).lines
      invariant forall k :: i <= k < lines.Length ==> lines[k] == original[k]
      invariant applied[..] == Rewrite(original[..i], changes, none).applied
    {
      RewriteStep(original, i, changes, none);
      var key := LineKey(lines[i]);
      if key.Some? {
        var found := FindChange(changes, applied, key.value);
        if found.Some? {
          ghost var flags := applied[..];
          lines[i] := Written(changes[found.value]);
          applied[found.value] := true;
          assert applied[..] == flags[found.value := true];
        }
      }
      assert lines[..i + 1] == lines[..i] + [lines[i]];
    }
    assert original[..|original|] == original;
  }

  lemma NoLines(changes: seq<Entry>, none: seq<bool>)
    requires |none| == |changes|
    ensures Rewrite([], changes, none) == Rewritten([], none)
  {
  }

  /** The loop over the changes, pushing those that found no line. */
  method AppendMissing(lines: seq<string>, changes: seq<Entry>, applied: array<bool>) returns (all: seq<string>)
    requires applied.Length == |changes|
    ensures all == lines + Appended(changes, applied[..])
  {
    hide Written;
    all := lines;
    for idx := 0 to |changes|
      invariant all == lines + Appended(changes[..idx], applied[..idx])
    {
      assert changes[..idx + 1][..idx] == changes[..idx] && applied[..idx + 1][..idx] == applied[..idx];
      if !applied[idx] {
        all := all + [Written(changes[idx])];
      }
    }
    assert changes[..|changes|] == changes && applied[..|changes|] == applied[..];
  }

  method SaveText(existing: string, changes: seq<Entry>) returns (contents: string)
    ensures contents == Save(existing, changes)
  {
    hide Rewrite, Appended, Join;
    var original := Lines(existing);
    var lines := new string[|original|](i requires 0 <= i < |original| => original[i]);
    var applied := new bool[|changes|](_ => false);
    assert lines[..] == original && applied[..] == seq(|changes|, _ => false);
    RewriteInPlace(lines, changes, applied);
    var all := AppendMissing(lines[..], changes, applied);
    contents := Join(all);
    if contents != "" {
      contents := contents + "\n";
    }
  }
}
