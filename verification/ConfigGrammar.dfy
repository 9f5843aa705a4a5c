/** Which lines of the config file are pairs, comments or neither, told from their characters alone. */
module ConfigGrammar {
  import opened Wrappers
  import opened ConfigFile

  // ---------------------------------------------------------------- keys

  /** Letters, digits, underscores and dots, with no dot at either end and no two in a row. */
  predicate KeyShape(key: string) {
    && key != "" && key[0] != '.' && key[|key| - 1] != '.'
    && KeyChars(key) && !DoubleDot(key)
  }

  predicate KeyChars(s: string) {
    forall i :: 0 <= i < |s| ==>
      'a' <= s[i] <= 'z' || 'A' <= s[i] <= 'Z' || '0' <= s[i] <= '9' || s[i] == '_' || s[i] == '.'
  }

  predicate DoubleDot(s: string) {
    exists i :: 0 < i < |s| && s[i - 1] == '.' && s[i] == '.'
  }

  lemma {:induction false} ValidKeyIff(key: string)
    ensures IsValidKey(key) <==> KeyShape(key)
    decreases |key|
  {
    hide KeyShape, IsSegment;
    var at := IndexOf(key, '.');
    if at < |key| {
      var first, rest := key[..at], key[at + 1..];
      ValidKeyIff(rest);
      FirstSegment(first, rest);
      NoSegment();
      SplitsOff(first, Segments(rest));
      assert key == first + "." + rest && Segments(key) == [first] + Segments(rest);
      assert rest == "" ==> !IsSegment(Segments(rest)[0]);
    } else {
      assert '.' !in key;
      PlainKey(key);
      NoSegment();
      assert Segments(key) == [key] && Segments(key)[0] == key;
    }
  }

  lemma NoSegment()
    ensures !IsSegment("") && Segments("") == [""]
  {
  }

  lemma SplitsOff(first: string, more: seq<string>)
    ensures (forall i :: 0 <= i < |[first] + more| ==> IsSegment(([first] + more)[i])) <==>
              IsSegment(first) && forall i :: 0 <= i < |more| ==> IsSegment(more[i])
  {
    hide IsSegment;
    var all := [first] + more;
    assert all[0] == first && forall i :: 0 <= i < |more| ==> all[i + 1] == more[i];
    assert forall i :: 0 < i < |all| ==> all[i] == more[i - 1];
  }

  lemma PlainKey(key: string)
    requires '.' !in key
    ensures KeyShape(key) <==> IsSegment(key)
  {
    PlainSegment(key);
    assert forall i :: 0 <= i < |key| ==> key[i] in key;
  }

  lemma FirstSegment(first: string, rest: string)
    requires '.' !in first
    ensures KeyShape(first + "." + rest) <==> IsSegment(first) && KeyShape(rest)
  {
    var s, n := first + "." + rest, |first|;
    CharsAppend(first, rest);
    DotsAppend(first, rest);
    PlainSegment(first);
    hide KeyChars, DoubleDot, IsSegment;
    assert first != "" ==> s[0] == first[0] && first[0] in first;
    assert rest != "" ==> s[|s| - 1] == rest[|rest| - 1];
    assert s[n] == '.';
  }

  lemma PlainSegment(first: string)
    requires '.' !in first
    ensures IsSegment(first) <==> first != "" && KeyChars(first)
  {
    assert forall i :: 0 <= i < |first| ==> first[i] in first;
  }

  lemma CharsAppend(first: string, rest: string)
    ensures KeyChars(first + "." + rest) <==> KeyChars(first) && KeyChars(rest)
  {
    var s, n := first + "." + rest, |first|;
    assert forall i :: 0 <= i < n ==> s[i] == first[i];
    assert forall i :: 0 <= i < |rest| ==> s[n + 1 + i] == rest[i];
    if KeyChars(first) && KeyChars(rest) {
      forall i | n < i < |s|
        ensures s[i] == rest[i - n - 1]
      {
      }
    }
  }

  /** The dot between makes two in a row exactly with one at the start of the rest. */
  lemma DotsAppend(first: string, rest: string)
    requires '.' !in first
    ensures DoubleDot(first + "." + rest) <==> DoubleDot(rest) || (rest != "" && rest[0] == '.')
  {
    var s, n := first + "." + rest, |first|;
    assert forall i :: 0 <= i < n ==> s[i] == first[i] && first[i] in first;
    assert s[n] == '.' && forall i :: 0 <= i < |rest| ==> s[n + 1 + i] == rest[i];
    if i :| 0 < i < |s| && s[i - 1] == '.' && s[i] == '.' {
      if i > n + 1 {
        assert rest[i - n - 2] == s[i - 1] && rest[i - n - 1] == s[i];
      } else {
        assert i == n + 1 && rest[0] == s[n + 1];
      }
    }
    if i :| 0 < i < |rest| && rest[i - 1] == '.' && rest[i] == '.' {
      assert s[n + 1 + i - 1] == '.' && s[n + 1 + i] == '.';
    }
    if rest != "" && rest[0] == '.' {
      assert s[n + 1 - 1] == '.' && s[n + 1] == '.';
    }
  }

  // ---------------------------------------------------------------- trimming

  predicate AllSpace(s: string) {
    forall i :: 0 <= i < |s| ==> IsSpace(s[i])
  }

  lemma {:induction false} TrimDrops(s: string) returns (lead: string, trail: string)
    ensures AllSpace(lead) && AllSpace(trail) && s == lead + Trim(s) + trail
    decreases |s|
  {
    hide IsSpace;
    lead, trail := "", "";
    if s != "" && IsSpace(s[0]) {
      lead, trail := TrimDrops(s[1..]);
      lead := [s[0]] + lead;
    } else if s != "" && IsSpace(s[|s| - 1]) {
      lead, trail := TrimDrops(s[..|s| - 1]);
      trail := trail + [s[|s| - 1]];
    }
  }

  lemma {:induction false} TrimUndoes(lead: string, v: string, trail: string)
    requires AllSpace(lead) && AllSpace(trail) && Trimmed(v)
    ensures Trim(lead + v + trail) == v
    decreases |lead| + |trail|
  {
    hide IsSpace, Trim;
    var s := lead + v + trail;
    if lead != "" {
      assert s == [lead[0]] + (lead[1..] + v + trail);
      TrimSpaceBefore(lead[1..] + v + trail, lead[0]);
      TrimUndoes(lead[1..], v, trail);
    } else if trail != "" {
      var n := |trail| - 1;
      assert s == (lead + v + trail[..n]) + [trail[n]];
      TrimSpaceAfter(lead + v + trail[..n], trail[n]);
      TrimUndoes(lead, v, trail[..n]);
    } else {
      assert s == v;
      TrimOfTrimmed(v);
    }
  }

  // ---------------------------------------------------------------- lines

  /** The key, an equals sign and the value, each with white space around it. */
  predicate PairAt(line: string, key: string, value: string, s1: string, s2: string, s3: string, s4: string) {
    && line == s1 + key + s2 + "=" + s3 + value + s4
    && AllSpace(s1) && AllSpace(s2) && AllSpace(s3) && AllSpace(s4)
    && KeyShape(key) && Trimmed(value)
  }

  ghost predicate IsPair(line: string, key: string, value: string) {
    exists s1, s2, s3, s4 :: PairAt(line, key, value, s1, s2, s3, s4)
  }

  /** Blank, or a number sign after white space. */
  predicate BlankFrom(line: string, k: nat) {
    k <= |line| && AllSpace(line[..k]) && (k == |line| || line[k] == '#')
  }

  lemma KeyIsPlain(key: string)
    requires KeyShape(key)
    ensures key != "" && Trimmed(key) && key[0] != '#' && '=' !in key
  {
  }

  lemma Regroup(l: string, a: string, key: string, b: string, c: string, v: string, d: string, r: string)
    ensures l + ((a + key + b) + "=" + (c + v + d)) + r == (l + a) + key + b + "=" + c + v + (d + r)
  {
  }

  /** What reading finds is there. */
  lemma PairFound(line: string) returns (s1: string, s2: string, s3: string, s4: string)
    requires MeaningOf(line).Pair?
    ensures PairAt(line, MeaningOf(line).key, MeaningOf(line).value, s1, s2, s3, s4)
  {
    hide IsSpace, Trim, IsValidKey;
    var t := Trim(line);
    var i := IndexOf(t, '=');
    var l, r := TrimDrops(line);
    var a, b := TrimDrops(t[..i]);
    var c, d := TrimDrops(t[i + 1..]);
    ValidKeyIff(Trim(t[..i]));
    assert t == t[..i] + "=" + t[i + 1..];
    Regroup(l, a, Trim(t[..i]), b, c, Trim(t[i + 1..]), d, r);
    s1, s2, s3, s4 := l + a, b, c, d + r;
  }

  lemma SpaceIsPlain(s: string)
    requires AllSpace(s)
    ensures '=' !in s
  {
  }

  /** A line that trims to `left`, an equals sign and `right`. */
  lemma HalvesRead(line: string, left: string, right: string, key: string, value: string)
    requires Trim(line) == left + "=" + right && '=' !in left && Trim(left) == key && Trim(right) == value
    requires KeyShape(key) && (left + "=")[0] != '#'
    ensures MeaningOf(line) == Pair(key, value)
  {
    hide Trim, IsValidKey, KeyShape;
    var t, n := left + "=" + right, |left|;
    ValidKeyIff(key);
    assert t[0] == (left + "=")[0] && t[n] == '=' && t[..n] == left && t[n + 1..] == right;
    assert forall k :: 0 <= k < n ==> t[k] == left[k] && left[k] in left;
    IndexOfIs(t, '=', n);
  }

  lemma CoreTrims(key: string, s1: string, s2: string, right: string, s4: string)
    requires AllSpace(s1) && AllSpace(s4) && KeyShape(key) && Trimmed(right)
    ensures Trim(s1 + (key + s2 + "=" + right) + s4) == key + s2 + "=" + right
  {
    hide Trim, KeyShape;
    KeyIsPlain(key);
    NotSpace();
    hide IsSpace;
    var core := key + s2 + "=" + right;
    assert core[0] == key[0] && core[|core| - 1] == if right == "" then '=' else right[|right| - 1];
    TrimUndoes(s1, core, s4);
  }

  /** And what is there is found. */
  lemma PairRead(line: string, key: string, value: string, s1: string, s2: string, s3: string, s4: string)
    requires PairAt(line, key, value, s1, s2, s3, s4)
    ensures MeaningOf(line) == Pair(key, value)
  {
    hide IsSpace, Trim, KeyShape, MeaningOf;
    LeftReads(key, s2);
    if value == "" {
      EmptyReads(line, key, s1, s2, s3, s4);
    } else {
      ValueTrims(key, s1, s2, s3, value, s4);
      assert s1 + (key + s2 + "=" + (s3 + value)) + s4 == line;
      assert s3 + value + "" == s3 + value;
      TrimUndoes(s3, value, "");
      HalvesRead(line, key + s2, s3 + value, key, value);
    }
  }

  lemma LeftReads(key: string, s2: string)
    requires KeyShape(key) && AllSpace(s2)
    ensures Trim(key + s2) == key && '=' !in key + s2 && (key + s2 + "=")[0] != '#'
  {
    KeyIsPlain(key);
    SpaceIsPlain(s2);
    hide IsSpace, Trim, KeyShape;
    assert "" + key + s2 == key + s2 && (key + s2 + "=")[0] == key[0];
    TrimUndoes("", key, s2);
  }

  lemma EmptyReads(line: string, key: string, s1: string, s2: string, s3: string, s4: string)
    requires PairAt(line, key, "", s1, s2, s3, s4)
    ensures MeaningOf(line) == Pair(key, "")
  {
    hide IsSpace, Trim, KeyShape, MeaningOf;
    LeftReads(key, s2);
    CoreTrims(key, s1, s2, "", s3 + s4);
    var core := key + s2 + "=" + "";
    assert s1 + core + (s3 + s4) == line;
    TrimOfTrimmed("");
    HalvesRead(line, key + s2, "", key, "");
  }

  /** Space before the value is not at the end of the line. */
  lemma ValueTrims(key: string, s1: string, s2: string, s3: string, value: string, s4: string)
    requires AllSpace(s1) && AllSpace(s4) && KeyShape(key) && value != "" && Trimmed(value)
    ensures var core := key + s2 + "=" + (s3 + value); Trim(s1 + core + s4) == core
  {
    hide Trim, KeyShape;
    KeyIsPlain(key);
    hide IsSpace;
    var core := key + s2 + "=" + (s3 + value);
    assert core[0] == key[0] && core[|core| - 1] == value[|value| - 1];
    TrimUndoes(s1, core, s4);
  }

  lemma NotSpace()
    ensures !IsSpace('=') && !IsSpace('#')
  {
  }

  /** For every line: what it is taken for, and exactly when. */
  lemma MeaningIff(line: string, key: string, value: string)
    ensures MeaningOf(line) == Pair(key, value) <==> IsPair(line, key, value)
    ensures MeaningOf(line) == Ignored <==> exists k: nat :: BlankFrom(line, k)
    ensures LineKey(line) == Some(key) <==> exists v :: IsPair(line, key, v)
  {
    hide IsSpace, Trim, IsValidKey, KeyShape, LineKey, MeaningOf;
    if MeaningOf(line).Pair? {
      var s1, s2, s3, s4 := PairFound(line);
      assert IsPair(line, MeaningOf(line).key, MeaningOf(line).value);
    }
    forall v, s1, s2, s3, s4 | PairAt(line, key, v, s1, s2, s3, s4)
      ensures MeaningOf(line) == Pair(key, v)
    {
      PairRead(line, key, v, s1, s2, s3, s4);
    }
    LineKeyAgrees(line, key);
    IgnoredIff(line);
  }

  lemma IgnoredIff(line: string)
    ensures MeaningOf(line) == Ignored <==> exists k: nat :: BlankFrom(line, k)
  {
    hide IsSpace, Trim, IsValidKey;
    var t := Trim(line);
    var l, r := TrimDrops(line);
    if t == "" {
      assert line[..|line|] == l + r;
      assert BlankFrom(line, |line|);
    } else if t[0] == '#' {
      assert line[..|l|] == l && line[|l|] == t[0];
      assert BlankFrom(line, |l|);
    }
    if k: nat :| BlankFrom(line, k) {
      NotSpace();
      if t != "" {
        assert line[|l|] == t[0] && !IsSpace(t[0]);
        assert k <= |l|;
      }
    }
  }

  /** The lines reported as skipped, counted from 1, are those that are neither. */
  lemma {:induction false} SkippedIff(lines: seq<string>, k: nat)
    ensures k in ParseLines(lines).skipped <==> 1 <= k <= |lines| && MeaningOf(lines[k - 1]) == Malformed
  {
    hide MeaningOf, Put;
    if lines != [] {
      SkippedIff(lines[..|lines| - 1], k);
    }
  }

  /** The keys that the lines define, each where it is defined first. */
  function FirstKeys(lines: seq<string>): seq<string> {
    if lines == [] then []
    else
      var before, m := FirstKeys(lines[..|lines| - 1]), MeaningOf(lines[|lines| - 1]);
      if m.Pair? && m.key !in before then before + [m.key] else before
  }

  function KeysOf(pairs: seq<Entry>): (r: seq<string>)
    ensures |r| == |pairs| && forall i :: 0 <= i < |r| ==> r[i] == pairs[i].key
  {
    seq(|pairs|, i requires 0 <= i < |pairs| => pairs[i].key)
  }

  lemma KeysCons(first: Entry, rest: seq<Entry>)
    ensures KeysOf([first] + rest) == [first.key] + KeysOf(rest)
  {
  }

  lemma {:induction false} PutKeeps(pairs: seq<Entry>, key: string, value: string)
    ensures KeysOf(Put(pairs, key, value)) == if key in KeysOf(pairs) then KeysOf(pairs) else KeysOf(pairs) + [key]
  {
    var entry := Entry(key, value);
    if pairs == [] {
      assert [entry] + [] == [entry] && KeysOf([]) == [];
      KeysCons(entry, []);
    } else {
      var first, rest := pairs[0], pairs[1..];
      assert pairs == [first] + rest;
      KeysCons(first, rest);
      if first.key == key {
        KeysCons(entry, rest);
      } else {
        PutKeeps(rest, key, value);
        KeysCons(first, Put(rest, key, value));
        hide KeysOf, Put;
      }
    }
  }

  /** A key read twice keeps its first place in the list. */
  lemma {:induction false} PairsInOrder(lines: seq<string>)
    ensures KeysOf(ParseLines(lines).pairs) == FirstKeys(lines)
  {
    hide MeaningOf;
    if lines != [] {
      PairsInOrder(lines[..|lines| - 1]);
      var before, m := ParseLines(lines[..|lines| - 1]), MeaningOf(lines[|lines| - 1]);
      if m.Pair? {
        PutKeeps(before.pairs, m.key, m.value);
      }
    }
  }
}
