/**
 * What a saved config file reads as: the old settings updated by the changes, every
 * other line as it was.
 */
module ConfigRoundTrip {
  import opened Wrappers
  import opened ConfigFile

  // ---------------------------------------------------------------- the changes considered

  /** A key the format accepts, and a value that fits on its line. */
  predicate Clean(c: Entry) {
    IsValidKey(c.key) && Trimmed(c.value) && '\n' !in c.value
  }

  predicate CleanChanges(changes: seq<Entry>) {
    && (forall i :: 0 <= i < |changes| ==> Clean(changes[i]))
    && (forall i, j :: 0 <= i < j < |changes| ==> changes[i].key != changes[j].key)
  }

  /** How many lines define `key`. */
  function Occurrences(lines: seq<string>, key: string): nat {
    if lines == [] then 0
    else Occurrences(lines[..|lines| - 1], key) + if LineKey(lines[|lines| - 1]) == Some(key) then 1 else 0
  }

  /** The new value for `key`, if it is changed. */
  function NewValue(changes: seq<Entry>, key: string): (r: Option<string>)
    ensures r.None? ==> forall i :: 0 <= i < |changes| ==> changes[i].key != key
    ensures r.Some? ==> exists i :: 0 <= i < |changes| && changes[i] == Entry(key, r.value)
  {
    if changes == [] then None
    else
      var n := |changes| - 1;
      if changes[n].key == key then Some(changes[n].value)
      else
        var r := NewValue(changes[..n], key);
        assert forall i :: 0 <= i < n ==> changes[..n][i] == changes[i];
        r
  }

  lemma NewValueAt(changes: seq<Entry>, i: nat)
    requires CleanChanges(changes) && i < |changes|
    ensures NewValue(changes, changes[i].key) == Some(changes[i].value)
  {
  }

  function NoneApplied(changes: seq<Entry>): (r: seq<bool>)
    ensures |r| == |changes| && forall i :: 0 <= i < |r| ==> !r[i]
  {
    seq(|changes|, _ => false)
  }

  // ---------------------------------------------------------------- a written line

  lemma ValidKeyChars(key: string)
    requires IsValidKey(key)
    ensures Trimmed(key) && key != "" && key[0] != '#'
    ensures forall i :: 0 <= i < |key| ==> key[i] != '=' && key[i] != '\n' && !IsSpace(key[i])
  {
    SegmentChars(key);
  }

  /** A written change reads back as exactly that change. */
  lemma WrittenReadsBack(c: Entry)
    requires Clean(c)
    ensures MeaningOf(Written(c)) == Pair(c.key, c.value)
    ensures LineKey(Written(c)) == Some(c.key)
    ensures '\n' !in Written(c) && StripCr(Written(c)) == Written(c)
  {
    hide IsValidKey, LineKey;
    ValidKeyChars(c.key);
    var line := Written(c);
    var t := if c.value == "" then c.key + " =" else line;
    WrittenTrims(c);
    IndexOfIs(t, '=', |c.key| + 1);
    assert t[..|c.key| + 1] == c.key + [' '];
    TrimSpaceAfter(c.key, ' ');
    TrimOfTrimmed(c.key);
    if c.value != "" {
      assert t[|c.key| + 2..] == [' '] + c.value;
      TrimSpaceBefore(c.value, ' ');
    } else {
      assert t[|c.key| + 2..] == "";
    }
    TrimOfTrimmed(c.value);
    assert MeaningOf(line) == Pair(c.key, c.value);
    LineKeyAgrees(line, c.key);
  }

  lemma WrittenTrims(c: Entry)
    requires Clean(c)
    ensures Trim(Written(c)) == if c.value == "" then c.key + " =" else Written(c)
    ensures '\n' !in Written(c) && StripCr(Written(c)) == Written(c)
  {
    ValidKeyChars(c.key);
    var line := Written(c);
    assert line[0] == c.key[0];
    if c.value == "" {
      assert line == (c.key + " =") + [' '];
      TrimSpaceAfter(c.key + " =", ' ');
      TrimOfTrimmed(c.key + " =");
    } else {
      assert line[|line| - 1] == c.value[|c.value| - 1];
      TrimOfTrimmed(line);
    }
  }

  // ---------------------------------------------------------------- the rewritten lines

  /** What has to be found for `key` in the lines once rewritten. */
  function AfterRewrite(lines: seq<string>, changes: seq<Entry>, key: string): Option<string> {
    if NewValue(changes, key).None? || Occurrences(lines, key) != 1 then Lookup(lines, key)
    else NewValue(changes, key)
  }

  lemma LookupSnoc(lines: seq<string>, line: string, key: string)
    ensures Lookup(lines + [line], key) ==
              if MeaningOf(line).Pair? && MeaningOf(line).key == key then Some(MeaningOf(line).value)
              else Lookup(lines, key)
    ensures Occurrences(lines + [line], key) == Occurrences(lines, key) + if LineKey(line) == Some(key) then 1 else 0
    ensures ParseLines(lines + [line]).skipped ==
              if MeaningOf(line).Malformed? then ParseLines(lines).skipped + [|lines| + 1]
                else ParseLines(lines).skipped
  {
    assert (lines + [line])[..|lines|] == lines;
  }

  lemma {:induction false} NoOccurrence(lines: seq<string>, key: string)
    ensures Occurrences(lines, key) == 0 <==> Lookup(lines, key) == None
  {
    if lines != [] {
      NoOccurrence(lines[..|lines| - 1], key);
      LineKeyAgrees(lines[|lines| - 1], key);
    }
  }

  /** Which changes have been used: those whose key occurs. */
  predicate UsedMatch(lines: seq<string>, changes: seq<Entry>, applied: seq<bool>)
    requires |applied| == |changes|
  {
    forall i :: 0 <= i < |changes| ==> (applied[i] <==> Occurrences(lines, changes[i].key) > 0)
  }

  /** One line of the rewriting: replaced when it is the first to define a changed key. */
  function RewrittenLine(before: seq<string>, line: string, changes: seq<Entry>): string {
    match LineKey(line)
    case None => line
    case Some(k) =>
      if NewValue(changes, k).Some? && Occurrences(before, k) == 0
      then Written(Entry(k, NewValue(changes, k).value)) else line
  }

  lemma RewriteOne(lines: seq<string>, changes: seq<Entry>)
    requires lines != [] && CleanChanges(changes)
    requires var front := lines[..|lines| - 1];
             UsedMatch(front, changes, Rewrite(front, changes, NoneApplied(changes)).applied)
    ensures var front, line := lines[..|lines| - 1], lines[|lines| - 1];
            var r := Rewrite(lines, changes, NoneApplied(changes));
            && r.lines == Rewrite(front, changes, NoneApplied(changes)).lines + [RewrittenLine(front, line, changes)]
            && UsedMatch(lines, changes, r.applied)
  {
    hide LineKey, Written, IsValidKey;
    var front, line := lines[..|lines| - 1], lines[|lines| - 1];
    var before := Rewrite(front, changes, NoneApplied(changes));
    if LineKey(line).Some? {
      var k := LineKey(line).value;
      var pick := Pick(changes, before.applied, k);
      if pick.Some? {
        NewValueAt(changes, pick.value);
      } else if NewValue(changes, k).Some? {
        var i :| 0 <= i < |changes| && changes[i] == Entry(k, NewValue(changes, k).value);
        assert before.applied[i];
      }
    }
  }

  lemma {:induction false} RewriteUses(lines: seq<string>, changes: seq<Entry>)
    requires CleanChanges(changes)
    ensures UsedMatch(lines, changes, Rewrite(lines, changes, NoneApplied(changes)).applied)
  {
    if lines != [] {
      RewriteUses(lines[..|lines| - 1], changes);
      RewriteOne(lines, changes);
    }
  }

  /** A replaced line defines the same key as before, and nothing else about it is seen. */
  lemma RewrittenLineMeans(before: seq<string>, line: string, changes: seq<Entry>)
    requires CleanChanges(changes)
    ensures var new' := RewrittenLine(before, line, changes);
            && LineKey(new') == LineKey(line)
            && (LineKey(line).None? ==> new' == line)
            && (MeaningOf(new').Malformed? <==> MeaningOf(line).Malformed?)
            && (LineKey(line).Some? ==>
                  MeaningOf(new') ==
                    if NewValue(changes, LineKey(line).value).Some? && Occurrences(before, LineKey(line).value) == 0
                    then Pair(LineKey(line).value, NewValue(changes, LineKey(line).value).value)
                    else MeaningOf(line))
  {
    if LineKey(line).Some? {
      var k := LineKey(line).value;
      LineKeyAgrees(line, k);
      if NewValue(changes, k).Some? {
        var i :| 0 <= i < |changes| && changes[i] == Entry(k, NewValue(changes, k).value);
        assert Clean(changes[i]);
        WrittenReadsBack(changes[i]);
      }
    }
  }

  /** The rewritten lines read as the lines do, but for a changed key that is on one line. */
  ghost predicate ReadsRewritten(r: seq<string>, lines: seq<string>, changes: seq<Entry>, key: string) {
    && |r| == |lines|
    && Lookup(r, key) == AfterRewrite(lines, changes, key)
    && Occurrences(r, key) == Occurrences(lines, key)
    && ParseLines(r).skipped == ParseLines(lines).skipped
  }

  lemma {:induction false} RewriteEffect(lines: seq<string>, changes: seq<Entry>, key: string)
    requires CleanChanges(changes)
    ensures ReadsRewritten(Rewrite(lines, changes, NoneApplied(changes)).lines, lines, changes, key)
  {
    hide ReadsRewritten, LineKey, RewrittenLine, UsedMatch, CleanChanges, NoneApplied;
    if lines != [] {
      var front, line := lines[..|lines| - 1], lines[|lines| - 1];
      RewriteEffect(front, changes, key);
      RewriteUses(front, changes);
      RewriteOne(lines, changes);
      assert front + [line] == lines;
      RewriteEffectStep(Rewrite(front, changes, NoneApplied(changes)).lines, front, line, changes, key);
    } else {
      NothingRewritten(changes, key);
    }
  }

  lemma NothingRewritten(changes: seq<Entry>, key: string)
    ensures ReadsRewritten([], [], changes, key)
  {
  }

  lemma RewriteEffectStep(r: seq<string>, front: seq<string>, line: string, changes: seq<Entry>, key: string)
    requires CleanChanges(changes) && ReadsRewritten(r, front, changes, key)
    ensures ReadsRewritten(r + [RewrittenLine(front, line, changes)], front + [line], changes, key)
  {
    hide LineKey, MeaningOf, Written, RewrittenLine, NewValue, Lookup, Occurrences, ParseLines;
    var new' := RewrittenLine(front, line, changes);
    LookupSnoc(r, new', key);
    LookupSnoc(front, line, key);
    RewrittenLineMeans(front, line, changes);
    LineKeyAgrees(line, key);
    LineKeyAgrees(new', key);
    NoOccurrence(front, key);
  }

  // ---------------------------------------------------------------- the appended lines

  /** With the unused changes appended, an unused key has one more line, the last one. */
  ghost predicate ReadsAppended(all: seq<string>, lines: seq<string>, changes: seq<Entry>, applied: seq<bool>,
                                key: string)
    requires |applied| == |changes|
  {
    && (forall i :: 0 <= i < |changes| && changes[i].key == key && !applied[i] ==>
          Lookup(all, key) == Some(changes[i].value) && Occurrences(all, key) == Occurrences(lines, key) + 1)
    && ((forall i :: 0 <= i < |changes| ==> changes[i].key != key || applied[i]) ==>
          Lookup(all, key) == Lookup(lines, key) && Occurrences(all, key) == Occurrences(lines, key))
    && ParseLines(all).skipped == ParseLines(lines).skipped
  }

  lemma {:induction false} AppendEffect(lines: seq<string>, changes: seq<Entry>, applied: seq<bool>, key: string)
    requires CleanChanges(changes) && |applied| == |changes|
    ensures ReadsAppended(lines + Appended(changes, applied), lines, changes, applied, key)
    decreases |changes|
  {
    hide ReadsAppended, Written;
    if changes == [] {
      assert lines + [] == lines;
      NothingAppended(lines, key);
    } else {
      var n := |changes| - 1;
      AppendEffect(lines, changes[..n], applied[..n], key);
      var before := lines + Appended(changes[..n], applied[..n]);
      assert lines + Appended(changes, applied) == if applied[n] then before else before + [Written(changes[n])];
      AppendStep(before, lines, changes, applied, key);
    }
  }

  lemma NothingAppended(lines: seq<string>, key: string)
    ensures ReadsAppended(lines, lines, [], [], key)
  {
  }

  lemma AppendStep(before: seq<string>, lines: seq<string>, changes: seq<Entry>, applied: seq<bool>, key: string)
    requires CleanChanges(changes) && |applied| == |changes| > 0
    requires ReadsAppended(before, lines, changes[..|changes| - 1], applied[..|changes| - 1], key)
    ensures var n := |changes| - 1;
            ReadsAppended(if applied[n] then before else before + [Written(changes[n])], lines, changes, applied, key)
  {
    hide LineKey, MeaningOf, Written, Lookup, Occurrences, ParseLines;
    var n := |changes| - 1;
    assert forall i :: 0 <= i < n ==> changes[..n][i] == changes[i] && applied[..n][i] == applied[i];
    assert Clean(changes[n]);
    WrittenReadsBack(changes[n]);
    LookupSnoc(before, Written(changes[n]), key);
  }

  /** What a key reads as after saving: the new value, unless its line is hidden behind a duplicate. */
  function AfterSave(lines: seq<string>, changes: seq<Entry>, key: string): Option<string> {
    if NewValue(changes, key).None? || Occurrences(lines, key) > 1 then Lookup(lines, key) else NewValue(changes, key)
  }

  lemma NewLinesEffect(lines: seq<string>, changes: seq<Entry>, key: string)
    requires CleanChanges(changes)
    ensures var all := NewLines(lines, changes);
            && Lookup(all, key) == AfterSave(lines, changes, key)
            && Occurrences(all, key) ==
                 (if NewValue(changes, key).Some? && Occurrences(lines, key) == 0 then 1 else Occurrences(lines, key))
            && ParseLines(all).skipped == ParseLines(lines).skipped
  {
    hide LineKey, MeaningOf, Written, Rewrite, Lookup, Occurrences, ParseLines, Appended;
    var none := NoneApplied(changes);
    assert none == seq(|changes|, _ => false);
    var r := Rewrite(lines, changes, none);
    RewriteEffect(lines, changes, key);
    RewriteUses(lines, changes);
    AppendEffect(r.lines, changes, r.applied, key);
    if NewValue(changes, key).Some? {
      var i :| 0 <= i < |changes| && changes[i] == Entry(key, NewValue(changes, key).value);
      assert r.applied[i] <==> Occurrences(lines, key) > 0;
    }
  }

  // ---------------------------------------------------------------- text and lines

  predicate OneLiners(lines: seq<string>) {
    forall i :: 0 <= i < |lines| ==> '\n' !in lines[i]
  }

  function StripAll(lines: seq<string>): (r: seq<string>)
    ensures |r| == |lines| && forall i :: 0 <= i < |r| ==> r[i] == StripCr(lines[i])
  {
    seq(|lines|, i requires 0 <= i < |lines| => StripCr(lines[i]))
  }

  /** Every line with its line feed. */
  function Ended(lines: seq<string>): string {
    if lines == [] then "" else Ended(lines[..|lines| - 1]) + lines[|lines| - 1] + "\n"
  }

  lemma {:induction false} JoinEnded(lines: seq<string>)
    requires lines != []
    ensures Join(lines) + "\n" == Ended(lines)
  {
    if |lines| == 1 {
      assert Ended(lines[..0]) == "";
    } else {
      JoinEnded(lines[..|lines| - 1]);
      assert Join(lines) + "\n" == (Join(lines[..|lines| - 1]) + "\n") + lines[|lines| - 1] + "\n";
    }
  }

  lemma {:induction false} JoinEmpty(lines: seq<string>)
    ensures Join(lines) == "" <==> lines == [] || lines == [""]
  {
    if |lines| == 1 {
    } else if |lines| > 1 {
      assert Join(lines)[|Join(lines[..|lines| - 1])|] == '\n';
    }
  }

  lemma {:induction false} LinesSkipFirst(first: string, rest: string)
    requires '\n' !in first
    ensures Lines(first + "\n" + rest) == [StripCr(first)] + Lines(rest)
  {
    var t := first + "\n" + rest;
    assert forall k :: 0 <= k < |first| ==> t[k] == first[k] && first[k] in first;
    IndexOfIs(t, '\n', |first|);
    assert t[..|first|] == first && t[|first| + 1..] == rest;
  }

  lemma NothingEnded(rest: string)
    ensures Ended([]) + rest == rest && StripAll([]) + Lines(rest) == Lines(rest)
  {
    hide Lines;
  }

  lemma {:induction false} LinesOfEnded(lines: seq<string>, rest: string)
    requires OneLiners(lines)
    ensures Lines(Ended(lines) + rest) == StripAll(lines) + Lines(rest)
    decreases |lines|
  {
    if lines == [] {
      NothingEnded(rest);
    } else {
      hide Lines, StripCr, Ended, StripAll;
      var n := |lines| - 1;
      EndedSnoc(lines, rest);
      LinesOfEnded(lines[..n], lines[n] + "\n" + rest);
      LinesSkipFirst(lines[n], rest);
      StripAllSnoc(lines, Lines(rest));
    }
  }

  lemma StripAllSnoc(lines: seq<string>, rest: seq<string>)
    requires lines != []
    ensures StripAll(lines) + rest == StripAll(lines[..|lines| - 1]) + ([StripCr(lines[|lines| - 1])] + rest)
  {
    hide StripCr;
  }

  lemma EndedSnoc(lines: seq<string>, rest: string)
    requires lines != []
    ensures Ended(lines) + rest == Ended(lines[..|lines| - 1]) + (lines[|lines| - 1] + "\n" + rest)
  {
    AppendGroups(Ended(lines[..|lines| - 1]), lines[|lines| - 1], "\n", rest);
  }

  lemma AppendGroups(a: string, b: string, c: string, d: string)
    ensures a + b + c + d == a + (b + c + d)
  {
  }

  /** A rendered list of lines reads as those lines, but for carriage returns at their ends. */
  lemma LinesOfRender(lines: seq<string>)
    requires OneLiners(lines)
    ensures Join(lines) != "" ==> Lines(Render(lines)) == StripAll(lines)
    ensures Join(lines) == "" ==> Lines(Render(lines)) == [] && (lines == [] || lines == [""])
  {
    JoinEmpty(lines);
    if Join(lines) != "" {
      JoinEnded(lines);
      LinesOfEnded(lines, "");
      assert Ended(lines) + "" == Ended(lines);
      assert StripAll(lines) + [] == StripAll(lines);
    }
  }

  lemma {:induction false} LinesAreOneLiners(text: string)
    ensures OneLiners(Lines(text))
    decreases |text|
  {
    if text != "" {
      var i := IndexOf(text, '\n');
      if i < |text| {
        LinesAreOneLiners(text[i + 1..]);
        assert forall c :: c in StripCr(text[..i]) ==> c in text[..i];
      }
    }
  }

  /** Only the trimmed line is looked at. */
  lemma SameTrim(a: string, b: string)
    requires Trim(a) == Trim(b)
    ensures MeaningOf(a) == MeaningOf(b) && LineKey(a) == LineKey(b)
  {
    hide Trim, IndexOf, IsValidKey;
  }

  lemma StripCrMeans(line: string)
    ensures MeaningOf(StripCr(line)) == MeaningOf(line) && LineKey(StripCr(line)) == LineKey(line)
  {
    hide MeaningOf, LineKey, Trim;
    if line != "" && line[|line| - 1] == '\r' {
      assert line == StripCr(line) + ['\r'];
      TrimSpaceAfter(StripCr(line), '\r');
      SameTrim(line, StripCr(line));
    }
  }

  /** The same lines define `key`, the last one with the same value, and the same lines are skipped. */
  ghost predicate ReadsSame(a: seq<string>, b: seq<string>, key: string) {
    |a| == |b| && Lookup(a, key) == Lookup(b, key) && Occurrences(a, key) == Occurrences(b, key)
    && ParseLines(a).skipped == ParseLines(b).skipped
  }

  lemma {:induction false} StripAllEffect(lines: seq<string>, key: string)
    ensures ReadsSame(StripAll(lines), lines, key)
  {
    hide ReadsSame, StripCr;
    if lines != [] {
      var n := |lines| - 1;
      StripAllEffect(lines[..n], key);
      assert StripAll(lines) == StripAll(lines[..n]) + [StripCr(lines[n])];
      assert lines == lines[..n] + [lines[n]];
      StripStep(StripAll(lines[..n]), lines[..n], lines[n], key);
    } else {
      assert StripAll(lines) == [];
      NothingReadsSame(key);
    }
  }

  lemma NothingReadsSame(key: string)
    ensures ReadsSame([], [], key)
  {
  }

  lemma StripStep(a: seq<string>, b: seq<string>, line: string, key: string)
    requires ReadsSame(a, b, key)
    ensures ReadsSame(a + [StripCr(line)], b + [line], key)
  {
    hide LineKey, MeaningOf, StripCr, Lookup, Occurrences, ParseLines;
    StripCrMeans(line);
    LookupSnoc(a, StripCr(line), key);
    LookupSnoc(b, line, key);
  }

  lemma {:induction false} RewriteOneLiners(lines: seq<string>, changes: seq<Entry>, applied: seq<bool>)
    requires OneLiners(lines) && CleanChanges(changes) && |applied| == |changes|
    ensures OneLiners(Rewrite(lines, changes, applied).lines)
  {
    if lines != [] {
      RewriteOneLiners(lines[..|lines| - 1], changes, applied);
      forall i | 0 <= i < |changes|
        ensures '\n' !in Written(changes[i])
      {
        assert Clean(changes[i]);
        WrittenTrims(changes[i]);
      }
      hide LineKey, Written;
    }
  }

  lemma {:induction false} AppendedOneLiners(changes: seq<Entry>, applied: seq<bool>)
    requires CleanChanges(changes) && |applied| == |changes|
    ensures OneLiners(Appended(changes, applied))
    ensures forall i :: 0 <= i < |Appended(changes, applied)| ==>
              StripCr(Appended(changes, applied)[i]) == Appended(changes, applied)[i]
  {
    if changes != [] {
      var n := |changes| - 1;
      assert forall i :: 0 <= i < n ==> changes[..n][i] == changes[i];
      AppendedOneLiners(changes[..n], applied[..n]);
      assert Clean(changes[n]);
      WrittenTrims(changes[n]);
    }
  }

  lemma NewLinesOneLiners(text: string, changes: seq<Entry>)
    requires CleanChanges(changes)
    ensures OneLiners(NewLines(Lines(text), changes))
  {
    var none := NoneApplied(changes);
    assert none == seq(|changes|, _ => false);
    LinesAreOneLiners(text);
    RewriteOneLiners(Lines(text), changes, none);
    AppendedOneLiners(changes, Rewrite(Lines(text), changes, none).applied);
  }

  // ---------------------------------------------------------------- the theorems

  /** The saved file, read line by line, for any key: also when some key is defined twice. */
  lemma SavedLines(text: string, changes: seq<Entry>, key: string)
    requires CleanChanges(changes)
    ensures var lines, after := Lines(text), Lines(Save(text, changes));
            && Lookup(after, key) == AfterSave(lines, changes, key)
            && Occurrences(after, key) ==
                 (if NewValue(changes, key).Some? && Occurrences(lines, key) == 0 then 1 else Occurrences(lines, key))
            && ParseLines(after).skipped == ParseLines(lines).skipped
  {
    hide LineKey, MeaningOf, NewLines, Lines, Render, AfterSave;
    var all := NewLines(Lines(text), changes);
    NewLinesEffect(Lines(text), changes, key);
    NewLinesOneLiners(text, changes);
    LinesOfRender(all);
    if Join(all) != "" {
      StripAllEffect(all, key);
    } else {
      BlankLine(key);
    }
  }

  lemma BlankLine(key: string)
    ensures MeaningOf("") == Ignored && LineKey("") == None
    ensures Lookup([""], key) == None && Occurrences([""], key) == 0 && ParseLines([""]).skipped == []
  {
    assert [""][..0] == [];
  }

  /**
   * Saving changes, each of them to a key on at most one line, and reading the file
   * back gives the old settings updated by the changes, with the same lines skipped.
   */
  lemma SaveThenParse(text: string, changes: seq<Entry>, key: string)
    requires CleanChanges(changes)
    requires NewValue(changes, key).Some? ==> Occurrences(Lines(text), key) <= 1
    ensures var before, after := Parse(text), Parse(Save(text, changes));
            && Find(after.pairs, key) ==
                 (if NewValue(changes, key).Some? then NewValue(changes, key) else Find(before.pairs, key))
            && after.skipped == before.skipped
  {
    SavedLines(text, changes, key);
    ParseIsLookup(Lines(text), key);
    ParseIsLookup(Lines(Save(text, changes)), key);
  }

  /**
   * Exactly when a saved value is read back: the key is on at most one line, or its
   * last line already had that value.
   */
  lemma SavedValueReadIff(text: string, changes: seq<Entry>, i: nat)
    requires CleanChanges(changes) && i < |changes|
    ensures Find(Parse(Save(text, changes)).pairs, changes[i].key) == Some(changes[i].value) <==>
              || Occurrences(Lines(text), changes[i].key) <= 1
              || Find(Parse(text).pairs, changes[i].key) == Some(changes[i].value)
  {
    var key := changes[i].key;
    NewValueAt(changes, i);
    SavedLines(text, changes, key);
    ParseIsLookup(Lines(text), key);
    ParseIsLookup(Lines(Save(text, changes)), key);
  }

  /** For instance: any key on two lines keeps reading as its second value, whatever is saved. */
  lemma DuplicateHidesSave(first: Entry, second: Entry, change: Entry)
    requires Clean(first) && Clean(second) && Clean(change)
    requires first.key == second.key == change.key && second.value != change.value
    ensures var text := Written(first) + "\n" + Written(second) + "\n";
            Find(Parse(Save(text, [change])).pairs, change.key) == Some(second.value)
  {
    hide Written, MeaningOf, LineKey, Lines, Lookup, Occurrences, ParseLines, Save, Find, NewValue;
    var text := Written(first) + "\n" + Written(second) + "\n";
    TwoLines(first, second);
    NewValueAt([change], 0);
    SavedLines(text, [change], change.key);
    ParseIsLookup(Lines(Save(text, [change])), change.key);
  }

  lemma TwoLines(first: Entry, second: Entry)
    requires Clean(first) && Clean(second) && first.key == second.key
    ensures var lines := Lines(Written(first) + "\n" + Written(second) + "\n");
            Occurrences(lines, first.key) == 2 && Lookup(lines, first.key) == Some(second.value)
  {
    hide Written, MeaningOf, LineKey, Lines;
    var a, b := Written(first), Written(second);
    WrittenReadsBack(first);
    WrittenReadsBack(second);
    LinesOfTwo(a, b);
    LookupSnoc([], a, first.key);
    LookupSnoc([] + [a], b, first.key);
    assert [] + [a] + [b] == [a, b];
  }

  lemma LinesOfTwo(a: string, b: string)
    requires '\n' !in a && '\n' !in b && StripCr(a) == a && StripCr(b) == b
    ensures Lines(a + "\n" + b + "\n") == [a, b]
  {
    hide Lines;
    assert a + "\n" + b + "\n" == a + "\n" + (b + "\n" + "");
    LinesSkipFirst(a, b + "\n" + "");
    LinesSkipFirst(b, "");
    LinesOfNothing();
  }

  lemma LinesOfNothing()
    ensures Lines("") == []
  {
  }

  /** Two saves of different keys, one after the other: both changes survive. */
  lemma BothSavesSurvive(text: string, ours: seq<Entry>, theirs: seq<Entry>, key: string)
    requires CleanChanges(ours) && CleanChanges(theirs)
    requires NewValue(ours, key).None? || NewValue(theirs, key).None?
    requires Occurrences(Lines(text), key) <= 1
    ensures var after := Parse(Save(Save(text, ours), theirs));
            && Find(after.pairs, key) ==
                 (if NewValue(ours, key).Some? then NewValue(ours, key)
                  else if NewValue(theirs, key).Some? then NewValue(theirs, key)
                  else Find(Parse(text).pairs, key))
            && after.skipped == Parse(text).skipped
  {
    SavedLines(text, ours, key);
    SavedLines(Save(text, ours), theirs, key);
    ParseIsLookup(Lines(text), key);
    ParseIsLookup(Lines(Save(Save(text, ours), theirs)), key);
  }

  // ---------------------------------------------------------------- untouched lines

  lemma {:induction false} RewriteAt(lines: seq<string>, changes: seq<Entry>, i: nat)
    requires CleanChanges(changes) && i < |lines|
    ensures Rewrite(lines, changes, NoneApplied(changes)).lines[i] == RewrittenLine(lines[..i], lines[i], changes)
  {
    hide LineKey, Written;
    var front := lines[..|lines| - 1];
    RewriteUses(front, changes);
    RewriteOne(lines, changes);
    if i < |lines| - 1 {
      assert front[..i] == lines[..i];
      RewriteAt(front, changes, i);
    }
  }

  /**
   * Line by line: every existing line keeps its place, and its content too unless it is
   * the first to define a changed key; what is added comes after all of them.
   */
  lemma LinesKeepTheirPlace(text: string, changes: seq<Entry>, i: nat)
    requires CleanChanges(changes) && i < |Lines(text)| && Save(text, changes) != ""
    ensures var lines, after := Lines(text), Lines(Save(text, changes));
            && |lines| <= |after|
            && after[i] == StripCr(RewrittenLine(lines[..i], lines[i], changes))
  {
    hide LineKey, Written, Lines, Render, Rewrite, Appended;
    var none := NoneApplied(changes);
    assert none == seq(|changes|, _ => false);
    var lines, all := Lines(text), NewLines(Lines(text), changes);
    NewLinesOneLiners(text, changes);
    LinesOfRender(all);
    RenderEmpty(all);
    RewriteAt(lines, changes, i);
    assert all[i] == Rewrite(lines, changes, none).lines[i];
  }

  lemma RenderEmpty(lines: seq<string>)
    ensures Render(lines) == "" <==> Join(lines) == ""
  {
  }

  // ---------------------------------------------------------------- saving twice

  /** The line at `i` is the first to define a changed key, and so is written anew. */
  predicate Replaced(lines: seq<string>, changes: seq<Entry>, i: nat)
    requires i < |lines|
  {
    LineKey(lines[i]).Some? && NewValue(changes, LineKey(lines[i]).value).Some?
    && Occurrences(lines[..i], LineKey(lines[i]).value) == 0
  }

  predicate EndsInCr(line: string) {
    line != "" && line[|line| - 1] == '\r'
  }

  lemma {:induction false} OccurrencesPrefix(a: seq<string>, b: seq<string>, key: string)
    requires |a| == |b| && forall i :: 0 <= i < |a| ==> LineKey(a[i]) == LineKey(b[i])
    ensures Occurrences(a, key) == Occurrences(b, key)
  {
    if a != [] {
      OccurrencesPrefix(a[..|a| - 1], b[..|b| - 1], key);
    }
  }

  /** Lines that already are what the changes would make of them are left as they are. */
  lemma {:induction false} RewriteSettled(lines: seq<string>, changes: seq<Entry>)
    requires CleanChanges(changes)
    requires forall i :: 0 <= i < |lines| ==> RewrittenLine(lines[..i], lines[i], changes) == lines[i]
    ensures Rewrite(lines, changes, NoneApplied(changes)).lines == lines
  {
    var r := Rewrite(lines, changes, NoneApplied(changes)).lines;
    forall i | 0 <= i < |lines|
      ensures r[i] == lines[i]
    {
      RewriteAt(lines, changes, i);
    }
  }

  lemma {:induction false} NothingToAppend(changes: seq<Entry>, applied: seq<bool>)
    requires |applied| == |changes| && forall i :: 0 <= i < |changes| ==> applied[i]
    ensures Appended(changes, applied) == []
  {
    if changes != [] {
      NothingToAppend(changes[..|changes| - 1], applied[..|changes| - 1]);
    }
  }

  /** In saved lines, the first line of each changed key is already the written one. */
  lemma SavedLineSettled(lines: seq<string>, changes: seq<Entry>, saved: seq<string>, i: nat)
    requires CleanChanges(changes) && saved == StripAll(NewLines(lines, changes)) && i < |saved|
    ensures RewrittenLine(saved[..i], saved[i], changes) == saved[i]
  {
    var none := NoneApplied(changes);
    assert none == seq(|changes|, _ => false);
    var r := Rewrite(lines, changes, none);
    var all := NewLines(lines, changes);
    hide LineKey, Written, Rewrite, Occurrences, StripCr;
    if i < |lines| {
      RewriteAt(lines, changes, i);
      assert all[i] == r.lines[i];
      RewrittenLineMeans(lines[..i], lines[i], changes);
      StripCrMeans(all[i]);
      if LineKey(saved[i]).Some? && NewValue(changes, LineKey(saved[i]).value).Some? {
        var k := LineKey(saved[i]).value;
        SameKeysBefore(lines, changes, saved, i, k);
        ReplacedIsStripped(changes, k);
      }
    } else {
      AppendedLine(lines, changes, saved, i);
    }
  }

  lemma ReplacedIsStripped(changes: seq<Entry>, key: string)
    requires CleanChanges(changes) && NewValue(changes, key).Some?
    ensures StripCr(Written(Entry(key, NewValue(changes, key).value)))
              == Written(Entry(key, NewValue(changes, key).value))
  {
    var i :| 0 <= i < |changes| && changes[i] == Entry(key, NewValue(changes, key).value);
    assert Clean(changes[i]);
    WrittenTrims(changes[i]);
  }

  /** Saving changes no existing line's key. */
  lemma SameKeysBefore(lines: seq<string>, changes: seq<Entry>, saved: seq<string>, i: nat, key: string)
    requires CleanChanges(changes) && saved == StripAll(NewLines(lines, changes)) && i <= |lines| <= |saved|
    ensures Occurrences(saved[..i], key) == Occurrences(lines[..i], key)
  {
    hide LineKey, Written, Occurrences, Rewrite;
    var none := NoneApplied(changes);
    assert none == seq(|changes|, _ => false);
    var all := NewLines(lines, changes);
    forall j | 0 <= j < i
      ensures LineKey(saved[..i][j]) == LineKey(lines[..i][j])
    {
      RewriteAt(lines, changes, j);
      assert all[j] == Rewrite(lines, changes, none).lines[j];
      RewrittenLineMeans(lines[..j], lines[j], changes);
      StripCrMeans(all[j]);
    }
    OccurrencesPrefix(saved[..i], lines[..i], key);
  }

  lemma {:induction false} AppendedIs(changes: seq<Entry>, applied: seq<bool>, j: nat) returns (k: nat)
    requires |applied| == |changes| && j < |Appended(changes, applied)|
    ensures k < |changes| && !applied[k] && Appended(changes, applied)[j] == Written(changes[k])
  {
    var n := |changes| - 1;
    if j < |Appended(changes[..n], applied[..n])| {
      k := AppendedIs(changes[..n], applied[..n], j);
    } else {
      k := n;
    }
  }

  lemma AppendedLine(lines: seq<string>, changes: seq<Entry>, saved: seq<string>, i: nat)
    requires CleanChanges(changes) && saved == StripAll(NewLines(lines, changes)) && |lines| <= i < |saved|
    ensures RewrittenLine(saved[..i], saved[i], changes) == saved[i]
  {
    hide LineKey, Written, Occurrences, Rewrite;
    var none := NoneApplied(changes);
    assert none == seq(|changes|, _ => false);
    var r := Rewrite(lines, changes, none);
    var all := NewLines(lines, changes);
    var k := AppendedIs(changes, r.applied, i - |lines|);
    assert all[i] == Written(changes[k]);
    assert Clean(changes[k]);
    WrittenReadsBack(changes[k]);
    NewValueAt(changes, k);
  }

  /** After a save every changed key has a line. */
  lemma AllUsed(lines: seq<string>, changes: seq<Entry>, saved: seq<string>)
    requires CleanChanges(changes) && saved == StripAll(NewLines(lines, changes))
    ensures NewLines(saved, changes) == Rewrite(saved, changes, NoneApplied(changes)).lines
  {
    hide LineKey, Written, Rewrite, Occurrences;
    var none := NoneApplied(changes);
    assert none == seq(|changes|, _ => false);
    RewriteUses(saved, changes);
    forall i | 0 <= i < |changes|
      ensures Occurrences(saved, changes[i].key) > 0
    {
      NewLinesEffect(lines, changes, changes[i].key);
      StripAllEffect(NewLines(lines, changes), changes[i].key);
      NewValueAt(changes, i);
    }
    var r := Rewrite(saved, changes, none);
    NothingToAppend(changes, r.applied);
    assert r.lines + [] == r.lines;
  }

  /** The second save writes the lines as the first one's file is read. */
  lemma SecondSave(text: string, changes: seq<Entry>)
    requires CleanChanges(changes)
    ensures var all := NewLines(Lines(text), changes);
            Save(Save(text, changes), changes) == if Join(all) == "" then Save(text, changes) else Render(StripAll(all))
  {
    hide LineKey, Written, Rewrite, Lines, Render, Occurrences;
    var lines, all := Lines(text), NewLines(Lines(text), changes);
    NewLinesOneLiners(text, changes);
    LinesOfRender(all);
    if Join(all) != "" {
      var saved := StripAll(all);
      forall i | 0 <= i < |saved|
        ensures RewrittenLine(saved[..i], saved[i], changes) == saved[i]
      {
        SavedLineSettled(lines, changes, saved, i);
      }
      RewriteSettled(saved, changes);
      AllUsed(lines, changes, saved);
    } else {
      NoChanges(lines, changes);
    }
  }

  lemma NoChanges(lines: seq<string>, changes: seq<Entry>)
    requires CleanChanges(changes) && Join(NewLines(lines, changes)) == ""
    ensures Save(Render(NewLines(lines, changes)), changes) == Render(NewLines(lines, changes))
  {
    hide NewLines, Lines;
    SomethingWritten(lines, changes);
    LinesOfNothing();
    NoChangesAtAll();
  }

  lemma NoChangesAtAll()
    ensures Save("", []) == ""
  {
  }

  /** Any change at all makes a line. */
  lemma SomethingWritten(lines: seq<string>, changes: seq<Entry>)
    requires CleanChanges(changes)
    ensures changes != [] ==> Join(NewLines(lines, changes)) != ""
  {
    hide NewLines, LineKey, MeaningOf, Join;
    if changes != [] {
      var key := changes[0].key;
      NewLinesEffect(lines, changes, key);
      NewValueAt(changes, 0);
      BlankLine(key);
      JoinEmpty(NewLines(lines, changes));
    }
  }

  lemma StripCrShrinks(line: string)
    ensures |StripCr(line)| == |line| - if EndsInCr(line) then 1 else 0
  {
  }

  lemma {:induction false} EndedShrinks(lines: seq<string>)
    ensures |Ended(StripAll(lines))| <= |Ended(lines)|
    ensures (exists i :: 0 <= i < |lines| && EndsInCr(lines[i])) ==> |Ended(StripAll(lines))| < |Ended(lines)|
  {
    if lines != [] {
      hide EndsInCr, StripCr;
      var n := |lines| - 1;
      EndedShrinks(lines[..n]);
      StripCrShrinks(lines[n]);
      assert StripAll(lines)[..n] == StripAll(lines[..n]);
      if exists i :: 0 <= i < |lines| && EndsInCr(lines[i]) {
        var i :| 0 <= i < |lines| && EndsInCr(lines[i]);
        assert i < n ==> lines[..n][i] == lines[i];
      }
    }
  }

  /**
   * Saving the same changes again changes nothing, exactly when every existing line that
   * ends in a carriage return is one that is written anew. (A carriage return is left at
   * the end of a line only by a doubled one, or one at the end of an unfinished last line.)
   */
  lemma SaveIsIdempotentIff(text: string, changes: seq<Entry>)
    requires CleanChanges(changes)
    ensures Save(Save(text, changes), changes) == Save(text, changes) <==>
              forall i :: 0 <= i < |Lines(text)| && EndsInCr(Lines(text)[i]) ==> Replaced(Lines(text), changes, i)
  {
    hide LineKey, Written, Rewrite, Lines, Occurrences;
    var lines, all := Lines(text), NewLines(Lines(text), changes);
    SecondSave(text, changes);
    CarriageReturns(lines, changes);
    JoinEmpty(all);
    if Join(all) != "" {
      RenderStripped(all);
    } else if all == [""] {
      assert !EndsInCr(all[0]);
    }
  }

  lemma RenderStripped(all: seq<string>)
    requires Join(all) != ""
    ensures Render(StripAll(all)) == Render(all) <==> forall i :: 0 <= i < |all| ==> !EndsInCr(all[i])
  {
    JoinEnded(all);
    EndedShrinks(all);
    JoinEmpty(all);
    JoinEmpty(StripAll(all));
    if forall i :: 0 <= i < |all| ==> !EndsInCr(all[i]) {
      assert StripAll(all) == all;
    } else {
      JoinEnded(StripAll(all));
    }
  }

  /** The lines written that end in a carriage return are the kept ones that did. */
  lemma CarriageReturns(lines: seq<string>, changes: seq<Entry>)
    requires CleanChanges(changes)
    ensures var all := NewLines(lines, changes);
            (forall i :: 0 <= i < |all| ==> !EndsInCr(all[i])) <==>
              forall i :: 0 <= i < |lines| && EndsInCr(lines[i]) ==> Replaced(lines, changes, i)
  {
    hide LineKey, Written, Rewrite, Occurrences, Appended;
    var none := NoneApplied(changes);
    assert none == seq(|changes|, _ => false);
    var r := Rewrite(lines, changes, none);
    var all := NewLines(lines, changes);
    AppendedOneLiners(changes, r.applied);
    forall i | 0 <= i < |lines|
      ensures EndsInCr(all[i]) <==> EndsInCr(lines[i]) && !Replaced(lines, changes, i)
    {
      RewriteAt(lines, changes, i);
      assert all[i] == r.lines[i];
      if Replaced(lines, changes, i) {
        ReplacedIsStripped(changes, LineKey(lines[i]).value);
      }
    }
    forall i | |lines| <= i < |all|
      ensures !EndsInCr(all[i])
    {
      assert all[i] == Appended(changes, r.applied)[i - |lines|];
    }
  }
}
