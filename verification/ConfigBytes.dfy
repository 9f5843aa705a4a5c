/**
 * What saving does to the bytes of the file: exactly which lines keep theirs, and exactly
 * which files a save without changes leaves alone.
 */
module ConfigBytes {
  import opened Wrappers
  import Bytes
  import opened ConfigFile
  import opened ConfigRoundTrip

  // ---------------------------------------------------------------- lines with their ends

  /** The lines of a text, each with the line feed that ends it, if one does. */
  function RawLines(text: string): seq<string>
    decreases |text|
  {
    if text == "" then []
    else
      var i := IndexOf(text, '\n');
      if i == |text| then [text] else [text[..i + 1]] + RawLines(text[i + 1..])
  }

  function Concatenated(parts: seq<string>): string {
    if parts == [] then "" else parts[0] + Concatenated(parts[1..])
  }

  lemma FirstPart(first: string, parts: seq<string>)
    ensures Concatenated([first] + parts) == first + Concatenated(parts)
  {
    assert ([first] + parts)[1..] == parts;
  }

  /** Nothing of the text is outside its lines. */
  lemma {:induction false} RawLinesAreAll(text: string)
    ensures Concatenated(RawLines(text)) == text
    decreases |text|
  {
    hide Concatenated;
    NoParts();
    if text != "" {
      var i := IndexOf(text, '\n');
      if i < |text| {
        RawLinesAreAll(text[i + 1..]);
        FirstPart(text[..i + 1], RawLines(text[i + 1..]));
      } else {
        FirstPart(text, []);
        assert [text] + [] == [text] && text + "" == text;
      }
    }
  }

  lemma NoParts()
    ensures Concatenated([]) == ""
  {
  }

  predicate EndsInLf(s: string) {
    s != "" && s[|s| - 1] == '\n'
  }

  predicate EndsInCrLf(s: string) {
    |s| >= 2 && s[|s| - 2] == '\r' && s[|s| - 1] == '\n'
  }

  /** What reading makes of a line with its end: it drops a line feed, and a carriage return before it. */
  function Read(raw: string): string {
    if EndsInLf(raw) then StripCr(raw[..|raw| - 1]) else raw
  }

  lemma {:induction false} LineOfRaw(text: string, i: nat)
    ensures |RawLines(text)| == |Lines(text)|
    ensures i < |Lines(text)| ==> Lines(text)[i] == Read(RawLines(text)[i])
    decreases |text|
  {
    hide Read, StripCr;
    if text != "" {
      var at := IndexOf(text, '\n');
      ReadFirst(text);
      if at < |text| {
        LineOfRaw(text[at + 1..], if i > 0 then i - 1 else 0);
      }
    }
  }

  lemma ReadFirst(text: string)
    requires text != ""
    ensures var at := IndexOf(text, '\n');
            if at == |text| then Read(text) == text else Read(text[..at + 1]) == StripCr(text[..at])
  {
    hide StripCr;
    var at := IndexOf(text, '\n');
    if at < |text| {
      assert text[..at + 1][..at] == text[..at];
    }
  }

  function WithLf(lines: seq<string>): (r: seq<string>)
    ensures |r| == |lines| && forall i :: 0 <= i < |r| ==> r[i] == lines[i] + "\n"
  {
    seq(|lines|, i requires 0 <= i < |lines| => lines[i] + "\n")
  }

  lemma RawSkipFirst(first: string, rest: string)
    requires '\n' !in first
    ensures RawLines(first + "\n" + rest) == [first + "\n"] + RawLines(rest)
  {
    var t := first + "\n" + rest;
    assert forall k :: 0 <= k < |first| ==> t[k] == first[k] && first[k] in first;
    IndexOfIs(t, '\n', |first|);
    assert t[..|first| + 1] == first + "\n" && t[|first| + 1..] == rest;
  }

  lemma WithLfSnoc(lines: seq<string>)
    requires lines != []
    ensures var n := |lines| - 1;
            WithLf(lines) == WithLf(lines[..n]) + [lines[n] + "\n"]
  {
  }

  lemma {:induction false} RawOfEnded(lines: seq<string>, rest: string)
    requires OneLiners(lines)
    ensures RawLines(Ended(lines) + rest) == WithLf(lines) + RawLines(rest)
    decreases |lines|
  {
    hide RawLines;
    if lines == [] {
      assert Ended([]) + rest == rest && WithLf([]) + RawLines(rest) == RawLines(rest);
    } else {
      hide Ended, IndexOf;
      var n := |lines| - 1;
      EndedSnoc(lines, rest);
      RawOfEnded(lines[..n], lines[n] + "\n" + rest);
      RawSkipFirst(lines[n], rest);
      WithLfSnoc(lines);
      Bytes.Assoc(WithLf(lines[..n]), [lines[n] + "\n"], RawLines(rest));
    }
  }

  /** The saved file is the new lines, each with a line feed, or nothing at all. */
  lemma RawOfSaved(text: string, changes: seq<Entry>)
    requires CleanChanges(changes)
    ensures var all := NewLines(Lines(text), changes);
            RawLines(Save(text, changes)) == if all == [] || all == [""] then [] else WithLf(all)
  {
    hide NewLines, Lines, RawLines, Join;
    var all := NewLines(Lines(text), changes);
    NewLinesOneLiners(text, changes);
    JoinEmpty(all);
    NoRawLines();
    if all != [] && all != [""] {
      JoinEnded(all);
      RawOfEnded(all, "");
      assert Ended(all) + "" == Ended(all) && WithLf(all) + [] == WithLf(all);
    }
  }

  lemma NoRawLines()
    ensures RawLines("") == []
  {
  }

  // ---------------------------------------------------------------- a line of the file

  /** A line that is not written anew stands unchanged among the new lines. */
  lemma KeptLine(lines: seq<string>, changes: seq<Entry>, i: nat)
    requires CleanChanges(changes) && i < |lines| && !Replaced(lines, changes, i)
    ensures |NewLines(lines, changes)| >= |lines| && NewLines(lines, changes)[i] == lines[i]
  {
    hide LineKey, Written, Rewrite, Appended;
    assert NoneApplied(changes) == seq(|changes|, _ => false);
    RewriteAt(lines, changes, i);
  }

  lemma OneBlankLine(text: string, changes: seq<Entry>)
    requires CleanChanges(changes) && |Lines(text)| > 0
    ensures NewLines(Lines(text), changes) == [""] ==> changes == [] && Lines(text) == [""]
  {
    hide Lines, NewLines, LineKey;
    var lines := Lines(text);
    SomethingWritten(lines, changes);
    JoinEmpty(NewLines(lines, changes));
    if NewLines(lines, changes) == [""] {
      NoneReplaced(lines);
      KeptLine(lines, [], 0);
      SameCount(lines);
    }
  }

  lemma SameCount(lines: seq<string>)
    ensures |NewLines(lines, [])| == |lines|
  {
  }

  lemma NoneReplaced(lines: seq<string>)
    ensures CleanChanges([])
    ensures forall i :: 0 <= i < |lines| ==> !Replaced(lines, [], i)
  {
  }

  /**
   * Byte for byte: a line that is not written anew keeps its bytes, its end included,
   * exactly when it ends in a line feed without a carriage return before it, and it is not
   * the only line, blank, of a file saved without changes.
   */
  lemma LineKeepsItsBytesIff(text: string, changes: seq<Entry>, i: nat)
    requires CleanChanges(changes) && i < |Lines(text)| && !Replaced(Lines(text), changes, i)
    ensures |RawLines(text)| == |Lines(text)|
    ensures var before, after := RawLines(text), RawLines(Save(text, changes));
            i < |after| && after[i] == before[i] <==>
              EndsInLf(before[i]) && !EndsInCrLf(before[i]) && !(before == ["\n"] && changes == [])
  {
    hide Lines, NewLines, RawLines, Save, LineKey, Replaced;
    var lines, all := Lines(text), NewLines(Lines(text), changes);
    LineOfRaw(text, i);
    RawOfSaved(text, changes);
    KeptLine(lines, changes, i);
    OneBlankLine(text, changes);
    SameText(RawLines(text)[i], lines[i]);
    LineOfRaw(text, 0);
    SameCount(lines);
    ReadBlank();
  }

  lemma ReadBlank()
    ensures Read("\n") == ""
  {
    assert "\n"[..0] == "";
  }

  lemma SameText(raw: string, line: string)
    requires line == Read(raw)
    ensures line + "\n" == raw <==> EndsInLf(raw) && !EndsInCrLf(raw)
    ensures line == "" && raw != "" ==> raw == "\n" || EndsInCrLf(raw)
  {
    if EndsInLf(raw) {
      assert raw == raw[..|raw| - 1] + "\n";
      if EndsInCrLf(raw) {
        assert |line + "\n"| == |raw| - 1;
      }
    }
  }

  // ---------------------------------------------------------------- a whole file

  /** No line feed has a carriage return before it. */
  predicate NoCrLf(text: string) {
    forall i :: 0 < i < |text| && text[i] == '\n' ==> text[i - 1] != '\r'
  }

  lemma EndedFirst(line: string, lines: seq<string>)
    ensures Ended([line] + lines) == line + "\n" + Ended(lines)
    decreases |lines|
  {
    var all := [line] + lines;
    if lines == [] {
      assert all == [line] && [line][..0] == [];
      assert Ended([line]) == "" + line + "\n";
    } else {
      var n := |lines| - 1;
      EndedFirst(line, lines[..n]);
      assert all[..|all| - 1] == [line] + lines[..n];
    }
  }

  /** Ending every line in a line feed gives the text back, exactly for these texts. */
  lemma {:induction false} EndedLinesIff(text: string)
    ensures Ended(Lines(text)) == text <==> text == "" || (EndsInLf(text) && NoCrLf(text))
    decreases |text|
  {
    hide Ended;
    NothingEnded("");
    assert Ended([]) + "" == Ended([]);
    if text != "" {
      var at := IndexOf(text, '\n');
      if at == |text| {
        EndedFirst(text, []);
        assert [text] + [] == [text] && |text + "\n" + ""| == |text| + 1;
      } else {
        var first, rest := text[..at], text[at + 1..];
        assert text == first + "\n" + rest;
        EndedFirst(StripCr(first), Lines(rest));
        EndedLinesIff(rest);
        FirstLineIff(first, rest, Ended(Lines(rest)));
      }
    }
  }

  lemma FirstLineIff(first: string, rest: string, ended: string)
    requires '\n' !in first
    requires ended == rest <==> rest == "" || (EndsInLf(rest) && NoCrLf(rest))
    ensures var text := first + "\n" + rest;
            StripCr(first) + "\n" + ended == text <==> EndsInLf(text) && NoCrLf(text)
  {
    var text := first + "\n" + rest;
    var n := |first|;
    if StripCr(first) != first {
      assert text[n - 1] == '\r' && text[n] == '\n';
      assert (StripCr(first) + "\n" + ended)[n - 1] == '\n';
    } else {
      assert (first + "\n" + ended)[n + 1..] == ended && text[n + 1..] == rest;
      assert forall i :: 0 <= i < |rest| ==> text[n + 1 + i] == rest[i];
      NoCrLfAfter(first, rest);
    }
  }

  lemma NoCrLfAfter(first: string, rest: string)
    requires '\n' !in first && StripCr(first) == first
    ensures NoCrLf(first + "\n" + rest) <==> NoCrLf(rest)
  {
    var text, n := first + "\n" + rest, |first|;
    if NoCrLf(text) {
      forall i | 0 < i < |rest| && rest[i] == '\n'
        ensures rest[i - 1] != '\r'
      {
        assert text[n + 1 + i] == rest[i] && text[n + i] == rest[i - 1];
      }
    }
    if NoCrLf(rest) {
      assert forall i :: 0 <= i < n ==> text[i] == first[i] && first[i] in first;
      forall i | 0 < i < |text| && text[i] == '\n'
        ensures text[i - 1] != '\r'
      {
        if i > n + 1 {
          assert text[i] == rest[i - n - 1] && text[i - 1] == rest[i - n - 2];
        }
      }
    }
  }

  lemma SavedNothing(text: string)
    ensures Save(text, []) == if Lines(text) == [] || Lines(text) == [""] then "" else Ended(Lines(text))
  {
    hide Lines, LineKey, Join;
    var lines := Lines(text);
    NoneReplaced(lines);
    SameCount(lines);
    forall i: nat | i < |lines|
      ensures NewLines(lines, [])[i] == lines[i]
    {
      KeptLine(lines, [], i);
    }
    assert NewLines(lines, []) == lines;
    JoinEmpty(lines);
    if lines != [] {
      JoinEnded(lines);
    }
  }

  /**
   * Saving no changes leaves a file as it is exactly when it is empty, or ends in a line
   * feed, has no carriage return before one, and is more than a lone blank line.
   */
  lemma SavingNothingKeepsIff(text: string)
    ensures Save(text, []) == text <==> text == "" || (EndsInLf(text) && NoCrLf(text) && text != "\n")
  {
    hide Save, Lines, Ended, NoCrLf;
    SavedNothing(text);
    EndedLinesIff(text);
    BlankTextIff(text);
  }

  lemma BlankTextIff(text: string)
    ensures Lines(text) == [] <==> text == ""
    ensures Lines(text) == [""] ==> text == "\n" || (EndsInLf(text) && !NoCrLf(text))
    ensures text == "\n" ==> Lines(text) == [""]
  {
    if text == "\n" {
      LinesSkipFirst("", "");
      LinesOfNothing();
      assert "" + "\n" + "" == "\n";
    }
    if Lines(text) == [""] {
      LineOfRaw(text, 0);
      RawLinesAreAll(text);
      var raw := RawLines(text)[0];
      assert RawLines(text) == [raw] && [raw][1..] == [];
      assert Concatenated([raw]) == raw + "";
      SameText(raw, "");
      if EndsInCrLf(text) {
        assert text[|text| - 1] == '\n' && text[|text| - 2] == '\r';
      }
    }
  }

  /** For instance: a carriage return before the line feed goes, and so does a lone blank line. */
  lemma BytesLost()
    ensures Save("#\r\n", []) == "#\n" && Save("\n", []) == ""
  {
    hide Save, Lines, Ended;
    SavedNothing("#\r\n");
    SavedNothing("\n");
    OneCrLfLine();
    BlankTextIff("\n");
  }

  lemma OneCrLfLine()
    ensures Lines("#\r\n") == ["#"] && Ended(["#"]) == "#\n"
  {
    hide Lines;
    LinesSkipFirst("#\r", "");
    LinesOfNothing();
    assert "#\r" + "\n" + "" == "#\r\n" && StripCr("#\r") == "#";
    EndedFirst("#", []);
    assert ["#"] + [] == ["#"] && Ended([]) == "";
  }

  /** And a second save is not always idle: an unfinished last line that ends in a carriage return. */
  lemma SecondSaveDiffers()
    ensures Save("a\r", []) == "a\r\n" && Save(Save("a\r", []), []) == "a\n"
  {
    hide Save;
    SavedNothing("a\r");
    SavedNothing("a\r\n");
    LinesSkipFirst("a\r", "");
    LinesOfNothing();
    assert "a\r" + "\n" + "" == "a\r\n";
    assert Lines("a\r") == ["a\r"];
    EndedFirst("a\r", []);
    EndedFirst("a", []);
    assert Ended([]) == "" && ["a\r"] + [] == ["a\r"] && ["a"] + [] == ["a"];
  }

  /** A new setting is written with a space on either side of the equals sign. */
  lemma NewSettingWritten(key: string, value: string)
    requires Clean(Entry(key, value))
    ensures Save("", [Entry(key, value)]) == key + " = " + value + "\n"
  {
    hide IsValidKey;
    var c := Entry(key, value);
    var none: seq<bool> := seq(1, _ => false);
    assert none == [false] && [c][..0] == [] && [false][..0] == [];
    assert Lines("") == [];
    assert Appended([c], [false]) == [Written(c)];
    assert NewLines([], [c]) == [Written(c)];
    assert Written(c) == key + " = " + value;
  }
}
