/**
 * Comma-separated options of a header value, told from its octets alone, and the proof
 * that the parser of response.rs finds `close` among them exactly when it is there.
 */
module HttpOptions {
  import opened Bytes
  import opened HttpResponse

  // ---------------------------------------------------------------- the options

  /** The text is this lower-case word, each letter of it small or capital. */
  predicate Spells(text: seq<byte>, word: string) {
    |text| == |word| && forall i :: 0 <= i < |word| ==> IsLetter(text[i], word[i])
  }

  predicate IsLetter(b: byte, letter: char) {
    b == letter as int || ('a' <= letter <= 'z' && b == letter as int - 32)
  }

  predicate IsPadding(s: seq<byte>) {
    forall i :: 0 <= i < |s| ==> s[i] == 32 || s[i] == 9
  }

  /** The word stands, padded, between two commas or ends of the value. */
  predicate ListedAt(value: seq<byte>, word: string, before: seq<byte>, lead: seq<byte>, text: seq<byte>,
                     trail: seq<byte>, after: seq<byte>) {
    && value == before + (lead + text + trail) + after
    && (before != [] ==> before[|before| - 1] == 44) && (after != [] ==> after[0] == 44)
    && IsPadding(lead) && IsPadding(trail) && Spells(text, word)
  }

  ghost predicate Lists(value: seq<byte>, word: string) {
    exists before, lead, text, trail, after :: ListedAt(value, word, before, lead, text, trail, after)
  }

  // ---------------------------------------------------------------- trimming, backwards

  lemma {:induction false} TrimOwsDrops(s: seq<byte>) returns (lead: seq<byte>, trail: seq<byte>)
    ensures AllOws(lead) && AllOws(trail) && s == lead + TrimOws(s) + trail
    decreases |s|
  {
    lead, trail := [], [];
    if s != [] && IsOws(s[0]) {
      lead, trail := TrimOwsDrops(s[1..]);
      lead := [s[0]] + lead;
    } else if s != [] && IsOws(s[|s| - 1]) {
      lead, trail := TrimOwsDrops(s[..|s| - 1]);
      trail := trail + [s[|s| - 1]];
    }
  }

  // ---------------------------------------------------------------- splitting

  /** Each piece of a split stands between two separators or ends. */
  lemma {:induction false} PieceStands(s: seq<byte>, i: nat) returns (before: seq<byte>, after: seq<byte>)
    requires i < |SplitOn(s, COMMA)|
    ensures s == before + SplitOn(s, COMMA)[i] + after
    ensures (before != [] ==> before[|before| - 1] == COMMA) && (after != [] ==> after[0] == COMMA)
    decreases |s|
  {
    var at := IndexOf(s, COMMA, 0, |s|);
    if i == 0 {
      before, after := [], s[at..];
      assert s == [] + s[..at] + s[at..];
    } else {
      before, after := PieceStands(s[at + 1..], i - 1);
      Further(s, at, before, SplitOn(s[at + 1..], COMMA)[i - 1], after);
      before := s[..at + 1] + before;
    }
  }

  lemma Further(s: seq<byte>, at: nat, before: seq<byte>, p: seq<byte>, after: seq<byte>)
    requires at < |s| && s[at] == COMMA && s[at + 1..] == before + p + after
    requires before != [] ==> before[|before| - 1] == COMMA
    ensures var front := s[..at + 1] + before;
            s == front + p + after && front != [] && front[|front| - 1] == COMMA
  {
    assert s == s[..at + 1] + s[at + 1..];
  }

  /** And what stands so without a separator in it is a piece. */
  lemma {:induction false} StandsAsPiece(before: seq<byte>, p: seq<byte>, after: seq<byte>) returns (i: nat)
    requires (before != [] ==> before[|before| - 1] == COMMA) && (after != [] ==> after[0] == COMMA)
    requires COMMA !in p
    ensures var pieces := SplitOn(before + p + after, COMMA);
            i < |pieces| && pieces[i] == p
    decreases |before|
  {
    var s := before + p + after;
    var at := IndexOf(s, COMMA, 0, |s|);
    if before == [] {
      i := 0;
      FirstPiece(p, after);
    } else {
      var n := |before| - 1;
      assert s[n] == COMMA;
      assert s[at + 1..] == before[at + 1..] + p + after;
      i := StandsAsPiece(before[at + 1..], p, after);
      i := i + 1;
    }
  }

  lemma FirstPiece(p: seq<byte>, after: seq<byte>)
    requires COMMA !in p && (after != [] ==> after[0] == COMMA)
    ensures SplitOn([] + p + after, COMMA)[0] == p
  {
    var s := [] + p + after;
    var at := IndexOf(s, COMMA, 0, |s|);
    assert forall k :: 0 <= k < |p| ==> s[k] == p[k] && p[k] in p;
    assert s[..|p|] == p;
    if after != [] {
      assert s[|p|] == COMMA && at == |p|;
    } else {
      assert at == |s| == |p|;
    }
  }

  // ---------------------------------------------------------------- spelling

  predicate IsWord(word: string) {
    word != "" && forall i :: 0 <= i < |word| ==> 'a' <= word[i] <= 'z' || word[i] == '-'
  }

  lemma SpellsIff(text: seq<byte>, word: string)
    requires IsWord(word)
    ensures Spells(text, word) <==> SameIgnoringCase(text, Ascii(word))
  {
    var w := Ascii(word);
    assert forall i :: 0 <= i < |word| ==> w[i] == word[i] as int;
    if |text| == |word| {
      forall i | 0 <= i < |word|
        ensures IsLetter(text[i], word[i]) <==> Lower(text[i]) == Lower(w[i])
      {
      }
    }
  }

  /** A word has no comma in it, nor a space or tab at its ends. */
  lemma WordStands(text: seq<byte>, word: string)
    requires IsWord(word) && Spells(text, word)
    ensures COMMA !in text && Trimmed(text)
  {
    assert forall i :: 0 <= i < |text| ==> IsLetter(text[i], word[i]);
  }

  // ---------------------------------------------------------------- the parser

  lemma CloseIsWord()
    ensures IsWord("close") && CLOSE == Ascii("close")
  {
  }

  /** The parser finds the option exactly where the value lists it. */
  lemma NamesCloseIff(value: seq<byte>)
    ensures NamesClose(value) <==> Lists(value, "close")
  {
    hide SplitOn, TrimOws, Spells, SameIgnoringCase, Ascii, Trimmed;
    CloseIsWord();
    var pieces := SplitOn(value, COMMA);
    if NamesClose(value) {
      var i :| 0 <= i < |pieces| && SameIgnoringCase(TrimOws(pieces[i]), CLOSE);
      var before, after := PieceStands(value, i);
      var lead, trail := TrimOwsDrops(pieces[i]);
      SpellsIff(TrimOws(pieces[i]), "close");
      assert ListedAt(value, "close", before, lead, TrimOws(pieces[i]), trail, after);
    }
    if Lists(value, "close") {
      var before, lead, text, trail, after :| ListedAt(value, "close", before, lead, text, trail, after);
      WordStands(text, "close");
      assert COMMA !in lead && COMMA !in trail;
      var i := StandsAsPiece(before, lead + text + trail, after);
      TrimUndoesPadding(lead, text, trail);
      SpellsIff(text, "close");
      assert SameIgnoringCase(TrimOws(pieces[i]), CLOSE);
    }
  }
}
