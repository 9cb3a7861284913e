/** Turning the language model's reply into niche suggestions (backend/api/niche_routes.py):
    the reply text loses its carriage returns, is split at newlines, each piece is stripped
    of surrounding whitespace, and blank pieces are dropped. The reply itself is an input. */
module NicheSuggestions {
  import opened Seqs

  /** Python's `str.isspace` for one character. */
  predicate IsSpace(c: char) {
    ('\t' <= c <= '\r') || ('\U{1C}' <= c <= '\U{1F}') || c == ' ' || c == '\U{85}' || c == '\U{A0}'
    || c == '\U{1680}' || ('\U{2000}' <= c <= '\U{200A}') || c == '\U{2028}' || c == '\U{2029}'
    || c == '\U{202F}' || c == '\U{205F}' || c == '\U{3000}'
  }

  /** `text.replace("\r", "")`. */
  function RemoveCarriageReturns(text: string): (r: string)
    ensures '\r' !in r
    ensures forall c :: c in r ==> c in text
    ensures forall c :: c != '\r' ==> multiset(r)[c] == multiset(text)[c]
    ensures IsSubsequence(r, text)
  {
    FilterIsSubsequence(text, c => c != '\r');
    forall c | c != '\r' ensures multiset(Filter(text, c => c != '\r'))[c] == multiset(text)[c] {
      FilterKeepsAccepted(text, c => c != '\r', c);
    }
    Filter(text, c => c != '\r')
  }

  /** `s.split("\n")`: the pieces between newlines, none containing a newline; joining
      them with newlines gives `s` back. */
  function SplitLines(s: string): (pieces: seq<string>)
    ensures |pieces| >= 1
    ensures forall i :: 0 <= i < |pieces| ==> '\n' !in pieces[i]
    ensures Join(pieces, "\n") == s
    decreases |s|
  {
    if s == [] then [""]
    else
      var rest := SplitLines(s[1..]);
      if s[0] == '\n' then
        assert ([""] + rest)[1..] == rest;
        [""] + rest
      else
        var pieces := [[s[0]] + rest[0]] + rest[1..];
        assert pieces[1..] == rest[1..];
        assert |rest| > 1 ==> Join(rest, "\n") == rest[0] + "\n" + Join(rest[1..], "\n");
        pieces
  }

  /** Every character of a piece occurs in the joined text. */
  lemma {:induction false} JoinContainsPieces(items: seq<string>, sep: string, i: nat, c: char)
    requires i < |items| && c in items[i]
    ensures c in Join(items, sep)
    decreases |items|
  {
    if i > 0 {
      JoinContainsPieces(items[1..], sep, i - 1, c);
    }
  }

  /** Joining `n` newline-free pieces with newlines puts `n - 1` newlines in the text. */
  lemma {:induction false} JoinCountsSeparators(items: seq<string>)
    requires |items| >= 1
    requires forall i :: 0 <= i < |items| ==> '\n' !in items[i]
    ensures multiset(Join(items, "\n"))['\n'] == |items| - 1
    decreases |items|
  {
    if |items| > 1 {
      JoinCountsSeparators(items[1..]);
      assert multiset(items[0])['\n'] == 0;
    } else {
      assert multiset(items[0])['\n'] == 0;
    }
  }

  /** `s.split("\n")` has one piece more than `s` has newlines, and its pieces are made of
      characters of `s`. */
  lemma SplitLinesFacts(s: string)
    ensures |SplitLines(s)| == multiset(s)['\n'] + 1
    ensures forall i, c :: 0 <= i < |SplitLines(s)| && c in SplitLines(s)[i] ==> c in s
  {
    JoinCountsSeparators(SplitLines(s));
    forall i, c | 0 <= i < |SplitLines(s)| && c in SplitLines(s)[i] ensures c in s {
      JoinContainsPieces(SplitLines(s), "\n", i, c);
    }
  }

  /** The index of the first non-whitespace character of `s` at or after `i`, or `|s|`. */
  function SkipSpace(s: string, i: nat): (k: nat)
    requires i <= |s|
    ensures i <= k <= |s| && (k == |s| || !IsSpace(s[k]))
    ensures forall j :: i <= j < k ==> IsSpace(s[j])
    decreases |s| - i
  {
    if i == |s| || !IsSpace(s[i]) then i else SkipSpace(s, i + 1)
  }

  /** The index just past the last non-whitespace character of `s` before `i`, or 0. */
  function SkipSpaceBack(s: string, i: nat): (k: nat)
    requires i <= |s|
    ensures k <= i && (k == 0 || !IsSpace(s[k - 1]))
    ensures forall j :: k <= j < i ==> IsSpace(s[j])
  {
    if i == 0 || !IsSpace(s[i - 1]) then i else SkipSpaceBack(s, i - 1)
  }

  /** `r` is the slice of `s` at `i`, with only whitespace before and after it. */
  predicate StrippedAt(s: string, i: int, r: string) {
    0 <= i <= |s| - |r| && s[i..i + |r|] == r
    && (forall j :: 0 <= j < i ==> IsSpace(s[j]))
    && (forall j :: i + |r| <= j < |s| ==> IsSpace(s[j]))
  }

  /** `s` neither starts nor ends with whitespace. */
  predicate NoOuterSpace(s: string) {
    s == [] || (!IsSpace(s[0]) && !IsSpace(s[|s| - 1]))
  }

  /** Every character of `s` is whitespace (vacuously so for the empty string). */
  predicate Blank(s: string) {
    forall i :: 0 <= i < |s| ==> IsSpace(s[i])
  }

  /** `s.strip()`: `s` without its leading and trailing whitespace. */
  function Strip(s: string): (r: string)
    ensures NoOuterSpace(r)
    ensures r == [] <==> Blank(s)
  {
    var start := SkipSpace(s, 0);
    if start == |s| then [] else s[start..SkipSpaceBack(s, |s|)]
  }

  /** What `Strip` keeps is one contiguous slice of `s`, with only whitespace around it. */
  lemma StripIsSlice(s: string) returns (i: nat)
    ensures StrippedAt(s, i, Strip(s))
  {
    i := SkipSpace(s, 0);
  }

  /** Each piece stripped, position by position. */
  function StripEach(pieces: seq<string>): (r: seq<string>)
    ensures |r| == |pieces| && forall i :: 0 <= i < |r| ==> r[i] == Strip(pieces[i])
    ensures forall i :: 0 <= i < |r| ==> NoOuterSpace(r[i])
  {
    seq(|pieces|, i requires 0 <= i < |pieces| => Strip(pieces[i]))
  }

  /** The pieces of the reply the comprehension walks over. */
  function Lines(text: string): seq<string> {
    SplitLines(RemoveCarriageReturns(text))
  }


  /** `[s.strip() for s in text.replace("\r", "").split("\n") if s.strip()]`: the stripped
      lines that are not blank, in the order of their lines. */
  function ParseSuggestions(text: string): (r: seq<string>)
    ensures forall i :: 0 <= i < |r| ==> r[i] != ""
    ensures IsSubsequence(r, StripEach(Lines(text)))
    ensures |r| <= |Lines(text)|
    ensures forall i :: 0 <= i < |r| ==> NoOuterSpace(r[i])
    ensures forall s :: s != "" ==> multiset(r)[s] == multiset(StripEach(Lines(text)))[s]
  {
    var stripped := StripEach(Lines(text));
    FilterIsSubsequence(stripped, NotEmpty);
    FilterPreserves(stripped, NotEmpty, NoOuterSpace);
    forall s | s != "" ensures multiset(Filter(stripped, NotEmpty))[s] == multiset(stripped)[s] {
      FilterKeepsAccepted(stripped, NotEmpty, s);
    }
    Filter(stripped, NotEmpty)
  }

  /** Each suggestion is the stripped form of one line of the reply. */
  lemma SuggestionComesFromLine(text: string, i: nat) returns (k: nat)
    requires i < |ParseSuggestions(text)|
    ensures k < |Lines(text)| && ParseSuggestions(text)[i] == Strip(Lines(text)[k])
  {
    var r := ParseSuggestions(text);
    assert r[i] in r;
    k := PositionOf(StripEach(Lines(text)), r[i]);
  }

  /** No suggestion contains a line break (`\n` or `\r`). */
  lemma SuggestionsHaveNoLineBreaks(text: string)
    ensures forall i :: 0 <= i < |ParseSuggestions(text)| ==>
              '\n' !in ParseSuggestions(text)[i] && '\r' !in ParseSuggestions(text)[i]
  {
    SplitLinesFacts(RemoveCarriageReturns(text));
    forall i | 0 <= i < |ParseSuggestions(text)|
      ensures '\n' !in ParseSuggestions(text)[i] && '\r' !in ParseSuggestions(text)[i]
    {
      var k := SuggestionComesFromLine(text, i);
      assert '\n' !in Lines(text)[k];
      assert '\r' !in Lines(text)[k];
    }
  }

  /** There are never more suggestions than newline-separated pieces: newlines plus one. */
  lemma SuggestionCountBound(text: string)
    ensures |ParseSuggestions(text)| <= |Lines(text)| == multiset(text)['\n'] + 1
  {
    SplitLinesFacts(RemoveCarriageReturns(text));
  }

  /** A string made of characters of a blank string is blank. */
  lemma BlankFromBlank(t: string, s: string)
    requires Blank(s)
    requires forall c :: c in t ==> c in s
    ensures Blank(t)
  {
    forall j | 0 <= j < |t| ensures IsSpace(t[j]) {
      var m := PositionOf(s, t[j]);
    }
  }

  /** Text made only of whitespace (or empty) yields no suggestion. */
  lemma BlankTextGivesNothing(text: string)
    requires Blank(text)
    ensures ParseSuggestions(text) == []
  {
    if ParseSuggestions(text) != [] {
      var k := SuggestionComesFromLine(text, 0);
      SplitLinesFacts(RemoveCarriageReturns(text));
      var line := Lines(text)[k];
      assert forall c :: c in line ==> c in RemoveCarriageReturns(text);
      BlankFromBlank(line, text);
    }
  }

  /** Text without line breaks is one suggestion, its stripped self, whatever commas it has. */
  lemma SingleLineIsOneSuggestion(text: string)
    requires '\n' !in text && '\r' !in text
    requires Strip(text) != ""
    ensures ParseSuggestions(text) == [Strip(text)]
  {
    var t := RemoveCarriageReturns(text);
    FilterAllAccepted(text, c => c != '\r');
    assert t == text;
    assert |Lines(text)| == 1;
    assert Join(Lines(text), "\n") == Lines(text)[0];
    assert StripEach(Lines(text)) == [Strip(text)];
  }

  /** `text` with every `\r\n` pair replaced by `\n`. */
  function NormaliseLineEndings(text: string): (r: string)
    ensures |r| <= |text|
    decreases |text|
  {
    if |text| >= 2 && text[0] == '\r' && text[1] == '\n' then "\n" + NormaliseLineEndings(text[2..])
    else if text == [] then []
    else [text[0]] + NormaliseLineEndings(text[1..])
  }

  /** Removing carriage returns forgets whether line endings were `\r\n` or `\n`. */
  lemma {:induction false} RemoveCarriageReturnsIgnoresLineEndings(text: string)
    ensures RemoveCarriageReturns(NormaliseLineEndings(text)) == RemoveCarriageReturns(text)
    decreases |text|
  {
    if |text| >= 2 && text[0] == '\r' && text[1] == '\n' {
      RemoveCarriageReturnsIgnoresLineEndings(text[2..]);
      FilterAppend("\n", NormaliseLineEndings(text[2..]), c => c != '\r');
      assert text == "\r\n" + text[2..];
      FilterAppend("\r\n", text[2..], c => c != '\r');
    } else if text != [] {
      RemoveCarriageReturnsIgnoresLineEndings(text[1..]);
      FilterAppend([text[0]], NormaliseLineEndings(text[1..]), c => c != '\r');
      assert text == [text[0]] + text[1..];
      FilterAppend([text[0]], text[1..], c => c != '\r');
    }
  }

  /** Writing the reply with `\r\n` line endings instead of `\n` changes no suggestion. */
  lemma LineEndingsDoNotMatter(text: string)
    ensures ParseSuggestions(NormaliseLineEndings(text)) == ParseSuggestions(text)
  {
    RemoveCarriageReturnsIgnoresLineEndings(text);
  }
}
