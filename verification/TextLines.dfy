/** Lines and words of a text, as `str::lines` and `str::split_whitespace` deliver them. */
module TextLines {
  import opened Wrappers
  import opened Text

  const WHITESPACE: set<char> := set c: char | IsWhitespace(c)

  predicate IsFilled(s: string) { s != "" }

  function NonEmpty(parts: seq<string>): seq<string> { Filter(IsFilled, parts) }

  lemma NothingSplit(seps: set<char>)
    ensures NonEmpty(Split("", seps)) == []
  {
    assert Split("", seps) == [""] && [""][1..] == [];
  }

  function Words(s: string): seq<string> { NonEmpty(Split(s, WHITESPACE)) }

  function WithoutCr(line: string): string { StripSuffix(line, "\r").GetOr(line) }

  /** Each terminated piece loses a carriage return; a last piece counts if it is not empty. */
  function Lines(s: string): seq<string> { LinesOf(Split(s, {'\n'})) }

  function LinesOf(pieces: seq<string>): seq<string>
    requires pieces != []
  {
    if |pieces| == 1 then NonEmpty(pieces) else [WithoutCr(pieces[0])] + LinesOf(pieces[1..])
  }

  /** A line ends before a line feed, or before a carriage return in front of one. */
  lemma LineBreaks(line: string, rest: string)
    requires FreeOf(line, {'\n'})
    ensures Lines(line + "\r" + ['\n'] + rest) == [line] + Lines(rest)
    ensures (line == "" || line[|line| - 1] != '\r') ==> Lines(line + ['\n'] + rest) == [line] + Lines(rest)
  {
    var cr := line + "\r";
    SplitFree(line, {'\n'});
    SplitFree(cr, {'\n'});
    SplitAt(line, '\n', rest, {'\n'});
    SplitAt(cr, '\n', rest, {'\n'});
    assert WithoutCr(cr) == line;
    FirstPiece(line, Split(rest, {'\n'}));
    FirstPiece(cr, Split(rest, {'\n'}));
  }

  /** What stands behind the last line feed is a line unless it is empty. */
  lemma LastPiece(line: string)
    requires FreeOf(line, {'\n'})
    ensures Lines(line) == if line == "" then [] else [line]
  {
    SplitFree(line, {'\n'});
    assert [line][1..] == [] && NonEmpty([line]) == (if line == "" then [] else [line]) + NonEmpty([line][1..]);
  }

  lemma FirstPiece(piece: string, pieces: seq<string>)
    requires pieces != []
    ensures LinesOf([piece] + pieces) == [WithoutCr(piece)] + LinesOf(pieces)
  {
    assert ([piece] + pieces)[1..] == pieces;
  }

  /** A word neither is empty nor holds white space. */
  ghost predicate IsWord(s: string) { s != "" && FreeOf(s, WHITESPACE) }

  ghost predicate AreWords(words: seq<string>) { forall w :: w in words ==> IsWord(w) }

  lemma WordsAreWords(s: string)
    ensures AreWords(Words(s))
  {
    SplitPiecesFree(s, WHITESPACE);
    FilterMembers(IsFilled, Split(s, WHITESPACE));
  }

  /** Words joined with single spaces are read back. */
  lemma WordsJoin(words: seq<string>)
    requires words != [] && AreWords(words)
    ensures Words(Join(words, " ")) == words
  {
    assert IsWhitespace(' ');
    SplitJoinFree(words, ' ', WHITESPACE);
    FilterKeeps(IsFilled, words);
  }

  lemma DecimalIsWord(n: nat)
    ensures IsWord(Decimal(n))
  {
    var s := Decimal(n);
    forall i | 0 <= i < |s| ensures s[i] !in WHITESPACE { assert IsDigit(s[i]); }
  }

  lemma TrimFixed(s: string)
    requires s != "" && !IsWhitespace(s[0]) && !IsWhitespace(s[|s| - 1])
    ensures Trim(s) == s
  {
  }

  /** A text that begins and ends with a word, such as words joined with spaces. */
  ghost predicate IsTight(s: string) { s != "" && s[0] !in WHITESPACE && s[|s| - 1] !in WHITESPACE }

  lemma TightTrim(s: string)
    requires IsTight(s)
    ensures Trim(s) == s && WithoutCr(s) == s
  {
    assert IsWhitespace('\r');
    TrimFixed(s);
  }

  lemma WordIsTight(w: string)
    requires IsWord(w)
    ensures IsTight(w)
  {
  }

  lemma {:induction false} JoinIsTight(words: seq<string>)
    requires words != [] && AreWords(words)
    ensures IsTight(Join(words, " "))
  {
    assert words[0] in words;
    if |words| > 1 {
      assert forall w :: w in words[1..] ==> w in words;
      JoinIsTight(words[1..]);
      var rest := Join(words[1..], " ");
      assert Join(words, " ") == words[0] + " " + rest;
    }
  }

  /** Lines that are tight and hold no line feed are read back. */
  lemma {:induction false} LinesOfTight(lines: seq<string>)
    requires lines != [] && forall l :: l in lines ==> IsTight(l)
    ensures LinesOf(lines) == lines
  {
    assert lines[0] in lines;
    if |lines| == 1 {
      FilterKeeps(IsFilled, lines);
    } else {
      assert forall l :: l in lines[1..] ==> l in lines;
      LinesOfTight(lines[1..]);
      TightTrim(lines[0]);
    }
  }

  lemma LinesJoin(lines: seq<string>)
    requires lines != [] && forall l :: l in lines ==> IsTight(l) && FreeOf(l, {'\n'})
    ensures Lines(Join(lines, "\n")) == lines
  {
    SplitJoinFree(lines, '\n', {'\n'});
    LinesOfTight(lines);
  }

  /** Words joined with spaces hold no line feed. */
  lemma WordsHoldNoLineFeed(words: seq<string>)
    requires AreWords(words)
    ensures FreeOf(Join(words, " "), {'\n'})
  {
    assert IsWhitespace('\n');
    forall w | w in words ensures FreeOf(w, {'\n'}) { assert IsWord(w); }
    JoinFree(words, " ", {'\n'});
  }
}
