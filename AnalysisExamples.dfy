/**
 * The analysis applied to small files of simple shapes: an empty file, one
 * line holding two words (as "hello world"), one word on each line (as
 * "a\nb\nc\n"). A plain word here is non-empty and made of code units above
 * U+0020, so it holds neither `\s`, nor a terminator, nor a control character.
 */
module AnalysisExamples {
  import opened JavaText
  import opened LineReader
  import opened FileSizeCalculator

  predicate IsPlainWord(w: JString) {
    w != [] && forall k :: 0 <= k < |w| ==> !IsTrimmable(w[k])
  }

  /** An empty file: no lines, no words, no characters, average 0, shown as 0 KB. */
  lemma EmptyFile()
    ensures Analysis(0, []) == Stats(0, FileSize(0.0, KB), 0, 0, 0, 0.0, [])
  {
    assert Trim([]) == [];
  }

  /**
   * One line of two words separated by a space, without a terminator: one
   * line, two words, the characters of both, and the first word as the
   * longest unless the second is strictly longer.
   */
  lemma OneLineTwoWords(bytes: nat, w1: JString, w2: JString)
    requires IsPlainWord(w1) && IsPlainWord(w2)
    ensures var st := Analysis(bytes, w1 + [Space] + w2);
            && st.lineCount == 1
            && Words(Content(w1 + [Space] + w2)) == [w1, w2]
            && st.wordCount == 2
            && st.charCount == |w1| + |w2|
            && st.avgWordLength * 2.0 == (|w1| + |w2|) as real
            && st.longestWord == if |w2| > |w1| then w2 else w1
  {
    TwoWordsOfOneLine(w1, w2);
    PairOfWords(w1, w2);
  }

  /** The line, words and remaining characters of one line holding two plain words. */
  lemma TwoWordsOfOneLine(w1: JString, w2: JString)
    requires IsPlainWord(w1) && IsPlainWord(w2)
    ensures var text := w1 + [Space] + w2;
            && |ReadLines(text)| == 1
            && Words(Content(text)) == [w1, w2]
            && RemoveSpaces(Content(text)) == Concat([w1, w2])
  {
    var text := w1 + [Space] + w2;
    assert NoTerminator(text) by {
      assert forall k :: 0 <= k < |text| ==> text[k] == Space || !IsTrimmable(text[k]);
    }
    UnterminatedLastLine([], [], text);
    assert Terminated([], []) + text == text;
    assert ReadLines(text) == [text];
    assert Joined([text]) == [] + text + [Space];
    TrimOfPadded([], text, [Space]);
    assert Content(text) == text;
    SplitOfTrimmed(text);
    TokensOfSeparated(w1, w2);
    TokensOfWord(w1);
    TokensOfWord(w2);
    PairIsDisplay(w1, w2);
    RemoveSpacesIsConcatOfTokens(text);
  }

  /** The concatenation and the longest of two words. */
  lemma PairOfWords(w1: JString, w2: JString)
    ensures Concat([w1, w2]) == w1 + w2
    ensures Longest([w1, w2]) == if |w2| > |w1| then w2 else w1
  {
    assert [w1, w2][1..] == [w2];
    assert [w2][1..] == [];
    assert Concat([w2]) == w2 + Concat([]);
    assert Concat([w1, w2]) == w1 + Concat([w2]);
    assert [w1, w2][..1] == [w1];
    assert [w1][..0] == [];
    assert Longest([w1]) == w1;
  }

  /**
   * One plain word on each line, each line ended by any terminator: one
   * line per word, the words are exactly those lines, and the character
   * count is their total length.
   */
  lemma OneWordPerLine(bytes: nat, ws: seq<JString>, ends: seq<LineEnd>)
    requires ws != [] && |ends| == |ws| && forall i :: 0 <= i < |ws| ==> IsPlainWord(ws[i])
    ensures var st := Analysis(bytes, Terminated(ws, ends));
            && st.lineCount == |ws|
            && Words(Content(Terminated(ws, ends))) == ws
            && st.wordCount == |ws|
            && st.charCount == TotalLength(ws)
  {
    var content := Content(Terminated(ws, ends));
    WordLinesContent(ws, ends);
    WordsOfTrimmed(Joined(ws));
    TokensBeforeSpace(content);
    WordsOfJoined(ws);
    LineWordsOfWords(ws);
    RemoveSpacesIsConcatOfTokens(content);
    ConcatLength(ws);
  }

  /** The lines of plain words are read back, and the content is their joined text without its last space. */
  lemma WordLinesContent(ws: seq<JString>, ends: seq<LineEnd>)
    requires ws != [] && |ends| == |ws| && forall i :: 0 <= i < |ws| ==> IsPlainWord(ws[i])
    ensures ReadLines(Terminated(ws, ends)) == ws
    ensures Content(Terminated(ws, ends)) + [Space] == Joined(ws)
  {
    assert forall i :: 0 <= i < |ws| ==> NoTerminator(ws[i]) && ws[i] != [];
    ReadLinesRoundTrip(ws, ends);
    TrimOfJoinedWords(ws);
  }

  /** Trimming the joined lines of plain words drops exactly the last space. */
  lemma TrimOfJoinedWords(ws: seq<JString>)
    requires ws != [] && forall i :: 0 <= i < |ws| ==> IsPlainWord(ws[i])
    ensures Trim(Joined(ws)) + [Space] == Joined(ws)
  {
    JoinedEndsWithSpace(ws);
    TrimOfSpaceEnded(Joined(ws));
  }

  /** Trimming text that ends in one space after a visible code unit drops that space. */
  lemma TrimOfSpaceEnded(s: JString)
    requires |s| >= 2 && s[|s| - 1] == Space
    requires !IsTrimmable(s[0]) && !IsTrimmable(s[|s| - 2])
    ensures Trim(s) + [Space] == s
  {
    var body := s[..|s| - 1];
    assert s == [] + body + [Space];
    TrimOfPadded([], body, [Space]);
  }

  /** A space after the last word adds no word. */
  lemma TokensBeforeSpace(s: JString)
    ensures Tokens(s + [Space]) == Tokens(s)
  {
    TokensOfSeparated(s, []);
    assert s + [Space] + [] == s + [Space];
    assert Tokens([]) == [];
  }

  /** The joined lines of plain words begin with a code unit above U+0020 and end with one before the last space. */
  lemma {:induction false} JoinedEndsWithSpace(ws: seq<JString>)
    requires ws != [] && forall i :: 0 <= i < |ws| ==> IsPlainWord(ws[i])
    ensures var j := Joined(ws);
            && |j| >= 2 && j[|j| - 1] == Space
            && !IsTrimmable(j[0]) && !IsTrimmable(j[|j| - 2])
  {
    var j := Joined(ws);
    assert j == ws[0] + [Space] + Joined(ws[1..]);
    assert j[0] == ws[0][0];
    if |ws| == 1 {
      assert Joined(ws[1..]) == [];
      assert j[|j| - 2] == ws[0][|ws[0]| - 1];
    } else {
      JoinedEndsWithSpace(ws[1..]);
      var rest := Joined(ws[1..]);
      assert j[|j| - 2] == rest[|rest| - 2];
    }
  }

  /** Two one-element sequences run together are the two-element display (kept apart: inline, this step exhausts the solver). */
  lemma PairIsDisplay<T>(a: T, b: T)
    ensures [a] + [b] == [a, b]
  {
  }

  /** When every line is one plain word, the words of the lines are the lines. */
  lemma {:induction false} LineWordsOfWords(ws: seq<JString>)
    requires forall i :: 0 <= i < |ws| ==> IsPlainWord(ws[i])
    ensures LineWords(ws) == ws
  {
    if ws != [] {
      assert NoSpace(ws[0]);
      TokensOfWord(ws[0]);
      LineWordsOfWords(ws[1..]);
      assert [ws[0]] + ws[1..] == ws;
    }
  }
}
