/**
 * The statistics `FileSizeCalculator.analyzeFile` computes for a chosen file:
 * its size in kilobytes or megabytes, the number of lines, the number of words
 * and of non-blank characters, the longest word and the average word length.
 *
 * The file system is not modelled. The byte count `Files.size` reports and the
 * text the reader decodes are inputs, each either a value or the message of the
 * exception raised while obtaining it. Window updates and dialogs are not part
 * of the model.
 */
module FileSizeCalculator {
  import opened Wrappers
  import opened JavaText
  import opened LineReader

  // ---------------------------------------------------------------- size

  datatype SizeUnit = KB | MB

  /** The size as displayed: an amount, shown with two decimals, and its unit. */
  datatype FileSize = FileSize(amount: real, unit: SizeUnit)

  /**
   * The size display: megabytes once the file holds at least 1024 * 1024
   * bytes, kilobytes below that. The amount times the unit's byte count is
   * the size, so a megabyte amount is at least 1 and a kilobyte amount stays
   * below 1024.
   */
  function SizeDisplay(bytes: nat): (d: FileSize)
    ensures d.unit == MB <==> bytes >= 1024 * 1024
    ensures d.unit == MB ==> d.amount * 1048576.0 == bytes as real && d.amount >= 1.0
    ensures d.unit == KB ==> d.amount * 1024.0 == bytes as real && 0.0 <= d.amount < 1024.0
  {
    var kb := bytes as real / 1024.0;
    var mb := kb / 1024.0;
    if mb >= 1.0 then FileSize(mb, MB) else FileSize(kb, KB)
  }

  // ---------------------------------------------------------------- reading loop

  /**
   * The text `contentBuilder` holds once `lines` have been appended: each line
   * followed by exactly one space, so it is as long as the lines together plus
   * one per line.
   */
  function Joined(lines: seq<JString>): (s: JString)
    ensures |s| == TotalLength(lines) + |lines|
  {
    if lines == [] then [] else lines[0] + [Space] + Joined(lines[1..])
  }

  /**
   * The reading loop: `readLine` until it yields nothing, appending each line
   * and a space to the content and counting the lines.
   */
  method ReadContent(text: JString) returns (content: JString, lineCount: nat)
    ensures content == Joined(ReadLines(text))
    ensures lineCount == |ReadLines(text)|
  {
    content, lineCount := [], 0;
    var unread := text;
    while unread != []
      invariant Joined(ReadLines(text)) == content + Joined(ReadLines(unread))
      invariant lineCount + |ReadLines(unread)| == |ReadLines(text)|
      decreases |unread|
    {
      var r := ReadLine(unread);
      content := content + r.line + [Space];
      lineCount := lineCount + 1;
      unread := r.rest;
    }
  }

  /** The words of each line, line after line. */
  function LineWords(lines: seq<JString>): seq<JString> {
    if lines == [] then [] else Tokens(lines[0]) + LineWords(lines[1..])
  }

  /**
   * Because every line is followed by a space, the words of the content are
   * the words of the lines, in order: no word runs from one line into the next.
   */
  lemma {:induction false} WordsOfJoined(lines: seq<JString>)
    ensures Tokens(Joined(lines)) == LineWords(lines)
  {
    if lines != [] {
      TokensOfSeparated(lines[0], Joined(lines[1..]));
      WordsOfJoined(lines[1..]);
    }
  }

  /** A piece of the content without `\s` lies within one line. */
  lemma {:induction false} FactorOfJoined(w: JString, lines: seq<JString>)
    requires w != [] && NoSpace(w) && IsFactor(w, Joined(lines))
    ensures exists l :: l in lines && IsFactor(w, l)
  {
    var s := Joined(lines);
    var i, j :| 0 <= i <= j <= |s| && s[i..j] == w;
    var n := |lines[0]|;
    assert s == lines[0] + [Space] + Joined(lines[1..]);
    assert forall k :: i <= k < j ==> s[k] == w[k - i];
    assert s[n] == Space;
    if j <= n {
      assert lines[0][i..j] == w;
      assert lines[0] in lines;
    } else {
      assert n < i;
      assert Joined(lines[1..])[i - n - 1..j - n - 1] == w;
      FactorOfJoined(w, lines[1..]);
      var l :| l in lines[1..] && IsFactor(w, l);
      assert l in lines;
    }
  }

  // ---------------------------------------------------------------- words

  /** The words: none for empty content, otherwise `content.split("\\s+")`. */
  function Words(content: JString): seq<JString> {
    if content == [] then [] else Split(content)
  }

  /** The trimmed content neither begins nor ends with `\s`, so its split yields exactly its words. */
  lemma WordsOfTrimmed(s: JString)
    ensures Words(Trim(s)) == Tokens(Trim(s))
  {
    if Trim(s) != [] {
      TrimmedHasNoOuterSpace(s);
      SplitOfTrimmed(Trim(s));
    }
  }

  /**
   * `longestWord` once the loop has looked at `words`: a word replaces the
   * current one only when it is strictly longer.
   */
  function Longest(words: seq<JString>): JString {
    if words == [] then []
    else
      var previous := Longest(words[..|words| - 1]);
      var w := words[|words| - 1];
      if |w| > |previous| then w else previous
  }

  /** The first of the longest words, or the empty string when there are none. */
  ghost predicate IsFirstLongest(longest: JString, words: seq<JString>) {
    && (words == [] ==> longest == [])
    && (forall j :: 0 <= j < |words| ==> |words[j]| <= |longest|)
    && (words != [] ==>
          exists i :: 0 <= i < |words| && longest == words[i]
                      && forall j :: 0 <= j < i ==> |words[j]| < |words[i]|)
  }

  lemma {:induction false} LongestIsFirstLongest(words: seq<JString>)
    ensures IsFirstLongest(Longest(words), words)
  {
    if words != [] {
      var previous := words[..|words| - 1];
      LongestIsFirstLongest(previous);
      var w := words[|words| - 1];
      if |w| > |Longest(previous)| {
        assert forall j :: 0 <= j < |words| - 1 ==> |words[j]| <= |Longest(previous)|
          by { assert forall j :: 0 <= j < |words| - 1 ==> words[j] == previous[j]; }
      } else if previous == [] {
        assert Longest(words) == words[0];
      } else {
        var i :| 0 <= i < |previous| && Longest(previous) == previous[i]
                 && forall j :: 0 <= j < i ==> |previous[j]| < |previous[i]|;
        assert words[i] == previous[i];
        assert forall j :: 0 <= j < |words| - 1 ==> words[j] == previous[j];
      }
    }
  }

  /** The longest-word loop: the first of the longest words, `""` when there are none. */
  method LongestWord(words: seq<JString>) returns (longest: JString)
    ensures longest == Longest(words)
    ensures IsFirstLongest(longest, words)
  {
    longest := [];
    for i := 0 to |words|
      invariant longest == Longest(words[..i])
    {
      assert words[..i + 1][..i] == words[..i];
      if |words[i]| > |longest| {
        longest := words[i];
      }
    }
    assert words[..|words|] == words;
    LongestIsFirstLongest(words);
  }

  /** `charCount / wordCount` when there are words, otherwise 0. */
  function AverageWordLength(charCount: nat, wordCount: nat): (avg: real)
    ensures wordCount > 0 ==> avg * wordCount as real == charCount as real
    ensures wordCount == 0 ==> avg == 0.0
  {
    if wordCount > 0 then charCount as real / wordCount as real else 0.0
  }

  // ---------------------------------------------------------------- the analysis

  /** The statistics shown for a file (and the longest word, which is computed but not shown). */
  datatype Stats = Stats(
    bytes: nat,
    size: FileSize,
    lineCount: nat,
    wordCount: nat,
    charCount: nat,
    avgWordLength: real,
    longestWord: JString)

  /** The trimmed content: the lines joined by the reading loop, then `trim`med. */
  function Content(text: JString): JString {
    Trim(Joined(ReadLines(text)))
  }

  /** The statistics of a file of `bytes` bytes whose decoded text is `text`. */
  function Analysis(bytes: nat, text: JString): Stats {
    var lines := ReadLines(text);
    var content := Content(text);
    var words := Words(content);
    var charCount := |RemoveSpaces(content)|;
    Stats(bytes, SizeDisplay(bytes), |lines|, |words|, charCount,
          AverageWordLength(charCount, |words|), Longest(words))
  }

  /**
   * `analyzeFile`: the size first, then the text. When either cannot be
   * obtained the outcome is that failure's message and nothing else;
   * otherwise it is the statistics.
   */
  method AnalyzeFile(size: Result<nat, string>, text: Result<JString, string>)
    returns (r: Result<Stats, string>)
    ensures size.Failure? ==> r == Failure(size.error)
    ensures size.Success? && text.Failure? ==> r == Failure(text.error)
    ensures size.Success? && text.Success? ==> r == Success(Analysis(size.value, text.value))
  {
    if size.Failure? {
      return Failure(size.error);
    }
    var bytes := size.value;
    var display := SizeDisplay(bytes);
    if text.Failure? {
      return Failure(text.error);
    }
    var built, lineCount := ReadContent(text.value);
    var content := Trim(built);
    var words := if content == [] then [] else Split(content);
    var wordCount := |words|;
    var charCount := |RemoveSpaces(content)|;
    var longest := LongestWord(words);
    var avg := AverageWordLength(charCount, wordCount);
    r := Success(Stats(bytes, display, lineCount, wordCount, charCount, avg, longest));
  }

  // ---------------------------------------------------------------- properties

  /**
   * The line count is the number of lines the reader yields: none for an empty
   * file, one per terminated line, and one more for a last line without a
   * terminator.
   */
  lemma LineCount(bytes: nat, lines: seq<JString>, ends: seq<LineEnd>, last: JString)
    requires |ends| == |lines| && NoLfAfterCr(lines, ends)
    requires forall i :: 0 <= i < |lines| ==> NoTerminator(lines[i])
    requires NoTerminator(last)
    ensures Analysis(bytes, Terminated(lines, ends) + last).lineCount
              == |lines| + (if last == [] then 0 else 1)
  {
    if last == [] {
      ReadLinesRoundTrip(lines, ends);
      assert Terminated(lines, ends) + last == Terminated(lines, ends);
    } else {
      UnterminatedLastLine(lines, ends, last);
    }
  }

  /** Trimmable code units are those of the lines and the terminators; the joining spaces are trimmable too. */
  lemma {:induction false} JoinedIsBlank(text: JString)
    ensures AllTrimmable(Joined(ReadLines(text))) <==> AllTrimmable(text)
    decreases |text|
  {
    if text != [] {
      var r := ReadLine(text);
      var t := text[|r.line|..|text| - |r.rest|];
      assert text == r.line + t + r.rest;
      assert AllTrimmable(t);
      JoinedIsBlank(r.rest);
      var j := Joined(ReadLines(r.rest));
      assert Joined(ReadLines(text)) == r.line + [Space] + j;
      BlankConcat(r.line, t, r.rest);
      BlankConcat(r.line, [Space], j);
    }
  }

  lemma BlankConcat(a: JString, b: JString, c: JString)
    requires AllTrimmable(b)
    ensures AllTrimmable(a + b + c) <==> AllTrimmable(a) && AllTrimmable(c)
  {
    var s := a + b + c;
    if AllTrimmable(s) {
      assert forall k :: 0 <= k < |a| ==> s[k] == a[k];
      assert forall k :: 0 <= k < |c| ==> s[|a| + |b| + k] == c[k];
    }
  }

  /**
   * There are no words exactly when every code unit of the file is at most
   * U+0020 (an empty file, blank lines, control characters); then the
   * character count and the average are 0 as well, whatever the line count.
   */
  lemma NoWordsIffBlank(bytes: nat, text: JString)
    ensures Analysis(bytes, text).wordCount == 0 <==> AllTrimmable(text)
    ensures Analysis(bytes, text).wordCount == 0 ==>
              Analysis(bytes, text).charCount == 0 && Analysis(bytes, text).avgWordLength == 0.0
  {
    var content := Content(text);
    JoinedIsBlank(text);
    WordsOfTrimmed(Joined(ReadLines(text)));
    if content != [] {
      assert Tokens(content) == [content[..RunLength(content)]] + Tokens(content[RunLength(content)..]);
    } else {
      assert RemoveSpaces(content) == [];
    }
  }

  /**
   * The words are the maximal runs of the trimmed content outside `\s`, in
   * order; each is non-empty and holds no `\s`.
   */
  lemma WordsAreRuns(text: JString)
    ensures Words(Content(text)) == Tokens(Content(text))
    ensures forall w :: w in Words(Content(text)) ==> w != [] && NoSpace(w)
  {
    WordsOfTrimmed(Joined(ReadLines(text)));
  }

  /** Every word lies within one line: no word spans two lines. */
  lemma WordsWithinLines(text: JString)
    ensures forall w :: w in Words(Content(text)) ==>
              exists l :: l in ReadLines(text) && IsFactor(w, l)
  {
    forall w | w in Words(Content(text))
      ensures exists l :: l in ReadLines(text) && IsFactor(w, l)
    {
      WordWithinLine(text, w);
    }
  }

  lemma WordWithinLine(text: JString, w: JString)
    requires w in Words(Content(text))
    ensures exists l :: l in ReadLines(text) && IsFactor(w, l)
  {
    var joined := Joined(ReadLines(text));
    var content := Content(text);
    WordsAreRuns(text);
    TokenIsFactor(content, w);
    TrimIsFactor(joined);
    FactorOfFactor(w, content, joined);
    FactorOfJoined(w, ReadLines(text));
  }

  /**
   * The character count is the total length of the words (the content with
   * every `\s` removed), so it is at least the word count.
   */
  lemma CharCountIsWordLengths(bytes: nat, text: JString)
    ensures Analysis(bytes, text).charCount == TotalLength(Words(Content(text)))
    ensures Analysis(bytes, text).charCount >= Analysis(bytes, text).wordCount
  {
    var content := Content(text);
    WordsAreRuns(text);
    RemoveSpacesIsConcatOfTokens(content);
    ConcatLength(Tokens(content));
    TotalLengthOfNonEmpty(Tokens(content));
  }

  /**
   * The average word length is 0 exactly when there are no words, and it
   * never lies strictly between 0 and 1.
   */
  lemma AverageBounds(bytes: nat, text: JString)
    ensures Analysis(bytes, text).avgWordLength == 0.0 <==> Analysis(bytes, text).wordCount == 0
    ensures Analysis(bytes, text).avgWordLength != 0.0 ==> Analysis(bytes, text).avgWordLength >= 1.0
  {
    var st := Analysis(bytes, text);
    assert st.avgWordLength == AverageWordLength(st.charCount, st.wordCount);
    CharCountIsWordLengths(bytes, text);
    AverageAtLeastOne(st.charCount, st.wordCount);
  }

  lemma AverageAtLeastOne(charCount: nat, wordCount: nat)
    requires charCount >= wordCount
    ensures wordCount > 0 ==> AverageWordLength(charCount, wordCount) >= 1.0
    ensures AverageWordLength(charCount, wordCount) == 0.0 <==> wordCount == 0
  {
    if wordCount > 0 {
      var avg := AverageWordLength(charCount, wordCount);
      var w := wordCount as real;
      assert avg * w >= 1.0 * w;
    }
  }

  /** The longest word is the first of the longest words, or `""` when there are none. */
  lemma LongestWordIsFirstLongest(bytes: nat, text: JString)
    ensures IsFirstLongest(Analysis(bytes, text).longestWord, Words(Content(text)))
  {
    LongestIsFirstLongest(Words(Content(text)));
  }
}
