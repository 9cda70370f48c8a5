/**
 * How `BufferedReader.readLine` cuts the decoded text of a file into lines: a
 * line ends at a line feed, at a carriage return, at a carriage return followed
 * by a line feed, or at the end of the input; the terminator is not part of the
 * line, and once nothing is left to read there are no more lines.
 */
module LineReader {
  import opened JavaText

  const LF: CodeUnit := 0x0A
  const CR: CodeUnit := 0x0D

  predicate IsTerminator(c: CodeUnit) {
    c == LF || c == CR
  }

  predicate NoTerminator(s: JString) {
    forall k :: 0 <= k < |s| ==> !IsTerminator(s[k])
  }

  /** The three line terminators `readLine` accepts. */
  datatype LineEnd = LineFeed | CarriageReturn | CarriageReturnLineFeed {
    function Text(): (t: JString)
      ensures t != [] && t[0] in {LF, CR} && t[|t| - 1] in {LF, CR}
    {
      match this
      case LineFeed => [LF]
      case CarriageReturn => [CR]
      case CarriageReturnLineFeed => [CR, LF]
    }
  }

  /** The length of the longest prefix of `s` without a terminator. */
  function LineLength(s: JString): (k: nat)
    ensures k <= |s|
    ensures NoTerminator(s[..k])
    ensures k < |s| ==> IsTerminator(s[k])
  {
    if s == [] || IsTerminator(s[0]) then 0 else 1 + LineLength(s[1..])
  }

  /** What one call of `readLine` returns, and the input it leaves unread. */
  datatype Read = Read(line: JString, rest: JString)

  /**
   * One call of `readLine` on the unread input `s`: the line is the longest
   * prefix without a terminator, and the terminator after it, if any, is
   * consumed. A carriage return swallows a line feed right after it.
   */
  function ReadLine(s: JString): (r: Read)
    requires s != []
    ensures |r.line| + |r.rest| <= |s| && |r.rest| < |s|
    ensures r.line == s[..|r.line|] && NoTerminator(r.line)
    ensures r.rest == s[|s| - |r.rest|..]
    ensures var t := s[|r.line|..|s| - |r.rest|];
            (t == [] && r.rest == [])
            || t == [LF] || t == [CR, LF]
            || (t == [CR] && (r.rest == [] || r.rest[0] != LF))
  {
    var k := LineLength(s);
    if k == |s| then Read(s, [])
    else if s[k] == CR && k + 1 < |s| && s[k + 1] == LF then Read(s[..k], s[k + 2..])
    else Read(s[..k], s[k + 1..])
  }

  /**
   * All lines `readLine` returns before it returns `null`. There are none
   * exactly when the input is empty, and never more lines than code units.
   */
  function ReadLines(s: JString): (lines: seq<JString>)
    ensures |lines| <= |s|
    ensures |lines| == 0 <==> s == []
    ensures forall i :: 0 <= i < |lines| ==> NoTerminator(lines[i])
    decreases |s|
  {
    if s == [] then [] else var r := ReadLine(s); [r.line] + ReadLines(r.rest)
  }

  /** `lines`, each followed by its own terminator from `ends`. */
  function Terminated(lines: seq<JString>, ends: seq<LineEnd>): JString
    requires |ends| == |lines|
  {
    if lines == [] then [] else lines[0] + ends[0].Text() + Terminated(lines[1..], ends[1..])
  }

  /**
   * No line ended by a lone carriage return is followed by an empty line ended
   * by a line feed: written out, the two terminators would read as one `\r\n`.
   */
  predicate NoLfAfterCr(lines: seq<JString>, ends: seq<LineEnd>)
    requires |ends| == |lines|
  {
    forall i :: 0 <= i < |lines| - 1 && ends[i] == CarriageReturn ==>
      lines[i + 1] != [] || ends[i + 1] != LineFeed
  }

  /** The input after the last line does not begin with a line feed when that line ends with a lone carriage return. */
  predicate TailAfterCr(ends: seq<LineEnd>, tail: JString) {
    ends != [] && ends[|ends| - 1] == CarriageReturn ==> tail == [] || tail[0] != LF
  }

  lemma ReadLineOfTerminated(line: JString, e: LineEnd, tail: JString)
    requires NoTerminator(line)
    requires e == CarriageReturn ==> tail == [] || tail[0] != LF
    ensures ReadLine(line + e.Text() + tail) == Read(line, tail)
  {
    var t := e.Text();
    var s := line + t + tail;
    assert s[..|line|] == line;
    LineLengthIs(s, |line|);
    assert s[|line| + |t|..] == tail;
  }

  /** `LineLength` is the index of the first terminator. */
  lemma {:induction false} LineLengthIs(s: JString, k: nat)
    requires k <= |s| && NoTerminator(s[..k])
    requires k < |s| ==> IsTerminator(s[k])
    ensures LineLength(s) == k
  {
    if k > 0 {
      assert s[1..][..k - 1] == s[..k][1..];
      LineLengthIs(s[1..], k - 1);
    }
  }

  /**
   * Lines written out each with its own terminator are read back one by one,
   * and reading then goes on with what follows them, unless a lone carriage
   * return meets a line feed right after it.
   */
  lemma {:induction false} ReadLinesOfTerminated(lines: seq<JString>, ends: seq<LineEnd>, tail: JString)
    requires |ends| == |lines|
    requires forall i :: 0 <= i < |lines| ==> NoTerminator(lines[i])
    requires NoLfAfterCr(lines, ends) && TailAfterCr(ends, tail)
    ensures ReadLines(Terminated(lines, ends) + tail) == lines + ReadLines(tail)
  {
    if lines != [] {
      var s := Terminated(lines, ends) + tail;
      var rest := Terminated(lines[1..], ends[1..]) + tail;
      assert s == lines[0] + ends[0].Text() + rest;
      assert NoLfAfterCr(lines[1..], ends[1..]) by {
        assert forall i :: 0 <= i < |lines| - 1 ==> lines[1..][i] == lines[i + 1] && ends[1..][i] == ends[i + 1];
      }
      assert TailAfterCr(ends[1..], tail);
      TerminatedStart(lines[1..], ends[1..], tail);
      ReadLineOfTerminated(lines[0], ends[0], rest);
      assert |s| > 0;
      var r := ReadLine(s);
      assert r.line == lines[0] && r.rest == rest;
      assert ReadLines(s) == [lines[0]] + ReadLines(rest);
      ReadLinesOfTerminated(lines[1..], ends[1..], tail);
      HeadTail(lines, ReadLines(tail));
    } else {
      assert Terminated(lines, ends) + tail == tail;
    }
  }

  /** Putting the head back in front of the tail, before more elements. */
  lemma HeadTail<T>(xs: seq<T>, ys: seq<T>)
    requires xs != []
    ensures [xs[0]] + (xs[1..] + ys) == xs + ys
  {
    assert [xs[0]] + xs[1..] == xs;
  }

  /** What follows terminated lines begins with a line feed only where an empty line ends with one, or where the tail does. */
  lemma TerminatedStart(lines: seq<JString>, ends: seq<LineEnd>, tail: JString)
    requires |ends| == |lines|
    requires forall i :: 0 <= i < |lines| ==> NoTerminator(lines[i])
    ensures var s := Terminated(lines, ends) + tail;
            s != [] && s[0] == LF ==>
              if lines == [] then tail[0] == LF else lines[0] == [] && ends[0] == LineFeed
  {
    if lines != [] {
      var line, t := lines[0], ends[0].Text();
      var w := Terminated(lines, ends);
      assert w == line + t + Terminated(lines[1..], ends[1..]);
      assert (w + tail)[0] == w[0];
      if line != [] {
        assert w[0] == line[0] && !IsTerminator(line[0]);
      } else {
        assert w[0] == t[0];
      }
    }
  }

  /** Reading back lines that were each ended by a terminator gives those lines. */
  lemma ReadLinesRoundTrip(lines: seq<JString>, ends: seq<LineEnd>)
    requires |ends| == |lines|
    requires forall i :: 0 <= i < |lines| ==> NoTerminator(lines[i])
    requires NoLfAfterCr(lines, ends)
    ensures ReadLines(Terminated(lines, ends)) == lines
  {
    ReadLinesOfTerminated(lines, ends, []);
    assert Terminated(lines, ends) + [] == Terminated(lines, ends);
  }

  /** A last line without a terminator is still read, as one more line. */
  lemma UnterminatedLastLine(lines: seq<JString>, ends: seq<LineEnd>, last: JString)
    requires |ends| == |lines|
    requires forall i :: 0 <= i < |lines| ==> NoTerminator(lines[i])
    requires NoLfAfterCr(lines, ends)
    requires last != [] && NoTerminator(last)
    ensures ReadLines(Terminated(lines, ends) + last) == lines + [last]
  {
    ReadLinesOfTerminated(lines, ends, last);
    assert last[..|last|] == last;
    LineLengthIs(last, |last|);
  }

  /** The terminator `readLine` consumes after the first line of `s`. */
  function EndOf(s: JString): (e: LineEnd)
    requires s != [] && |ReadLine(s).line| < |s|
  {
    var k := |ReadLine(s).line|;
    if s[k] == LF then LineFeed
    else if k + 1 < |s| && s[k + 1] == LF then CarriageReturnLineFeed
    else CarriageReturn
  }

  /** A line `readLine` returns, its terminator and the unread rest make up the input. */
  lemma ReadLineParts(s: JString)
    requires s != [] && |ReadLine(s).line| < |s|
    ensures var r := ReadLine(s);
            && s == r.line + EndOf(s).Text() + r.rest
            && (EndOf(s) == CarriageReturn ==> r.rest == [] || r.rest[0] != LF)
  {
    var r := ReadLine(s);
    var k, m := |r.line|, |s| - |r.rest|;
    var t := s[k..m];
    assert s == s[..k] + t + s[m..];
    assert t[0] == s[k];
    assert t == EndOf(s).Text();
  }

  /** The terminators `readLine` consumes after the lines of `s`; an unterminated last line has none. */
  function LineEnds(s: JString): (ends: seq<LineEnd>)
    decreases |s|
  {
    if s == [] then []
    else
      var r := ReadLine(s);
      if |r.line| == |s| then [] else [EndOf(s)] + LineEnds(r.rest)
  }

  /**
   * `s` is `lines` written out with `ends`: every line but possibly a last,
   * non-empty one is followed by its terminator, and no lone carriage return
   * is followed by an empty line ended by a line feed.
   */
  predicate WrittenAs(s: JString, lines: seq<JString>, ends: seq<LineEnd>) {
    && |ends| <= |lines| <= |ends| + 1
    && NoLfAfterCr(lines[..|ends|], ends)
    && (|lines| == |ends| ==> s == Terminated(lines, ends))
    && (|lines| == |ends| + 1 ==>
          lines[|ends|] != [] && s == Terminated(lines[..|ends|], ends) + lines[|ends|])
  }

  /** `readLine` drops nothing but terminators: the text is its lines written out with the terminators consumed. */
  lemma {:induction false} LinesAndEnds(s: JString)
    ensures WrittenAs(s, ReadLines(s), LineEnds(s))
    decreases |s|
  {
    if s != [] {
      var r := ReadLine(s);
      var k := |r.line|;
      if k == |s| {
        assert LineEnds(s) == [] && ReadLines(s) == [s];
        assert [s][..0] == [];
        assert Terminated([], []) + s == s;
      } else {
        LinesAndEnds(r.rest);
        ReadLineParts(s);
        WrittenAsCons(r.line, EndOf(s), r.rest, ReadLines(r.rest), LineEnds(r.rest));
      }
    }
  }

  /** One more terminated line in front keeps the text written out as its lines. */
  lemma WrittenAsCons(line: JString, e: LineEnd, rest: JString, lines: seq<JString>, ends: seq<LineEnd>)
    requires NoTerminator(line)
    requires forall i :: 0 <= i < |lines| ==> NoTerminator(lines[i])
    requires e == CarriageReturn ==> rest == [] || rest[0] != LF
    requires WrittenAs(rest, lines, ends)
    ensures WrittenAs(line + e.Text() + rest, [line] + lines, [e] + ends)
  {
    var n := |ends|;
    var body := lines[..n];
    var last := if |lines| == n then [] else lines[n];
    assert rest == Terminated(body, ends) + last by {
      if |lines| == n { assert body == lines; }
    }
    var lines1, ends1 := [line] + lines, [e] + ends;
    var body1 := lines1[..n + 1];
    ConsPrefix(line, lines, n);
    assert body1[1..] == body && ends1[1..] == ends;
    assert Terminated(body1, ends1) == line + e.Text() + Terminated(body, ends);
    assert e == CarriageReturn && body != [] && body[0] == [] ==> ends[0] != LineFeed by {
      TerminatedStart(body, ends, last);
    }
    assert forall i :: 0 < i < |body1| ==> body1[i] == body[i - 1] && ends1[i] == ends[i - 1];
    if |lines| == n + 1 {
      assert lines1[n + 1] == last;
    } else {
      assert body1 == lines1;
    }
  }

  /** Taking a prefix commutes with putting one line in front. */
  lemma ConsPrefix(line: JString, lines: seq<JString>, n: nat)
    requires n <= |lines|
    ensures ([line] + lines)[..n + 1] == [line] + lines[..n]
  {
  }
}
