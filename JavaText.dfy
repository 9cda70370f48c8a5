/**
 * The parts of `java.lang.String` and of the regular expression `\s+` that the
 * analysis relies on: `trim`, `split("\\s+")` and `replaceAll("\\s+", "")`.
 *
 * A Java `String` is a sequence of UTF-16 code units, and `length()` counts code
 * units, so strings are modelled as sequences of `CodeUnit`.
 *
 * Two notions of blank appear: `trim` drops every code unit up to U+0020 (control
 * characters included), while the regex class `\s` holds only six of them. Every
 * `\s` code unit is trimmable, never the other way round.
 */
module JavaText {

  /** A Java `char`: one UTF-16 code unit. */
  newtype CodeUnit = x: int | 0 <= x < 0x1_0000

  /** A Java `String`. */
  type JString = seq<CodeUnit>

  /** The space the reading loop appends after every line. */
  const Space: CodeUnit := 0x20

  /** The regex class `\s`: space, `\t`, `\n`, `\x0B`, `\f` and `\r`. */
  predicate IsSpace(c: CodeUnit) {
    c == 0x20 || 0x09 <= c <= 0x0D
  }

  /** What `String.trim` removes at either end: every code unit up to U+0020. */
  predicate IsTrimmable(c: CodeUnit) {
    c <= 0x20
  }

  predicate NoSpace(s: JString) {
    forall k :: 0 <= k < |s| ==> !IsSpace(s[k])
  }

  predicate AllTrimmable(s: JString) {
    forall k :: 0 <= k < |s| ==> IsTrimmable(s[k])
  }

  /** `w` occurs in `s` as a contiguous piece. */
  predicate IsFactor(w: JString, s: JString) {
    exists i, j :: 0 <= i <= j <= |s| && s[i..j] == w
  }

  lemma FactorOfFactor(w: JString, u: JString, s: JString)
    requires IsFactor(w, u) && IsFactor(u, s)
    ensures IsFactor(w, s)
  {
    var i, j :| 0 <= i <= j <= |u| && u[i..j] == w;
    var a, b :| 0 <= a <= b <= |s| && s[a..b] == u;
    assert a + j <= b;
    var v := s[a + i..a + j];
    assert forall k :: 0 <= k < |v| ==> v[k] == w[k];
    assert v == w;
  }

  /** The concatenation of `ws`. */
  function Concat(ws: seq<JString>): JString {
    if ws == [] then [] else ws[0] + Concat(ws[1..])
  }

  /** The sum of the lengths of `ws`. */
  function TotalLength(ws: seq<JString>): nat {
    if ws == [] then 0 else |ws[0]| + TotalLength(ws[1..])
  }

  lemma {:induction false} ConcatLength(ws: seq<JString>)
    ensures |Concat(ws)| == TotalLength(ws)
  {
    if ws != [] {
      ConcatLength(ws[1..]);
    }
  }

  lemma {:induction false} TotalLengthOfNonEmpty(ws: seq<JString>)
    requires forall i :: 0 <= i < |ws| ==> ws[i] != []
    ensures TotalLength(ws) >= |ws|
  {
    if ws != [] {
      TotalLengthOfNonEmpty(ws[1..]);
    }
  }

  // ---------------------------------------------------------------- trim

  /** The first index at or after `st` whose code unit is above U+0020: the `st` of `String.trim`. */
  function TrimStart(s: JString, st: nat): (r: nat)
    requires st <= |s|
    ensures st <= r <= |s|
    ensures forall k :: st <= k < r ==> IsTrimmable(s[k])
    ensures r < |s| ==> !IsTrimmable(s[r])
    decreases |s| - st
  {
    if st < |s| && IsTrimmable(s[st]) then TrimStart(s, st + 1) else st
  }

  /** The end index once trimmable code units are dropped from `s[st..len]`: the `len` of `String.trim`. */
  function TrimEnd(s: JString, st: nat, len: nat): (r: nat)
    requires st <= len <= |s|
    ensures st <= r <= len
    ensures forall k :: r <= k < len ==> IsTrimmable(s[k])
    ensures st < r ==> !IsTrimmable(s[r - 1])
    decreases len
  {
    if st < len && IsTrimmable(s[len - 1]) then TrimEnd(s, st, len - 1) else len
  }

  /**
   * `s.trim()`: the piece of `s` left once every leading and trailing code unit
   * up to U+0020 is removed. It is empty exactly when `s` is all trimmable, and
   * otherwise begins and ends with a code unit above U+0020.
   */
  function Trim(s: JString): (r: JString)
    ensures exists st, len :: 0 <= st <= len <= |s| && r == s[st..len]
                              && AllTrimmable(s[..st]) && AllTrimmable(s[len..])
    ensures r == [] <==> AllTrimmable(s)
    ensures r != [] ==> !IsTrimmable(r[0]) && !IsTrimmable(r[|r| - 1])
  {
    var st := TrimStart(s, 0);
    var len := TrimEnd(s, st, |s|);
    assert AllTrimmable(s[..st]) && AllTrimmable(s[len..]);
    s[st..len]
  }

  lemma TrimIsFactor(s: JString)
    ensures IsFactor(Trim(s), s)
  {
    var st, len :| 0 <= st <= len <= |s| && Trim(s) == s[st..len];
  }

  lemma TrimmedHasNoOuterSpace(s: JString)
    requires Trim(s) != []
    ensures !IsSpace(Trim(s)[0]) && !IsSpace(Trim(s)[|Trim(s)| - 1])
  {
  }

  lemma {:induction false} TrimStartIs(s: JString, st: nat, k: nat)
    requires st <= k <= |s|
    requires forall i :: st <= i < k ==> IsTrimmable(s[i])
    requires k < |s| ==> !IsTrimmable(s[k])
    ensures TrimStart(s, st) == k
    decreases k - st
  {
    if st < k {
      TrimStartIs(s, st + 1, k);
    }
  }

  lemma {:induction false} TrimEndIs(s: JString, st: nat, len: nat, k: nat)
    requires st <= k <= len <= |s|
    requires forall i :: k <= i < len ==> IsTrimmable(s[i])
    requires st < k ==> !IsTrimmable(s[k - 1])
    ensures TrimEnd(s, st, len) == k
    decreases len
  {
    if k < len {
      TrimEndIs(s, st, len - 1, k);
    }
  }

  /** Trimming removes exactly a blank prefix and suffix around a piece that begins and ends above U+0020. */
  lemma TrimOfPadded(pre: JString, x: JString, post: JString)
    requires AllTrimmable(pre) && AllTrimmable(post)
    requires x != [] && !IsTrimmable(x[0]) && !IsTrimmable(x[|x| - 1])
    ensures Trim(pre + x + post) == x
  {
    var s := pre + x + post;
    var st, len := |pre|, |pre| + |x|;
    assert s[st] == x[0] && s[len - 1] == x[|x| - 1];
    assert forall i :: len <= i < |s| ==> s[i] == post[i - len];
    TrimStartIs(s, 0, st);
    TrimEndIs(s, st, |s|, len);
    assert s[st..len] == x;
  }

  /** Trimming twice is trimming once. */
  lemma TrimIdempotent(s: JString)
    ensures Trim(Trim(s)) == Trim(s)
  {
    var r := Trim(s);
    if r != [] {
      assert TrimStart(r, 0) == 0;
      assert TrimEnd(r, 0, |r|) == |r|;
    }
  }

  // ---------------------------------------------------------------- runs of \s

  /** The length of the longest prefix of `s` without `\s`. */
  function RunLength(s: JString): (k: nat)
    ensures k <= |s|
    ensures forall i :: 0 <= i < k ==> !IsSpace(s[i])
    ensures k < |s| ==> IsSpace(s[k])
  {
    if s == [] || IsSpace(s[0]) then 0 else 1 + RunLength(s[1..])
  }

  /** `s` without its leading `\s` code units. */
  function SkipSpaces(s: JString): (r: JString)
    ensures |r| <= |s| && r == s[|s| - |r|..]
    ensures forall i :: 0 <= i < |s| - |r| ==> IsSpace(s[i])
    ensures r != [] ==> !IsSpace(r[0])
  {
    if s != [] && IsSpace(s[0]) then SkipSpaces(s[1..]) else s
  }

  /**
   * The words of `s`: its maximal runs of code units outside `\s`, in order.
   * Each is non-empty and holds no `\s`.
   */
  function Tokens(s: JString): (ws: seq<JString>)
    ensures forall i :: 0 <= i < |ws| ==> ws[i] != [] && NoSpace(ws[i])
    decreases |s|
  {
    if s == [] then []
    else if IsSpace(s[0]) then Tokens(s[1..])
    else
      var k := RunLength(s);
      [s[..k]] + Tokens(s[k..])
  }

  /** A single word is its own only word. */
  lemma TokensOfWord(w: JString)
    requires w != [] && NoSpace(w)
    ensures Tokens(w) == [w]
  {
    RunLengthIs(w, |w|);
    assert w[..|w|] == w && w[|w|..] == [];
  }

  lemma {:induction false} TokensOfSkipSpaces(s: JString)
    ensures Tokens(SkipSpaces(s)) == Tokens(s)
  {
    if s != [] && IsSpace(s[0]) {
      TokensOfSkipSpaces(s[1..]);
    }
  }

  /** `RunLength` is the index of the first `\s`, or the length when there is none. */
  lemma {:induction false} RunLengthIs(s: JString, k: nat)
    requires k <= |s|
    requires forall i :: 0 <= i < k ==> !IsSpace(s[i])
    requires k < |s| ==> IsSpace(s[k])
    ensures RunLength(s) == k
  {
    if k > 0 {
      RunLengthIs(s[1..], k - 1);
    }
  }

  lemma RunLengthOfSeparated(x: JString, y: JString)
    ensures RunLength(x + [Space] + y) == RunLength(x)
  {
    var s := x + [Space] + y;
    var k := RunLength(x);
    assert s[k] == if k < |x| then x[k] else Space;
    RunLengthIs(s, k);
  }

  /**
   * A space between two strings separates their words: no word of `x + " " + y`
   * straddles the space.
   */
  lemma {:induction false} TokensOfSeparated(x: JString, y: JString)
    ensures Tokens(x + [Space] + y) == Tokens(x) + Tokens(y)
    decreases |x|
  {
    var s := x + [Space] + y;
    if x == [] {
      assert s[1..] == y;
    } else if IsSpace(x[0]) {
      assert s[1..] == x[1..] + [Space] + y;
      TokensOfSeparated(x[1..], y);
    } else {
      var k := RunLength(x);
      RunLengthOfSeparated(x, y);
      assert s[..k] == x[..k];
      assert s[k..] == x[k..] + [Space] + y;
      TokensOfSeparated(x[k..], y);
    }
  }

  /** Every word of `s` is a piece of `s`. */
  lemma {:induction false} TokenIsFactor(s: JString, w: JString)
    requires w in Tokens(s)
    ensures IsFactor(w, s)
    decreases |s|
  {
    if IsSpace(s[0]) {
      TokenIsFactor(s[1..], w);
      var i, j :| 0 <= i <= j <= |s[1..]| && s[1..][i..j] == w;
      assert s[i + 1..j + 1] == w;
    } else {
      var k := RunLength(s);
      if w == s[..k] {
        assert s[0..k] == w;
      } else {
        TokenIsFactor(s[k..], w);
        var i, j :| 0 <= i <= j <= |s[k..]| && s[k..][i..j] == w;
        assert s[i + k..j + k] == w;
      }
    }
  }

  // ---------------------------------------------------------------- split("\\s+")

  /**
   * The substrings between the maximal `\s` runs of `s`, empty ones included:
   * the list `Pattern.split` collects before it drops trailing empty strings.
   */
  function Pieces(s: JString): (ps: seq<JString>)
    ensures ps != []
    ensures forall i :: 0 <= i < |ps| ==> NoSpace(ps[i])
    decreases |s|
  {
    var k := RunLength(s);
    if k == |s| then [s]
    else
      var t := SkipSpaces(s[k..]);
      assert |t| < |s| - k;
      [s[..k]] + Pieces(t)
  }

  /** `ps` without its trailing empty strings. */
  function DropTrailingEmpty(ps: seq<JString>): (r: seq<JString>)
    ensures |r| <= |ps| && r == ps[..|r|]
    ensures r == [] || r[|r| - 1] != []
    ensures forall i :: |r| <= i < |ps| ==> ps[i] == []
  {
    if ps != [] && ps[|ps| - 1] == [] then DropTrailingEmpty(ps[..|ps| - 1]) else ps
  }

  /**
   * `s.split("\\s+")`: when `\s` does not occur in `s` the answer is `[s]`
   * itself, even for the empty string; otherwise the pieces between the runs
   * of `\s`, without the trailing empty ones.
   */
  function Split(s: JString): (ws: seq<JString>)
    ensures forall i :: 0 <= i < |ws| ==> NoSpace(ws[i])
  {
    if RunLength(s) == |s| then [s] else DropTrailingEmpty(Pieces(s))
  }

  /** Splitting the empty string yields one empty word, not none. */
  lemma SplitOfEmpty()
    ensures Split([]) == [[]]
  {
  }

  lemma {:induction false} PiecesOfTrimmed(s: JString)
    requires s != [] && !IsSpace(s[0]) && !IsSpace(s[|s| - 1])
    ensures Pieces(s) == Tokens(s)
    decreases |s|
  {
    var k := RunLength(s);
    if k < |s| {
      var t := SkipSpaces(s[k..]);
      assert s[k..][|s| - k - 1] == s[|s| - 1];
      assert t != [] && t[|t| - 1] == s[|s| - 1];
      PiecesOfTrimmed(t);
      TokensOfSkipSpaces(s[k..]);
      assert Pieces(s) == [s[..k]] + Pieces(t);
      assert Tokens(s) == [s[..k]] + Tokens(s[k..]);
    } else {
      assert s[..k] == s && s[k..] == [];
      assert Tokens(s) == [s[..k]] + Tokens(s[k..]);
    }
  }

  /**
   * On a non-empty string that neither begins nor ends with `\s`, as the
   * result of `trim` is, `split("\\s+")` yields exactly its words.
   */
  lemma SplitOfTrimmed(s: JString)
    requires s != [] && !IsSpace(s[0]) && !IsSpace(s[|s| - 1])
    ensures Split(s) == Tokens(s)
  {
    if RunLength(s) == |s| {
      assert s[..|s|] == s;
      assert s[|s|..] == [];
    } else {
      PiecesOfTrimmed(s);
      var ps := Pieces(s);
      assert ps[|ps| - 1] != [];
    }
  }

  // ---------------------------------------------------------------- replaceAll("\\s+", "")

  /** `s.replaceAll("\\s+", "")`: `s` with every `\s` code unit removed. */
  function RemoveSpaces(s: JString): (r: JString)
    ensures |r| <= |s|
    ensures NoSpace(r)
  {
    if s == [] then []
    else if IsSpace(s[0]) then RemoveSpaces(s[1..])
    else [s[0]] + RemoveSpaces(s[1..])
  }

  lemma {:induction false} RemoveSpacesOfRun(s: JString, k: nat)
    requires k <= |s|
    requires forall i :: 0 <= i < k ==> !IsSpace(s[i])
    ensures RemoveSpaces(s) == s[..k] + RemoveSpaces(s[k..])
  {
    if k > 0 {
      RemoveSpacesOfRun(s[1..], k - 1);
      assert s[1..][k - 1..] == s[k..];
      assert [s[0]] + s[1..][..k - 1] == s[..k];
    }
  }

  /** Removing every `\s` leaves exactly the words, run together. */
  lemma {:induction false} RemoveSpacesIsConcatOfTokens(s: JString)
    ensures RemoveSpaces(s) == Concat(Tokens(s))
    decreases |s|
  {
    if s != [] {
      if IsSpace(s[0]) {
        RemoveSpacesIsConcatOfTokens(s[1..]);
      } else {
        var k := RunLength(s);
        RemoveSpacesOfRun(s, k);
        RemoveSpacesIsConcatOfTokens(s[k..]);
        assert Tokens(s) == [s[..k]] + Tokens(s[k..]);
        assert Concat(Tokens(s)) == s[..k] + Concat(Tokens(s[k..]));
      }
    }
  }
}
