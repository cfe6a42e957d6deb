/** Python's `str.splitlines` and `str.strip`. */
module TextLines {

  /** The characters at which `splitlines` ends a line. */
  predicate IsBreak(c: char) {
    '\n' <= c <= '\r' || '\U{1C}' <= c <= '\U{1E}' || c == '\U{85}' || c == '\U{2028}' || c == '\U{2029}'
  }

  /** The characters that `strip` removes. */
  predicate IsBlank(c: char) {
    || '\t' <= c <= '\r' || '\U{1C}' <= c <= ' ' || c == '\U{85}' || c == '\U{A0}' || c == '\U{1680}'
    || '\U{2000}' <= c <= '\U{200A}' || c == '\U{2028}' || c == '\U{2029}' || c == '\U{202F}' || c == '\U{205F}'
    || c == '\U{3000}'
  }

  /** Both sets, by code point. */
  lemma Characters(c: char)
    ensures IsBreak(c) <==> c as int in {10, 11, 12, 13, 28, 29, 30, 133, 8232, 8233}
    ensures IsBlank(c) <==> || c as int in {9, 10, 11, 12, 13, 28, 29, 30, 31, 32, 133, 160, 5760, 8232, 8233, 8239, 8287, 12288}
                            || 8192 <= c as int <= 8202
  {
  }

  ghost predicate OneLine(s: string) {
    forall i :: 0 <= i < |s| ==> !IsBreak(s[i])
  }

  /** Length of the first line. */
  function LineLength(s: string): (n: nat)
    ensures n <= |s|
    ensures forall i :: 0 <= i < n ==> !IsBreak(s[i])
    ensures n < |s| ==> IsBreak(s[n])
  {
    if s == [] || IsBreak(s[0]) then 0 else 1 + LineLength(s[1..])
  }

  /** A carriage return and the line feed after it are one break. */
  function BreakLength(s: string): (n: nat)
    requires s != []
    ensures 1 <= n <= |s|
  {
    if s[0] == '\r' && |s| > 1 && s[1] == '\n' then 2 else 1
  }

  function SplitLines(s: string): seq<string>
    decreases |s|
  {
    if s == [] then []
    else
      var n := LineLength(s);
      if n == |s| then [s] else [s[..n]] + SplitLines(s[n + BreakLength(s[n..])..])
  }

  lemma {:induction false} SplitLinesAreLines(s: string)
    ensures forall i :: 0 <= i < |SplitLines(s)| ==> OneLine(SplitLines(s)[i])
    decreases |s|
  {
    if s != [] && LineLength(s) < |s| {
      var n := LineLength(s);
      SplitLinesAreLines(s[n + BreakLength(s[n..])..]);
    }
  }

  lemma {:induction false} LineLengthOf(a: string, rest: string)
    requires OneLine(a) && (rest == [] || IsBreak(rest[0]))
    ensures LineLength(a + rest) == |a|
    decreases |a|
  {
    if a == [] {
      assert a + rest == rest;
    } else {
      assert (a + rest)[1..] == a[1..] + rest;
      LineLengthOf(a[1..], rest);
    }
  }

  /** A line is split off whole, with the break that ends it, which is any one break character or a carriage
      return and a line feed. */
  lemma SplitBefore(line: string, end: string, rest: string)
    requires OneLine(line)
    requires end == "\r\n" || (|end| == 1 && IsBreak(end[0]) && !(end == "\r" && rest != "" && rest[0] == '\n'))
    ensures SplitLines(line + end + rest) == [line] + SplitLines(rest)
  {
    var s, tail := line + end + rest, end + rest;
    assert s == line + tail;
    LineLengthOf(line, tail);
    assert s[..|line|] == line && s[|line|..] == tail && tail[0] == end[0];
    assert BreakLength(tail) == |end|;
    assert s[|line| + |end|..] == rest;
  }

  /** A line ended by a line feed is split off whole. */
  lemma SplitOff(line: string, rest: string)
    requires OneLine(line)
    ensures SplitLines(line + "\n" + rest) == [line] + SplitLines(rest)
  {
    SplitBefore(line, "\n", rest);
  }

  /** The first line of a text that breaks after `a`. */
  lemma SplitAt(a: string, rest: string)
    requires OneLine(a) && rest != [] && IsBreak(rest[0])
    ensures SplitLines(a + rest) != [] && SplitLines(a + rest)[0] == a
  {
    LineLengthOf(a, rest);
    assert (a + rest)[..|a|] == a;
  }

  function StripLeft(s: string): string {
    if s != [] && IsBlank(s[0]) then StripLeft(s[1..]) else s
  }

  function StripRight(s: string): string {
    if s != [] && IsBlank(s[|s| - 1]) then StripRight(s[..|s| - 1]) else s
  }

  /** `strip`: the text without the blank characters at its ends. */
  function Strip(s: string): string {
    StripRight(StripLeft(s))
  }

  /** What is stripped is the blank beginning and end, and nothing else. */
  lemma StripBounds(s: string) returns (i: nat, j: nat)
    ensures i <= j <= |s| && Strip(s) == s[i..j]
    ensures (forall k :: 0 <= k < i || j <= k < |s| ==> IsBlank(s[k]))
    ensures i < j ==> !IsBlank(s[i]) && !IsBlank(s[j - 1])
  {
    i := StripLeftBound(s);
    var left := StripLeft(s);
    var n := StripRightBound(left);
    j := i + n;
    assert left[..n] == s[i..j];
    forall k | j <= k < |s| ensures IsBlank(s[k]) {
      assert left[k - i] == s[k];
    }
  }

  lemma {:induction false} StripLeftBound(s: string) returns (i: nat)
    ensures i <= |s| && StripLeft(s) == s[i..]
    ensures (forall k :: 0 <= k < i ==> IsBlank(s[k])) && (i < |s| ==> !IsBlank(s[i]))
    decreases |s|
  {
    i := 0;
    if s != [] && IsBlank(s[0]) {
      var n := StripLeftBound(s[1..]);
      i := n + 1;
      assert s[1..][n..] == s[i..];
    } else {
      assert s[0..] == s;
    }
  }

  lemma {:induction false} StripRightBound(s: string) returns (j: nat)
    ensures j <= |s| && StripRight(s) == s[..j]
    ensures (forall k :: j <= k < |s| ==> IsBlank(s[k])) && (0 < j ==> !IsBlank(s[j - 1]))
    decreases |s|
  {
    j := |s|;
    if s != [] && IsBlank(s[|s| - 1]) {
      j := StripRightBound(s[..|s| - 1]);
      assert s[..|s| - 1][..j] == s[..j];
    } else {
      assert s[..j] == s;
    }
  }

  lemma StripKeepsOneLine(s: string)
    requires OneLine(s)
    ensures OneLine(Strip(s))
  {
    var i, j := StripBounds(s);
  }

  /** A text that begins with a visible character keeps its beginning. */
  lemma StripKeepsBeginning(s: string)
    requires s != [] && !IsBlank(s[0])
    ensures Strip(s) != [] && Strip(s) <= s
    ensures !IsBlank(s[|s| - 1]) ==> Strip(s) == s
  {
    var i, j := StripBounds(s);
    assert s[0..j] == s[..j];
    assert s[..|s|] == s;
  }
}
