/** Whitespace canonicalization of sysctl values and the grammar of desired values. */
module SysctlText {

  /** The ASCII characters on which `str.split()` separates words; values are decoded as ASCII. */
  predicate IsSpace(c: char) {
    '\t' <= c <= '\r' || '\U{1C}' <= c <= '\U{1F}' || c == ' '
  }

  predicate IsDigit(c: char) {
    '0' <= c <= '9'
  }

  /** Length of the longest prefix of `s` without whitespace. */
  function WordLength(s: string): (n: nat)
    ensures n <= |s|
    ensures forall i :: 0 <= i < n ==> !IsSpace(s[i])
    ensures n < |s| ==> IsSpace(s[n])
  {
    if s == [] || IsSpace(s[0]) then 0 else 1 + WordLength(s[1..])
  }

  ghost predicate IsWord(w: string) {
    w != [] && forall i :: 0 <= i < |w| ==> !IsSpace(w[i])
  }

  ghost predicate AllWords(ws: seq<string>) {
    forall i :: 0 <= i < |ws| ==> IsWord(ws[i])
  }

  /** `value.split()`: the maximal runs of non-whitespace, in order. */
  function Words(s: string): (ws: seq<string>)
    ensures AllWords(ws)
    decreases |s|
  {
    if s == [] then []
    else if IsSpace(s[0]) then Words(s[1..])
    else
      var n := WordLength(s);
      [s[..n]] + Words(s[n..])
  }

  /** `" ".join(words)`. */
  function Join(ws: seq<string>): string {
    if ws == [] then ""
    else if |ws| == 1 then ws[0]
    else ws[0] + " " + Join(ws[1..])
  }

  /** The value up to whitespace: `" ".join(value.split())`. */
  function Canonical(value: string): string {
    Join(Words(value))
  }

  /** A word followed by whitespace, or ending the text, is cut off whole. */
  lemma WordLengthOf(w: string, rest: string)
    requires forall i :: 0 <= i < |w| ==> !IsSpace(w[i])
    requires rest == [] || IsSpace(rest[0])
    ensures WordLength(w + rest) == |w|
  {
    if w == [] {
      assert w + rest == rest;
    } else {
      assert (w + rest)[1..] == w[1..] + rest;
      WordLengthOf(w[1..], rest);
    }
  }

  lemma {:induction false} WordsOfJoin(ws: seq<string>)
    requires AllWords(ws)
    ensures Words(Join(ws)) == ws
  {
    if ws != [] {
      var rest := if |ws| == 1 then "" else " " + Join(ws[1..]);
      var s := ws[0] + rest;
      assert Join(ws) == s;
      assert IsWord(ws[0]);
      WordLengthOf(ws[0], rest);
      assert s[..|ws[0]|] == ws[0] && s[|ws[0]|..] == rest && !IsSpace(s[0]);
      assert Words(s) == [ws[0]] + Words(rest);
      if |ws| > 1 {
        assert rest[1..] == Join(ws[1..]);
        WordsOfJoin(ws[1..]);
        assert Words(rest) == Words(rest[1..]);
      }
    }
  }

  /** Canonicalization is idempotent, so comparing canonical forms is comparing word lists. */
  lemma CanonicalIsCanonical(value: string)
    ensures Words(Canonical(value)) == Words(value)
    ensures Canonical(Canonical(value)) == Canonical(value)
  {
    WordsOfJoin(Words(value));
  }

  /** The desired-value grammar: digit groups separated by single spaces. */
  predicate IsValue(s: string) {
    s != [] && IsDigit(s[0]) && IsValueTail(s[1..])
  }

  predicate IsValueTail(s: string) {
    s == [] || (IsDigit(s[0]) && IsValueTail(s[1..])) || (s[0] == ' ' && IsValue(s[1..]))
  }

  /** A desired value is its own canonical form, so the engine may compare against it directly. */
  lemma {:induction false} ValueIsCanonical(s: string)
    requires IsValue(s)
    ensures Canonical(s) == s
    decreases |s|
  {
    var n := WordLength(s);
    DigitsThenSpace(s, n);
    if n == |s| {
      assert s[..n] == s && Words(s) == [s];
    } else {
      ValueIsCanonical(s[n + 1..]);
      FirstWord(s, n);
      assert s == s[..n] + " " + s[n + 1..];
    }
  }

  /** A first word of `n` characters and one space before the rest. */
  lemma {:induction false} FirstWord(s: string, n: nat)
    requires 0 < n < |s| && n == WordLength(s) && s[n] == ' ' && Words(s[n + 1..]) != []
    ensures Canonical(s) == s[..n] + " " + Canonical(s[n + 1..])
  {
    var rest := Words(s[n + 1..]);
    assert s[n..][1..] == s[n + 1..];
    assert Words(s[n..]) == rest;
    assert Words(s) == [s[..n]] + rest;
  }

  lemma {:induction false} DigitsThenSpace(s: string, n: nat)
    requires IsValue(s) || IsValueTail(s)
    requires n == WordLength(s)
    ensures IsValue(s) ==> n > 0
    ensures n < |s| ==> s[n] == ' ' && IsValue(s[n + 1..])
  {
    if s != [] && IsDigit(s[0]) {
      assert IsValueTail(s[1..]);
      DigitsThenSpace(s[1..], n - 1);
      if n < |s| {
        assert s[1..][n..] == s[n + 1..];
      }
    }
  }
}
