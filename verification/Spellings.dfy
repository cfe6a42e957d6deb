/** Texts as words with gaps between and around them, for any choice of the characters that gaps are made of. */
module Spellings {

  ghost predicate IsGap(s: string, gap: char -> bool) {
    forall i :: 0 <= i < |s| ==> gap(s[i])
  }

  ghost predicate IsPlain(word: string, gap: char -> bool) {
    word != "" && forall i :: 0 <= i < |word| ==> !gap(word[i])
  }

  ghost predicate ArePlain(words: seq<string>, gap: char -> bool) {
    forall i :: 0 <= i < |words| ==> IsPlain(words[i], gap)
  }

  /** One gap before each word and one at the end; words are really apart. */
  ghost predicate AreGaps(gaps: seq<string>, words: seq<string>, gap: char -> bool) {
    && |gaps| == |words| + 1
    && (forall i :: 0 <= i < |gaps| ==> IsGap(gaps[i], gap))
    && forall i :: 0 < i < |words| ==> gaps[i] != ""
  }

  /** The words with these gaps. */
  function Spelled(gaps: seq<string>, words: seq<string>): string
    requires |gaps| == |words| + 1
  {
    if words == [] then gaps[0] else gaps[0] + words[0] + Spelled(gaps[1..], words[1..])
  }

  /** The text is these words, separated and surrounded by gaps of any kind and length. */
  ghost predicate Spells(value: string, words: seq<string>, gap: char -> bool) {
    ArePlain(words, gap) && exists gaps: seq<string> :: AreGaps(gaps, words, gap) && value == Spelled(gaps, words)
  }

  /** The words with the separator between any two of them, and nothing around them. */
  function Separated(words: seq<string>, separator: string): string {
    Spelled(seq(|words| + 1, i => if 0 < i < |words| then separator else ""), words)
  }

  lemma {:induction false} SeparatedUnfolds(words: seq<string>, separator: string)
    ensures Separated(words, separator) ==
            if words == [] then ""
            else if |words| == 1 then words[0]
            else words[0] + separator + Separated(words[1..], separator)
  {
    var gaps := seq(|words| + 1, i => if 0 < i < |words| then separator else "");
    if |words| == 1 {
      assert Spelled(gaps[1..], words[1..]) == "";
    } else if |words| > 1 {
      var inner := seq(|words|, i => if 0 < i < |words| - 1 then separator else "");
      assert inner[1..] == gaps[1..][1..] && Separated(words[1..], separator) == Spelled(inner, words[1..]);
      assert Spelled(gaps[1..], words[1..]) == separator + Spelled(inner, words[1..]);
    }
  }

  /** What follows the first word of a spelling is nothing or begins with a gap. */
  lemma {:induction false} RestBeginsWithGap(gaps: seq<string>, words: seq<string>, gap: char -> bool)
    requires AreGaps(gaps, words, gap) && words != []
    ensures var rest := Spelled(gaps[1..], words[1..]); rest == "" || gap(rest[0])
  {
    var first := gaps[1];
    assert IsGap(first, gap);
    if |words| > 1 {
      assert gaps[1..][0] == first && first != "";
      assert Spelled(gaps[1..], words[1..])[0] == first[0];
    }
  }

  // ----- every text is a spelling -----

  function RunLength(s: string, gap: char -> bool): (n: nat)
    ensures n <= |s| && (forall i :: 0 <= i < n ==> !gap(s[i])) && (n < |s| ==> gap(s[n]))
  {
    if s == "" || gap(s[0]) then 0 else 1 + RunLength(s[1..], gap)
  }

  lemma {:induction false} LongerGap(c: char, gaps: seq<string>, words: seq<string>, gap: char -> bool)
    requires gap(c) && AreGaps(gaps, words, gap)
    ensures var more := [[c] + gaps[0]] + gaps[1..];
            AreGaps(more, words, gap) && Spelled(more, words) == [c] + Spelled(gaps, words)
  {
    var more := [[c] + gaps[0]] + gaps[1..];
    assert more[1..] == gaps[1..];
    forall i | 0 <= i < |more| ensures IsGap(more[i], gap) {
      assert IsGap(gaps[i], gap);
    }
    if words != [] {
      var rest := Spelled(gaps[1..], words[1..]);
      assert [c] + gaps[0] + words[0] + rest == [c] + (gaps[0] + words[0] + rest);
    }
  }

  lemma {:induction false} AnotherWord(word: string, gaps: seq<string>, words: seq<string>, gap: char -> bool)
    requires AreGaps(gaps, words, gap) && (words != [] ==> gaps[0] != "")
    ensures AreGaps([""] + gaps, [word] + words, gap) && Spelled([""] + gaps, [word] + words) == word + Spelled(gaps, words)
  {
    var more, all := [""] + gaps, [word] + words;
    assert more[1..] == gaps && all[1..] == words;
    assert "" + word + Spelled(gaps, words) == word + Spelled(gaps, words);
  }

  lemma {:induction false} Decomposed(value: string, gap: char -> bool) returns (gaps: seq<string>, words: seq<string>)
    ensures ArePlain(words, gap) && AreGaps(gaps, words, gap) && value == Spelled(gaps, words)
    ensures value != "" && gap(value[0]) ==> gaps[0] != ""
    ensures value == "" ==> words == []
    decreases |value|
  {
    if value == "" {
      gaps, words := [""], [];
    } else if gap(value[0]) {
      gaps, words := Decomposed(value[1..], gap);
      LongerGap(value[0], gaps, words, gap);
      gaps := [[value[0]] + gaps[0]] + gaps[1..];
    } else {
      var n := RunLength(value, gap);
      gaps, words := Decomposed(value[n..], gap);
      AnotherWord(value[..n], gaps, words, gap);
      assert value == value[..n] + value[n..];
      gaps, words := [""] + gaps, [value[..n]] + words;
    }
  }

  lemma {:induction false} EveryTextSpells(value: string, gap: char -> bool) returns (words: seq<string>)
    ensures Spells(value, words, gap)
  {
    var gaps: seq<string>;
    gaps, words := Decomposed(value, gap);
  }
}
