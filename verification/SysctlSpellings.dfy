/** What a kernel may report for one value: its words with any white space between and around them. */
module SysctlSpellings {
  import opened Common
  import opened Spellings
  import opened SysctlText
  import opened SysctlManifests
  import opened TransactionModel

  /** Tab, line feed, vertical tab, form feed, carriage return, the four separators, and space. */
  predicate IsBlank(c: char) {
    c as int in {9, 10, 11, 12, 13, 28, 29, 30, 31, 32}
  }

  // ----- white space separates words -----

  lemma {:induction false} BlankIsSpace(c: char)
    ensures IsBlank(c) <==> IsSpace(c)
  {
  }

  lemma {:induction false} GapIsSkipped(gap: string, rest: string)
    requires IsGap(gap, IsBlank)
    ensures Words(gap + rest) == Words(rest)
    decreases |gap|
  {
    if gap == "" {
      assert gap + rest == rest;
    } else {
      BlankIsSpace(gap[0]);
      assert (gap + rest)[1..] == gap[1..] + rest;
      GapIsSkipped(gap[1..], rest);
    }
  }

  lemma {:induction false} WordIsCutOff(word: string, rest: string)
    requires IsPlain(word, IsBlank) && (rest == "" || IsBlank(rest[0]))
    ensures Words(word + rest) == [word] + Words(rest)
  {
    forall i | 0 <= i < |word| ensures !IsSpace(word[i]) {
      BlankIsSpace(word[i]);
    }
    if rest != "" { BlankIsSpace(rest[0]); }
    WordLengthOf(word, rest);
    var s := word + rest;
    assert !IsSpace(s[0]) && s[..|word|] == word && s[|word|..] == rest;
  }

  /** The words of a spelling are read off, whatever the white space is. */
  lemma {:induction false} WordsOfSpelling(gaps: seq<string>, words: seq<string>)
    requires ArePlain(words, IsBlank) && AreGaps(gaps, words, IsBlank)
    ensures Words(Spelled(gaps, words)) == words
    decreases |words|
  {
    assert IsGap(gaps[0], IsBlank);
    if words == [] {
      GapIsSkipped(gaps[0], "");
      assert gaps[0] + "" == gaps[0];
    } else {
      var rest := Spelled(gaps[1..], words[1..]);
      WordsOfSpelling(gaps[1..], words[1..]);
      RestBeginsWithGap(gaps, words, IsBlank);
      assert IsPlain(words[0], IsBlank);
      WordIsCutOff(words[0], rest);
      GapIsSkipped(gaps[0], words[0] + rest);
      assert [words[0]] + words[1..] == words;
      assert gaps[0] + words[0] + rest == gaps[0] + (words[0] + rest);
    }
  }

  lemma {:induction false} JoinIsSeparated(words: seq<string>)
    ensures Join(words) == Separated(words, " ")
    decreases |words|
  {
    SeparatedUnfolds(words, " ");
    if |words| > 1 {
      JoinIsSeparated(words[1..]);
    }
  }

  /** Canonicalization puts one space where there is any white space between words, and none around them. */
  lemma {:induction false} CanonicalOfSpelling(value: string, words: seq<string>)
    requires Spells(value, words, IsBlank)
    ensures Words(value) == words && Canonical(value) == Separated(words, " ")
  {
    var gaps: seq<string> :| AreGaps(gaps, words, IsBlank) && value == Spelled(gaps, words);
    WordsOfSpelling(gaps, words);
    JoinIsSeparated(words);
  }

  /** The two texts are the same words in different white space. */
  ghost predicate SameWords(a: string, b: string) {
    exists words :: Spells(a, words, IsBlank) && Spells(b, words, IsBlank)
  }

  /** Two values are equal up to white space if and only if they spell the same words. */
  lemma {:induction false} CanonicalsAgreeIff(a: string, b: string)
    ensures Canonical(a) == Canonical(b) <==> SameWords(a, b)
  {
    var words := EveryTextSpells(a, IsBlank);
    var others := EveryTextSpells(b, IsBlank);
    CanonicalOfSpelling(a, words);
    CanonicalOfSpelling(b, others);
    if Canonical(a) == Canonical(b) {
      CanonicalIsCanonical(a);
      CanonicalIsCanonical(b);
      assert words == others;
    } else if SameWords(a, b) {
      var same :| Spells(a, same, IsBlank) && Spells(b, same, IsBlank);
      CanonicalOfSpelling(a, same);
      CanonicalOfSpelling(b, same);
    }
  }

  lemma {:induction false} OneWordMore(word: string, gap: string, rest: string)
    requires IsPlain(word, IsBlank) && IsGap(gap, IsBlank) && gap != "" && Words(rest) != []
    ensures Words(word + gap + rest) == [word] + Words(rest)
    ensures Canonical(word + gap + rest) == word + " " + Canonical(rest)
  {
    assert word + gap + rest == word + (gap + rest);
    WordIsCutOff(word, gap + rest);
    GapIsSkipped(gap, rest);
    assert ([word] + Words(rest))[1..] == Words(rest);
  }

  lemma {:induction false} OneWord(word: string)
    requires IsPlain(word, IsBlank)
    ensures Words(word) == [word] && Canonical(word) == word
  {
    WordIsCutOff(word, "");
    assert word + "" == word;
  }

  /** Four fields with the same gap between them, as the kernel reports `kernel.printk` with tabs. */
  function Fields(a: string, b: string, c: string, d: string, gap: string): string {
    a + gap + (b + gap + (c + gap + d))
  }

  lemma {:induction false} FourFields(a: string, b: string, c: string, d: string, gap: string)
    requires IsPlain(a, IsBlank) && IsPlain(b, IsBlank) && IsPlain(c, IsBlank) && IsPlain(d, IsBlank)
    requires IsGap(gap, IsBlank) && gap != ""
    ensures Canonical(Fields(a, b, c, d, gap)) == Fields(a, b, c, d, " ")
  {
    OneWord(d);
    OneWordMore(c, gap, d);
    OneWordMore(b, gap, c + gap + d);
    OneWordMore(a, gap, b + gap + (c + gap + d));
  }

  lemma {:induction false} PrintkLiterals()
    ensures Fields("3", "3", "3", "3", "\t") == "3\t3\t3\t3" && Fields("3", "3", "3", "3", " ") == "3 3 3 3"
    ensures IsPlain("3", IsBlank) && IsGap("\t", IsBlank)
  {
  }

  lemma {:induction false} PrintkIsCanonical(reported: string, desired: string)
    requires reported == "3\t3\t3\t3" && desired == "3 3 3 3"
    ensures Canonical(reported) == desired
  {
    PrintkLiterals();
    var three, tab := "3", "\t";
    FourFields(three, three, three, three, tab);
  }

  // ----- what the engine compares -----

  /** The kernel reports the words of the desired value, in any spelling. */
  ghost predicate Reported(values: map<Key, string>, s: SysctlSetting) {
    s.key in values && exists words :: Spells(values[s.key], words, IsBlank) && s.desired == Separated(words, " ")
  }

  ghost predicate AllReported(values: map<Key, string>, modules: seq<SysctlModule>) {
    forall i, j :: 0 <= i < |modules| && 0 <= j < |modules[i].settings| ==> Reported(values, modules[i].settings[j])
  }

  /** A setting holds if and only if the kernel reports it so. */
  lemma {:induction false} HoldsIffReported(values: map<Key, string>, s: SysctlSetting)
    ensures SettingHolds(values, s) <==> Reported(values, s)
  {
    if s.key in values {
      var own := EveryTextSpells(values[s.key], IsBlank);
      CanonicalOfSpelling(values[s.key], own);
      if words :| Spells(values[s.key], words, IsBlank) && s.desired == Separated(words, " ") {
        CanonicalOfSpelling(values[s.key], words);
      }
    }
  }

  lemma {:induction false} AllHoldIffReported(values: map<Key, string>, modules: seq<SysctlModule>)
    ensures AllSettingsHold(values, modules) <==> AllReported(values, modules)
  {
    forall i, j | 0 <= i < |modules| && 0 <= j < |modules[i].settings|
      ensures SettingHolds(values, modules[i].settings[j]) <==> Reported(values, modules[i].settings[j])
    {
      HoldsIffReported(values, modules[i].settings[j]);
    }
    if AllSettingsHold(values, modules) {
      forall i, j | 0 <= i < |modules| && 0 <= j < |modules[i].settings| ensures Reported(values, modules[i].settings[j]) {
        assert SettingsHold(values, modules[i].settings);
      }
    }
  }

  /** Values agree with a snapshot if and only if each spells the same words as the one in the snapshot. */
  lemma {:induction false} ValuesMatchIff(values: map<Key, string>, sysctls: seq<(Key, string)>)
    ensures ValuesMatch(values, sysctls) <==>
            forall i :: 0 <= i < |sysctls| ==> sysctls[i].0 in values && SameWords(values[sysctls[i].0], sysctls[i].1)
  {
    forall i | 0 <= i < |sysctls| && sysctls[i].0 in values
      ensures Canonical(values[sysctls[i].0]) == Canonical(sysctls[i].1) <==> SameWords(values[sysctls[i].0], sysctls[i].1)
    {
      CanonicalsAgreeIff(values[sysctls[i].0], sysctls[i].1);
    }
  }
}
