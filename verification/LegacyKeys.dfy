/** Which key a legacy section and name migrate to, and what a whole legacy document migrates to. */
module LegacyKeys {
  import opened Common
  import opened Json
  import opened Spellings
  import opened TextLines
  import opened Configuration
  import opened LegacyConfiguration

  // ----- identifiers -----

  /** Anything but an ASCII letter or digit. */
  predicate IsJunk(c: char) {
    var code := c as int;
    !(48 <= code <= 57 || 65 <= code <= 90 || 97 <= code <= 122)
  }

  /** `upper` is the word with every small letter replaced by its capital, 32 places before it. */
  ghost predicate Capitals(word: string, upper: string) {
    |upper| == |word|
    && forall i :: 0 <= i < |word| ==>
         upper[i] as int == if 97 <= word[i] as int <= 122 then word[i] as int - 32 else word[i] as int
  }

  ghost predicate AllCapitals(words: seq<string>, uppers: seq<string>) {
    |uppers| == |words| && forall i :: 0 <= i < |words| ==> Capitals(words[i], uppers[i])
  }

  /** `id` is the identifier of `name`: its words of letters and digits in capitals, joined by underscores. */
  ghost predicate IsIdentifier(id: string, name: string) {
    exists words, uppers :: Spells(name, words, IsJunk) && words != [] && AllCapitals(words, uppers) && id == Separated(uppers, "_")
  }

  function Capital(word: string): string {
    seq(|word|, i requires 0 <= i < |word| => Upper(word[i]))
  }

  function AllCapital(words: seq<string>): (uppers: seq<string>)
    ensures |uppers| == |words| && forall i :: 0 <= i < |words| ==> uppers[i] == Capital(words[i])
  {
    seq(|words|, i requires 0 <= i < |words| => Capital(words[i]))
  }

  lemma {:induction false} CapitalIsUnique(words: seq<string>, uppers: seq<string>)
    ensures AllCapitals(words, uppers) <==> uppers == AllCapital(words)
  {
    forall i | 0 <= i < |words| ensures Capitals(words[i], Capital(words[i])) {
    }
    if AllCapitals(words, uppers) {
      forall i | 0 <= i < |words| ensures uppers[i] == Capital(words[i]) {
        assert Capitals(words[i], uppers[i]);
      }
    }
  }

  lemma {:induction false} JunkIsSkipped(gap: string, rest: string)
    requires IsGap(gap, IsJunk)
    ensures Underscored(gap + rest) == Underscored(rest)
    decreases |gap|
  {
    if gap == "" {
      assert gap + rest == rest;
    } else {
      assert (gap + rest)[1..] == gap[1..] + rest;
      assert IsJunk(gap[0]) && !IsAlphanumeric(gap[0]);
      JunkIsSkipped(gap[1..], rest);
    }
  }

  lemma {:induction false} WordLengthOf(word: string, rest: string)
    requires (forall i :: 0 <= i < |word| ==> !IsJunk(word[i])) && (rest == "" || IsJunk(rest[0]))
    ensures WordLength(word + rest) == |word|
    decreases |word|
  {
    if word == "" {
      assert word + rest == rest;
    } else {
      assert (word + rest)[1..] == word[1..] + rest;
      assert !IsJunk(word[0]) && IsAlphanumeric(word[0]);
      WordLengthOf(word[1..], rest);
    }
  }

  lemma {:induction false} WordIsCutOff(word: string, rest: string)
    requires IsPlain(word, IsJunk) && (rest == "" || IsJunk(rest[0]))
    ensures Underscored(word + rest) ==
            if Underscored(rest) == "" then Capital(word) else Capital(word) + "_" + Underscored(rest)
  {
    WordLengthOf(word, rest);
    var s := word + rest;
    assert s[|word|..] == rest;
    assert seq(|word|, i requires 0 <= i < |word| => Upper(s[i])) == Capital(word);
  }

  function Joined(words: seq<string>): string {
    Separated(AllCapital(words), "_")
  }

  lemma {:induction false} JoinedUnfolds(words: seq<string>)
    requires ArePlain(words, IsJunk)
    ensures words == [] ==> Joined(words) == ""
    ensures words != [] ==>
              Joined(words) == if Joined(words[1..]) == "" then Capital(words[0]) else Capital(words[0]) + "_" + Joined(words[1..])
    ensures words != [] ==> Joined(words) != ""
  {
    var uppers := AllCapital(words);
    SeparatedUnfolds(uppers, "_");
    if words != [] {
      assert IsPlain(words[0], IsJunk);
      assert uppers[1..] == AllCapital(words[1..]);
      if |words| > 1 {
        SeparatedUnfolds(uppers[1..], "_");
        assert IsPlain(words[1], IsJunk) && uppers[1..][0] == Capital(words[1]);
      } else {
        SeparatedUnfolds(uppers[1..], "_");
      }
    }
  }

  lemma {:induction false} FirstOfSpelling(gaps: seq<string>, words: seq<string>)
    requires ArePlain(words, IsJunk) && AreGaps(gaps, words, IsJunk) && words != []
    ensures var rest := Spelled(gaps[1..], words[1..]);
            Underscored(Spelled(gaps, words)) ==
            if Underscored(rest) == "" then Capital(words[0]) else Capital(words[0]) + "_" + Underscored(rest)
  {
    var rest := Spelled(gaps[1..], words[1..]);
    RestBeginsWithGap(gaps, words, IsJunk);
    assert IsGap(gaps[0], IsJunk) && IsPlain(words[0], IsJunk);
    WordIsCutOff(words[0], rest);
    JunkIsSkipped(gaps[0], words[0] + rest);
    assert gaps[0] + words[0] + rest == gaps[0] + (words[0] + rest);
  }

  lemma {:induction false} UnderscoredOfSpelling(gaps: seq<string>, words: seq<string>)
    requires ArePlain(words, IsJunk) && AreGaps(gaps, words, IsJunk)
    ensures Underscored(Spelled(gaps, words)) == Joined(words)
    decreases |words|
  {
    JoinedUnfolds(words);
    if words == [] {
      assert IsGap(gaps[0], IsJunk);
      JunkIsSkipped(gaps[0], "");
      assert gaps[0] + "" == gaps[0];
    } else {
      FirstOfSpelling(gaps, words);
      UnderscoredOfSpelling(gaps[1..], words[1..]);
    }
  }

  /** The identifier of a name that spells these words. */
  lemma {:induction false} IdentifierOfSpelling(name: string, words: seq<string>)
    requires Spells(name, words, IsJunk)
    ensures Identifier(name) == if words == [] then None else Some(Joined(words))
  {
    var gaps: seq<string> :| AreGaps(gaps, words, IsJunk) && name == Spelled(gaps, words);
    UnderscoredOfSpelling(gaps, words);
    JoinedUnfolds(words);
  }

  /** A name has the identifier that its words make in capitals, if it has a word. */
  lemma {:induction false} IdentifierIff(name: string, id: string)
    ensures Identifier(name) == Some(id) <==> IsIdentifier(id, name)
  {
    var own := EveryTextSpells(name, IsJunk);
    IdentifierOfSpelling(name, own);
    CapitalIsUnique(own, AllCapital(own));
    if words, uppers :| Spells(name, words, IsJunk) && words != [] && AllCapitals(words, uppers) && id == Separated(uppers, "_") {
      IdentifierOfSpelling(name, words);
      CapitalIsUnique(words, uppers);
    }
  }

  // ----- keys -----

  /** The section's name without one `_hardening` at its end. */
  ghost predicate IsStem(stem: string, section: string) {
    section == stem + "_hardening" || (section == stem && forall s :: section != s + "_hardening")
  }

  ghost predicate IsModuleKey(key: string, section: string) {
    exists stem, id :: IsStem(stem, section) && IsIdentifier(id, stem) && key == "MODULE_" + id + "_ENABLED"
  }

  ghost predicate IsFeatureKey(key: string, section: string, feature: string) {
    exists stem, id, own ::
      IsStem(stem, section) && IsIdentifier(id, stem) && IsIdentifier(own, feature) && key == "FEATURE_" + id + "_" + own
  }

  ghost predicate IsOptionKey(key: string, section: string, name: string) {
    exists id, own :: IsIdentifier(id, section) && IsIdentifier(own, name) && key == id + "_" + own
  }

  ghost predicate IsFeature(name: string, feature: string) {
    name == "feature_" + feature
  }

  /** The key that a name has in its section: a module's switch, a feature of the module, or an option of the
      section; without a section, the name itself. */
  ghost predicate IsKeyOf(key: string, section: Option<string>, name: string) {
    match section
    case None => IsIdentifier(key, name)
    case Some(n) =>
      if name == "module_enabled" then IsModuleKey(key, n)
      else if exists f :: IsFeature(name, f) then exists f :: IsFeature(name, f) && IsFeatureKey(key, n, f)
      else IsOptionKey(key, n, name)
  }

  lemma {:induction false} StemIsUnique(section: string, stem: string)
    ensures IsStem(stem, section) <==> stem == RemoveSuffix(section, "_hardening")
  {
    var suffix := "_hardening";
    var cut := |section| - |suffix|;
    if cut >= 0 && section[cut..] == suffix {
      assert section == section[..cut] + suffix;
      if section == stem + suffix {
        assert stem == section[..cut];
      }
    } else {
      forall s ensures section != s + suffix {
        assert (s + suffix)[|s|..] == suffix;
      }
    }
  }

  lemma {:induction false} FeatureIsUnique(name: string, f: string)
    ensures IsFeature(name, f) <==> "feature_" <= name && f == name[|"feature_"|..]
  {
    if "feature_" <= name {
      assert name == "feature_" + name[|"feature_"|..];
    }
  }

  lemma {:induction false} ModuleKeyIff(n: string, key: string)
    ensures CanonicalKey(Some(n), "module_enabled") == Some(key) <==> IsModuleKey(key, n)
  {
    var stem := RemoveSuffix(n, "_hardening");
    StemIsUnique(n, stem);
    if Identifier(stem).Some? { IdentifierIff(stem, Identifier(stem).value); }
    if s, id :| IsStem(s, n) && IsIdentifier(id, s) && key == "MODULE_" + id + "_ENABLED" {
      StemIsUnique(n, s);
      IdentifierIff(s, id);
    }
  }

  lemma {:induction false} FeatureKeyIff(n: string, name: string, f: string, key: string)
    requires name != "module_enabled" && "feature_" <= name && f == name[|"feature_"|..]
    ensures CanonicalKey(Some(n), name) == Some(key) <==> IsFeatureKey(key, n, f)
  {
    var stem := RemoveSuffix(n, "_hardening");
    StemIsUnique(n, stem);
    if Identifier(stem).Some? { IdentifierIff(stem, Identifier(stem).value); }
    if Identifier(f).Some? { IdentifierIff(f, Identifier(f).value); }
    if s, id, own :| IsStem(s, n) && IsIdentifier(id, s) && IsIdentifier(own, f) && key == "FEATURE_" + id + "_" + own {
      StemIsUnique(n, s);
      IdentifierIff(s, id);
      IdentifierIff(f, own);
    }
  }

  lemma {:induction false} OptionKeyIff(n: string, name: string, key: string)
    requires name != "module_enabled" && !("feature_" <= name)
    ensures CanonicalKey(Some(n), name) == Some(key) <==> IsOptionKey(key, n, name)
  {
    if Identifier(n).Some? { IdentifierIff(n, Identifier(n).value); }
    if Identifier(name).Some? { IdentifierIff(name, Identifier(name).value); }
    if id, own :| IsIdentifier(id, n) && IsIdentifier(own, name) && key == id + "_" + own {
      IdentifierIff(n, id);
      IdentifierIff(name, own);
    }
  }

  /** Exactly this key comes out. */
  lemma {:induction false} KeyIff(section: Option<string>, name: string, key: string)
    ensures CanonicalKey(section, name) == Some(key) <==> IsKeyOf(key, section, name)
  {
    if section == None {
      IdentifierIff(name, key);
    } else if name == "module_enabled" {
      ModuleKeyIff(section.value, key);
    } else {
      forall f ensures IsFeature(name, f) <==> "feature_" <= name && f == name[|"feature_"|..] {
        FeatureIsUnique(name, f);
      }
      if "feature_" <= name {
        FeatureKeyIff(section.value, name, name[|"feature_"|..], key);
        assert IsFeature(name, name[|"feature_"|..]);
      } else {
        OptionKeyIff(section.value, name, key);
      }
    }
  }
}
