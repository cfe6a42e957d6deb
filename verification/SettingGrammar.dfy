/** The grammars of keys and desired values as lists of parts, and what a reader finds in a rendered drop-in. */
module SettingGrammar {
  import opened Common
  import opened Json
  import opened Spellings
  import opened SysctlText
  import opened SysctlManifests
  import opened ManifestLoader
  import opened TransactionModel
  import opened TextLines
  import P = ProductionProtocol

  /** Parts that are not empty and have only such characters. */
  ghost predicate AreParts(parts: seq<string>, allowed: char -> bool) {
    parts != [] && forall i :: 0 <= i < |parts| ==> IsPart(parts[i], allowed)
  }

  ghost predicate IsPart(part: string, allowed: char -> bool) {
    part != "" && forall j :: 0 <= j < |part| ==> allowed(part[j])
  }

  lemma {:induction false} LongerFirst(c: char, parts: seq<string>, allowed: char -> bool, separator: string)
    requires AreParts(parts, allowed) && allowed(c)
    ensures var more := [[c] + parts[0]] + parts[1..];
            AreParts(more, allowed) && Separated(more, separator) == [c] + Separated(parts, separator)
  {
    var more := [[c] + parts[0]] + parts[1..];
    assert IsPart(parts[0], allowed) && more[1..] == parts[1..];
    forall i | 0 <= i < |more| ensures IsPart(more[i], allowed) {
      assert IsPart(parts[i], allowed);
    }
    LongerFirstText(c, parts, more, separator);
  }

  lemma {:induction false} LongerFirstText(c: char, parts: seq<string>, more: seq<string>, separator: string)
    requires parts != [] && |more| == |parts| && more[0] == [c] + parts[0] && more[1..] == parts[1..]
    ensures Separated(more, separator) == [c] + Separated(parts, separator)
  {
    SeparatedUnfolds(parts, separator);
    SeparatedUnfolds(more, separator);
    if |parts| > 1 {
      InFront(c, parts[0], separator, Separated(parts[1..], separator));
    }
  }

  lemma {:induction false} InFront(c: char, a: string, b: string, d: string)
    ensures [c] + a + b + d == [c] + (a + b + d)
  {
  }

  lemma {:induction false} OnePart(part: string, allowed: char -> bool, separator: string)
    requires IsPart(part, allowed)
    ensures AreParts([part], allowed) && Separated([part], separator) == part
  {
    SeparatedUnfolds([part], separator);
  }

  lemma {:induction false} AnotherPart(part: string, parts: seq<string>, allowed: char -> bool, separator: string)
    requires IsPart(part, allowed) && AreParts(parts, allowed)
    ensures AreParts([part] + parts, allowed)
    ensures Separated([part] + parts, separator) == part + separator + Separated(parts, separator)
  {
    var more := [part] + parts;
    assert more[1..] == parts;
    SeparatedUnfolds(more, separator);
  }

  // ----- desired values -----

  lemma {:induction false} ValueSplits(s: string) returns (groups: seq<string>)
    requires IsValue(s)
    ensures AreParts(groups, IsDigit) && s == Separated(groups, " ")
    decreases |s|
  {
    var tail := s[1..];
    assert s == [s[0]] + tail && IsPart([s[0]], IsDigit);
    if tail == "" {
      groups := [s];
      OnePart(s, IsDigit, " ");
    } else if IsDigit(tail[0]) {
      groups := ValueSplits(tail);
      LongerFirst(s[0], groups, IsDigit, " ");
      groups := [[s[0]] + groups[0]] + groups[1..];
    } else {
      groups := ValueSplits(tail[1..]);
      AnotherPart([s[0]], groups, IsDigit, " ");
      assert tail == " " + tail[1..];
      groups := [[s[0]]] + groups;
    }
  }

  lemma {:induction false} DigitsAndMore(group: string, rest: string)
    requires IsPart(group, IsDigit) && IsValueTail(rest)
    ensures IsValue(group + rest)
    decreases |group|
  {
    var s := group + rest;
    assert s[0] == group[0] && s[1..] == group[1..] + rest;
    if |group| > 1 {
      DigitsAndMore(group[1..], rest);
    } else {
      assert s[1..] == rest;
    }
  }

  lemma {:induction false} GroupsMakeValue(groups: seq<string>)
    requires AreParts(groups, IsDigit)
    ensures IsValue(Separated(groups, " "))
    decreases |groups|
  {
    SeparatedUnfolds(groups, " ");
    assert IsPart(groups[0], IsDigit);
    if |groups| == 1 {
      DigitsAndMore(groups[0], "");
      assert groups[0] + "" == groups[0];
    } else {
      var rest := Separated(groups[1..], " ");
      GroupsMakeValue(groups[1..]);
      assert (" " + rest)[1..] == rest;
      DigitsAndMore(groups[0], " " + rest);
      assert groups[0] + (" " + rest) == groups[0] + " " + rest;
    }
  }

  /** A desired value is one group of digits or more, with single spaces between them. */
  lemma {:induction false} ValueIff(s: string)
    ensures IsValue(s) <==> exists groups :: AreParts(groups, IsDigit) && s == Separated(groups, " ")
  {
    if IsValue(s) {
      var groups := ValueSplits(s);
    } else if groups :| AreParts(groups, IsDigit) && s == Separated(groups, " ") {
      GroupsMakeValue(groups);
    }
  }

  // ----- keys -----

  /** Dots only inside and never two in a row. */
  ghost predicate DotsApart(s: string) {
    s != "" && forall i :: 0 <= i < |s| ==> DotAt(s, i)
  }

  ghost predicate DotAt(s: string, i: nat)
    requires i < |s|
  {
    if s[i] == '.' then 0 < i < |s| - 1 && s[i + 1] != '.' else P.IsIdentifierChar(s[i])
  }

  lemma {:induction false} RestApart(s: string, n: nat)
    requires DotsApart(s) && 0 < n < |s| && s[n] != '.'
    ensures DotsApart(s[n..])
  {
    var rest := s[n..];
    forall i | 0 <= i < |rest| ensures DotAt(rest, i) {
      assert DotAt(s, n + i);
    }
  }

  lemma {:induction false} KeySplits(s: string) returns (parts: seq<string>)
    requires DotsApart(s)
    ensures AreParts(parts, P.IsIdentifierChar) && s == Separated(parts, ".") && parts[0][0] == s[0]
    decreases |s|
  {
    assert DotAt(s, 0) && IsPart([s[0]], P.IsIdentifierChar);
    if |s| == 1 {
      parts := [s];
      OnePart(s, P.IsIdentifierChar, ".");
    } else if s[1] == '.' {
      assert DotAt(s, 1);
      RestApart(s, 2);
      parts := KeySplits(s[2..]);
      AnotherPart([s[0]], parts, P.IsIdentifierChar, ".");
      assert s == [s[0]] + "." + s[2..];
      parts := [[s[0]]] + parts;
    } else {
      RestApart(s, 1);
      parts := KeySplits(s[1..]);
      LongerFirst(s[0], parts, P.IsIdentifierChar, ".");
      assert s == [s[0]] + s[1..];
      parts := [[s[0]] + parts[0]] + parts[1..];
    }
  }

  lemma {:induction false} PartsAreApart(parts: seq<string>)
    requires AreParts(parts, P.IsIdentifierChar)
    ensures var s := Separated(parts, "."); DotsApart(s) && s[0] == parts[0][0] && ('.' in s <==> |parts| > 1)
    decreases |parts|
  {
    SeparatedUnfolds(parts, ".");
    var first := parts[0];
    assert IsPart(first, P.IsIdentifierChar);
    if |parts| == 1 {
      forall i | 0 <= i < |first| ensures DotAt(first, i) {
      }
    } else {
      var rest := Separated(parts[1..], ".");
      PartsAreApart(parts[1..]);
      DotBetween(first, rest);
    }
  }

  lemma {:induction false} DotBetween(first: string, rest: string)
    requires IsPart(first, P.IsIdentifierChar) && DotsApart(rest)
    ensures DotsApart(first + "." + rest) && '.' in first + "." + rest
  {
    var s := first + "." + rest;
    assert s[|first|] == '.' && DotAt(rest, 0);
    forall i | 0 <= i < |s| ensures DotAt(s, i) {
      if i > |first| { assert DotAt(rest, i - |first| - 1) && s[i] == rest[i - |first| - 1]; }
    }
  }

  lemma {:induction false} KeyIsApart(s: string)
    ensures IsSysctlKey(s) <==> DotsApart(s) && P.IsLower(s[0]) && '.' in s
  {
    if IsSysctlKey(s) {
      forall i | 0 <= i < |s| ensures DotAt(s, i) {
      }
    } else if DotsApart(s) && P.IsLower(s[0]) && '.' in s {
      forall i | 0 <= i < |s| ensures P.IsIdentifierChar(s[i]) || s[i] == '.' {
        assert DotAt(s, i);
      }
      forall i | 0 <= i < |s| && s[i] == '.' ensures 0 < i < |s| - 1 && s[i + 1] != '.' {
        assert DotAt(s, i);
      }
      assert IsSysctlKey(s);
    }
  }

  /** A sysctl key is two parts or more of small letters, digits and underscores, with single dots between
      them, and begins with a letter. */
  lemma {:induction false} KeyIff(s: string)
    ensures IsSysctlKey(s) <==>
            exists parts :: AreParts(parts, P.IsIdentifierChar) && |parts| >= 2 && P.IsLower(parts[0][0]) && s == Separated(parts, ".")
  {
    KeyIsApart(s);
    if IsSysctlKey(s) {
      var parts := KeySplits(s);
      PartsAreApart(parts);
    } else if parts :| AreParts(parts, P.IsIdentifierChar) && |parts| >= 2 && P.IsLower(parts[0][0]) && s == Separated(parts, ".") {
      PartsAreApart(parts);
    }
  }

  // ----- reading a drop-in -----

  predicate IsEquals(c: char) {
    c == '='
  }

  /** One line as `sysctl` reads it: a key and a value around the first equals sign, without blanks at their ends. */
  function ReadSetting(line: string): Option<SysctlSetting> {
    var n := RunLength(line, IsEquals);
    if n < |line| then Some(SysctlSetting(Strip(line[..n]), Strip(line[n + 1..]))) else None
  }

  function ReadSettings(lines: seq<string>): (r: seq<Option<SysctlSetting>>)
    ensures |r| == |lines| && forall i :: 0 <= i < |r| ==> r[i] == ReadSetting(lines[i])
  {
    seq(|lines|, i requires 0 <= i < |lines| => ReadSetting(lines[i]))
  }

  lemma {:induction false} RunLengthOf(a: string, rest: string)
    requires '=' !in a && rest != "" && rest[0] == '='
    ensures RunLength(a + rest, IsEquals) == |a|
    decreases |a|
  {
    if a == "" {
      assert a + rest == rest;
    } else {
      assert (a + rest)[1..] == a[1..] + rest;
      RunLengthOf(a[1..], rest);
    }
  }

  lemma {:induction false} StripOneRight(s: string)
    requires s != "" && !IsBlank(s[0]) && !IsBlank(s[|s| - 1])
    ensures Strip(s + " ") == s && Strip(" " + s) == s && Strip(s) == s
  {
    assert (" " + s)[1..] == s && (s + " ")[..|s|] == s;
    StripKeepsBeginning(s);
  }

  lemma {:induction false} SettingCharacters(s: SysctlSetting)
    requires ValidSetting(s)
    ensures '=' !in s.key && OneLine(s.key) && OneLine(s.desired)
    ensures s.key != "" && !IsBlank(s.key[0]) && !IsBlank(s.key[|s.key| - 1])
    ensures s.desired != "" && !IsBlank(s.desired[0]) && !IsBlank(s.desired[|s.desired| - 1])
  {
    ValueCharacters(s.desired);
  }

  lemma {:induction false} ValueCharacters(s: string)
    requires IsValue(s) || (s != "" && IsValueTail(s))
    ensures s != "" && (forall i :: 0 <= i < |s| ==> IsDigit(s[i]) || s[i] == ' ') && IsDigit(s[|s| - 1])
    decreases |s|
  {
    if |s| > 1 { ValueCharacters(s[1..]); }
  }

  lemma {:induction false} LineIsCut(front: string, back: string, line: string)
    requires '=' !in front && line == front + "=" + back
    ensures ReadSetting(line) == Some(SysctlSetting(Strip(front), Strip(back)))
  {
    assert line == front + ("=" + back);
    RunLengthOf(front, "=" + back);
    assert line[..|front|] == front && line[|front| + 1..] == back;
  }

  lemma {:induction false} LineIsRead(s: SysctlSetting)
    requires ValidSetting(s)
    ensures ReadSetting(s.key + " = " + s.desired) == Some(s) && OneLine(s.key + " = " + s.desired)
  {
    SettingCharacters(s);
    assert OneLine(" = ");
    LineIsCut(s.key + " ", " " + s.desired, s.key + " = " + s.desired);
    StripOneRight(s.key);
    StripOneRight(s.desired);
  }

  /** A rendered drop-in reads back as its settings, one on each line, in order. */
  lemma {:induction false} ContentReadsBack(settings: seq<SysctlSetting>)
    requires forall i :: 0 <= i < |settings| ==> ValidSetting(settings[i])
    ensures var found := ReadSettings(SplitLines(Content(settings)));
            |found| == |settings| && forall i :: 0 <= i < |settings| ==> found[i] == Some(settings[i])
    decreases |settings|
  {
    if settings != [] {
      var first, rest := settings[0], Content(settings[1..]);
      LineIsRead(first);
      ContentReadsBack(settings[1..]);
      var line := first.key + " = " + first.desired;
      SplitOff(line, rest);
      assert Content(settings) == line + "\n" + rest;
      var lines := SplitLines(rest);
      assert SplitLines(Content(settings)) == [line] + lines;
      forall i | 0 <= i < |settings| ensures ReadSetting(([line] + lines)[i]) == Some(settings[i]) {
        if i > 0 { assert ReadSettings(lines)[i - 1] == Some(settings[1..][i - 1]); }
      }
    }
  }
}
