/** What a whole legacy document migrates to: sections and settings, one on each line. */
module LegacyDocuments {
  import opened Common
  import opened Json
  import opened Spellings
  import opened TextLines
  import opened Configuration
  import opened LegacyConfiguration
  import opened LegacyKeys

  /** A section, or a setting whose value stands between two equal quotes or none. */
  datatype Line = Heading(section: string) | Setting(name: string, value: string, quote: string)

  function LineText(l: Line): string {
    match l
    case Heading(section) => "[" + section + "]"
    case Setting(name, value, quote) => name + "=" + (quote + value + quote)
  }

  function LineTexts(lines: seq<Line>): (texts: seq<string>)
    ensures |texts| == |lines| && forall i :: 0 <= i < |lines| ==> texts[i] == LineText(lines[i])
  {
    seq(|lines|, i requires 0 <= i < |lines| => LineText(lines[i]))
  }

  /** One line after the other, with no line feed after the last. */
  function Text(lines: seq<Line>): string {
    if lines == [] then "" else if |lines| == 1 then LineText(lines[0]) else LineText(lines[0]) + "\n" + Text(lines[1..])
  }

  ghost predicate IsLegacyName(s: string) {
    s != "" && !('0' <= s[0] <= '9') && forall i :: 0 <= i < |s| ==> s[i] == '_' || !IsJunk(s[i])
  }

  /** No blank at either end. */
  ghost predicate IsTrimmed(s: string) {
    s != "" ==> !IsBlank(s[0]) && !IsBlank(s[|s| - 1])
  }

  ghost predicate IsQuoted(s: string) {
    |s| >= 2 && s[0] == s[|s| - 1] && (s[0] == '"' || s[0] == '\'')
  }

  ghost predicate IsLine(l: Line) {
    match l
    case Heading(section) => section != "" && OneLine(section) && IsTrimmed(section)
    case Setting(name, value, quote) =>
      IsLegacyName(name) && OneLine(value) && (quote in {"\"", "'"} || (quote == "" && IsTrimmed(value) && !IsQuoted(value)))
  }

  ghost predicate AreLines(lines: seq<Line>) {
    forall i :: 0 <= i < |lines| ==> IsLine(lines[i])
  }

  /** The settings in order, each under the key it has in its section. */
  ghost predicate Means(lines: seq<Line>, section: Option<string>, entries: seq<Entry>) {
    if lines == [] then entries == []
    else
      match lines[0]
      case Heading(n) => Means(lines[1..], Some(n), entries)
      case Setting(name, value, _) =>
        entries != [] && entries[0].value == value && IsKeyOf(entries[0].key, section, name) && Means(lines[1..], section, entries[1..])
  }

  /** These entries can be added one after the other. */
  ghost predicate Fits(values: seq<Entry>, entries: seq<Entry>, schema: (string, string) -> bool) {
    Unrepeated(Keys(values + entries)) && forall e :: e in entries ==> Accepts(e.key, e.value, schema)
  }

  // ----- one line -----

  lemma {:induction false} LineIsOneLine(l: Line)
    requires IsLine(l)
    ensures OneLine(LineText(l)) && LineText(l) != ""
  {
    if l.Setting? {
      forall i | 0 <= i < |l.name| ensures !IsBreak(l.name[i]) {
        assert l.name[i] == '_' || !IsJunk(l.name[i]);
      }
      assert OneLine(l.name) && OneLine("=") && OneLine(l.quote);
    }
  }

  lemma {:induction false} TrimmedStays(s: string)
    requires IsTrimmed(s)
    ensures Strip(s) == s
  {
    if s != "" { StripKeepsBeginning(s); }
  }

  lemma {:induction false} HeadingIsRead(section: string, number: nat, m: Migration, schema: (string, string) -> bool)
    requires IsLine(Heading(section))
    ensures MigrateLine(LineText(Heading(section)), number, m, schema) == Ok(m.(section := Some(section)))
  {
    var line := LineText(Heading(section));
    TrimmedStays(line);
    assert line[1..|line| - 1] == section;
    TrimmedStays(section);
  }

  lemma {:induction false} NameLengthOf(name: string, rest: string)
    requires (forall i :: 0 <= i < |name| ==> name[i] == '_' || !IsJunk(name[i])) && rest != "" && rest[0] == '='
    ensures NameLength(name + rest) == |name|
    decreases |name|
  {
    if name == "" {
      assert name + rest == rest;
    } else {
      assert (name + rest)[1..] == name[1..] + rest;
      assert name[0] == '_' || !IsJunk(name[0]);
      NameLengthOf(name[1..], rest);
    }
  }

  lemma {:induction false} ValueIsRead(value: string, quote: string)
    requires quote in {"\"", "'"} || (quote == "" && IsTrimmed(value) && !IsQuoted(value))
    ensures IsTrimmed(quote + value + quote) && Unquoted(Strip(quote + value + quote)) == value
  {
    var text := quote + value + quote;
    if quote == "" {
      assert text == value;
    } else {
      assert text[0] == quote[0] && text[|text| - 1] == quote[0] && text[1..|text| - 1] == value;
    }
    TrimmedStays(text);
  }

  lemma {:induction false} AssignmentIsRead(name: string, value: string)
    requires IsLegacyName(name)
    ensures LegacyAssignment(name + "=" + value) == Some(Named(name, value))
  {
    var line, rest := name + "=" + value, "=" + value;
    assert line == name + rest;
    NameLengthOf(name, rest);
    assert line[0] == name[0] && (name[0] == '_' || !IsJunk(name[0]));
    assert line[..|name|] == name && line[|name| + 1..] == value;
  }

  lemma {:induction false} SettingIsTrimmed(name: string, value: string)
    requires IsLegacyName(name) && IsTrimmed(value)
    ensures var line := name + "=" + value; IsTrimmed(line) && line != "" && line[0] != '#' && line[0] != '['
  {
    var line := name + "=" + value;
    assert line[0] == name[0] && (name[0] == '_' || !IsJunk(name[0]));
    assert line[|line| - 1] == if value == "" then '=' else value[|value| - 1];
  }

  lemma {:induction false} SettingIsRead(l: Line, number: nat, m: Migration, schema: (string, string) -> bool)
    requires IsLine(l) && l.Setting?
    ensures MigrateLine(LineText(l), number, m, schema) == MigrateAssignment(l.name, l.value, number, m, schema)
  {
    var value := l.quote + l.value + l.quote;
    ValueIsRead(l.value, l.quote);
    AssignmentIsRead(l.name, value);
    SettingIsTrimmed(l.name, value);
    TrimmedStays(LineText(l));
  }

  // ----- the document -----

  lemma {:induction false} TextSplits(lines: seq<Line>)
    requires AreLines(lines)
    ensures SplitLines(Text(lines)) == LineTexts(lines)
    decreases |lines|
  {
    if lines != [] {
      var line := LineText(lines[0]);
      assert IsLine(lines[0]);
      LineIsOneLine(lines[0]);
      assert LineTexts(lines) == [line] + LineTexts(lines[1..]);
      if |lines| == 1 {
        LineLengthOf(line, "");
        assert line + "" == line;
      } else {
        TextSplits(lines[1..]);
        SplitOff(line, Text(lines[1..]));
      }
    }
  }

  lemma {:induction false} ValuesGrow(texts: seq<string>, number: nat, m: Migration, schema: (string, string) -> bool)
    requires MigrateLines(texts, number, m, schema).Ok?
    ensures m.values <= MigrateLines(texts, number, m, schema).value.values
    decreases |texts|
  {
    if texts != [] {
      var r := MigrateLine(texts[0], number, m, schema);
      ValuesGrow(texts[1..], number + 1, r.value, schema);
    }
  }

  /** The rest of a document gives `entries`. */
  ghost predicate Gives(lines: seq<Line>, number: nat, m: Migration, entries: seq<Entry>, schema: (string, string) -> bool) {
    var r := MigrateLines(LineTexts(lines), number, m, schema);
    r.Ok? && r.value.values == m.values + entries
  }

  lemma {:induction false} FirstLine(lines: seq<Line>, number: nat, m: Migration, schema: (string, string) -> bool)
    requires AreLines(lines) && lines != []
    ensures MigrateLines(LineTexts(lines), number, m, schema) ==
            var r := MigrateLine(LineText(lines[0]), number, m, schema);
            if r.Err? then r else MigrateLines(LineTexts(lines[1..]), number + 1, r.value, schema)
  {
    assert LineTexts(lines)[1..] == LineTexts(lines[1..]);
  }

  lemma {:induction false} FitsIff(values: seq<Entry>, entries: seq<Entry>, schema: (string, string) -> bool)
    requires entries != []
    ensures Fits(values, entries, schema) <==>
            && Unrepeated(Keys(values + [entries[0]])) && Accepts(entries[0].key, entries[0].value, schema)
            && Fits(values + [entries[0]], entries[1..], schema)
  {
    assert values + entries == values + [entries[0]] + entries[1..];
    assert entries == [entries[0]] + entries[1..];
    var all, some := Keys(values + entries), Keys(values + [entries[0]]);
    assert all == some + Keys(entries[1..]);
    if Unrepeated(all) {
      UnrepeatedPrefix(some, Keys(entries[1..]));
    }
  }

  lemma {:induction false} NewKeyIff(values: seq<Entry>, e: Entry)
    requires Unrepeated(Keys(values))
    ensures Unrepeated(Keys(values + [e])) <==> e.key !in Keys(values)
  {
    var all := Keys(values + [e]);
    assert all == Keys(values) + [e.key];
    if e.key in Keys(values) {
      var i :| 0 <= i < |values| && Keys(values)[i] == e.key;
      assert all[i] == all[|values|];
    } else {
      UnrepeatedAppend(Keys(values), e.key);
    }
  }

  /** A setting adds the entry with its value and the key it has in the section, if that is new and accepted. */
  lemma {:induction false} AddsOne(l: Line, number: nat, m: Migration, e: Entry, schema: (string, string) -> bool)
    requires l.Setting? && Unrepeated(Keys(m.values))
    ensures MigrateAssignment(l.name, l.value, number, m, schema) == Ok(m.(values := m.values + [e])) <==>
            && e.value == l.value && IsKeyOf(e.key, m.section, l.name)
            && Unrepeated(Keys(m.values + [e])) && Accepts(e.key, e.value, schema)
  {
    KeyIff(m.section, l.name, e.key);
    NewKeyIff(m.values, e);
    var r := MigrateAssignment(l.name, l.value, number, m, schema);
    if r == Ok(m.(values := m.values + [e])) {
      assert (m.values + [e])[|m.values|] == e;
      var key := CanonicalKey(m.section, l.name).value;
      assert (m.values + [Entry(key, l.value)])[|m.values|] == Entry(key, l.value);
    }
  }

  lemma {:induction false} AddsSome(l: Line, number: nat, m: Migration, schema: (string, string) -> bool) returns (e: Entry)
    requires l.Setting? && MigrateAssignment(l.name, l.value, number, m, schema).Ok?
    ensures MigrateAssignment(l.name, l.value, number, m, schema) == Ok(m.(values := m.values + [e]))
  {
    e := Entry(CanonicalKey(m.section, l.name).value, l.value);
  }

  lemma {:induction false} FirstEntry(values: seq<Entry>, entries: seq<Entry>, e: Entry, all: seq<Entry>)
    requires values + [e] <= all && all == values + entries
    ensures entries != [] && entries[0] == e && values + [e] + entries[1..] == all
  {
    assert all[|values|] == e;
    assert entries == [entries[0]] + entries[1..];
  }

  lemma {:induction false} FirstSetting(lines: seq<Line>, number: nat, m: Migration, schema: (string, string) -> bool)
    requires AreLines(lines) && lines != [] && lines[0].Setting?
    ensures MigrateLines(LineTexts(lines), number, m, schema) ==
            var r := MigrateAssignment(lines[0].name, lines[0].value, number, m, schema);
            if r.Err? then r else MigrateLines(LineTexts(lines[1..]), number + 1, r.value, schema)
  {
    assert IsLine(lines[0]);
    FirstLine(lines, number, m, schema);
    SettingIsRead(lines[0], number, m, schema);
  }

  lemma {:induction false} Regroup(values: seq<Entry>, entries: seq<Entry>)
    requires entries != []
    ensures values + [entries[0]] + entries[1..] == values + entries
  {
  }

  /** A setting and then the rest. */
  lemma {:induction false} SettingGives(lines: seq<Line>, number: nat, m: Migration, entries: seq<Entry>, schema: (string, string) -> bool)
    requires AreLines(lines) && lines != [] && lines[0].Setting? && Gives(lines, number, m, entries, schema)
    ensures entries != []
    ensures MigrateAssignment(lines[0].name, lines[0].value, number, m, schema) == Ok(m.(values := m.values + [entries[0]]))
    ensures Gives(lines[1..], number + 1, m.(values := m.values + [entries[0]]), entries[1..], schema)
  {
    FirstSetting(lines, number, m, schema);
    var e := AddsSome(lines[0], number, m, schema);
    ValuesGrow(LineTexts(lines[1..]), number + 1, m.(values := m.values + [e]), schema);
    FirstEntry(m.values, entries, e, m.values + entries);
  }

  lemma {:induction false} SettingGiven(lines: seq<Line>, number: nat, m: Migration, entries: seq<Entry>, schema: (string, string) -> bool)
    requires AreLines(lines) && lines != [] && lines[0].Setting? && entries != []
    requires MigrateAssignment(lines[0].name, lines[0].value, number, m, schema) == Ok(m.(values := m.values + [entries[0]]))
    requires Gives(lines[1..], number + 1, m.(values := m.values + [entries[0]]), entries[1..], schema)
    ensures Gives(lines, number, m, entries, schema)
  {
    var more := m.(values := m.values + [entries[0]]);
    Regroup(m.values, entries);
    assert MigrateLines(LineTexts(lines), number, m, schema) == MigrateLines(LineTexts(lines[1..]), number + 1, more, schema) by {
      FirstSetting(lines, number, m, schema);
    }
  }

  lemma {:induction false} DocumentGives(lines: seq<Line>, number: nat, m: Migration, entries: seq<Entry>, schema: (string, string) -> bool)
    requires AreLines(lines) && Unrepeated(Keys(m.values))
    ensures Gives(lines, number, m, entries, schema) <==> Means(lines, m.section, entries) && Fits(m.values, entries, schema)
    decreases |lines|
  {
    if lines == [] {
      NothingGiven(m, entries, schema);
    } else if lines[0].Heading? {
      assert IsLine(lines[0]);
      FirstLine(lines, number, m, schema);
      HeadingIsRead(lines[0].section, number, m, schema);
      DocumentGives(lines[1..], number + 1, m.(section := Some(lines[0].section)), entries, schema);
    } else {
      if Gives(lines, number, m, entries, schema) { SettingGives(lines, number, m, entries, schema); }
      if entries != [] {
        AddsOne(lines[0], number, m, entries[0], schema);
        FitsIff(m.values, entries, schema);
        if Unrepeated(Keys(m.values + [entries[0]])) {
          DocumentGives(lines[1..], number + 1, m.(values := m.values + [entries[0]]), entries[1..], schema);
        }
        if Means(lines, m.section, entries) && Fits(m.values, entries, schema) {
          SettingGiven(lines, number, m, entries, schema);
        }
      }
    }
  }

  lemma {:induction false} NothingGiven(m: Migration, entries: seq<Entry>, schema: (string, string) -> bool)
    requires Unrepeated(Keys(m.values))
    ensures m.values == m.values + entries <==> entries == [] && Fits(m.values, entries, schema)
  {
    if entries == [] {
      assert m.values + entries == m.values;
    } else {
      assert |m.values + entries| > |m.values|;
    }
  }

  /** A legacy document migrates to `entries` if and only if these are its settings in order, each under the
      key it has in its section, no key comes twice, and the schema accepts every value. */
  lemma {:induction false} MigratesIff(lines: seq<Line>, entries: seq<Entry>, schema: (string, string) -> bool)
    requires AreLines(lines)
    ensures Migrated(Text(lines), schema) == Ok(entries) <==>
            && Means(lines, None, entries) && Unrepeated(Keys(entries))
            && forall e :: e in entries ==> Accepts(e.key, e.value, schema)
  {
    TextSplits(lines);
    DocumentGives(lines, 1, Migration(None, []), entries, schema);
    assert [] + entries == entries;
  }

  // ----- the four kinds of keys -----

  /** One setting under a section. */
  lemma {:induction false} SettingInSection(section: string, name: string, value: string, quote: string, key: string,
                                            schema: (string, string) -> bool)
    requires IsLine(Heading(section)) && IsLine(Setting(name, value, quote))
    requires IsKeyOf(key, Some(section), name) && Accepts(key, value, schema)
    ensures Migrated("[" + section + "]\n" + (name + "=" + (quote + value + quote)), schema) == Ok([Entry(key, value)])
  {
    var lines, entries := [Heading(section), Setting(name, value, quote)], [Entry(key, value)];
    assert lines[1..] == [Setting(name, value, quote)] && lines[1..][1..] == [] && entries[1..] == [];
    assert Means([], Some(section), []);
    assert Means(lines[1..], Some(section), entries);
    assert Text(lines[1..]) == LineText(lines[1]);
    assert "[" + section + "]" + "\n" == "[" + section + "]\n";
    MigratesIff(lines, entries, schema);
  }

  /** One setting without a section. */
  lemma {:induction false} SettingAlone(name: string, value: string, quote: string, key: string, schema: (string, string) -> bool)
    requires IsLine(Setting(name, value, quote)) && IsKeyOf(key, None, name) && Accepts(key, value, schema)
    ensures Migrated(name + "=" + (quote + value + quote), schema) == Ok([Entry(key, value)])
  {
    var lines, entries := [Setting(name, value, quote)], [Entry(key, value)];
    assert lines[1..] == [] && entries[1..] == [];
    assert Means([], None, []);
    MigratesIff(lines, entries, schema);
  }

  /** Letters, digits and single underscores inside. */
  ghost predicate IsTidy(s: string) {
    s != "" && forall i :: 0 <= i < |s| ==> TidyAt(s, i)
  }

  ghost predicate TidyAt(s: string, i: nat)
    requires i < |s|
  {
    if s[i] == '_' then 0 < i < |s| - 1 && s[i + 1] != '_' else !IsJunk(s[i])
  }

  lemma {:induction false} TidyCut(s: string) returns (n: nat)
    requires IsTidy(s)
    ensures 0 < n <= |s| && n == WordLength(s)
    ensures n < |s| ==> s[n..] == "_" + s[n + 1..] && IsTidy(s[n + 1..])
  {
    n := WordLength(s);
    assert TidyAt(s, 0);
    if n < |s| {
      var rest := s[n + 1..];
      assert TidyAt(s, n);
      forall i | 0 <= i < |rest| ensures TidyAt(rest, i) {
        assert TidyAt(s, n + 1 + i);
      }
    }
  }

  lemma {:induction false} CapitalAround(word: string, rest: string)
    ensures Capital(word + ("_" + rest)) == Capital(word) + ("_" + Capital(rest))
  {
    assert Upper('_') == '_';
  }

  lemma {:induction false} UnderscoredUnfolds(s: string, n: nat)
    requires 0 < n == WordLength(s)
    ensures Underscored(s) == if Underscored(s[n..]) == "" then Capital(s[..n]) else Capital(s[..n]) + "_" + Underscored(s[n..])
  {
    assert Capital(s[..n]) == seq(n, i requires 0 <= i < n => Upper(s[i]));
  }

  lemma {:induction false} OneWordIsUpcased(s: string)
    requires s != "" && WordLength(s) == |s|
    ensures Identifier(s) == Some(Capital(s))
  {
    UnderscoredUnfolds(s, |s|);
    assert s[..|s|] == s;
  }

  lemma {:induction false} Regrouped(s: string, word: string, rest: string, a: string, b: string)
    requires s == word + ("_" + rest) && a == Capital(word) && b == Capital(rest)
    ensures Capital(s) == a + "_" + b
  {
    CapitalAround(word, rest);
    assert a + "_" + b == a + ("_" + b);
  }

  lemma {:induction false} UnderscoredFurther(s: string, n: nat, rest: string)
    requires 0 < n == WordLength(s) && s[n..] == "_" + rest && Identifier(rest) == Some(Capital(rest))
    ensures Identifier(s) == Some(Capital(s[..n]) + "_" + Capital(rest))
  {
    UnderscoredUnfolds(s, n);
    JunkIsSkipped("_", rest);
  }

  lemma {:induction false} MoreIsUpcased(s: string, n: nat)
    requires 0 < n < |s| && n == WordLength(s) && s[n..] == "_" + s[n + 1..] && Identifier(s[n + 1..]) == Some(Capital(s[n + 1..]))
    ensures Identifier(s) == Some(Capital(s))
  {
    var word, rest := s[..n], s[n + 1..];
    UnderscoredFurther(s, n, rest);
    assert s == word + s[n..];
    Regrouped(s, word, rest, Capital(word), Capital(rest));
  }

  lemma {:induction false} TidyIsUpcased(s: string)
    requires IsTidy(s)
    ensures Identifier(s) == Some(Capital(s))
    decreases |s|
  {
    var n := TidyCut(s);
    if n == |s| {
      OneWordIsUpcased(s);
    } else {
      TidyIsUpcased(s[n + 1..]);
      MoreIsUpcased(s, n);
    }
  }

  /** The identifier of a tidy name is the name in capitals. */
  lemma {:induction false} TidyIdentifier(s: string, upper: string)
    requires IsTidy(s)
    ensures IsIdentifier(upper, s) <==> Capitals(s, upper)
  {
    TidyIsUpcased(s);
    IdentifierIff(s, upper);
    CapitalIsUnique([s], [upper]);
    assert AllCapital([s])[0] == Capital(s);
    if Capitals(s, upper) {
      assert AllCapitals([s], [upper]);
    } else {
      assert !Capitals([s][0], [upper][0]);
    }
  }

  /** The keys of a module's section, `[name]` or `[name_hardening]`, and of settings without a section. */
  lemma {:induction false} KeysOfModule(name: string, id: string, section: string, whole: string, k: string, own: string)
    requires IsTidy(name) && Capitals(name, id) && IsTidy(section) && Capitals(section, whole) && IsTidy(k) && Capitals(k, own)
    requires section == name + "_hardening" || (section == name && forall s :: name != s + "_hardening")
    ensures IsKeyOf("MODULE_" + id + "_ENABLED", Some(section), "module_enabled")
    ensures IsKeyOf("FEATURE_" + id + "_" + own, Some(section), "feature_" + k)
    ensures (k != "module_enabled" && forall f :: !IsFeature(k, f)) ==> IsKeyOf(whole + "_" + own, Some(section), k)
    ensures IsKeyOf(own, None, k)
  {
    TidyIdentifier(name, id);
    TidyIdentifier(section, whole);
    TidyIdentifier(k, own);
    assert IsStem(name, section);
    assert IsModuleKey("MODULE_" + id + "_ENABLED", section);
    assert IsFeature("feature_" + k, k) && IsFeatureKey("FEATURE_" + id + "_" + own, section, k);
    assert ("feature_" + k)[0] == 'f' && "module_enabled"[0] == 'm';
    assert IsOptionKey(whole + "_" + own, section, k);
  }

  lemma {:induction false} KernelWords(name: string, id: string)
    requires name == "kernel" && id == "KERNEL"
    ensures IsTidy(name) && Capitals(name, id)
  {
    forall i | 0 <= i < 6 ensures TidyAt(name, i) {
    }
  }

  lemma {:induction false} KernelSection(section: string)
    requires section == "kernel_hardening"
    ensures IsTidy(section) && IsLine(Heading(section)) && section == "kernel" + "_hardening"
  {
    forall i | 0 <= i < |section| ensures TidyAt(section, i) {
    }
  }

  lemma {:induction false} SwitchIsLine(name: string, value: string)
    requires name == "module_enabled" && value == "true"
    ensures IsLine(Setting(name, value, ""))
  {
  }

  lemma {:induction false} SwitchIsAccepted(id: string, key: string, value: string, counts: string -> bool)
    requires key == "MODULE_" + id + "_ENABLED" && value == "true"
    ensures Accepts(key, value, KeySchema(counts))
  {
    assert "MODULE_" <= key;
  }

  lemma {:induction false} CapitalsExist(name: string) returns (upper: string)
    ensures Capitals(name, upper)
  {
    upper := Capital(name);
  }

  /** A kernel section of the former format migrates to the switch of the kernel module. */
  lemma {:induction false} KernelSwitchMigrates(section: string, name: string, id: string, value: string, counts: string -> bool)
    requires section == "kernel_hardening" && name == "module_enabled" && id == "KERNEL" && value == "true"
    ensures Migrated("[" + section + "]\n" + (name + "=" + ("" + value + "")), KeySchema(counts))
            == Ok([Entry("MODULE_" + id + "_ENABLED", value)])
  {
    var kernel := "kernel";
    KernelWords(kernel, id);
    KernelSection(section);
    SwitchIsLine(name, value);
    var whole := CapitalsExist(section);
    KeysOfModule(kernel, id, section, whole, kernel, id);
    SwitchIsAccepted(id, "MODULE_" + id + "_ENABLED", value, counts);
    SettingInSection(section, name, value, "", "MODULE_" + id + "_ENABLED", KeySchema(counts));
  }
}
