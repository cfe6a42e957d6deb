/** The migration of the former mixed assignment and section format, and the in-memory store. */
module LegacyConfiguration {
  import opened Common
  import opened Json
  import opened TextLines
  import opened Configuration
  import opened ConfigurationFacts

  // ----- identifiers -----

  predicate IsAlphanumeric(c: char) {
    'A' <= c <= 'Z' || 'a' <= c <= 'z' || '0' <= c <= '9'
  }

  function Upper(c: char): char {
    if 'a' <= c <= 'z' then c - 'a' + 'A' else c
  }

  /** The letters and digits from the front, upper-cased. */
  function WordLength(s: string): (n: nat)
    ensures n <= |s| && (forall i :: 0 <= i < n ==> IsAlphanumeric(s[i]))
    ensures n < |s| ==> !IsAlphanumeric(s[n])
  {
    if s == [] || !IsAlphanumeric(s[0]) then 0 else 1 + WordLength(s[1..])
  }

  /** Runs of letters and digits, upper-cased and joined by single underscores. */
  function Underscored(s: string): (r: string)
    ensures forall i :: 0 <= i < |r| ==> IsKeyChar(r[i])
    ensures r != [] ==> r[0] != '_' && r[|r| - 1] != '_'
    decreases |s|
  {
    var n := WordLength(s);
    if n == 0 then (if s == [] then "" else Underscored(s[1..]))
    else
      var word, rest := seq(n, i requires 0 <= i < n => Upper(s[i])), Underscored(s[n..]);
      if rest == [] then word else word + "_" + rest
  }

  /** `_identifier`, which raises when nothing is left. */
  function Identifier(s: string): Option<string> {
    var r := Underscored(s);
    if r == [] then None else Some(r)
  }

  /** The canonical key of a legacy assignment in its section. */
  function CanonicalKey(section: Option<string>, key: string): Option<string> {
    match section
    case None => Identifier(key)
    case Some(name) =>
      var id := Identifier(RemoveSuffix(name, "_hardening"));
      if key == "module_enabled" then
        if id.None? then None else Some("MODULE_" + id.value + "_ENABLED")
      else if "feature_" <= key then
        var feature := Identifier(key[|"feature_"|..]);
        if id.None? || feature.None? then None else Some("FEATURE_" + id.value + "_" + feature.value)
      else
        var whole, own := Identifier(name), Identifier(key);
        if whole.None? || own.None? then None else Some(whole.value + "_" + own.value)
  }

  function RemoveSuffix(s: string, suffix: string): string {
    if |suffix| <= |s| && s[|s| - |suffix|..] == suffix then s[..|s| - |suffix|] else s
  }

  ghost predicate KeyChars(s: string) {
    forall i :: 0 <= i < |s| ==> IsKeyChar(s[i])
  }

  lemma CanonicalKeyChars(section: Option<string>, key: string)
    requires CanonicalKey(section, key).Some?
    ensures CanonicalKey(section, key).value != [] && KeyChars(CanonicalKey(section, key).value)
  {
    if section.Some? {
      var id := Identifier(RemoveSuffix(section.value, "_hardening"));
      if key == "module_enabled" {
        Framed("MODULE_", id.value, "_ENABLED");
      } else if "feature_" <= key {
        var feature := Identifier(key[|"feature_"|..]);
        Framed("FEATURE_", id.value, "_");
        Framed("FEATURE_" + id.value + "_", feature.value, "");
        assert "FEATURE_" + id.value + "_" + feature.value + "" == "FEATURE_" + id.value + "_" + feature.value;
      } else {
        Framed("", Identifier(section.value).value, "_");
        Framed(Identifier(section.value).value + "_", Identifier(key).value, "");
      }
    }
  }

  lemma Framed(a: string, b: string, c: string)
    requires KeyChars(a) && KeyChars(b) && KeyChars(c)
    ensures KeyChars(a + b + c)
  {
  }

  // ----- the legacy grammar -----

  predicate IsNameStart(c: char) {
    'A' <= c <= 'Z' || 'a' <= c <= 'z' || c == '_'
  }

  function NameLength(s: string): (n: nat)
    ensures n <= |s|
  {
    if s == [] || !(IsNameStart(s[0]) || '0' <= s[0] <= '9') then 0 else 1 + NameLength(s[1..])
  }

  /** The name and the text after the equals sign. */
  datatype Named = Named(name: string, text: string)

  function LegacyAssignment(line: string): Option<Named> {
    var n := NameLength(line);
    if n >= 1 && IsNameStart(line[0]) && n < |line| && line[n] == '=' then Some(Named(line[..n], line[n + 1..])) else None
  }

  /** One pair of equal quotes around the value is taken off. */
  function Unquoted(s: string): string {
    if |s| >= 2 && s[0] == s[|s| - 1] && s[0] in {'"', '\''} then s[1..|s| - 1] else s
  }

  function LegacyValue(found: Named): string {
    Unquoted(Strip(found.text))
  }

  datatype Migration = Migration(section: Option<string>, values: seq<Entry>)

  function MigrateLine(raw: string, number: nat, m: Migration, schema: (string, string) -> bool): Result<Migration, ConfigError> {
    var line := Strip(raw);
    if line == [] || line[0] == '#' then Ok(m)
    else if line[0] == '[' && line[|line| - 1] == ']' then
      var section := Strip(line[1..|line| - 1]);
      if section == [] then Err(EmptySection(number)) else Ok(m.(section := Some(section)))
    else
      var found := LegacyAssignment(line);
      if found.None? then Err(InvalidLine(number))
      else MigrateAssignment(found.value.name, LegacyValue(found.value), number, m, schema)
  }

  function MigrateAssignment(name: string, value: string, number: nat, m: Migration, schema: (string, string) -> bool): Result<Migration, ConfigError> {
    match CanonicalKey(m.section, name)
    case None => Err(NoIdentifier(number))
    case Some(key) =>
      if key in Keys(m.values) then Err(DuplicateKey(number))
      else if !Accepts(key, value, schema) then Err(InvalidValue(number))
      else Ok(m.(values := m.values + [Entry(key, value)]))
  }

  function MigrateLines(lines: seq<string>, number: nat, m: Migration, schema: (string, string) -> bool): Result<Migration, ConfigError>
    decreases |lines|
  {
    if lines == [] then Ok(m)
    else
      var r := MigrateLine(lines[0], number, m, schema);
      if r.Err? then r else MigrateLines(lines[1..], number + 1, r.value, schema)
  }

  function Migrated(text: string, schema: (string, string) -> bool): Result<seq<Entry>, ConfigError> {
    match MigrateLines(SplitLines(text), 1, Migration(None, []), schema)
    case Ok(m) => Ok(m.values)
    case Err(e) => Err(e)
  }

  /** `parse_legacy_mixed` */
  method ParseLegacyMixed(text: string, schema: (string, string) -> bool) returns (r: Result<seq<Entry>, ConfigError>)
    ensures r == Migrated(text, schema)
  {
    var lines := SplitLines(text);
    var section: Option<string>, values: seq<Entry> := None, [];
    for i := 0 to |lines|
      invariant MigrateLines(lines, 1, Migration(None, []), schema)
                == MigrateLines(lines[i..], i + 1, Migration(section, values), schema)
    {
      assert lines[i..][0] == lines[i] && lines[i..][1..] == lines[i + 1..];
      var line := Strip(lines[i]);
      if line == [] || line[0] == '#' { continue; }
      if line[0] == '[' && line[|line| - 1] == ']' {
        var name := Strip(line[1..|line| - 1]);
        if name == [] { return Err(EmptySection(i + 1)); }
        section := Some(name);
        continue;
      }
      var found := LegacyAssignment(line);
      if found.None? { return Err(InvalidLine(i + 1)); }
      var value := LegacyValue(found.value);
      var key := CanonicalKey(section, found.value.name);
      if key.None? { return Err(NoIdentifier(i + 1)); }
      if key.value in Keys(values) { return Err(DuplicateKey(i + 1)); }
      if !Accepts(key.value, value, schema) { return Err(InvalidValue(i + 1)); }
      values := values + [Entry(key.value, value)];
    }
    r := Ok(values);
  }

  // ----- what migration yields -----

  /** Everything the writer asks for, except that a key may start with a digit. */
  ghost predicate AlmostLegal(entries: seq<Entry>, schema: (string, string) -> bool) {
    && Unrepeated(Keys(entries))
    && forall e :: e in entries ==>
         && e.key != [] && KeyChars(e.key)
         && Accepts(e.key, e.value, schema) && OneLine(e.value)
  }

  lemma AddedIsAlmostLegal(name: string, value: string, number: nat, m: Migration, schema: (string, string) -> bool)
    requires AlmostLegal(m.values, schema) && OneLine(value)
    ensures var r := MigrateAssignment(name, value, number, m, schema); r.Ok? ==> AlmostLegal(r.value.values, schema)
  {
    var key := CanonicalKey(m.section, name);
    if key.Some? {
      CanonicalKeyChars(m.section, name);
      assert Keys(m.values + [Entry(key.value, value)]) == Keys(m.values) + [key.value];
    }
  }

  lemma ValueIsOneLine(line: string)
    requires OneLine(line) && LegacyAssignment(line).Some?
    ensures OneLine(LegacyValue(LegacyAssignment(line).value))
  {
    var text := LegacyAssignment(line).value.text;
    assert forall i :: 0 <= i < |text| ==> text[i] == line[|line| - |text| + i];
    StripKeepsOneLine(text);
  }

  lemma MigrateLineIsAlmostLegal(raw: string, number: nat, m: Migration, schema: (string, string) -> bool)
    requires OneLine(raw) && AlmostLegal(m.values, schema)
    ensures var r := MigrateLine(raw, number, m, schema); r.Ok? ==> AlmostLegal(r.value.values, schema)
  {
    var line := Strip(raw);
    StripKeepsOneLine(raw);
    var r := MigrateLine(raw, number, m, schema);
    if r.Ok? && r.value.values != m.values {
      var found := LegacyAssignment(line).value;
      assert r == MigrateAssignment(found.name, LegacyValue(found), number, m, schema);
      ValueIsOneLine(line);
      AddedIsAlmostLegal(found.name, LegacyValue(found), number, m, schema);
    }
  }

  lemma {:induction false} MigrateLinesIsAlmostLegal(lines: seq<string>, number: nat, m: Migration, schema: (string, string) -> bool)
    requires (forall i :: 0 <= i < |lines| ==> OneLine(lines[i])) && AlmostLegal(m.values, schema)
    ensures var r := MigrateLines(lines, number, m, schema); r.Ok? ==> AlmostLegal(r.value.values, schema)
    decreases |lines|
  {
    if lines != [] {
      MigrateLineIsAlmostLegal(lines[0], number, m, schema);
      var r := MigrateLine(lines[0], number, m, schema);
      if r.Ok? {
        MigrateLinesIsAlmostLegal(lines[1..], number + 1, r.value, schema);
      }
    }
  }

  /** The writer accepts a migrated dictionary exactly if no key starts with a digit, and then parsing
      the written file returns the migrated dictionary. */
  lemma MigrationSurvives(text: string, schema: (string, string) -> bool)
    requires Migrated(text, schema).Ok?
    ensures var entries := Migrated(text, schema).value;
            && (Legal(entries, schema) <==> forall e :: e in entries ==> e.key != [] && IsUpper(e.key[0]))
            && (Legal(entries, schema) ==> Parsed(FileText(entries), schema) == Ok(entries))
  {
    SplitLinesAreLines(text);
    MigrateLinesIsAlmostLegal(SplitLines(text), 1, Migration(None, []), schema);
    var entries := Migrated(text, schema).value;
    if forall e :: e in entries ==> e.key != [] && IsUpper(e.key[0]) {
      assert Legal(entries, schema);
    }
    if Legal(entries, schema) {
      RoundTripIff(entries, schema);
    }
  }

  // ----- the store -----

  /** `config[key] = value`: in place for a known key, at the end for a new one. */
  function Put(entries: seq<Entry>, e: Entry): (r: seq<Entry>)
    ensures forall f :: f in r ==> f == e || f in entries
    ensures e in r
  {
    if entries == [] then [e]
    else if entries[0].key == e.key then [e] + entries[1..]
    else [entries[0]] + Put(entries[1..], e)
  }

  /** No key moves, and only a new key is added. */
  lemma {:induction false} PutKeys(entries: seq<Entry>, e: Entry)
    ensures Keys(Put(entries, e)) == if e.key in Keys(entries) then Keys(entries) else Keys(entries) + [e.key]
    decreases |entries|
  {
    if entries != [] {
      var first, rest := entries[0], entries[1..];
      assert entries == [first] + rest;
      FirstKey(first, rest);
      if first.key == e.key {
        FirstKey(e, rest);
      } else {
        PutKeys(rest, e);
        FirstKey(first, Put(rest, e));
      }
    }
  }

  lemma {:induction false} FirstKey(first: Entry, rest: seq<Entry>)
    ensures Keys([first] + rest) == [first.key] + Keys(rest)
  {
  }

  /** Every other key keeps its value. */
  lemma {:induction false} PutKeepsOthers(entries: seq<Entry>, e: Entry, f: Entry)
    requires f.key != e.key
    ensures f in Put(entries, e) <==> f in entries
    decreases |entries|
  {
    if entries != [] && entries[0].key != e.key {
      PutKeepsOthers(entries[1..], e, f);
    }
  }

  /** The view of one configuration file that the desktop edits. */
  class ConfigStore {
    const schema: (string, string) -> bool
    /** The file on disk, if it exists. */
    var file: Option<string>
    var config: seq<Entry>
    /** How many operations failed. */
    ghost var faults: nat

    ghost predicate Valid()
      reads this
    {
      Legal(config, schema)
    }

    constructor (counts: string -> bool, file: Option<string>)
      ensures schema == KeySchema(counts) && this.file == file && config == [] && Valid()
    {
      this.schema, this.file, config, faults := KeySchema(counts), file, [], 0;
    }

    method Try() returns (o: Outcome)
      modifies this`faults
      ensures faults == old(faults) + if o.Done? then 0 else 1
    {
      o := Io();
      faults := faults + if o.Done? then 0 else 1;
    }

    /** Reads the file; a file that does not parse leaves the store as it was. */
    method Load() returns (r: Result<seq<Entry>, ConfigError>)
      requires Valid()
      modifies this`config
      ensures Valid() && r == if file.None? then Ok([]) else Parsed(file.value, schema)
      ensures config == if r.Ok? then r.value else old(config)
    {
      r := Ok([]);
      if file.Some? {
        r := ParseConfig(file.value, schema);
        ghost var lines := SplitLines(file.value);
        SplitLinesAreLines(file.value);
        ReadLinesIsLegal(lines, 1, [], schema);
      }
      if r.Ok? { config := r.value; }
    }

    /** Changes one key and keeps all others in place. */
    method Set(key: string, value: string) returns (ok: bool)
      requires Valid()
      modifies this`config
      ensures Valid() && (ok <==> IsKey(key) && Accepts(key, value, schema))
      ensures config == if ok then Put(old(config), Entry(key, value)) else old(config)
    {
      ok := IsKey(key) && Accepts(key, value, schema);
      PutKeys(config, Entry(key, value));
      if ok { config := Put(config, Entry(key, value)); }
    }

    /** Replaces the file; on a failure before the replacement the old file stays. */
    method Save() returns (o: Outcome)
      requires Valid()
      modifies this`file, this`faults
      ensures o == Done ==> file == Some(FileText(config))
      ensures o != Done ==> file in {old(file), Some(FileText(config))}
      ensures faults == old(faults) ==> o == Done
    {
      var text := WriteConfig(config, schema);
      o := Try();
      if o == Done {
        file := text;
        o := Try();
      }
    }

    /** A saved store loads again exactly if no value has a line break. */
    lemma Reloads()
      requires Valid() && file == Some(FileText(config))
      ensures Parsed(file.value, schema) == Ok(config) <==> forall i :: 0 <= i < |config| ==> OneLine(config[i].value)
    {
      RoundTripIff(config, schema);
    }
  }
}
