/** The canonical configuration file: its schema, its strict parser and its writer. */
module Configuration {
  import opened Common
  import opened Json
  import opened TextLines

  /** One item of the configuration dictionary, whose order is that of insertion. */
  datatype Entry = Entry(key: string, value: string)

  /** A `ConfigError` and the number of the line that raised it. */
  datatype ConfigError =
    | InvalidLine(number: nat)
    | DuplicateKey(number: nat)
    | InvalidValue(number: nat)
    | EmptySection(number: nat)
    | NoIdentifier(number: nat)

  const BOOLEAN_KEYS := {"AUTOMATIC_UPDATES", "BACKUP_ENABLED", "CIS_COMPLIANCE_CHECK", "DISABLE_IPV6", "DRY_RUN",
    "FIREWALL_ENABLED", "INTERACTIVE_MODE", "KERNEL_HARDENING", "LOGGING_VERBOSE", "NETWORK_HARDENING",
    "ROLLBACK_ENABLED", "SSH_HARDENING"}

  const ENUMS := map[
    "LOGGING_LEVEL" := {"DEBUG", "INFO", "WARNING", "ERROR"},
    "MAC_SYSTEM" := {"auto", "apparmor", "selinux", "none"},
    "SYSTEM_ROLE" := {"auto", "desktop", "server"}]

  const HEADER := "# LSMF configuration" + ". Parsed as data; ne" + "ver source this file."

  // ----- the schema -----

  predicate IsUpper(c: char) {
    'A' <= c <= 'Z'
  }

  predicate IsKeyChar(c: char) {
    IsUpper(c) || '0' <= c <= '9' || c == '_'
  }

  predicate IsKey(s: string) {
    s != [] && IsUpper(s[0]) && forall i :: 0 <= i < |s| ==> IsKeyChar(s[i])
  }

  /** No quote and no backslash: what the assignment pattern allows between the quotes. */
  predicate Quotable(s: string) {
    forall i :: 0 <= i < |s| ==> s[i] != '"' && s[i] != '\\'
  }

  /** The part of `validate_value` that depends on the key. Which texts `isdigit` and `int` take for a
      positive number is the parameter `counts`. */
  function KeySchema(counts: string -> bool): (string, string) -> bool {
    (key: string, value: string) =>
      if key in BOOLEAN_KEYS || "MODULE_" <= key || "FEATURE_" <= key then value in {"true", "false"}
      else if key == "BACKUP_RETENTION_DAYS" then counts(value)
      else key in ENUMS ==> value in ENUMS[key]
  }

  /** `validate_value` raises nothing; `schema` is its part that depends on the key. */
  predicate Accepts(key: string, value: string, schema: (string, string) -> bool) {
    Quotable(value) && '\n' !in value && '\r' !in value && schema(key, value)
  }

  function Keys(entries: seq<Entry>): (ks: seq<string>)
    ensures |ks| == |entries| && forall i :: 0 <= i < |ks| ==> ks[i] == entries[i].key
  {
    seq(|entries|, i requires 0 <= i < |entries| => entries[i].key)
  }

  /** What the writer accepts: legal distinct keys and legal values. */
  ghost predicate Legal(entries: seq<Entry>, schema: (string, string) -> bool) {
    && Unrepeated(Keys(entries))
    && forall e :: e in entries ==> IsKey(e.key) && Accepts(e.key, e.value, schema)
  }

  // ----- writing -----

  function Rendered(e: Entry): string {
    e.key + "=\"" + e.value + "\""
  }

  function Body(entries: seq<Entry>): string {
    if entries == [] then "" else Rendered(entries[0]) + "\n" + Body(entries[1..])
  }

  /** A comment line and then one line per assignment. */
  function Document(comment: string, entries: seq<Entry>): string {
    comment + "\n" + Body(entries)
  }

  function FileText(entries: seq<Entry>): string {
    Document(HEADER, entries)
  }

  lemma BodyAppend(a: seq<Entry>, b: seq<Entry>)
    ensures Body(a + b) == Body(a) + Body(b)
  {
    if a == [] {
      assert a + b == b;
    } else {
      assert (a + b)[0] == a[0] && (a + b)[1..] == a[1..] + b;
      BodyAppend(a[1..], b);
    }
  }

  /** The text that `write_config_atomic` puts in place of the file, if it accepts the dictionary. */
  method WriteConfig(entries: seq<Entry>, schema: (string, string) -> bool) returns (r: Option<string>)
    requires Unrepeated(Keys(entries))
    ensures r == if Legal(entries, schema) then Some(FileText(entries)) else None
  {
    for i := 0 to |entries|
      invariant forall e :: e in entries[..i] ==> IsKey(e.key) && Accepts(e.key, e.value, schema)
    {
      assert entries[i] in entries && entries[..i + 1] == entries[..i] + [entries[i]];
      if !IsKey(entries[i].key) || !Accepts(entries[i].key, entries[i].value, schema) { return None; }
    }
    assert entries[..|entries|] == entries;
    var text := HEADER + "\n";
    for i := 0 to |entries|
      invariant text == FileText(entries[..i])
    {
      assert entries[..i + 1] == entries[..i] + [entries[i]];
      BodyAppend(entries[..i], [entries[i]]);
      assert Body([entries[i]]) == Rendered(entries[i]) + "\n";
      text := text + (Rendered(entries[i]) + "\n");
    }
    r := Some(text);
  }

  // ----- parsing -----

  function KeyLength(s: string): (n: nat)
    ensures n <= |s| && (forall i :: 0 <= i < n ==> IsKeyChar(s[i]))
    ensures n < |s| ==> !IsKeyChar(s[n])
  {
    if s == [] || !IsKeyChar(s[0]) then 0 else 1 + KeyLength(s[1..])
  }

  /** The full match of the assignment pattern: exactly the rendered assignments. */
  function Assignment(line: string): (r: Option<Entry>)
    ensures r.Some? ==> line == Rendered(r.value) && IsKey(r.value.key) && Quotable(r.value.value)
  {
    var n := KeyLength(line);
    if n >= 1 && IsUpper(line[0]) && |line| >= n + 3 && line[n] == '=' && line[n + 1] == '"' && line[|line| - 1] == '"'
       && Quotable(line[n + 2..|line| - 1])
    then
      var e := Entry(line[..n], line[n + 2..|line| - 1]);
      assert line == line[..n] + line[n..n + 2] + line[n + 2..|line| - 1] + line[|line| - 1..];
      Some(e)
    else None
  }

  /** One line of the file read into the dictionary. */
  function ReadLine(raw: string, number: nat, values: seq<Entry>, schema: (string, string) -> bool): Result<seq<Entry>, ConfigError> {
    var line := Strip(raw);
    if line == [] || line[0] == '#' then Ok(values)
    else
      match Assignment(line)
      case None => Err(InvalidLine(number))
      case Some(e) =>
        if e.key in Keys(values) then Err(DuplicateKey(number))
        else if !Accepts(e.key, e.value, schema) then Err(InvalidValue(number))
        else Ok(values + [e])
  }

  function ReadLines(lines: seq<string>, number: nat, values: seq<Entry>, schema: (string, string) -> bool): Result<seq<Entry>, ConfigError>
    decreases |lines|
  {
    if lines == [] then Ok(values)
    else
      var r := ReadLine(lines[0], number, values, schema);
      if r.Err? then r else ReadLines(lines[1..], number + 1, r.value, schema)
  }

  function Parsed(text: string, schema: (string, string) -> bool): Result<seq<Entry>, ConfigError> {
    ReadLines(SplitLines(text), 1, [], schema)
  }

  /** `parse_config` */
  method ParseConfig(text: string, schema: (string, string) -> bool) returns (r: Result<seq<Entry>, ConfigError>)
    ensures r == Parsed(text, schema)
  {
    var lines := SplitLines(text);
    var values: seq<Entry> := [];
    for i := 0 to |lines|
      invariant ReadLines(lines, 1, [], schema) == ReadLines(lines[i..], i + 1, values, schema)
    {
      assert lines[i..][0] == lines[i] && lines[i..][1..] == lines[i + 1..];
      var line := Strip(lines[i]);
      if line == [] || line[0] == '#' { continue; }
      var found := Assignment(line);
      if found.None? { return Err(InvalidLine(i + 1)); }
      var e := found.value;
      if e.key in Keys(values) { return Err(DuplicateKey(i + 1)); }
      if !Accepts(e.key, e.value, schema) { return Err(InvalidValue(i + 1)); }
      values := values + [e];
    }
    r := Ok(values);
  }
}
