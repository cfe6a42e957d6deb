/** Writing and parsing undo each other, except for values with a line break that the schema lets through. */
module ConfigurationFacts {
  import opened Common
  import opened Json
  import opened TextLines
  import opened Configuration

  // ----- the assignment pattern -----

  lemma {:induction false} KeyLengthOf(key: string, rest: string)
    requires (forall i :: 0 <= i < |key| ==> IsKeyChar(key[i])) && rest != [] && !IsKeyChar(rest[0])
    ensures KeyLength(key + rest) == |key|
    decreases |key|
  {
    if key == [] {
      assert key + rest == rest;
    } else {
      assert (key + rest)[1..] == key[1..] + rest;
      KeyLengthOf(key[1..], rest);
    }
  }

  /** A rendered assignment is read back. */
  lemma AssignmentOfRendered(e: Entry)
    requires IsKey(e.key) && Quotable(e.value)
    ensures Assignment(Rendered(e)) == Some(e)
  {
    var line, rest := Rendered(e), "=\"" + e.value + "\"";
    assert line == e.key + rest;
    KeyLengthOf(e.key, rest);
    var n := |e.key|;
    assert line[..n] == e.key && line[n + 2..|line| - 1] == e.value;
    assert line[n] == '=' && line[n + 1] == '"' && line[0] == e.key[0];
  }

  /** Up to a point within its value, a rendered assignment has one quote, so it is no assignment. */
  lemma CutIsNoAssignment(e: Entry, cut: string)
    requires IsKey(e.key) && Quotable(e.value)
    requires cut <= e.key + "=\"" + e.value
    ensures Assignment(cut) == None
  {
    var whole := e.key + "=\"" + e.value;
    var found := Assignment(cut);
    if found.Some? {
      var f := found.value;
      assert Rendered(f)[|f.key| + 1] == '"' && Rendered(f)[|cut| - 1] == '"';
      assert whole[|f.key| + 1] == '"' && whole[|cut| - 1] == '"';
      OneQuote(e, |f.key| + 1);
      OneQuote(e, |cut| - 1);
    }
  }

  lemma OneQuote(e: Entry, i: nat)
    requires IsKey(e.key) && Quotable(e.value)
    requires i < |e.key + "=\"" + e.value| && (e.key + "=\"" + e.value)[i] == '"'
    ensures i == |e.key| + 1
  {
    var whole := e.key + "=\"" + e.value;
    forall j | |e.key| + 2 <= j < |whole| ensures whole[j] != '"' {
      assert whole[j] == e.value[j - |e.key| - 2];
    }
  }

  // ----- reading one written line -----

  lemma ReadRendered(e: Entry, number: nat, values: seq<Entry>, schema: (string, string) -> bool)
    requires IsKey(e.key) && Accepts(e.key, e.value, schema) && e.key !in Keys(values)
    ensures ReadLine(Rendered(e), number, values, schema) == Ok(values + [e])
  {
    AssignmentOfRendered(e);
    var line := Rendered(e);
    assert line[0] == e.key[0] && line[|line| - 1] == '"';
    StripKeepsBeginning(line);
  }

  lemma ReadCut(e: Entry, cut: string, number: nat, values: seq<Entry>, schema: (string, string) -> bool)
    requires IsKey(e.key) && Quotable(e.value)
    requires e.key + "=\"" <= cut <= e.key + "=\"" + e.value
    ensures ReadLine(cut, number, values, schema) == Err(InvalidLine(number))
  {
    assert cut[0] == e.key[0];
    StripKeepsBeginning(cut);
    CutIsNoAssignment(e, Strip(cut));
  }

  lemma CommentIsSkipped(comment: string, rest: string, schema: (string, string) -> bool)
    requires comment != [] && comment[0] == '#' && OneLine(comment)
    ensures Parsed(comment + "\n" + rest, schema) == ReadLines(SplitLines(rest), 2, [], schema)
  {
    SplitOff(comment, rest);
    var lines := SplitLines(comment + "\n" + rest);
    StripKeepsBeginning(comment);
    assert lines[0] == comment && lines[1..] == SplitLines(rest);
  }

  lemma HeaderIsComment()
    ensures HEADER != [] && HEADER[0] == '#' && OneLine(HEADER)
  {
    var a, b, c := "# LSMF configuration", ". Parsed as data; ne", "ver source this file.";
    assert OneLine(a) && OneLine(b) && OneLine(c) && a[0] == '#';
    assert HEADER == a + b + c;
  }

  // ----- the round trip -----

  /** The first entry whose value has a line break, or the number of entries. */
  ghost function FirstBroken(entries: seq<Entry>): (n: nat)
    ensures n <= |entries|
    ensures n < |entries| ==> !OneLine(entries[n].value)
    ensures forall i :: 0 <= i < n ==> OneLine(entries[i].value)
  {
    if entries == [] || !OneLine(entries[0].value) then 0 else 1 + FirstBroken(entries[1..])
  }

  lemma RenderedIsOneLine(e: Entry)
    requires IsKey(e.key) && OneLine(e.value)
    ensures OneLine(Rendered(e))
  {
  }

  lemma BrokenLine(e: Entry, rest: string)
    requires IsKey(e.key) && Quotable(e.value) && !OneLine(e.value)
    ensures var lines := SplitLines(Rendered(e) + "\n" + rest);
            lines != [] && e.key + "=\"" <= lines[0] <= e.key + "=\"" + e.value
  {
    var n := LineLength(e.value);
    var head, tail := e.key + "=\"" + e.value[..n], e.value[n..] + "\"" + "\n" + rest;
    assert Rendered(e) + "\n" + rest == head + tail;
    assert OneLine(head);
    SplitAt(head, tail);
  }

  /** One written line whose value has no break is read, the rest follows. */
  lemma IntactHead(entries: seq<Entry>, number: nat, values: seq<Entry>, schema: (string, string) -> bool)
    requires entries != [] && IsKey(entries[0].key) && Accepts(entries[0].key, entries[0].value, schema)
    requires entries[0].key !in Keys(values) && OneLine(entries[0].value)
    ensures ReadLines(SplitLines(Body(entries)), number, values, schema)
            == ReadLines(SplitLines(Body(entries[1..])), number + 1, values + [entries[0]], schema)
  {
    var e, rest := entries[0], Body(entries[1..]);
    RenderedIsOneLine(e);
    SplitOff(Rendered(e), rest);
    var lines := SplitLines(Body(entries));
    assert lines[0] == Rendered(e) && lines[1..] == SplitLines(rest);
    ReadRendered(e, number, values, schema);
  }

  lemma BrokenHead(entries: seq<Entry>, number: nat, values: seq<Entry>, schema: (string, string) -> bool)
    requires entries != [] && IsKey(entries[0].key) && Quotable(entries[0].value) && !OneLine(entries[0].value)
    ensures ReadLines(SplitLines(Body(entries)), number, values, schema) == Err(InvalidLine(number))
  {
    BrokenLine(entries[0], Body(entries[1..]));
    ReadCut(entries[0], SplitLines(Body(entries))[0], number, values, schema);
  }

  /** The next entry can be read, and the dictionary with it continues as before. */
  lemma FirstIsLegal(values: seq<Entry>, entries: seq<Entry>, schema: (string, string) -> bool)
    requires Legal(values + entries, schema) && entries != []
    ensures IsKey(entries[0].key) && Accepts(entries[0].key, entries[0].value, schema)
    ensures entries[0].key !in Keys(values)
    ensures values + entries == values + [entries[0]] + entries[1..]
  {
    var all := values + entries;
    assert all[|values|] in all;
    forall i | 0 <= i < |values| ensures Keys(values)[i] != entries[0].key {
      assert Keys(all)[i] == values[i].key && Keys(all)[|values|] == entries[0].key;
    }
  }

  /** What reading written lines comes to. */
  ghost function ReadBack(entries: seq<Entry>, number: nat, values: seq<Entry>): Result<seq<Entry>, ConfigError>
    decreases |entries|
  {
    if entries == [] then Ok(values)
    else if OneLine(entries[0].value) then ReadBack(entries[1..], number + 1, values + [entries[0]])
    else Err(InvalidLine(number))
  }

  lemma {:induction false} BodyParses(entries: seq<Entry>, number: nat, values: seq<Entry>, schema: (string, string) -> bool)
    requires Legal(values + entries, schema)
    ensures ReadLines(SplitLines(Body(entries)), number, values, schema) == ReadBack(entries, number, values)
    decreases |entries|
  {
    if entries != [] {
      FirstIsLegal(values, entries, schema);
      if OneLine(entries[0].value) {
        IntactHead(entries, number, values, schema);
        BodyParses(entries[1..], number + 1, values + [entries[0]], schema);
      } else {
        BrokenHead(entries, number, values, schema);
      }
    }
  }

  lemma {:induction false} ReadBackIs(entries: seq<Entry>, number: nat, values: seq<Entry>)
    ensures var n := FirstBroken(entries);
            ReadBack(entries, number, values) == if n == |entries| then Ok(values + entries) else Err(InvalidLine(number + n))
    decreases |entries|
  {
    if entries == [] {
      assert values + entries == values;
    } else if OneLine(entries[0].value) {
      ReadBackIs(entries[1..], number + 1, values + [entries[0]]);
      assert values + [entries[0]] + entries[1..] == values + entries;
    }
  }

  /** What parsing written assignments returns: the same dictionary in the same order, unless some value
      has a line break of the wider set that only `splitlines` knows; then the parser refuses the file at
      the first such line. */
  lemma ParseOfDocument(comment: string, entries: seq<Entry>, schema: (string, string) -> bool)
    requires comment != [] && comment[0] == '#' && OneLine(comment)
    requires Legal(entries, schema)
    ensures var n := FirstBroken(entries);
            Parsed(Document(comment, entries), schema) == if n == |entries| then Ok(entries) else Err(InvalidLine(2 + n))
  {
    CommentIsSkipped(comment, Body(entries), schema);
    assert [] + entries == entries;
    BodyParses(entries, 2, [], schema);
    ReadBackIs(entries, 2, []);
  }

  /** Hence the round trip succeeds exactly for break-free values, which is what a caller can check. */
  lemma DocumentSurvivesIff(comment: string, entries: seq<Entry>, schema: (string, string) -> bool)
    requires comment != [] && comment[0] == '#' && OneLine(comment)
    requires Legal(entries, schema)
    ensures Parsed(Document(comment, entries), schema) == Ok(entries)
            <==> forall i :: 0 <= i < |entries| ==> OneLine(entries[i].value)
  {
    ParseOfDocument(comment, entries, schema);
  }

  /** Both with the writer's own header, for everything the writer accepts. */
  lemma ParseOfWrite(entries: seq<Entry>, schema: (string, string) -> bool)
    requires Legal(entries, schema)
    ensures var n := FirstBroken(entries);
            Parsed(FileText(entries), schema) == if n == |entries| then Ok(entries) else Err(InvalidLine(2 + n))
  {
    HeaderIsComment();
    ParseOfDocument(HEADER, entries, schema);
  }

  lemma RoundTripIff(entries: seq<Entry>, schema: (string, string) -> bool)
    requires Legal(entries, schema)
    ensures Parsed(FileText(entries), schema) == Ok(entries) <==> forall i :: 0 <= i < |entries| ==> OneLine(entries[i].value)
  {
    ParseOfWrite(entries, schema);
  }

  /** The shipped schema has no objection to it. */
  lemma NoteIsFree(counts: string -> bool)
    ensures KeySchema(counts)("NOTE", "\U{0B}")
  {
    var key := "NOTE";
    assert |key| == 4 && key[0] == 'N';
    assert key !in BOOLEAN_KEYS;
    assert key !in ENUMS;
  }

  lemma NoteIsLegal(schema: (string, string) -> bool)
    requires schema("NOTE", "\U{0B}")
    ensures Legal([Entry("NOTE", "\U{0B}")], schema) && !OneLine("\U{0B}")
  {
    var value := "\U{0B}";
    assert IsKey("NOTE") && value[0] == '\U{0B}';
  }

  /** The writer takes the dictionary, and the parser refuses its file at the first value, under the writer's
      header and under any other comment. */
  ghost predicate LegalButRefused(comment: string, entries: seq<Entry>, schema: (string, string) -> bool) {
    && Legal(entries, schema)
    && Parsed(FileText(entries), schema) == Err(InvalidLine(2))
    && Parsed(Document(comment, entries), schema) == Err(InvalidLine(2))
  }

  lemma {:induction false} FirstIsLost(comment: string, entries: seq<Entry>, schema: (string, string) -> bool)
    requires comment != [] && comment[0] == '#' && OneLine(comment)
    requires Legal(entries, schema) && entries != [] && !OneLine(entries[0].value)
    ensures Parsed(Document(comment, entries), schema) == Err(InvalidLine(2))
  {
    assert entries[0] in entries;
    CommentIsSkipped(comment, Body(entries), schema);
    BrokenHead(entries, 2, [], schema);
  }

  lemma {:induction false} FirstBreaksAnyFile(comment: string, entries: seq<Entry>, schema: (string, string) -> bool)
    requires comment != [] && comment[0] == '#' && OneLine(comment)
    requires Legal(entries, schema) && entries != [] && !OneLine(entries[0].value)
    ensures LegalButRefused(comment, entries, schema)
  {
    FirstIsLost(comment, entries, schema);
    HeaderIsComment();
    FirstIsLost(HEADER, entries, schema);
  }

  /** The exception is real: under the shipped schema a vertical tab is a legal value, and the written file
      is refused. */
  lemma {:induction false} VerticalTabIsLost(comment: string, counts: string -> bool)
    requires comment != [] && comment[0] == '#' && OneLine(comment)
    ensures LegalButRefused(comment, [Entry("NOTE", "\U{0B}")], KeySchema(counts))
  {
    NoteIsFree(counts);
    NoteIsLegal(KeySchema(counts));
    FirstBreaksAnyFile(comment, [Entry("NOTE", "\U{0B}")], KeySchema(counts));
  }

  /** What is written and lost has one of the eight break characters other than line feed and carriage return. */
  lemma {:induction false} LossIsRare(entries: seq<Entry>, schema: (string, string) -> bool) returns (i: nat, j: nat)
    requires Legal(entries, schema) && Parsed(FileText(entries), schema) != Ok(entries)
    ensures i < |entries| && j < |entries[i].value|
    ensures entries[i].value[j] as int in {11, 12, 28, 29, 30, 133, 8232, 8233}
  {
    RoundTripIff(entries, schema);
    i :| 0 <= i < |entries| && !OneLine(entries[i].value);
    j :| 0 <= j < |entries[i].value| && IsBreak(entries[i].value[j]);
    assert entries[i] in entries;
    Characters(entries[i].value[j]);
  }

  lemma {:induction false} SwitchIsAcceptedIff(key: string, value: string, counts: string -> bool)
    requires "MODULE_" <= key || "FEATURE_" <= key
    ensures Accepts(key, value, KeySchema(counts)) <==> value in {"true", "false"}
    ensures value in {"true", "false"} ==> OneLine(value)
  {
  }

  /** A switch of a module or feature can be written, and then survives, exactly if it is `true` or `false`. */
  lemma {:induction false} SwitchesAreBoolean(key: string, value: string, counts: string -> bool)
    requires IsKey(key) && ("MODULE_" <= key || "FEATURE_" <= key)
    ensures Legal([Entry(key, value)], KeySchema(counts)) <==> value in {"true", "false"}
    ensures value in {"true", "false"} ==> Parsed(FileText([Entry(key, value)]), KeySchema(counts)) == Ok([Entry(key, value)])
  {
    SwitchIsAcceptedIff(key, value, counts);
    OneEntryIsLegal(Entry(key, value), KeySchema(counts));
  }

  lemma {:induction false} OneEntryIsLegal(e: Entry, schema: (string, string) -> bool)
    requires IsKey(e.key)
    ensures Legal([e], schema) <==> Accepts(e.key, e.value, schema)
    ensures Legal([e], schema) && OneLine(e.value) ==> Parsed(FileText([e]), schema) == Ok([e])
  {
    assert [e][0] in [e] && Keys([e]) == [e.key];
    if Legal([e], schema) { RoundTripIff([e], schema); }
  }

  // ----- what comes from parsing -----

  lemma ReadLineIsLegal(raw: string, number: nat, values: seq<Entry>, schema: (string, string) -> bool)
    requires OneLine(raw) && Legal(values, schema) && (forall e :: e in values ==> OneLine(e.value))
    ensures var r := ReadLine(raw, number, values, schema);
            r.Ok? ==> Legal(r.value, schema) && forall e :: e in r.value ==> OneLine(e.value)
  {
    StripKeepsOneLine(raw);
    var line := Strip(raw);
    var found := Assignment(line);
    if found.Some? {
      var e := found.value;
      forall i | 0 <= i < |e.value| ensures !IsBreak(e.value[i]) {
        assert line[|e.key| + 2 + i] == e.value[i];
      }
      assert Keys(values + [e]) == Keys(values) + [e.key];
    }
  }

  lemma {:induction false} ReadLinesIsLegal(lines: seq<string>, number: nat, values: seq<Entry>, schema: (string, string) -> bool)
    requires (forall i :: 0 <= i < |lines| ==> OneLine(lines[i]))
    requires Legal(values, schema) && (forall e :: e in values ==> OneLine(e.value))
    ensures var r := ReadLines(lines, number, values, schema);
            r.Ok? ==> Legal(r.value, schema) && forall e :: e in r.value ==> OneLine(e.value)
    decreases |lines|
  {
    if lines != [] {
      ReadLineIsLegal(lines[0], number, values, schema);
      var r := ReadLine(lines[0], number, values, schema);
      if r.Ok? {
        ReadLinesIsLegal(lines[1..], number + 1, r.value, schema);
      }
    }
  }

  /** Every dictionary that was parsed can be written, and parsing that file returns it unchanged. */
  lemma ParsedSurvives(text: string, schema: (string, string) -> bool)
    requires Parsed(text, schema).Ok?
    ensures var entries := Parsed(text, schema).value;
            Legal(entries, schema) && Parsed(FileText(entries), schema) == Ok(entries)
  {
    SplitLinesAreLines(text);
    ReadLinesIsLegal(SplitLines(text), 1, [], schema);
    ParseOfWrite(Parsed(text, schema).value, schema);
  }
}
