/** Results as JSON values, and how large requests and results are on the wire. */
module WireResults {
  import opened Common
  import opened Json
  import opened ProductionProtocol
  import opened Wire
  import Utf8

  // ----- results -----

  function ErrorValue(e: Option<ErrorDetail>): Json {
    if e.Some? then Obj([("code", Str(e.value.code)), ("message", Str(e.value.message))]) else Null
  }

  /** `result_object` */
  function ShapeValue(r: ProductionResult): Json {
    if r.action == Audit then Obj([("finding_count", OptionalInt(r.findingCount))])
    else Obj([("backup_id", OptionalStr(r.backupId)), ("module_ids", Arr(StrList(r.moduleIds)))])
  }

  function ResultValue(r: ProductionResult): Json {
    Obj([("action", Str(ActionName(r.action))),
         ("error", ErrorValue(r.error)),
         ("exit_code", OptionalInt(r.exitCode)),
         ("finished_at", Str(r.finishedAt)),
         ("output", Str(r.output)),
         ("output_truncated", Bool(r.outputTruncated)),
         ("protocol_version", Int(r.protocolVersion)),
         ("request_id", Str(r.requestId)),
         ("result", ShapeValue(r)),
         ("started_at", Str(r.startedAt)),
         ("status", Str(StatusName(r.status))),
         ("summary", Str(r.summary))])
  }

  const ERROR_FIELDS := {"code", "message"}
  const SHAPE_FIELDS := {"module_ids", "backup_id"}
  const RESULT_NAMES := ["action", "error", "exit_code", "finished_at", "output", "output_truncated",
    "protocol_version", "request_id", "result", "started_at", "status", "summary"]
  const RESULT_FIELDS := {"action", "error", "exit_code", "finished_at", "output", "output_truncated",
    "protocol_version", "request_id", "result", "started_at", "status", "summary"}

  function ErrorOf(v: Json): Option<Option<ErrorDetail>> {
    if v == Null then Some(None)
    else if HasExactly(v, ERROR_FIELDS) && Field(v, "code").Str? && Field(v, "message").Str?
    then Some(Some(ErrorDetail(Field(v, "code").s, Field(v, "message").s)))
    else None
  }

  datatype Shape = Shape(moduleIds: seq<string>, backupId: Option<string>, findingCount: Option<int>)

  function ShapeOf(a: Action, v: Json): Option<Shape> {
    if a == Audit then
      var f := Single(v, "finding_count");
      if f.Some? && f.value.Int? then Some(Shape([], None, Some(f.value.n))) else None
    else if HasExactly(v, SHAPE_FIELDS) && Field(v, "module_ids").Arr? then
      var ids, backup := Strings(Field(v, "module_ids").items), Field(v, "backup_id");
      if ids.None? || !(backup == Null || backup.Str?) then None
      else Some(Shape(ids.value, if backup.Str? then Some(backup.s) else None, None))
    else None
  }

  /** The texts and numbers of a result have the right types. */
  predicate Typed(v: Json)
    requires HasExactly(v, RESULT_FIELDS)
  {
    && ActionOf(Field(v, "action")).Some? && StatusOf(Field(v, "status")).Some?
    && ErrorOf(Field(v, "error")).Some? && ShapeOf(ActionOf(Field(v, "action")).value, Field(v, "result")).Some?
    && TypedTexts(v)
  }

  predicate TypedTexts(v: Json)
    requires HasExactly(v, RESULT_FIELDS)
  {
    && IsVersion(Field(v, "protocol_version")) && Field(v, "request_id").Str?
    && Field(v, "started_at").Str? && Field(v, "finished_at").Str?
    && Field(v, "summary").Str? && Field(v, "output").Str? && Field(v, "output_truncated").Bool?
    && (Field(v, "exit_code") == Null || Field(v, "exit_code").Int?)
  }

  /** A result with the texts and numbers of the value. */
  function WithTexts(v: Json, action: Action, status: ProductionStatus, error: Option<ErrorDetail>, shape: Shape): ProductionResult
    requires HasExactly(v, RESULT_FIELDS) && TypedTexts(v)
  {
    var exit := Field(v, "exit_code");
    ProductionResult(1, Field(v, "request_id").s, action, status, Field(v, "started_at").s, Field(v, "finished_at").s,
                     if exit.Int? then Some(exit.n) else None,
                     Field(v, "summary").s, Field(v, "output").s, Field(v, "output_truncated").b,
                     error, shape.moduleIds, shape.backupId, shape.findingCount)
  }

  function DecodeResult(v: Json): Option<ProductionResult> {
    if NoDuplicates(v) && HasExactly(v, RESULT_FIELDS) && Typed(v) then
      var action := ActionOf(Field(v, "action")).value;
      var r := WithTexts(v, action, StatusOf(Field(v, "status")).value, ErrorOf(Field(v, "error")).value,
                         ShapeOf(action, Field(v, "result")).value);
      if ValidResult(r) then Some(r) else None
    else None
  }

  lemma ErrorRoundTrip(e: Option<ErrorDetail>)
    ensures NoDuplicates(ErrorValue(e)) && ErrorOf(ErrorValue(e)) == Some(e)
  {
    if e.Some? {
      var fs := ErrorValue(e).fields;
      assert Names(fs) == ["code", "message"];
      FieldAt(fs, 0);
      FieldAt(fs, 1);
    }
  }

  lemma ShapeRoundTrip(r: ProductionResult)
    requires ValidShape(r)
    ensures NoDuplicates(ShapeValue(r))
    ensures ShapeOf(r.action, ShapeValue(r)) == Some(Shape(r.moduleIds, r.backupId, r.findingCount))
  {
    var fs := ShapeValue(r).fields;
    if r.action == Audit {
      assert Names(fs) == ["finding_count"];
      SingleIsUnique(OptionalInt(r.findingCount), "finding_count");
    } else {
      assert Names(fs) == ["backup_id", "module_ids"];
      assert forall i :: 0 <= i < |r.moduleIds| ==> NoDuplicates(StrList(r.moduleIds)[i]);
      FieldAt(fs, 0);
      FieldAt(fs, 1);
      StringsOfList(r.moduleIds);
    }
  }

  lemma NamesDiffer()
    ensures Unrepeated(RESULT_NAMES)
  {
  }

  lemma NamesAreFields()
    ensures forall n :: n in RESULT_FIELDS <==> n in RESULT_NAMES
  {
    var ns := RESULT_NAMES;
    assert ns[0] == "action" && ns[1] == "error" && ns[2] == "exit_code" && ns[3] == "finished_at";
    assert ns[4] == "output" && ns[5] == "output_truncated" && ns[6] == "protocol_version" && ns[7] == "request_id";
    assert ns[8] == "result" && ns[9] == "started_at" && ns[10] == "status" && ns[11] == "summary";
  }

  lemma NameList(r: ProductionResult)
    ensures Names(ResultValue(r).fields) == RESULT_NAMES
  {
  }

  lemma ResultNames(r: ProductionResult)
    ensures Names(ResultValue(r).fields) == RESULT_NAMES
    ensures HasExactly(ResultValue(r), RESULT_FIELDS) && Unrepeated(Names(ResultValue(r).fields))
  {
    NamesDiffer();
    NamesAreFields();
    NameList(r);
  }

  lemma ResultField(r: ProductionResult, i: nat)
    requires i < 12
    ensures RESULT_NAMES[i] in Names(ResultValue(r).fields)
    ensures Field(ResultValue(r), RESULT_NAMES[i]) == ResultValue(r).fields[i].1
  {
    ResultNames(r);
    FieldAt(ResultValue(r).fields, i);
    assert ResultValue(r).fields[i].0 == Names(ResultValue(r).fields)[i];
  }

  /** Every field is found again. */
  lemma ResultFields(r: ProductionResult)
    ensures HasExactly(ResultValue(r), RESULT_FIELDS)
    ensures var v := ResultValue(r);
            && Field(v, "action") == Str(ActionName(r.action)) && Field(v, "error") == ErrorValue(r.error)
            && Field(v, "exit_code") == OptionalInt(r.exitCode) && Field(v, "finished_at") == Str(r.finishedAt)
            && Field(v, "output") == Str(r.output) && Field(v, "output_truncated") == Bool(r.outputTruncated)
            && Field(v, "protocol_version") == Int(r.protocolVersion) && Field(v, "request_id") == Str(r.requestId)
            && Field(v, "result") == ShapeValue(r) && Field(v, "started_at") == Str(r.startedAt)
            && Field(v, "status") == Str(StatusName(r.status)) && Field(v, "summary") == Str(r.summary)
  {
    ResultNames(r);
    ResultField(r, 0);
    ResultField(r, 1);
    ResultField(r, 2);
    ResultField(r, 3);
    ResultField(r, 4);
    ResultField(r, 5);
    ResultField(r, 6);
    ResultField(r, 7);
    ResultField(r, 8);
    ResultField(r, 9);
    ResultField(r, 10);
    ResultField(r, 11);
  }

  lemma ResultClean(r: ProductionResult)
    requires ValidShape(r)
    ensures NoDuplicates(ResultValue(r))
  {
    ResultNames(r);
    var fs := ResultValue(r).fields;
    forall i | 0 <= i < |fs| ensures NoDuplicates(fs[i].1) {
      ResultFieldClean(r, i);
    }
  }

  lemma ResultFieldClean(r: ProductionResult, i: nat)
    requires ValidShape(r) && i < 12
    ensures NoDuplicates(ResultValue(r).fields[i].1)
  {
    ErrorRoundTrip(r.error);
    ShapeRoundTrip(r);
  }

  /** Every valid result survives the wire. */
  lemma ResultRoundTrip(r: ProductionResult)
    requires ValidResult(r)
    ensures DecodeResult(ResultValue(r)) == Some(r)
  {
    ResultFields(r);
    ResultClean(r);
    ErrorRoundTrip(r.error);
    ShapeRoundTrip(r);
    ActionNames(r.action, Str(ActionName(r.action)));
    StatusNames(r.status, Str(StatusName(r.status)));
  }

  // ----- only results decode -----

  /** The same value, or an object with the same fields in another order. */
  ghost predicate Rearranged(v: Json, w: Json) {
    v == w || (v.Obj? && w.Obj? && SameFields(v, w))
  }

  ghost predicate SameFields(v: Json, w: Json)
    requires v.Obj? && w.Obj?
  {
    && Unrepeated(Names(v.fields)) && Unrepeated(Names(w.fields))
    && (forall n :: n in Names(v.fields) <==> n in Names(w.fields))
    && (forall n :: n in Names(v.fields) ==> Field(v, n) == Field(w, n))
  }

  /** An object of two fields, whatever their order. */
  lemma {:induction false} TwoFields(v: Json, a: (string, Json), b: (string, Json))
    requires NoDuplicates(v) && a.0 != b.0
    ensures HasExactly(v, {a.0, b.0}) && Field(v, a.0) == a.1 && Field(v, b.0) == b.1 <==> Rearranged(v, Obj([a, b]))
  {
    var fs := [a, b];
    FieldAt(fs, 0);
    FieldAt(fs, 1);
    assert Names(fs) == [a.0, b.0];
    assert Names(fs)[0] in Names(fs) && Names(fs)[1] in Names(fs);
  }

  lemma {:induction false} ErrorDecodesIff(v: Json, e: Option<ErrorDetail>)
    requires NoDuplicates(v)
    ensures ErrorOf(v) == Some(e) <==> Rearranged(v, ErrorValue(e))
  {
    if e.Some? {
      TwoFields(v, ("code", Str(e.value.code)), ("message", Str(e.value.message)));
    }
  }

  lemma {:induction false} FindingsDecodeIff(v: Json, n: int)
    requires NoDuplicates(v)
    ensures Single(v, "finding_count") == Some(Int(n)) <==> Rearranged(v, Obj([("finding_count", Int(n))]))
  {
    var fs := [("finding_count", Int(n))];
    SingleIsUnique(Int(n), "finding_count");
    assert Names(fs) == ["finding_count"];
    FieldAt(fs, 0);
    assert Names(fs)[0] in Names(fs);
  }

  lemma {:induction false} ListedDecodesIff(v: Json, ids: seq<string>, backup: Option<string>)
    requires NoDuplicates(v)
    ensures ShapeOf(ApplyModule, v) == Some(Shape(ids, backup, None))
            <==> Rearranged(v, Obj([("backup_id", OptionalStr(backup)), ("module_ids", Arr(StrList(ids)))]))
  {
    TwoFields(v, ("backup_id", OptionalStr(backup)), ("module_ids", Arr(StrList(ids))));
    StringsOfList(ids);
    if HasExactly(v, SHAPE_FIELDS) && Field(v, "module_ids").Arr? && Strings(Field(v, "module_ids").items).Some? {
      ListOfStrings(Field(v, "module_ids").items);
    }
  }

  lemma {:induction false} ShapeDecodesIff(v: Json, r: ProductionResult)
    requires NoDuplicates(v) && ValidShape(r)
    ensures ShapeOf(r.action, v) == Some(Shape(r.moduleIds, r.backupId, r.findingCount)) <==> Rearranged(v, ShapeValue(r))
  {
    if r.action == Audit {
      FindingsDecodeIff(v, r.findingCount.value);
    } else {
      ListedDecodesIff(v, r.moduleIds, r.backupId);
    }
  }

  /** The value has the fields of the result's encoding with the same values, in any order; its error and its
      shape may order their fields too, and the version may be written as a float. */
  ghost predicate Spells(v: Json, r: ProductionResult) {
    && HasExactly(v, RESULT_FIELDS)
    && Field(v, "action") == Str(ActionName(r.action)) && Field(v, "status") == Str(StatusName(r.status))
    && Rearranged(Field(v, "error"), ErrorValue(r.error)) && Rearranged(Field(v, "result"), ShapeValue(r))
    && SpellsTexts(v, r)
  }

  ghost predicate SpellsTexts(v: Json, r: ProductionResult)
    requires HasExactly(v, RESULT_FIELDS)
  {
    && IsVersion(Field(v, "protocol_version")) && Field(v, "request_id") == Str(r.requestId)
    && Field(v, "started_at") == Str(r.startedAt) && Field(v, "finished_at") == Str(r.finishedAt)
    && Field(v, "summary") == Str(r.summary) && Field(v, "output") == Str(r.output)
    && Field(v, "output_truncated") == Bool(r.outputTruncated) && Field(v, "exit_code") == OptionalInt(r.exitCode)
  }

  lemma {:induction false} TextsIff(v: Json, r: ProductionResult)
    requires HasExactly(v, RESULT_FIELDS) && r.protocolVersion == 1
    ensures SpellsTexts(v, r)
            <==> (TypedTexts(v) && r == WithTexts(v, r.action, r.status, r.error, Shape(r.moduleIds, r.backupId, r.findingCount)))
  {
  }

  lemma {:induction false} PiecesIff(v: Json, r: ProductionResult)
    requires NoDuplicates(v) && HasExactly(v, RESULT_FIELDS) && ValidShape(r)
    ensures ActionOf(Field(v, "action")) == Some(r.action) <==> Field(v, "action") == Str(ActionName(r.action))
    ensures StatusOf(Field(v, "status")) == Some(r.status) <==> Field(v, "status") == Str(StatusName(r.status))
    ensures ErrorOf(Field(v, "error")) == Some(r.error) <==> Rearranged(Field(v, "error"), ErrorValue(r.error))
    ensures ShapeOf(r.action, Field(v, "result")) == Some(Shape(r.moduleIds, r.backupId, r.findingCount))
            <==> Rearranged(Field(v, "result"), ShapeValue(r))
  {
    ActionNames(r.action, Field(v, "action"));
    StatusNames(r.status, Field(v, "status"));
    FieldIsClean(v, "error");
    ErrorDecodesIff(Field(v, "error"), r.error);
    FieldIsClean(v, "result");
    ShapeDecodesIff(Field(v, "result"), r);
  }

  lemma {:induction false} CleanDecodesIff(v: Json, r: ProductionResult)
    requires NoDuplicates(v) && ValidResult(r)
    ensures DecodeResult(v) == Some(r) <==> Spells(v, r)
  {
    if HasExactly(v, RESULT_FIELDS) {
      PiecesIff(v, r);
      TextsIff(v, r);
    }
  }

  /** Whatever decodes at all is valid, and without duplicate names. */
  lemma {:induction false} DecodedIsValid(v: Json)
    requires DecodeResult(v).Some?
    ensures NoDuplicates(v) && ValidResult(DecodeResult(v).value)
  {
  }

  /** Exactly the spellings of valid results, without duplicate names, decode, and to these results. */
  lemma {:induction false} ResultDecodesIff(v: Json, r: ProductionResult)
    ensures DecodeResult(v) == Some(r) <==> NoDuplicates(v) && ValidResult(r) && Spells(v, r)
  {
    if DecodeResult(v) == Some(r) {
      DecodedIsValid(v);
    }
    if NoDuplicates(v) && ValidResult(r) {
      CleanDecodesIff(v, r);
    }
  }

  // ----- the size of the text -----

  /** Bytes of a character inside a JSON string: escapes for quotes, backslashes and controls. */
  function CharSize(c: char): (n: nat)
    ensures 1 <= n <= 6
  {
    if c in {'"', '\\', '\U{8}', '\U{C}', '\n', '\r', '\t'} then 2
    else if c < ' ' then 6
    else |Utf8.EncodeChar(c)|
  }

  function CharsSize(s: string): nat {
    if s == "" then 0 else CharSize(s[0]) + CharsSize(s[1..])
  }

  function IntSize(n: int): nat
    decreases if n < 0 then 1 else 0, if n < 0 then -n else n
  {
    if n < 0 then 1 + IntSize(-n) else if n < 10 then 1 else 1 + IntSize(n / 10)
  }

  /** The bytes of the compact text of a value; a float takes at most 24. */
  function TextSize(v: Json): nat
    decreases v, if v.Obj? then |v.fields| + 1 else 0
  {
    match v
    case Null => 4
    case Bool(b) => if b then 4 else 5
    case Int(n) => IntSize(n)
    case Float(_) => 24
    case Str(s) => 2 + CharsSize(s)
    case Arr(items) => 2 + ItemsSize(items)
    case Obj(_) => 2 + FieldsSize(v, 0)
  }

  function ItemsSize(items: seq<Json>): nat
    decreases items, 0
  {
    if items == [] then 0 else TextSize(items[0]) + (if |items| > 1 then 1 else 0) + ItemsSize(items[1..])
  }

  /** The fields from the given one on, with their quotes, colons and commas. */
  function FieldsSize(v: Json, i: nat): nat
    requires v.Obj? && i <= |v.fields|
    decreases v, |v.fields| - i
  {
    if i == |v.fields| then 0
    else
      3 + CharsSize(v.fields[i].0) + TextSize(v.fields[i].1) + (if i + 1 < |v.fields| then 1 else 0) + FieldsSize(v, i + 1)
  }

  lemma {:induction false} PlainIsOne(s: string)
    requires forall i :: 0 <= i < |s| ==> ' ' <= s[i] <= '~' && s[i] != '"' && s[i] != '\\'
    ensures CharsSize(s) == |s|
    decreases |s|
  {
    if s != "" {
      PlainIsOne(s[1..]);
    }
  }

  lemma {:induction false} AtMostSix(s: string)
    ensures CharsSize(s) <= 6 * |s|
    decreases |s|
  {
    if s != "" {
      AtMostSix(s[1..]);
    }
  }

  lemma {:induction false} ModuleListSize(ids: seq<string>)
    requires forall i :: 0 <= i < |ids| ==> IsModuleId(ids[i])
    ensures ItemsSize(StrList(ids)) <= 67 * |ids|
    decreases |ids|
  {
    if ids != [] {
      PlainIsOne(ids[0]);
      assert StrList(ids)[1..] == StrList(ids[1..]);
      ModuleListSize(ids[1..]);
    }
  }

  lemma OneFieldSize(name: string, value: Json, n: nat)
    requires |name| <= 10 && TextSize(value) <= n
    ensures TextSize(Obj([(name, value)])) <= n + 65
  {
    var v := Obj([(name, value)]);
    AtMostSix(name);
    assert FieldsSize(v, 1) == 0;
  }

  lemma ParametersSize(r: ProductionRequest)
    requires ValidRequest(r)
    ensures TextSize(Parameters(r)) <= 2400
  {
    match r.action
    case Audit =>
      assert FieldsSize(Obj([]), 0) == 0;
    case ApplyModules =>
      ModuleListSize(r.moduleIds);
      OneFieldSize("module_ids", Arr(StrList(r.moduleIds)), 2200);
    case RollbackBackup =>
      PlainIsOne(r.backupId.value);
      OneFieldSize("backup_id", Str(r.backupId.value), 130);
    case _ =>
      PlainIsOne(r.moduleIds[0]);
      OneFieldSize("module_id", Str(r.moduleIds[0]), 66);
  }

  /** Short names, and values of at most `n` bytes. */
  ghost predicate SmallFields(v: Json, n: nat)
    requires v.Obj?
  {
    forall j :: 0 <= j < |v.fields| ==> |v.fields[j].0| <= 16 && TextSize(v.fields[j].1) <= n
  }

  lemma {:induction false} FieldsAtMost(v: Json, n: nat, i: nat)
    requires v.Obj? && i <= |v.fields| && SmallFields(v, n)
    ensures FieldsSize(v, i) <= (n + 100) * (|v.fields| - i)
    decreases |v.fields| - i
  {
    if i < |v.fields| {
      AtMostSix(v.fields[i].0);
      FieldsAtMost(v, n, i + 1);
      assert (n + 100) * (|v.fields| - i) == (n + 100) * (|v.fields| - i - 1) + n + 100;
    }
  }

  lemma ObjectSize(v: Json, n: nat)
    requires v.Obj? && SmallFields(v, n)
    ensures TextSize(v) <= 2 + (n + 100) * |v.fields|
  {
    FieldsAtMost(v, n, 0);
  }

  lemma RequestFieldSize(r: ProductionRequest, i: nat)
    requires ValidRequest(r) && i < 4
    ensures |RequestValue(r).fields[i].0| <= 16 && TextSize(RequestValue(r).fields[i].1) <= 2400
  {
    match i
    case 0 => AtMostSix(ActionName(r.action));
    case 1 => ParametersSize(r);
    case 2 =>
    case _ => AtMostSix(r.requestId);
  }

  lemma RequestFieldsAreSmall(r: ProductionRequest)
    requires ValidRequest(r)
    ensures SmallFields(RequestValue(r), 2400) && |RequestValue(r).fields| == 4
  {
    var v := RequestValue(r);
    forall j | 0 <= j < |v.fields| ensures |v.fields[j].0| <= 16 && TextSize(v.fields[j].1) <= 2400 {
      RequestFieldSize(r, j);
    }
  }

  /** No valid request is too long for the wire. */
  lemma RequestFits(r: ProductionRequest)
    requires ValidRequest(r)
    ensures TextSize(RequestValue(r)) <= MAX_REQUEST_BYTES
  {
    RequestFieldsAreSmall(r);
    ObjectSize(RequestValue(r), 2400);
  }

  lemma {:induction false} ControlsCostSix(n: nat)
    ensures CharsSize(seq(n, _ => '\U{1}')) == 6 * n
    ensures Utf8.Encode(seq(n, _ => '\U{1}')) == seq(n, _ => 1)
  {
    var s := seq(n, _ => '\U{1}');
    if n > 0 {
      assert s[1..] == seq(n - 1, _ => '\U{1}');
      ControlsCostSix(n - 1);
      assert Utf8.EncodeChar('\U{1}') == [1];
      assert [1] + seq(n - 1, _ => 1) == seq(n, _ => 1);
    }
  }

  // ----- when a result fits -----

  /** How many characters are escaped with two bytes, and how many with six. */
  function ShortEscapes(s: string): nat {
    if s == "" then 0
    else (if s[0] in {'"', '\\', '\U{8}', '\U{C}', '\n', '\r', '\t'} then 1 else 0) + ShortEscapes(s[1..])
  }

  function LongEscapes(s: string): nat {
    if s == "" then 0
    else
      (if s[0] < ' ' && s[0] !in {'\U{8}', '\U{C}', '\n', '\r', '\t'} then 1 else 0) + LongEscapes(s[1..])
  }

  lemma {:induction false} EscapesCost(s: string)
    ensures CharsSize(s) == |Utf8.Encode(s)| + ShortEscapes(s) + 5 * LongEscapes(s)
    decreases |s|
  {
    if s != "" {
      EscapesCost(s[1..]);
    }
  }

  /** Objects that differ in one value differ in size by it. */
  lemma {:induction false} OneValueDiffers(a: seq<(string, Json)>, f: (string, Json), g: (string, Json), b: seq<(string, Json)>, i: nat)
    requires f.0 == g.0 && i <= |a| + 1 + |b|
    ensures FieldsSize(Obj(a + [f] + b), i) - FieldsSize(Obj(a + [g] + b), i) == if i <= |a| then TextSize(f.1) - TextSize(g.1) else 0
    decreases |a| + 1 + |b| - i
  {
    if i < |a| + 1 + |b| {
      OneValueDiffers(a, f, g, b, i + 1);
    }
  }

  /** What a result takes without its output. */
  function Overhead(r: ProductionResult): nat {
    TextSize(ResultValue(r.(output := "")))
  }

  lemma {:induction false} OutputAddsUp(r: ProductionResult)
    ensures TextSize(ResultValue(r)) == Overhead(r) + CharsSize(r.output)
  {
    AroundOutput(r);
    AroundOutput(r.(output := ""));
    TextAddsUp(FieldsBefore(r), "output", r.output, FieldsAfter(r));
  }

  lemma {:induction false} TextAddsUp(a: seq<(string, Json)>, name: string, s: string, b: seq<(string, Json)>)
    ensures TextSize(Obj(a + [(name, Str(s))] + b)) == TextSize(Obj(a + [(name, Str(""))] + b)) + CharsSize(s)
  {
    OneValueDiffers(a, (name, Str(s)), (name, Str("")), b, 0);
  }

  function FieldsBefore(r: ProductionResult): seq<(string, Json)> {
    [("action", Str(ActionName(r.action))), ("error", ErrorValue(r.error)), ("exit_code", OptionalInt(r.exitCode)),
     ("finished_at", Str(r.finishedAt))]
  }

  function FieldsAfter(r: ProductionResult): seq<(string, Json)> {
    [("output_truncated", Bool(r.outputTruncated)), ("protocol_version", Int(r.protocolVersion)),
     ("request_id", Str(r.requestId)), ("result", ShapeValue(r)), ("started_at", Str(r.startedAt)),
     ("status", Str(StatusName(r.status))), ("summary", Str(r.summary))]
  }

  lemma {:induction false} AroundOutput(r: ProductionResult)
    ensures ResultValue(r) == Obj(FieldsBefore(r) + [("output", Str(r.output))] + FieldsAfter(r))
  {
  }

  /** A result fits if and only if its output, with two bytes for each short and six for each long escape,
      fits beside the rest. */
  lemma {:induction false} ResultFitsIff(r: ProductionResult)
    ensures TextSize(ResultValue(r)) <= MAX_RESULT_BYTES
            <==> |Utf8.Encode(r.output)| + ShortEscapes(r.output) + 5 * LongEscapes(r.output) <= MAX_RESULT_BYTES - Overhead(r)
  {
    OutputAddsUp(r);
    EscapesCost(r.output);
  }

  lemma {:induction false} EncodedIsLonger(s: string)
    ensures |s| <= |Utf8.Encode(s)|
    decreases |s|
  {
    if s != "" {
      EncodedIsLonger(s[1..]);
    }
  }

  lemma {:induction false} TwoFieldsSize(a: (string, Json), b: (string, Json), n: nat)
    requires |a.0| <= 10 && |b.0| <= 10 && TextSize(a.1) + TextSize(b.1) <= n
    ensures TextSize(Obj([a, b])) <= n + 130
  {
    var v := Obj([a, b]);
    AtMostSix(a.0);
    AtMostSix(b.0);
    assert FieldsSize(v, 2) == 0;
    assert FieldsSize(v, 1) == 3 + CharsSize(b.0) + TextSize(b.1);
  }

  lemma {:induction false} OnlyFieldSize(a: (string, Json), n: nat)
    requires |a.0| <= 16 && TextSize(a.1) <= n
    ensures TextSize(Obj([a])) <= n + 101
  {
    AtMostSix(a.0);
    assert FieldsSize(Obj([a]), 1) == 0;
  }

  lemma {:induction false} ErrorSize(e: Option<ErrorDetail>)
    requires e.Some? ==> ValidError(e.value)
    ensures TextSize(ErrorValue(e)) <= 3300
  {
    if e.Some? {
      PlainIsOne(e.value.code);
      AtMostSix(e.value.message);
      EncodedIsLonger(e.value.message);
      TwoFieldsSize(("code", Str(e.value.code)), ("message", Str(e.value.message)), 3140);
    }
  }

  function TenTo(d: nat): nat {
    if d == 0 then 1 else 10 * TenTo(d - 1)
  }

  lemma {:induction false} DigitsAtMost(n: int, d: nat)
    requires 0 <= n < TenTo(d) && 0 < d
    ensures IntSize(n) <= d
    decreases d
  {
    if n >= 10 && d > 1 {
      DigitsAtMost(n / 10, d - 1);
    }
  }

  lemma {:induction false} SmallInt(n: int)
    requires 0 <= n <= 10000
    ensures IntSize(n) <= 5
  {
    assert TenTo(2) == 100 && TenTo(4) == 10000 && TenTo(5) == 100000;
    DigitsAtMost(n, 5);
  }

  lemma {:induction false} ListedSize(ids: seq<string>, backup: Option<string>)
    requires |ids| <= 32 && forall i :: 0 <= i < |ids| ==> IsModuleId(ids[i])
    requires backup.Some? ==> IsBackupId(backup.value)
    ensures TextSize(Obj([("backup_id", OptionalStr(backup)), ("module_ids", Arr(StrList(ids)))])) <= 3300
  {
    ModuleListSize(ids);
    if backup.Some? { PlainIsOne(backup.value); }
    assert TextSize(OptionalStr(backup)) <= 130 && TextSize(Arr(StrList(ids))) <= 2146;
    TwoFieldsSize(("backup_id", OptionalStr(backup)), ("module_ids", Arr(StrList(ids))), 2276);
  }

  lemma {:induction false} ShapeSize(r: ProductionResult)
    requires ValidResult(r)
    ensures TextSize(ShapeValue(r)) <= 3300
  {
    if r.action == Audit {
      SmallInt(r.findingCount.value);
      OnlyFieldSize(("finding_count", OptionalInt(r.findingCount)), 5);
    } else {
      ListedSize(r.moduleIds, r.backupId);
    }
  }

  ghost predicate IsSmall(field: (string, Json)) {
    |field.0| <= 16 && TextSize(field.1) <= 3300
  }

  lemma {:induction false} TextIsSmall(name: string, s: string)
    requires |name| <= 16 && |s| <= 512
    ensures IsSmall((name, Str(s)))
  {
    AtMostSix(s);
  }

  lemma {:induction false} FieldsBeforeAreSmall(r: ProductionResult, i: nat)
    requires ValidResult(r) && i < 4
    ensures IsSmall(FieldsBefore(r)[i])
  {
    match i
    case 0 => TextIsSmall("action", ActionName(r.action));
    case 1 => ErrorSize(r.error);
    case 2 => if r.exitCode.Some? { SmallInt(r.exitCode.value); }
    case _ => TextIsSmall("finished_at", r.finishedAt);
  }

  lemma {:induction false} FieldsAfterAreSmall(r: ProductionResult, i: nat)
    requires ValidResult(r) && i < 7
    ensures IsSmall(FieldsAfter(r)[i])
  {
    match i
    case 2 => TextIsSmall("request_id", r.requestId);
    case 3 => ShapeSize(r);
    case 4 => TextIsSmall("started_at", r.startedAt);
    case 5 => TextIsSmall("status", StatusName(r.status));
    case 6 =>
      EncodedIsLonger(r.summary);
      TextIsSmall("summary", r.summary);
    case _ =>
  }

  lemma {:induction false} BareIsSmall(r: ProductionResult, v: Json)
    requires ValidResult(r) && v == Obj(FieldsBefore(r) + [("output", Str(""))] + FieldsAfter(r))
    ensures SmallFields(v, 3300)
  {
    forall j | 0 <= j < |v.fields| ensures |v.fields[j].0| <= 16 && TextSize(v.fields[j].1) <= 3300 {
      if j < 4 {
        FieldsBeforeAreSmall(r, j);
      } else if j == 4 {
        TextIsSmall("output", "");
      } else {
        FieldsAfterAreSmall(r, j - 5);
      }
    }
  }

  /** Everything but the output takes at most 40802 bytes. */
  lemma {:induction false} OverheadIsBounded(r: ProductionResult)
    requires ValidResult(r)
    ensures Overhead(r) <= 40802
  {
    var bare := r.(output := "");
    var v := ResultValue(bare);
    AroundOutput(bare);
    BareIsSmall(bare, v);
    ObjectSize(v, 3300);
  }

  /** A valid result fits whenever escaping its output adds at most 24000 bytes: for instance when the
      output has no characters to escape. */
  lemma {:induction false} FewEscapesFit(r: ProductionResult)
    requires ValidResult(r) && ShortEscapes(r.output) + 5 * LongEscapes(r.output) <= 24000
    ensures TextSize(ResultValue(r)) <= MAX_RESULT_BYTES
  {
    OverheadIsBounded(r);
    ResultFitsIff(r);
  }

  /** The short failures and refusals of the dispatcher have no output, so they always fit. */
  lemma {:induction false} EmptyOutputFits(r: ProductionResult)
    requires ValidResult(r) && r.output == ""
    ensures TextSize(ResultValue(r)) <= MAX_RESULT_BYTES
  {
    FewEscapesFit(r);
  }

  lemma {:induction false} PlainOutputFits(r: ProductionResult)
    requires ValidResult(r)
    requires forall i :: 0 <= i < |r.output| ==> ' ' <= r.output[i] && r.output[i] !in {'"', '\\'}
    ensures TextSize(ResultValue(r)) <= MAX_RESULT_BYTES
  {
    NothingToEscape(r.output);
    FewEscapesFit(r);
  }

  lemma {:induction false} NothingToEscape(s: string)
    requires forall i :: 0 <= i < |s| ==> ' ' <= s[i] && s[i] !in {'"', '\\'}
    ensures ShortEscapes(s) == 0 && LongEscapes(s) == 0
    decreases |s|
  {
    if s != "" {
      NothingToEscape(s[1..]);
    }
  }

  // ----- a valid result that does not fit -----

  const TIMESTAMP := seq(20, i => if i in {4, 7} then '-' else if i == 10 then 'T' else if i in {13, 16} then ':'
                                  else if i == 19 then 'Z' else '0')
  const REQUEST_ID := seq(36, i => if i in {8, 13, 18, 23} then '-' else if i == 14 then '4' else if i == 19 then '8' else '0')

  /** An audit without findings whose output is 30000 control characters. */
  const CONTROLS := ProductionResult(1, REQUEST_ID, Audit, Succeeded, TIMESTAMP, TIMESTAMP, Some(0), "",
                                     seq(30000, _ => '\U{1}'), false, None, [], None, Some(0))

  lemma {:induction false} ControlsAreValid()
    ensures ValidResult(CONTROLS)
  {
    ControlsCostSix(30000);
    assert IsTimestamp(TIMESTAMP) && IsRequestId(REQUEST_ID);
    assert '\0' !in CONTROLS.output;
  }

  /** A valid result can be too long: control characters within the output limit take six bytes each. */
  lemma {:induction false} ControlOutputDoesNotFit()
    ensures ValidResult(CONTROLS) && TextSize(ResultValue(CONTROLS)) > MAX_RESULT_BYTES
  {
    ControlsAreValid();
    ControlsCostSix(30000);
    OutputAddsUp(CONTROLS);
  }
}
