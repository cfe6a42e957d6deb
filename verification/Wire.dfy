/** Requests, cancellations and results as JSON values, and the size of their text. */
module Wire {
  import opened Common
  import opened Json
  import opened ProductionProtocol
  import Utf8

  const MAX_REQUEST_BYTES := 16384
  const MAX_RESULT_BYTES := 131072

  // ----- names -----

  function ActionName(a: Action): string {
    match a
    case Audit => "audit"
    case VerifyModule => "verify_module"
    case ApplyModule => "apply_module"
    case ApplyModules => "apply_modules"
    case RollbackBackup => "rollback_backup"
  }

  function ActionOf(v: Json): Option<Action> {
    if v == Str("audit") then Some(Audit)
    else if v == Str("verify_module") then Some(VerifyModule)
    else if v == Str("apply_module") then Some(ApplyModule)
    else if v == Str("apply_modules") then Some(ApplyModules)
    else if v == Str("rollback_backup") then Some(RollbackBackup)
    else None
  }

  function StatusName(s: ProductionStatus): string {
    match s
    case Succeeded => "succeeded"
    case Failed => "failed"
    case Denied => "denied"
    case Cancelled => "cancelled"
    case TimedOut => "timed_out"
    case Rejected => "rejected"
  }

  function StatusOf(v: Json): Option<ProductionStatus> {
    if v == Str("succeeded") then Some(Succeeded)
    else if v == Str("failed") then Some(Failed)
    else if v == Str("denied") then Some(Denied)
    else if v == Str("cancelled") then Some(Cancelled)
    else if v == Str("timed_out") then Some(TimedOut)
    else if v == Str("rejected") then Some(Rejected)
    else None
  }

  lemma ActionNames(a: Action, v: Json)
    ensures ActionOf(v) == Some(a) <==> v == Str(ActionName(a))
  {
  }

  lemma StatusNames(s: ProductionStatus, v: Json)
    ensures StatusOf(v) == Some(s) <==> v == Str(StatusName(s))
  {
  }

  // ----- small pieces -----

  function StrList(ss: seq<string>): (vs: seq<Json>)
    ensures |vs| == |ss| && forall i :: 0 <= i < |vs| ==> vs[i] == Str(ss[i])
  {
    seq(|ss|, i requires 0 <= i < |ss| => Str(ss[i]))
  }

  /** The strings of an array of strings. */
  function Strings(vs: seq<Json>): (r: Option<seq<string>>)
    ensures r.Some? ==> |r.value| == |vs| && forall i :: 0 <= i < |vs| ==> vs[i] == Str(r.value[i])
  {
    if forall i :: 0 <= i < |vs| ==> vs[i].Str?
    then Some(seq(|vs|, i requires 0 <= i < |vs| && vs[i].Str? => vs[i].s))
    else None
  }

  lemma StringsOfList(ss: seq<string>)
    ensures Strings(StrList(ss)) == Some(ss)
  {
    assert Strings(StrList(ss)).value == ss;
  }

  /** An array of strings is the list of its strings. */
  lemma ListOfStrings(vs: seq<Json>)
    requires Strings(vs).Some?
    ensures vs == StrList(Strings(vs).value)
  {
  }

  function OptionalStr(o: Option<string>): Json {
    if o.Some? then Str(o.value) else Null
  }

  function OptionalInt(o: Option<int>): Json {
    if o.Some? then Int(o.value) else Null
  }

  /** The float 1.0 equals the version 1. */
  predicate IsVersion(v: Json) {
    v == Int(1) || v == Float(1.0)
  }

  /** With unique names, a field is found under its own name. */
  lemma FieldAt(fields: seq<(string, Json)>, i: nat)
    requires Unrepeated(Names(fields)) && i < |fields|
    ensures fields[i].0 in Names(fields) && Field(Obj(fields), fields[i].0) == fields[i].1
  {
    assert Names(fields)[i] == fields[i].0;
    var f := FindField(fields, fields[i].0);
    var j :| 0 <= j < |fields| && fields[j].0 == fields[i].0 && f == fields[j].1;
    assert Names(fields)[j] == Names(fields)[i];
  }

  // ----- requests -----

  /** `parameters` */
  function Parameters(r: ProductionRequest): Json
    requires ValidRequest(r)
  {
    match r.action
    case Audit => Obj([])
    case ApplyModules => Obj([("module_ids", Arr(StrList(r.moduleIds)))])
    case RollbackBackup => Obj([("backup_id", Str(r.backupId.value))])
    case _ => Obj([("module_id", Str(r.moduleIds[0]))])
  }

  function RequestValue(r: ProductionRequest): Json
    requires ValidRequest(r)
  {
    Obj([("action", Str(ActionName(r.action))), ("parameters", Parameters(r)),
         ("protocol_version", Int(r.protocolVersion)), ("request_id", Str(r.requestId))])
  }

  /** The only name of an object and its value. */
  function Single(v: Json, name: string): Option<Json> {
    if HasExactly(v, {name}) then Some(Field(v, name)) else None
  }

  /** The module IDs and backup ID that the parameters of an action name. */
  function ParametersOf(a: Action, v: Json): Option<(seq<string>, Option<string>)> {
    match a
    case Audit => if HasExactly(v, NO_FIELDS) then Some(([], None)) else None
    case ApplyModules =>
      var f := Single(v, "module_ids");
      if f.Some? && f.value.Arr? && Strings(f.value.items).Some? then Some((Strings(f.value.items).value, None)) else None
    case RollbackBackup =>
      var f := Single(v, "backup_id");
      if f.Some? && f.value.Str? then Some(([], Some(f.value.s))) else None
    case _ =>
      var f := Single(v, "module_id");
      if f.Some? && f.value.Str? then Some(([f.value.s], None)) else None
  }

  const NO_FIELDS: set<string> := {}
  const REQUEST_FIELDS := {"protocol_version", "request_id", "action", "parameters"}

  function RequestOf(version: Json, id: Json, action: Json, parameters: Json): Option<ProductionRequest> {
    if version.Int? && id.Str? && ActionOf(action).Some? && ParametersOf(ActionOf(action).value, parameters).Some? then
      var p := ParametersOf(ActionOf(action).value, parameters).value;
      var r := ProductionRequest(version.n, id.s, ActionOf(action).value, p.0, p.1);
      if ValidRequest(r) then Some(r) else None
    else None
  }

  function DecodeRequest(v: Json): Option<ProductionRequest> {
    if NoDuplicates(v) && HasExactly(v, REQUEST_FIELDS) then
      RequestOf(Field(v, "protocol_version"), Field(v, "request_id"), Field(v, "action"), Field(v, "parameters"))
    else None
  }

  /** An object with this one field, and no other way to write it. */
  lemma SingleIsUnique(v: Json, name: string)
    ensures Single(Obj([(name, v)]), name) == Some(v)
    ensures forall w: Json :: NoDuplicates(w) && Single(w, name) == Some(v) ==> w == Obj([(name, v)])
  {
    var one := [(name, v)];
    assert Names(one) == [name];
    FieldAt(one, 0);
    forall w: Json | NoDuplicates(w) && Single(w, name) == Some(v) ensures w == Obj(one) {
      OneField(w, name);
      FieldAt(w.fields, 0);
    }
  }

  lemma NoFields(v: Json)
    ensures HasExactly(v, NO_FIELDS) <==> v == Obj([])
  {
    if v.Obj? && v.fields != [] {
      assert Names(v.fields)[0] in Names(v.fields);
    }
  }

  lemma TwoDiffer<T>(s: seq<T>, i: nat, j: nat)
    requires Unrepeated(s) && i < j < |s|
    ensures s[i] != s[j]
  {
  }

  lemma OneField(w: Json, name: string)
    requires NoDuplicates(w) && HasExactly(w, {name})
    ensures |w.fields| == 1 && w.fields[0].0 == name
  {
    assert name in Names(w.fields);
    forall i | 0 <= i < |w.fields| ensures Names(w.fields)[i] == name {
      assert Names(w.fields)[i] in Names(w.fields);
    }
    if |w.fields| > 1 {
      TwoDiffer(Names(w.fields), 0, 1);
    }
  }

  /** Decoding the parameters of a valid request gives back its module IDs and backup ID; and for every
      action they are the only parameters, without duplicate names, that do. */
  lemma ParametersRoundTrip(r: ProductionRequest, v: Json)
    requires ValidRequest(r) && NoDuplicates(v)
    ensures ParametersOf(r.action, v) == Some((r.moduleIds, r.backupId)) <==> v == Parameters(r)
  {
    match r.action
    case Audit =>
      NoFields(v);
    case ApplyModules =>
      SingleIsUnique(Arr(StrList(r.moduleIds)), "module_ids");
      StringsOfList(r.moduleIds);
      var f := Single(v, "module_ids");
      if f.Some? && f.value.Arr? && Strings(f.value.items).Some? {
        ListOfStrings(f.value.items);
      }
    case RollbackBackup =>
      SingleIsUnique(Str(r.backupId.value), "backup_id");
    case _ =>
      SingleIsUnique(Str(r.moduleIds[0]), "module_id");
      assert [r.moduleIds[0]] == r.moduleIds;
  }

  /** Two valid requests of one action with the same parameters name the same modules and backup. So the
      parameter digest binds them, as far as it is injective. */
  lemma ParametersAreInjective(r: ProductionRequest, q: ProductionRequest)
    requires ValidRequest(r) && ValidRequest(q) && r.action == q.action && Parameters(r) == Parameters(q)
    ensures r.moduleIds == q.moduleIds && r.backupId == q.backupId
  {
    ParametersClean(r);
    ParametersRoundTrip(r, Parameters(r));
    ParametersRoundTrip(q, Parameters(r));
  }

  lemma ParametersClean(r: ProductionRequest)
    requires ValidRequest(r)
    ensures NoDuplicates(Parameters(r))
  {
    var v := Parameters(r);
    assert Unrepeated(Names(v.fields));
    if r.action == ApplyModules {
      assert forall i :: 0 <= i < |r.moduleIds| ==> NoDuplicates(StrList(r.moduleIds)[i]);
    }
  }

  /** The four fields of a request. */
  lemma RequestFields(r: ProductionRequest)
    requires ValidRequest(r)
    ensures var v := RequestValue(r);
            && NoDuplicates(v) && HasExactly(v, REQUEST_FIELDS)
            && (forall n :: n in REQUEST_FIELDS ==> n in Names(v.fields))
            && Field(v, "action") == Str(ActionName(r.action)) && Field(v, "parameters") == Parameters(r)
            && Field(v, "protocol_version") == Int(r.protocolVersion) && Field(v, "request_id") == Str(r.requestId)
  {
    var fs := RequestValue(r).fields;
    ParametersClean(r);
    var names := Names(fs);
    assert names == ["action", "parameters", "protocol_version", "request_id"];
    assert Unrepeated(names);
    FieldAt(fs, 0);
    FieldAt(fs, 1);
    FieldAt(fs, 2);
    FieldAt(fs, 3);
  }

  /** Every valid request survives the wire. */
  lemma RequestRoundTrip(r: ProductionRequest)
    requires ValidRequest(r)
    ensures DecodeRequest(RequestValue(r)) == Some(r)
  {
    RequestFields(r);
    ActionNames(r.action, Str(ActionName(r.action)));
    ParametersRoundTrip(r, Parameters(r));
  }

  /** The modules are there for the actions that name some, and the backup for the rollback. */
  ghost predicate OwnParameters(r: ProductionRequest) {
    && (r.moduleIds == [] <==> r.action in {Audit, RollbackBackup})
    && (r.backupId.Some? <==> r.action == RollbackBackup)
    && |r.moduleIds| <= if r.action == ApplyModules then 32 else 1
  }

  lemma ValidHasItsOwn(r: ProductionRequest)
    ensures ValidRequest(r) ==> OwnParameters(r)
  {
  }

  lemma SameFields(r: ProductionRequest, v: Json)
    requires DecodeRequest(v) == Some(r)
    ensures ValidRequest(r) && v.Obj?
    ensures forall n :: n in Names(v.fields) <==> n in Names(RequestValue(r).fields)
    ensures forall n :: n in Names(v.fields) ==> Field(v, n) == Field(RequestValue(r), n)
  {
    RequestFields(r);
    ActionNames(r.action, Field(v, "action"));
    FieldIsClean(v, "parameters");
    ParametersRoundTrip(r, Field(v, "parameters"));
  }

  /** Nothing else is taken for a request: what decodes has exactly the fields of its encoding, each with
      the same value, in some order. Its action has exactly the parameters that belong to it. */
  lemma OnlyEncodingsDecode(v: Json)
    requires DecodeRequest(v).Some?
    ensures var r := DecodeRequest(v).value;
            && ValidRequest(r) && v.Obj?
            && OwnParameters(r)
            && (forall n :: n in Names(v.fields) <==> n in Names(RequestValue(r).fields))
            && (forall n :: n in Names(v.fields) ==> Field(v, n) == Field(RequestValue(r), n))
  {
    SameFields(DecodeRequest(v).value, v);
    ValidHasItsOwn(DecodeRequest(v).value);
  }

  lemma FieldIsClean(v: Json, name: string)
    requires NoDuplicates(v) && v.Obj? && name in Names(v.fields)
    ensures NoDuplicates(Field(v, name))
  {
    var i :| 0 <= i < |v.fields| && v.fields[i].0 == name && Field(v, name) == v.fields[i].1;
  }

  // ----- cancellations -----

  const CANCEL_FIELDS := {"protocol_version", "request_id"}

  function CancelValue(c: ProductionCancel): Json {
    Obj([("protocol_version", Int(c.protocolVersion)), ("request_id", Str(c.requestId))])
  }

  function DecodeCancel(v: Json): Option<ProductionCancel> {
    if NoDuplicates(v) && HasExactly(v, CANCEL_FIELDS) then
      var id := Field(v, "request_id");
      if IsVersion(Field(v, "protocol_version")) && id.Str? && IsRequestId(id.s) then Some(ProductionCancel(1, id.s)) else None
    else None
  }

  lemma CancelRoundTrip(c: ProductionCancel)
    requires c.protocolVersion == 1 && IsRequestId(c.requestId)
    ensures DecodeCancel(CancelValue(c)) == Some(c)
  {
    var fs := CancelValue(c).fields;
    assert Names(fs) == ["protocol_version", "request_id"];
    assert NoDuplicates(CancelValue(c));
    FieldAt(fs, 0);
    FieldAt(fs, 1);
  }

  const RESPONSE_FIELDS := {"protocol_version", "request_id", "accepted"}

  function ResponseValue(c: ProductionCancelResponse): Json {
    Obj([("accepted", Bool(c.accepted)), ("protocol_version", Int(c.protocolVersion)), ("request_id", Str(c.requestId))])
  }

  function DecodeResponse(v: Json): Option<ProductionCancelResponse> {
    if NoDuplicates(v) && HasExactly(v, RESPONSE_FIELDS) then
      var id, accepted := Field(v, "request_id"), Field(v, "accepted");
      if IsVersion(Field(v, "protocol_version")) && id.Str? && IsRequestId(id.s) && accepted.Bool?
      then Some(ProductionCancelResponse(1, id.s, accepted.b)) else None
    else None
  }

  lemma ResponseRoundTrip(c: ProductionCancelResponse)
    requires c.protocolVersion == 1 && IsRequestId(c.requestId)
    ensures DecodeResponse(ResponseValue(c)) == Some(c)
  {
    var fs := ResponseValue(c).fields;
    assert Names(fs) == ["accepted", "protocol_version", "request_id"];
    assert NoDuplicates(ResponseValue(c));
    FieldAt(fs, 0);
    FieldAt(fs, 1);
    FieldAt(fs, 2);
  }
}
