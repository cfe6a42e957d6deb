/** Loading the sysctl manifest from a parsed JSON value. */
module ManifestLoader {
  import opened Common
  import opened Json
  import opened SysctlText
  import opened SysctlManifests
  import P = ProductionProtocol
  import Utf8

  const MAX_MODULES := 8
  const MAX_SETTINGS := 128
  const MAX_MANIFEST_BYTES := 65536

  const NON_ROLLBACKABLE_KEYS := {"kernel.kexec_load_disabled", "kernel.unprivileged_bpf_disabled"}

  // ----- the grammars -----

  /** `[a-z][a-z0-9_]*(?:\.[a-z0-9_]+)+`: letters first, then dots with a character on both sides. */
  predicate IsSysctlKey(s: string) {
    && s != "" && P.IsLower(s[0])
    && (forall i :: 0 <= i < |s| ==> P.IsIdentifierChar(s[i]) || s[i] == '.')
    && '.' in s
    && (forall i :: 0 <= i < |s| && s[i] == '.' ==> 0 < i < |s| - 1 && s[i + 1] != '.')
  }

  predicate IsDesired(s: string) {
    IsValue(s) && |s| <= 128
  }

  /** `value.split(separator)` */
  function SplitOn(s: string, separator: char): (parts: seq<string>)
    ensures parts != []
  {
    if s == "" then [""]
    else
      var rest := SplitOn(s[1..], separator);
      if s[0] == separator then [""] + rest else [[s[0]] + rest[0]] + rest[1..]
  }

  /** The components of a relative path: empty ones and `.` are dropped. */
  function Components(parts: seq<string>): seq<string> {
    if parts == [] then []
    else if parts[0] in {"", "."} then Components(parts[1..])
    else [parts[0]] + Components(parts[1..])
  }

  /** The file a relative path denotes. */
  function PathParts(s: string): seq<string> {
    Components(SplitOn(s, '/'))
  }

  predicate HasConfSuffix(parts: seq<string>) {
    parts != [] && var name := parts[|parts| - 1]; |name| > 5 && name[|name| - 5..] == ".conf"
  }

  /** `_relative_target` */
  predicate IsTarget(s: string) {
    && s != "" && '\0' !in s
    && s[0] != '/'
    && ".." !in PathParts(s)
    && "etc/sysctl.d/" <= s
    && HasConfSuffix(PathParts(s))
    && |Utf8.Encode(s)| <= 256
  }

  // ----- the shape of the JSON value -----

  predicate IsStrings(v: Json) {
    v.Arr? && forall i :: 0 <= i < |v.items| ==> v.items[i].Str?
  }

  function Strings(v: Json): (ss: seq<string>)
    requires IsStrings(v)
    ensures |ss| == |v.items|
    ensures forall i :: 0 <= i < |ss| ==> ss[i] == v.items[i].s
  {
    seq(|v.items|, i requires 0 <= i < |v.items| => v.items[i].s)
  }

  predicate IsStringLists(v: Json) {
    v.Arr? && forall i :: 0 <= i < |v.items| ==> IsStrings(v.items[i])
  }

  function StringLists(v: Json): (ss: seq<seq<string>>)
    requires IsStringLists(v)
    ensures |ss| == |v.items|
    ensures forall i :: 0 <= i < |ss| ==> ss[i] == Strings(v.items[i])
  {
    seq(|v.items|, i requires 0 <= i < |v.items| => Strings(v.items[i]))
  }

  predicate IsSettingObject(v: Json) {
    HasExactly(v, {"key", "value"}) && Field(v, "key").Str? && Field(v, "value").Str?
  }

  function SettingOf(v: Json): SysctlSetting
    requires IsSettingObject(v)
  {
    SysctlSetting(Field(v, "key").s, Field(v, "value").s)
  }

  predicate AreSettingObjects(vs: seq<Json>) {
    forall i :: 0 <= i < |vs| ==> IsSettingObject(vs[i])
  }

  function SettingsOf(vs: seq<Json>): (ss: seq<SysctlSetting>)
    requires AreSettingObjects(vs)
    ensures |ss| == |vs|
    ensures forall i :: 0 <= i < |ss| ==> ss[i] == SettingOf(vs[i])
  {
    seq(|vs|, i requires 0 <= i < |vs| => SettingOf(vs[i]))
  }

  predicate IsModuleObject(v: Json) {
    && HasExactly(v, {"relative_target", "settings"})
    && Field(v, "relative_target").Str?
    && Field(v, "settings").Arr? && AreSettingObjects(Field(v, "settings").items)
  }

  function ModuleOf(field: (string, Json)): SysctlModule
    requires IsModuleObject(field.1)
  {
    SysctlModule(field.0, Field(field.1, "relative_target").s, SettingsOf(Field(field.1, "settings").items))
  }

  predicate AreModuleFields(fields: seq<(string, Json)>) {
    forall i :: 0 <= i < |fields| ==> IsModuleObject(fields[i].1)
  }

  function ModulesOf(fields: seq<(string, Json)>): (ms: seq<SysctlModule>)
    requires AreModuleFields(fields)
    ensures |ms| == |fields|
    ensures forall i :: 0 <= i < |ms| ==> ms[i] == ModuleOf(fields[i])
  {
    seq(|fields|, i requires 0 <= i < |fields| => ModuleOf(fields[i]))
  }

  /** Version 2; the floating-point number 2.0 passes the comparison too. */
  predicate IsVersion2(v: Json) {
    v == Int(2) || v == Float(2.0)
  }

  const FIELDS := {"version", "module_order", "single_apply", "multi_apply", "modules"}

  /** The value is the JSON form of some manifest. */
  predicate IsManifestObject(v: Json) {
    && HasExactly(v, FIELDS)
    && IsVersion2(Field(v, "version"))
    && IsStrings(Field(v, "module_order"))
    && IsStrings(Field(v, "single_apply"))
    && IsStringLists(Field(v, "multi_apply"))
    && Field(v, "modules").Obj? && AreModuleFields(Field(v, "modules").fields)
  }

  // ----- how long its text is at least -----

  /** No text of the value is shorter: every character takes a byte or more, and strings and names their
      quotes. */
  function LeastSize(v: Json): nat
    decreases v, if v.Obj? then |v.fields| + 1 else 0
  {
    match v
    case Str(s) => 2 + |s|
    case Arr(items) => ItemsLeast(items)
    case Obj(_) => FieldsLeast(v, 0)
    case _ => 1
  }

  function ItemsLeast(items: seq<Json>): nat
    decreases items, 0
  {
    if items == [] then 0 else LeastSize(items[0]) + ItemsLeast(items[1..])
  }

  /** The fields from the given one on. */
  function FieldsLeast(v: Json, i: nat): nat
    requires v.Obj? && i <= |v.fields|
    decreases v, |v.fields| - i
  {
    if i == |v.fields| then 0 else 2 + |v.fields[i].0| + LeastSize(v.fields[i].1) + FieldsLeast(v, i + 1)
  }

  /** The manifest whose JSON form the value is. */
  function ManifestOf(v: Json, digest: string): SysctlManifest
    requires IsManifestObject(v)
  {
    Assemble(Field(v, "module_order"), Field(v, "single_apply"), Field(v, "multi_apply"), Field(v, "modules"), digest)
  }

  function Assemble(order: Json, single: Json, multi: Json, modules: Json, digest: string): SysctlManifest
    requires IsStrings(order) && IsStrings(single) && IsStringLists(multi)
    requires modules.Obj? && AreModuleFields(modules.fields)
  {
    SysctlManifest(Strings(order), Strings(single), StringLists(multi), ModulesOf(modules.fields), digest)
  }

  // ----- what makes a manifest valid -----

  predicate ValidSequence(ids: seq<string>, least: nat) {
    && least <= |ids| <= MAX_MODULES
    && (forall i :: 0 <= i < |ids| ==> P.IsModuleId(ids[i]))
    && Unrepeated(ids)
  }

  predicate ValidSetting(s: SysctlSetting) {
    IsSysctlKey(s.key) && s.key !in NON_ROLLBACKABLE_KEYS && IsDesired(s.desired)
  }

  predicate ValidModule(mod: SysctlModule) {
    && P.IsModuleId(mod.id)
    && IsTarget(mod.target)
    && mod.settings != []
    && forall j :: 0 <= j < |mod.settings| ==> ValidSetting(mod.settings[j])
  }

  /** Valid modules with pairwise different targets and globally unique keys. */
  predicate ValidModules(mods: seq<SysctlModule>) {
    && (forall i :: 0 <= i < |mods| ==> ValidModule(mods[i]))
    && Unrepeated(TargetList(mods))
    && Unrepeated(KeyList(mods))
  }

  /** The position of an ID in the fixed order. */
  function Position(order: seq<string>, id: string): (i: nat)
    requires id in order
    ensures i < |order| && order[i] == id
  {
    if order[0] == id then 0 else 1 + Position(order[1..], id)
  }

  predicate AllIn(ids: seq<string>, order: seq<string>) {
    forall i :: 0 <= i < |ids| ==> ids[i] in order
  }

  /** The IDs occur in the fixed order. */
  predicate InOrder(ids: seq<string>, order: seq<string>) {
    AllIn(ids, order) && forall i, j :: 0 <= i < j < |ids| ==> Position(order, ids[i]) < Position(order, ids[j])
  }

  predicate ValidManifest(m: SysctlManifest) {
    && ValidSequence(m.order, 1)
    && ValidSequence(m.singleApply, 1)
    && 1 <= |m.multiApply| <= MAX_MODULES
    && (forall i :: 0 <= i < |m.multiApply| ==> ValidSequence(m.multiApply[i], 2))
    && Unrepeated(m.multiApply)
    && 1 <= |m.modules| <= MAX_MODULES
    && ValidModules(m.modules)
    && |KeyList(m.modules)| <= MAX_SETTINGS
    && m.order == ModuleIds(m.modules)
    && AllIn(m.singleApply, m.order)
    && (forall i :: 0 <= i < |m.multiApply| ==> InOrder(m.multiApply[i], m.order))
  }

  // ----- the order check -----

  /** `sorted(ids, key=position)` */
  function Sort(ids: seq<string>, order: seq<string>): (r: seq<string>)
    requires AllIn(ids, order)
    ensures AllIn(r, order) && |r| == |ids|
  {
    if ids == [] then [] else Insert(ids[0], Sort(ids[1..], order), order)
  }

  function Insert(id: string, ids: seq<string>, order: seq<string>): (r: seq<string>)
    requires id in order && AllIn(ids, order)
    ensures AllIn(r, order) && |r| == |ids| + 1
  {
    if ids == [] || Position(order, id) <= Position(order, ids[0]) then [id] + ids
    else [ids[0]] + Insert(id, ids[1..], order)
  }

  ghost predicate Ascending(ids: seq<string>, order: seq<string>)
    requires AllIn(ids, order)
  {
    forall i, j :: 0 <= i < j < |ids| ==> Position(order, ids[i]) <= Position(order, ids[j])
  }

  lemma {:induction false} InsertAscends(id: string, ids: seq<string>, order: seq<string>)
    requires id in order && AllIn(ids, order) && Ascending(ids, order)
    ensures Ascending(Insert(id, ids, order), order)
    ensures forall x :: x in Insert(id, ids, order) ==> x == id || x in ids
  {
    var r := Insert(id, ids, order);
    if ids == [] || Position(order, id) <= Position(order, ids[0]) {
      assert r == [id] + ids;
    } else {
      InsertAscends(id, ids[1..], order);
      assert r == [ids[0]] + Insert(id, ids[1..], order);
      forall x | x in Insert(id, ids[1..], order) ensures Position(order, ids[0]) <= Position(order, x) {
        if x != id { FirstIsLeast(ids, order, x); }
      }
      PrependAscends(ids[0], Insert(id, ids[1..], order), order);
    }
  }

  lemma {:induction false} FirstIsLeast(ids: seq<string>, order: seq<string>, x: string)
    requires AllIn(ids, order) && Ascending(ids, order) && ids != [] && x in ids[1..]
    ensures Position(order, ids[0]) <= Position(order, x)
  {
    var k :| 0 <= k < |ids[1..]| && ids[1..][k] == x;
    assert ids[k + 1] == x;
  }

  lemma {:induction false} PrependAscends(first: string, rest: seq<string>, order: seq<string>)
    requires first in order && AllIn(rest, order) && Ascending(rest, order)
    requires forall x :: x in rest ==> Position(order, first) <= Position(order, x)
    ensures Ascending([first] + rest, order)
  {
    var r := [first] + rest;
    forall i, j | 0 <= i < j < |r| ensures Position(order, r[i]) <= Position(order, r[j]) {
      assert r[j] == rest[j - 1] && (i > 0 ==> r[i] == rest[i - 1]);
    }
  }

  lemma SortAscends(ids: seq<string>, order: seq<string>)
    requires AllIn(ids, order)
    ensures Ascending(Sort(ids, order), order)
  {
    if ids != [] {
      SortAscends(ids[1..], order);
      InsertAscends(ids[0], Sort(ids[1..], order), order);
    }
  }

  lemma AscendingIsSorted(ids: seq<string>, order: seq<string>)
    requires AllIn(ids, order) && Ascending(ids, order)
    ensures Sort(ids, order) == ids
  {
    if ids != [] {
      AscendingIsSorted(ids[1..], order);
      assert |ids| > 1 ==> ids[1..][0] == ids[1];
      assert ids == [ids[0]] + ids[1..];
    }
  }

  /** Comparing a sequence without repetitions with its sorted form tests exactly the fixed order. */
  lemma SortedIffInOrder(ids: seq<string>, order: seq<string>)
    requires AllIn(ids, order) && Unrepeated(ids)
    ensures Sort(ids, order) == ids <==> InOrder(ids, order)
  {
    SortAscends(ids, order);
    if InOrder(ids, order) {
      AscendingIsSorted(ids, order);
    }
  }

  // ----- loading -----

  datatype ManifestError =
    | TooLong | DuplicateField | WrongFields | WrongVersion | BadSequence | BadMultiApply | BadModules
    | TooManySettings | OrderMismatch | UnknownModule | OrderViolated

  /** `_module_sequence` */
  method ModuleSequence(v: Json, allowSingle: bool) returns (r: Option<seq<string>>)
    ensures r.Some? <==> IsStrings(v) && ValidSequence(Strings(v), if allowSingle then 1 else 2)
    ensures r.Some? ==> r.value == Strings(v)
  {
    if !v.Arr? || v.items == [] || |v.items| > MAX_MODULES { return None; }
    var ids: seq<string> := [];
    for i := 0 to |v.items|
      invariant |ids| == i
      invariant forall j :: 0 <= j < i ==> v.items[j].Str? && ids[j] == v.items[j].s && P.IsModuleId(ids[j])
    {
      if !v.items[i].Str? || !P.IsModuleId(v.items[i].s) {
        assert !IsStrings(v) || !P.IsModuleId(Strings(v)[i]);
        return None;
      }
      ids := ids + [v.items[i].s];
    }
    assert ids == Strings(v);
    if !Unrepeated(ids) || (!allowSingle && |ids| < 2) { return None; }
    r := Some(ids);
  }

  /** The multi-apply policy: a bounded list of different sequences. */
  method MultiApply(v: Json) returns (r: Option<seq<seq<string>>>)
    ensures r.Some? <==>
            IsStringLists(v) && 1 <= |v.items| <= 8 && Unrepeated(StringLists(v))
            && forall i :: 0 <= i < |v.items| ==> ValidSequence(StringLists(v)[i], 2)
    ensures r.Some? ==> r.value == StringLists(v)
  {
    if !v.Arr? || v.items == [] || |v.items| > MAX_MODULES { return None; }
    var sequences: seq<seq<string>> := [];
    for i := 0 to |v.items|
      invariant |sequences| == i
      invariant forall j :: 0 <= j < i ==>
        IsStrings(v.items[j]) && sequences[j] == Strings(v.items[j]) && ValidSequence(sequences[j], 2)
    {
      var ids := ModuleSequence(v.items[i], false);
      if ids.None? {
        assert !IsStringLists(v) || !ValidSequence(StringLists(v)[i], 2);
        return None;
      }
      sequences := sequences + [ids.value];
    }
    assert sequences == StringLists(v);
    if !Unrepeated(sequences) { return None; }
    r := Some(sequences);
  }

  /** The checks on one setting. */
  method Setting(v: Json) returns (r: Option<SysctlSetting>)
    ensures r.Some? <==> IsSettingObject(v) && ValidSetting(SettingOf(v))
    ensures r.Some? ==> r.value == SettingOf(v)
  {
    if !HasExactly(v, {"key", "value"}) { return None; }
    var key, desired := Field(v, "key"), Field(v, "value");
    if !key.Str? || !IsSysctlKey(key.s) || key.s in NON_ROLLBACKABLE_KEYS { return None; }
    if !desired.Str? || !IsDesired(desired.s) { return None; }
    r := Some(SysctlSetting(key.s, desired.s));
  }

  /** The inner loop: the settings of one module, with keys not used before. */
  method Settings(raw: seq<Json>, used: seq<string>) returns (r: Option<seq<SysctlSetting>>)
    requires Unrepeated(used)
    ensures r.Some? <==> AreSettingObjects(raw) && (forall j :: 0 <= j < |raw| ==> ValidSetting(SettingOf(raw[j])))
                         && Unrepeated(used + SettingKeys(SettingsOf(raw)))
    ensures r.Some? ==> r.value == SettingsOf(raw)
  {
    var settings: seq<SysctlSetting> := [];
    var keys := used;
    for j := 0 to |raw|
      invariant |settings| == j
      invariant forall i :: 0 <= i < j ==>
        IsSettingObject(raw[i]) && settings[i] == SettingOf(raw[i]) && ValidSetting(settings[i])
      invariant keys == used + SettingKeys(settings) && Unrepeated(keys)
    {
      var s := Setting(raw[j]);
      if s.None? { return None; }
      if s.value.key in keys {
        RepeatedKey(raw, used, settings, j);
        return None;
      }
      settings, keys := settings + [s.value], keys + [s.value.key];
      assert keys == used + SettingKeys(settings);
    }
    assert settings == SettingsOf(raw);
    r := Some(settings);
  }

  /** A key that was used before makes the whole list repeat itself. */
  lemma {:induction false} RepeatedKey(raw: seq<Json>, used: seq<string>, settings: seq<SysctlSetting>, j: nat)
    requires |settings| == j < |raw| && IsSettingObject(raw[j])
    requires forall i :: 0 <= i < j ==> IsSettingObject(raw[i]) && settings[i] == SettingOf(raw[i])
    requires SettingOf(raw[j]).key in used + SettingKeys(settings)
    ensures AreSettingObjects(raw) ==> !Unrepeated(used + SettingKeys(SettingsOf(raw)))
  {
    if AreSettingObjects(raw) {
      var keys, all := used + SettingKeys(settings), used + SettingKeys(SettingsOf(raw));
      var i :| 0 <= i < |keys| && keys[i] == SettingOf(raw[j]).key;
      assert all[i] == keys[i] by {
        if i >= |used| { assert settings[i - |used|] == SettingOf(raw[i - |used|]); }
      }
      assert all[|used| + j] == SettingOf(raw[j]).key;
    }
  }

  /** `modules` are the modules of the first `i` fields. */
  ghost predicate LoadedSoFar(fields: seq<(string, Json)>, modules: seq<SysctlModule>, i: nat) {
    && |modules| == i <= |fields|
    && forall j :: 0 <= j < i ==>
         IsModuleObject(fields[j].1) && modules[j] == ModuleOf(fields[j]) && ValidModule(modules[j])
  }

  /** A key repeated so far stays repeated in the whole manifest. */
  lemma {:induction false} RepeatedKeyStays(fields: seq<(string, Json)>, modules: seq<SysctlModule>, i: nat)
    requires LoadedSoFar(fields, modules, i) && i < |fields| && IsModuleObject(fields[i].1)
    requires !Unrepeated(KeyList(modules) + SettingKeys(ModuleOf(fields[i]).settings))
    ensures AreModuleFields(fields) ==> !Unrepeated(KeyList(ModulesOf(fields)))
  {
    if AreModuleFields(fields) {
      var all := ModulesOf(fields);
      assert all[..i] == modules;
      RepeatedInPrefix(all, i);
    }
  }

  lemma {:induction false} KeysAround(all: seq<SysctlModule>, i: nat)
    requires i < |all|
    ensures KeyList(all) == KeyList(all[..i]) + SettingKeys(all[i].settings) + KeyList(all[i + 1..])
  {
    KeyListSplit(all, i);
    var back := all[i..];
    assert back[0] == all[i] && back[1..] == all[i + 1..];
    assert KeyList(back) == SettingKeys(all[i].settings) + KeyList(all[i + 1..]);
    ConcatAssociates(KeyList(all[..i]), SettingKeys(all[i].settings), KeyList(all[i + 1..]));
  }

  lemma RepeatedPart(a: seq<string>, b: seq<string>)
    requires !Unrepeated(a)
    ensures !Unrepeated(a + b)
  {
    if Unrepeated(a + b) {
      UnrepeatedPrefix(a, b);
    }
  }

  lemma RepeatedInPrefix(all: seq<SysctlModule>, i: nat)
    requires i < |all| && !Unrepeated(KeyList(all[..i]) + SettingKeys(all[i].settings))
    ensures !Unrepeated(KeyList(all))
  {
    KeysAround(all, i);
    RepeatedPart(KeyList(all[..i]) + SettingKeys(all[i].settings), KeyList(all[i + 1..]));
  }

  lemma RepeatedTargetStays(fields: seq<(string, Json)>, modules: seq<SysctlModule>, i: nat)
    requires LoadedSoFar(fields, modules, i) && i < |fields| && IsModuleObject(fields[i].1)
    requires ModuleOf(fields[i]).target in TargetList(modules)
    ensures AreModuleFields(fields) ==> !Unrepeated(TargetList(ModulesOf(fields)))
  {
    if AreModuleFields(fields) {
      var targets := TargetList(ModulesOf(fields));
      var j :| 0 <= j < i && TargetList(modules)[j] == ModuleOf(fields[i]).target;
      assert targets[j] == targets[i];
    }
  }

  /** The checks on one module field, given the targets and keys used before it. */
  method Module(field: (string, Json), targets: seq<string>, keys: seq<string>) returns (r: Option<SysctlModule>)
    requires Unrepeated(keys)
    ensures r.Some? <==>
            IsModuleObject(field.1) && ValidModule(ModuleOf(field)) && ModuleOf(field).target !in targets
            && Unrepeated(keys + SettingKeys(ModuleOf(field).settings))
    ensures r.Some? ==> r.value == ModuleOf(field)
  {
    var v := field.1;
    if !P.IsModuleId(field.0) || !HasExactly(v, {"relative_target", "settings"}) { return None; }
    var target, raw := Field(v, "relative_target"), Field(v, "settings");
    if !target.Str? || !IsTarget(target.s) || target.s in targets { return None; }
    if !raw.Arr? || raw.items == [] { return None; }
    var settings := Settings(raw.items, keys);
    if settings.None? {
      if IsModuleObject(v) {
        var mod := ModuleOf(field);
        assert mod.settings == SettingsOf(raw.items);
      }
      return None;
    }
    r := Some(SysctlModule(field.0, target.s, settings.value));
  }

  /** A field the loop accepts extends what is loaded. */
  lemma LoadedOneMore(fields: seq<(string, Json)>, modules: seq<SysctlModule>, i: nat, mod: SysctlModule)
    requires LoadedSoFar(fields, modules, i) && i < |fields|
    requires IsModuleObject(fields[i].1) && mod == ModuleOf(fields[i]) && ValidModule(mod)
    requires Unrepeated(TargetList(modules)) && mod.target !in TargetList(modules)
    ensures LoadedSoFar(fields, modules + [mod], i + 1)
    ensures TargetList(modules + [mod]) == TargetList(modules) + [mod.target]
    ensures Unrepeated(TargetList(modules) + [mod.target])
    ensures KeyList(modules + [mod]) == KeyList(modules) + SettingKeys(mod.settings)
  {
    TargetListAppend(modules, mod);
    UnrepeatedAppend(TargetList(modules), mod.target);
    KeyListAppend(modules, mod);
    LoadedStep(fields, modules, i, mod);
  }

  lemma {:induction false} LoadedStep(fields: seq<(string, Json)>, modules: seq<SysctlModule>, i: nat, mod: SysctlModule)
    requires LoadedSoFar(fields, modules, i) && i < |fields|
    requires IsModuleObject(fields[i].1) && mod == ModuleOf(fields[i]) && ValidModule(mod)
    ensures LoadedSoFar(fields, modules + [mod], i + 1)
  {
    var more := modules + [mod];
    assert more[..i] == modules && more[i] == mod;
    forall j | 0 <= j < i + 1
      ensures IsModuleObject(fields[j].1) && more[j] == ModuleOf(fields[j]) && ValidModule(more[j])
    {
      assert j < i ==> more[j] == modules[j];
    }
  }

  /** A field the loop rejects makes the whole object invalid. */
  lemma RejectedModule(fields: seq<(string, Json)>, modules: seq<SysctlModule>, i: nat)
    requires LoadedSoFar(fields, modules, i) && i < |fields|
    requires !(IsModuleObject(fields[i].1) && ValidModule(ModuleOf(fields[i]))
               && ModuleOf(fields[i]).target !in TargetList(modules)
               && Unrepeated(KeyList(modules) + SettingKeys(ModuleOf(fields[i]).settings)))
    ensures !(AreModuleFields(fields) && ValidModules(ModulesOf(fields)))
  {
    if AreModuleFields(fields) {
      assert IsModuleObject(fields[i].1);
      if ModuleOf(fields[i]).target in TargetList(modules) {
        RepeatedTargetStays(fields, modules, i);
      } else if ValidModule(ModuleOf(fields[i])) {
        RepeatedKeyStays(fields, modules, i);
      } else {
        assert !ValidModule(ModulesOf(fields)[i]);
      }
    }
  }

  /** The outer loop: every module of the manifest. */
  method Modules(fields: seq<(string, Json)>) returns (r: Option<seq<SysctlModule>>)
    ensures r.Some? <==> AreModuleFields(fields) && ValidModules(ModulesOf(fields))
    ensures r.Some? ==> r.value == ModulesOf(fields)
  {
    var modules: seq<SysctlModule> := [];
    var targets, keys: seq<string> := [], [];
    for i := 0 to |fields|
      invariant LoadedSoFar(fields, modules, i)
      invariant targets == TargetList(modules) && Unrepeated(targets)
      invariant keys == KeyList(modules) && Unrepeated(keys)
    {
      var mod := Module(fields[i], targets, keys);
      if mod.None? {
        RejectedModule(fields, modules, i);
        return None;
      }
      LoadedOneMore(fields, modules, i, mod.value);
      modules := modules + [mod.value];
      targets, keys := targets + [mod.value.target], keys + SettingKeys(mod.value.settings);
    }
    assert modules == ModulesOf(fields);
    r := Some(modules);
  }

  /** The last checks: the setting count, the fixed order and the apply policies. */
  method CheckPolicies(m: SysctlManifest) returns (error: Option<ManifestError>)
    requires Unrepeated(m.order)
    requires forall i :: 0 <= i < |m.multiApply| ==> Unrepeated(m.multiApply[i])
    ensures error.None? <==>
            && |KeyList(m.modules)| <= 128
            && m.order == ModuleIds(m.modules)
            && AllIn(m.singleApply, m.order)
            && forall i :: 0 <= i < |m.multiApply| ==> InOrder(m.multiApply[i], m.order)
  {
    if |KeyList(m.modules)| > MAX_SETTINGS { return Some(TooManySettings); }
    if m.order != ModuleIds(m.modules) { return Some(OrderMismatch); }
    if !AllIn(m.singleApply, m.order) { return Some(ManifestError.UnknownModule); }
    for i := 0 to |m.multiApply|
      invariant forall j :: 0 <= j < i ==> AllIn(m.multiApply[j], m.order)
    {
      if !AllIn(m.multiApply[i], m.order) { return Some(ManifestError.UnknownModule); }
    }
    for i := 0 to |m.multiApply|
      invariant forall j :: 0 <= j < i ==> InOrder(m.multiApply[j], m.order)
    {
      SortedIffInOrder(m.multiApply[i], m.order);
      if Sort(m.multiApply[i], m.order) != m.multiApply[i] { return Some(OrderViolated); }
    }
    error := None;
  }

  /** The five fields in the order they are checked. */
  method LoadFields(rawOrder: Json, rawSingle: Json, rawMulti: Json, raw: Json, digest: string)
    returns (r: Result<SysctlManifest, ManifestError>)
    ensures r.Ok? <==>
            && IsStrings(rawOrder) && IsStrings(rawSingle) && IsStringLists(rawMulti)
            && raw.Obj? && AreModuleFields(raw.fields)
            && ValidManifest(Assemble(rawOrder, rawSingle, rawMulti, raw, digest))
    ensures r.Ok? ==> r.value == Assemble(rawOrder, rawSingle, rawMulti, raw, digest)
  {
    var order := ModuleSequence(rawOrder, true);
    if order.None? { return Err(BadSequence); }
    var single := ModuleSequence(rawSingle, true);
    if single.None? { return Err(BadSequence); }
    var multi := MultiApply(rawMulti);
    if multi.None? { return Err(BadMultiApply); }
    if !raw.Obj? || raw.fields == [] || |raw.fields| > MAX_MODULES { return Err(BadModules); }
    var modules := Modules(raw.fields);
    if modules.None? { return Err(BadModules); }
    var m := SysctlManifest(order.value, single.value, multi.value, modules.value, digest);
    assert m == Assemble(rawOrder, rawSingle, rawMulti, raw, digest);
    var error := CheckPolicies(m);
    r := if error.Some? then Err(error.value) else Ok(m);
  }

  /** `load_sysctl_manifest` from the parsed value of a text of `size` bytes: it accepts exactly the JSON forms
      of valid manifests in texts within the limit. */
  method LoadManifest(value: Json, size: nat, digest: string) returns (r: Result<SysctlManifest, ManifestError>)
    requires LeastSize(value) <= size
    ensures r.Ok? <==> size <= MAX_MANIFEST_BYTES && NoDuplicates(value) && IsManifestObject(value)
                       && ValidManifest(ManifestOf(value, digest))
    ensures r.Ok? ==> r.value == ManifestOf(value, digest)
  {
    if size > MAX_MANIFEST_BYTES { return Err(TooLong); }
    if !NoDuplicates(value) { return Err(DuplicateField); }
    if !HasExactly(value, FIELDS) { return Err(WrongFields); }
    if !IsVersion2(Field(value, "version")) { return Err(WrongVersion); }
    r := LoadFields(Field(value, "module_order"), Field(value, "single_apply"), Field(value, "multi_apply"),
                    Field(value, "modules"), digest);
  }
}
