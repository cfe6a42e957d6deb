/** What an accepted manifest guarantees to the transaction engine, and where it guarantees less. */
module ManifestFacts {
  import opened Common
  import opened Json
  import opened SysctlText
  import opened SysctlManifests
  import opened ManifestLoader
  import opened ProductionProtocol
  import opened TransactionModel
  import opened TransactionSpec
  import Utf8

  /** Desired values are their own canonical form, and rendered files are really present. */
  lemma SuccessIsExact(m: SysctlManifest, w: World, i: nat)
    requires ValidManifest(m) && Desired(w, m.modules) && i < |m.modules|
    ensures w.files[m.modules[i].target].Present? && w.files[m.modules[i].target].content == Content(m.modules[i].settings)
    ensures forall j :: 0 <= j < |m.modules[i].settings| ==>
              var s := m.modules[i].settings[j];
              s.key in w.values && Words(w.values[s.key]) == Words(s.desired) && Canonical(s.desired) == s.desired
  {
    var mod := m.modules[i];
    assert ValidModule(mod) && FileIsRendered(w, mod) && SettingsHold(w.values, mod.settings);
    RenderedFileIsPresent(w, mod);
    forall j | 0 <= j < |mod.settings|
      ensures var s := mod.settings[j];
              s.key in w.values && Words(w.values[s.key]) == Words(s.desired) && Canonical(s.desired) == s.desired
    {
      var s := mod.settings[j];
      assert ValidSetting(s) && SettingHolds(w.values, s);
      ValueIsCanonical(s.desired);
      CanonicalIsCanonical(w.values[s.key]);
      CanonicalIsCanonical(s.desired);
    }
  }

  // ----- rendered files are within the size limit -----

  ghost predicate FitsLimits(m: SysctlManifest) {
    forall i :: 0 <= i < |m.modules| ==> |Content(m.modules[i].settings)| <= MAX_FILE_BYTES
  }

  lemma {:induction false} FieldIsShorter(v: Json, i: nat, p: nat)
    requires v.Obj? && i <= p < |v.fields|
    ensures LeastSize(v.fields[p].1) <= FieldsLeast(v, i)
    decreases p - i
  {
    if i < p {
      FieldIsShorter(v, i + 1, p);
    }
  }

  lemma {:induction false} TwoFieldsAreShorter(v: Json, i: nat, p: nat, q: nat)
    requires v.Obj? && i <= p < |v.fields| && i <= q < |v.fields| && p != q
    ensures LeastSize(v.fields[p].1) + LeastSize(v.fields[q].1) <= FieldsLeast(v, i)
    decreases p + q - i
  {
    if i == p {
      FieldIsShorter(v, i + 1, q);
    } else if i == q {
      FieldIsShorter(v, i + 1, p);
    } else {
      TwoFieldsAreShorter(v, i + 1, p, q);
    }
  }

  lemma {:induction false} NamedIsShorter(v: Json, name: string)
    requires v.Obj? && name in Names(v.fields)
    ensures LeastSize(Field(v, name)) <= LeastSize(v)
  {
    var p :| 0 <= p < |v.fields| && v.fields[p].0 == name && Field(v, name) == v.fields[p].1;
    FieldIsShorter(v, 0, p);
  }

  lemma {:induction false} SettingIsShorter(v: Json)
    requires IsSettingObject(v)
    ensures |SettingOf(v).key| + |SettingOf(v).desired| + 4 <= LeastSize(v)
  {
    var p :| 0 <= p < |v.fields| && v.fields[p].0 == "key" && Field(v, "key") == v.fields[p].1;
    var q :| 0 <= q < |v.fields| && v.fields[q].0 == "value" && Field(v, "value") == v.fields[q].1;
    TwoFieldsAreShorter(v, 0, p, q);
  }

  /** A rendered drop-in is no longer than the JSON text of its settings. */
  lemma {:induction false} RenderedIsShorter(raw: seq<Json>)
    requires AreSettingObjects(raw)
    ensures |Content(SettingsOf(raw))| <= ItemsLeast(raw)
    decreases |raw|
  {
    if raw != [] {
      SettingIsShorter(raw[0]);
      assert SettingsOf(raw)[0] == SettingOf(raw[0]) && SettingsOf(raw)[1..] == SettingsOf(raw[1..]);
      RenderedIsShorter(raw[1..]);
    }
  }

  lemma {:induction false} ModuleFitsLimits(raw: Json, i: nat)
    requires raw.Obj? && AreModuleFields(raw.fields) && i < |raw.fields|
    ensures |Content(ModuleOf(raw.fields[i]).settings)| <= LeastSize(raw)
  {
    var v := raw.fields[i].1;
    RenderedIsShorter(Field(v, "settings").items);
    NamedIsShorter(v, "settings");
    FieldIsShorter(raw, 0, i);
  }

  /** The loader returns `m` for some text. */
  ghost predicate IsLoaded(m: SysctlManifest) {
    exists value: Json, size: nat, digest: string :: IsLoadedFrom(m, value, size, digest)
  }

  ghost predicate IsLoadedFrom(m: SysctlManifest, value: Json, size: nat, digest: string) {
    && LeastSize(value) <= size <= MAX_MANIFEST_BYTES && NoDuplicates(value) && IsManifestObject(value)
    && ValidManifest(ManifestOf(value, digest)) && m == ManifestOf(value, digest)
  }

  lemma {:induction false} LoadedFacts(m: SysctlManifest)
    requires IsLoaded(m)
    ensures ValidManifest(m) && FitsLimits(m)
  {
    var value: Json, size: nat, digest: string :| IsLoadedFrom(m, value, size, digest);
    LoadedManifestFits(value, size, digest);
  }

  /** So every manifest that the loader takes renders files within the engine's size limit. */
  lemma {:induction false} LoadedManifestFits(value: Json, size: nat, digest: string)
    requires LeastSize(value) <= size <= MAX_MANIFEST_BYTES && IsManifestObject(value)
    ensures FitsLimits(ManifestOf(value, digest))
  {
    var raw := Field(value, "modules");
    NamedIsShorter(value, "modules");
    forall i | 0 <= i < |raw.fields| ensures |Content(ManifestOf(value, digest).modules[i].settings)| <= MAX_FILE_BYTES {
      ModuleFitsLimits(raw, i);
    }
  }

  /** Every admitted apply names modules of the manifest. */
  lemma AdmittedIsKnown(m: SysctlManifest, req: ProductionRequest)
    requires ValidManifest(m) && Admitted(m, req) && req.action != RollbackBackup
    ensures Knows(m, req.moduleIds)
  {
    if req.action == ApplyModule {
      var i :| 0 <= i < |m.singleApply| && m.singleApply[i] == req.moduleIds[0];
    } else {
      var i :| 0 <= i < |m.multiApply| && m.multiApply[i] == req.moduleIds;
      assert InOrder(m.multiApply[i], m.order);
    }
  }

  /** A multi-apply sequence is a subsequence of the fixed module order. */
  lemma MultiApplyIsSubsequence(m: SysctlManifest, ids: seq<string>) returns (at: seq<nat>)
    requires ValidManifest(m) && AllowsMulti(m, ids)
    ensures |at| == |ids|
    ensures forall i :: 0 <= i < |at| ==> at[i] < |m.modules| && m.modules[at[i]].id == ids[i]
    ensures forall i, j :: 0 <= i < j < |at| ==> at[i] < at[j]
  {
    var k :| 0 <= k < |m.multiApply| && m.multiApply[k] == ids;
    assert InOrder(m.multiApply[k], m.order);
    at := seq(|ids|, i requires 0 <= i < |ids| => Position(m.order, ids[i]));
    forall i | 0 <= i < |at| ensures at[i] < |m.modules| && m.modules[at[i]].id == ids[i] {
      assert m.order[at[i]] == ModuleIds(m.modules)[at[i]];
    }
  }

  // ----- modules do not share resources -----

  /** A key of module `i` is in the key list at a place that belongs to that module alone. */
  lemma {:induction false} KeysOfModulesDiffer(mods: seq<SysctlModule>, i: nat, j: nat, k: nat, l: nat)
    requires Unrepeated(KeyList(mods)) && i < j < |mods|
    requires k < |mods[i].settings| && l < |mods[j].settings|
    ensures mods[i].settings[k].key != mods[j].settings[l].key
  {
    KeyListSplit(mods, j);
    var front, back := mods[..j], mods[j..];
    KeysAreListed(front, i);
    KeysAreListed(back, 0);
    assert front[i] == mods[i] && back[0] == mods[j];
    UnrepeatedParts(KeyList(front), KeyList(back));
  }

  /** The keys of selected modules are settings of modules of the manifest. */
  lemma KeyComesFromModule(mods: seq<SysctlModule>, key: string) returns (i: nat, j: nat)
    requires key in KeyList(mods)
    ensures i < |mods| && j < |mods[i].settings| && mods[i].settings[j].key == key
  {
    if key in SettingKeys(mods[0].settings) {
      i := 0;
      j :| 0 <= j < |mods[0].settings| && SettingKeys(mods[0].settings)[j] == key;
    } else {
      i, j := KeyComesFromModule(mods[1..], key);
      i := i + 1;
    }
  }

  /** A request that touches only the named modules leaves every other module's file and values alone. */
  lemma OtherModulesUntouched(m: SysctlManifest, ids: seq<string>, other: nat, pre: World, post: World)
    requires ValidManifest(m) && Knows(m, ids) && other < |m.modules| && m.modules[other].id !in ids
    requires Hosts(pre, m.modules) && OnlyTouches(Selected(m, ids), pre, post)
    ensures var mod := m.modules[other];
            && pre.files[mod.target] == post.files[mod.target]
            && forall j :: 0 <= j < |mod.settings| ==> pre.values[mod.settings[j].key] == post.values[mod.settings[j].key]
  {
    var mods, mod := Selected(m, ids), m.modules[other];
    assert HostsModule(pre, mod);
    TargetNotSelected(m, ids, other);
    forall j | 0 <= j < |mod.settings|
      ensures pre.values[mod.settings[j].key] == post.values[mod.settings[j].key]
    {
      KeyNotSelected(m, ids, other, j);
    }
  }

  /** A selected module sits at some other place of the manifest. */
  lemma SelectedFrom(m: SysctlManifest, ids: seq<string>, other: nat, i: nat) returns (at: nat)
    requires Knows(m, ids) && other < |m.modules| && m.modules[other].id !in ids && i < |ids|
    ensures at < |m.modules| && m.modules[at] == Selected(m, ids)[i] && at != other
  {
    var mods := Selected(m, ids);
    at :| 0 <= at < |m.modules| && m.modules[at] == mods[i];
    assert ModuleIds(mods)[i] == ids[i];
  }

  lemma TargetNotSelected(m: SysctlManifest, ids: seq<string>, other: nat)
    requires ValidManifest(m) && Knows(m, ids) && other < |m.modules| && m.modules[other].id !in ids
    ensures m.modules[other].target !in TargetList(Selected(m, ids))
  {
    var mods := Selected(m, ids);
    forall i | 0 <= i < |mods| ensures mods[i].target != m.modules[other].target {
      var at := SelectedFrom(m, ids, other, i);
      assert TargetList(m.modules)[at] == mods[i].target && TargetList(m.modules)[other] == m.modules[other].target;
    }
  }

  lemma KeyNotSelected(m: SysctlManifest, ids: seq<string>, other: nat, j: nat)
    requires ValidManifest(m) && Knows(m, ids) && other < |m.modules| && m.modules[other].id !in ids
    requires j < |m.modules[other].settings|
    ensures m.modules[other].settings[j].key !in KeyList(Selected(m, ids))
  {
    var mods := Selected(m, ids);
    if m.modules[other].settings[j].key in KeyList(mods) {
      var i, l := KeyComesFromModule(mods, m.modules[other].settings[j].key);
      var at := SelectedFrom(m, ids, other, i);
      if at < other {
        KeysOfModulesDiffer(m.modules, at, other, l, j);
      } else {
        KeysOfModulesDiffer(m.modules, other, at, j, l);
      }
    }
  }

  // ----- two spellings of one file -----

  lemma {:induction false} SplitConcat(a: string, b: string, separator: char)
    ensures SplitOn(a + [separator] + b, separator) == SplitOn(a, separator) + SplitOn(b, separator)
  {
    var s := a + [separator] + b;
    var rb := SplitOn(b, separator);
    if a == "" {
      assert s[0] == separator && s[1..] == b;
    } else {
      var ra := SplitOn(a[1..], separator);
      assert s[0] == a[0] && s[1..] == a[1..] + [separator] + b;
      SplitConcat(a[1..], b, separator);
      assert (ra + rb)[0] == ra[0] && (ra + rb)[1..] == ra[1..] + rb;
      if a[0] == separator {
        ConcatAssociates([""], ra, rb);
      } else {
        ConcatAssociates([[a[0]] + ra[0]], ra[1..], rb);
      }
    }
  }

  lemma ComponentsConcat(a: seq<string>, b: seq<string>)
    ensures Components(a + b) == Components(a) + Components(b)
  {
    if a == [] {
      assert a + b == b;
    } else {
      assert (a + b)[1..] == a[1..] + b;
      ComponentsConcat(a[1..], b);
    }
  }

  const DIRECTORY := "etc/sysctl.d"

  /** The same path with the last separator of the drop-in directory doubled. */
  function Respelled(target: string): string
    requires DIRECTORY + "/" <= target
  {
    DIRECTORY + "/" + "/" + target[|DIRECTORY| + 1..]
  }

  /** Doubling a separator changes the text of an accepted target but not the file it denotes, and the
      new text is accepted too. */
  lemma RespelledTargetIsAccepted(target: string)
    requires IsTarget(target) && |Utf8.Encode(target)| < 256
    ensures DIRECTORY + "/" <= target
    ensures Respelled(target) != target && IsTarget(Respelled(target))
    ensures PathParts(Respelled(target)) == PathParts(target)
  {
    assert DIRECTORY + "/" == "etc/sysctl.d/";
    var rest := target[|DIRECTORY| + 1..];
    assert target == DIRECTORY + ['/'] + rest;
    SamePathParts(DIRECTORY, rest);
    OneByteLonger(DIRECTORY + ['/'], rest);
    var alias := Respelled(target);
    assert alias == DIRECTORY + ['/'] + (['/'] + rest) == DIRECTORY + ['/'] + ['/'] + rest;
    NulFree(DIRECTORY + ['/'], rest);
  }

  lemma NulFree(front: string, rest: string)
    requires '\0' !in front + rest
    ensures '\0' !in front + ['/'] + rest
    ensures front + ['/'] + rest != front + rest
  {
    assert |front + ['/'] + rest| == |front + rest| + 1;
    forall c | c in front + ['/'] + rest ensures c == '/' || c in front + rest {
    }
  }

  lemma SamePathParts(directory: string, rest: string)
    ensures PathParts(directory + ['/'] + (['/'] + rest)) == PathParts(directory + ['/'] + rest)
  {
    SplitConcat(directory, rest, '/');
    SplitConcat(directory, ['/'] + rest, '/');
    SplitConcat("", rest, '/');
    assert "" + ['/'] + rest == ['/'] + rest;
    assert SplitOn("", '/') == [""];
    var a, b := SplitOn(directory, '/'), SplitOn(rest, '/');
    ComponentsConcat(a, b);
    ComponentsConcat(a, [""] + b);
    ComponentsConcat([""], b);
  }

  lemma OneByteLonger(front: string, rest: string)
    ensures |Utf8.Encode(front + ['/'] + rest)| == |Utf8.Encode(front + rest)| + 1
  {
    Utf8.EncodeAppend(front, rest);
    Utf8.EncodeAppend(front + ['/'], rest);
    Utf8.EncodeAppend(front, ['/']);
    assert Utf8.Encode(['/']) == Utf8.EncodeChar('/') + Utf8.Encode("");
  }

  /** The check for disjoint targets compares texts: in any valid manifest, one module's target can be
      replaced by another spelling of a second module's file, and the manifest stays valid. */
  lemma DisjointTargetsAreNotDisjointFiles(m: SysctlManifest, i: nat, j: nat) returns (aliased: SysctlManifest)
    requires ValidManifest(m) && i < |m.modules| && j < |m.modules| && i != j
    requires |Utf8.Encode(m.modules[i].target)| < 256
    requires DIRECTORY + "/" <= m.modules[i].target ==> Respelled(m.modules[i].target) !in TargetList(m.modules)
    ensures ValidManifest(aliased)
    ensures |aliased.modules| == |m.modules| && aliased.modules[i] == m.modules[i]
    ensures aliased.modules[j].target != aliased.modules[i].target
    ensures PathParts(aliased.modules[j].target) == PathParts(aliased.modules[i].target)
  {
    assert ValidModule(m.modules[i]) && ValidModule(m.modules[j]);
    RespelledTargetIsAccepted(m.modules[i].target);
    var alias := Respelled(m.modules[i].target);
    var mod := m.modules[j].(target := alias);
    var mods := m.modules[j := mod];
    aliased := m.(modules := mods);
    SameKeys(m.modules, j, alias);
    assert ModuleIds(mods) == ModuleIds(m.modules);
    StillDifferent(TargetList(m.modules), j, alias);
    assert TargetList(mods) == TargetList(m.modules)[j := alias];
    forall k | 0 <= k < |mods| ensures ValidModule(mods[k]) {
      assert ValidModule(m.modules[k]);
    }
  }

  lemma {:induction false} StillDifferent(targets: seq<string>, j: nat, other: string)
    requires Unrepeated(targets) && j < |targets| && other !in targets
    ensures Unrepeated(targets[j := other])
  {
  }

  lemma SameKeys(mods: seq<SysctlModule>, j: nat, target: string)
    requires j < |mods|
    ensures KeyList(mods[j := mods[j].(target := target)]) == KeyList(mods)
  {
    var after := mods[j := mods[j].(target := target)];
    KeyListSplit(mods, j);
    KeyListSplit(after, j);
    assert after[..j] == mods[..j] && after[j..][1..] == mods[j..][1..];
    assert after[j..][0].settings == mods[j..][0].settings;
  }

  // ----- one spelling per file -----

  function JoinPath(parts: seq<string>): string {
    if parts == [] then "" else if |parts| == 1 then parts[0] else parts[0] + "/" + JoinPath(parts[1..])
  }

  /** A target with its empty components and dots left out. */
  function Spelling(target: string): string {
    JoinPath(PathParts(target))
  }

  function Spellings(modules: seq<SysctlModule>): (ss: seq<string>)
    ensures |ss| == |modules| && forall i :: 0 <= i < |ss| ==> ss[i] == Spelling(modules[i].target)
  {
    seq(|modules|, i requires 0 <= i < |modules| => Spelling(modules[i].target))
  }

  ghost predicate ArePlainComponents(parts: seq<string>) {
    forall i :: 0 <= i < |parts| ==> '/' !in parts[i] && parts[i] !in {"", "."}
  }

  lemma {:induction false} SplitParts(s: string)
    ensures forall i :: 0 <= i < |SplitOn(s, '/')| ==> '/' !in SplitOn(s, '/')[i]
    decreases |s|
  {
    if s != "" {
      SplitParts(s[1..]);
    }
  }

  lemma {:induction false} PlainComponents(parts: seq<string>)
    requires forall i :: 0 <= i < |parts| ==> '/' !in parts[i]
    ensures ArePlainComponents(Components(parts))
    decreases |parts|
  {
    if parts != [] {
      PlainComponents(parts[1..]);
    }
  }

  lemma {:induction false} SplitWithout(s: string, separator: char)
    requires separator !in s
    ensures SplitOn(s, separator) == [s]
    decreases |s|
  {
    if s != "" {
      SplitWithout(s[1..], separator);
      assert [s[0]] + s[1..] == s;
    }
  }

  lemma {:induction false} OneComponent(name: string)
    requires name !in {"", "."}
    ensures Components([name]) == [name]
  {
    assert [name][1..] == [];
  }

  /** Joining plain components and taking the path apart again gives them back. */
  lemma {:induction false} JoinedParts(parts: seq<string>)
    requires ArePlainComponents(parts)
    ensures PathParts(JoinPath(parts)) == parts
    decreases |parts|
  {
    if parts == [] {
      assert SplitOn("", '/') == [""] && [""][1..] == [];
    } else if |parts| == 1 {
      SplitWithout(parts[0], '/');
      OneComponent(parts[0]);
      assert parts == [parts[0]];
    } else {
      var rest := JoinPath(parts[1..]);
      JoinedParts(parts[1..]);
      assert parts[0] + "/" + rest == parts[0] + ['/'] + rest;
      SplitConcat(parts[0], rest, '/');
      SplitWithout(parts[0], '/');
      ComponentsConcat([parts[0]], SplitOn(rest, '/'));
      OneComponent(parts[0]);
      assert parts == [parts[0]] + parts[1..];
    }
  }

  /** The canonical spelling denotes the same file. */
  lemma {:induction false} SpellingDenotes(target: string)
    ensures PathParts(Spelling(target)) == PathParts(target)
  {
    SplitParts(target);
    PlainComponents(SplitOn(target, '/'));
    JoinedParts(PathParts(target));
  }

  /** Two targets denote one file if and only if their canonical spellings are one text. */
  lemma {:induction false} OneFileIffOneSpelling(a: string, b: string)
    ensures PathParts(a) == PathParts(b) <==> Spelling(a) == Spelling(b)
  {
    SpellingDenotes(a);
    SpellingDenotes(b);
  }

  /** No two modules share a file. */
  ghost predicate DisjointFiles(modules: seq<SysctlModule>) {
    forall i, j :: 0 <= i < j < |modules| ==> PathParts(modules[i].target) != PathParts(modules[j].target)
  }

  /** The check of the loader would mean what it says on the canonical spellings: no two modules share a file
      if and only if these are pairwise different. */
  lemma {:induction false} DisjointFilesIff(modules: seq<SysctlModule>)
    ensures DisjointFiles(modules) <==> Unrepeated(Spellings(modules))
  {
    forall i, j | 0 <= i < j < |modules|
      ensures PathParts(modules[i].target) == PathParts(modules[j].target) <==> Spellings(modules)[i] == Spellings(modules)[j]
    {
      OneFileIffOneSpelling(modules[i].target, modules[j].target);
    }
  }

  /** So the modules of a valid manifest whose targets are all spelled canonically share no file. */
  lemma {:induction false} CanonicalTargetsAreDisjointFiles(m: SysctlManifest)
    requires ValidManifest(m) && forall i :: 0 <= i < |m.modules| ==> Spelling(m.modules[i].target) == m.modules[i].target
    ensures DisjointFiles(m.modules)
  {
    DisjointFilesIff(m.modules);
    assert Spellings(m.modules) == TargetList(m.modules);
  }
}
