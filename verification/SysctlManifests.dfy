/** The validated sysctl manifest and the selection of modules from it. */
module SysctlManifests {
  import opened Common

  datatype SysctlSetting = SysctlSetting(key: string, desired: string)

  datatype SysctlModule = SysctlModule(id: string, target: string, settings: seq<SysctlSetting>)

  /** `modules` lists the entries of the source's ordered dictionary. */
  datatype SysctlManifest = SysctlManifest(
    order: seq<string>,
    singleApply: seq<string>,
    multiApply: seq<seq<string>>,
    modules: seq<SysctlModule>,
    digest: string)

  function ModuleIds(modules: seq<SysctlModule>): (ids: seq<string>)
    ensures |ids| == |modules|
    ensures forall i :: 0 <= i < |ids| ==> ids[i] == modules[i].id
  {
    seq(|modules|, i requires 0 <= i < |modules| => modules[i].id)
  }

  function TargetList(modules: seq<SysctlModule>): (ts: seq<string>)
    ensures |ts| == |modules|
    ensures forall i :: 0 <= i < |ts| ==> ts[i] == modules[i].target
  {
    seq(|modules|, i requires 0 <= i < |modules| => modules[i].target)
  }

  lemma TargetListAppend(modules: seq<SysctlModule>, mod: SysctlModule)
    ensures TargetList(modules + [mod]) == TargetList(modules) + [mod.target]
  {
  }

  function SettingKeys(settings: seq<SysctlSetting>): (ks: seq<string>)
    ensures |ks| == |settings|
    ensures forall i :: 0 <= i < |ks| ==> ks[i] == settings[i].key
  {
    seq(|settings|, i requires 0 <= i < |settings| => settings[i].key)
  }

  function KeyList(modules: seq<SysctlModule>): seq<string> {
    if modules == [] then [] else SettingKeys(modules[0].settings) + KeyList(modules[1..])
  }

  lemma KeysAreListed(modules: seq<SysctlModule>, i: nat)
    requires i < |modules|
    ensures forall j :: 0 <= j < |modules[i].settings| ==> modules[i].settings[j].key in KeyList(modules)
  {
    if i == 0 {
      forall j | 0 <= j < |modules[0].settings| ensures modules[0].settings[j].key in KeyList(modules) {
        assert SettingKeys(modules[0].settings)[j] in SettingKeys(modules[0].settings);
      }
    } else {
      KeysAreListed(modules[1..], i - 1);
    }
  }

  lemma {:induction false} KeyListSplit(modules: seq<SysctlModule>, i: nat)
    requires i <= |modules|
    ensures KeyList(modules) == KeyList(modules[..i]) + KeyList(modules[i..])
  {
    if i == 0 {
      assert modules[..0] == [] && modules[0..] == modules;
    } else {
      var rest, front, back := modules[1..], modules[..i], modules[i..];
      KeyListSplit(rest, i - 1);
      assert front[1..] == rest[..i - 1] && back == rest[i - 1..] && front[0] == modules[0];
      ConcatAssociates(SettingKeys(modules[0].settings), KeyList(front[1..]), KeyList(back));
    }
  }

  lemma KeyListAppend(modules: seq<SysctlModule>, mod: SysctlModule)
    ensures KeyList(modules + [mod]) == KeyList(modules) + SettingKeys(mod.settings)
  {
    var all := modules + [mod];
    KeyListSplit(all, |modules|);
    assert all[..|modules|] == modules && all[|modules|..] == [mod];
    assert KeyList([mod]) == SettingKeys(mod.settings);
  }

  function Elements<T>(s: seq<T>): set<T> {
    set x | x in s
  }

  /** Whether the dictionary has the key, and its value. */
  function Lookup(modules: seq<SysctlModule>, id: string): (r: Option<SysctlModule>)
    ensures r.Some? <==> id in ModuleIds(modules)
    ensures r.Some? ==> r.value in modules && r.value.id == id
  {
    if modules == [] then None
    else if modules[0].id == id then
      assert ModuleIds(modules)[0] == id;
      Some(modules[0])
    else
      assert ModuleIds(modules) == [modules[0].id] + ModuleIds(modules[1..]);
      Lookup(modules[1..], id)
  }

  predicate Knows(m: SysctlManifest, ids: seq<string>) {
    forall i :: 0 <= i < |ids| ==> ids[i] in ModuleIds(m.modules)
  }

  /** `selected`: the named modules, in the order they are named. */
  function Selected(m: SysctlManifest, ids: seq<string>): (mods: seq<SysctlModule>)
    requires Knows(m, ids)
    ensures ModuleIds(mods) == ids
    ensures forall i :: 0 <= i < |mods| ==> mods[i] in m.modules
  {
    seq(|ids|, i requires 0 <= i < |ids| => Lookup(m.modules, ids[i]).value)
  }

  /** The apply part of the action policy: exactly the listed shapes. */
  predicate AllowsSingle(m: SysctlManifest, ids: seq<string>) {
    |ids| == 1 && ids[0] in m.singleApply
  }

  predicate AllowsMulti(m: SysctlManifest, ids: seq<string>) {
    ids in m.multiApply
  }
}
