/** The state a sysctl transaction works on, and what snapshots of it mean. */
module TransactionModel {
  import opened Common
  import opened Json
  import opened SysctlText
  import opened SysctlManifests

  type Path = string
  type Key = string
  type BackupId = string

  /** A managed file: absent, or its permission bits, owner, group and bytes. */
  datatype FileState = Absent | Present(mode: nat, uid: nat, gid: nat, content: string)

  /** The managed files and the sysctl values. */
  datatype World = World(files: map<Path, FileState>, values: map<Key, string>)

  datatype FileSnapshot = FileSnapshot(path: Path, state: FileState)

  const MAX_FILE_BYTES := 65536

  /** What a snapshot can hold: content within the limit. */
  predicate Small(state: FileState) {
    state.Present? ==> |state.content| <= MAX_FILE_BYTES
  }

  /** What the write guard lets through: content within the limit, and no mode bits but permissions. */
  predicate Restorable(state: FileState) {
    Small(state) && (state.Present? ==> state.mode <= 0x1FF)
  }

  /** The mode has no bit that `asked` has not: what a umask may leave of it. */
  predicate Within(mode: nat, asked: nat) {
    mode == 0 || (asked != 0 && mode % 2 <= asked % 2 && Within(mode / 2, asked / 2))
  }

  /** Present, and for its owner alone. */
  predicate IsPrivate(state: FileState) {
    state.Present? && state.mode in {0, 0x80, 0x100, 0x180}
  }

  lemma {:induction false} Halved(mode: nat, asked: nat)
    requires Within(mode, 2 * asked)
    ensures mode == 2 * (mode / 2) && Within(mode / 2, asked)
  {
  }

  /** A file created with mode 0600 is private under every umask. */
  lemma {:induction false} OwnerBitsOnly(mode: nat)
    requires Within(mode, 0x180)
    ensures mode in {0, 0x80, 0x100, 0x180}
  {
    Halved(mode, 0xC0);
    Halved(mode / 2, 0x60);
    Halved(mode / 2 / 2, 0x30);
    Halved(mode / 2 / 2 / 2, 0x18);
    Halved(mode / 2 / 2 / 2 / 2, 0xC);
    Halved(mode / 2 / 2 / 2 / 2 / 2, 0x6);
    Halved(mode / 2 / 2 / 2 / 2 / 2 / 2, 0x3);
    AtMostThree(mode / 2 / 2 / 2 / 2 / 2 / 2 / 2);
  }

  lemma {:induction false} AtMostThree(mode: nat)
    requires Within(mode, 3)
    ensures mode <= 3
  {
    if mode != 0 {
      assert Within(mode / 2, 1);
      if mode / 2 != 0 { assert Within(mode / 2 / 2, 0); }
    }
  }

  datatype Snapshot = Snapshot(
    digest: string,
    moduleIds: seq<string>,
    files: seq<FileSnapshot>,
    sysctls: seq<(Key, string)>)

  /** What the backup directory holds under one ID: a record that loads, or one that does not. */
  datatype Stored = Whole(snapshot: Snapshot) | Torn

  /** The recovery marker: absent, naming one backup, or unreadable. */
  datatype Marker = Clear | Required(id: BackupId) | Damaged

  type Store = map<BackupId, Stored>

  datatype State = State(world: World, store: Store, marker: Marker)

  // ----- what a snapshot covers -----

  function PathList(files: seq<FileSnapshot>): (ps: seq<Path>)
    ensures |ps| == |files|
    ensures forall i :: 0 <= i < |ps| ==> ps[i] == files[i].path
  {
    seq(|files|, i requires 0 <= i < |files| => files[i].path)
  }

  function SysctlKeyList(sysctls: seq<(Key, string)>): (ks: seq<Key>)
    ensures |ks| == |sysctls|
    ensures forall i :: 0 <= i < |ks| ==> ks[i] == sysctls[i].0
  {
    seq(|sysctls|, i requires 0 <= i < |sysctls| => sysctls[i].0)
  }

  /** The files and keys a snapshot covers. */
  ghost function Paths(snap: Snapshot): set<Path> {
    Elements(PathList(snap.files))
  }

  ghost function Keys(snap: Snapshot): set<Key> {
    Elements(SysctlKeyList(snap.sysctls))
  }

  // ----- what the host must offer -----

  ghost predicate HasPaths(files: map<Path, FileState>, paths: seq<Path>) {
    forall i :: 0 <= i < |paths| ==> paths[i] in files
  }

  ghost predicate HasKeys(values: map<Key, string>, keys: seq<Key>) {
    forall i :: 0 <= i < |keys| ==> keys[i] in values
  }

  ghost predicate HostsModule(w: World, mod: SysctlModule) {
    mod.target in w.files && forall j :: 0 <= j < |mod.settings| ==> mod.settings[j].key in w.values
  }

  /** Every path and key of the listed modules exists on the host. */
  ghost predicate Hosts(w: World, modules: seq<SysctlModule>) {
    forall i :: 0 <= i < |modules| ==> HostsModule(w, modules[i])
  }

  lemma HostsLists(w: World, modules: seq<SysctlModule>)
    requires Hosts(w, modules)
    ensures HasPaths(w.files, TargetList(modules)) && HasKeys(w.values, KeyList(modules))
  {
    forall i | 0 <= i < |modules| ensures TargetList(modules)[i] in w.files {
      assert HostsModule(w, modules[i]);
    }
    if modules != [] {
      assert HostsModule(w, modules[0]);
      HostsLists(w, modules[1..]);
    }
  }

  ghost predicate HostsSnapshot(w: World, snap: Snapshot) {
    HasPaths(w.files, PathList(snap.files)) && HasKeys(w.values, SysctlKeyList(snap.sysctls))
  }

  /** No path and no key is listed twice. */
  ghost predicate Separate(snap: Snapshot) {
    Unrepeated(PathList(snap.files)) && Unrepeated(SysctlKeyList(snap.sysctls))
  }

  // ----- taking snapshots -----

  ghost function FileSnapshots(modules: seq<SysctlModule>, w: World): (fs: seq<FileSnapshot>)
    requires HasPaths(w.files, TargetList(modules))
    ensures |fs| == |modules|
    ensures PathList(fs) == TargetList(modules)
  {
    var ts := TargetList(modules);
    seq(|modules|, i requires 0 <= i < |modules| => FileSnapshot(ts[i], w.files[ts[i]]))
  }

  ghost function Readings(keys: seq<Key>, w: World): (rs: seq<(Key, string)>)
    requires HasKeys(w.values, keys)
    ensures |rs| == |keys|
    ensures SysctlKeyList(rs) == keys
  {
    seq(|keys|, i requires 0 <= i < |keys| => (keys[i], w.values[keys[i]]))
  }

  /** The snapshot of the listed modules in world `w`. */
  ghost function SnapshotOf(m: SysctlManifest, modules: seq<SysctlModule>, w: World): (snap: Snapshot)
    requires Hosts(w, modules)
    ensures Paths(snap) == Elements(TargetList(modules))
    ensures Keys(snap) == Elements(KeyList(modules))
    ensures HostsSnapshot(w, snap)
  {
    HostsLists(w, modules);
    Snapshot(m.digest, ModuleIds(modules), FileSnapshots(modules, w), Readings(KeyList(modules), w))
  }

  // ----- comparing worlds -----

  /** Nothing outside the given files and keys differs. */
  ghost predicate SameOutside(a: World, b: World, paths: set<Path>, keys: set<Key>) {
    && a.files.Keys == b.files.Keys
    && a.values.Keys == b.values.Keys
    && (forall p :: p in a.files && p !in paths ==> a.files[p] == b.files[p])
    && (forall k :: k in a.values && k !in keys ==> a.values[k] == b.values[k])
  }

  /** Outside the given files and keys, files are identical and values equal up to whitespace. */
  ghost predicate EquivalentOutside(a: World, b: World, paths: set<Path>, keys: set<Key>) {
    && a.files.Keys == b.files.Keys
    && a.values.Keys == b.values.Keys
    && (forall p :: p in a.files && p !in paths ==> a.files[p] == b.files[p])
    && (forall k :: k in a.values && k !in keys ==> Canonical(a.values[k]) == Canonical(b.values[k]))
  }

  /** Same files in content, mode, owner and group, and same values up to whitespace. */
  ghost predicate Equivalent(a: World, b: World) {
    EquivalentOutside(a, b, {}, {})
  }

  /** The two worlds agree on the given files and keys, values up to whitespace. */
  ghost predicate AgreeOn(a: World, b: World, paths: set<Path>, keys: set<Key>) {
    && (forall p :: p in paths ==> p in a.files && p in b.files && a.files[p] == b.files[p])
    && (forall k :: k in keys ==> k in a.values && k in b.values && Canonical(a.values[k]) == Canonical(b.values[k]))
  }

  ghost predicate FilesMatch(w: World, files: seq<FileSnapshot>) {
    forall i :: 0 <= i < |files| ==> files[i].path in w.files && w.files[files[i].path] == files[i].state
  }

  ghost predicate ValuesMatch(values: map<Key, string>, sysctls: seq<(Key, string)>) {
    forall i :: 0 <= i < |sysctls| ==>
      sysctls[i].0 in values && Canonical(values[sysctls[i].0]) == Canonical(sysctls[i].1)
  }

  /** World `w` verifies against the snapshot: files exactly, values up to whitespace. */
  ghost predicate Matches(w: World, snap: Snapshot) {
    FilesMatch(w, snap.files) && ValuesMatch(w.values, snap.sysctls)
  }

  /** A world always verifies against its own snapshot. */
  lemma OwnSnapshotMatches(m: SysctlManifest, modules: seq<SysctlModule>, w: World)
    requires Hosts(w, modules)
    ensures Matches(w, SnapshotOf(m, modules, w))
  {
    var snap := SnapshotOf(m, modules, w);
    HostsLists(w, modules);
    forall i | 0 <= i < |snap.files|
      ensures snap.files[i].path in w.files && w.files[snap.files[i].path] == snap.files[i].state
    {
      assert TargetList(modules)[i] in w.files;
    }
  }

  /** Two worlds that verify against one snapshot agree on everything it covers. */
  lemma MatchingWorldsAgree(a: World, b: World, snap: Snapshot)
    requires Matches(a, snap) && Matches(b, snap)
    ensures AgreeOn(a, b, Paths(snap), Keys(snap))
  {
    forall p | p in Paths(snap)
      ensures p in a.files && p in b.files && a.files[p] == b.files[p]
    {
      var i :| 0 <= i < |snap.files| && PathList(snap.files)[i] == p;
      assert snap.files[i].path == p;
    }
    forall k | k in Keys(snap)
      ensures k in a.values && k in b.values && Canonical(a.values[k]) == Canonical(b.values[k])
    {
      var i :| 0 <= i < |snap.sysctls| && SysctlKeyList(snap.sysctls)[i] == k;
      assert snap.sysctls[i].0 == k;
    }
  }

  /** Restoring a snapshot of `pre` after changes inside its coverage gives back `pre`. */
  lemma RestoredIsEquivalent(m: SysctlManifest, modules: seq<SysctlModule>, pre: World, post: World)
    requires Hosts(pre, modules)
    requires SameOutside(pre, post, Elements(TargetList(modules)), Elements(KeyList(modules)))
    requires Matches(post, SnapshotOf(m, modules, pre))
    ensures Equivalent(pre, post)
  {
    OwnSnapshotMatches(m, modules, pre);
    MatchingWorldsAgree(pre, post, SnapshotOf(m, modules, pre));
  }

  // ----- files that a restoration rewrites -----

  ghost predicate AllSmall(files: seq<FileSnapshot>) {
    forall i :: 0 <= i < |files| ==> Small(files[i].state)
  }

  ghost predicate AllRestorable(files: seq<FileSnapshot>) {
    forall i :: 0 <= i < |files| ==> Restorable(files[i].state)
  }

  /** Restoring the present files of `w` at these paths, in this order, gets to rewrite number `i`: all
      can be read, it is there, and neither it nor one before it stops the restoration. */
  ghost predicate RewritableAt(w: World, paths: seq<Path>, i: nat) {
    && i < |paths| && HasPaths(w.files, paths) && w.files[paths[i]].Present?
    && (forall j :: 0 <= j < |paths| ==> Small(w.files[paths[j]]))
    && (forall j :: 0 <= j <= i ==> Restorable(w.files[paths[j]]))
  }

  /** Only such files changed, and their content did not: new owner, group or mode at most. */
  ghost predicate RewritesOnly(pre: World, post: World, paths: seq<Path>) {
    && pre.files.Keys == post.files.Keys && pre.values == post.values
    && forall p :: p in pre.files && post.files[p] != pre.files[p] ==> Rewritten(pre, post, paths, p)
  }

  ghost predicate Rewritten(pre: World, post: World, paths: seq<Path>, p: Path) {
    && p in pre.files && p in post.files && pre.files[p].Present? && post.files[p].Present?
    && post.files[p].content == pre.files[p].content
    && exists i: nat :: RewritableAt(pre, paths, i) && paths[i] == p
  }

  // ----- what an apply aims for -----

  /** `_content`: the rendered drop-in file. */
  function Content(settings: seq<SysctlSetting>): string {
    if settings == [] then ""
    else settings[0].key + " = " + settings[0].desired + "\n" + Content(settings[1..])
  }

  /** The bytes a reader sees; an absent file reads as empty. */
  function Bytes(state: FileState): string {
    if state.Present? then state.content else ""
  }

  ghost predicate FileIsRendered(w: World, mod: SysctlModule) {
    mod.target in w.files && Bytes(w.files[mod.target]) == Content(mod.settings)
  }

  /** A module with a setting renders to some text, so its file is really there. */
  lemma RenderedFileIsPresent(w: World, mod: SysctlModule)
    requires FileIsRendered(w, mod) && mod.settings != []
    ensures w.files[mod.target].Present?
  {
    assert |Content(mod.settings)| >= 4;
  }

  ghost predicate SettingHolds(values: map<Key, string>, s: SysctlSetting) {
    s.key in values && Canonical(values[s.key]) == s.desired
  }

  ghost predicate SettingsHold(values: map<Key, string>, settings: seq<SysctlSetting>) {
    forall j :: 0 <= j < |settings| ==> SettingHolds(values, settings[j])
  }

  ghost predicate AllSettingsHold(values: map<Key, string>, modules: seq<SysctlModule>) {
    forall i :: 0 <= i < |modules| ==> SettingsHold(values, modules[i].settings)
  }

  /** Every target file is the rendered drop-in and every key has its desired value. */
  ghost predicate Desired(w: World, modules: seq<SysctlModule>) {
    (forall i :: 0 <= i < |modules| ==> FileIsRendered(w, modules[i])) && AllSettingsHold(w.values, modules)
  }
}
