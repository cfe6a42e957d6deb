/** The sysctl transaction engine: managed files, sysctl values, the backup store and the executor.

    Every primitive step may succeed, raise, or be the last step of the worker process. */
module TransactionEngine {
  import opened Common
  import opened Json
  import opened SysctlText
  import opened ProductionProtocol
  import opened SysctlManifests
  import opened TransactionModel
  import opened TransactionSpec

  /** One-way cancellation: the first reason stays. */
  class CancellationToken {
    var cancelled: bool
    var timedOut: bool

    constructor ()
      ensures !cancelled && !timedOut
    {
      cancelled, timedOut := false, false;
    }

    method Cancel(reason: bool)
      modifies this
      ensures cancelled
      ensures timedOut == if old(cancelled) then old(timedOut) else reason
    {
      if !cancelled {
        timedOut := reason;
        cancelled := true;
      }
    }

    /** A signal may arrive at any moment; the worker notices it at its next checkpoint. */
    method Checkpoint() returns (stop: bool)
      modifies this
      ensures stop == cancelled
      ensures old(cancelled) ==> cancelled && timedOut == old(timedOut)
    {
      if * {
        var reason: bool := *;
        Cancel(reason);
      }
      stop := cancelled;
    }
  }

  class ManagedFiles {
    var contents: map<Path, FileState>
    /** How many operations failed from outside. */
    ghost var faults: nat

    method Try() returns (o: Outcome)
      modifies this`faults
      ensures faults == old(faults) + if o.Done? then 0 else 1
    {
      o := Io();
      faults := faults + if o.Done? then 0 else 1;
    }

    method Snapshot(path: Path) returns (o: Outcome, state: FileState)
      requires path in contents
      modifies this`faults
      ensures o.Done? ==> state == contents[path] && Small(state)
      ensures faults >= old(faults) && (Small(contents[path]) && faults == old(faults) ==> o.Done?)
    {
      o := Try();
      state := contents[path];
      if o.Done? && !Small(state) { o := Raised; }
    }

    /** Atomic replacement by rename: afterwards the file is either as before or has the new bytes, with
        whatever owner and group the temporary file had, and what the umask leaves of the mode. */
    method Write(path: Path, content: string, mode: nat) returns (o: Outcome)
      requires path in contents
      modifies this
      ensures path in contents && contents == old(contents)[path := contents[path]]
      ensures contents[path] == old(contents[path])
              || (contents[path].Present? && contents[path].content == content && Within(contents[path].mode, mode))
      ensures o.Done? ==> contents[path].Present? && contents[path].content == content && Within(contents[path].mode, mode)
      ensures o.Done? ==> mode <= 0x1FF && |content| <= MAX_FILE_BYTES
      ensures |content| > MAX_FILE_BYTES || mode > 0x1FF ==> contents == old(contents)
      ensures faults >= old(faults)
      ensures |content| <= MAX_FILE_BYTES && mode <= 0x1FF && faults == old(faults) ==> o.Done?
    {
      if |content| > MAX_FILE_BYTES || mode > 0x1FF {
        return Raised;
      }
      o := Try();
      if o.Done? {
        var bits: nat, uid: nat, gid: nat := *, *, *;
        if !Within(bits, mode) { bits := 0; }
        contents := contents[path := Present(bits, uid, gid, content)];
        o := Try();
      }
    }

    /** Writes the bytes, then sets owner and group, then the permission bits; or removes the file. */
    method Restore(snap: FileSnapshot) returns (o: Outcome)
      requires snap.path in contents
      modifies this
      ensures snap.path in contents && contents == old(contents)[snap.path := contents[snap.path]]
      ensures o.Done? ==> contents[snap.path] == snap.state
      ensures o.Done? ==> Restorable(snap.state)
      ensures !Restorable(snap.state) || (snap.state.Absent? && old(contents)[snap.path].Absent?) ==> contents == old(contents)
      ensures snap.state.Present? && contents != old(contents)
              ==> contents[snap.path].Present? && contents[snap.path].content == snap.state.content
      ensures faults >= old(faults)
      ensures Restorable(snap.state) && faults == old(faults) ==> o.Done?
    {
      match snap.state
      case Present(mode, uid, gid, content) =>
        o := Write(snap.path, content, mode);
        if !o.Done? { return; }
        o := Try();
        if !o.Done? { return; }
        contents := contents[snap.path := contents[snap.path].(uid := uid, gid := gid)];
        o := Try();
        if !o.Done? { return; }
        contents := contents[snap.path := contents[snap.path].(mode := mode)];
        o := Try();
      case Absent =>
        o := Done;
        if contents[snap.path].Present? {
          o := Try();
          if !o.Done? { return; }
          contents := contents[snap.path := Absent];
          o := Try();
        }
    }
  }

  class SysctlValues {
    var values: map<Key, string>
    /** How many writes were attempted, and how many operations failed from outside. */
    ghost var writes: nat
    ghost var faults: nat
    /** Whether the kernel stores what is written, which it may report with other white space, and changes
        no other key with it. */
    const faithful: bool

    constructor (values: map<Key, string>, faithful: bool)
      ensures this.values == values && this.faithful == faithful && writes == 0 && faults == 0
    {
      this.values, this.faithful, writes, faults := values, faithful, 0, 0;
    }

    method Try() returns (o: Outcome)
      modifies this`faults
      ensures faults == old(faults) + if o.Done? then 0 else 1
    {
      o := Io();
      faults := faults + if o.Done? then 0 else 1;
    }

    method Read(key: Key) returns (o: Outcome, value: string)
      requires key in values
      modifies this`faults
      ensures o.Done? ==> value == values[key]
      ensures faults == old(faults) + if o.Done? then 0 else 1
    {
      o := Try();
      value := values[key];
    }

    /** A write, whether it succeeds or not, may leave any value in the keys it is coupled with:
        nothing is assumed about what the kernel makes of it. */
    method Write(key: Key, value: string, coupled: set<Key>) returns (o: Outcome)
      requires key in coupled
      modifies this
      ensures values.Keys == old(values.Keys)
      ensures forall k :: k in values && k !in coupled ==> values[k] == old(values[k])
      ensures writes == old(writes) + 1
      ensures faithful ==> OnlyChanges(old(values), values, key)
      ensures faithful && key in values && o.Done? ==> Canonical(values[key]) == Canonical(value)
      ensures faults == old(faults) + if o.Done? then 0 else 1
    {
      o := Try();
      writes := writes + 1;
      if faithful {
        var lands: bool := *;
        if o.Done? || lands {
          var reported: string := *;
          if Canonical(reported) != Canonical(value) { reported := value; }
          values := map k | k in values :: if k == key then reported else values[k];
        }
      } else {
        var left: map<Key, string> := *;
        values := map k | k in values :: if k in coupled && k in left then left[k]
                                         else if k == key then value
                                         else values[k];
      }
    }
  }

  class BackupStore {
    var backups: Store
    var marker: Marker
    /** How many operations failed from outside. */
    ghost var faults: nat

    method Try() returns (o: Outcome)
      modifies this`faults
      ensures faults == old(faults) + if o.Done? then 0 else 1
    {
      o := Io();
      faults := faults + if o.Done? then 0 else 1;
    }

    /** Write-once: the directory is made first, then the record is written and read back. */
    method Create(id: BackupId, snap: Snapshot) returns (o: Outcome)
      modifies this`backups, this`faults
      ensures faults >= old(faults) && (id !in old(backups) && faults == old(faults) ==> o.Done?)
      ensures StoreStep(old(backups), id, snap, backups)
      ensures id in old(backups) ==> !o.Done? && backups == old(backups)
      ensures o.Done? ==> backups == old(backups)[id := Whole(snap)]
    {
      if id in backups {
        o := Try();
        return if o.Done? then Raised else o;
      }
      o := Try();
      if !o.Done? { return; }
      backups := backups[id := Torn];
      o := Try();
      if !o.Done? { return; }
      backups := backups[id := Whole(snap)];
      o := Try();
    }

    method Load(id: BackupId) returns (o: Outcome, snap: Snapshot)
      modifies this`faults
      ensures faults >= old(faults) && (Eligible(backups, id) && faults == old(faults) ==> o.Done?)
      ensures o.Done? ==> Eligible(backups, id) && snap == backups[id].snapshot
    {
      o := Try();
      snap := Snapshot.Snapshot("", [], [], []);
      if id in backups && backups[id].Whole? {
        snap := backups[id].snapshot;
      } else if o.Done? {
        o := Raised;
      }
    }

    /** The marked backup. An unreadable marker, or one naming no eligible backup, raises. */
    method RecoveryBackupId() returns (o: Outcome, id: Option<BackupId>)
      modifies this`faults
      ensures faults >= old(faults) && (Readable(marker, backups) && faults == old(faults) ==> o.Done?)
      ensures o.Done? ==> marker == if id.Some? then Required(id.value) else Clear
      ensures o.Done? && id.Some? ==> Eligible(backups, id.value)
    {
      id := None;
      o := Try();
      if !o.Done? { return; }
      match marker
      case Clear =>
      case Damaged => o := Raised;
      case Required(x) =>
        if x in backups && backups[x].Whole? {
          id := Some(x);
        } else {
          o := Raised;
        }
    }

    /** Creates the marker file and then writes the ID into it; an existing marker is never replaced. */
    method MarkRecoveryRequired(id: BackupId) returns (o: Outcome)
      modifies this`marker, this`faults
      ensures faults >= old(faults)
      ensures Eligible(backups, id) && old(marker) in {Clear, Required(id)} && faults == old(faults) ==> o.Done?
      ensures o.Done? ==> marker == Required(id)
      ensures marker != old(marker) ==> old(marker) == Clear && Eligible(backups, id) && marker in {Damaged, Required(id)}
    {
      if !(id in backups && backups[id].Whole?) {
        return Raised;
      }
      var current: Option<BackupId>;
      o, current := RecoveryBackupId();
      if !o.Done? { return; }
      if current.Some? {
        return if current.value == id then Done else Raised;
      }
      o := Try();
      if !o.Done? { return; }
      marker := Damaged;
      o := Try();
      if !o.Done? { return; }
      marker := Required(id);
      o := Try();
    }

    /** Unlinks the marker and then syncs the directory; `unlinked` tells whether the first happened. */
    method ClearRecoveryRequired(id: BackupId) returns (o: Outcome, ghost unlinked: bool)
      modifies this`marker, this`faults
      ensures faults >= old(faults)
      ensures old(marker) == Required(id) && Eligible(backups, id) && faults == old(faults) ==> o.Done?
      ensures unlinked ==> old(marker) == Required(id) && marker == Clear
      ensures !unlinked ==> marker == old(marker)
      ensures o.Done? ==> unlinked
    {
      unlinked := false;
      var current: Option<BackupId>;
      o, current := RecoveryBackupId();
      if !o.Done? { return; }
      if current != Some(id) {
        return Raised, false;
      }
      o := Try();
      if !o.Done? { return; }
      marker, unlinked := Clear, true;
      o := Try();
    }
  }

  /** How the body of a transaction leaves its `try`. */
  datatype Exit = Finished | Interrupted(backup: bool) | Failing | Dead

  class TransactionExecutor {
    const manifest: SysctlManifest
    const files: ManagedFiles
    const sysctls: SysctlValues
    const backups: BackupStore

    constructor (manifest: SysctlManifest, files: ManagedFiles, sysctls: SysctlValues, backups: BackupStore)
      ensures this.manifest == manifest && this.files == files && this.sysctls == sysctls && this.backups == backups
    {
      this.manifest, this.files, this.sysctls, this.backups := manifest, files, sysctls, backups;
    }

    ghost function Now(): World
      reads files, sysctls
    {
      World(files.contents, sysctls.values)
    }

    ghost function Current(): State
      reads files, sysctls, backups
    {
      State(Now(), backups.backups, backups.marker)
    }

    /** How many operations failed from outside so far. */
    ghost function Faults(): nat
      reads files, sysctls, backups
    {
      files.faults + sysctls.faults + backups.faults
    }

    /** The host offers every managed file and key, and old backups of this manifest are well formed. */
    ghost predicate Valid()
      reads files, sysctls, backups
    {
      Hosts(Now(), manifest.modules) && StoreWellFormed(manifest, backups.backups)
    }

    /** The kernel stores what is written, or has every desired value already, so that nothing is written. */
    ghost predicate Cooperates(mods: seq<SysctlModule>)
      reads sysctls`values
    {
      sysctls.faithful || AllSettingsHold(sysctls.values, mods)
    }

    /** Nothing about the request, the backup or the marker stands in the way of an apply. */
    ghost predicate CanApply(req: ProductionRequest)
      reads files, sysctls, backups
    {
      && Knows(manifest, req.moduleIds) && Writable(Selected(manifest, req.moduleIds))
      && Cooperates(Selected(manifest, req.moduleIds)) && TargetsSmall(Selected(manifest, req.moduleIds), Now())
      && backups.marker == Clear && ApplyBackupId(req) !in backups.backups
    }

    /** The state of these modules can be put back after it was backed up. */
    ghost predicate CanUndo(ids: seq<string>)
      reads files, sysctls
    {
      && Knows(manifest, ids) && Hosts(Now(), Selected(manifest, ids))
      && CanPutBack(SnapshotOf(manifest, Selected(manifest, ids), Now()))
    }

    /** Nothing about the request, the backup or the marker stands in the way of a rollback. */
    ghost predicate CanRollBack(req: ProductionRequest)
      requires req.backupId.Some?
      reads files, sysctls, backups
    {
      var x := req.backupId.value;
      && Accepted(manifest, backups.backups, x) && backups.marker in {Clear, Required(x)}
      && Separate(backups.backups[x].snapshot) && AllRestorable(backups.backups[x].snapshot.files)
      && TargetsSmall(Selected(manifest, backups.backups[x].snapshot.moduleIds), Now())
      && RecoveryBackupId(req) !in backups.backups
    }

    /** `_snapshot`: reads every file and then every key. */
    method TakeSnapshot(modules: seq<SysctlModule>) returns (o: Outcome, snap: Snapshot)
      requires Hosts(Now(), modules)
      modifies files`faults, sysctls`faults
      ensures o.Done? ==> snap == SnapshotOf(manifest, modules, Now()) && AllSmall(snap.files)
      ensures Faults() >= old(Faults()) && (TargetsSmall(modules, Now()) && Faults() == old(Faults()) ==> o.Done?)
    {
      HostsLists(Now(), modules);
      var targets, keys := TargetList(modules), KeyList(modules);
      var fileSnapshots: seq<FileSnapshot> := [];
      var readings: seq<(Key, string)> := [];
      snap := Snapshot.Snapshot(manifest.digest, ModuleIds(modules), [], []);
      for i := 0 to |targets|
        invariant |fileSnapshots| == i && fileSnapshots == FileSnapshots(modules, Now())[..i]
        invariant AllSmall(fileSnapshots)
        invariant Faults() >= old(Faults())
      {
        var state: FileState;
        assert TargetsSmall(modules, Now()) ==> Small(files.contents[modules[i].target]);
        o, state := files.Snapshot(targets[i]);
        if !o.Done? { return; }
        fileSnapshots := fileSnapshots + [FileSnapshot(targets[i], state)];
      }
      for i := 0 to |keys|
        invariant AllSmall(fileSnapshots)
        invariant |readings| == i && readings == Readings(keys, Now())[..i]
        invariant Faults() >= old(Faults())
      {
        var value: string;
        o, value := sysctls.Read(keys[i]);
        if !o.Done? { return; }
        readings := readings + [(keys[i], value)];
      }
      o := Done;
      snap := Snapshot.Snapshot(manifest.digest, ModuleIds(modules), fileSnapshots, readings);
    }

    /** The first loop of `_restore`. */
    method RestoreFiles(snap: Snapshot) returns (o: Outcome)
      requires HostsSnapshot(Now(), snap)
      modifies files
      ensures SameOutside(old(Now()), Now(), Paths(snap), {})
      ensures o.Done? ==> AllRestorable(snap.files)
      ensures FilesMatch(old(Now()), snap.files) && AllSmall(snap.files) ==> RewritesOnly(old(Now()), Now(), PathList(snap.files))
      ensures files.faults >= old(files.faults)
      ensures AllRestorable(snap.files) && files.faults == old(files.faults) ==> o.Done?
      ensures Separate(snap) && o.Done? ==> FilesMatch(Now(), snap.files)
    {
      ghost var start := Now();
      for i := 0 to |snap.files|
        invariant PutBack(start, Now(), snap, i)
        invariant files.faults >= old(files.faults)
      {
        assert PathList(snap.files)[i] in start.files;
        ghost var before := Now();
        o := files.Restore(snap.files[i]);
        PutOneMore(start, before, Now(), snap, i, o.Done?);
        if !o.Done? { return; }
      }
      assert snap.files[..|snap.files|] == snap.files;
      o := Done;
    }

    /** Reads a key and writes the target if the value differs by more than whitespace. */
    method Settle(key: Key, target: string, coupled: set<Key>) returns (o: Outcome)
      requires key in sysctls.values && key in coupled
      modifies sysctls
      ensures SameOutside(old(Now()), Now(), {}, coupled)
      ensures Canonical(old(sysctls.values)[key]) == Canonical(target)
              ==> sysctls.values == old(sysctls.values) && sysctls.writes == old(sysctls.writes)
      ensures sysctls.faults >= old(sysctls.faults)
      ensures sysctls.faults == old(sysctls.faults) ==> o.Done?
      ensures sysctls.faithful ==> OnlyChanges(old(sysctls.values), sysctls.values, key)
      ensures sysctls.faithful && o.Done? ==> Canonical(sysctls.values[key]) == Canonical(target)
    {
      var value: string;
      o, value := sysctls.Read(key);
      if !o.Done? { return; }
      if Canonical(value) != Canonical(target) {
        o := sysctls.Write(key, target, coupled);
      }
    }

    /** The second loop of `_restore`: writes every value that differs. */
    method RestoreValues(snap: Snapshot) returns (o: Outcome)
      requires HasKeys(sysctls.values, SysctlKeyList(snap.sysctls))
      modifies sysctls
      ensures SameOutside(old(Now()), Now(), {}, Keys(snap))
      ensures ValuesMatch(old(sysctls.values), snap.sysctls)
              ==> sysctls.values == old(sysctls.values) && sysctls.writes == old(sysctls.writes)
      ensures sysctls.faults >= old(sysctls.faults)
      ensures sysctls.faults == old(sysctls.faults) ==> o.Done?
      ensures sysctls.faithful && Separate(snap) && o.Done? ==> ValuesMatch(sysctls.values, snap.sysctls)
    {
      ghost var start := Now();
      var coupled := Elements(SysctlKeyList(snap.sysctls));
      for i := 0 to |snap.sysctls|
        invariant SameOutside(start, Now(), {}, Keys(snap))
        invariant ValuesMatch(old(sysctls.values), snap.sysctls)
                  ==> sysctls.values == old(sysctls.values) && sysctls.writes == old(sysctls.writes)
        invariant sysctls.faults >= old(sysctls.faults)
        invariant sysctls.faithful && Separate(snap) ==> ValuesMatch(sysctls.values, snap.sysctls[..i])
      {
        var (key, target) := snap.sysctls[i];
        assert SysctlKeyList(snap.sysctls)[i] == key && key in start.values;
        ghost var before := sysctls.values;
        o := Settle(key, target, coupled);
        if !o.Done? { return; }
        if sysctls.faithful && Separate(snap) {
          OneMoreMatches(before, sysctls.values, snap.sysctls, i);
        }
      }
      assert snap.sysctls[..|snap.sysctls|] == snap.sysctls;
      o := Done;
    }

    /** First half of `_restore`: puts every file and every differing value back. */
    method WriteBack(snap: Snapshot) returns (o: Outcome)
      requires HostsSnapshot(Now(), snap)
      modifies files, sysctls
      ensures SameOutside(old(Now()), Now(), Paths(snap), Keys(snap))
      ensures ValuesMatch(old(sysctls.values), snap.sysctls)
              ==> sysctls.values == old(sysctls.values) && sysctls.writes == old(sysctls.writes)
      ensures o.Done? ==> AllRestorable(snap.files)
      ensures Matches(old(Now()), snap) && AllSmall(snap.files) ==> RewritesOnly(old(Now()), Now(), PathList(snap.files))
      ensures Faults() >= old(Faults())
      ensures AllRestorable(snap.files) && Faults() == old(Faults()) ==> o.Done?
      ensures sysctls.faithful && Separate(snap) && o.Done? ==> Matches(Now(), snap)
    {
      o := RestoreFiles(snap);
      if o.Done? {
        o := RestoreValues(snap);
      }
    }

    /** Second half of `_restore`: re-reads everything the snapshot lists. */
    method VerifyRestored(snap: Snapshot) returns (o: Outcome)
      requires HostsSnapshot(Now(), snap)
      modifies files`faults, sysctls`faults
      ensures o.Done? ==> Matches(Now(), snap)
      ensures Faults() >= old(Faults())
      ensures Matches(Now(), snap) && AllSmall(snap.files) && Faults() == old(Faults()) ==> o.Done?
    {
      for i := 0 to |snap.files|
        invariant FilesMatch(Now(), snap.files[..i]) && Faults() >= old(Faults())
      {
        assert PathList(snap.files)[i] in files.contents;
        var state: FileState;
        o, state := files.Snapshot(snap.files[i].path);
        if !o.Done? { return; }
        if state != snap.files[i].state { return Raised; }
      }
      for i := 0 to |snap.sysctls|
        invariant ValuesMatch(sysctls.values, snap.sysctls[..i]) && Faults() >= old(Faults())
      {
        assert SysctlKeyList(snap.sysctls)[i] in sysctls.values;
        var value: string;
        o, value := sysctls.Read(snap.sysctls[i].0);
        if !o.Done? { return; }
        if Canonical(value) != Canonical(snap.sysctls[i].1) { return Raised; }
      }
      o := Done;
      assert snap.files[..|snap.files|] == snap.files && snap.sysctls[..|snap.sysctls|] == snap.sysctls;
    }

    /** `_restore`: when it returns, the host verifies against the snapshot. */
    method Restore(snap: Snapshot) returns (o: Outcome)
      requires HostsSnapshot(Now(), snap)
      modifies files, sysctls
      ensures SameOutside(old(Now()), Now(), Paths(snap), Keys(snap))
      ensures ValuesMatch(old(sysctls.values), snap.sysctls)
              ==> sysctls.values == old(sysctls.values) && sysctls.writes == old(sysctls.writes)
      ensures o.Done? ==> Matches(Now(), snap) && AllRestorable(snap.files)
      ensures Matches(old(Now()), snap) && AllSmall(snap.files) ==> RewritesOnly(old(Now()), Now(), PathList(snap.files))
      ensures Faults() >= old(Faults())
      ensures sysctls.faithful && Separate(snap) && AllRestorable(snap.files) && Faults() == old(Faults()) ==> o.Done?
    {
      o := WriteBack(snap);
      if o.Done? {
        o := VerifyRestored(snap);
      }
    }

    /** One setting of the inner mutation loop of `_apply`, up to its checkpoint. */
    method ApplySetting(s: SysctlSetting, coupled: set<Key>, token: CancellationToken) returns (exit: Exit)
      requires s.key in sysctls.values && s.key in coupled
      modifies sysctls, token
      ensures SameOutside(old(Now()), Now(), {}, coupled)
      ensures SettingHolds(old(sysctls.values), s)
              ==> sysctls.values == old(sysctls.values) && sysctls.writes == old(sysctls.writes)
      ensures exit.Interrupted? ==> exit.backup && token.cancelled
      ensures sysctls.faults >= old(sysctls.faults)
      ensures sysctls.faults == old(sysctls.faults) && !token.cancelled ==> exit.Finished?
      ensures sysctls.faithful ==> OnlyChanges(old(sysctls.values), sysctls.values, s.key)
      ensures sysctls.faithful && exit.Finished? && Canonical(s.desired) == s.desired ==> SettingHolds(sysctls.values, s)
    {
      var o, value := sysctls.Read(s.key);
      if !o.Done? { return Leave(o); }
      if Canonical(value) != s.desired {
        o := sysctls.Write(s.key, s.desired, coupled);
        if !o.Done? { return Leave(o); }
      }
      var stop := token.Checkpoint();
      exit := if stop then Interrupted(true) else Finished;
    }

    /** The inner mutation loop of `_apply`: writes every value that differs, with a checkpoint after each. */
    method ApplySettings(mod: SysctlModule, coupled: set<Key>, token: CancellationToken) returns (exit: Exit)
      requires forall j :: 0 <= j < |mod.settings| ==> mod.settings[j].key in sysctls.values && mod.settings[j].key in coupled
      modifies sysctls, token
      ensures SameOutside(old(Now()), Now(), {}, coupled)
      ensures SettingsHold(old(sysctls.values), mod.settings)
              ==> sysctls.values == old(sysctls.values) && sysctls.writes == old(sysctls.writes)
      ensures exit.Interrupted? ==> exit.backup && token.cancelled
      ensures sysctls.faults >= old(sysctls.faults)
      ensures sysctls.faults == old(sysctls.faults) && !token.cancelled ==> exit.Finished?
      ensures sysctls.faithful ==> SameOutside(old(Now()), Now(), {}, Elements(SettingKeys(mod.settings)))
      ensures sysctls.faithful && exit.Finished? && CanonicalSettings(mod) ==> SettingsHold(sysctls.values, mod.settings)
    {
      for j := 0 to |mod.settings|
        invariant sysctls.faults >= old(sysctls.faults)
        invariant sysctls.faithful ==> SameOutside(old(Now()), Now(), {}, Elements(SettingKeys(mod.settings)))
        invariant sysctls.faithful && CanonicalSettings(mod) ==> SettingsHold(sysctls.values, mod.settings[..j])
        invariant SameOutside(old(Now()), Now(), {}, coupled)
        invariant SettingsHold(old(sysctls.values), mod.settings)
                  ==> sysctls.values == old(sysctls.values) && sysctls.writes == old(sysctls.writes)
      {
        var s := mod.settings[j];
        assert s.key in old(sysctls.values);
        assert SettingKeys(mod.settings)[j] == s.key;
        ghost var before := sysctls.values;
        assert SettingsHold(old(sysctls.values), mod.settings) ==> SettingHolds(old(sysctls.values), mod.settings[j]);
        exit := ApplySetting(s, coupled, token);
        if !exit.Finished? { return; }
        if sysctls.faithful && CanonicalSettings(mod) {
          OneMoreHolds(before, sysctls.values, mod.settings, j);
        }
      }
      assert mod.settings[..|mod.settings|] == mod.settings;
      exit := Finished;
    }

    /** The mutation loop of `_apply` for one module. */
    method ApplyModule(mod: SysctlModule, coupled: set<Key>, token: CancellationToken) returns (exit: Exit)
      requires HostsModule(Now(), mod)
      requires forall j :: 0 <= j < |mod.settings| ==> mod.settings[j].key in coupled
      modifies files, sysctls, token
      ensures SameOutside(old(Now()), Now(), {mod.target}, coupled)
      ensures SettingsHold(old(sysctls.values), mod.settings)
              ==> sysctls.values == old(sysctls.values) && sysctls.writes == old(sysctls.writes)
      ensures exit.Interrupted? ==> exit.backup && token.cancelled
      ensures Faults() >= old(Faults())
      ensures |Content(mod.settings)| <= MAX_FILE_BYTES && Faults() == old(Faults()) && !token.cancelled ==> exit.Finished?
      ensures exit.Finished? ==> FileIsRendered(Now(), mod) && IsPrivate(files.contents[mod.target])
      ensures files.contents[mod.target] == old(files.contents[mod.target]) || IsPrivate(files.contents[mod.target])
      ensures sysctls.faithful ==> SameOutside(old(Now()), Now(), {mod.target}, Elements(SettingKeys(mod.settings)))
      ensures sysctls.faithful && exit.Finished? && CanonicalSettings(mod) ==> SettingsHold(sysctls.values, mod.settings)
    {
      var o := files.Write(mod.target, Content(mod.settings), 0x180);
      if files.contents[mod.target].Present? && Within(files.contents[mod.target].mode, 0x180) {
        OwnerBitsOnly(files.contents[mod.target].mode);
      }
      if !o.Done? { return Leave(o); }
      exit := ApplySettings(mod, coupled, token);
    }

    /** The inner verification loop of `_apply`. */
    method VerifySettings(settings: seq<SysctlSetting>) returns (o: Outcome)
      requires forall j :: 0 <= j < |settings| ==> settings[j].key in sysctls.values
      modifies sysctls`faults
      ensures o.Done? ==> SettingsHold(sysctls.values, settings)
      ensures sysctls.faults >= old(sysctls.faults)
      ensures SettingsHold(sysctls.values, settings) && sysctls.faults == old(sysctls.faults) ==> o.Done?
    {
      for j := 0 to |settings|
        invariant sysctls.faults >= old(sysctls.faults)
        invariant forall k :: 0 <= k < j ==> SettingHolds(sysctls.values, settings[k])
      {
        var value: string;
        o, value := sysctls.Read(settings[j].key);
        if !o.Done? { return; }
        if Canonical(value) != settings[j].desired {
          assert !SettingHolds(sysctls.values, settings[j]);
          return Raised;
        }
      }
      o := Done;
    }

    /** The verification loop of `_apply` for one module. */
    method VerifyModule(mod: SysctlModule) returns (o: Outcome)
      requires HostsModule(Now(), mod)
      modifies files`faults, sysctls`faults
      ensures o.Done? ==> FileIsRendered(Now(), mod) && SettingsHold(sysctls.values, mod.settings)
      ensures Faults() >= old(Faults())
      ensures (FileIsRendered(Now(), mod) && SettingsHold(sysctls.values, mod.settings)
               && |Content(mod.settings)| <= MAX_FILE_BYTES && Faults() == old(Faults())) ==> o.Done?
    {
      var state: FileState;
      o, state := files.Snapshot(mod.target);
      if !o.Done? { return; }
      if Bytes(state) != Content(mod.settings) { return Raised; }
      o := VerifySettings(mod.settings);
    }

    /** The mutation loop of `_apply`. */
    method ApplyAll(mods: seq<SysctlModule>, token: CancellationToken) returns (exit: Exit)
      requires Hosts(Now(), mods)
      modifies files, sysctls, token
      ensures OnlyTouches(mods, old(Now()), Now())
      ensures exit.Interrupted? ==> exit.backup && token.cancelled
      ensures AllSettingsHold(old(sysctls.values), mods)
              ==> sysctls.values == old(sysctls.values) && sysctls.writes == old(sysctls.writes)
      ensures Faults() >= old(Faults())
      ensures Writable(mods) && Faults() == old(Faults()) && !token.cancelled ==> exit.Finished?
      ensures old(Cooperates(mods)) && Writable(mods) && exit.Finished? ==> Desired(Now(), mods)
      ensures exit.Finished? ==> AllPrivate(files.contents, mods)
    {
      var coupled := Elements(KeyList(mods));
      for i := 0 to |mods|
        invariant AllPrivate(files.contents, mods[..i])
        invariant Faults() >= old(Faults())
        invariant old(Cooperates(mods)) && Writable(mods) ==> Desired(Now(), mods[..i])
        invariant OnlyTouches(mods, old(Now()), Now())
        invariant AllSettingsHold(old(sysctls.values), mods)
                  ==> sysctls.values == old(sysctls.values) && sysctls.writes == old(sysctls.writes)
      {
        assert HostsModule(old(Now()), mods[i]);
        exit := ApplyNext(mods, i, coupled, token);
        if !exit.Finished? { return; }
      }
      assert mods[..|mods|] == mods;
      exit := Finished;
    }

    /** One module of these, after those before it. */
    method ApplyNext(mods: seq<SysctlModule>, i: nat, coupled: set<Key>, token: CancellationToken) returns (exit: Exit)
      requires i < |mods| && HostsModule(Now(), mods[i]) && coupled == Elements(KeyList(mods))
      modifies files, sysctls, token
      ensures OnlyTouches(mods, old(Now()), Now())
      ensures exit.Interrupted? ==> exit.backup && token.cancelled
      ensures SettingsHold(old(sysctls.values), mods[i].settings)
              ==> sysctls.values == old(sysctls.values) && sysctls.writes == old(sysctls.writes)
      ensures Faults() >= old(Faults())
      ensures |Content(mods[i].settings)| <= MAX_FILE_BYTES && Faults() == old(Faults()) && !token.cancelled ==> exit.Finished?
      ensures ((sysctls.faithful || SettingsHold(old(sysctls.values), mods[i].settings)) && Writable(mods) && exit.Finished?
               && Desired(old(Now()), mods[..i])) ==> Desired(Now(), mods[..i + 1])
      ensures exit.Finished? && AllPrivate(old(files.contents), mods[..i]) ==> AllPrivate(files.contents, mods[..i + 1])
    {
      assert TargetList(mods)[i] == mods[i].target;
      KeysAreListed(mods, i);
      ghost var before := Now();
      exit := ApplyModule(mods[i], coupled, token);
      if exit.Finished? {
        if AllPrivate(before.files, mods[..i]) { OneMorePrivate(before.files, files.contents, mods, i); }
        if Writable(mods) && Desired(before, mods[..i]) && SettingsHold(sysctls.values, mods[i].settings)
           && SameOutside(before, Now(), {mods[i].target}, Elements(SettingKeys(mods[i].settings))) {
          OneMoreDesired(mods, i, before, Now());
        }
      }
    }

    /** The verification loop of `_apply`. */
    method VerifyAll(mods: seq<SysctlModule>) returns (o: Outcome)
      requires Hosts(Now(), mods)
      modifies files`faults, sysctls`faults
      ensures o.Done? ==> Desired(Now(), mods)
      ensures Faults() >= old(Faults())
      ensures Desired(Now(), mods) && Writable(mods) && Faults() == old(Faults()) ==> o.Done?
    {
      for i := 0 to |mods|
        invariant Faults() >= old(Faults())
        invariant forall j :: 0 <= j < i ==> FileIsRendered(Now(), mods[j]) && SettingsHold(sysctls.values, mods[j].settings)
      {
        assert HostsModule(Now(), mods[i]);
        o := VerifyModule(mods[i]);
        if !o.Done? { return; }
      }
      o := Done;
    }

    /** The mutation loop and then the verification loop. */
    method ApplyAndVerify(mods: seq<SysctlModule>, token: CancellationToken) returns (exit: Exit)
      requires Hosts(Now(), mods)
      modifies files, sysctls, token
      ensures OnlyTouches(mods, old(Now()), Now())
      ensures exit.Interrupted? ==> exit.backup && token.cancelled
      ensures AllSettingsHold(old(sysctls.values), mods)
              ==> sysctls.values == old(sysctls.values) && sysctls.writes == old(sysctls.writes)
      ensures Faults() >= old(Faults())
      ensures old(Cooperates(mods)) && Writable(mods) && Faults() == old(Faults()) && !token.cancelled ==> exit.Finished?
      ensures exit.Finished? ==> Desired(Now(), mods) && AllPrivate(files.contents, mods)
    {
      exit := ApplyAll(mods, token);
      if exit.Finished? {
        var o := VerifyAll(mods);
        if !o.Done? { exit := Leave(o); }
      }
    }

    /** The `try` block of `_apply`. `taken` tells whether the snapshot was bound before it was left. */
    method ApplyBody(req: ProductionRequest, mods: seq<SysctlModule>, token: CancellationToken)
      returns (exit: Exit, taken: bool, snap: Snapshot)
      requires Hosts(Now(), mods)
      modifies files, sysctls, backups`backups, backups`faults, token
      ensures Faults() >= old(Faults()) && backups.faults >= old(backups.faults)
      ensures (old(Cooperates(mods)) && Writable(mods) && TargetsSmall(mods, old(Now())) && ApplyBackupId(req) !in old(backups.backups)
               && Faults() == old(Faults()) && !token.cancelled) ==> exit.Finished?
      ensures ApplyTried(manifest, req, mods, old(Current()), exit, taken, snap, Current())
      ensures exit.Finished? ==> AllPrivate(files.contents, mods)
      ensures exit.Interrupted? ==> token.cancelled
      ensures AllSettingsHold(old(sysctls.values), mods)
              ==> sysctls.values == old(sysctls.values) && sysctls.writes == old(sysctls.writes)
    {
      var b := ApplyBackupId(req);
      taken, snap := false, Snapshot.Snapshot("", [], [], []);
      var stop := token.Checkpoint();
      if stop { return Interrupted(false), taken, snap; }
      var o: Outcome;
      o, snap := TakeSnapshot(mods);
      if !o.Done? { return Leave(o), taken, snap; }
      taken := true;
      o := backups.Create(b, snap);
      if !o.Done? { return Leave(o), taken, snap; }
      stop := token.Checkpoint();
      if stop { return Interrupted(true), taken, snap; }
      exit := ApplyAndVerify(mods, token);
    }

    /** Every handler's last resort: restore and verify `snap`, or else mark backup `id`. */
    method RestoreOrMark(snap: Snapshot, id: BackupId) returns (c: Compensation)
      requires HostsSnapshot(Now(), snap)
      modifies files, sysctls, backups`marker, backups`faults
      ensures Faults() >= old(Faults()) && backups.faults >= old(backups.faults)
      ensures sysctls.faithful && Separate(snap) && AllRestorable(snap.files) && Faults() == old(Faults()) ==> c.Restored?
      ensures Eligible(backups.backups, id) && old(backups.marker) == Clear && backups.faults == old(backups.faults) ==> !c.Uncaught?
      ensures SameOutside(old(Now()), Now(), Paths(snap), Keys(snap))
      ensures ValuesMatch(old(sysctls.values), snap.sysctls)
              ==> sysctls.values == old(sysctls.values) && sysctls.writes == old(sysctls.writes)
      ensures c.Restored? ==> Matches(Now(), snap) && AllRestorable(snap.files) && backups.marker == old(backups.marker)
      ensures Matches(old(Now()), snap) && AllSmall(snap.files) ==> RewritesOnly(old(Now()), Now(), PathList(snap.files))
      ensures c.Marked? ==> backups.marker == Required(id)
      ensures backups.marker != old(backups.marker)
              ==> old(backups.marker) == Clear && Eligible(backups.backups, id) && backups.marker in {Damaged, Required(id)}
    {
      var o := Restore(snap);
      if o.Done? { return Restored; }
      if o.Died? { return Abandoned; }
      o := backups.MarkRecoveryRequired(id);
      c := if o.Done? then Marked else if o.Raised? then Uncaught else Abandoned;
    }

    /** `_apply` once no marker stands in the way: the `try` block and its handlers. One failure that does not
        kill the worker never locks the host, and neither does a cancellation without a failure: what was done
        is undone. An exception leaves the worker only if the backup directory failed. */
    method ApplyUnlocked(req: ProductionRequest, mods: seq<SysctlModule>, token: CancellationToken) returns (end: End)
      requires Hosts(Now(), mods) && backups.marker == Clear
      modifies files, sysctls, backups, token
      ensures UnlockedApplySpec(req, mods, SnapshotOf(manifest, mods, old(Now())), old(Current()), end, Current())
      ensures end.Returned? && end.reply.status == Succeeded ==> AllPrivate(files.contents, mods)
      ensures (old(Cooperates(mods)) && Writable(mods) && TargetsSmall(mods, old(Now())) && ApplyBackupId(req) !in old(backups.backups)
               && Faults() == old(Faults()) && !token.cancelled) ==> end == Returned(Success(req, req.moduleIds, ApplyBackupId(req)))
      ensures (sysctls.faithful && Writable(mods) && CanPutBack(SnapshotOf(manifest, mods, old(Now())))
               && TargetsSmall(mods, old(Now())) && ApplyBackupId(req) !in old(backups.backups)
               && Faults() <= old(Faults()) + 1 && (Faults() == old(Faults()) || !token.cancelled)) ==> ApplyIsSettled(req, end)
      ensures Faults() >= old(Faults()) && backups.faults >= old(backups.faults)
      ensures backups.faults == old(backups.faults) ==> end != Escaped
      ensures end.Returned? && end.reply.status in {Cancelled, TimedOut}
              ==> token.cancelled && end.reply.status == StopStatus(token.timedOut)
      ensures AllSettingsHold(old(sysctls.values), mods)
              ==> sysctls.writes == old(sysctls.writes) && sysctls.values == old(sysctls.values)
    {
      var exit, taken, snap := ApplyBody(req, mods, token);
      end := ConcludeApply(req, mods, exit, taken, snap, token, old(Current()));
    }

    /** The handlers of `_apply`. */
    method ConcludeApply(req: ProductionRequest, mods: seq<SysctlModule>, exit: Exit, taken: bool, snap: Snapshot,
                         token: CancellationToken, ghost pre: State) returns (end: End)
      requires Hosts(pre.world, mods) && pre.marker == Clear && Hosts(Now(), mods)
      requires ApplyTried(manifest, req, mods, pre, exit, taken, snap, Current())
      requires exit.Interrupted? ==> token.cancelled
      modifies files, sysctls, backups`marker, backups`faults
      ensures UnlockedApplySpec(req, mods, SnapshotOf(manifest, mods, pre.world), pre, end, Current())
      ensures exit.Finished? ==> end == Returned(Success(req, req.moduleIds, ApplyBackupId(req))) && Now() == old(Now())
      ensures !exit.Finished? && end.Returned? ==> end.reply.status != Succeeded
      ensures (sysctls.faithful && CanPutBack(SnapshotOf(manifest, mods, pre.world)) && Faults() == old(Faults())) ==> ApplyIsSettled(req, end)
      ensures Faults() >= old(Faults()) && backups.faults >= old(backups.faults)
      ensures backups.faults == old(backups.faults) ==> end != Escaped
      ensures end.Returned? && end.reply.status in {Cancelled, TimedOut}
              ==> token.cancelled && end.reply.status == StopStatus(token.timedOut)
      ensures (taken ==> ValuesMatch(old(sysctls.values), snap.sysctls))
              ==> sysctls.writes == old(sysctls.writes) && sysctls.values == old(sysctls.values)
    {
      var b := ApplyBackupId(req);
      if exit.Finished? {
        end := Returned(Success(req, req.moduleIds, b));
      } else if exit.Dead? {
        end := Killed;
      } else if exit == Interrupted(false) {
        end := Returned(Stopped(req, token.timedOut, None));
      } else if exit.Failing? && (!taken || !Eligible(backups.backups, b)) {
        end := Returned(Failure(req, BackupFailed, None));
      } else {
        end := UndoApply(req, mods, snap, exit, token, pre);
        return;
      }
      EndedApply(manifest, req, mods, pre, exit, taken, snap, Current(), end);
    }

    /** The handlers that undo an apply. */
    method UndoApply(req: ProductionRequest, mods: seq<SysctlModule>, snap: Snapshot, exit: Exit, token: CancellationToken,
                     ghost pre: State) returns (end: End)
      requires Hosts(pre.world, mods) && pre.marker == Clear && Hosts(Now(), mods)
      requires ApplyTried(manifest, req, mods, pre, exit, true, snap, Current())
      requires (exit == Interrupted(true) && token.cancelled) || (exit.Failing? && Eligible(backups.backups, ApplyBackupId(req)))
      modifies files, sysctls, backups`marker, backups`faults
      ensures UnlockedApplySpec(req, mods, snap, pre, end, Current())
      ensures end.Returned? ==> end.reply.status != Succeeded
      ensures sysctls.faithful && CanPutBack(snap) && Faults() == old(Faults()) ==> ApplyIsSettled(req, end)
      ensures Faults() >= old(Faults()) && backups.faults >= old(backups.faults)
      ensures backups.faults == old(backups.faults) ==> end != Escaped
      ensures end.Returned? && end.reply.status in {Cancelled, TimedOut}
              ==> token.cancelled && end.reply.status == StopStatus(token.timedOut)
      ensures ValuesMatch(old(sysctls.values), snap.sysctls)
              ==> sysctls.writes == old(sysctls.writes) && sysctls.values == old(sysctls.values)
    {
      var b := ApplyBackupId(req);
      var undone := if exit.Failing? then Failure(req, ApplyFailed, Some(b)) else Stopped(req, token.timedOut, Some(b));
      ghost var tried := Current();
      HostsTouched(mods, pre.world, Now(), snap);
      var c := RestoreOrMark(snap, b);
      end := Answer(c, undone, Failure(req, RecoveryRequired, Some(b)));
      UndoneApply(manifest, req, mods, pre, exit, snap, tried, c, end, Current());
    }

    /** `_apply` */
    method Apply(req: ProductionRequest, token: CancellationToken) returns (end: End)
      requires Valid()
      modifies files, sysctls, backups, token
      ensures Faults() >= old(Faults())
      ensures Knows(manifest, req.moduleIds) ==> ApplySpec(manifest, req, old(Current()), end, Current())
      ensures old(CanApply(req)) && Faults() == old(Faults()) && !token.cancelled
              ==> end == Returned(Success(req, req.moduleIds, ApplyBackupId(req)))
      ensures (sysctls.faithful && old(CanApply(req)) && old(CanUndo(req.moduleIds))
               && Faults() <= old(Faults()) + 1 && (Faults() == old(Faults()) || !token.cancelled))
              ==> ApplyIsSettled(req, end) || (end == Escaped && Current() == old(Current()))
      ensures (Knows(manifest, req.moduleIds) && old(Readable(backups.marker, backups.backups)) && backups.faults == old(backups.faults))
              ==> end != Escaped
      ensures end.Returned? && end.reply.status == Succeeded
              ==> Knows(manifest, req.moduleIds) && AllPrivate(files.contents, Selected(manifest, req.moduleIds))
      ensures !Knows(manifest, req.moduleIds)
              ==> Current() == old(Current()) && (end.Returned? ==> LockedOut(req, backups.marker, end.reply))
      ensures end.Returned? && end.reply.status in {Cancelled, TimedOut}
              ==> token.cancelled && end.reply.status == StopStatus(token.timedOut)
      ensures Knows(manifest, req.moduleIds) && AllSettingsHold(old(sysctls.values), Selected(manifest, req.moduleIds))
              ==> sysctls.writes == old(sysctls.writes) && sysctls.values == old(sysctls.values)
    {
      var o, required := backups.RecoveryBackupId();
      if !o.Done? { return if o.Raised? then Escaped else Killed; }
      if required.Some? { return Returned(Failure(req, RecoveryRequired, required)); }
      if !Knows(manifest, req.moduleIds) { return Escaped; }
      end := ApplyUnlocked(req, Selected(manifest, req.moduleIds), token);
    }

    /** The `try` block of `_rollback` up to the second checkpoint: snapshot, backup, restore. */
    method RollbackBody(req: ProductionRequest, target: Snapshot, mods: seq<SysctlModule>, token: CancellationToken)
      returns (exit: Exit, taken: bool, recovery: Snapshot)
      requires Hosts(Now(), mods) && HostsSnapshot(Now(), target)
      requires Paths(target) == Elements(TargetList(mods)) && Keys(target) == Elements(KeyList(mods))
      modifies files, sysctls, backups`backups, backups`faults, token
      ensures Faults() >= old(Faults())
      ensures (sysctls.faithful && Separate(target) && AllRestorable(target.files) && RecoveryBackupId(req) !in old(backups.backups)
               && TargetsSmall(mods, old(Now()))
               && Faults() == old(Faults()) && !token.cancelled) ==> exit.Finished?
      ensures taken ==> recovery == SnapshotOf(manifest, mods, old(Now()))
      ensures !taken ==> backups.backups == old(backups.backups) && exit in {Failing, Dead}
      ensures taken ==> StoreStep(old(backups.backups), RecoveryBackupId(req), recovery, backups.backups)
      ensures OnlyTouches(mods, old(Now()), Now())
      ensures Now() == old(Now()) || (taken && Created(old(backups.backups), RecoveryBackupId(req), recovery, backups.backups))
      ensures exit.Finished? || exit.Interrupted?
              ==> taken && Created(old(backups.backups), RecoveryBackupId(req), recovery, backups.backups)
      ensures exit.Finished? ==> Matches(Now(), target) && AllRestorable(target.files)
      ensures taken ==> AllSmall(recovery.files)
      ensures exit.Interrupted? ==> token.cancelled
    {
      var o: Outcome;
      taken := false;
      o, recovery := TakeSnapshot(mods);
      if !o.Done? { return Leave(o), taken, recovery; }
      taken := true;
      o := backups.Create(RecoveryBackupId(req), recovery);
      if !o.Done? { return Leave(o), taken, recovery; }
      var stop := token.Checkpoint();
      if stop { return Interrupted(true), taken, recovery; }
      o := Restore(target);
      if !o.Done? { return Leave(o), taken, recovery; }
      stop := token.Checkpoint();
      exit := if stop then Interrupted(true) else Finished;
    }

    /** The end of the `try` block of `_rollback`: the marker is cleared last. */
    method ReleaseMarker(exit: Exit, required: Option<BackupId>) returns (left: Exit, ghost cleared: Option<World>)
      requires backups.marker == if required.Some? then Required(required.value) else Clear
      requires required.Some? ==> Eligible(backups.backups, required.value)
      modifies backups`marker, backups`faults
      ensures Faults() >= old(Faults())
      ensures exit.Finished? && Faults() == old(Faults()) ==> left.Finished?
      ensures exit.Finished? && left.Finished? ==> backups.marker == Clear
      ensures left.Finished? ==> exit.Finished? && (required.Some? ==> cleared.Some?)
      ensures left.Interrupted? ==> exit == left
      ensures !exit.Finished? ==> left == exit
      ensures cleared.Some? ==> exit.Finished? && required.Some? && backups.marker == Clear && cleared.value == Now()
      ensures cleared.None? ==> backups.marker == old(backups.marker)
    {
      left, cleared := exit, None;
      if exit.Finished? && required.Some? {
        var o, unlinked := backups.ClearRecoveryRequired(required.value);
        if unlinked { cleared := Some(Now()); }
        left := if o.Done? then Finished else Leave(o);
      }
    }

    /** The whole `try` block of `_rollback`. */
    method RollbackTry(req: ProductionRequest, target: Snapshot, required: Option<BackupId>, token: CancellationToken)
      returns (exit: Exit, taken: bool, recovery: Snapshot, ghost cleared: Option<World>)
      requires Valid() && req.backupId.Some?
      requires Knows(manifest, target.moduleIds) && WellFormed(manifest, target)
      requires required.Some? ==> required == req.backupId
      requires backups.marker == if required.Some? then Required(required.value) else Clear
      requires required.Some? ==> Eligible(backups.backups, required.value)
      modifies files, sysctls, backups, token
      ensures Faults() >= old(Faults())
      ensures (sysctls.faithful && Separate(target) && AllRestorable(target.files) && RecoveryBackupId(req) !in old(backups.backups)
               && TargetsSmall(Selected(manifest, target.moduleIds), old(Now()))
               && Faults() == old(Faults()) && !token.cancelled) ==> exit.Finished?
      ensures RollbackTried(manifest, req, target, old(Current()), exit, taken, recovery, cleared, Current())
      ensures exit.Interrupted? ==> token.cancelled
    {
      TargetIsHosted(manifest, Now(), target);
      exit, taken, recovery := RollbackBody(req, target, Selected(manifest, target.moduleIds), token);
      exit, cleared := ReleaseMarker(exit, required);
    }

    /** `_rollback` once the backup is accepted: the `try` block and its handlers. */
    method RollbackTo(req: ProductionRequest, target: Snapshot, required: Option<BackupId>, token: CancellationToken)
      returns (end: End, ghost cleared: Option<World>)
      requires Valid() && req.backupId.Some?
      requires Knows(manifest, target.moduleIds) && WellFormed(manifest, target)
      requires required.Some? ==> required == req.backupId
      requires backups.marker == if required.Some? then Required(required.value) else Clear
      requires required.Some? ==> Eligible(backups.backups, required.value)
      modifies files, sysctls, backups, token
      ensures Faults() >= old(Faults())
      ensures (sysctls.faithful && Separate(target) && AllRestorable(target.files) && RecoveryBackupId(req) !in old(backups.backups)
               && TargetsSmall(Selected(manifest, target.moduleIds), old(Now()))
               && Faults() == old(Faults()) && !token.cancelled) ==> end == Returned(Success(req, target.moduleIds, req.backupId.value))
      ensures AcceptedSpec(manifest, req, target, old(Current()), end, Current(), cleared)
      ensures (sysctls.faithful && CanPutBack(target) && old(CanUndo(target.moduleIds)) && RecoveryBackupId(req) !in old(backups.backups)
               && TargetsSmall(Selected(manifest, target.moduleIds), old(Now()))
               && Faults() <= old(Faults()) + 1 && (Faults() == old(Faults()) || !token.cancelled))
              ==> RollbackIsSettled(req, target.moduleIds, end)
      ensures end.Returned? && end.reply.status in {Cancelled, TimedOut}
              ==> token.cancelled && end.reply.status == StopStatus(token.timedOut)
    {
      var x, r := req.backupId.value, RecoveryBackupId(req);
      var exit: Exit, taken: bool, recovery: Snapshot;
      exit, taken, recovery, cleared := RollbackTry(req, target, required, token);
      if exit.Finished? {
        end := Returned(Success(req, target.moduleIds, x));
      } else if exit.Dead? {
        end := Killed;
      } else if exit.Failing? && (!taken || !Eligible(backups.backups, r)) {
        end := Returned(Failure(req, RollbackFailed, Some(x)));
      } else {
        end := UndoRollback(req, target, recovery, exit, token, old(Current()), cleared);
        return;
      }
      EndedRollback(manifest, req, target, old(Current()), exit, taken, recovery, cleared, Current(), end);
    }

    /** The handlers that undo a rollback. */
    method UndoRollback(req: ProductionRequest, target: Snapshot, recovery: Snapshot, exit: Exit, token: CancellationToken,
                        ghost pre: State, ghost cleared: Option<World>) returns (end: End)
      requires req.backupId.Some? && Hosts(pre.world, manifest.modules) && Knows(manifest, target.moduleIds)
      requires pre.marker in {Clear, Required(req.backupId.value)}
      requires RollbackTried(manifest, req, target, pre, exit, true, recovery, cleared, Current())
      requires (exit.Interrupted? && token.cancelled) || (exit.Failing? && Eligible(backups.backups, RecoveryBackupId(req)))
      modifies files, sysctls, backups`marker, backups`faults
      ensures AcceptedSpec(manifest, req, target, pre, end, Current(), cleared)
      ensures sysctls.faithful && CanPutBack(recovery) && Faults() == old(Faults()) ==> RollbackIsSettled(req, target.moduleIds, end)
      ensures Faults() >= old(Faults())
      ensures end.Returned? && end.reply.status in {Cancelled, TimedOut}
              ==> token.cancelled && end.reply.status == StopStatus(token.timedOut)
    {
      var x, r := req.backupId.value, RecoveryBackupId(req);
      var undone := if exit.Failing? then Failure(req, RollbackFailed, Some(x)) else Stopped(req, token.timedOut, Some(x));
      ghost var tried := Current();
      SelectedIsHosted(manifest, pre.world, target.moduleIds);
      HostsTouched(Selected(manifest, target.moduleIds), pre.world, Now(), recovery);
      var c := RestoreOrMark(recovery, r);
      end := Answer(c, undone, Failure(req, RecoveryRequired, Some(r)));
      UndoneRollback(manifest, req, target, pre, exit, recovery, cleared, tried, c, end, Current());
    }

    /** `_rollback` */
    method Rollback(req: ProductionRequest, token: CancellationToken) returns (end: End, ghost cleared: Option<World>)
      requires Valid() && req.backupId.Some?
      modifies files, sysctls, backups, token
      ensures Faults() >= old(Faults())
      ensures RollbackSpec(manifest, req, old(Current()), end, Current(), cleared)
      ensures (sysctls.faithful && old(CanRollBack(req)) && Faults() == old(Faults()) && !token.cancelled)
              ==> end == Returned(Success(req, old(backups.backups)[req.backupId.value].snapshot.moduleIds, req.backupId.value))
      ensures (sysctls.faithful && old(CanRollBack(req)) && old(CanUndo(backups.backups[req.backupId.value].snapshot.moduleIds))
               && Faults() <= old(Faults()) + 1 && (Faults() == old(Faults()) || !token.cancelled))
              ==> RollbackIsSettled(req, old(backups.backups)[req.backupId.value].snapshot.moduleIds, end)
                  || (end == Escaped && Current() == old(Current()))
      ensures end.Returned? && end.reply.status in {Cancelled, TimedOut}
              ==> token.cancelled && end.reply.status == StopStatus(token.timedOut)
    {
      cleared := None;
      var x := req.backupId.value;
      var o, required := backups.RecoveryBackupId();
      if !o.Done? { return if o.Raised? then Escaped else Killed, None; }
      if required.Some? && required.value != x {
        return Returned(Failure(req, RecoveryRequired, required)), None;
      }
      var rejected := Returned(Failure(req, RollbackFailed, Some(x)));
      var target: Snapshot;
      o, target := backups.Load(x);
      if o.Died? { return Killed, None; }
      if o.Raised? || target.digest != manifest.digest || !Knows(manifest, target.moduleIds) {
        return rejected, None;
      }
      end, cleared := RollbackTo(req, target, required, token);
    }

    /** `execute`: the policy is checked again for everything but a rollback. */
    method Execute(req: ProductionRequest, token: CancellationToken) returns (end: End, ghost cleared: Option<World>)
      requires Valid()
      modifies files, sysctls, backups, token
      ensures Faults() >= old(Faults())
      ensures ExecuteSpec(manifest, req, old(Current()), end, Current(), cleared)
      ensures end.Returned? && end.reply.status == TimedOut ==> token.cancelled && token.timedOut
      ensures end.Returned? && end.reply.status == Cancelled ==> token.cancelled && !token.timedOut
      ensures req.action != RollbackBackup && !Listed(manifest, req) ==> end == Escaped && Current() == old(Current())
      ensures req.action != RollbackBackup && end.Returned? && end.reply.status == Succeeded
              ==> Knows(manifest, req.moduleIds) && AllPrivate(files.contents, Selected(manifest, req.moduleIds))
      ensures (Listed(manifest, req) && Knows(manifest, req.moduleIds)
               && AllSettingsHold(old(sysctls.values), Selected(manifest, req.moduleIds)))
              ==> sysctls.writes == old(sysctls.writes) && sysctls.values == old(sysctls.values)
      ensures Listed(manifest, req) && old(CanApply(req)) && Faults() == old(Faults()) && !token.cancelled
              ==> end == Returned(Success(req, req.moduleIds, ApplyBackupId(req)))
      ensures (req.action == RollbackBackup && req.backupId.Some? && sysctls.faithful && old(CanRollBack(req))
               && Faults() == old(Faults()) && !token.cancelled)
              ==> end == Returned(Success(req, old(backups.backups)[req.backupId.value].snapshot.moduleIds, req.backupId.value))
    {
      cleared := None;
      match req.action
      case ApplyModule =>
        if !AllowsSingle(manifest, req.moduleIds) { return Escaped, None; }
        end := Apply(req, token);
      case ApplyModules =>
        if !AllowsMulti(manifest, req.moduleIds) { return Escaped, None; }
        end := Apply(req, token);
      case RollbackBackup =>
        if req.backupId.None? { return Escaped, None; }
        end, cleared := Rollback(req, token);
      case _ =>
        end := Escaped;
    }
  }

  /** A snapshot that names nothing twice and whose files the write guard lets through. */
  ghost predicate CanPutBack(snap: Snapshot) {
    Separate(snap) && AllRestorable(snap.files)
  }

  /** The apply succeeded, or was undone, or never touched anything, or died; nothing is locked by its answer. */
  ghost predicate ApplyIsSettled(req: ProductionRequest, end: End) {
    var b := ApplyBackupId(req);
    || end == Killed
    || end == Returned(Success(req, req.moduleIds, b))
    || end == Returned(Failure(req, BackupFailed, None))
    || end == Returned(Failure(req, ApplyFailed, Some(b)))
    || (end.Returned? && (IsStopped(req, end.reply, None) || IsStopped(req, end.reply, Some(b))))
  }

  /** The rollback succeeded, or was undone, or was rejected before it touched anything, or died. */
  ghost predicate RollbackIsSettled(req: ProductionRequest, ids: seq<string>, end: End)
    requires req.backupId.Some?
  {
    || end == Killed
    || end == Returned(Success(req, ids, req.backupId.value))
    || end == Returned(Failure(req, RollbackFailed, req.backupId))
    || (end.Returned? && IsStopped(req, end.reply, req.backupId))
  }

  /** The state in which the `try` block of an apply is left. */
  ghost predicate ApplyTried(m: SysctlManifest, req: ProductionRequest, mods: seq<SysctlModule>, pre: State,
                             exit: Exit, taken: bool, snap: Snapshot, tried: State)
    requires Hosts(pre.world, mods)
  {
    var b := ApplyBackupId(req);
    var created := taken && Created(pre.store, b, snap, tried.store);
    && (taken ==> snap == SnapshotOf(m, mods, pre.world) && AllSmall(snap.files) && StoreStep(pre.store, b, snap, tried.store))
    && (!taken ==> tried.store == pre.store && exit in {Interrupted(false), Failing, Dead})
    && OnlyTouches(mods, pre.world, tried.world)
    && (tried.world == pre.world || created)
    && (exit.Finished? || exit == Interrupted(true) ==> created)
    && (exit.Finished? ==> Desired(tried.world, mods))
    && (exit == Interrupted(false) ==> !taken)
    && tried.marker == pre.marker
  }

  /** A snapshot of some modules can be restored after their resources changed. */
  lemma {:induction false} HostsTouched(mods: seq<SysctlModule>, before: World, after: World, snap: Snapshot)
    requires HostsSnapshot(before, snap) && OnlyTouches(mods, before, after)
    ensures HostsSnapshot(after, snap)
  {
  }

  /** The `try` block of an apply was left in a way that no handler undoes. */
  predicate ApplyIsOver(exit: Exit, taken: bool, store: Store, b: BackupId) {
    exit.Finished? || exit.Dead? || exit == Interrupted(false) || (exit.Failing? && (!taken || !Eligible(store, b)))
  }

  lemma {:induction false} EndedApply(m: SysctlManifest, req: ProductionRequest, mods: seq<SysctlModule>, pre: State, exit: Exit,
                                      taken: bool, snap: Snapshot, tried: State, end: End)
    requires Hosts(pre.world, mods) && pre.marker == Clear
    requires ApplyTried(m, req, mods, pre, exit, taken, snap, tried) && ApplyIsOver(exit, taken, tried.store, ApplyBackupId(req))
    requires match exit
             case Finished => end == Returned(Success(req, req.moduleIds, ApplyBackupId(req)))
             case Dead => end == Killed
             case Interrupted(_) => end.Returned? && IsStopped(req, end.reply, None)
             case Failing => end == Returned(Failure(req, BackupFailed, None))
    ensures UnlockedApplySpec(req, mods, SnapshotOf(m, mods, pre.world), pre, end, tried)
  {
  }

  /** After the compensation, an unfinished apply still meets its specification. */
  lemma UndoneApply(m: SysctlManifest, req: ProductionRequest, mods: seq<SysctlModule>, pre: State, exit: Exit,
                    snap: Snapshot, tried: State, c: Compensation, end: End, post: State)
    requires Hosts(pre.world, mods) && pre.marker == Clear
    requires ApplyTried(m, req, mods, pre, exit, true, snap, tried)
    requires exit == Interrupted(true) || (exit.Failing? && Eligible(tried.store, ApplyBackupId(req)))
    requires post.store == tried.store
    requires SameOutside(tried.world, post.world, Paths(snap), Keys(snap))
    requires ValuesMatch(tried.world.values, snap.sysctls) ==> post.world.values == tried.world.values
    requires Matches(tried.world, snap) && AllSmall(snap.files) ==> RewritesOnly(tried.world, post.world, PathList(snap.files))
    requires c.Restored? ==> Matches(post.world, snap) && AllRestorable(snap.files) && post.marker == tried.marker
    requires c.Marked? ==> post.marker == Required(ApplyBackupId(req))
    requires post.marker != tried.marker ==> post.marker in {Damaged, Required(ApplyBackupId(req))}
    requires c.Restored? ==> end.Returned? && if exit.Failing? then end.reply == Failure(req, ApplyFailed, Some(ApplyBackupId(req)))
                                              else IsStopped(req, end.reply, Some(ApplyBackupId(req)))
    requires c.Marked? ==> end == Returned(Failure(req, RecoveryRequired, Some(ApplyBackupId(req))))
    requires !c.Restored? && !c.Marked? ==> !end.Returned?
    ensures UnlockedApplySpec(req, mods, snap, pre, end, post)
  {
    OwnSnapshotMatches(m, mods, pre.world);
  }

  /** The state in which the `try` block of an accepted rollback is left. */
  ghost predicate RollbackTried(m: SysctlManifest, req: ProductionRequest, target: Snapshot, pre: State,
                                exit: Exit, taken: bool, recovery: Snapshot, cleared: Option<World>, tried: State)
    requires req.backupId.Some? && Hosts(pre.world, m.modules) && Knows(m, target.moduleIds)
  {
    var r := RecoveryBackupId(req);
    var mods := Selected(m, target.moduleIds);
    SelectedIsHosted(m, pre.world, target.moduleIds);
    var created := taken && Created(pre.store, r, recovery, tried.store);
    && (taken ==> recovery == SnapshotOf(m, mods, pre.world) && AllSmall(recovery.files) && StoreStep(pre.store, r, recovery, tried.store))
    && (!taken ==> tried.store == pre.store && exit in {Failing, Dead})
    && OnlyTouches(mods, pre.world, tried.world)
    && (tried.world == pre.world || created)
    && (exit.Finished? || exit.Interrupted? || cleared.Some? ==> created)
    && (exit.Finished? ==> Matches(tried.world, target) && AllRestorable(target.files) && tried.marker == Clear
                           && (pre.marker.Required? ==> cleared.Some?))
    && (exit.Interrupted? ==> cleared.None?)
    && (cleared.Some? ==> pre.marker == Required(req.backupId.value) && tried.marker == Clear
                          && cleared.value == tried.world && Matches(tried.world, target) && AllRestorable(target.files))
    && (cleared.None? ==> tried.marker == pre.marker)
  }

  /** The `try` block of a rollback was left in a way that no handler undoes. */
  predicate RollbackIsOver(exit: Exit, taken: bool, store: Store, r: BackupId) {
    exit.Finished? || exit.Dead? || (exit.Failing? && (!taken || !Eligible(store, r)))
  }

  lemma {:induction false} EndedRollback(m: SysctlManifest, req: ProductionRequest, target: Snapshot, pre: State, exit: Exit,
                                         taken: bool, recovery: Snapshot, cleared: Option<World>, tried: State, end: End)
    requires req.backupId.Some? && Hosts(pre.world, m.modules) && Knows(m, target.moduleIds)
    requires pre.marker in {Clear, Required(req.backupId.value)}
    requires RollbackTried(m, req, target, pre, exit, taken, recovery, cleared, tried)
    requires RollbackIsOver(exit, taken, tried.store, RecoveryBackupId(req))
    requires match exit
             case Finished => end == Returned(Success(req, target.moduleIds, req.backupId.value))
             case Dead => end == Killed
             case _ => end == Returned(Failure(req, RollbackFailed, req.backupId))
    ensures AcceptedSpec(m, req, target, pre, end, tried, cleared)
  {
    SelectedIsHosted(m, pre.world, target.moduleIds);
  }

  /** After the compensation, an unfinished rollback still meets its specification. */
  lemma UndoneRollback(m: SysctlManifest, req: ProductionRequest, target: Snapshot, pre: State, exit: Exit,
                       recovery: Snapshot, cleared: Option<World>, tried: State, c: Compensation, end: End, post: State)
    requires req.backupId.Some? && Hosts(pre.world, m.modules) && Knows(m, target.moduleIds)
    requires pre.marker in {Clear, Required(req.backupId.value)}
    requires RollbackTried(m, req, target, pre, exit, true, recovery, cleared, tried)
    requires exit.Interrupted? || (exit.Failing? && Eligible(tried.store, RecoveryBackupId(req)))
    requires post.store == tried.store
    requires SameOutside(tried.world, post.world, Paths(recovery), Keys(recovery))
    requires ValuesMatch(tried.world.values, recovery.sysctls) ==> post.world.values == tried.world.values
    requires Matches(tried.world, recovery) && AllSmall(recovery.files) ==> RewritesOnly(tried.world, post.world, PathList(recovery.files))
    requires c.Restored? ==> Matches(post.world, recovery) && AllRestorable(recovery.files) && post.marker == tried.marker
    requires c.Marked? ==> post.marker == Required(RecoveryBackupId(req))
    requires post.marker != tried.marker
             ==> tried.marker == Clear && post.marker in {Damaged, Required(RecoveryBackupId(req))}
    requires c.Restored? ==> end.Returned? && if exit.Failing? then end.reply == Failure(req, RollbackFailed, req.backupId)
                                              else IsStopped(req, end.reply, req.backupId)
    requires c.Marked? ==> end == Returned(Failure(req, RecoveryRequired, Some(RecoveryBackupId(req))))
    requires !c.Restored? && !c.Marked? ==> !end.Returned?
    ensures AcceptedSpec(m, req, target, pre, end, post, cleared)
  {
    SelectedIsHosted(m, pre.world, target.moduleIds);
    OwnSnapshotMatches(m, Selected(m, target.moduleIds), pre.world);
  }

  /** How a compensation ends. */
  datatype Compensation = Restored | Marked | Uncaught | Abandoned

  function Answer(c: Compensation, restored: Reply, marked: Reply): End {
    match c
    case Restored => Returned(restored)
    case Marked => Returned(marked)
    case Uncaught => Escaped
    case Abandoned => Killed
  }

  function StopStatus(timedOut: bool): ProductionStatus {
    if timedOut then TimedOut else Cancelled
  }

  ghost predicate Created(pre: Store, id: BackupId, snap: Snapshot, post: Store) {
    id !in pre && post == pre[id := Whole(snap)]
  }

  function Leave(o: Outcome): Exit
    requires !o.Done?
  {
    if o.Raised? then Failing else Dead
  }

  /** The modules' files can be read. */
  ghost predicate TargetsSmall(mods: seq<SysctlModule>, w: World) {
    forall i :: 0 <= i < |mods| ==> mods[i].target in w.files && Small(w.files[mods[i].target])
  }

  /** The first `n` files of the snapshot are put back. */
  ghost predicate PutBack(start: World, now: World, snap: Snapshot, n: nat)
    requires n <= |snap.files|
  {
    && SameOutside(start, now, Paths(snap), {})
    && (forall j :: 0 <= j < n ==> Restorable(snap.files[j].state))
    && (FilesMatch(start, snap.files) && AllSmall(snap.files) ==> RewritesOnly(start, now, PathList(snap.files)))
    && (Separate(snap) ==> FilesMatch(now, snap.files[..n]))
  }

  /** What restoring one file does, whether or not it finishes. */
  ghost predicate FileRestored(before: World, after: World, snap: FileSnapshot, done: bool) {
    && snap.path in before.files && snap.path in after.files && after.values == before.values
    && after.files == before.files[snap.path := after.files[snap.path]]
    && (!Restorable(snap.state) || (snap.state.Absent? && before.files[snap.path].Absent?) ==> after.files == before.files)
    && (snap.state.Present? && after.files != before.files
        ==> after.files[snap.path].Present? && after.files[snap.path].content == snap.state.content)
    && (done ==> after.files[snap.path] == snap.state && Restorable(snap.state))
  }

  lemma {:induction false} PutOneMore(start: World, before: World, after: World, snap: Snapshot, i: nat, done: bool)
    requires i < |snap.files| && PutBack(start, before, snap, i) && FileRestored(before, after, snap.files[i], done)
    ensures SameOutside(start, after, Paths(snap), {})
    ensures FilesMatch(start, snap.files) && AllSmall(snap.files) ==> RewritesOnly(start, after, PathList(snap.files))
    ensures done ==> PutBack(start, after, snap, i + 1)
  {
    assert PathList(snap.files)[i] == snap.files[i].path;
    if FilesMatch(start, snap.files) && AllSmall(snap.files) {
      RewrittenOneMore(start, before, after, snap, i);
    }
    if done && Separate(snap) { MatchedOneMore(before, after, snap, i); }
  }

  /** One more file of a snapshot that matched at the start is put back. */
  lemma RewrittenOneMore(start: World, before: World, after: World, snap: Snapshot, i: nat)
    requires FilesMatch(start, snap.files) && AllSmall(snap.files) && i < |snap.files|
    requires RewritesOnly(start, before, PathList(snap.files))
    requires forall j :: 0 <= j < i ==> Restorable(snap.files[j].state)
    requires snap.files[i].path in after.files && after.values == before.values
    requires after.files == before.files[snap.files[i].path := after.files[snap.files[i].path]]
    requires var state, was := snap.files[i].state, before.files[snap.files[i].path];
             && (!Restorable(state) || (state.Absent? && was.Absent?) ==> after.files == before.files)
             && (state.Present? && after.files != before.files
                 ==> after.files[snap.files[i].path].Present? && after.files[snap.files[i].path].content == state.content)
    ensures RewritesOnly(start, after, PathList(snap.files))
  {
    var p, paths := snap.files[i].path, PathList(snap.files);
    if after.files != before.files {
      assert start.files[p] == snap.files[i].state;
      assert before.files[p] == start.files[p] || Rewritten(start, before, paths, p);
      forall j | 0 <= j < |paths| ensures paths[j] in start.files && start.files[paths[j]] == snap.files[j].state {
        assert snap.files[j].path in start.files;
      }
      assert RewritableAt(start, paths, i);
      assert Rewritten(start, after, paths, p);
      forall q | q in start.files && after.files[q] != start.files[q] ensures Rewritten(start, after, paths, q) {
        if q != p {
          assert Rewritten(start, before, paths, q);
        }
      }
    }
  }

  /** Putting one more file of separate ones back keeps the earlier ones in place. */
  lemma {:induction false} MatchedOneMore(before: World, after: World, snap: Snapshot, i: nat)
    requires i < |snap.files| && Separate(snap) && FilesMatch(before, snap.files[..i])
    requires snap.files[i].path in after.files && after.files[snap.files[i].path] == snap.files[i].state
    requires after.files == before.files[snap.files[i].path := after.files[snap.files[i].path]]
    ensures FilesMatch(after, snap.files[..i + 1])
  {
    forall j | 0 <= j < i + 1
      ensures snap.files[j].path in after.files && after.files[snap.files[j].path] == snap.files[j].state
    {
      if j < i {
        assert snap.files[..i][j] == snap.files[j];
        assert PathList(snap.files)[j] != PathList(snap.files)[i];
      }
    }
  }

  /** Every desired value is canonical, and no key is set twice. */
  ghost predicate CanonicalSettings(mod: SysctlModule) {
    && Unrepeated(SettingKeys(mod.settings))
    && forall j :: 0 <= j < |mod.settings| ==> Canonical(mod.settings[j].desired) == mod.settings[j].desired
  }

  /** Modules as a valid manifest has them: separate files and keys, canonical values, files within the size limit. */
  ghost predicate Writable(mods: seq<SysctlModule>) {
    && (forall i :: 0 <= i < |mods| ==> CanonicalSettings(mods[i]) && |Content(mods[i].settings)| <= MAX_FILE_BYTES)
    && (forall i, j :: 0 <= i < j < |mods| ==> Apart(mods[i], mods[j]))
  }

  ghost predicate Apart(a: SysctlModule, b: SysctlModule) {
    a.target != b.target && Elements(SettingKeys(a.settings)) !! Elements(SettingKeys(b.settings))
  }

  /** No value but that of `key` differs. */
  ghost predicate OnlyChanges(before: map<Key, string>, after: map<Key, string>, key: Key) {
    before.Keys == after.Keys && forall k :: k in before && k != key ==> before[k] == after[k]
  }

  /** Writing one more key keeps what the earlier ones hold. */
  lemma OneMoreHolds(before: map<Key, string>, after: map<Key, string>, settings: seq<SysctlSetting>, j: nat)
    requires j < |settings| && Unrepeated(SettingKeys(settings)) && SettingsHold(before, settings[..j])
    requires OnlyChanges(before, after, settings[j].key) && SettingHolds(after, settings[j])
    ensures SettingsHold(after, settings[..j + 1])
  {
    forall k | 0 <= k < j ensures SettingHolds(after, settings[k]) {
      assert SettingKeys(settings)[k] != SettingKeys(settings)[j];
      assert settings[..j][k] == settings[k];
    }
  }

  /** Putting one more value back keeps the earlier ones in place. */
  lemma OneMoreMatches(before: map<Key, string>, after: map<Key, string>, sysctls: seq<(Key, string)>, i: nat)
    requires i < |sysctls| && Unrepeated(SysctlKeyList(sysctls)) && ValuesMatch(before, sysctls[..i])
    requires OnlyChanges(before, after, sysctls[i].0)
    requires sysctls[i].0 in after && Canonical(after[sysctls[i].0]) == Canonical(sysctls[i].1)
    ensures ValuesMatch(after, sysctls[..i + 1])
  {
    forall k | 0 <= k < i ensures sysctls[k].0 in after && Canonical(after[sysctls[k].0]) == Canonical(sysctls[k].1) {
      assert SysctlKeyList(sysctls)[k] != SysctlKeyList(sysctls)[i];
      assert sysctls[..i][k] == sysctls[k];
    }
  }

  /** The modules' files are private. */
  ghost predicate AllPrivate(files: map<Path, FileState>, mods: seq<SysctlModule>) {
    forall i :: 0 <= i < |mods| ==> mods[i].target in files && IsPrivate(files[mods[i].target])
  }

  lemma {:induction false} OneMorePrivate(before: map<Path, FileState>, after: map<Path, FileState>, mods: seq<SysctlModule>, i: nat)
    requires i < |mods| && AllPrivate(before, mods[..i]) && before.Keys == after.Keys
    requires forall p :: p in before && p != mods[i].target ==> after[p] == before[p]
    requires mods[i].target in after && IsPrivate(after[mods[i].target])
    ensures AllPrivate(after, mods[..i + 1])
  {
    forall j | 0 <= j < i ensures mods[j].target in after && IsPrivate(after[mods[j].target]) {
      assert mods[..i][j] == mods[j];
    }
  }

  /** Applying one more module keeps what the earlier ones achieved. */
  lemma OneMoreDesired(mods: seq<SysctlModule>, i: nat, before: World, after: World)
    requires i < |mods| && Writable(mods) && Desired(before, mods[..i])
    requires SameOutside(before, after, {mods[i].target}, Elements(SettingKeys(mods[i].settings)))
    requires FileIsRendered(after, mods[i]) && SettingsHold(after.values, mods[i].settings)
    ensures Desired(after, mods[..i + 1])
  {
    forall j | 0 <= j < i ensures FileIsRendered(after, mods[j]) && SettingsHold(after.values, mods[j].settings) {
      assert Apart(mods[j], mods[i]) && mods[..i][j] == mods[j];
      assert FileIsRendered(before, mods[j]) && SettingsHold(before.values, mods[j].settings);
      forall k | 0 <= k < |mods[j].settings| ensures SettingHolds(after.values, mods[j].settings[k]) {
        assert SettingKeys(mods[j].settings)[k] in Elements(SettingKeys(mods[j].settings));
      }
    }
  }

  ghost predicate Readable(marker: Marker, store: Store) {
    marker == Clear || (marker.Required? && Eligible(store, marker.id))
  }
}
