/** The synthetic engine: exact file transactions inside one private tree, with the same backup-first
    discipline as the sysctl engine. */
module SyntheticEngine {
  import opened Common
  import opened Json
  import opened TransactionModel
  import opened TransactionEngine
  import opened SyntheticModel

  class TrustedTree {
    var files: Tree
    /** How many operations failed from outside. */
    ghost var faults: nat

    method Try() returns (o: Outcome)
      modifies this`faults
      ensures faults == old(faults) + if o.Done? then 0 else 1
    {
      o := Io();
      faults := faults + if o.Done? then 0 else 1;
    }

    /** An unsafe or oversized target raises. */
    method Snapshot(path: Path) returns (o: Outcome, file: Option<TreeFile>)
      modifies this`faults
      ensures o.Done? ==> file == Lookup(files, path) && IsSafe(file)
      ensures faults >= old(faults) && (IsSafe(Lookup(files, path)) && faults == old(faults) ==> o.Done?)
    {
      o := Try();
      file := Lookup(files, path);
      if o.Done? && !IsSafe(file) { o := Raised; }
    }

    /** The temporary file gets content and mode before it is renamed, so the target is either as before
        or exactly as in the snapshot. */
    method Replace(snap: TreeSnapshot) returns (o: Outcome)
      modifies this
      ensures files == old(files) || files == Placed(old(files), snap)
      ensures o.Done? ==> files == Placed(old(files), snap)
      ensures faults >= old(faults)
      ensures IsSafe(snap.file) && IsSafe(Lookup(old(files), snap.path)) && faults == old(faults) ==> o.Done?
    {
      var current: Option<TreeFile>;
      o, current := Snapshot(snap.path);
      if !o.Done? { return; }
      if snap.file.None? {
        if current.Some? {
          o := Try();
          if !o.Done? { return; }
          files := files - {snap.path};
          o := Try();
        } else {
          assert files == files - {snap.path};
        }
        return;
      }
      if |snap.file.value.content| > MAX_TARGET_BYTES { return Raised; }
      o := Try();
      if !o.Done? { return; }
      files := files[snap.path := snap.file.value];
      o := Try();
      if !o.Done? { return; }
      var written: Option<TreeFile>;
      o, written := Snapshot(snap.path);
      if o.Done? && written != snap.file { o := Raised; }
    }
  }

  class SyntheticBackupStore {
    var records: Records
    var marker: Marker
    /** How many operations failed from outside. */
    ghost var faults: nat

    method Try() returns (o: Outcome)
      modifies this`faults
      ensures faults == old(faults) + if o.Done? then 0 else 1
    {
      o := Io();
      faults := faults + if o.Done? then 0 else 1;
    }

    /** Write-once; the record is read back before the creation counts. */
    method Create(id: BackupId, files: seq<TreeSnapshot>) returns (o: Outcome)
      modifies this`records, this`faults
      ensures faults >= old(faults) && (id !in old(records) && Loadable(id, files) && faults == old(faults) ==> o.Done?)
      ensures RecordStep(old(records), id, files, records)
      ensures o.Done? && AllSafe(files) ==> Kept(old(records), id, files, records)
    {
      if id in records {
        o := Try();
        return if o.Done? then Raised else o;
      }
      o := Try();
      if !o.Done? { return; }
      records := records[id := Record.Torn];
      o := Try();
      if !o.Done? { return; }
      records := records[id := Record.Whole(files)];
      var loaded: seq<TreeSnapshot>;
      o, loaded := Load(id);
      if !o.Done? { return; }
      o := Try();
    }

    method Load(id: BackupId) returns (o: Outcome, files: seq<TreeSnapshot>)
      modifies this`faults
      ensures faults >= old(faults) && (Eligible(records, id) && faults == old(faults) ==> o.Done?)
      ensures o.Done? ==> Eligible(records, id) && files == records[id].files
    {
      files := [];
      o := Try();
      if Eligible(records, id) {
        files := records[id].files;
      } else if o.Done? {
        o := Raised;
      }
    }

    method RecoveryBackupId() returns (o: Outcome, id: Option<BackupId>)
      modifies this`faults
      ensures faults >= old(faults)
      ensures (marker == Clear || (marker.Required? && Eligible(records, marker.id))) && faults == old(faults) ==> o.Done?
      ensures o.Done? ==> marker == if id.Some? then Required(id.value) else Clear
    {
      id := None;
      o := Try();
      if !o.Done? { return; }
      match marker
      case Clear =>
      case Damaged => o := Raised;
      case Required(x) =>
        if Eligible(records, x) {
          id := Some(x);
        } else {
          o := Raised;
        }
    }

    /** The first marker stays, whatever it names, and the call still returns. */
    method MarkRecoveryRequired(id: BackupId) returns (o: Outcome)
      modifies this`marker, this`faults
      ensures faults >= old(faults)
      ensures old(marker) != Clear ==> marker == old(marker)
      ensures marker != old(marker) ==> Eligible(records, id) && marker in {Damaged, Required(id)}
      ensures o.Done? ==> Eligible(records, id) && marker == if old(marker) == Clear then Required(id) else old(marker)
      ensures Eligible(records, id) && old(marker) == Clear && faults == old(faults) ==> o.Done?
    {
      if !Eligible(records, id) { return Raised; }
      o := Try();
      if !o.Done? { return; }
      if marker != Clear {
        var first: Option<BackupId>;
        o, first := RecoveryBackupId();
        return;
      }
      marker := Damaged;
      o := Try();
      if !o.Done? { return; }
      marker := Required(id);
      o := Try();
    }

    method ClearRecoveryRequired(id: BackupId) returns (o: Outcome)
      modifies this`marker, this`faults
      ensures faults >= old(faults)
      ensures old(marker) == Required(id) && Eligible(records, id) && faults == old(faults) ==> o.Done?
      ensures marker == old(marker) || (old(marker) == Required(id) && marker == Clear)
      ensures o.Done? ==> marker == Clear
    {
      var current: Option<BackupId>;
      o, current := RecoveryBackupId();
      if !o.Done? { return; }
      if current != Some(id) { return Raised; }
      o := Try();
      if !o.Done? { return; }
      marker := Clear;
      o := Try();
    }
  }

  class SyntheticExecutor {
    const modules: seq<SyntheticModule>
    const tree: TrustedTree
    const backups: SyntheticBackupStore

    constructor (modules: seq<SyntheticModule>, tree: TrustedTree, backups: SyntheticBackupStore)
      ensures this.modules == modules && this.tree == tree && this.backups == backups
    {
      this.modules, this.tree, this.backups := modules, tree, backups;
    }

    ghost function Current(): SyntheticState
      reads tree, backups
    {
      SyntheticState(tree.files, backups.records, backups.marker)
    }

    /** How many operations failed from outside so far. */
    ghost function Faults(): nat
      reads tree, backups
    {
      tree.faults + backups.faults
    }

    method TakeSnapshots(paths: seq<Path>) returns (o: Outcome, files: seq<TreeSnapshot>)
      modifies tree`faults
      ensures o.Done? ==> files == Snapshots(tree.files, paths) && AllSafe(files)
      ensures Faults() >= old(Faults())
      ensures AllSafe(Snapshots(tree.files, paths)) && Faults() == old(Faults()) ==> o.Done?
    {
      files := [];
      for i := 0 to |paths|
        invariant tree.faults >= old(tree.faults)
        invariant files == Snapshots(tree.files, paths)[..i] && AllSafe(files)
      {
        var file: Option<TreeFile>;
        assert Snapshots(tree.files, paths)[i].file == Lookup(tree.files, paths[i]);
        o, file := tree.Snapshot(paths[i]);
        if !o.Done? { return; }
        files := files + [TreeSnapshot(paths[i], file)];
      }
      o := Done;
    }

    /** `_restore` */
    method Restore(files: seq<TreeSnapshot>) returns (o: Outcome)
      modifies tree
      ensures PartlyPlaced(old(tree.files), tree.files, files)
      ensures o.Done? ==> TreeMatches(tree.files, files)
      ensures Faults() >= old(Faults())
      ensures (AllSafe(files) && AllSafe(Snapshots(old(tree.files), SnapshotPaths(files)))
               && Unrepeated(SnapshotPaths(files)) && Faults() == old(Faults())) ==> o.Done?
    {
      for i := 0 to |files|
        invariant tree.faults >= old(tree.faults)
        invariant PartlyPlaced(old(tree.files), tree.files, files)
        invariant Unrepeated(SnapshotPaths(files)) ==>
                    forall j :: i <= j < |files| ==> Lookup(tree.files, files[j].path) == Lookup(old(tree.files), files[j].path)
        invariant Unrepeated(SnapshotPaths(files)) ==> TreeMatches(tree.files, files[..i])
      {
        assert SnapshotPaths(files)[i] == files[i].path;
        assert Unrepeated(SnapshotPaths(files)) ==> forall j :: 0 <= j < |files| && j != i ==> files[j].path != files[i].path by {
          assert forall j :: 0 <= j < |files| ==> files[j].path == SnapshotPaths(files)[j];
        }
        assert Snapshots(old(tree.files), SnapshotPaths(files))[i].file == Lookup(old(tree.files), files[i].path);
        ghost var before := tree.files;
        o := tree.Replace(files[i]);
        PlacedOne(old(tree.files), before, tree.files, files, i);
        if !o.Done? { return; }
      }
      assert files[..|files|] == files;
      for i := 0 to |files|
        invariant tree.faults >= old(tree.faults)
        invariant PartlyPlaced(old(tree.files), tree.files, files)
        invariant Unrepeated(SnapshotPaths(files)) ==> TreeMatches(tree.files, files)
        invariant TreeMatches(tree.files, files[..i])
      {
        var file: Option<TreeFile>;
        o, file := tree.Snapshot(files[i].path);
        if !o.Done? { return; }
        if file != files[i].file { return Raised; }
      }
      assert files[..|files|] == files;
      o := Done;
    }

    /** One module of `_apply`: writes its content if it differs, with the mode the file had. */
    method ApplyOne(mods: seq<SyntheticModule>, i: nat, ghost start: Tree) returns (o: Outcome)
      requires i < |mods| && PartlyPlaced(start, tree.files, DesiredFiles(start, mods))
      modifies tree
      ensures PartlyPlaced(start, tree.files, DesiredFiles(start, mods))
      ensures forall p :: p != mods[i].target ==> Lookup(tree.files, p) == Lookup(old(tree.files), p)
      ensures o.Done? ==> Lookup(tree.files, mods[i].target) == Some(DesiredFile(start, mods[i]))
      ensures tree.faults >= old(tree.faults)
      ensures IsSafe(Lookup(old(tree.files), mods[i].target)) && |mods[i].desired| <= MAX_TARGET_BYTES
              ==> && (tree.faults == old(tree.faults) ==> o.Done?)
                  && (o.Done? ==> IsSafe(Lookup(tree.files, mods[i].target)))
    {
      ghost var before := tree.files;
      ModeIsKept(start, before, mods, i);
      var current: Option<TreeFile>;
      o, current := tree.Snapshot(mods[i].target);
      if !o.Done? { return; }
      var desired := TreeFile(if current.Some? then current.value.mode else 0x180, mods[i].desired);
      if current != Some(desired) {
        o := tree.Replace(TreeSnapshot(mods[i].target, Some(desired)));
        PlacedOne(start, before, tree.files, DesiredFiles(start, mods), i);
      }
    }

    /** The verification of `_apply`. */
    method VerifyAll(mods: seq<SyntheticModule>) returns (o: Outcome)
      modifies tree`faults
      ensures o.Done? ==> TreeDesired(tree.files, mods)
      ensures tree.faults >= old(tree.faults)
      ensures TreeDesired(tree.files, mods) && AllSafe(Snapshots(tree.files, TargetPaths(mods))) && tree.faults == old(tree.faults)
              ==> o.Done?
    {
      for i := 0 to |mods|
        invariant tree.faults >= old(tree.faults)
        invariant TreeDesired(tree.files, mods[..i])
      {
        assert Snapshots(tree.files, TargetPaths(mods))[i].file == Lookup(tree.files, mods[i].target);
        var file: Option<TreeFile>;
        o, file := tree.Snapshot(mods[i].target);
        if !o.Done? { return; }
        if file.None? || file.value.content != mods[i].desired { return Raised; }
      }
      assert mods[..|mods|] == mods;
      o := Done;
    }

    /** The guarded part of `_apply`: writes what differs, verifies everything. */
    method ApplyAll(mods: seq<SyntheticModule>, token: CancellationToken) returns (exit: Exit)
      modifies tree, token
      ensures PartlyPlaced(old(tree.files), tree.files, DesiredFiles(old(tree.files), mods))
      ensures exit.Finished? ==> TreeDesired(tree.files, mods)
      ensures exit.Interrupted? ==> token.cancelled
      ensures Faults() >= old(Faults())
      ensures (Appliable(mods) && AllSafe(Snapshots(old(tree.files), TargetPaths(mods)))
               && Faults() == old(Faults()) && !token.cancelled) ==> exit.Finished?
    {
      var o: Outcome;
      ghost var start := tree.files;
      ghost var smooth := Appliable(mods) && AllSafe(Snapshots(start, TargetPaths(mods)));
      for i := 0 to |mods|
        invariant tree.faults >= old(tree.faults)
        invariant smooth ==> AppliedSoFar(start, tree.files, mods, i)
        invariant PartlyPlaced(start, tree.files, DesiredFiles(start, mods))
      {
        var stop := token.Checkpoint();
        if stop { return Interrupted(true); }
        ghost var before := tree.files;
        o := ApplyOne(mods, i, start);
        if smooth { AppliedOneMore(start, before, tree.files, mods, i); }
        if !o.Done? { return Leave(o); }
      }
      o := VerifyAll(mods);
      if smooth { AppliedEverything(start, tree.files, mods); }
      if !o.Done? { return Leave(o); }
      var stop := token.Checkpoint();
      exit := if stop then Interrupted(true) else Finished;
    }

    /** The guarded part of `_rollback`. */
    method RestoreBetweenCheckpoints(target: seq<TreeSnapshot>, token: CancellationToken) returns (exit: Exit)
      modifies tree, token
      ensures PartlyPlaced(old(tree.files), tree.files, target)
      ensures exit.Finished? ==> TreeMatches(tree.files, target)
      ensures exit.Interrupted? ==> token.cancelled
      ensures Faults() >= old(Faults())
      ensures (AllSafe(target) && AllSafe(Snapshots(old(tree.files), SnapshotPaths(target)))
               && Unrepeated(SnapshotPaths(target)) && Faults() == old(Faults()) && !token.cancelled) ==> exit.Finished?
    {
      var stop := token.Checkpoint();
      if stop { return Interrupted(true); }
      var o := Restore(target);
      if !o.Done? { return Leave(o); }
      stop := token.Checkpoint();
      exit := if stop then Interrupted(true) else Finished;
    }

    /** Snapshot and backup, before anything is changed. */
    method Prepare(paths: seq<Path>, id: BackupId, token: CancellationToken) returns (exit: Exit, files: seq<TreeSnapshot>)
      modifies tree`faults, backups`records, backups`faults, token
      ensures Faults() >= old(Faults())
      ensures (id !in old(backups.records) && Loadable(id, Snapshots(tree.files, paths)) && AllSafe(Snapshots(tree.files, paths))
               && Faults() == old(Faults()) && !token.cancelled) ==> exit.Finished?
      ensures RecordStep(old(backups.records), id, Snapshots(tree.files, paths), backups.records)
      ensures exit.Finished? ==> files == Snapshots(tree.files, paths) && Kept(old(backups.records), id, files, backups.records)
      ensures exit.Interrupted? ==> token.cancelled
    {
      files := [];
      var stop := token.Checkpoint();
      if stop { return Interrupted(false), files; }
      var o: Outcome;
      o, files := TakeSnapshots(paths);
      if !o.Done? { return Leave(o), files; }
      stop := token.Checkpoint();
      if stop { return Interrupted(false), files; }
      o := backups.Create(id, files);
      exit := if o.Done? then Finished else Leave(o);
    }

    /** Every handler: restore the snapshots, or else mark their backup. */
    method RestoreOrMark(files: seq<TreeSnapshot>, id: BackupId) returns (c: Compensation)
      modifies tree, backups`marker, backups`faults
      ensures Faults() >= old(Faults()) && backups.faults >= old(backups.faults)
      ensures (AllSafe(files) && AllSafe(Snapshots(old(tree.files), SnapshotPaths(files))) && Unrepeated(SnapshotPaths(files))
               && Faults() == old(Faults())) ==> c.Restored?
      ensures Eligible(backups.records, id) && old(backups.marker) == Clear && backups.faults == old(backups.faults) ==> !c.Uncaught?
      ensures PartlyPlaced(old(tree.files), tree.files, files)
      ensures c.Restored? ==> TreeMatches(tree.files, files) && backups.marker == old(backups.marker)
      ensures c.Marked? ==> Eligible(backups.records, id)
                            && backups.marker == if old(backups.marker) == Clear then Required(id) else old(backups.marker)
      ensures backups.marker != old(backups.marker)
              ==> old(backups.marker) == Clear && Eligible(backups.records, id) && backups.marker in {Damaged, Required(id)}
    {
      var o := Restore(files);
      if o.Done? { return Restored; }
      if o.Died? { return Abandoned; }
      o := backups.MarkRecoveryRequired(id);
      c := if o.Done? then Marked else if o.Raised? then Uncaught else Abandoned;
    }

    /** `_apply` */
    method Apply(mods: seq<SyntheticModule>, b: BackupId, token: CancellationToken)
      returns (end: SyntheticEnd, ghost unmarked: bool)
      requires backups.marker == Clear
      modifies tree, backups, token
      ensures TreeApplied(mods, b, old(Current()), end, Current(), unmarked)
      ensures Faults() >= old(Faults())
      ensures (Appliable(mods) && b !in old(backups.records) && Loadable(b, Snapshots(old(tree.files), TargetPaths(mods)))
               && AllSafe(Snapshots(old(tree.files), TargetPaths(mods)))
               && Faults() == old(Faults()) && !token.cancelled) ==> end == Answered(Committed(b))
      ensures (Appliable(mods) && b !in old(backups.records) && Loadable(b, Snapshots(old(tree.files), TargetPaths(mods)))
               && AllSafe(Snapshots(old(tree.files), TargetPaths(mods)))
               && Faults() <= old(Faults()) + 1 && (Faults() == old(Faults()) || !token.cancelled)) ==> IsSettled(end, unmarked)
      ensures end.Answered? && end.reply.Halted? ==> token.cancelled && end.reply.timedOut == token.timedOut
    {
      unmarked := false;
      var exit, files := Prepare(TargetPaths(mods), b, token);
      if exit.Dead? { return Perished, false; }
      if exit.Failing? { return Answered(Broken(None)), false; }
      if exit.Interrupted? { return Answered(Halted(token.timedOut, None)), false; }
      exit := ApplyAll(mods, token);
      if exit.Dead? { return Perished, false; }
      if exit.Finished? { return Answered(Committed(b)), false; }
      ghost var between := tree.files;
      if Appliable(mods) && AllSafe(files) { DesiredIsSafe(old(tree.files), between, mods); }
      var c := RestoreOrMark(files, b);
      PartlyUndone(old(tree.files), between, tree.files, DesiredFiles(old(tree.files), mods), TargetPaths(mods));
      ElsewhereSame(old(tree.files), tree.files, DesiredFiles(old(tree.files), mods));
      if c.Restored? { RestoredIsSame(old(tree.files), tree.files, TargetPaths(mods)); }
      match c
      case Restored => end := Answered(if exit.Failing? then Broken(Some(b)) else Halted(token.timedOut, Some(b)));
      case Marked => end := Answered(RecoveryNeeded(b));
      case Uncaught => end, unmarked := Answered(Broken(None)), true;
      case Abandoned => end := Perished;
    }

    /** `_rollback` of an eligible backup, and the clearing of a marker that names it. */
    method Rollback(target: seq<TreeSnapshot>, x: BackupId, r: BackupId, token: CancellationToken)
      returns (end: SyntheticEnd, ghost unmarked: bool)
      requires backups.marker in {Clear, Required(x)}
      modifies tree, backups, token
      ensures TreeRolledBack(target, x, r, old(Current()), end, Current(), unmarked)
      ensures Faults() >= old(Faults())
      ensures (Eligible(old(backups.records), x) && AllSafe(target) && r !in old(backups.records)
               && Loadable(r, Snapshots(old(tree.files), SnapshotPaths(target)))
               && AllSafe(Snapshots(old(tree.files), SnapshotPaths(target)))
               && Faults() == old(Faults()) && !token.cancelled) ==> end == Answered(Committed(x))
      ensures (Eligible(old(backups.records), x) && target == old(backups.records)[x].files && AllSafe(target)
               && r !in old(backups.records) && Loadable(r, Snapshots(old(tree.files), SnapshotPaths(target)))
               && AllSafe(Snapshots(old(tree.files), SnapshotPaths(target)))
               && Faults() <= old(Faults()) + 1 && (Faults() == old(Faults()) || !token.cancelled)) ==> IsSettled(end, unmarked)
      ensures end.Answered? && end.reply.Halted? ==> token.cancelled && end.reply.timedOut == token.timedOut
    {
      unmarked := false;
      var exit, files := Prepare(SnapshotPaths(target), r, token);
      if exit.Dead? { return Perished, false; }
      if exit.Failing? { return Answered(Broken(Some(x))), false; }
      if exit.Interrupted? { return Answered(Halted(token.timedOut, Some(x))), false; }
      exit := RestoreBetweenCheckpoints(target, token);
      if exit.Dead? { return Perished, false; }
      if exit.Finished? {
        end := Answered(Committed(x));
        if backups.marker != Clear {
          var o := backups.ClearRecoveryRequired(x);
          if o.Raised? { end := Answered(Broken(Some(x))); }
          if o.Died? { end := Perished; }
        }
        return;
      }
      ghost var between := tree.files;
      if AllSafe(target) && AllSafe(files) { StaysSafe(old(tree.files), between, target, SnapshotPaths(target)); }
      var c := RestoreOrMark(files, r);
      PartlyUndone(old(tree.files), between, tree.files, target, SnapshotPaths(target));
      ElsewhereSame(old(tree.files), tree.files, target);
      if c.Restored? { RestoredIsSame(old(tree.files), tree.files, SnapshotPaths(target)); }
      match c
      case Restored => end := Answered(if exit.Failing? then Broken(Some(x)) else Halted(token.timedOut, Some(x)));
      case Marked => end := Answered(RecoveryNeeded(r));
      case Uncaught => end, unmarked := Answered(Broken(Some(x))), true;
      case Abandoned => end := Perished;
    }

    /** `execute` for the apply actions. */
    method ExecuteApply(ids: seq<string>, b: BackupId, token: CancellationToken)
      returns (end: SyntheticEnd, mods: seq<SyntheticModule>, ghost unmarked: bool)
      modifies tree, backups, token
      ensures Faults() >= old(Faults())
      ensures (end == Answered(Halted(token.timedOut, None)) && token.cancelled && Current() == old(Current()) && !unmarked)
              || ApplyTreeSpec(mods, b, old(Current()), end, Current(), unmarked)
      ensures !token.cancelled ==>
                (|mods| == |ids| <==> forall i :: 0 <= i < |ids| ==> Offers(modules, ids[i]))
      ensures |mods| != |ids| ==> end in {Answered(Broken(None)), Answered(Halted(token.timedOut, None))} && Current() == old(Current())
      ensures (|mods| == |ids| && old(backups.marker) == Clear && Appliable(mods) && b !in old(backups.records)
               && Loadable(b, Snapshots(old(tree.files), TargetPaths(mods))) && AllSafe(Snapshots(old(tree.files), TargetPaths(mods)))
               && Faults() == old(Faults()) && !token.cancelled) ==> end == Answered(Committed(b))
      ensures end.Answered? && end.reply.Committed? ==>
                |mods| == |ids| && forall i :: 0 <= i < |ids| ==> mods[i] in modules && mods[i].moduleId == ids[i] && mods[i].canApply
    {
      unmarked, mods := false, [];
      var stop := token.Checkpoint();
      if stop { return Answered(Halted(token.timedOut, None)), mods, false; }
      for i := 0 to |ids|
        invariant |mods| == i && forall j :: 0 <= j < i ==> mods[j] in modules && mods[j].moduleId == ids[j] && mods[j].canApply
        invariant forall j :: 0 <= j < i ==> Offers(modules, ids[j])
        invariant Current() == old(Current())
      {
        if m :| m in modules && m.moduleId == ids[i] && m.canApply {
          mods := mods + [m];
        } else {
          assert !Offers(modules, ids[i]);
          return Answered(Broken(None)), mods, false;
        }
      }
      var o, required := backups.RecoveryBackupId();
      if o.Died? { return Perished, mods, false; }
      if o.Raised? { return Answered(Broken(None)), mods, false; }
      if required.Some? { return Answered(RecoveryNeeded(required.value)), mods, false; }
      end, unmarked := Apply(mods, b, token);
    }

    /** `execute` for a rollback. */
    method ExecuteRollback(x: BackupId, r: BackupId, token: CancellationToken)
      returns (end: SyntheticEnd, ghost unmarked: bool)
      modifies tree, backups, token
      ensures Faults() >= old(Faults())
      ensures (end == Answered(Halted(token.timedOut, Some(x))) && token.cancelled && Current() == old(Current()) && !unmarked)
              || RollbackTreeSpec(modules, x, r, old(Current()), end, Current(), unmarked)
      ensures (Eligible(old(backups.records), x) && old(backups.marker) in {Clear, Required(x)} && r !in old(backups.records)
               && CanReturnTo(modules, old(backups.records)[x].files, old(tree.files), r)
               && Faults() == old(Faults()) && !token.cancelled) ==> end == Answered(Committed(x))
    {
      unmarked := false;
      var stop := token.Checkpoint();
      if stop { return Answered(Halted(token.timedOut, Some(x))), false; }
      var o, required := backups.RecoveryBackupId();
      if o.Died? { return Perished, false; }
      if o.Raised? { return Answered(Broken(Some(x))), false; }
      if required.Some? && required.value != x { return Answered(RecoveryNeeded(required.value)), false; }
      var target: seq<TreeSnapshot>;
      o, target := backups.Load(x);
      if o.Died? { return Perished, false; }
      if o.Raised? { return Answered(Broken(Some(x))), false; }
      for i := 0 to |target|
        invariant forall j :: 0 <= j < i ==> target[j].path in TargetPaths(modules)
        invariant Current() == old(Current())
      {
        if target[i].path !in TargetPaths(modules) { return Answered(Broken(Some(x))), false; }
      }
      end, unmarked := Rollback(target, x, r, token);
    }
  }

  /** The manifest has an applicable module of this ID. */
  ghost predicate Offers(modules: seq<SyntheticModule>, id: string) {
    exists m :: m in modules && m.moduleId == id && m.canApply
  }

  /** The targets are the manifest's, they and what is there now are safe, and that can be backed up. */
  ghost predicate CanReturnTo(modules: seq<SyntheticModule>, target: seq<TreeSnapshot>, tree: Tree, r: BackupId) {
    && (forall i :: 0 <= i < |target| ==> target[i].path in TargetPaths(modules))
    && AllSafe(target) && AllSafe(Snapshots(tree, SnapshotPaths(target))) && Loadable(r, Snapshots(tree, SnapshotPaths(target)))
  }

  /** Nothing is locked by this end, and nothing is left without a marker that needs one. */
  ghost predicate IsSettled(end: SyntheticEnd, unmarked: bool) {
    !unmarked && (end.Answered? ==> !end.reply.RecoveryNeeded?)
  }

  /** Where safe files are placed, safe files stay. */
  lemma {:induction false} StaysSafe(before: Tree, after: Tree, files: seq<TreeSnapshot>, paths: seq<Path>)
    requires PartlyPlaced(before, after, files) && AllSafe(files) && AllSafe(Snapshots(before, paths))
    ensures AllSafe(Snapshots(after, paths))
  {
    forall i | 0 <= i < |paths| ensures IsSafe(Lookup(after, paths[i])) {
      var p := paths[i];
      assert Snapshots(before, paths)[i].file == Lookup(before, p);
      if Lookup(after, p) != Lookup(before, p) {
        var j :| 0 <= j < |files| && files[j] == TreeSnapshot(p, Lookup(after, p));
        assert IsSafe(files[j].file);
      }
    }
  }

  lemma {:induction false} DesiredIsSafe(before: Tree, after: Tree, mods: seq<SyntheticModule>)
    requires Appliable(mods) && AllSafe(Snapshots(before, TargetPaths(mods)))
    requires PartlyPlaced(before, after, DesiredFiles(before, mods))
    ensures AllSafe(Snapshots(after, TargetPaths(mods)))
  {
    forall i | 0 <= i < |mods| ensures IsSafe(DesiredFiles(before, mods)[i].file) {
      assert Snapshots(before, TargetPaths(mods))[i].file == Lookup(before, mods[i].target);
    }
    StaysSafe(before, after, DesiredFiles(before, mods), TargetPaths(mods));
  }

  /** Modules with different targets and contents within the limit. */
  ghost predicate Appliable(mods: seq<SyntheticModule>) {
    Unrepeated(TargetPaths(mods)) && forall i :: 0 <= i < |mods| ==> |mods[i].desired| <= MAX_TARGET_BYTES
  }

  lemma {:induction false} OtherTargets(mods: seq<SyntheticModule>, i: nat)
    requires Appliable(mods) && i < |mods|
    ensures forall j :: 0 <= j < |mods| && j != i ==> mods[j].target != mods[i].target
  {
    forall j | 0 <= j < |mods| && j != i ensures mods[j].target != mods[i].target {
      assert TargetPaths(mods)[j] != TargetPaths(mods)[i];
    }
  }

  /** Whatever was written to a target so far, its mode is the one the apply gives it. */
  lemma {:induction false} ModeIsKept(start: Tree, now: Tree, mods: seq<SyntheticModule>, i: nat)
    requires i < |mods| && PartlyPlaced(start, now, DesiredFiles(start, mods))
    ensures (if mods[i].target in now then now[mods[i].target].mode else 0x180) == DesiredFile(start, mods[i]).mode
  {
    var p := mods[i].target;
    assert Lookup(now, p) == Lookup(start, p) || IsOneOf(DesiredFiles(start, mods), p, Lookup(now, p));
    if Lookup(now, p) != Lookup(start, p) {
      var k :| 0 <= k < |mods| && DesiredFiles(start, mods)[k] == TreeSnapshot(p, Lookup(now, p));
      assert Lookup(now, p) == Some(DesiredFile(start, mods[k]));
    }
  }

  /** The first `n` modules are written and safe; the other targets are untouched. */
  ghost predicate AppliedSoFar(start: Tree, now: Tree, mods: seq<SyntheticModule>, n: nat)
    requires n <= |mods|
  {
    && (forall j :: 0 <= j < n ==>
          Lookup(now, mods[j].target) == Some(DesiredFile(start, mods[j])) && IsSafe(Lookup(now, mods[j].target)))
    && (forall j :: n <= j < |mods| ==> Lookup(now, mods[j].target) == Lookup(start, mods[j].target))
  }

  lemma {:induction false} AppliedOneMore(start: Tree, before: Tree, now: Tree, mods: seq<SyntheticModule>, i: nat)
    requires i < |mods| && Appliable(mods) && AllSafe(Snapshots(start, TargetPaths(mods)))
    requires AppliedSoFar(start, before, mods, i)
    requires forall p :: p != mods[i].target ==> Lookup(now, p) == Lookup(before, p)
    ensures IsSafe(Lookup(before, mods[i].target))
    ensures Lookup(now, mods[i].target) == Some(DesiredFile(start, mods[i])) && IsSafe(Lookup(now, mods[i].target))
            ==> AppliedSoFar(start, now, mods, i + 1)
  {
    OtherTargets(mods, i);
    assert Snapshots(start, TargetPaths(mods))[i].file == Lookup(start, mods[i].target);
  }

  lemma {:induction false} AppliedEverything(start: Tree, now: Tree, mods: seq<SyntheticModule>)
    requires AppliedSoFar(start, now, mods, |mods|)
    ensures TreeDesired(now, mods) && AllSafe(Snapshots(now, TargetPaths(mods)))
  {
    forall j | 0 <= j < |mods|
      ensures mods[j].target in now && now[mods[j].target].content == mods[j].desired
      ensures IsSafe(Snapshots(now, TargetPaths(mods))[j].file)
    {
      assert Lookup(now, mods[j].target) == Some(DesiredFile(start, mods[j]));
    }
  }
}
