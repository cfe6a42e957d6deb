/** A single failure from outside, or a cancellation without one, never locks the host: the request succeeds or
    the state from before is back. */
module OneFailure {
  import opened Common
  import opened Json
  import opened ProductionProtocol
  import opened SysctlManifests
  import opened ManifestLoader
  import opened ManifestFacts
  import opened TransactionModel
  import opened TransactionSpec
  import opened TransactionEngine
  import opened Progress

  lemma {:induction false} SettledFacts(m: SysctlManifest, req: ProductionRequest, pre: State, end: End, post: State)
    requires Knows(m, req.moduleIds) && Hosts(pre.world, m.modules) && pre.marker == Clear
    requires ApplySpec(m, req, pre, end, post) && end.Returned? && ApplyIsSettled(req, end)
    ensures post.marker == Clear
    ensures Desired(post.world, Selected(m, req.moduleIds)) || Equivalent(pre.world, post.world)
  {
    var mods := Selected(m, req.moduleIds);
    SelectedIsHosted(m, pre.world, req.moduleIds);
    if Matches(post.world, SnapshotOf(m, mods, pre.world)) {
      RestoredIsEquivalent(m, mods, pre.world, post.world);
    }
  }

  lemma {:induction false} CanBeUndone(executor: TransactionExecutor, req: ProductionRequest)
    requires ValidManifest(executor.manifest) && FitsLimits(executor.manifest)
    requires Knows(executor.manifest, req.moduleIds) && Unrepeated(req.moduleIds)
    requires executor.backups.marker == Clear && ApplyBackupId(req) !in executor.backups.backups
    requires Hosts(executor.Now(), Selected(executor.manifest, req.moduleIds))
             && AllPutBack(executor.Now(), Selected(executor.manifest, req.moduleIds))
    ensures executor.CanUndo(req.moduleIds) && (executor.sysctls.faithful ==> executor.CanApply(req))
  {
    var mods := Selected(executor.manifest, req.moduleIds);
    FittingIsWritable(executor.manifest, req.moduleIds);
    PutBackIsSmall(executor.Now(), mods);
    SnapshotIsRestorable(executor.manifest, mods, executor.Now());
  }

  /** An apply of a valid manifest with a fresh ID, of files that can be put back, on an unlocked host: if the
      kernel stores what is written, at most one operation fails from outside and the worker survives, then no
      marker is left, and the host is as wanted or as it was before. A cancellation counts as the failure. */
  method ApplyDespiteOneFailure(executor: TransactionExecutor, req: ProductionRequest, token: CancellationToken) returns (end: End)
    requires executor.Valid() && ValidManifest(executor.manifest) && FitsLimits(executor.manifest)
    requires Knows(executor.manifest, req.moduleIds) && Unrepeated(req.moduleIds)
    requires executor.backups.marker == Clear && ApplyBackupId(req) !in executor.backups.backups
    requires Hosts(executor.Now(), Selected(executor.manifest, req.moduleIds))
             && AllPutBack(executor.Now(), Selected(executor.manifest, req.moduleIds))
    modifies executor.files, executor.sysctls, executor.backups, token
    ensures (executor.sysctls.faithful && executor.Faults() <= old(executor.Faults()) + 1
             && (executor.Faults() == old(executor.Faults()) || !token.cancelled) && end != Killed)
            ==> && executor.backups.marker == Clear
                && (Desired(executor.Now(), Selected(executor.manifest, req.moduleIds)) || Equivalent(old(executor.Now()), executor.Now()))
  {
    ghost var m, pre := executor.manifest, executor.Current();
    CanBeUndone(executor, req);
    end := executor.Apply(req, token);
    if end.Returned? && ApplyIsSettled(req, end) {
      SettledFacts(m, req, pre, end, executor.Current());
    } else if executor.Current() == pre {
      SameIsEquivalent(pre.world);
    }
  }

  lemma {:induction false} SameIsEquivalent(w: World)
    ensures Equivalent(w, w)
  {
  }

  lemma {:induction false} RolledBackFacts(m: SysctlManifest, req: ProductionRequest, ids: seq<string>, pre: State, end: End, post: State,
                                           cleared: Option<World>)
    requires req.backupId.Some? && Hosts(pre.world, m.modules) && Accepted(m, pre.store, req.backupId.value)
    requires pre.marker in {Clear, Required(req.backupId.value)} && ids == pre.store[req.backupId.value].snapshot.moduleIds
    requires RollbackSpec(m, req, pre, end, post, cleared) && end.Returned? && RollbackIsSettled(req, ids, end)
    ensures (Matches(post.world, pre.store[req.backupId.value].snapshot) && post.marker == Clear) || Equivalent(pre.world, post.world)
  {
    var mods := Selected(m, ids);
    SelectedIsHosted(m, pre.world, ids);
    SameIsEquivalent(pre.world);
    if Matches(post.world, SnapshotOf(m, mods, pre.world)) {
      RestoredIsEquivalent(m, mods, pre.world, post.world);
    }
  }

  /** The same for a rollback: the backup is restored and nothing is locked, or the host is as it was before. */
  method RollbackDespiteOneFailure(executor: TransactionExecutor, req: ProductionRequest, token: CancellationToken)
    returns (end: End, ghost cleared: Option<World>)
    requires executor.Valid() && req.backupId.Some? && executor.CanRollBack(req)
    requires executor.CanUndo(executor.backups.backups[req.backupId.value].snapshot.moduleIds)
    modifies executor.files, executor.sysctls, executor.backups, token
    ensures (executor.sysctls.faithful && executor.Faults() <= old(executor.Faults()) + 1
             && (executor.Faults() == old(executor.Faults()) || !token.cancelled) && end != Killed)
            ==> (Matches(executor.Now(), old(executor.backups.backups)[req.backupId.value].snapshot) && executor.backups.marker == Clear)
                || Equivalent(old(executor.Now()), executor.Now())
  {
    ghost var m, pre := executor.manifest, executor.Current();
    ghost var ids := pre.store[req.backupId.value].snapshot.moduleIds;
    end, cleared := executor.Rollback(req, token);
    if end.Returned? && RollbackIsSettled(req, ids, end) {
      RolledBackFacts(m, req, ids, pre, end, executor.Current(), cleared);
    } else if executor.Current() == pre {
      SameIsEquivalent(pre.world);
    }
  }
}
