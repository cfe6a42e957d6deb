/** Why no backup of a run lists a file or a key twice. */
module BackupRecords {
  import opened Common
  import opened Json
  import opened ProductionProtocol
  import opened SysctlManifests
  import opened ManifestLoader
  import opened TransactionModel
  import opened TransactionSpec
  import opened ProcessSpec
  import opened Lockout
  import opened LockoutRuns
  import opened LockoutLimits
  import Progress

  /** Every backup of this manifest names each of its modules once, as loading one requires. */
  ghost predicate DistinctModules(m: SysctlManifest, store: Store) {
    forall id :: Accepted(m, store, id) ==> Unrepeated(store[id].snapshot.moduleIds)
  }

  /** With a valid manifest such backups list no file and no key twice. */
  lemma {:induction false} RecordsAreSeparate(m: SysctlManifest, store: Store)
    requires ValidManifest(m) && StoreWellFormed(m, store) && DistinctModules(m, store)
    ensures SeparateStore(m, store)
  {
    forall id | Accepted(m, store, id) ensures Separate(store[id].snapshot) {
      assert WellFormed(m, store[id].snapshot);
      Progress.SelectedIsSeparate(m, store[id].snapshot.moduleIds);
    }
  }

  lemma {:induction false} AdmittedAreDistinct(m: SysctlManifest, req: ProductionRequest)
    requires ValidManifest(m) && Admitted(m, req) && req.action != RollbackBackup
    ensures Unrepeated(req.moduleIds)
  {
    if req.action == ApplyModules {
      var i :| 0 <= i < |m.multiApply| && m.multiApply[i] == req.moduleIds;
      assert ValidSequence(m.multiApply[i], 2);
    }
  }

  lemma {:induction false} NewRecordIsDistinct(m: SysctlManifest, pre: Store, id: BackupId, ids: seq<string>, w: World, post: Store)
    requires Knows(m, ids) && Hosts(w, m.modules) && Hosts(w, Selected(m, ids)) && Unrepeated(ids)
    requires DistinctModules(m, pre) && StoreStep(pre, id, SnapshotOf(m, Selected(m, ids), w), post)
    ensures DistinctModules(m, post)
  {
    forall i | Accepted(m, post, i) ensures Unrepeated(post[i].snapshot.moduleIds) {
      assert i in pre && post[i] == pre[i] ==> Accepted(m, pre, i);
    }
  }

  /** The worker's new record names the modules of its request or of its target. */
  lemma {:induction false} WorkKeepsDistinct(m: SysctlManifest, req: ProductionRequest, pre: State, w: Work)
    requires ValidManifest(m) && Hosts(pre.world, m.modules) && DistinctModules(m, pre.store)
    requires ExecuteSpec(m, req, pre, w.end, w.left, w.cleared)
    ensures DistinctModules(m, w.left.store)
  {
    if w.left != pre {
      var ids := if req.action == RollbackBackup then pre.store[req.backupId.value].snapshot.moduleIds else req.moduleIds;
      if req.action != RollbackBackup { AdmittedAreDistinct(m, req); }
      SelectedIsHosted(m, pre.world, ids);
      NewRecordIsDistinct(m, pre.store, UncertainId(req), ids, pre.world, w.left.store);
    }
  }

  lemma {:induction false} StepKeepsDistinct(m: SysctlManifest, pre: System, e: Event, post: System)
    requires ValidManifest(m) && Step(m, pre, e, post) && DistinctModules(m, pre.state.store)
    ensures DistinctModules(m, post.state.store)
  {
    if e.work.Some? {
      WorkKeepsDistinct(m, e.req, pre.state, e.work.value);
    }
  }

  /** The host is sound, and no backup lists a file or key twice. */
  ghost predicate Orderly(m: SysctlManifest, sys: System) {
    Sound(m, sys) && DistinctModules(m, sys.state.store)
  }

  lemma {:induction false} OrderlyAt(m: SysctlManifest, systems: seq<System>, events: seq<Event>, i: nat)
    requires ValidManifest(m) && Run(m, systems, events) && i < |events| && Orderly(m, systems[i])
    ensures Orderly(m, systems[i + 1])
  {
    assert StepAt(m, systems, events, i);
    StepKeepsSound(m, systems[i], events[i], systems[i + 1]);
    StepKeepsDistinct(m, systems[i], events[i], systems[i + 1]);
  }

  /** With a valid manifest this holds in every state of every run. */
  lemma {:induction false} RunStaysOrderly(m: SysctlManifest, systems: seq<System>, events: seq<Event>, n: nat)
    requires ValidManifest(m) && Run(m, systems, events) && n <= |events| && Orderly(m, systems[0])
    ensures Orderly(m, systems[n]) && SeparateStore(m, systems[n].state.store)
  {
    if n > 0 {
      RunStaysOrderly(m, systems, events, n - 1);
      OrderlyAt(m, systems, events, n - 1);
    }
    RecordsAreSeparate(m, systems[n].state.store);
  }
}
