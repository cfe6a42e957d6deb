/** The exact action policy: which applies the manifest's own lists let through, for one request and for runs. */
module PolicyFacts {
  import opened Common
  import opened ProductionProtocol
  import opened SysctlManifests
  import opened ManifestLoader
  import opened ManifestFacts
  import opened TransactionModel
  import opened TransactionSpec
  import opened ProcessSpec
  import opened Lockout
  import opened LockoutRuns

  lemma {:induction false} ListedIffAdmitted(m: SysctlManifest, req: ProductionRequest)
    requires req.action != RollbackBackup
    ensures Listed(m, req) <==> Admitted(m, req)
  {
    if req.action == ApplyModule && Admitted(m, req) {
      var i :| 0 <= i < |m.singleApply| && m.singleApply[i] == req.moduleIds[0];
      assert req.moduleIds == [m.singleApply[i]];
    } else if req.action == ApplyModules && Admitted(m, req) {
      var i :| 0 <= i < |m.multiApply| && m.multiApply[i] == req.moduleIds;
    }
  }

  /** What serving a request that is no rollback may do: if the manifest lists it, what an apply may do, and
      otherwise nothing at all. */
  lemma {:induction false} PolicyIsExact(m: SysctlManifest, req: ProductionRequest, pre: State, end: End, post: State,
                                         cleared: Option<World>)
    requires ValidManifest(m) && Hosts(pre.world, m.modules) && req.action != RollbackBackup
    ensures Listed(m, req) ==> Knows(m, req.moduleIds)
    ensures ExecuteSpec(m, req, pre, end, post, cleared) <==>
            && cleared == None
            && if Listed(m, req) then ApplySpec(m, req, pre, end, post) else post == pre && end == Escaped
  {
    ListedIffAdmitted(m, req);
    if Admitted(m, req) {
      AdmittedIsKnown(m, req);
    }
  }

  /** Whatever the manifest, an apply that it does not list leaves files, values, backups and marker as they
      are, and no result is delivered but that it was stopped before it started. */
  lemma {:induction false} UnlistedIsInert(m: SysctlManifest, pre: System, e: Event, post: System)
    requires Step(m, pre, e, post) && e.req.action in {ApplyModule, ApplyModules} && !Listed(m, e.req) && Fresh(pre, e)
    ensures post.state == pre.state
    ensures e.served.Delivered? ==> e.work == None && IsStopped(e.req, e.served.reply, e.req.backupId)
  {
    ListedIffAdmitted(m, e.req);
  }

  /** The backup can be rolled back under this manifest: there is a whole record, made under the same manifest,
      and all modules it names are there. */
  ghost predicate IsOwnBackup(m: SysctlManifest, store: Store, x: BackupId) {
    && x in store && store[x].Whole? && store[x].snapshot.digest == m.digest
    && forall i :: 0 <= i < |store[x].snapshot.moduleIds| ==> HasModule(m, store[x].snapshot.moduleIds[i])
  }

  ghost predicate HasModule(m: SysctlManifest, id: string) {
    exists j :: 0 <= j < |m.modules| && m.modules[j].id == id
  }

  lemma {:induction false} ModuleIsNamed(m: SysctlManifest, id: string)
    ensures HasModule(m, id) <==> id in ModuleIds(m.modules)
  {
    if j :| 0 <= j < |m.modules| && m.modules[j].id == id {
      assert ModuleIds(m.modules)[j] == id;
    }
  }

  lemma {:induction false} OwnIffAccepted(m: SysctlManifest, store: Store, x: BackupId)
    ensures IsOwnBackup(m, store, x) <==> Accepted(m, store, x)
  {
    if x in store && store[x].Whole? {
      var ids := store[x].snapshot.moduleIds;
      forall i | 0 <= i < |ids| ensures HasModule(m, ids[i]) <==> ids[i] in ModuleIds(m.modules) {
        ModuleIsNamed(m, ids[i]);
      }
    }
  }

  /** What serving a rollback may do: nothing at all if a marker stands that is not this backup's, or if the
      backup is not one of this manifest; otherwise what a rollback may do. */
  lemma {:induction false} RollbackPolicyIsExact(m: SysctlManifest, req: ProductionRequest, pre: State, end: End, post: State,
                                                 cleared: Option<World>)
    requires Hosts(pre.world, m.modules) && req.action == RollbackBackup && req.backupId.Some?
    ensures IsOwnBackup(m, pre.store, req.backupId.value) ==> Knows(m, pre.store[req.backupId.value].snapshot.moduleIds)
    ensures var x := req.backupId.value;
            ExecuteSpec(m, req, pre, end, post, cleared) <==>
            if pre.marker !in {Clear, Required(x)} then
              && post == pre && cleared == None
              && (end.Returned? ==> pre.marker != Damaged && end.reply == Failure(req, RecoveryRequired, Some(pre.marker.id)))
            else if !IsOwnBackup(m, pre.store, x) then
              post == pre && cleared == None && (end.Returned? ==> end.reply == Failure(req, RollbackFailed, Some(x)))
            else
              AcceptedSpec(m, req, pre.store[x].snapshot, pre, end, post, cleared)
  {
    OwnIffAccepted(m, pre.store, req.backupId.value);
  }

  // ----- what a result says -----

  /** The status that goes with an error code, and the one without. */
  ghost predicate StatusFits(reply: Reply) {
    match reply.code
    case None => reply.status == Succeeded
    case Some(DeadlinePassed) => reply.status == TimedOut
    case Some(CallerCancelled) => reply.status == Cancelled
    case Some(_) => reply.status == Failed
  }

  /** A returned result answers its own request, with the status of its code. It names the modules that were
      worked on or asked for, and the backup: the one an apply made, the one a rollback was to restore, and, when
      recovery is required, the one that is marked. */
  lemma {:induction false} ResultsAreHonest(m: SysctlManifest, req: ProductionRequest, pre: State, end: End, post: State,
                                            cleared: Option<World>)
    requires Hosts(pre.world, m.modules) && ExecuteSpec(m, req, pre, end, post, cleared) && end.Returned?
    ensures end.reply.requestId == req.requestId && end.reply.action == req.action && StatusFits(end.reply)
    ensures end.reply.code == Some(ErrorCode.RecoveryRequired)
            ==> end.reply.backupId.Some? && post.marker == Required(end.reply.backupId.value)
    ensures end.reply.status != Succeeded ==> end.reply.moduleIds == req.moduleIds
    ensures end.reply.status == Succeeded && req.action != RollbackBackup
            ==> end.reply.moduleIds == req.moduleIds && end.reply.backupId == Some("backup-" + req.requestId)
    ensures req.action == RollbackBackup && end.reply.code != Some(ErrorCode.RecoveryRequired) ==> end.reply.backupId == req.backupId
    ensures end.reply.status == Succeeded && req.action == RollbackBackup
            ==> req.backupId.value in pre.store && pre.store[req.backupId.value].Whole?
                && end.reply.moduleIds == pre.store[req.backupId.value].snapshot.moduleIds
  {
    if req.action == RollbackBackup {
      RollbackResults(m, req, pre, end, post, cleared);
    } else if Knows(m, req.moduleIds) {
      ApplyResults(m, req, pre, end, post);
    }
  }

  lemma {:induction false} ApplyResults(m: SysctlManifest, req: ProductionRequest, pre: State, end: End, post: State)
    requires Knows(m, req.moduleIds) && Hosts(pre.world, m.modules) && ApplySpec(m, req, pre, end, post) && end.Returned?
    ensures end.reply.requestId == req.requestId && end.reply.action == req.action && StatusFits(end.reply)
    ensures end.reply.moduleIds == req.moduleIds
    ensures end.reply.code == Some(ErrorCode.RecoveryRequired)
            ==> end.reply.backupId.Some? && post.marker == Required(end.reply.backupId.value)
    ensures end.reply.status == Succeeded ==> end.reply.backupId == Some("backup-" + req.requestId)
  {
    var mods := Selected(m, req.moduleIds);
    SelectedIsHosted(m, pre.world, req.moduleIds);
    if pre.marker == Clear { UnlockedResults(req, mods, SnapshotOf(m, mods, pre.world), pre, end.reply, post); }
  }

  lemma {:induction false} UnlockedResults(req: ProductionRequest, mods: seq<SysctlModule>, snap: Snapshot, pre: State, reply: Reply,
                                           post: State)
    requires ApplyReturned(req, mods, snap, pre, reply, post)
    ensures reply.requestId == req.requestId && reply.action == req.action && StatusFits(reply) && reply.moduleIds == req.moduleIds
    ensures reply.code == Some(ErrorCode.RecoveryRequired) ==> reply.backupId.Some? && post.marker == Required(reply.backupId.value)
    ensures reply.status == Succeeded ==> reply.backupId == Some("backup-" + req.requestId)
  {
  }

  lemma {:induction false} RollbackResults(m: SysctlManifest, req: ProductionRequest, pre: State, end: End, post: State,
                                           cleared: Option<World>)
    requires req.backupId.Some? && Hosts(pre.world, m.modules) && RollbackSpec(m, req, pre, end, post, cleared) && end.Returned?
    ensures end.reply.requestId == req.requestId && end.reply.action == req.action && StatusFits(end.reply)
    ensures end.reply.status != Succeeded ==> end.reply.moduleIds == req.moduleIds
    ensures end.reply.code == Some(ErrorCode.RecoveryRequired)
            ==> end.reply.backupId.Some? && post.marker == Required(end.reply.backupId.value)
    ensures end.reply.code != Some(ErrorCode.RecoveryRequired) ==> end.reply.backupId == req.backupId
    ensures end.reply.status == Succeeded ==>
              && req.backupId.value in pre.store && pre.store[req.backupId.value].Whole?
              && end.reply.moduleIds == pre.store[req.backupId.value].snapshot.moduleIds
  {
    var x := req.backupId.value;
    if pre.marker in {Clear, Required(x)} && Accepted(m, pre.store, x) {
      var target := pre.store[x].snapshot;
      SelectedIsHosted(m, pre.world, target.moduleIds);
      AcceptedResults(req, target, SnapshotOf(m, Selected(m, target.moduleIds), pre.world), pre, end.reply, post, cleared);
    }
  }

  lemma {:induction false} AcceptedResults(req: ProductionRequest, target: Snapshot, recovery: Snapshot, pre: State, reply: Reply,
                                           post: State, cleared: Option<World>)
    requires req.backupId.Some? && RollbackReturned(req, target, recovery, pre, reply, post, cleared)
    ensures reply.requestId == req.requestId && reply.action == req.action && StatusFits(reply)
    ensures reply.moduleIds == if reply.status == Succeeded then target.moduleIds else req.moduleIds
    ensures reply.code == Some(ErrorCode.RecoveryRequired) ==> reply.backupId.Some? && post.marker == Required(reply.backupId.value)
    ensures reply.code != Some(ErrorCode.RecoveryRequired) ==> reply.backupId == req.backupId
  {
  }

  // ----- modules that may not be applied -----

  /** No listed apply names the module, neither alone nor in a sequence. */
  ghost predicate NeverListed(m: SysctlManifest, id: string) {
    id !in m.singleApply && forall i :: 0 <= i < |m.multiApply| ==> id !in m.multiApply[i]
  }

  ghost predicate NeverBackedUp(m: SysctlManifest, store: Store, id: string) {
    forall b :: b in store && Accepted(m, store, b) ==> id !in store[b].snapshot.moduleIds
  }

  /** The module's file and values are the same in both worlds. */
  ghost predicate SameModule(mod: SysctlModule, a: World, b: World) {
    && mod.target in a.files && mod.target in b.files && a.files[mod.target] == b.files[mod.target]
    && forall j :: 0 <= j < |mod.settings| ==>
         && mod.settings[j].key in a.values && mod.settings[j].key in b.values
         && a.values[mod.settings[j].key] == b.values[mod.settings[j].key]
  }

  /** The modules a request works on, if it gets to work at all. */
  ghost predicate WorksOn(m: SysctlManifest, pre: State, req: ProductionRequest, left: State, ids: seq<string>)
    requires Hosts(pre.world, m.modules)
  {
    && Knows(m, ids) && Hosts(pre.world, Selected(m, ids))
    && OnlyTouches(Selected(m, ids), pre.world, left.world)
    && StoreStep(pre.store, UncertainId(req), SnapshotOf(m, Selected(m, ids), pre.world), left.store)
  }

  lemma {:induction false} WorksOnListed(m: SysctlManifest, req: ProductionRequest, pre: State, w: Work) returns (ids: seq<string>)
    requires ValidManifest(m) && Hosts(pre.world, m.modules) && w.left != pre
    requires ExecuteSpec(m, req, pre, w.end, w.left, w.cleared)
    ensures WorksOn(m, pre, req, w.left, ids)
    ensures (Listed(m, req) && ids == req.moduleIds)
            || (req.backupId.Some? && Accepted(m, pre.store, req.backupId.value) && ids == pre.store[req.backupId.value].snapshot.moduleIds)
  {
    if req.action == RollbackBackup {
      ids := pre.store[req.backupId.value].snapshot.moduleIds;
    } else {
      PolicyIsExact(m, req, pre, w.end, w.left, w.cleared);
      ids := req.moduleIds;
    }
    SelectedIsHosted(m, pre.world, ids);
  }

  lemma {:induction false} UnlistedIsNotNamed(m: SysctlManifest, req: ProductionRequest, id: string)
    requires Listed(m, req) && NeverListed(m, id)
    ensures id !in req.moduleIds
  {
    if req.action == ApplyModule {
      var i :| 0 <= i < |m.singleApply| && req.moduleIds == [m.singleApply[i]];
    }
  }

  lemma {:induction false} UnlistedStays(m: SysctlManifest, other: nat, pre: System, e: Event, post: System)
    requires ValidManifest(m) && other < |m.modules| && NeverListed(m, m.modules[other].id) && Step(m, pre, e, post)
    requires NeverBackedUp(m, pre.state.store, m.modules[other].id)
    ensures NeverBackedUp(m, post.state.store, m.modules[other].id)
    ensures SameModule(m.modules[other], pre.state.world, post.state.world)
  {
    assert HostsModule(pre.state.world, m.modules[other]);
    if e.work.Some? && e.work.value.left != pre.state {
      var w := e.work.value;
      var ids := WorksOnListed(m, e.req, pre.state, w);
      if Listed(m, e.req) { UnlistedIsNotNamed(m, e.req, m.modules[other].id); }
      OtherModulesUntouched(m, ids, other, pre.state.world, w.left.world);
      OthersBackedUp(m, pre.state.store, ids, e.req, pre.state.world, w.left.store, m.modules[other].id);
    }
  }

  lemma {:induction false} OthersBackedUp(m: SysctlManifest, pre: Store, ids: seq<string>, req: ProductionRequest, w: World,
                                          post: Store, id: string)
    requires Knows(m, ids) && Hosts(w, Selected(m, ids)) && NeverBackedUp(m, pre, id) && id !in ids
    requires StoreStep(pre, UncertainId(req), SnapshotOf(m, Selected(m, ids), w), post)
    ensures NeverBackedUp(m, post, id)
  {
    forall b | b in post && Accepted(m, post, b) ensures id !in post[b].snapshot.moduleIds {
      if b in pre && post[b] == pre[b] {
        assert Accepted(m, pre, b);
      }
    }
  }

  /** A module that the manifest lists in no apply keeps its file and its values in every run, whatever is
      requested and however it ends, unless an old backup already names it. */
  lemma {:induction false} UnlistedModuleStays(m: SysctlManifest, systems: seq<System>, events: seq<Event>, other: nat, n: nat)
    requires ValidManifest(m) && Run(m, systems, events) && n <= |events| && Hosts(systems[0].state.world, m.modules)
    requires other < |m.modules| && NeverListed(m, m.modules[other].id)
    requires NeverBackedUp(m, systems[0].state.store, m.modules[other].id)
    ensures NeverBackedUp(m, systems[n].state.store, m.modules[other].id)
    ensures SameModule(m.modules[other], systems[0].state.world, systems[n].state.world)
  {
    if n == 0 {
      assert HostsModule(systems[0].state.world, m.modules[other]);
    } else {
      UnlistedModuleStays(m, systems, events, other, n - 1);
      assert StepAt(m, systems, events, n - 1);
      UnlistedStays(m, other, systems[n - 1], events[n - 1], systems[n]);
    }
  }

  // ----- what no request can touch -----

  /** Only files and keys of the manifest's modules differ. */
  ghost predicate OnlyManaged(m: SysctlManifest, a: World, b: World) {
    SameOutside(a, b, Elements(TargetList(m.modules)), Elements(KeyList(m.modules)))
  }

  lemma {:induction false} SelectedAreManaged(m: SysctlManifest, ids: seq<string>, a: World, b: World)
    requires Knows(m, ids) && OnlyTouches(Selected(m, ids), a, b)
    ensures OnlyManaged(m, a, b)
  {
    var mods := Selected(m, ids);
    forall p | p in TargetList(mods) ensures p in TargetList(m.modules) {
      var i :| 0 <= i < |mods| && TargetList(mods)[i] == p;
      var j :| 0 <= j < |m.modules| && m.modules[j] == mods[i];
      assert TargetList(m.modules)[j] == p;
    }
    forall k | k in KeyList(mods) ensures k in KeyList(m.modules) {
      var i, j := KeyComesFromModule(mods, k);
      var q :| 0 <= q < |m.modules| && m.modules[q] == mods[i];
      KeysAreListed(m.modules, q);
    }
  }

  lemma {:induction false} StepIsManaged(m: SysctlManifest, pre: System, e: Event, post: System)
    requires ValidManifest(m) && Step(m, pre, e, post)
    ensures OnlyManaged(m, pre.state.world, post.state.world)
  {
    if e.work.Some? && e.work.value.left != pre.state {
      var ids := WorksOnListed(m, e.req, pre.state, e.work.value);
      SelectedAreManaged(m, ids, pre.state.world, e.work.value.left.world);
    }
  }

  /** Over every run, whatever is requested and however it ends, files and values that no module of the manifest
      names stay as they are. */
  lemma {:induction false} OutsideStays(m: SysctlManifest, systems: seq<System>, events: seq<Event>, n: nat)
    requires ValidManifest(m) && Run(m, systems, events) && n <= |events|
    ensures OnlyManaged(m, systems[0].state.world, systems[n].state.world)
  {
    if n > 0 {
      OutsideStays(m, systems, events, n - 1);
      assert StepAt(m, systems, events, n - 1);
      StepIsManaged(m, systems[n - 1], events[n - 1], systems[n]);
    }
  }
}
