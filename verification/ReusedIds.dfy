/** What a taken backup ID costs, and from it the exact condition for any request, fresh or not. */
module ReusedIds {
  import opened Common
  import opened SysctlText
  import opened ProductionProtocol
  import opened SysctlManifests
  import ManifestLoader
  import opened TransactionModel
  import opened TransactionSpec
  import opened ProcessSpec
  import opened Lockout
  import opened LockoutRuns
  import opened LockoutLimits
  import opened BackupRecords

  /** An apply or rollback, let in on an unlocked host, whose own backup ID is taken. */
  ghost predicate Reuses(m: SysctlManifest, pre: System, req: ProductionRequest) {
    && pre.state.marker == Clear && UncertainId(req) in pre.state.store && Admitted(m, req)
    && if req.action == RollbackBackup then Accepted(m, pre.state.store, req.backupId.value) else Knows(m, req.moduleIds)
  }

  /** The modules it works on. */
  ghost function Affected(m: SysctlManifest, pre: System, req: ProductionRequest): seq<SysctlModule>
    requires Reuses(m, pre, req)
  {
    if req.action == RollbackBackup then Modules(m, pre, req.backupId.value) else Selected(m, req.moduleIds)
  }

  /** The old backup covers every file that a failed restore may leave behind: each present target that
      restoring the request's own snapshot would get to. An absent target stays absent. */
  ghost predicate OldBackupCovers(m: SysctlManifest, pre: State, id: BackupId, mods: seq<SysctlModule>) {
    forall i: nat :: RewritableAt(pre.world, TargetList(mods), i)
      ==> Accepted(m, pre.store, id) && TargetList(mods)[i] in Paths(pre.store[id].snapshot)
  }

  // ----- what such a request can do -----

  /** What is left of it: the same files, written again. */
  ghost predicate RewrittenOrMarked(m: SysctlManifest, pre: System, post: System, id: BackupId, mods: seq<SysctlModule>) {
    && post.clean == pre.clean && post.state.store == pre.state.store
    && OnlyTouches(mods, pre.state.world, post.state.world)
    && RewritesOnly(pre.state.world, post.state.world, TargetList(mods))
    && post.state.marker in {Clear, Required(id), Damaged}
    && (post.state.marker == Clear || !Eligible(pre.state.store, id) ==> Equivalent(pre.state.world, post.state.world))
  }

  /** When the ID is taken, the backup cannot be created and nothing is written but the same files again. */
  lemma {:induction false} ReusedApplyRewritesOnly(req: ProductionRequest, mods: seq<SysctlModule>, snap: Snapshot, pre: State,
                                                   w: Work, served: Served, post: State)
    requires UnlockedApplySpec(req, mods, snap, pre, w.end, w.left) && Handed(req, w, served, post)
    requires pre.marker == Clear && req.action in {ApplyModule, ApplyModules} && ApplyBackupId(req) in pre.store
    ensures !Succeeding(served) && post.store == pre.store
    ensures OnlyTouches(mods, pre.world, post.world) && RewritesOnly(pre.world, post.world, PathList(snap.files))
    ensures post.marker in {Clear, Required(ApplyBackupId(req)), Damaged}
    ensures post.marker == Clear && post.world != pre.world ==> Matches(post.world, snap)
    ensures !Eligible(pre.store, ApplyBackupId(req)) ==> post.world == pre.world
  {
  }

  /** The same for the backup that a rollback takes first. */
  lemma {:induction false} ReusedRollbackRewritesOnly(m: SysctlManifest, req: ProductionRequest, x: BackupId, pre: State,
                                                      w: Work, served: Served, post: State)
    requires req.action == RollbackBackup && req.backupId == Some(x) && Hosts(pre.world, m.modules) && Accepted(m, pre.store, x)
    requires AcceptedSpec(m, req, pre.store[x].snapshot, pre, w.end, w.left, w.cleared) && Handed(req, w, served, post)
    requires RecoveryBackupId(req) in pre.store
    ensures Hosts(pre.world, Selected(m, pre.store[x].snapshot.moduleIds))
    ensures var mods := Selected(m, pre.store[x].snapshot.moduleIds);
            var recovery := SnapshotOf(m, mods, pre.world);
            && !Succeeding(served) && post.store == pre.store && w.cleared == None
            && OnlyTouches(mods, pre.world, post.world) && RewritesOnly(pre.world, post.world, PathList(recovery.files))
            && (if pre.marker.Required? then post.marker == pre.marker else post.marker in {Clear, Required(RecoveryBackupId(req)), Damaged})
            && (pre.marker == Clear == post.marker && post.world != pre.world ==> Matches(post.world, recovery))
            && (!Eligible(pre.store, RecoveryBackupId(req)) ==> post.world == pre.world)
  {
    SelectedIsHosted(m, pre.world, pre.store[x].snapshot.moduleIds);
  }

  lemma {:induction false} ReusedApplyFacts(m: SysctlManifest, pre: System, e: Event, post: System)
    requires Inv(m, pre) && Step(m, pre, e, post) && Reuses(m, pre, e.req) && e.req.action != RollbackBackup
    ensures RewrittenOrMarked(m, pre, post, UncertainId(e.req), Affected(m, pre, e.req))
  {
    SelectedIsHosted(m, pre.state.world, e.req.moduleIds);
    if e.work.Some? {
      var mods := Selected(m, e.req.moduleIds);
      var snap := SnapshotOf(m, mods, pre.state.world);
      HostsLists(pre.state.world, mods);
      ReusedApplyRewritesOnly(e.req, mods, snap, pre.state, e.work.value, e.served, post.state);
      if post.state.marker == Clear && post.state.world != pre.state.world {
        RestoredIsEquivalent(m, mods, pre.state.world, post.state.world);
      }
    }
  }

  lemma {:induction false} ReusedRollbackFacts(m: SysctlManifest, pre: System, e: Event, post: System)
    requires Inv(m, pre) && Step(m, pre, e, post) && Reuses(m, pre, e.req) && e.req.action == RollbackBackup
    ensures RewrittenOrMarked(m, pre, post, UncertainId(e.req), Affected(m, pre, e.req))
  {
    var x := e.req.backupId.value;
    var mods := Modules(m, pre, x);
    SelectedIsHosted(m, pre.state.world, pre.state.store[x].snapshot.moduleIds);
    if e.work.Some? {
      HostsLists(pre.state.world, mods);
      ReusedRollbackRewritesOnly(m, e.req, x, pre.state, e.work.value, e.served, post.state);
      if post.state.marker == Clear && post.state.world != pre.state.world {
        RestoredIsEquivalent(m, mods, pre.state.world, post.state.world);
      }
    }
  }

  /** What was rewritten is covered by the old backup. */
  lemma {:induction false} RewrittenIsCovered(m: SysctlManifest, pre: State, id: BackupId, mods: seq<SysctlModule>, post: World)
    requires OldBackupCovers(m, pre, id, mods) && RewritesOnly(pre.world, post, TargetList(mods))
    requires post != pre.world
    ensures Accepted(m, pre.store, id) && SameOutside(pre.world, post, Paths(pre.store[id].snapshot), {})
  {
    var changed :| changed in pre.world.files && post.files[changed] != pre.world.files[changed];
    assert Rewritten(pre.world, post, TargetList(mods), changed);
    forall p | p in pre.world.files && post.files[p] != pre.world.files[p] ensures p in Paths(pre.store[id].snapshot) {
      assert Rewritten(pre.world, post, TargetList(mods), p);
    }
  }

  lemma {:induction false} CoveringReuseIsHarmless(m: SysctlManifest, pre: System, post: System, id: BackupId, mods: seq<SysctlModule>)
    requires Inv(m, pre) && pre.state.marker == Clear && RewrittenOrMarked(m, pre, post, id, mods)
    requires Eligible(pre.state.store, id) ==> OldBackupCovers(m, pre.state, id, mods)
    ensures Guarded(m, post)
  {
    if post.state.marker != Clear && Eligible(pre.state.store, id) && post.state.world != pre.state.world {
      RewrittenIsCovered(m, pre.state, id, mods, post.state.world);
      assert Guards(m, post, id);
    }
  }

  // ----- how it breaks the lockout -----

  /** Target `i` right after its bytes are renamed into place, while it still has the group of the process
      that wrote it. */
  ghost function Regrouped(w: World, path: Path): World
    requires path in w.files && w.files[path].Present?
  {
    w.(files := w.files[path := w.files[path].(gid := w.files[path].gid + 1)])
  }

  lemma {:induction false} RegroupedRewrites(mods: seq<SysctlModule>, w: World, i: nat)
    requires Hosts(w, mods) && RewritableAt(w, TargetList(mods), i)
    ensures var after := Regrouped(w, TargetList(mods)[i]);
            OnlyTouches(mods, w, after) && RewritesOnly(w, after, TargetList(mods))
  {
    var path := TargetList(mods)[i];
    assert Rewritten(w, Regrouped(w, path), TargetList(mods), path);
  }

  /** A change that the marked backup does not cover is unguarded. */
  lemma {:induction false} UncoveredChange(m: SysctlManifest, pre: System, post: System, path: Path)
    requires Guarded(m, pre) && pre.state.marker == Clear && post.clean == pre.clean && post.state.marker.Required?
    requires path in pre.state.world.files && path in post.state.world.files
    requires post.state.world.files[path] != pre.state.world.files[path]
    requires Accepted(m, post.state.store, post.state.marker.id) ==> path !in Paths(post.state.store[post.state.marker.id].snapshot)
    ensures !Guarded(m, post)
  {
    assert pre.clean.files[path] == pre.state.world.files[path];
  }

  /** Such changes, a death and the parent's mark. */
  ghost predicate DiesRewriting(m: SysctlManifest, pre: System, req: ProductionRequest, left: State) {
    && Inv(m, pre) && Reuses(m, pre, req) && Eligible(pre.state.store, UncertainId(req))
    && left == pre.state.(world := left.world)
    && OnlyTouches(Affected(m, pre, req), pre.state.world, left.world)
    && RewritesOnly(pre.state.world, left.world, TargetList(Affected(m, pre, req)))
  }

  lemma {:induction false} DyingApply(m: SysctlManifest, pre: System, req: ProductionRequest, left: State)
    requires DiesRewriting(m, pre, req, left) && req.action != RollbackBackup
    ensures ExecuteSpec(m, req, pre.state, Killed, left, None)
  {
    SelectedIsHosted(m, pre.state.world, req.moduleIds);
    HostsLists(pre.state.world, Selected(m, req.moduleIds));
    assert ApplyCutShort(req, SnapshotOf(m, Selected(m, req.moduleIds), pre.state.world), pre.state, left);
  }

  lemma {:induction false} DyingRollback(m: SysctlManifest, pre: System, req: ProductionRequest, left: State)
    requires DiesRewriting(m, pre, req, left) && req.action == RollbackBackup
    requires left.world != pre.state.world ==> AllSmall(Recovery(m, pre, req.backupId.value).files)
    ensures ExecuteSpec(m, req, pre.state, Killed, left, None)
  {
    var x := req.backupId.value;
    SelectedIsHosted(m, pre.state.world, pre.state.store[x].snapshot.moduleIds);
    HostsLists(pre.state.world, Modules(m, pre, x));
    assert AcceptedSpec(m, req, pre.state.store[x].snapshot, pre.state, Killed, left, None);
  }

  lemma {:induction false} ReadableIsSmall(m: SysctlManifest, pre: System, x: BackupId, i: nat)
    requires Hosts(pre.state.world, m.modules) && Accepted(m, pre.state.store, x)
    requires RewritableAt(pre.state.world, TargetList(Modules(m, pre, x)), i)
    ensures AllSmall(Recovery(m, pre, x).files)
  {
    SelectedIsHosted(m, pre.state.world, pre.state.store[x].snapshot.moduleIds);
  }

  lemma {:induction false} DyingStep(m: SysctlManifest, pre: System, e: Event, left: State, post: System)
    requires Hosts(pre.state.world, m.modules) && left.marker == Clear && Eligible(left.store, UncertainId(e.req)) && Mutating(e.req)
    requires e == Event(e.req, Some(Work(Killed, left, None)), Refused(Some(UncertainId(e.req))))
    requires ExecuteSpec(m, e.req, pre.state, Killed, left, None)
    requires post == System(left.(marker := Required(UncertainId(e.req))), pre.clean)
    ensures Step(m, pre, e, post)
  {
  }

  /** A worker killed while it rewrites target `i`, and the parent marking the old backup. */
  lemma {:induction false} UncoveredReuse(m: SysctlManifest, pre: System, req: ProductionRequest, i: nat) returns (e: Event, post: System)
    requires Inv(m, pre) && Reuses(m, pre, req) && Eligible(pre.state.store, UncertainId(req))
    requires RewritableAt(pre.state.world, TargetList(Affected(m, pre, req)), i)
    requires Accepted(m, pre.state.store, UncertainId(req))
             ==> TargetList(Affected(m, pre, req))[i] !in Paths(pre.state.store[UncertainId(req)].snapshot)
    ensures Step(m, pre, e, post) && e.req == req && !Guarded(m, post)
  {
    var mods, w := Affected(m, pre, req), pre.state.world;
    var ids := if req.action == RollbackBackup then pre.state.store[req.backupId.value].snapshot.moduleIds else req.moduleIds;
    SelectedIsHosted(m, w, ids);
    HostsLists(w, mods);
    var path := TargetList(mods)[i];
    RegroupedRewrites(mods, w, i);
    var left := pre.state.(world := Regrouped(w, path));
    e := Event(req, Some(Work(Killed, left, None)), Refused(Some(UncertainId(req))));
    post := System(left.(marker := Required(UncertainId(req))), pre.clean);
    if req.action == RollbackBackup {
      ReadableIsSmall(m, pre, req.backupId.value, i);
      DyingRollback(m, pre, req, left);
    } else {
      DyingApply(m, pre, req, left);
    }
    DyingStep(m, pre, e, left, post);
    UncoveredChange(m, pre, post, path);
  }

  /** Serving an apply or rollback whose own backup ID is taken keeps the lockout in every case exactly when no
      eligible backup has the ID, or the one that has it covers every present file the request would rewrite. */
  lemma {:induction false} ReuseIsHarmlessIff(m: SysctlManifest, pre: System, req: ProductionRequest)
    requires Inv(m, pre) && Reuses(m, pre, req)
    ensures AlwaysGuarded(m, pre, req)
            <==> (Eligible(pre.state.store, UncertainId(req)) ==> OldBackupCovers(m, pre.state, UncertainId(req), Affected(m, pre, req)))
  {
    var mods, b := Affected(m, pre, req), UncertainId(req);
    if Eligible(pre.state.store, b) && !OldBackupCovers(m, pre.state, b, mods) {
      var i: nat :| RewritableAt(pre.state.world, TargetList(mods), i)
        && !(Accepted(m, pre.state.store, b) && TargetList(mods)[i] in Paths(pre.state.store[b].snapshot));
      var e, post := UncoveredReuse(m, pre, req, i);
    } else {
      forall e, post | Step(m, pre, e, post) && e.req == req ensures Guarded(m, post) {
        if req.action == RollbackBackup {
          ReusedRollbackFacts(m, pre, e, post);
        } else {
          ReusedApplyFacts(m, pre, e, post);
        }
        CoveringReuseIsHarmless(m, pre, post, b, mods);
      }
    }
  }

  // ----- any request -----

  /** A request whose own backup ID belongs to an eligible backup that misses a file it would rewrite. */
  ghost predicate Misleads(m: SysctlManifest, pre: System, req: ProductionRequest) {
    && Reuses(m, pre, req) && Eligible(pre.state.store, UncertainId(req))
    && !OldBackupCovers(m, pre.state, UncertainId(req), Affected(m, pre, req))
  }

  /** Nothing happens but that the parent may mark a backup. */
  lemma {:induction false} IdleIsGuarded(m: SysctlManifest, pre: System, e: Event, post: System)
    requires Inv(m, pre) && Step(m, pre, e, post)
    requires e.work.Some? ==> e.work.value.left == pre.state && !Succeeding(e.served)
    ensures Guarded(m, post)
  {
    assert post.clean == pre.clean && post.state.world == pre.state.world && post.state.store == pre.state.store;
    if pre.state.marker == Clear {
      assert Equivalent(pre.clean, pre.state.world);
    } else {
      assert post.state == pre.state;
      assert post == pre;
    }
  }

  lemma {:induction false} NotLetInIsIdle(m: SysctlManifest, pre: System, e: Event, w: Work, post: System)
    requires Step(m, pre, e, post) && e.work == Some(w)
    requires || !Admitted(m, e.req)
             || (e.req.action != RollbackBackup && (pre.state.marker != Clear || !Knows(m, e.req.moduleIds)))
             || (e.req.action == RollbackBackup && (pre.state.marker !in {Clear, Required(e.req.backupId.value)}
                                                    || !Accepted(m, pre.state.store, e.req.backupId.value)))
    ensures w.left == pre.state && !Succeeding(e.served)
  {
  }

  /** Under the marker of its own target, a rollback with a taken ID rewrites within what the marker guards. */
  lemma {:induction false} LockedReuseIsGuarded(m: SysctlManifest, pre: System, e: Event, w: Work, x: BackupId, post: System)
    requires Inv(m, pre) && Step(m, pre, e, post) && e.work == Some(w)
    requires Recovers(m, pre, e.req, x) && RecoveryBackupId(e.req) in pre.state.store
    ensures Guarded(m, post)
  {
    CoveredByTarget(m, pre, x);
    ReusedRollbackRewritesOnly(m, e.req, x, pre.state, w, e.served, post.state);
    assert Guards(m, pre, x);
    GuardStays(m, pre, post, x);
  }

  lemma {:induction false} OtherReuseIsGuarded(m: SysctlManifest, pre: System, e: Event, post: System)
    requires Inv(m, pre) && Step(m, pre, e, post) && UncertainId(e.req) in pre.state.store && !Reuses(m, pre, e.req)
    ensures Guarded(m, post)
  {
    if e.work.None? {
      IdleIsGuarded(m, pre, e, post);
    } else if Admitted(m, e.req) && e.req.action == RollbackBackup && Recovers(m, pre, e.req, e.req.backupId.value) {
      LockedReuseIsGuarded(m, pre, e, e.work.value, e.req.backupId.value, post);
    } else {
      NotLetInIsIdle(m, pre, e, e.work.value, post);
      IdleIsGuarded(m, pre, e, post);
    }
  }

  /** Before any request at all: every way to serve it keeps the lockout, if and only if it cannot lose the
      marker and its own backup ID does not mislead the handlers. */
  lemma {:induction false} EveryRequestIff(m: SysctlManifest, pre: System, req: ProductionRequest)
    requires Inv(m, pre) && SeparateStore(m, pre.state.store)
    ensures AlwaysGuarded(m, pre, req) <==> !CanLoseMarker(m, pre, req) && !Misleads(m, pre, req)
  {
    if UncertainId(req) !in pre.state.store {
      AlwaysGuardedIff(m, pre, req);
    } else if Reuses(m, pre, req) {
      ReuseIsHarmlessIff(m, pre, req);
    } else {
      forall e, post | Step(m, pre, e, post) && e.req == req ensures Guarded(m, post) {
        OtherReuseIsGuarded(m, pre, e, post);
      }
    }
  }

  /** No request of the run can lose the marker or be misled. */
  ghost predicate NoHazards(m: SysctlManifest, systems: seq<System>, events: seq<Event>)
    requires |systems| == |events| + 1
  {
    forall i :: 0 <= i < |events| ==>
      && Hosts(systems[i].state.world, m.modules)
      && !CanLoseMarker(m, systems[i], events[i].req) && !Misleads(m, systems[i], events[i].req)
  }

  lemma {:induction false} HazardlessAt(m: SysctlManifest, systems: seq<System>, events: seq<Event>, i: nat)
    requires Run(m, systems, events) && NoHazards(m, systems, events) && i < |events|
    requires Inv(m, systems[i]) && SeparateStore(m, systems[i].state.store)
    ensures Inv(m, systems[i + 1])
  {
    assert StepAt(m, systems, events, i);
    EveryRequestIff(m, systems[i], events[i].req);
    StepKeepsSound(m, systems[i], events[i], systems[i + 1]);
  }

  /** So any run of a valid manifest without such requests, fresh or not, keeps the lockout throughout. */
  lemma {:induction false} HazardlessRunsAreSafe(m: SysctlManifest, systems: seq<System>, events: seq<Event>, n: nat)
    requires ManifestLoader.ValidManifest(m) && Run(m, systems, events) && NoHazards(m, systems, events) && n <= |events|
    requires Inv(m, systems[0]) && DistinctModules(m, systems[0].state.store)
    ensures Inv(m, systems[n])
  {
    if n > 0 {
      HazardlessRunsAreSafe(m, systems, events, n - 1);
      RunStaysOrderly(m, systems, events, n - 1);
      HazardlessAt(m, systems, events, n - 1);
    }
  }

  // ----- runs that keep the marked backup clean, too -----

  /** All requests are fresh, and none rolls the marked backup back on an unclean host that can be restored. */
  ghost predicate NeverRecoversUnclean(m: SysctlManifest, systems: seq<System>, events: seq<Event>)
    requires |systems| == |events| + 1
  {
    AllFresh(systems, events) && forall i :: 0 <= i < |events| ==>
      Hosts(systems[i].state.world, m.modules) && !CanMarkUnclean(m, systems[i], events[i].req)
  }

  lemma {:induction false} TrustAt(m: SysctlManifest, systems: seq<System>, events: seq<Event>, i: nat)
    requires Run(m, systems, events) && NeverRecoversUnclean(m, systems, events) && i < |events|
    requires Inv(m, systems[i]) && Trusted(systems[i]) && SeparateStore(m, systems[i].state.store)
    ensures Inv(m, systems[i + 1]) && Trusted(systems[i + 1])
  {
    assert StepAt(m, systems, events, i);
    var req := events[i].req;
    assert !CanLoseMarker(m, systems[i], req) by {
      assert !CanMarkUnclean(m, systems[i], req);
    }
    AlwaysGuardedIff(m, systems[i], req);
    AlwaysTrustedIff(m, systems[i], req);
    StepKeepsSound(m, systems[i], events[i], systems[i + 1]);
  }

  lemma {:induction false} SafeRequestsKeepTheLockout(m: SysctlManifest, systems: seq<System>, events: seq<Event>, n: nat)
    requires ManifestLoader.ValidManifest(m) && Run(m, systems, events) && NeverRecoversUnclean(m, systems, events) && n <= |events|
    requires Inv(m, systems[0]) && Trusted(systems[0]) && DistinctModules(m, systems[0].state.store)
    ensures Inv(m, systems[n]) && Trusted(systems[n])
  {
    if n > 0 {
      SafeRequestsKeepTheLockout(m, systems, events, n - 1);
      RunStaysOrderly(m, systems, events, n - 1);
      TrustAt(m, systems, events, n - 1);
    }
  }
}
