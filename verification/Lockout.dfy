/** Lockout over whole runs: whatever fails, is cancelled or dies, a state that differs from the last
    clean one is locked behind a marker whose backup covers every difference. */
module Lockout {
  import opened Common
  import opened SysctlText
  import opened ProductionProtocol
  import opened SysctlManifests
  import opened TransactionModel
  import opened TransactionSpec
  import opened ProcessSpec

  /** The host, and the world after the last request whose success was delivered. */
  datatype System = System(state: State, clean: World)

  /** One request as the run records it. */
  datatype Event = Event(req: ProductionRequest, work: Option<Work>, served: Served)

  predicate Succeeding(served: Served) {
    served.Delivered? && served.reply.status == Succeeded
  }

  ghost predicate Step(m: SysctlManifest, pre: System, e: Event, post: System) {
    && Hosts(pre.state.world, m.modules)
    && ServeSpec(m, e.req, pre.state, e.work, e.served, post.state)
    && post.clean == if Succeeding(e.served) then post.state.world else pre.clean
  }

  /** The request's backup ID is unused; the replay registry and the random ID see to that. */
  predicate Fresh(sys: System, e: Event) {
    UncertainId(e.req) !in sys.state.store
  }

  // ----- the invariant -----

  /** The world differs from the clean one only in resources that the eligible backup `id` covers, and
      a marker stands: it names `id`, or it is unreadable and blocks everything. */
  ghost predicate Guards(m: SysctlManifest, sys: System, id: BackupId) {
    && Accepted(m, sys.state.store, id)
    && sys.state.marker in {Required(id), Damaged}
    && var snap := sys.state.store[id].snapshot;
       EquivalentOutside(sys.clean, sys.state.world, Paths(snap), Keys(snap))
  }

  ghost predicate Guarded(m: SysctlManifest, sys: System) {
    Equivalent(sys.clean, sys.state.world) || exists id :: Guards(m, sys, id)
  }

  ghost predicate Sound(m: SysctlManifest, sys: System) {
    Hosts(sys.state.world, m.modules) && StoreWellFormed(m, sys.state.store)
  }

  ghost predicate Inv(m: SysctlManifest, sys: System) {
    Sound(m, sys) && Guarded(m, sys)
  }

  /** A rollback unlinked the marker, failed afterwards (only syncing the directory can), and put the
      state from before the rollback back: the request answers `rollback_failed` with no marker left. */
  predicate MarkerLost(e: Event) {
    && e.work.Some? && e.work.value.cleared.Some?
    && e.served.Delivered?
    && e.served.reply.code == Some(ErrorCode.RollbackFailed)
  }

  // ----- one step -----

  lemma HostsAfter(m: SysctlManifest, pre: World, post: World)
    requires Hosts(pre, m.modules)
    requires pre.files.Keys == post.files.Keys && pre.values.Keys == post.values.Keys
    ensures Hosts(post, m.modules)
  {
    forall i | 0 <= i < |m.modules| ensures HostsModule(post, m.modules[i]) {
      assert HostsModule(pre, m.modules[i]);
    }
  }

  /** A snapshot taken by the engine is a well-formed backup of its manifest. */
  lemma SnapshotIsWellFormed(m: SysctlManifest, ids: seq<string>, w: World)
    requires Knows(m, ids) && Hosts(w, m.modules)
    ensures Hosts(w, Selected(m, ids))
    ensures var snap := SnapshotOf(m, Selected(m, ids), w);
            snap.digest == m.digest && snap.moduleIds == ids && WellFormed(m, snap)
  {
    SelectedIsHosted(m, w, ids);
    HostsLists(w, Selected(m, ids));
  }

  lemma StoreStaysWellFormed(m: SysctlManifest, ids: seq<string>, w: World, pre: Store, id: BackupId, post: Store)
    requires Knows(m, ids) && Hosts(w, m.modules) && Hosts(w, Selected(m, ids))
    requires StoreWellFormed(m, pre) && StoreStep(pre, id, SnapshotOf(m, Selected(m, ids), w), post)
    ensures StoreWellFormed(m, post)
  {
    SnapshotIsWellFormed(m, ids, w);
    forall i | i in post && Accepted(m, post, i) ensures WellFormed(m, post[i].snapshot) {
      if i in pre && post[i] == pre[i] {
        assert Accepted(m, pre, i);
      }
    }
  }

  /** The worker alone keeps the host and the store sound. */
  lemma WorkKeepsSound(m: SysctlManifest, req: ProductionRequest, pre: State, w: Work)
    requires Hosts(pre.world, m.modules) && StoreWellFormed(m, pre.store)
    requires ExecuteSpec(m, req, pre, w.end, w.left, w.cleared)
    ensures Hosts(w.left.world, m.modules) && StoreWellFormed(m, w.left.store)
  {
    if w.left != pre {
      var ids := if req.action == RollbackBackup then pre.store[req.backupId.value].snapshot.moduleIds else req.moduleIds;
      SnapshotIsWellFormed(m, ids, pre.world);
      StoreStaysWellFormed(m, ids, pre.world, pre.store, UncertainId(req), w.left.store);
      HostsAfter(m, pre.world, w.left.world);
    }
  }

  lemma StepKeepsSound(m: SysctlManifest, pre: System, e: Event, post: System)
    requires Sound(m, pre) && Step(m, pre, e, post)
    ensures Sound(m, post)
  {
    if e.work.Some? {
      WorkKeepsSound(m, e.req, pre.state, e.work.value);
    }
  }

  /** What the covered set of a request is, and that its own backup would guard it. */
  lemma OwnBackupGuards(m: SysctlManifest, ids: seq<string>, pre: System, post: System, id: BackupId)
    requires Sound(m, pre) && Knows(m, ids) && Hosts(pre.state.world, Selected(m, ids))
    requires id !in pre.state.store
    requires post.state.store == pre.state.store[id := Whole(SnapshotOf(m, Selected(m, ids), pre.state.world))]
    requires OnlyTouches(Selected(m, ids), pre.state.world, post.state.world)
    requires EquivalentOutside(pre.clean, pre.state.world, Elements(TargetList(Selected(m, ids))), Elements(KeyList(Selected(m, ids))))
    requires post.clean == pre.clean && post.state.marker in {Required(id), Damaged}
    ensures Guards(m, post, id)
  {
    SnapshotIsWellFormed(m, ids, pre.state.world);
    assert Accepted(m, post.state.store, id);
    assert post.state.store[id].snapshot == SnapshotOf(m, Selected(m, ids), pre.state.world);
  }

  /** Guarding survives a step that touches only what the guard covers and keeps marker and store entry. */
  lemma GuardStays(m: SysctlManifest, pre: System, post: System, id: BackupId)
    requires Guards(m, pre, id) && post.clean == pre.clean && post.state.marker == pre.state.marker
    requires id in post.state.store && post.state.store[id] == pre.state.store[id]
    requires SameOutside(pre.state.world, post.state.world, Paths(pre.state.store[id].snapshot), Keys(pre.state.store[id].snapshot))
    ensures Guards(m, post, id)
  {
  }

  // ----- an apply -----

  /** The facts of an apply that found no marker. */
  ghost predicate Applied(m: SysctlManifest, pre: System, e: Event, w: Work, mods: seq<SysctlModule>, snap: Snapshot, post: System)
    requires Hosts(pre.state.world, mods)
  {
    && pre.state.marker == Clear
    && e.req.action in {ApplyModule, ApplyModules}
    && Fresh(pre, e)
    && snap == SnapshotOf(m, mods, pre.state.world)
    && UnlockedApplySpec(e.req, mods, snap, pre.state, w.end, w.left)
    && Handed(e.req, w, e.served, post.state)
    && post.clean == if Succeeding(e.served) then post.state.world else pre.clean
  }

  /** It succeeded, or put everything back, or left its own backup in charge. */
  lemma ApplyOutcome(m: SysctlManifest, pre: System, e: Event, w: Work, mods: seq<SysctlModule>, snap: Snapshot, post: System)
    requires Hosts(pre.state.world, mods) && Applied(m, pre, e, w, mods, snap, post)
    requires !Succeeding(e.served)
    ensures OnlyTouches(mods, pre.state.world, post.state.world)
    ensures || post.state.world == pre.state.world
            || Matches(post.state.world, snap)
            || (post.state.store == pre.state.store[ApplyBackupId(e.req) := Whole(snap)]
                && post.state.marker in {Required(ApplyBackupId(e.req)), Damaged})
  {
  }

  /** An apply keeps the lockout: with a marker it does nothing, without one it starts from the clean
      world and either succeeds, puts everything back, or leaves its own backup in charge. */
  lemma ApplyKeepsGuard(m: SysctlManifest, pre: System, e: Event, post: System)
    requires Inv(m, pre) && Step(m, pre, e, post) && Fresh(pre, e)
    requires e.work.Some? && e.req.action in {ApplyModule, ApplyModules}
    ensures Guarded(m, post)
  {
    var w := e.work.value;
    if pre.state == w.left || pre.state.marker != Clear || !Knows(m, e.req.moduleIds) {
      IdleKeepsGuard(m, pre, e, post);
    } else if !Succeeding(e.served) {
      SnapshotIsWellFormed(m, e.req.moduleIds, pre.state.world);
      var mods := Selected(m, e.req.moduleIds);
      var snap := SnapshotOf(m, mods, pre.state.world);
      ApplyOutcome(m, pre, e, w, mods, snap, post);
      if Matches(post.state.world, snap) {
        RestoredIsEquivalent(m, mods, pre.state.world, post.state.world);
      } else if post.state.world != pre.state.world {
        OwnBackupGuards(m, e.req.moduleIds, pre, post, ApplyBackupId(e.req));
      }
    }
  }

  /** If the worker changed nothing, a fresh request leaves nothing to mark. */
  lemma IdleKeepsGuard(m: SysctlManifest, pre: System, e: Event, post: System)
    requires Inv(m, pre) && Step(m, pre, e, post) && Fresh(pre, e)
    requires e.work.Some? ==> e.work.value.left == pre.state
    ensures Guarded(m, post)
  {
    if !Succeeding(e.served) {
      assert post == pre;
    }
  }

  // ----- a rollback -----

  /** The facts of a rollback of `x` that was let in. */
  ghost predicate RolledBack(m: SysctlManifest, pre: System, e: Event, w: Work, x: BackupId, post: System)
    requires Hosts(pre.state.world, m.modules)
  {
    && e.req.action == RollbackBackup && e.req.backupId == Some(x)
    && e.work == Some(w)
    && pre.state.marker in {Clear, Required(x)}
    && Accepted(m, pre.state.store, x)
    && Fresh(pre, e)
    && AcceptedSpec(m, e.req, pre.state.store[x].snapshot, pre.state, w.end, w.left, w.cleared)
    && Handed(e.req, w, e.served, post.state)
    && !Succeeding(e.served)
    && post.clean == pre.clean
  }

  /** The modules a rollback of `x` works on, and the snapshot it takes of them first. */
  ghost function Modules(m: SysctlManifest, sys: System, x: BackupId): seq<SysctlModule>
    requires Accepted(m, sys.state.store, x)
  {
    Selected(m, sys.state.store[x].snapshot.moduleIds)
  }

  ghost function Recovery(m: SysctlManifest, sys: System, x: BackupId): Snapshot
    requires Accepted(m, sys.state.store, x) && Hosts(sys.state.world, m.modules)
  {
    SelectedIsHosted(m, sys.state.world, sys.state.store[x].snapshot.moduleIds);
    SnapshotOf(m, Modules(m, sys, x), sys.state.world)
  }

  /** Before a rollback of `x` is let in, every difference from the clean world lies within `x`. */
  lemma CoveredByTarget(m: SysctlManifest, pre: System, x: BackupId)
    requires Inv(m, pre) && pre.state.marker in {Clear, Required(x)} && Accepted(m, pre.state.store, x)
    ensures var snap := pre.state.store[x].snapshot;
            && EquivalentOutside(pre.clean, pre.state.world, Paths(snap), Keys(snap))
            && Paths(snap) == Elements(TargetList(Modules(m, pre, x)))
            && Keys(snap) == Elements(KeyList(Modules(m, pre, x)))
  {
    TargetIsHosted(m, pre.state.world, pre.state.store[x].snapshot);
    if !Equivalent(pre.clean, pre.state.world) {
      var id :| Guards(m, pre, id);
    }
  }

  /** A marker that a rollback did not find standing rests on the rollback's own recovery backup. */
  lemma RecoveryIsHeld(m: SysctlManifest, pre: System, e: Event, w: Work, x: BackupId, post: System)
    requires Sound(m, pre) && RolledBack(m, pre, e, w, x, post)
    requires pre.state.marker == Clear || w.cleared.Some?
    requires post.state.marker != Clear
    ensures var r := RecoveryBackupId(e.req);
            && post.state.store == pre.state.store[r := Whole(Recovery(m, pre, x))]
            && post.state.marker in {Required(r), Damaged}
            && OnlyTouches(Modules(m, pre, x), pre.state.world, post.state.world)
  {
  }

  /** A failed rollback that leaves no marker has put the state from before it back. */
  lemma ClearMeansUndone(m: SysctlManifest, pre: System, e: Event, w: Work, x: BackupId, post: System)
    requires Sound(m, pre) && RolledBack(m, pre, e, w, x, post)
    requires post.state.marker == Clear
    ensures OnlyTouches(Modules(m, pre, x), pre.state.world, post.state.world)
    ensures post.state.world != pre.state.world ==> Matches(post.state.world, Recovery(m, pre, x))
    ensures pre.state.marker != Clear ==> MarkerLost(e)
  {
  }

  /** A rollback that does not succeed keeps the lockout unless it loses the marker of an unclean world. */
  lemma FailedRollbackKeepsGuard(m: SysctlManifest, pre: System, e: Event, w: Work, x: BackupId, post: System)
    requires Inv(m, pre) && RolledBack(m, pre, e, w, x, post)
    requires !(MarkerLost(e) && !Equivalent(pre.clean, pre.state.world))
    ensures Guarded(m, post)
  {
    CoveredByTarget(m, pre, x);
    SelectedIsHosted(m, pre.state.world, pre.state.store[x].snapshot.moduleIds);
    if pre.state.marker == Required(x) && w.cleared.None? {
      assert Guards(m, pre, x);
      GuardStays(m, pre, post, x);
    } else if post.state.marker != Clear {
      RecoveryIsHeld(m, pre, e, w, x, post);
      OwnBackupGuards(m, pre.state.store[x].snapshot.moduleIds, pre, post, RecoveryBackupId(e.req));
    } else {
      ClearMeansUndone(m, pre, e, w, x, post);
      if post.state.world != pre.state.world {
        RestoredIsEquivalent(m, Modules(m, pre, x), pre.state.world, post.state.world);
      }
    }
  }

  lemma RollbackKeepsGuard(m: SysctlManifest, pre: System, e: Event, post: System)
    requires Inv(m, pre) && Step(m, pre, e, post) && Fresh(pre, e)
    requires e.work.Some? && e.req.action == RollbackBackup && e.req.backupId.Some?
    requires !(MarkerLost(e) && !Equivalent(pre.clean, pre.state.world))
    ensures Guarded(m, post)
  {
    var w, x := e.work.value, e.req.backupId.value;
    if pre.state == w.left || pre.state.marker !in {Clear, Required(x)} || !Accepted(m, pre.state.store, x) {
      IdleKeepsGuard(m, pre, e, post);
    } else if !Succeeding(e.served) {
      FailedRollbackKeepsGuard(m, pre, e, w, x, post);
    }
  }

  /** Losing the marker of an unclean world is exactly what breaks the lockout. */
  lemma LosingTheMarkerUnlocks(m: SysctlManifest, pre: System, e: Event, post: System)
    requires Inv(m, pre) && Step(m, pre, e, post) && Fresh(pre, e)
    requires MarkerLost(e) && !Equivalent(pre.clean, pre.state.world)
    ensures post.state.marker == Clear && !Guarded(m, post)
  {
    var w, x := e.work.value, e.req.backupId.value;
    ClearMeansUndone(m, pre, e, w, x, post);
    if post.state.world != pre.state.world {
      SelectedIsHosted(m, pre.state.world, pre.state.store[x].snapshot.moduleIds);
      RestoredIsEquivalent(m, Modules(m, pre, x), pre.state.world, post.state.world);
    }
    if Equivalent(post.clean, post.state.world) {
      assert Equivalent(pre.clean, pre.state.world);
    }
  }

  /** One request keeps the lockout if and only if it does not lose the marker of an unclean world. */
  lemma StepKeepsGuard(m: SysctlManifest, pre: System, e: Event, post: System)
    requires Inv(m, pre) && Step(m, pre, e, post) && Fresh(pre, e)
    ensures Inv(m, post) <==> !(MarkerLost(e) && !Equivalent(pre.clean, pre.state.world))
  {
    StepKeepsSound(m, pre, e, post);
    if MarkerLost(e) && !Equivalent(pre.clean, pre.state.world) {
      LosingTheMarkerUnlocks(m, pre, e, post);
    } else if e.work.None? || !Admitted(m, e.req) {
      IdleKeepsGuard(m, pre, e, post);
    } else if e.req.action == RollbackBackup {
      RollbackKeepsGuard(m, pre, e, post);
    } else {
      ApplyKeepsGuard(m, pre, e, post);
    }
  }
}
