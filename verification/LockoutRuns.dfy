/** Whole runs of requests: the lockout, the life of the marker, and what rolling back gives. */
module LockoutRuns {
  import opened Common
  import opened SysctlText
  import opened ProductionProtocol
  import opened SysctlManifests
  import opened TransactionModel
  import opened TransactionSpec
  import opened ProcessSpec
  import opened Lockout

  /** Requests are served one at a time. */
  ghost predicate Run(m: SysctlManifest, systems: seq<System>, events: seq<Event>) {
    && |systems| == |events| + 1
    && forall i :: 0 <= i < |events| ==> StepAt(m, systems, events, i)
  }

  ghost predicate StepAt(m: SysctlManifest, systems: seq<System>, events: seq<Event>, i: nat)
    requires |systems| == |events| + 1 && i < |events|
  {
    Step(m, systems[i], events[i], systems[i + 1])
  }

  lemma {:induction false} RunExtends(m: SysctlManifest, systems: seq<System>, events: seq<Event>, e: Event, after: System)
    requires Run(m, systems, events) && Step(m, systems[|events|], e, after)
    ensures Run(m, systems + [after], events + [e])
  {
    var ss, es := systems + [after], events + [e];
    forall i | 0 <= i < |es| ensures StepAt(m, ss, es, i) {
      if i < |events| {
        assert StepAt(m, systems, events, i);
      }
    }
  }

  ghost predicate AllFresh(systems: seq<System>, events: seq<Event>)
    requires |systems| == |events| + 1
  {
    forall i :: 0 <= i < |events| ==> Fresh(systems[i], events[i])
  }

  /** Event `i` lost the marker of a world that was not clean. */
  ghost predicate LosesAt(systems: seq<System>, events: seq<Event>, i: nat)
    requires |systems| == |events| + 1 && i < |events|
  {
    MarkerLost(events[i]) && !Equivalent(systems[i].clean, systems[i].state.world)
  }

  lemma {:induction false} InvAt(m: SysctlManifest, systems: seq<System>, events: seq<Event>, i: nat)
    requires Run(m, systems, events) && AllFresh(systems, events) && i < |events| && Inv(m, systems[i])
    ensures Inv(m, systems[i + 1]) <==> !LosesAt(systems, events, i)
  {
    assert StepAt(m, systems, events, i);
    StepKeepsGuard(m, systems[i], events[i], systems[i + 1]);
  }

  lemma {:induction false} InvUntil(m: SysctlManifest, systems: seq<System>, events: seq<Event>, n: nat)
    requires Run(m, systems, events) && AllFresh(systems, events) && n <= |events|
    requires Inv(m, systems[0])
    requires forall i :: 0 <= i < n ==> !LosesAt(systems, events, i)
    ensures Inv(m, systems[n])
  {
    if n > 0 {
      InvUntil(m, systems, events, n - 1);
      InvAt(m, systems, events, n - 1);
    }
  }

  /** Lockout safety: over a whole run, every state between requests is clean or locked behind a backup
      that covers every difference, if and only if no rollback lost the marker of an unclean world. */
  lemma LockoutSafety(m: SysctlManifest, systems: seq<System>, events: seq<Event>)
    requires Run(m, systems, events) && AllFresh(systems, events)
    requires Inv(m, systems[0])
    ensures (forall i :: 0 <= i < |systems| ==> Inv(m, systems[i]))
            <==> (forall i :: 0 <= i < |events| ==> !LosesAt(systems, events, i))
  {
    if forall i :: 0 <= i < |events| ==> !LosesAt(systems, events, i) {
      forall n | 0 <= n < |systems| ensures Inv(m, systems[n]) {
        InvUntil(m, systems, events, n);
      }
    } else {
      var i :| 0 <= i < |events| && LosesAt(systems, events, i);
      if Inv(m, systems[i]) {
        InvAt(m, systems, events, i);
      }
    }
  }

  // ----- the life of the marker -----

  /** While any marker stands, an apply changes neither the host nor the store nor the marker. */
  lemma LockedApplyIsInert(m: SysctlManifest, pre: System, e: Event, post: System)
    requires Step(m, pre, e, post) && pre.state.marker != Clear && e.req.action != RollbackBackup
    ensures post.state == pre.state && !Succeeding(e.served)
  {
  }

  /** A rollback of `x` unlinked the marker in a world that verified against backup `x`. */
  ghost predicate Releases(sys: System, e: Event, x: BackupId) {
    && e.req.action == RollbackBackup && e.req.backupId == Some(x)
    && Eligible(sys.state.store, x)
    && e.work.Some? && e.work.value.cleared.Some?
    && Matches(e.work.value.cleared.value, sys.state.store[x].snapshot)
  }

  lemma MarkerStays(m: SysctlManifest, pre: System, e: Event, post: System, x: BackupId)
    requires Step(m, pre, e, post) && pre.state.marker == Required(x) && !Releases(pre, e, x)
    ensures post.state.marker == Required(x)
  {
  }

  lemma {:induction false} MarkerStaysAt(m: SysctlManifest, systems: seq<System>, events: seq<Event>, x: BackupId, i: nat)
    requires Run(m, systems, events) && i < |events|
    requires systems[i].state.marker == Required(x) && !Releases(systems[i], events[i], x)
    ensures systems[i + 1].state.marker == Required(x)
  {
    assert StepAt(m, systems, events, i);
    MarkerStays(m, systems[i], events[i], systems[i + 1], x);
  }

  /** A marker for `x` is never replaced: it disappears only in a rollback of `x` that verified `x`. */
  lemma {:induction false} MarkerDiscipline(m: SysctlManifest, systems: seq<System>, events: seq<Event>,
                                            x: BackupId, i: nat, j: nat)
    requires Run(m, systems, events) && i <= j <= |events|
    requires systems[i].state.marker == Required(x)
    requires forall k :: i <= k < j ==> !Releases(systems[k], events[k], x)
    ensures systems[j].state.marker == Required(x)
  {
    if i < j {
      MarkerDiscipline(m, systems, events, x, i, j - 1);
      MarkerStaysAt(m, systems, events, x, j - 1);
    }
  }

  lemma {:induction false} DamagedStaysAt(m: SysctlManifest, systems: seq<System>, events: seq<Event>, i: nat)
    requires Run(m, systems, events) && i < |events| && systems[i].state.marker == Damaged
    ensures systems[i + 1].state == systems[i].state && !Succeeding(events[i].served)
  {
    assert StepAt(m, systems, events, i);
  }

  /** An unreadable marker blocks every request for good. */
  lemma {:induction false} DamagedMarkerBlocks(m: SysctlManifest, systems: seq<System>, events: seq<Event>, i: nat, j: nat)
    requires Run(m, systems, events) && i <= j <= |events|
    requires systems[i].state.marker == Damaged
    ensures systems[j].state == systems[i].state
    ensures forall k :: i <= k < j ==> !Succeeding(events[k].served)
  {
    if i < j {
      DamagedMarkerBlocks(m, systems, events, i, j - 1);
      DamagedStaysAt(m, systems, events, j - 1);
    }
  }

  /** A rollback that unlinks the marker, or succeeds under it, has written the marked backup's files back. */
  lemma {:induction false} ReleaseRestores(m: SysctlManifest, pre: System, e: Event, post: System, x: BackupId)
    requires Step(m, pre, e, post) && pre.state.marker == Required(x) && Eligible(pre.state.store, x)
    requires Releases(pre, e, x) || Succeeding(e.served)
    ensures AllRestorable(pre.state.store[x].snapshot.files)
  {
  }

  /** The marked backup `x` has a file that the write guard refuses. */
  ghost predicate Blocks(sys: System, x: BackupId) {
    && sys.state.marker == Required(x) && Eligible(sys.state.store, x)
    && !AllRestorable(sys.state.store[x].snapshot.files)
  }

  lemma {:induction false} UnrestorableStaysAt(m: SysctlManifest, systems: seq<System>, events: seq<Event>, x: BackupId, i: nat)
    requires Run(m, systems, events) && i < |events| && Blocks(systems[i], x)
    ensures Blocks(systems[i + 1], x) && !Succeeding(events[i].served)
  {
    var pre, e, post := systems[i], events[i], systems[i + 1];
    assert StepAt(m, systems, events, i);
    if Releases(pre, e, x) || Succeeding(e.served) {
      ReleaseRestores(m, pre, e, post, x);
    }
    MarkerStays(m, pre, e, post, x);
    StoreGrows(m, pre, e, post);
  }

  /** A backup with a file that the write guard refuses locks the host for good: its marker is never
      released, and no request succeeds. */
  lemma {:induction false} UnrestorableBackupBlocks(m: SysctlManifest, systems: seq<System>, events: seq<Event>,
                                                    x: BackupId, i: nat, j: nat)
    requires Run(m, systems, events) && i <= j <= |events|
    requires Blocks(systems[i], x)
    ensures Blocks(systems[j], x)
    ensures forall k :: i <= k < j ==> !Succeeding(events[k].served)
  {
    if i < j {
      UnrestorableBackupBlocks(m, systems, events, x, i, j - 1);
      UnrestorableStaysAt(m, systems, events, x, j - 1);
    }
  }

  // ----- the store -----

  lemma StoreGrows(m: SysctlManifest, pre: System, e: Event, post: System)
    requires Step(m, pre, e, post)
    ensures forall id :: id in pre.state.store ==> id in post.state.store && post.state.store[id] == pre.state.store[id]
  {
  }

  lemma {:induction false} StoreGrowsAt(m: SysctlManifest, systems: seq<System>, events: seq<Event>, i: nat)
    requires Run(m, systems, events) && i < |events|
    ensures forall id :: id in systems[i].state.store
              ==> id in systems[i + 1].state.store && systems[i + 1].state.store[id] == systems[i].state.store[id]
  {
    assert StepAt(m, systems, events, i);
    StoreGrows(m, systems[i], events[i], systems[i + 1]);
  }

  /** Backups are write-once: no later request changes or removes one. */
  lemma {:induction false} BackupsAreWriteOnce(m: SysctlManifest, systems: seq<System>, events: seq<Event>, i: nat, j: nat)
    requires Run(m, systems, events) && i <= j <= |events|
    ensures forall id :: id in systems[i].state.store
              ==> id in systems[j].state.store && systems[j].state.store[id] == systems[i].state.store[id]
  {
    if i < j {
      BackupsAreWriteOnce(m, systems, events, i, j - 1);
      StoreGrowsAt(m, systems, events, j - 1);
    }
  }

  lemma {:induction false} SoundAt(m: SysctlManifest, systems: seq<System>, events: seq<Event>, i: nat)
    requires Run(m, systems, events) && i < |events| && Sound(m, systems[i])
    ensures Sound(m, systems[i + 1])
  {
    assert StepAt(m, systems, events, i);
    StepKeepsSound(m, systems[i], events[i], systems[i + 1]);
  }

  /** Every snapshot taken in a run covers exactly the modules it names, in manifest order. */
  lemma {:induction false} StoreStaysCovered(m: SysctlManifest, systems: seq<System>, events: seq<Event>, n: nat)
    requires Run(m, systems, events) && n <= |events| && Sound(m, systems[0])
    ensures Sound(m, systems[n])
  {
    if n > 0 {
      StoreStaysCovered(m, systems, events, n - 1);
      SoundAt(m, systems, events, n - 1);
    }
  }

  /** Event `i` is an apply whose success was delivered; it hands out its backup. */
  ghost predicate AppliedAt(events: seq<Event>, i: nat)
    requires i < |events|
  {
    Succeeding(events[i].served) && events[i].req.action in {ApplyModule, ApplyModules}
  }

  ghost predicate RolledBackAt(events: seq<Event>, j: nat, x: BackupId)
    requires j < |events|
  {
    Succeeding(events[j].served) && events[j].req.action == RollbackBackup && events[j].req.backupId == Some(x)
  }

  lemma AppliedFacts(m: SysctlManifest, pre: System, e: Event, post: System)
    requires Step(m, pre, e, post) && Succeeding(e.served) && e.req.action in {ApplyModule, ApplyModules}
    ensures Knows(m, e.req.moduleIds) && Hosts(pre.state.world, Selected(m, e.req.moduleIds))
    ensures var mods := Selected(m, e.req.moduleIds);
            var b := ApplyBackupId(e.req);
            && e.served.reply.backupId == Some(b)
            && b in post.state.store && post.state.store[b] == Whole(SnapshotOf(m, mods, pre.state.world))
            && Desired(post.state.world, mods)
            && pre.state.marker == Clear == post.state.marker
  {
    SelectedIsHosted(m, pre.state.world, e.req.moduleIds);
  }

  lemma RolledBackFacts(m: SysctlManifest, pre: System, e: Event, post: System, x: BackupId)
    requires Step(m, pre, e, post) && Succeeding(e.served)
    requires e.req.action == RollbackBackup && e.req.backupId == Some(x)
    ensures Accepted(m, pre.state.store, x) && pre.state.marker in {Clear, Required(x)}
    ensures Matches(post.state.world, pre.state.store[x].snapshot)
    ensures OnlyTouches(Selected(m, pre.state.store[x].snapshot.moduleIds), pre.state.world, post.state.world)
    ensures post.state.marker == Clear
  {
  }

  /** However much later, a successful rollback of an apply's backup returns the apply's modules to
      their state from just before the apply, and changes nothing else. */
  lemma RollbackReturnsToSnapshotTime(m: SysctlManifest, systems: seq<System>, events: seq<Event>, i: nat, j: nat)
    requires Run(m, systems, events) && i < j < |events|
    requires AppliedAt(events, i) && RolledBackAt(events, j, ApplyBackupId(events[i].req))
    ensures Knows(m, events[i].req.moduleIds)
    ensures var mods := Selected(m, events[i].req.moduleIds);
            var paths, keys := Elements(TargetList(mods)), Elements(KeyList(mods));
            && AgreeOn(systems[i].state.world, systems[j + 1].state.world, paths, keys)
            && SameOutside(systems[j].state.world, systems[j + 1].state.world, paths, keys)
  {
    var b := ApplyBackupId(events[i].req);
    assert StepAt(m, systems, events, i) && StepAt(m, systems, events, j);
    AppliedFacts(m, systems[i], events[i], systems[i + 1]);
    BackupsAreWriteOnce(m, systems, events, i + 1, j);
    RolledBackFacts(m, systems[j], events[j], systems[j + 1], b);
    var mods := Selected(m, events[i].req.moduleIds);
    OwnSnapshotMatches(m, mods, systems[i].state.world);
    MatchingWorldsAgree(systems[i].state.world, systems[j + 1].state.world, SnapshotOf(m, mods, systems[i].state.world));
  }

  // ----- coming out of the lockout -----

  /** Equivalent worlds verify against the same snapshots. */
  lemma EquivalentMatchAlike(a: World, b: World, snap: Snapshot)
    requires Equivalent(a, b) && Matches(a, snap)
    ensures Matches(b, snap)
  {
  }

  /** The rollback that ends a lockout restores the last clean world exactly when the marked backup
      agrees with that world on what it covers. */
  lemma RecoveryIsExact(m: SysctlManifest, pre: System, e: Event, post: System, x: BackupId)
    requires Inv(m, pre) && Step(m, pre, e, post) && pre.state.marker == Required(x)
    requires Succeeding(e.served) && e.req.action == RollbackBackup && e.req.backupId == Some(x)
    ensures Eligible(pre.state.store, x)
    ensures Equivalent(pre.clean, post.state.world) <==> Matches(pre.clean, pre.state.store[x].snapshot)
  {
    RolledBackFacts(m, pre, e, post, x);
    CoveredByTarget(m, pre, x);
    var snap := pre.state.store[x].snapshot;
    if Matches(pre.clean, snap) {
      MatchingWorldsAgree(pre.clean, post.state.world, snap);
    }
    if Equivalent(pre.clean, post.state.world) {
      assert Equivalent(post.state.world, pre.clean);
      EquivalentMatchAlike(post.state.world, pre.clean, snap);
    }
  }

  /** The marked backup agrees with the last clean world. */
  ghost predicate Trusted(sys: System) {
    sys.state.marker.Required? ==>
      && Eligible(sys.state.store, sys.state.marker.id)
      && Matches(sys.clean, sys.state.store[sys.state.marker.id].snapshot)
  }

  /** The request cleared the marker of an unclean world and then left its own recovery backup marked:
      that backup holds the unclean state from before the rollback. */
  ghost predicate MarksUncleanRecovery(pre: System, e: Event, post: System) {
    && post.state.marker == Required(RecoveryBackupId(e.req))
    && e.work.Some? && e.work.value.cleared.Some?
    && !Equivalent(pre.clean, pre.state.world)
  }

  /** An own backup taken of `pre` verifies the clean world when `pre` is clean, and only then if all
      differences lie within it. */
  lemma OwnSnapshotOfClean(m: SysctlManifest, mods: seq<SysctlModule>, clean: World, pre: World)
    requires Hosts(pre, mods)
    requires EquivalentOutside(clean, pre, Elements(TargetList(mods)), Elements(KeyList(mods)))
    ensures Matches(clean, SnapshotOf(m, mods, pre)) <==> Equivalent(clean, pre)
  {
    var snap := SnapshotOf(m, mods, pre);
    OwnSnapshotMatches(m, mods, pre);
    if Matches(clean, snap) {
      MatchingWorldsAgree(clean, pre, snap);
    }
    if Equivalent(clean, pre) {
      assert Equivalent(pre, clean);
      EquivalentMatchAlike(pre, clean, snap);
    }
  }

  lemma ApplyKeepsTrust(m: SysctlManifest, pre: System, e: Event, post: System)
    requires Inv(m, pre) && Trusted(pre) && Step(m, pre, e, post) && Fresh(pre, e)
    requires e.work.Some? && Admitted(m, e.req) && e.req.action != RollbackBackup
    ensures Trusted(post)
  {
    if pre.state.marker != Clear {
      LockedApplyIsInert(m, pre, e, post);
    } else if post.state.marker.Required? && Knows(m, e.req.moduleIds) {
      SelectedIsHosted(m, pre.state.world, e.req.moduleIds);
      var mods := Selected(m, e.req.moduleIds);
      OwnSnapshotOfClean(m, mods, pre.clean, pre.state.world);
      ApplyMarksOwnBackup(m, pre, e, post);
    }
  }

  lemma ApplyMarksOwnBackup(m: SysctlManifest, pre: System, e: Event, post: System)
    requires Step(m, pre, e, post) && Fresh(pre, e) && pre.state.marker == Clear && post.state.marker.Required?
    requires e.work.Some? && Admitted(m, e.req) && e.req.action != RollbackBackup && Knows(m, e.req.moduleIds)
    requires Hosts(pre.state.world, Selected(m, e.req.moduleIds))
    ensures post.state.marker == Required(ApplyBackupId(e.req)) && !Succeeding(e.served)
    ensures post.state.store == pre.state.store[ApplyBackupId(e.req) := Whole(SnapshotOf(m, Selected(m, e.req.moduleIds), pre.state.world))]
  {
  }

  lemma RollbackTrust(m: SysctlManifest, pre: System, e: Event, w: Work, x: BackupId, post: System)
    requires Inv(m, pre) && Trusted(pre) && RolledBack(m, pre, e, w, x, post)
    ensures Trusted(post) <==> !MarksUncleanRecovery(pre, e, post)
  {
    CoveredByTarget(m, pre, x);
    SelectedIsHosted(m, pre.state.world, pre.state.store[x].snapshot.moduleIds);
    if pre.state.marker == Required(x) && w.cleared.None? {
      assert post.state.marker == Required(x) && post.state.store[x] == pre.state.store[x];
    } else if post.state.marker.Required? {
      RecoveryIsHeld(m, pre, e, w, x, post);
      OwnSnapshotOfClean(m, Modules(m, pre, x), pre.clean, pre.state.world);
    }
  }

  /** One request keeps the marked backup trustworthy unless it marks the recovery backup of an unclean world. */
  lemma StepKeepsTrust(m: SysctlManifest, pre: System, e: Event, post: System)
    requires Inv(m, pre) && Trusted(pre) && Step(m, pre, e, post) && Fresh(pre, e)
    ensures Trusted(post) <==> !MarksUncleanRecovery(pre, e, post)
  {
    if e.work.None? || !Admitted(m, e.req) || e.work.value.left == pre.state {
      IdleStep(m, pre, e, post);
    } else if e.req.action != RollbackBackup {
      ApplyKeepsTrust(m, pre, e, post);
      ApplyNeverClears(m, pre, e, post);
    } else {
      var x := e.req.backupId.value;
      if Succeeding(e.served) {
        RolledBackFacts(m, pre, e, post, x);
      } else {
        RollbackTrust(m, pre, e, e.work.value, x, post);
      }
    }
  }

  lemma ApplyNeverClears(m: SysctlManifest, pre: System, e: Event, post: System)
    requires Step(m, pre, e, post) && Admitted(m, e.req) && e.req.action != RollbackBackup
    ensures e.work.Some? ==> e.work.value.cleared.None?
  {
  }

  /** A worker that changed nothing leaves a fresh request nothing to mark. */
  lemma IdleStep(m: SysctlManifest, pre: System, e: Event, post: System)
    requires Step(m, pre, e, post) && Fresh(pre, e)
    requires e.work.None? || !Admitted(m, e.req) || e.work.value.left == pre.state
    ensures post.state == pre.state
    ensures e.work.Some? ==> e.work.value.cleared.None?
    ensures !Succeeding(e.served)
  {
  }
}
