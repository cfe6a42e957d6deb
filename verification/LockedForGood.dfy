/** When a lockout can be ended: exactly if the marked backup is accepted and can be written back, and the
    files as they are now can be backed up. */
module LockedForGood {
  import opened Common
  import opened ProductionProtocol
  import opened SysctlManifests
  import opened TransactionModel
  import opened TransactionSpec
  import opened ProcessSpec
  import opened Lockout
  import opened LockoutRuns
  import opened LockoutLimits

  ghost predicate CanRelease(m: SysctlManifest, pre: System, req: ProductionRequest, x: BackupId) {
    exists e, post :: Step(m, pre, e, post) && e.req == req && Releases(pre, e, x)
  }

  ghost predicate CanSucceed(m: SysctlManifest, pre: System, req: ProductionRequest) {
    exists e, post :: Step(m, pre, e, post) && e.req == req && Succeeding(e.served)
  }

  lemma {:induction false} SuccessUnlinks(m: SysctlManifest, pre: System, e: Event, post: System)
    requires Step(m, pre, e, post) && Succeeding(e.served) && pre.state.marker != Clear
    ensures e.work.Some? && e.work.value.cleared.Some?
  {
  }

  /** A fresh rollback of the marked backup can release the marker, and can succeed, if and only if that backup
      can be written back and the files as they are now can be backed up. */
  lemma {:induction false} RecoveryIsPossibleIff(m: SysctlManifest, pre: System, req: ProductionRequest, x: BackupId)
    requires Sound(m, pre) && SeparateStore(m, pre.state.store) && Recovers(m, pre, req, x)
    requires RecoveryBackupId(req) !in pre.state.store
    ensures CanRelease(m, pre, req, x) <==> Restores(m, pre, x)
    ensures CanSucceed(m, pre, req) <==> Restores(m, pre, x)
  {
    if Restores(m, pre, x) {
      var e, post := Recovering(m, pre, req, x);
    }
    if CanRelease(m, pre, req, x) {
      var e, post :| Step(m, pre, e, post) && e.req == req && Releases(pre, e, x);
      var y := ClearedFacts(m, pre, e, post);
    }
    if CanSucceed(m, pre, req) {
      var e, post :| Step(m, pre, e, post) && e.req == req && Succeeding(e.served);
      SuccessUnlinks(m, pre, e, post);
      var y := ClearedFacts(m, pre, e, post);
    }
  }

  // ----- over runs -----

  /** The marker names a backup that cannot be rolled back. */
  ghost predicate Stuck(m: SysctlManifest, sys: System, x: BackupId)
    requires Hosts(sys.state.world, m.modules)
  {
    sys.state.marker == Required(x) && !(Accepted(m, sys.state.store, x) && Restores(m, sys, x))
  }

  /** An unaccepted backup, or a target that cannot be backed up first, leaves everything as it is. */
  lemma {:induction false} StuckIsInert(m: SysctlManifest, pre: System, e: Event, post: System, x: BackupId)
    requires Step(m, pre, e, post) && pre.state.marker == Required(x)
    requires Accepted(m, pre.state.store, x) ==> !AllSmall(Recovery(m, pre, x).files)
    ensures post.state == pre.state && !Succeeding(e.served)
  {
  }

  lemma {:induction false} StuckStays(m: SysctlManifest, pre: System, e: Event, post: System, x: BackupId)
    requires Sound(m, pre) && Step(m, pre, e, post) && Stuck(m, pre, x)
    ensures Sound(m, post) && Stuck(m, post, x) && !Succeeding(e.served)
  {
    StepKeepsSound(m, pre, e, post);
    if Accepted(m, pre.state.store, x) && AllSmall(Recovery(m, pre, x).files) {
      if Releases(pre, e, x) || Succeeding(e.served) {
        ReleaseRestores(m, pre, e, post, x);
      }
      MarkerStays(m, pre, e, post, x);
      StoreGrows(m, pre, e, post);
    } else {
      StuckIsInert(m, pre, e, post, x);
    }
  }

  lemma {:induction false} StuckAt(m: SysctlManifest, systems: seq<System>, events: seq<Event>, x: BackupId, i: nat)
    requires Run(m, systems, events) && i < |events| && Sound(m, systems[i]) && Stuck(m, systems[i], x)
    ensures Sound(m, systems[i + 1]) && Stuck(m, systems[i + 1], x) && !Succeeding(events[i].served)
  {
    assert StepAt(m, systems, events, i);
    StuckStays(m, systems[i], events[i], systems[i + 1], x);
  }

  /** A stuck host stays stuck, and no request succeeds again. */
  lemma {:induction false} StuckForGood(m: SysctlManifest, systems: seq<System>, events: seq<Event>, x: BackupId, i: nat, j: nat)
    requires Run(m, systems, events) && i <= j <= |events| && Sound(m, systems[i]) && Stuck(m, systems[i], x)
    ensures Sound(m, systems[j]) && Stuck(m, systems[j], x)
    ensures forall k :: i <= k < j ==> !Succeeding(events[k].served)
  {
    if i < j {
      StuckForGood(m, systems, events, x, i, j - 1);
      StuckAt(m, systems, events, x, j - 1);
    }
  }

  /** No run from here ever loses the marker for `x`. */
  ghost predicate LockedForever(m: SysctlManifest, sys: System, x: BackupId) {
    forall systems: seq<System>, events: seq<Event>, n: int :: Run(m, systems, events) && systems[0] == sys && 0 <= n < |systems|
      ==> systems[n].state.marker == Required(x)
  }

  lemma {:induction false} OneReleaseSuffices(m: SysctlManifest, sys: System, e: Event, post: System, x: BackupId)
    requires Step(m, sys, e, post) && post.state.marker != Required(x)
    ensures !LockedForever(m, sys, x)
  {
    var systems, events := [sys, post], [e];
    assert StepAt(m, systems, events, 0);
    assert Run(m, systems, events) && systems[1] == post;
  }

  lemma {:induction false} StuckIsForever(m: SysctlManifest, sys: System, x: BackupId)
    requires Sound(m, sys) && Stuck(m, sys, x)
    ensures LockedForever(m, sys, x)
  {
    forall systems: seq<System>, events: seq<Event>, n: int | Run(m, systems, events) && systems[0] == sys && 0 <= n < |systems|
      ensures systems[n].state.marker == Required(x)
    {
      StuckForGood(m, systems, events, x, 0, n);
    }
  }

  /** A lockout lasts for good, whatever is requested, if and only if the host is stuck. */
  lemma {:induction false} LockedForeverIff(m: SysctlManifest, sys: System, x: BackupId, req: ProductionRequest)
    requires Sound(m, sys) && SeparateStore(m, sys.state.store) && sys.state.marker == Required(x)
    requires req.action == RollbackBackup && req.backupId == Some(x) && RecoveryBackupId(req) !in sys.state.store
    ensures LockedForever(m, sys, x) <==> Stuck(m, sys, x)
  {
    if Stuck(m, sys, x) {
      StuckIsForever(m, sys, x);
    } else {
      var e, post := Recovering(m, sys, req, x);
      OneReleaseSuffices(m, sys, e, post, x);
    }
  }
}
