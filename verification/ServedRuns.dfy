/** The objects themselves produce the runs that the lockout theorems speak of. */
module ServedRuns {
  import opened Common
  import opened Json
  import opened ProductionProtocol
  import opened SysctlManifests
  import opened ManifestLoader
  import opened ManifestFacts
  import opened PolicyFacts
  import opened TransactionModel
  import opened TransactionSpec
  import opened TransactionEngine
  import opened ProcessSpec
  import opened WorkerProcess
  import opened Lockout
  import opened LockoutRuns
  import opened Progress

  // ----- runs in which nothing goes wrong -----

  /** Every request is an apply that the manifest lists, and no two use one backup ID. */
  ghost predicate ListedApplies(m: SysctlManifest, reqs: seq<ProductionRequest>) {
    && (forall i :: 0 <= i < |reqs| ==> Listed(m, reqs[i]) && Unrepeated(reqs[i].moduleIds))
    && forall i, j :: 0 <= i < j < |reqs| ==> ApplyBackupId(reqs[i]) != ApplyBackupId(reqs[j])
  }

  ghost predicate AllSmooth(seen: seq<Observed>) {
    forall i :: 0 <= i < |seen| ==> Smooth(seen[i])
  }

  /** All these applies were delivered as successes. */
  ghost predicate AllSucceeded(reqs: seq<ProductionRequest>, events: seq<Event>)
    requires |events| <= |reqs|
  {
    forall i :: 0 <= i < |events| ==>
      events[i].served == Delivered(Success(reqs[i], reqs[i].moduleIds, ApplyBackupId(reqs[i])))
  }

  lemma {:induction false} OneMore(reqs: seq<ProductionRequest>, events: seq<Event>, e: Event, seen: seq<Observed>, o: Observed, fine: bool)
    requires |events| < |reqs|
    requires fine ==> AllSucceeded(reqs, events)
    requires fine ==> e.served == Delivered(Success(reqs[|events|], reqs[|events|].moduleIds, ApplyBackupId(reqs[|events|])))
    ensures fine ==> AllSucceeded(reqs, events + [e])
    ensures AllSmooth(seen + [o]) ==> AllSmooth(seen) && Smooth(o)
  {
    if AllSmooth(seen + [o]) {
      forall i | 0 <= i < |seen| ensures Smooth(seen[i]) {
        assert (seen + [o])[i] == seen[i];
      }
      assert (seen + [o])[|seen|] == o;
    }
  }

  /** The host is ready for the applies from number `i` on. */
  ghost predicate ReadyFor(m: SysctlManifest, state: State, reqs: seq<ProductionRequest>, i: nat) {
    && state.marker == Clear && TargetsSmall(m.modules, state.world)
    && forall j :: i <= j < |reqs| ==> ApplyBackupId(reqs[j]) !in state.store
  }

  ghost predicate Prepared(m: SysctlManifest, faithful: bool, state: State, reqs: seq<ProductionRequest>, i: nat) {
    IsLoaded(m) && faithful && ListedApplies(m, reqs) && ReadyFor(m, state, reqs, i)
  }

  /** A loaded manifest that lists all these applies, a kernel that stores what is written, no marker, managed
      files within the size limit, and fresh backup IDs. */
  ghost predicate CanGoWell(m: SysctlManifest, faithful: bool, state: State, reqs: seq<ProductionRequest>) {
    Prepared(m, faithful, state, reqs, 0)
  }

  lemma {:induction false} SelectedIsSmall(m: SysctlManifest, ids: seq<string>, w: World)
    requires Knows(m, ids) && TargetsSmall(m.modules, w)
    ensures TargetsSmall(Selected(m, ids), w)
  {
    var mods := Selected(m, ids);
    forall i | 0 <= i < |mods| ensures mods[i].target in w.files && Small(w.files[mods[i].target]) {
      assert mods[i] in m.modules;
    }
  }

  /** Nothing stands in the way of the next apply. */
  lemma {:induction false} NextCanApply(executor: ProcessExecutor, reqs: seq<ProductionRequest>, i: nat)
    requires executor.worker.Valid() && IsLoaded(executor.worker.manifest) && executor.worker.sysctls.faithful
    requires ListedApplies(executor.worker.manifest, reqs) && i < |reqs|
    requires ReadyFor(executor.worker.manifest, executor.worker.Current(), reqs, i)
    ensures executor.worker.CanApply(reqs[i])
  {
    var m := executor.worker.manifest;
    LoadedFacts(m);
    ListedIffAdmitted(m, reqs[i]);
    AdmittedIsKnown(m, reqs[i]);
    SelectedIsWritable(m, reqs[i].moduleIds);
    SelectedIsSmall(m, reqs[i].moduleIds, executor.worker.Now());
  }

  lemma {:induction false} StaysSmall(m: SysctlManifest, ids: seq<string>, pre: World, post: World)
    requires Knows(m, ids) && TargetsSmall(m.modules, pre) && Writable(Selected(m, ids))
    requires OnlyTouches(Selected(m, ids), pre, post) && Desired(post, Selected(m, ids))
    ensures TargetsSmall(m.modules, post)
  {
    var mods := Selected(m, ids);
    DesiredIsSmall(mods, post);
    forall i | 0 <= i < |m.modules| ensures m.modules[i].target in post.files && Small(post.files[m.modules[i].target]) {
      var p := m.modules[i].target;
      if p in Elements(TargetList(mods)) {
        var j :| 0 <= j < |mods| && TargetList(mods)[j] == p;
        assert mods[j].target == p;
      }
    }
  }

  /** After a delivered success the host is ready for the next ones, and no marker stands. */
  lemma {:induction false} StaysReady(m: SysctlManifest, pre: State, work: Work, post: State, reqs: seq<ProductionRequest>, i: nat)
    requires IsLoaded(m) && Hosts(pre.world, m.modules) && ListedApplies(m, reqs) && i < |reqs| && ReadyFor(m, pre, reqs, i)
    requires ExecuteSpec(m, reqs[i], pre, work.end, work.left, work.cleared) && post == work.left
    requires work.end == Returned(Success(reqs[i], reqs[i].moduleIds, ApplyBackupId(reqs[i])))
    ensures ReadyFor(m, post, reqs, i + 1)
  {
    var req := reqs[i];
    LoadedFacts(m);
    PolicyIsExact(m, req, pre, work.end, work.left, work.cleared);
    SelectedIsHosted(m, pre.world, req.moduleIds);
    SelectedIsWritable(m, req.moduleIds);
    SuccessFacts(m, req, pre, post);
    StaysSmall(m, req.moduleIds, pre.world, post.world);
    forall j | i + 1 <= j < |reqs| ensures ApplyBackupId(reqs[j]) !in post.store {
      assert ApplyBackupId(reqs[i]) != ApplyBackupId(reqs[j]);
    }
  }

  // ----- all runs -----

  /** Serves any requests one after the other, with every cancellation, failure and death allowed. If the
      host starts clean or guarded and backup IDs are fresh, every state in between is clean or locked
      unless a rollback lost the marker of an unclean world. Listed applies of a loaded manifest with fresh
      backup IDs are all delivered as successes, and no marker is left, if the kernel stores what is written,
      nothing fails from outside, every worker ends by itself with code 0 and readable output, and nobody
      cancels. */
  method ServeAll(executor: ProcessExecutor, reqs: seq<ProductionRequest>, ghost clean: World)
    returns (ghost systems: seq<System>, ghost events: seq<Event>, ghost seen: seq<Observed>)
    requires executor.worker.Valid()
    modifies executor.worker.files, executor.worker.sysctls, executor.worker.backups
    ensures executor.worker.Valid() && executor.worker.Faults() >= old(executor.worker.Faults())
    ensures Run(executor.worker.manifest, systems, events)
    ensures |events| == |seen| == |reqs| && forall i :: 0 <= i < |reqs| ==> events[i].req == reqs[i]
    ensures systems[0] == System(old(executor.worker.Current()), clean)
    ensures systems[|reqs|].state == executor.worker.Current()
    ensures Inv(executor.worker.manifest, systems[0]) && AllFresh(systems, events)
            ==> ((forall i :: 0 <= i < |systems| ==> Inv(executor.worker.manifest, systems[i]))
                 <==> (forall i :: 0 <= i < |events| ==> !LosesAt(systems, events, i)))
    ensures (CanGoWell(executor.worker.manifest, executor.worker.sysctls.faithful, old(executor.worker.Current()), reqs)
             && executor.worker.Faults() == old(executor.worker.Faults()) && AllSmooth(seen))
            ==> AllSucceeded(reqs, events) && executor.worker.backups.marker == Clear
  {
    systems, events, seen := ServeThem(executor, reqs, clean);
    ghost var m := executor.worker.manifest;
    if Inv(m, systems[0]) && AllFresh(systems, events) {
      LockoutSafety(m, systems, events);
    }
  }

  /** The run itself, and what it needs to go well. */
  method ServeThem(executor: ProcessExecutor, reqs: seq<ProductionRequest>, ghost clean: World)
    returns (ghost systems: seq<System>, ghost events: seq<Event>, ghost seen: seq<Observed>)
    requires executor.worker.Valid()
    modifies executor.worker.files, executor.worker.sysctls, executor.worker.backups
    ensures executor.worker.Valid() && executor.worker.Faults() >= old(executor.worker.Faults())
    ensures Run(executor.worker.manifest, systems, events)
    ensures |events| == |seen| == |reqs| && forall i :: 0 <= i < |reqs| ==> events[i].req == reqs[i]
    ensures systems[0] == System(old(executor.worker.Current()), clean)
    ensures systems[|reqs|].state == executor.worker.Current()
    ensures (CanGoWell(executor.worker.manifest, executor.worker.sysctls.faithful, old(executor.worker.Current()), reqs)
             && executor.worker.Faults() == old(executor.worker.Faults()) && AllSmooth(seen))
            ==> AllSucceeded(reqs, events) && executor.worker.backups.marker == Clear
  {
    ghost var m := executor.worker.manifest;
    systems, events, seen := [System(executor.worker.Current(), clean)], [], [];
    ghost var ready := CanGoWell(m, executor.worker.sysctls.faithful, executor.worker.Current(), reqs);
    for i := 0 to |reqs|
      invariant executor.worker.Valid() && executor.worker.Faults() >= old(executor.worker.Faults())
      invariant |events| == |seen| == i && Run(m, systems, events)
      invariant forall k :: 0 <= k < i ==> events[k].req == reqs[k]
      invariant systems[0] == System(old(executor.worker.Current()), clean)
      invariant systems[i].state == executor.worker.Current()
      invariant ready ==> AllSucceeded(reqs, events) && Prepared(m, executor.worker.sysctls.faithful, systems[i].state, reqs, i)
      invariant (CanGoWell(m, executor.worker.sysctls.faithful, old(executor.worker.Current()), reqs)
                 && executor.worker.Faults() == old(executor.worker.Faults()) && AllSmooth(seen)) ==> ready
    {
      ghost var e, after, o, stays := ServeNext(executor, reqs, i, systems[i].clean, ready);
      RunExtends(m, systems, events, e, after);
      OneMore(reqs, events, e, seen, o, stays);
      systems, events, seen, ready := systems + [after], events + [e], seen + [o], stays;
    }
  }

  /** One of these requests. */
  method ServeNext(executor: ProcessExecutor, reqs: seq<ProductionRequest>, i: nat, ghost clean: World, ghost ready: bool)
    returns (ghost e: Event, ghost after: System, ghost seen: Observed, ghost stays: bool)
    requires executor.worker.Valid() && i < |reqs|
    requires ready ==> Prepared(executor.worker.manifest, executor.worker.sysctls.faithful, executor.worker.Current(), reqs, i)
    modifies executor.worker.files, executor.worker.sysctls, executor.worker.backups
    ensures executor.worker.Valid() && executor.worker.Faults() >= old(executor.worker.Faults())
    ensures Step(executor.worker.manifest, System(old(executor.worker.Current()), clean), e, after)
    ensures e.req == reqs[i] && after.state == executor.worker.Current()
    ensures ready && executor.worker.Faults() == old(executor.worker.Faults()) && Smooth(seen) ==> stays
    ensures stays ==> ready && e.served == Delivered(Success(reqs[i], reqs[i].moduleIds, ApplyBackupId(reqs[i])))
    ensures stays ==> Prepared(executor.worker.manifest, executor.worker.sysctls.faithful, after.state, reqs, i + 1)
  {
    ghost var m, pre := executor.worker.manifest, executor.worker.Current();
    if ready { NextCanApply(executor, reqs, i); }
    var token := new CancellationToken();
    var served, work, o := executor.Execute(reqs[i], token);
    seen := o;
    e := Event(reqs[i], work, served);
    after := System(executor.worker.Current(), if Succeeding(served) then executor.worker.Now() else clean);
    StepKeepsSound(m, System(pre, clean), e, after);
    stays := ready && Smooth(seen) && executor.worker.Faults() == old(executor.worker.Faults());
    if stays {
      StaysReady(m, pre, work.value, executor.worker.Current(), reqs, i);
    }
  }
}
