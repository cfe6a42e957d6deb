/** When nothing goes wrong, requests succeed, and a rollback undoes an apply. */
module Progress {
  import opened Common
  import opened Json
  import opened SysctlText
  import opened ProductionProtocol
  import opened SysctlManifests
  import opened ManifestLoader
  import opened ManifestFacts
  import opened TransactionModel
  import opened TransactionSpec
  import opened TransactionEngine
  import Lockout

  lemma {:induction false} ModulesAreApart(m: SysctlManifest, p: nat, q: nat)
    requires ValidManifest(m) && p < q < |m.modules|
    ensures Apart(m.modules[p], m.modules[q]) && Apart(m.modules[q], m.modules[p])
  {
    var a, b := m.modules[p], m.modules[q];
    assert TargetList(m.modules)[p] == a.target && TargetList(m.modules)[q] == b.target;
    forall k, l | 0 <= k < |a.settings| && 0 <= l < |b.settings| ensures SettingKeys(a.settings)[k] != SettingKeys(b.settings)[l] {
      KeysOfModulesDiffer(m.modules, p, q, k, l);
    }
  }

  /** Two modules selected under different IDs share neither file nor key. */
  lemma {:induction false} SelectedAreApart(m: SysctlManifest, ids: seq<string>, i: nat, j: nat)
    requires ValidManifest(m) && Knows(m, ids) && Unrepeated(ids) && i < j < |ids|
    ensures Apart(Selected(m, ids)[i], Selected(m, ids)[j])
  {
    var mods := Selected(m, ids);
    var p :| 0 <= p < |m.modules| && m.modules[p] == mods[i];
    var q :| 0 <= q < |m.modules| && m.modules[q] == mods[j];
    assert ModuleIds(mods)[i] == ids[i] && ModuleIds(mods)[j] == ids[j];
    if p < q {
      ModulesAreApart(m, p, q);
    } else {
      ModulesAreApart(m, q, p);
    }
  }

  lemma {:induction false} UnrepeatedMiddle(front: seq<string>, own: seq<string>, back: seq<string>)
    requires Unrepeated(front + own + back)
    ensures Unrepeated(own)
  {
    UnrepeatedPrefix(front + own, back);
    forall k, l | 0 <= k < l < |own| ensures own[k] != own[l] {
      assert (front + own)[|front| + k] == own[k] && (front + own)[|front| + l] == own[l];
    }
  }

  /** The keys of one module are a stretch of the manifest's key list. */
  lemma OwnKeysDiffer(m: SysctlManifest, i: nat)
    requires ValidManifest(m) && i < |m.modules|
    ensures CanonicalSettings(m.modules[i])
  {
    var mod := m.modules[i];
    KeysAround(m.modules, i);
    UnrepeatedMiddle(KeyList(m.modules[..i]), SettingKeys(mod.settings), KeyList(m.modules[i + 1..]));
    forall j | 0 <= j < |mod.settings| ensures Canonical(mod.settings[j].desired) == mod.settings[j].desired {
      assert ValidModule(mod) && ValidSetting(mod.settings[j]);
      ValueIsCanonical(mod.settings[j].desired);
    }
  }

  /** A loaded manifest gives the engine everything an undisturbed apply needs. */
  lemma {:induction false} SelectedIsWritable(m: SysctlManifest, ids: seq<string>)
    requires IsLoaded(m) && Knows(m, ids) && Unrepeated(ids)
    ensures Writable(Selected(m, ids))
  {
    LoadedFacts(m);
    FittingIsWritable(m, ids);
  }

  lemma {:induction false} FittingIsWritable(m: SysctlManifest, ids: seq<string>)
    requires ValidManifest(m) && FitsLimits(m) && Knows(m, ids) && Unrepeated(ids)
    ensures Writable(Selected(m, ids))
  {
    var mods := Selected(m, ids);
    forall i | 0 <= i < |mods| ensures CanonicalSettings(mods[i]) && |Content(mods[i].settings)| <= MAX_FILE_BYTES {
      var p :| 0 <= p < |m.modules| && m.modules[p] == mods[i];
      OwnKeysDiffer(m, p);
    }
    forall i, j | 0 <= i < j < |mods| ensures Apart(mods[i], mods[j]) {
      SelectedAreApart(m, ids, i, j);
    }
  }

  lemma {:induction false} NotAmongOthers(mod: SysctlModule, others: seq<SysctlModule>, key: string)
    requires key in SettingKeys(mod.settings) && forall i :: 0 <= i < |others| ==> Apart(mod, others[i])
    ensures key !in KeyList(others)
    decreases |others|
  {
    if others != [] {
      assert Apart(mod, others[0]) && key in Elements(SettingKeys(mod.settings));
      assert key !in Elements(SettingKeys(others[0].settings));
      NotAmongOthers(mod, others[1..], key);
    }
  }

  /** Keys of modules that lie apart form one list without repetition. */
  lemma {:induction false} ApartKeysDiffer(mods: seq<SysctlModule>)
    requires forall i :: 0 <= i < |mods| ==> Unrepeated(SettingKeys(mods[i].settings))
    requires forall i, j :: 0 <= i < j < |mods| ==> Apart(mods[i], mods[j])
    ensures Unrepeated(KeyList(mods))
    decreases |mods|
  {
    if mods != [] {
      var own, rest := SettingKeys(mods[0].settings), mods[1..];
      forall i, j | 0 <= i < j < |rest| ensures Apart(rest[i], rest[j]) {
        assert Apart(mods[i + 1], mods[j + 1]);
      }
      ApartKeysDiffer(rest);
      forall i | 0 <= i < |rest| ensures Apart(mods[0], rest[i]) {
        assert Apart(mods[0], mods[i + 1]);
      }
      forall x | x in own ensures x !in KeyList(rest) {
        NotAmongOthers(mods[0], rest, x);
      }
      Joined(own, KeyList(rest));
    }
  }

  lemma Joined(a: seq<string>, b: seq<string>)
    requires Unrepeated(a) && Unrepeated(b) && forall x :: x in a ==> x !in b
    ensures Unrepeated(a + b)
  {
    var c := a + b;
    forall i, j | 0 <= i < j < |c| ensures c[i] != c[j] {
      if i < |a| <= j { assert a[i] in a && b[j - |a|] in b; }
    }
  }

  /** A selection from a valid manifest names no file and no key twice. */
  lemma {:induction false} SelectedIsSeparate(m: SysctlManifest, ids: seq<string>)
    requires ValidManifest(m) && Knows(m, ids) && Unrepeated(ids)
    ensures Unrepeated(TargetList(Selected(m, ids))) && Unrepeated(KeyList(Selected(m, ids)))
  {
    var mods := Selected(m, ids);
    forall i | 0 <= i < |mods| ensures Unrepeated(SettingKeys(mods[i].settings)) {
      var p :| 0 <= p < |m.modules| && m.modules[p] == mods[i];
      OwnKeysDiffer(m, p);
    }
    forall i, j | 0 <= i < j < |mods| ensures Apart(mods[i], mods[j]) {
      SelectedAreApart(m, ids, i, j);
    }
    ApartKeysDiffer(mods);
    forall i, j | 0 <= i < j < |mods| ensures TargetList(mods)[i] != TargetList(mods)[j] {
      assert Apart(mods[i], mods[j]);
    }
  }

  /** The named files can be put back: their modes are permission bits and their size is within the limit. */
  ghost predicate AllPutBack(w: World, mods: seq<SysctlModule>)
    requires Hosts(w, mods)
  {
    HostsLists(w, mods);
    forall i :: 0 <= i < |mods| ==> Restorable(w.files[TargetList(mods)[i]])
  }

  /** The backup of an undisturbed apply can be restored without hindrance. */
  lemma SnapshotIsRestorable(m: SysctlManifest, mods: seq<SysctlModule>, w: World)
    requires Hosts(w, mods) && Writable(mods) && AllPutBack(w, mods)
    ensures Separate(SnapshotOf(m, mods, w)) && AllRestorable(SnapshotOf(m, mods, w).files)
  {
    HostsLists(w, mods);
    ApartKeysDiffer(mods);
    forall i, j | 0 <= i < j < |mods| ensures TargetList(mods)[i] != TargetList(mods)[j] {
      assert Apart(mods[i], mods[j]);
    }
  }

  lemma PrefixesDiffer(a: ProductionRequest, b: ProductionRequest)
    ensures ApplyBackupId(a) != RecoveryBackupId(b)
  {
    assert ApplyBackupId(a)[0] == 'b' && RecoveryBackupId(b)[0] == 'r';
  }

  /** What a successful apply from `start` leaves for a rollback of its backup. */
  ghost predicate ReadyToUndo(m: SysctlManifest, apply: ProductionRequest, start: World, now: State)
    requires Knows(m, apply.moduleIds) && Hosts(start, Selected(m, apply.moduleIds))
  {
    var mods, b := Selected(m, apply.moduleIds), ApplyBackupId(apply);
    var snap := SnapshotOf(m, mods, start);
    && now.marker == Clear && b in now.store && now.store[b] == Whole(snap)
    && Separate(snap) && AllRestorable(snap.files)
    && Desired(now.world, mods) && TargetsSmall(mods, now.world) && OnlyTouches(mods, start, now.world)
  }

  lemma {:induction false} DesiredIsSmall(mods: seq<SysctlModule>, w: World)
    requires Writable(mods) && Desired(w, mods)
    ensures TargetsSmall(mods, w)
  {
    forall i | 0 <= i < |mods| ensures mods[i].target in w.files && Small(w.files[mods[i].target]) {
      assert FileIsRendered(w, mods[i]);
    }
  }

  lemma {:induction false} SuccessFacts(m: SysctlManifest, apply: ProductionRequest, start: State, now: State)
    requires Knows(m, apply.moduleIds) && Hosts(start.world, m.modules) && Hosts(start.world, Selected(m, apply.moduleIds))
    requires ApplyBackupId(apply) !in start.store
    requires ApplySpec(m, apply, start, Returned(Success(apply, apply.moduleIds, ApplyBackupId(apply))), now)
    ensures var mods := Selected(m, apply.moduleIds);
            && now.marker == Clear && Desired(now.world, mods) && OnlyTouches(mods, start.world, now.world)
            && now.store == start.store[ApplyBackupId(apply) := Whole(SnapshotOf(m, mods, start.world))]
  {
    SuccessReturned(apply, Selected(m, apply.moduleIds), SnapshotOf(m, Selected(m, apply.moduleIds), start.world), start, now);
  }

  /** Only the first way of returning answers with success. */
  lemma {:induction false} SuccessReturned(req: ProductionRequest, mods: seq<SysctlModule>, snap: Snapshot, start: State, now: State)
    requires start.marker == Clear ==>
               UnlockedApplySpec(req, mods, snap, start, Returned(Success(req, req.moduleIds, ApplyBackupId(req))), now)
    ensures start.marker == Clear ==>
              && ApplyBackupId(req) !in start.store && now.store == start.store[ApplyBackupId(req) := Whole(snap)]
              && now.marker == Clear && Desired(now.world, mods) && OnlyTouches(mods, start.world, now.world)
  {
  }

  /** An undisturbed apply succeeds, and nothing then stands in the way of rolling its backup back. */
  method ApplyOnce(executor: TransactionExecutor, apply: ProductionRequest, token: CancellationToken, ghost other: BackupId)
    returns (applied: End)
    requires executor.Valid() && ValidManifest(executor.manifest) && FitsLimits(executor.manifest)
    requires Knows(executor.manifest, apply.moduleIds) && Unrepeated(apply.moduleIds)
    requires executor.backups.marker == Clear && ApplyBackupId(apply) !in executor.backups.backups
    requires other !in executor.backups.backups && other != ApplyBackupId(apply)
    requires Hosts(executor.Now(), Selected(executor.manifest, apply.moduleIds))
             && AllPutBack(executor.Now(), Selected(executor.manifest, apply.moduleIds))
    modifies executor.files, executor.sysctls, executor.backups, token
    ensures executor.Valid() && other !in executor.backups.backups && executor.Faults() >= old(executor.Faults())
    ensures (executor.sysctls.faithful && executor.Faults() == old(executor.Faults()) && !token.cancelled)
            ==> applied == Returned(Success(apply, apply.moduleIds, ApplyBackupId(apply)))
    ensures applied == Returned(Success(apply, apply.moduleIds, ApplyBackupId(apply)))
            ==> ReadyToUndo(executor.manifest, apply, old(executor.Now()), executor.Current())
  {
    ghost var m, start := executor.manifest, executor.Current();
    ghost var mods := Selected(m, apply.moduleIds);
    FittingIsWritable(m, apply.moduleIds);
    PutBackIsSmall(start.world, mods);
    applied := executor.Apply(apply, token);
    Touched(m, apply, start, applied, executor.Current());
    ApplyLeavesSound(m, apply, start.world, start.store, executor.Current());
    if applied == Returned(Success(apply, apply.moduleIds, ApplyBackupId(apply))) {
      SuccessFacts(m, apply, start, executor.Current());
      SnapshotIsRestorable(m, mods, start.world);
      DesiredIsSmall(mods, executor.Now());
    }
  }

  lemma {:induction false} PutBackIsSmall(w: World, mods: seq<SysctlModule>)
    requires Hosts(w, mods) && AllPutBack(w, mods)
    ensures TargetsSmall(mods, w)
  {
    HostsLists(w, mods);
    forall i | 0 <= i < |mods| ensures mods[i].target in w.files && Small(w.files[mods[i].target]) {
      assert Restorable(w.files[TargetList(mods)[i]]);
    }
  }

  lemma {:induction false} Touched(m: SysctlManifest, req: ProductionRequest, start: State, end: End, now: State)
    requires Knows(m, req.moduleIds) && Hosts(start.world, m.modules) && Hosts(start.world, Selected(m, req.moduleIds))
    requires ApplySpec(m, req, start, end, now)
    ensures OnlyTouches(Selected(m, req.moduleIds), start.world, now.world)
    ensures StoreStep(start.store, ApplyBackupId(req), SnapshotOf(m, Selected(m, req.moduleIds), start.world), now.store)
  {
  }

  /** After any apply the host is still complete and the store well formed. */
  lemma ApplyLeavesSound(m: SysctlManifest, req: ProductionRequest, start: World, store: Store, post: State)
    requires Knows(m, req.moduleIds) && Hosts(start, m.modules) && StoreWellFormed(m, store)
    requires Hosts(start, Selected(m, req.moduleIds)) && OnlyTouches(Selected(m, req.moduleIds), start, post.world)
    requires StoreStep(store, ApplyBackupId(req), SnapshotOf(m, Selected(m, req.moduleIds), start), post.store)
    ensures Hosts(post.world, m.modules) && StoreWellFormed(m, post.store)
  {
    Lockout.StoreStaysWellFormed(m, req.moduleIds, start, store, ApplyBackupId(req), post.store);
    Lockout.HostsAfter(m, start, post.world);
  }

  /** An apply and then a rollback of its backup, with a valid manifest, unused backup IDs and restorable
      files: if the kernel is faithful, no operation fails from outside and nobody cancels, then both
      succeed, the desired state is reached in between, and afterwards the host is where it was. */
  method ApplyAndRollBack(executor: TransactionExecutor, apply: ProductionRequest, rollback: ProductionRequest,
                          first: CancellationToken, second: CancellationToken)
    returns (applied: End, undone: End, ghost reached: World)
    requires executor.Valid() && ValidManifest(executor.manifest) && FitsLimits(executor.manifest)
    requires Admitted(executor.manifest, apply) && apply.action != RollbackBackup && Unrepeated(apply.moduleIds)
    requires rollback.action == RollbackBackup && rollback.backupId == Some(ApplyBackupId(apply))
    requires executor.backups.marker == Clear
    requires ApplyBackupId(apply) !in executor.backups.backups && RecoveryBackupId(rollback) !in executor.backups.backups
    requires Knows(executor.manifest, apply.moduleIds) && Hosts(executor.Now(), Selected(executor.manifest, apply.moduleIds))
             && AllPutBack(executor.Now(), Selected(executor.manifest, apply.moduleIds))
    requires first != second
    modifies executor.files, executor.sysctls, executor.backups, first, second
    ensures (executor.sysctls.faithful && executor.Faults() == old(executor.Faults()) && !first.cancelled && !second.cancelled)
            ==> && applied == Returned(Success(apply, apply.moduleIds, ApplyBackupId(apply)))
                && Desired(reached, Selected(executor.manifest, apply.moduleIds))
                && undone == Returned(Success(rollback, apply.moduleIds, ApplyBackupId(apply)))
                && Equivalent(old(executor.Now()), executor.Now())
                && executor.backups.marker == Clear
  {
    ghost var m, start := executor.manifest, executor.Now();
    PrefixesDiffer(apply, rollback);
    applied := ApplyOnce(executor, apply, first, RecoveryBackupId(rollback));
    reached := executor.Now();
    ghost var pre := executor.Current();
    if applied == Returned(Success(apply, apply.moduleIds, ApplyBackupId(apply))) {
      Lockout.SnapshotIsWellFormed(m, apply.moduleIds, start);
    }
    ghost var cleared: Option<World>;
    undone, cleared := executor.Rollback(rollback, second);
    if executor.sysctls.faithful && executor.Faults() == old(executor.Faults()) && !first.cancelled && !second.cancelled {
      BackAgain(m, apply, rollback, start, pre, executor.Current(), cleared);
    }
  }

  /** A successful rollback of the apply's backup ends where the apply began. */
  lemma {:induction false} BackAgain(m: SysctlManifest, apply: ProductionRequest, rollback: ProductionRequest, start: World,
                  pre: State, post: State, cleared: Option<World>)
    requires Knows(m, apply.moduleIds) && Hosts(start, m.modules) && Hosts(pre.world, m.modules)
    requires Hosts(start, Selected(m, apply.moduleIds)) && ReadyToUndo(m, apply, start, pre)
    requires rollback.backupId == Some(ApplyBackupId(apply))
    requires RollbackSpec(m, rollback, pre, Returned(Success(rollback, apply.moduleIds, ApplyBackupId(apply))), post, cleared)
    ensures Equivalent(start, post.world) && post.marker == Clear
  {
    SuccessfulRollback(m, rollback, apply.moduleIds, pre, post, cleared);
    RestoredIsEquivalent(m, Selected(m, apply.moduleIds), start, post.world);
  }

  lemma {:induction false} SuccessfulRollback(m: SysctlManifest, req: ProductionRequest, ids: seq<string>, pre: State, post: State,
                                              cleared: Option<World>)
    requires req.backupId.Some? && Hosts(pre.world, m.modules)
    requires RollbackSpec(m, req, pre, Returned(Success(req, ids, req.backupId.value)), post, cleared)
    ensures Accepted(m, pre.store, req.backupId.value) && post.marker == Clear
    ensures var target := pre.store[req.backupId.value].snapshot;
            Matches(post.world, target) && OnlyTouches(Selected(m, target.moduleIds), pre.world, post.world)
  {
  }
}
