/** The failures of the lockout as runs from a clean host, with a manifest the loader accepts and requests
    the helper accepts. */
module LockoutExample {
  import opened Common
  import opened ProductionProtocol
  import opened SysctlManifests
  import opened TransactionModel
  import opened TransactionSpec
  import opened ProcessSpec
  import opened Lockout
  import opened LockoutRuns
  import opened LockoutLimits
  import opened ReusedIds
  import opened LockedForGood
  import opened ExampleManifest
  import opened ExampleHost
  import ManifestLoader

  /** A run of a valid manifest and valid requests from a clean host without backups. */
  ghost predicate RunFromClean(systems: seq<System>, events: seq<Event>) {
    && ManifestLoader.ValidManifest(EXAMPLE) && Run(EXAMPLE, systems, events)
    && (forall i :: 0 <= i < |events| ==> ValidRequest(events[i].req))
    && systems[0].clean == systems[0].state.world && systems[0].state.store == map[] && systems[0].state.marker == Clear
    && Inv(EXAMPLE, systems[0])
  }

  function Unlocked(kernel: FileState, network: FileState, store: Store): System {
    System(State(Host(kernel, network), store, Clear), Host(kernel, network))
  }

  lemma {:induction false} UnlockedIsInv(kernel: FileState, network: FileState, store: Store)
    requires StoreWellFormed(EXAMPLE, store)
    ensures Inv(EXAMPLE, Unlocked(kernel, network, store)) && Trusted(Unlocked(kernel, network, store))
  {
    BothFacts(kernel, network);
    assert Equivalent(Host(kernel, network), Host(kernel, network));
  }

  // ----- an apply killed halfway -----

  /** What the killed apply of a host with this kernel drop-in leaves: its file is written, its value not,
      and the parent has marked the apply's backup. */
  function BackedUp(kernel: FileState): Store {
    map[BACKUP := Whole(BothSnapshot(kernel, Absent))]
  }

  function KilledApply(kernel: FileState): Event {
    Event(APPLY, Some(Work(Killed, State(Host(APPLIED, Absent), BackedUp(kernel), Clear), None)), Refused(Some(BACKUP)))
  }

  function Locked(kernel: FileState): System {
    System(State(Host(APPLIED, Absent), BackedUp(kernel), Required(BACKUP)), Host(kernel, Absent))
  }

  lemma {:induction false} KillingIsAllowed(kernel: FileState)
    ensures Hosts(Host(kernel, Absent), EXAMPLE.modules) && Knows(EXAMPLE, BOTH)
    ensures ApplySpec(EXAMPLE, APPLY, Unlocked(kernel, Absent, map[]).state, Killed, KilledApply(kernel).work.value.left)
  {
    var start, left := Unlocked(kernel, Absent, map[]).state, KilledApply(kernel).work.value.left;
    BothFacts(kernel, Absent);
    Selections();
    ExampleLists();
    assert OnlyTouches(EXAMPLE.modules, start.world, left.world);
  }

  lemma {:induction false} ApplyIsKilled(kernel: FileState)
    ensures Fresh(Unlocked(kernel, Absent, map[]), KilledApply(kernel))
    ensures Step(EXAMPLE, Unlocked(kernel, Absent, map[]), KilledApply(kernel), Locked(kernel))
  {
    RequestsAreValid();
    KillingIsAllowed(kernel);
  }

  lemma {:induction false} EmptyStore()
    ensures StoreWellFormed(EXAMPLE, map[])
  {
  }

  lemma {:induction false} BackedUpIsSeparate(kernel: FileState)
    ensures SeparateStore(EXAMPLE, BackedUp(kernel)) && Accepted(EXAMPLE, BackedUp(kernel), BACKUP)
  {
    BothFacts(kernel, Absent);
  }

  /** Such a host is guarded by the backup, and its unclean state can be backed up and put back. */
  lemma {:induction false} LockedFacts(kernel: FileState)
    ensures Inv(EXAMPLE, Locked(kernel)) && Trusted(Locked(kernel))
    ensures Accepted(EXAMPLE, BackedUp(kernel), BACKUP) && SeparateStore(EXAMPLE, BackedUp(kernel))
    ensures AllRestorable(Recovery(EXAMPLE, Locked(kernel), BACKUP).files)
  {
    EmptyStore();
    UnlockedIsInv(kernel, Absent, map[]);
    ApplyIsKilled(kernel);
    StepKeepsGuard(EXAMPLE, Unlocked(kernel, Absent, map[]), KilledApply(kernel), Locked(kernel));
    StepKeepsTrust(EXAMPLE, Unlocked(kernel, Absent, map[]), KilledApply(kernel), Locked(kernel));
    BackedUpIsSeparate(kernel);
    Selections();
    BothFacts(APPLIED, Absent);
  }

  lemma {:induction false} LockedIsUnclean(kernel: FileState)
    requires kernel != APPLIED
    ensures !Equivalent(Locked(kernel).clean, Locked(kernel).state.world)
  {
    assert Host(kernel, Absent).files[KERNEL.target] != Host(APPLIED, Absent).files[KERNEL.target] by { ExampleLists(); }
  }

  lemma {:induction false} KilledRun(kernel: FileState)
    ensures RunFromClean([Unlocked(kernel, Absent, map[]), Locked(kernel)], [KilledApply(kernel)])
    ensures AllFresh([Unlocked(kernel, Absent, map[]), Locked(kernel)], [KilledApply(kernel)])
  {
    ExampleIsValid();
    RequestsAreValid();
    EmptyStore();
    UnlockedIsInv(kernel, Absent, map[]);
    ApplyIsKilled(kernel);
    RunOfOne(EXAMPLE, Unlocked(kernel, Absent, map[]), KilledApply(kernel), Locked(kernel));
  }

  lemma {:induction false} RunOfOne(m: SysctlManifest, a: System, e: Event, b: System)
    requires Step(m, a, e, b)
    ensures Run(m, [a, b], [e])
  {
    assert StepAt(m, [a, b], [e], 0);
  }

  lemma {:induction false} OneMoreStep(a: System, e: Event, b: System, f: Event, c: System)
    requires RunFromClean([a, b], [e]) && Step(EXAMPLE, b, f, c) && ValidRequest(f.req)
    ensures RunFromClean([a, b, c], [e, f])
  {
    assert StepAt(EXAMPLE, [a, b], [e], 0);
    assert StepAt(EXAMPLE, [a, b, c], [e, f], 0) && StepAt(EXAMPLE, [a, b, c], [e, f], 1);
  }

  // ----- its rollback -----

  lemma {:induction false} UndoRecovers()
    ensures RecoversUnclean(EXAMPLE, Locked(Absent), UNDO, BACKUP) && Restores(EXAMPLE, Locked(Absent), BACKUP)
  {
    LockedFacts(Absent);
    LockedIsUnclean(Absent);
    RequestsAreValid();
  }

  lemma {:induction false} UndoRun(e: Event, post: System)
    requires Step(EXAMPLE, Locked(Absent), e, post) && e.req == UNDO
    ensures var systems, events := [Unlocked(Absent, Absent, map[]), Locked(Absent), post], [KilledApply(Absent), e];
            RunFromClean(systems, events) && AllFresh(systems, events)
  {
    KilledRun(Absent);
    RequestsAreValid();
    OneMoreStep(Unlocked(Absent, Absent, map[]), KilledApply(Absent), Locked(Absent), e, post);
  }

  /** An apply of a valid manifest is killed halfway; rolling its backup back restores the files and unlinks
      the marker; syncing the directory fails; the half-applied file is put back. Nothing is locked then. */
  lemma {:induction false} MarkerCanBeLost() returns (systems: seq<System>, events: seq<Event>)
    ensures RunFromClean(systems, events) && AllFresh(systems, events) && |events| == 2 && LosesAt(systems, events, 1)
    ensures systems[2].state.world == Host(APPLIED, Absent) && systems[2].state.marker == Clear && !Guarded(EXAMPLE, systems[2])
  {
    LockedFacts(Absent);
    UndoRecovers();
    var e, post := LostMarker(EXAMPLE, Locked(Absent), UNDO, BACKUP);
    UndoRun(e, post);
    systems, events := [Unlocked(Absent, Absent, map[]), Locked(Absent), post], [KilledApply(Absent), e];
  }

  lemma {:induction false} CleanIsRestored()
    ensures Restored(Host(APPLIED, Absent), BothSnapshot(Absent, Absent)) == Host(Absent, Absent)
  {
    var w, snap := Host(APPLIED, Absent), BothSnapshot(Absent, Absent);
    BothFacts(APPLIED, Absent);
    BothFacts(Absent, Absent);
    HostsBoth();
    RestoredMatches(w, snap);
    assert snap.files[0].path == KERNEL.target && snap.files[1].path == NETWORK.target;
    OnlyValues();
  }

  lemma {:induction false} HostsBoth()
    ensures HostsSnapshot(Host(APPLIED, Absent), BothSnapshot(Absent, Absent))
  {
    assert PathList(BothSnapshot(Absent, Absent).files) == [KERNEL.target, NETWORK.target];
    assert SysctlKeyList(BothSnapshot(Absent, Absent).sysctls) == [SYSRQ, FORWARDING];
  }

  /** The example's values are in the snapshot as they are. */
  lemma {:induction false} OnlyValues()
    ensures Restored(Host(APPLIED, Absent), BothSnapshot(Absent, Absent)).values == Host(APPLIED, Absent).values
  {
    var w, snap := Host(APPLIED, Absent), BothSnapshot(Absent, Absent);
    forall k | k in w.values ensures ValueAfter(w, snap, k) == w.values[k] {
    }
  }

  /** The same rollback, but the worker dies after unlinking the marker: the parent marks the recovery
      backup, which holds the half-applied file, although the clean files are back. */
  lemma {:induction false} UncleanStateCanBeMarked() returns (systems: seq<System>, events: seq<Event>)
    ensures RunFromClean(systems, events) && AllFresh(systems, events) && |events| == 2
    ensures Trusted(systems[1]) && !Trusted(systems[2]) && systems[2].state.world == systems[2].clean == systems[0].clean
    ensures MarksUncleanRecovery(systems[1], events[1], systems[2])
  {
    LockedFacts(Absent);
    UndoRecovers();
    var e, post := UncleanMark(EXAMPLE, Locked(Absent), UNDO, BACKUP);
    UndoRun(e, post);
    CleanIsRestored();
    systems, events := [Unlocked(Absent, Absent, map[]), Locked(Absent), post], [KilledApply(Absent), e];
  }

  // ----- a backup that cannot be restored -----

  /** A drop-in with the set-user-ID bit. */
  const ODD := Present(0x9A4, 0, 0, "")

  /** The same apply, of a host whose drop-in has more than permission bits: half applied, and locked for good. */
  lemma {:induction false} HostCanBeStuck() returns (systems: seq<System>, events: seq<Event>)
    ensures RunFromClean(systems, events) && AllFresh(systems, events) && |events| == 1
    ensures !Equivalent(systems[1].clean, systems[1].state.world)
    ensures Sound(EXAMPLE, systems[1]) && Stuck(EXAMPLE, systems[1], BACKUP) && LockedForever(EXAMPLE, systems[1], BACKUP)
  {
    KilledRun(ODD);
    LockedFacts(ODD);
    LockedIsUnclean(ODD);
    systems, events := [Unlocked(ODD, Absent, map[]), Locked(ODD)], [KilledApply(ODD)];
    assert !Restorable(BothSnapshot(ODD, Absent).files[0].state);
    StuckIsForever(EXAMPLE, systems[1], BACKUP);
  }

  // ----- a taken backup ID -----

  const OLD := Present(0x1A4, 0, 0, "")

  function KernelOnly(): Store {
    map[BACKUP := Whole(KernelSnapshot(Absent))]
  }

  /** An apply of the kernel module alone, cancelled after its backup. */
  function CancelledSingle(): Event {
    var reply := Stopped(SINGLE, false, Some(BACKUP));
    Event(SINGLE, Some(Work(Returned(reply), State(Host(Absent, OLD), KernelOnly(), Clear), None)), Delivered(reply))
  }

  lemma {:induction false} SingleIsCancelled()
    ensures Step(EXAMPLE, Unlocked(Absent, OLD, map[]), CancelledSingle(), Unlocked(Absent, OLD, KernelOnly()))
  {
    var start, left := Unlocked(Absent, OLD, map[]).state, CancelledSingle().work.value.left;
    KernelFacts(Absent, OLD);
    BothFacts(Absent, OLD);
    RequestsAreValid();
    Selections();
    assert ApplyReturned(SINGLE, [KERNEL], KernelSnapshot(Absent), start, Stopped(SINGLE, false, Some(BACKUP)), left);
    assert ApplySpec(EXAMPLE, SINGLE, start, CancelledSingle().work.value.end, left);
  }

  lemma {:induction false} NetworkIsRewritable()
    ensures RewritableAt(Host(Absent, OLD), TargetList(EXAMPLE.modules), 1)
    ensures TargetList(EXAMPLE.modules)[1] == NETWORK.target
  {
    ExampleLists();
  }

  lemma {:induction false} KernelOnlyFacts()
    ensures StoreWellFormed(EXAMPLE, KernelOnly()) && Accepted(EXAMPLE, KernelOnly(), BACKUP)
    ensures Reuses(EXAMPLE, Unlocked(Absent, OLD, KernelOnly()), APPLY)
    ensures Affected(EXAMPLE, Unlocked(Absent, OLD, KernelOnly()), APPLY) == EXAMPLE.modules
  {
    KernelFacts(Absent, OLD);
    RequestsAreValid();
    Selections();
  }

  /** Then an apply of both modules under the same request ID, killed while it writes its own snapshot back:
      the marked backup does not cover the other file. */
  lemma {:induction false} ReuseCanMislead() returns (systems: seq<System>, events: seq<Event>)
    ensures RunFromClean(systems, events) && |events| == 2
    ensures Inv(EXAMPLE, systems[1]) && Misleads(EXAMPLE, systems[1], events[1].req) && !Guarded(EXAMPLE, systems[2])
  {
    KernelOnlyFacts();
    NetworkIsRewritable();
    KernelFacts(Absent, OLD);
    UnlockedIsInv(Absent, OLD, KernelOnly());
    var e, post := UncoveredReuse(EXAMPLE, Unlocked(Absent, OLD, KernelOnly()), APPLY, 1);
    CancelledRun();
    RequestsAreValid();
    OneMoreStep(Unlocked(Absent, OLD, map[]), CancelledSingle(), Unlocked(Absent, OLD, KernelOnly()), e, post);
    systems, events := [Unlocked(Absent, OLD, map[]), Unlocked(Absent, OLD, KernelOnly()), post], [CancelledSingle(), e];
  }

  const OTHER := ProductionRequest(1, RequestId('c'), ApplyModules, BOTH, None)
  const UNDO_OTHER := ProductionRequest(1, RequestId('b'), RollbackBackup, [], Some(ApplyBackupId(OTHER)))

  function BothAndOldRecovery(): Store {
    map[ApplyBackupId(OTHER) := Whole(BothSnapshot(Absent, OLD)), RecoveryBackupId(UNDO_OTHER) := Whole(KernelSnapshot(Absent))]
  }

  lemma {:induction false} OtherRequestsAreValid()
    ensures ValidRequest(UNDO_OTHER) && ApplyBackupId(OTHER) != RecoveryBackupId(UNDO_OTHER)
  {
    RequestIdIsValid('b');
    RequestIdIsValid('c');
    OwnBackupIdsAreValid(OTHER);
    assert |RecoveryBackupId(UNDO_OTHER)| == 45 && |ApplyBackupId(OTHER)| == 43;
  }

  /** A rollback is misled in the same way by an old recovery backup. */
  lemma {:induction false} RollbackCanMislead() returns (sys: System, e: Event, post: System)
    ensures ValidRequest(UNDO_OTHER) && Inv(EXAMPLE, sys) && Misleads(EXAMPLE, sys, UNDO_OTHER)
    ensures Step(EXAMPLE, sys, e, post) && e.req == UNDO_OTHER && !Guarded(EXAMPLE, post)
  {
    OtherRequestsAreValid();
    KernelFacts(Absent, OLD);
    BothFacts(Absent, OLD);
    Selections();
    NetworkIsRewritable();
    sys := Unlocked(Absent, OLD, BothAndOldRecovery());
    UnlockedIsInv(Absent, OLD, BothAndOldRecovery());
    assert Affected(EXAMPLE, sys, UNDO_OTHER) == EXAMPLE.modules;
    e, post := UncoveredReuse(EXAMPLE, sys, UNDO_OTHER, 1);
  }

  lemma {:induction false} CancelledRun()
    ensures RunFromClean([Unlocked(Absent, OLD, map[]), Unlocked(Absent, OLD, KernelOnly())], [CancelledSingle()])
  {
    ExampleIsValid();
    RequestsAreValid();
    EmptyStore();
    UnlockedIsInv(Absent, OLD, map[]);
    SingleIsCancelled();
    RunOfOne(EXAMPLE, Unlocked(Absent, OLD, map[]), CancelledSingle(), Unlocked(Absent, OLD, KernelOnly()));
  }
}
