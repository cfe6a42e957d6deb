/** Requests the helper accepts, and a host for the example manifest. */
module ExampleHost {
  import opened Common
  import opened Json
  import opened SysctlText
  import opened ProductionProtocol
  import opened SysctlManifests
  import opened ManifestLoader
  import opened TransactionModel
  import opened TransactionSpec
  import opened ProcessSpec
  import opened Lockout
  import opened PolicyFacts
  import opened ExampleManifest

  // ----- identifiers -----

  /** `(?:backup|recovery)-[0-9a-f]{8}-[0-9a-f-]{27}`, which the backup store asks of every ID. */
  predicate IsStoreId(s: string) {
    ("backup-" <= s && IsHexTail(s[7..])) || ("recovery-" <= s && IsHexTail(s[9..]))
  }

  predicate IsHexTail(s: string) {
    && |s| == 36 && s[8] == '-' && (forall i :: 0 <= i < 8 ==> IsHex(s[i]))
    && forall i :: 9 <= i < 36 ==> IsHex(s[i]) || s[i] == '-'
  }

  /** The backups a valid request makes have IDs that the store takes and a later rollback can name: those of an
      apply begin with `backup-`, those of a rollback with `recovery-`. */
  lemma OwnBackupIdsAreValid(req: ProductionRequest)
    requires IsRequestId(req.requestId)
    ensures "backup-" <= ApplyBackupId(req) && "recovery-" <= RecoveryBackupId(req)
    ensures IsStoreId(ApplyBackupId(req)) && IsBackupId(ApplyBackupId(req))
    ensures IsStoreId(RecoveryBackupId(req)) && IsBackupId(RecoveryBackupId(req))
  {
    assert ApplyBackupId(req)[7..] == req.requestId && RecoveryBackupId(req)[9..] == req.requestId;
  }

  /** A request ID whose free digits are all `digit`. */
  function RequestId(digit: char): string {
    seq(36, i => if i in {8, 13, 18, 23} then '-' else if i == 14 then '4' else if i == 19 then '8' else digit)
  }

  lemma {:induction false} RequestIdIsValid(digit: char)
    requires IsHex(digit)
    ensures IsRequestId(RequestId(digit))
  {
  }

  // ----- the requests -----

  const APPLY := ProductionRequest(1, RequestId('a'), ApplyModules, BOTH, None)
  const SINGLE := ProductionRequest(1, RequestId('a'), ApplyModule, [KERNEL.id], None)
  const NETWORK_ALONE := ProductionRequest(1, RequestId('a'), ApplyModule, [NETWORK.id], None)
  const BACKUP := ApplyBackupId(APPLY)
  const UNDO := ProductionRequest(1, RequestId('b'), RollbackBackup, [], Some(BACKUP))

  lemma {:induction false} RequestsAreValid()
    ensures ValidRequest(APPLY) && ValidRequest(SINGLE) && ValidRequest(UNDO)
    ensures Admitted(EXAMPLE, APPLY) && Admitted(EXAMPLE, SINGLE) && Admitted(EXAMPLE, UNDO)
    ensures Knows(EXAMPLE, BOTH) && Knows(EXAMPLE, [KERNEL.id])
    ensures ApplyBackupId(SINGLE) == BACKUP != RecoveryBackupId(UNDO)
  {
    RequestIdIsValid('a');
    RequestIdIsValid('b');
    OwnBackupIdsAreValid(APPLY);
    ExampleIsValid();
    ExampleLists();
    assert ValidModule(EXAMPLE.modules[0]) && ValidModule(EXAMPLE.modules[1]);
    assert EXAMPLE.multiApply[0] == BOTH && EXAMPLE.singleApply[0] == KERNEL.id;
    assert |RecoveryBackupId(UNDO)| == 45 && |BACKUP| == 43;
    assert BOTH[0] == KERNEL.id;
  }

  lemma {:induction false} SingleListHasKernelOnly()
    ensures Listed(EXAMPLE, SINGLE) && Listed(EXAMPLE, APPLY) && !Listed(EXAMPLE, NETWORK_ALONE)
  {
    ExampleLists();
    assert EXAMPLE.singleApply[0] == KERNEL.id && EXAMPLE.multiApply[0] == BOTH;
    assert NETWORK_ALONE.moduleIds[0] != KERNEL.id;
  }

  /** The packaged policy lets the kernel module be applied alone and both together. A well-formed request for
      the network module alone is refused, and files, values, backups and marker stay as they are. */
  lemma {:induction false} NetworkAloneIsRefused(pre: State, end: End, post: State, cleared: Option<World>)
    requires Hosts(pre.world, EXAMPLE.modules) && ExecuteSpec(EXAMPLE, NETWORK_ALONE, pre, end, post, cleared)
    ensures ValidRequest(NETWORK_ALONE) && post == pre && end == Escaped
  {
    ExampleIsValid();
    RequestIdIsValid('a');
    NetworkIsValid();
    SingleListHasKernelOnly();
    PolicyIsExact(EXAMPLE, NETWORK_ALONE, pre, end, post, cleared);
  }

  // ----- the host -----

  /** The two drop-in files as given, and untouched values. */
  function Host(kernel: FileState, network: FileState): World {
    World(map[KERNEL.target := kernel, NETWORK.target := network], map[SYSRQ := "176", FORWARDING := "1"])
  }

  /** The kernel module's file after an apply wrote it. */
  const APPLIED := Present(0x180, 0, 0, "kernel.sysrq" + " = 0\n")

  function BothSnapshot(kernel: FileState, network: FileState): Snapshot {
    Snapshot("digest", BOTH, [FileSnapshot(KERNEL.target, kernel), FileSnapshot(NETWORK.target, network)],
             [(SYSRQ, "176"), (FORWARDING, "1")])
  }

  function KernelSnapshot(kernel: FileState): Snapshot {
    Snapshot("digest", [KERNEL.id], [FileSnapshot(KERNEL.target, kernel)], [(SYSRQ, "176")])
  }

  lemma {:induction false} ModulesFound()
    ensures Lookup(EXAMPLE.modules, KERNEL.id) == Some(KERNEL) && Lookup(EXAMPLE.modules, NETWORK.id) == Some(NETWORK)
  {
    ExampleLists();
    assert EXAMPLE.modules[1..] == [NETWORK];
    assert Lookup([NETWORK], NETWORK.id) == Some(NETWORK);
  }

  lemma {:induction false} Selections()
    ensures Knows(EXAMPLE, BOTH) && Selected(EXAMPLE, BOTH) == EXAMPLE.modules
    ensures Knows(EXAMPLE, [KERNEL.id]) && Selected(EXAMPLE, [KERNEL.id]) == [KERNEL]
  {
    RequestsAreValid();
    ModulesFound();
  }

  lemma {:induction false} ExampleIsHosted(kernel: FileState, network: FileState)
    ensures Hosts(Host(kernel, network), EXAMPLE.modules) && Hosts(Host(kernel, network), [KERNEL])
  {
    ExampleLists();
    assert HostsModule(Host(kernel, network), KERNEL) && HostsModule(Host(kernel, network), NETWORK);
  }

  /** A backup of both modules. */
  lemma {:induction false} BothFacts(kernel: FileState, network: FileState)
    ensures Hosts(Host(kernel, network), EXAMPLE.modules)
    ensures SnapshotOf(EXAMPLE, EXAMPLE.modules, Host(kernel, network)) == BothSnapshot(kernel, network)
    ensures Knows(EXAMPLE, BOTH) && WellFormed(EXAMPLE, BothSnapshot(kernel, network)) && Separate(BothSnapshot(kernel, network))
    ensures Matches(Host(kernel, network), BothSnapshot(kernel, network))
  {
    Selections();
    ExampleLists();
    ExampleIsHosted(kernel, network);
    var w, mods := Host(kernel, network), EXAMPLE.modules;
    HostsLists(w, mods);
    OwnSnapshotMatches(EXAMPLE, mods, w);
    assert FileSnapshots(mods, w) == BothSnapshot(kernel, network).files;
    assert Readings(KeyList(mods), w) == BothSnapshot(kernel, network).sysctls;
  }

  lemma {:induction false} KernelKeys()
    ensures KeyList([KERNEL]) == [SYSRQ] && TargetList([KERNEL]) == [KERNEL.target]
  {
    assert [KERNEL][1..] == [] && SettingKeys(KERNEL.settings) == [SYSRQ];
  }

  /** A backup of the kernel module alone. */
  lemma {:induction false} KernelFacts(kernel: FileState, network: FileState)
    ensures Hosts(Host(kernel, network), [KERNEL])
    ensures SnapshotOf(EXAMPLE, [KERNEL], Host(kernel, network)) == KernelSnapshot(kernel)
    ensures Knows(EXAMPLE, [KERNEL.id]) && WellFormed(EXAMPLE, KernelSnapshot(kernel))
    ensures Matches(Host(kernel, network), KernelSnapshot(kernel))
    ensures NETWORK.target !in Paths(KernelSnapshot(kernel))
  {
    Selections();
    ExampleLists();
    KernelKeys();
    ExampleIsHosted(kernel, network);
    var w, mods := Host(kernel, network), [KERNEL];
    HostsLists(w, mods);
    OwnSnapshotMatches(EXAMPLE, mods, w);
    assert FileSnapshots(mods, w) == KernelSnapshot(kernel).files;
    assert Readings([SYSRQ], w) == KernelSnapshot(kernel).sysctls;
    assert ModuleIds(mods) == [KERNEL.id];
    assert PathList(KernelSnapshot(kernel).files) == [KERNEL.target];
  }
}
