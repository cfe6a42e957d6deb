# A verified model of the LSMF privileged helper

LSMF hardens Linux hosts. Its privileged helper changes managed sysctl drop-in files and kernel values on
behalf of desktop callers. This project models the helper's transaction and request machinery in Dafny and
proves what it guarantees when any step fails, is cancelled, or dies. `dafny verify dfyconfig.toml` checks
everything.

## What is modelled

**The sysctl transaction engine and its process boundary.** `TransactionEngine` has the source's objects:
managed files, sysctl values, a write-once backup store with a recovery marker, and the executor with its
loops and exception handlers. Every primitive operation may succeed, raise, or be the last thing the worker
process does; a write that raises may or may not have taken effect; a sysctl write may leave any values in
the keys of the transaction. `TransactionSpec` says what one request may do, as a relation between states.
Failures from outside are counted, so that the methods also promise success when nothing goes wrong
(`Progress`), and that one failure alone never locks the host (`OneFailure`). `SysctlSpellings` says what values
are compared up to, `SettledHosts` what an apply does on a host that has the wanted values already. `PolicyFacts`
is the exact action policy on the manifest's own lists. `WorkerProcess` adds the surviving parent that delivers a
trustworthy result and otherwise marks the backup. `Lockout`, `LockoutRuns` and `ServedRuns` are about whole runs
of requests; `BackupRecords`, `LockoutLimits`, `ReusedIds` and `LockedForGood` say exactly which requests endanger
the lockout and when it can be ended; `ExampleManifest`, `ExampleHost` and `LockoutExample` hold concrete runs.

**The service.** `ServiceModel` is one state machine over the segments between await points of the bus
boundary, the live-request registry and the dispatcher, with every interleaving. Its invariants
(`ServiceInvariants`, `ServiceSteps`) give the theorems of `ServiceRuns`, `ServiceTokens` and `ServiceCauses` about
all schedules; the history holds the policy's consent, the authorizer's verdict and the stops of the tokens, so that
every record and answer has its cause. `ServiceProgress` shows that it never gets stuck. `ServiceObjects` and
`RequestRegistry` hold the objects themselves; each method is proved to make exactly the machine's step. `EndToEnd`
joins the service, the process boundary and the engine: a success that is answered is true of the host.

**The synthetic engine** (`SyntheticModel`, `SyntheticEngine`), the sibling of the sysctl engine, and the law
that both obey (`BackupFirstLaw`).

**Supporting cores.** Manifest loading from a parsed JSON value (`ManifestLoader`, `ManifestFacts`, and the grammars
as lists of parts in `SettingGrammar` and `Spellings`; `SafeNames` shows where accepted names lead), the wire
messages at the level of JSON values and the size of their text (`Wire`, `WireResults`), UTF-8 bounded text and
bounded output (`Utf8`, `HelperOutput`; section 3 of RFC 3629), the synchronous helper's gates (`HelperGate`),
and the configuration printer, parser, migration and store (`TextLines`, `Configuration`, `ConfigurationFacts`,
`LegacyConfiguration`, `LegacyKeys`, `LegacyDocuments`).

## What turned out not to hold

Each of these is a lemma; where the code falls short of its promise, the exact condition is proved, in terms of
what is known before the call.

- *A rollback can lose the marker of an unclean host.* Clearing unlinks the marker and then syncs the
  directory, inside the `try` block (`lsmf/sysctl_transaction.py:386-393`, `516-530`). If the sync raises, the
  handler puts the state from before the rollback back and answers `rollback_failed`; the half-applied state is
  then in place with nothing locked. `LockoutLimits.AlwaysGuardedIff`: every way to serve a fresh request keeps
  the lockout if and only if it does not roll the marked backup back on an unclean host whose files, and whose
  backup's files, the write guard lets through. `ReusedIds.EveryRequestIff` is the condition for all requests,
  fresh or not, and `ReusedIds.HazardlessRunsAreSafe` for whole runs. `LockoutExample.MarkerCanBeLost` is a run
  from a clean host, with a manifest the loader accepts and requests the helper accepts.
- *The marked backup is not always a clean state.* If the worker of a rollback dies after it cleared the
  marker, its recovery backup is marked, which holds the state from before (`lsmf/synthetic_process.py:302-314`).
  `LockoutLimits.AlwaysTrustedIff` is the exact condition beforehand for a fresh request in a state whose marked
  backup is still a clean one, `LockoutExample.UncleanStateCanBeMarked` a run, `LockoutRuns.RecoveryIsExact` the
  consequence for the next rollback.
- *A reused backup ID may not cover the request.* `_apply` and `_rollback` ask whether a backup of their own ID is
  eligible, not whether they created it (`lsmf/sysctl_transaction.py:489-496`, `524-533`). The engine then writes
  its own snapshot back, which leaves an absent file absent and rewrites present files with the bytes they have;
  until owner and mode are set again, such a file has the group of the writing process and a mode cut by its umask.
  `ReusedIds.ReuseIsHarmlessIff`: serving such a request on an unlocked host keeps the lockout, for every group and
  umask, if and only if no eligible backup has the ID, or that backup covers every present file the request would
  get to. `LockoutExample.ReuseCanMislead` is a run, `LockoutExample.RollbackCanMislead` the case of a rollback.
- *Disjoint targets are disjoint texts, not disjoint files.* `etc/sysctl.d//x.conf` is accepted beside
  `etc/sysctl.d/x.conf` (`lsmf/sysctl_manifest.py:104-114`, `153-156`). `ManifestFacts.DisjointTargetsAreNotDisjointFiles`
  does this to any manifest; `ManifestFacts.DisjointFilesIff`: no two modules share a file if and only if their
  targets, without empty components and dots, are pairwise different texts.
- *A file whose mode has more than permission bits cannot be restored* (`lsmf/sysctl_transaction.py:117-119`), so a
  lockout need not end. `LockedForGood.RecoveryIsPossibleIff`: a fresh rollback of the marked backup can release the
  marker, and can succeed, if and only if that backup can be written back and the files as they are can be backed
  up. `LockedForGood.LockedForeverIff`: otherwise, and only then, no run at all releases the marker.
  `LockoutExample.HostCanBeStuck` is such a run.
- *The synthetic engine can answer with a mixed tree and no marker*, when the compensation fails and the marker
  cannot be written: the exception becomes an ordinary failed result (`lsmf/synthetic_executor.py:535-538`).
  `BackupFirstLaw.ApplyObeysIff` and `BackupFirstLaw.RollbackObeysIff`: every answer obeys the law if and only
  if the request does not find an unlocked tree, a free backup ID, files that can be backed up, and two files to
  change. `BackupFirstLaw.UnmarkedBreaksTheLaw`: on an empty tree that is every selection of two or more modules
  with different targets. When a rollback under a marker fails in this engine, the reply names the new recovery
  backup although the first marker stays (`SyntheticEngine.SyntheticExecutor.Rollback`).
- *The synthetic engine accepts targets of up to 65536 bytes but cannot back up the largest*, because the record
  with their content in base64 has the same limit (`lsmf/synthetic_executor.py:231`, `326-327`).
  `SyntheticModel.BigTargetIsNeverChanged`: with a target of 49150 bytes or more every apply fails and changes nothing.
- *The configuration writer accepts values that the parser refuses.* The schema forbids only line feed and
  carriage return, but `splitlines` breaks lines at more characters (`lsmf/configuration.py:55-57`, `73-75`).
  `ConfigurationFacts.RoundTripIff` and `ConfigurationFacts.ParseOfWrite` say exactly what then happens,
  `ConfigurationFacts.VerticalTabIsLost` gives a value under the shipped schema.
- *A valid result can be too long for the wire*, because characters are escaped with two or six bytes.
  `WireResults.ResultFitsIff` is the exact condition; `WireResults.FewEscapesFit` and `WireResults.PlainOutputFits`
  give simple ones, `WireResults.ControlOutputDoesNotFit` a valid result that does not fit. In the service such
  a result leaves no answer after its terminal record (`ServiceSteps.ExecutorReturnsKeeps`). Requests always
  fit (`WireResults.RequestFits`).
- The manifest version is compared as a number, so the float 2.0 is accepted like the integer 2
  (`lsmf/sysctl_manifest.py:131`), and so is the version 1.0 of a result (`WireResults.ResultDecodesIff`).

The failing requests are instances of the relations that the engines' methods are proved to satisfy
(`TransactionSpec.ExecuteSpec`, `SyntheticModel.ApplyTreeSpec`, `SyntheticModel.RollbackTreeSpec`), each along the
failures named above; no run of the program is claimed.

## Model

| member | source | states |
|---|---|---|
| `TransactionEngine.CancellationToken.Cancel` | lsmf/synthetic_executor.py:65-68 | the first cancellation fixes the reason, later ones change nothing |
| `TransactionEngine.CancellationToken.Checkpoint` | lsmf/synthetic_executor.py:70-72 | stops exactly when cancelled, and never undoes a cancellation |
| `TransactionEngine.ManagedFiles.Write` | lsmf/sysctl_transaction.py:117-145 | afterwards the file is as before or has the new bytes and no mode bit beyond those asked for; success implies the new bytes; it succeeds unless it is too large, asks for more than permission bits, or something fails; no other file changes |
| `TransactionEngine.ManagedFiles.Restore` | lsmf/sysctl_transaction.py:147-162 | success gives exactly the snapshot's content, mode, owner and group, or absence, and happens only if the write guard lets them through; an absent file is not created for an absent snapshot; no other file changes |
| `TransactionEngine.SysctlValues.Write` | lsmf/sysctl_transaction.py:198-212 | keys outside the coupled set keep their values, whatever happens to the others; a faithful kernel stores what is written, up to white space, and changes nothing else |
| `TransactionEngine.BackupStore.Create` | lsmf/sysctl_transaction.py:238-290 | write-once: adds at most its own record and never touches an existing one; success means the record holds the snapshot |
| `TransactionEngine.BackupStore.Load` | lsmf/sysctl_transaction.py:292-339 | success returns the stored snapshot of an eligible backup |
| `TransactionEngine.BackupStore.RecoveryBackupId` | lsmf/sysctl_transaction.py:348-364 | returns the marked backup only if it is eligible, none only if no marker exists, and fails on a damaged marker |
| `TransactionEngine.BackupStore.MarkRecoveryRequired` | lsmf/sysctl_transaction.py:366-384 | an existing marker is never replaced; only an eligible backup is marked; it is marked unless another marker stands or something fails |
| `TransactionEngine.BackupStore.ClearRecoveryRequired` | lsmf/sysctl_transaction.py:386-393 | removes only the marker of the given backup, and may have removed it although it raises |
| `TransactionEngine.TransactionExecutor.TakeSnapshot` | lsmf/sysctl_transaction.py:431-438 | the snapshot holds the current files and values of the listed modules, in manifest order |
| `TransactionEngine.TransactionExecutor.RestoreFiles` | lsmf/sysctl_transaction.py:445-446 | puts every listed file back and touches no other; when all files already match, it rewrites present ones only, in order, with the bytes they have |
| `TransactionEngine.TransactionExecutor.RestoreValues` | lsmf/sysctl_transaction.py:447-449 | writes exactly the values that differ by more than whitespace |
| `TransactionEngine.TransactionExecutor.Restore` | lsmf/sysctl_transaction.py:444-455 | when it returns, files equal the snapshot and values agree up to whitespace; it touches nothing outside the snapshot, writes no sysctl that already agrees, and returns unless something failed |
| `TransactionEngine.TransactionExecutor.ApplySettings` | lsmf/sysctl_transaction.py:470-473 | writes exactly the settings that do not hold, and leaves all of them holding, with a checkpoint after each |
| `TransactionEngine.TransactionExecutor.ApplyModule` | lsmf/sysctl_transaction.py:469-473 | renders the drop-in file, private to its owner, and settles the module's keys, touching nothing else |
| `TransactionEngine.TransactionExecutor.ApplyAll` | lsmf/sysctl_transaction.py:468-473 | the mutation loop touches only the modules' files and keys, writes no sysctl when all keys already have their desired values, and reaches the desired state unless something failed, was cancelled, or the kernel did not comply |
| `TransactionEngine.TransactionExecutor.VerifyAll` | lsmf/sysctl_transaction.py:474-479 | returns only if every file is the rendered drop-in and every key has its desired value |
| `TransactionEngine.TransactionExecutor.ApplyBody` | lsmf/sysctl_transaction.py:463-479 | nothing is touched before the snapshot is durably backed up, for every way of leaving the try block |
| `TransactionEngine.TransactionExecutor.RestoreOrMark` | lsmf/sysctl_transaction.py:483-496 | a handler ends with the snapshot verified, or its backup marked, or an uncaught exception, or death; it restores unless something fails, and with no marker in its way an exception escapes only if the backup directory fails |
| `TransactionEngine.TransactionExecutor.Apply` | lsmf/sysctl_transaction.py:457-498 | all or nothing for every failure, cancellation and death; undisturbed it succeeds, and its files are private to their owner; after one failure, or a cancellation alone, it is settled without a marker; a repeated apply writes no sysctl; an exception escapes only if the backup directory failed; a cancelled result has the token's reason |
| `TransactionEngine.TransactionExecutor.RollbackBody` | lsmf/sysctl_transaction.py:505-514 | the recovery snapshot is durable before the target is restored |
| `TransactionEngine.TransactionExecutor.ReleaseMarker` | lsmf/sysctl_transaction.py:514-517 | the marker is cleared last, in the restored world |
| `TransactionEngine.TransactionExecutor.Rollback` | lsmf/sysctl_transaction.py:500-534 | ends in the verified target, or the verified state from before with the marker untouched, or locked by a backup that covers every change, or with a lost marker; undisturbed it succeeds; after one failure, or a cancellation alone, it succeeded or was undone |
| `TransactionEngine.TransactionExecutor.Execute` | lsmf/sysctl_transaction.py:419-429 | what one request may do to files, values, store and marker; an apply that the manifest does not list does nothing and raises; a listed apply and an acceptable rollback succeed when undisturbed; a stop is answered with the reason of the token |
| `TransactionEngine.UndoneApply` | lsmf/sysctl_transaction.py:480-497 | after compensation, every unfinished apply is all-or-nothing |
| `TransactionEngine.UndoneRollback` | lsmf/sysctl_transaction.py:518-533 | after compensation, every unfinished rollback is undone, locked, or has lost its marker |
| `Progress.SelectedIsWritable` | lsmf/sysctl_manifest.py:117-179 | a loaded manifest gives every selection of modules separate files and keys, canonical values, and files within the size limit |
| `Progress.SnapshotIsRestorable` | lsmf/sysctl_transaction.py:431-438 | the backup of such modules lists no file or key twice and can be restored |
| `Progress.ApplyAndRollBack` | lsmf/sysctl_transaction.py:457-534 | undisturbed, an apply reaches the desired state and the rollback of its backup returns the host to where it was |
| `OneFailure.ApplyDespiteOneFailure` | lsmf/sysctl_transaction.py:480-498 | if at most one operation fails, or the caller cancels and none does, and the worker survives, an apply of a valid manifest leaves no marker, and the host as wanted or as it was |
| `OneFailure.RollbackDespiteOneFailure` | lsmf/sysctl_transaction.py:518-534 | the same for a rollback: its backup is restored and nothing locked, or the host is as it was |
| `SettledHosts.ApplySettled` | lsmf/sysctl_transaction.py:468-479 | on a host whose kernel reports the wanted values in any spelling, a listed apply writes no sysctl and, undisturbed, succeeds, whatever the kernel would make of a write |
| `PolicyFacts.PolicyIsExact` | lsmf/sysctl_manifest.py:203-211 | an apply named by the manifest's own lists may do exactly what an apply may, and every other changes nothing and raises |
| `PolicyFacts.RollbackPolicyIsExact` | lsmf/sysctl_transaction.py:500-510 | a rollback under a marker of another backup, or of a backup that is not whole, of another manifest, or of unknown modules, changes nothing; every other may do exactly what a rollback may |
| `PolicyFacts.UnlistedIsInert` | lsmf/sysctl_transaction.py:419-424 | whatever the manifest, an apply with a fresh ID that it does not list changes nothing on the host and delivers no result of a worker |
| `PolicyFacts.UnlistedModuleStays` | lsmf/sysctl_manifest.py:203-211 | a module that no listed apply names keeps its file and values over every run |
| `PolicyFacts.OutsideStays` | lsmf/sysctl_transaction.py:457-534 | over every run, a file or value that no module of the manifest names never changes |
| `PolicyFacts.ResultsAreHonest` | lsmf/sysctl_transaction.py:536-560 | every returned result has the request's ID and action and the status of its code, names the modules worked on or asked for, and the backup made, restored or, if recovery is required, marked |
| `ExampleHost.NetworkAloneIsRefused` | lsmf/sysctl_transaction.py:419-424 | under the packaged lists a valid request for the network module alone changes nothing |
| `SysctlText.CanonicalIsCanonical` | lsmf/sysctl_transaction.py:70-74 | canonicalizing twice is canonicalizing once, and it keeps the words, so comparing canonical forms is comparing words |
| `SysctlText.ValueIsCanonical` | lsmf/sysctl_manifest.py:19-19 | every accepted desired value is its own canonical form, so comparing with it is exact |
| `SysctlSpellings.CanonicalOfSpelling` | lsmf/sysctl_transaction.py:70-74 | words with any white space between and around them become the words with one space between them |
| `SysctlSpellings.CanonicalsAgreeIff` | lsmf/sysctl_transaction.py:70-74 | two values are equal after canonicalization if and only if they spell the same words |
| `SysctlSpellings.AllHoldIffReported` | lsmf/sysctl_transaction.py:471-478 | the settings hold, so that nothing is written and verification passes, if and only if the kernel reports the words of each desired value in some spelling |
| `SysctlSpellings.ValuesMatchIff` | lsmf/sysctl_transaction.py:447-455 | a restoration takes values for equal if and only if they spell the same words |
| `SysctlSpellings.PrintkIsCanonical` | lsmf/sysctl_transaction.py:70-74 | the tabs in which the kernel reports `kernel.printk` make no difference |
| `TransactionModel.OwnSnapshotMatches` | lsmf/sysctl_transaction.py:431-438 | a host verifies against its own snapshot |
| `TransactionModel.RestoredIsEquivalent` | lsmf/sysctl_transaction.py:444-455 | restoring a snapshot after changes within its coverage returns the whole host to where it was, up to sysctl whitespace |
| `TransactionModel.MatchingWorldsAgree` | lsmf/sysctl_transaction.py:450-455 | two hosts that verify against one snapshot agree on everything it covers |
| `TransactionModel.RenderedFileIsPresent` | lsmf/sysctl_transaction.py:440-442 | the rendered content of a module is never the empty content of an absent file |
| `SettingGrammar.ContentReadsBack` | lsmf/sysctl_transaction.py:440-442 | a rendered drop-in reads back as its settings, one on each line, in order |
| `TransactionModel.OwnerBitsOnly` | lsmf/sysctl_transaction.py:117-124 | a file created with mode 0600 is private to its owner under every umask |
| `TransactionSpec.TargetIsHosted` | lsmf/sysctl_transaction.py:506-510 | the recovery snapshot of a rollback covers exactly what restoring its target touches |
| `WorkerProcess.ReadBounded` | lsmf/synthetic_process.py:316-328 | returns the whole output if it fits, and otherwise exactly one byte more than the limit |
| `WorkerProcess.ProcessExecutor.MarkUncertain` | lsmf/synthetic_process.py:302-314 | marks the request's own eligible backup unless a marker stands or writing it fails, and names it exactly if it is marked then |
| `WorkerProcess.ProcessExecutor.Supervise` | lsmf/synthetic_process.py:196-209 | the worker has ended afterwards, even one that would go on for ever, which is killed; polling never changes a cancellation reason; a request that is cancelled already has its running worker asked to stop, with the signal that tells the reason, and one that is not cancelled never has; the stop is forced exactly if the worker was then killed |
| `WorkerProcess.ProcessExecutor.Stop` | lsmf/synthetic_process.py:253-275 | asks with the signal of the reason, kills exactly a worker that does not end, reports exactly the kill as forced, and sends nothing to a worker that is gone |
| `WorkerProcess.ProcessExecutor.Execute` | lsmf/synthetic_process.py:155-251 | a result is delivered if and only if the worker was not killed, exited with code 0, and its output was read, fits, decodes, answers this request and has the status of a cancellation's reason; then world, store and marker are as the worker left them, and otherwise the request is refused and marked; undisturbed, a listed apply and an acceptable rollback are delivered as successes |
| `WorkerProcess.ProcessExecutor.Collect` | lsmf/synthetic_process.py:210-251 | judges the output of a worker that has ended: delivered exactly if trustworthy, and otherwise marked; the marked backup is named when the worker was killed, failed or wrote too much |
| `WorkerProcess.ProcessExecutor.Judge` | lsmf/synthetic_process.py:236-251 | delivers exactly a result that answers this request and confirms a cancellation with the status of its reason |
| `Lockout.WorkKeepsSound` | lsmf/sysctl_transaction.py:431-438 | every backup a worker leaves lists exactly the targets and keys of its modules in manifest order |
| `Lockout.ApplyKeepsGuard` | lsmf/sysctl_transaction.py:457-498 | an apply and its parent keep the lockout |
| `Lockout.CoveredByTarget` | lsmf/sysctl_transaction.py:500-511 | a rollback that is let in restores a backup covering every difference from the last clean state |
| `Lockout.FailedRollbackKeepsGuard` | lsmf/sysctl_transaction.py:518-533 | a failed rollback keeps the lockout unless it loses the marker of an unclean host |
| `Lockout.LosingTheMarkerUnlocks` | lsmf/sysctl_transaction.py:386-393 | losing the marker of an unclean host leaves it unclean and unlocked |
| `Lockout.StepKeepsGuard` | lsmf/synthetic_process.py:225-250 | one request keeps the lockout if and only if it does not lose the marker of an unclean host |
| `LockoutRuns.LockoutSafety` | lsmf/synthetic_process.py:225-250 | over any run of requests, failures, cancellations and deaths every state is clean or locked behind a covering backup, if and only if no rollback lost the marker of an unclean host |
| `LockoutRuns.LockedApplyIsInert` | lsmf/sysctl_transaction.py:457-460 | while a marker stands, an apply changes nothing |
| `LockoutRuns.MarkerDiscipline` | lsmf/sysctl_transaction.py:366-393 | a marker stays until a rollback of exactly its backup verified that backup |
| `LockoutRuns.DamagedMarkerBlocks` | lsmf/sysctl_transaction.py:348-364 | a damaged marker blocks every request for good |
| `LockoutRuns.UnrestorableBackupBlocks` | lsmf/sysctl_transaction.py:117-119 | a marked backup with a file that the write guard refuses is never released, and no later request succeeds |
| `LockoutRuns.BackupsAreWriteOnce` | lsmf/sysctl_transaction.py:238-290 | no later request changes or removes a backup |
| `LockoutRuns.StoreStaysCovered` | lsmf/sysctl_transaction.py:431-438 | in every run, each backup of this manifest covers exactly its modules |
| `LockoutRuns.RollbackReturnsToSnapshotTime` | lsmf/sysctl_transaction.py:500-534 | however much later, rolling back an apply's backup returns its modules to their state before that apply and changes nothing else |
| `LockoutRuns.RecoveryIsExact` | lsmf/sysctl_transaction.py:500-517 | the rollback that ends a lockout restores the last clean state if and only if the marked backup agrees with it |
| `LockoutRuns.StepKeepsTrust` | lsmf/synthetic_process.py:302-314 | after any request, the marked backup agrees with the clean world, if and only if the request did not mark its own recovery backup of an unclean host |
| `BackupRecords.RecordsAreSeparate` | lsmf/sysctl_manifest.py:145-179 | with a valid manifest, no backup lists a file or key twice |
| `BackupRecords.RunStaysOrderly` | lsmf/sysctl_transaction.py:431-438 | this and the shape of all backups hold in every state of every run |
| `LockoutLimits.LostMarker` | lsmf/sysctl_transaction.py:516-530 | every rollback of the marked backup of an unclean host can lose the marker, if the files can be written back |
| `LockoutLimits.UncleanMark` | lsmf/synthetic_process.py:302-314 | from a state whose marked backup is clean, every one can end with the unclean state marked and the backup restored |
| `LockoutLimits.AlwaysGuardedIff` | lsmf/sysctl_transaction.py:500-534 | before a fresh request: every way to serve it keeps the lockout, if and only if it is not such a rollback |
| `LockoutLimits.AlwaysTrustedIff` | lsmf/synthetic_process.py:225-250 | before a fresh request in a state whose marked backup is clean: every way to serve it keeps that, if and only if it is not a rollback of the marked backup of an unclean host whose files can be backed up |
| `ReusedIds.ReusedApplyRewritesOnly` | lsmf/sysctl_transaction.py:480-496 | with a taken backup ID an apply never succeeds, keeps the store, and changes nothing but owner, group or mode of present files it rewrites |
| `ReusedIds.ReusedRollbackRewritesOnly` | lsmf/sysctl_transaction.py:518-533 | the same for a rollback with a taken recovery ID, which also keeps a standing marker |
| `ReusedIds.UncoveredReuse` | lsmf/sysctl_transaction.py:489-496 | if the old backup misses one present file that the request gets to, a killed worker breaks the lockout |
| `ReusedIds.ReuseIsHarmlessIff` | lsmf/sysctl_transaction.py:480-533 | serving an apply or rollback with a taken backup ID on an unlocked host is harmless if and only if no eligible backup has it, or that backup covers every present file the request gets to |
| `ReusedIds.EveryRequestIff` | lsmf/synthetic_process.py:155-251 | before any request, fresh or not: every way to serve it keeps the lockout, if and only if it can neither lose the marker nor be misled by a taken ID |
| `ReusedIds.HazardlessRunsAreSafe` | lsmf/synthetic_process.py:155-251 | any run of a valid manifest without such requests keeps every state clean or locked behind a covering backup |
| `ReusedIds.SafeRequestsKeepTheLockout` | lsmf/synthetic_process.py:225-250 | a run of fresh requests without rollbacks of the marked backup of an unclean host also keeps every marked backup clean |
| `LockedForGood.RecoveryIsPossibleIff` | lsmf/sysctl_transaction.py:500-517 | a fresh rollback of the marked backup can release the marker, and can succeed, if and only if the backup can be written back and the present files can be backed up |
| `LockedForGood.StuckForGood` | lsmf/sysctl_transaction.py:457-534 | a host whose marked backup cannot be rolled back stays so in every run, and no request succeeds again |
| `LockedForGood.LockedForeverIff` | lsmf/sysctl_transaction.py:366-393 | no run ever releases the marker, if and only if the marked backup cannot be rolled back |
| `ExampleManifest.PlainTarget` | lsmf/sysctl_manifest.py:104-114 | any plain name makes an accepted drop-in target |
| `ExampleManifest.ExampleIsValid` | packaging/privileged-helper/sysctl-manifest.json:1-45 | the packaged modules, cut to one setting each, form a manifest the loader accepts |
| `ExampleHost.OwnBackupIdsAreValid` | lsmf/sysctl_transaction.py:28-28 | the backup IDs a valid request makes, with the prefix of their action, are accepted by the store and by the protocol |
| `LockoutExample.MarkerCanBeLost` | lsmf/sysctl_transaction.py:516-530 | a run from a clean host, with a valid manifest and valid fresh requests, that ends half applied and unlocked |
| `LockoutExample.UncleanStateCanBeMarked` | lsmf/synthetic_process.py:302-314 | another that ends with the half-applied state as the marked backup |
| `LockoutExample.HostCanBeStuck` | lsmf/sysctl_transaction.py:117-119 | another that ends half applied and locked for good |
| `LockoutExample.ReuseCanMislead` | lsmf/sysctl_transaction.py:489-496 | a run of valid requests, the second with the ID of the first, that ends with a changed file and a marker that does not cover it |
| `LockoutExample.RollbackCanMislead` | lsmf/sysctl_transaction.py:524-533 | a guarded state and a valid rollback with the same end |
| `ServedRuns.ServeAll` | lsmf/synthetic_process.py:155-251 | the process executor, called for any requests, produces the runs of the lockout theorems, and so has their guarantee; listed applies of a loaded manifest with fresh IDs are all delivered as successes and leave no marker when nothing fails and nobody cancels |
| `RequestRegistry.LiveRequestRegistry.Register` | lsmf/ipc_security.py:179-186 | registers exactly an ID that is neither live nor recent while there is room |
| `RequestRegistry.LiveRequestRegistry.RequireLive` | lsmf/ipc_security.py:188-192 | accepts exactly a live, identical binding |
| `RequestRegistry.LiveRequestRegistry.RequireOwner` | lsmf/ipc_security.py:194-203 | returns the live request only to its full identity |
| `RequestRegistry.LiveRequestRegistry.Complete` | lsmf/ipc_security.py:205-210 | moves exactly the identical live binding to the recent IDs |
| `RequestRegistry.LiveRequestRegistry.InvalidateOwner` | lsmf/ipc_security.py:212-224 | moves exactly the owner's requests to the recent IDs |
| `RequestRegistry.LiveRequestRegistry.InvalidateIdentity` | lsmf/ipc_security.py:226-237 | moves exactly the requests of that full identity to the recent IDs |
| `RequestRegistry.LiveRequestRegistry.TrimRecent` | lsmf/ipc_security.py:239-241 | keeps the newest recent IDs |
| `RequestRegistry.FinishKeepsInv` | lsmf/ipc_security.py:205-224 | live and recent IDs stay unique, disjoint and bounded, and recent stays the end of the finish order |
| `RequestRegistry.InvalidationIsExact` | lsmf/ipc_security.py:212-224 | invalidating an owner removes exactly the owner's requests |
| `RequestRegistry.KeepKeepsOrder` | lsmf/ipc_security.py:212-224 | the requests that leave, and those that stay, keep their order of registration |
| `RequestRegistry.ReplayWindow` | lsmf/ipc_security.py:179-210 | an ID is admitted again only after at least `max_recent` later finishes, and is recent exactly while among the last `max_recent` |
| `ServiceInvariants.LeaveKeeps` | lsmf/production_dispatcher.py:173-183 | a request that leaves the dispatcher keeps registry, bindings, operations, lock, queue and history in agreement |
| `ServiceSteps.SubmitKeeps` | lsmf/system_bus_service.py:76-106 | a submission, whatever becomes of it, keeps all invariants |
| `ServiceSteps.ClashKeeps` | lsmf/production_dispatcher.py:92-98 | an ID whose stale operation still runs is refused and completed at once |
| `ServiceSteps.TakeLockKeeps` | lsmf/production_dispatcher.py:112-113 | the next waiter takes the lock and passes its checkpoint or leaves |
| `ServiceSteps.JudgedKeeps` | lsmf/production_dispatcher.py:114-136 | authorization, checkpoint, started record and executor task keep all invariants |
| `ServiceSteps.DeadlineKeeps` | lsmf/production_dispatcher.py:141-143 | the deadline cancels the token and keeps waiting |
| `ServiceSteps.ExecutorReturnsKeeps` | lsmf/production_dispatcher.py:144-172 | the executor's end and the terminal audit attempt close the bracket, whether or not the result then fits the wire |
| `ServiceSteps.OwnerLeavesKeeps` | lsmf/system_bus_service.py:129-143 | a disconnect keeps all invariants |
| `ServiceSteps.StepKeepsInv` | lsmf/production_dispatcher.py:89-202 | every step of every interleaving keeps all invariants |
| `ServiceRuns.LayersAgree` | lsmf/system_bus_service.py:76-157 | at every scheduling point the registry's live map is the boundary's, each live request has an operation with the identical binding, bounds and replay order hold, and only the lock's holder is past the lock |
| `ServiceRuns.GateOrder` | lsmf/production_dispatcher.py:103-136 | an executor task is created only after policy, authorization, last checkpoint and accepted started record of the same request, in this order, and once |
| `ServiceRuns.EveryRequestIsTraced` | lsmf/production_dispatcher.py:89-183 | every admitted request is in progress with the path of its phase, or has one complete path: refused for its cause, not started, or executed, and then its only answer |
| `ServiceRuns.AnswersAreRecorded` | lsmf/production_dispatcher.py:163-172 | a success is answered only after a successful execution whose terminal record was accepted; a record that is not accepted turns the answer into failed |
| `ServiceRuns.AnswersAreExact` | lsmf/production_dispatcher.py:105-180 | every answer is exactly what the path before it makes of it: the recorded refusal, nothing, `failed`, or the result if it fits; and nothing for a request that is no longer live |
| `ServiceCauses.RefusalsHaveCauses` | lsmf/production_dispatcher.py:105-133 | over every run: `rejected` is recorded only without the policy, `denied` exactly after the authorizer refused, `timed_out` and `cancelled` exactly after the token stopped the request for that reason |
| `ServiceCauses.RefusedIsDenied` | lsmf/production_dispatcher.py:130-133 | over every run: a request that the authorizer refuses is recorded and answered `denied` |
| `ServiceCauses.InterruptedIsStopped` | lsmf/production_dispatcher.py:173-178 | over every run: a request that its token stops before execution is recorded and answered `timed_out` exactly if the reason was the deadline, else `cancelled` |
| `ServiceCauses.StopsAreTheTokens` | lsmf/production_dispatcher.py:112-134 | a step stops a request exactly at a checkpoint or the end of an authorization, unless the authorizer refused it, with its token cancelled, and for the token's reason; the verdict is noted as given |
| `ServiceCauses.NothingTimesOutEarly` | lsmf/production_dispatcher.py:138-143 | the deadline runs only during execution, so no request is recorded as timed out before |
| `ServiceCauses.ReasonIsTheFirst` | lsmf/synthetic_executor.py:65-68 | over every run: a cancelled request's reason is the deadline exactly if the step that first cancelled it was the deadline's, while it executed with the lock; else that step was a caller's cancellation or a disconnect |
| `ServiceCauses.DeadlineReachesTheExecuting` | lsmf/production_dispatcher.py:138-143 | the deadline cancels the executing request, for this reason unless it was cancelled before, and touches nothing else |
| `ServiceRuns.StartsDoNotOverlap` | lsmf/production_dispatcher.py:112-172 | between a request's started record and its terminal attempt nobody else starts and no other executor is created |
| `ServiceRuns.StartsKeepOrder` | lsmf/production_dispatcher.py:112-135 | requests start in the order of their submission |
| `ServiceProgress.NeverStuck` | lsmf/production_dispatcher.py:112-183 | in every reachable state with an operation some coroutine can go on, whatever it is answered |
| `ServiceProgress.WakeUpsAreBounded` | lsmf/production_dispatcher.py:112-183 | and without new requests no schedule goes on for ever |
| `ServiceProgress.EveryRequestCanBeAnswered` | lsmf/production_dispatcher.py:89-183 | after any schedule all operations can be finished, each admitted request with its one complete path |
| `ServiceTokens.FirstCancellationWins` | lsmf/synthetic_executor.py:65-68 | a cancelled request keeps its first reason until it is gone, and its serial number its ID and binding |
| `ServiceTokens.OnlyLiveRequestsStart` | lsmf/production_dispatcher.py:134-136 | executors are created only for the lock's holder, uncancelled and still live, when no other executor exists |
| `ServiceTokens.CancelledNeverStarts` | lsmf/production_dispatcher.py:113-134 | a request cancelled before its executor exists never gets one |
| `ServiceTokens.DisconnectCancelsItsOwnOnly` | lsmf/production_dispatcher.py:196-202 | after a disconnect exactly the other owners' requests are live, all operations of the owner are cancelled, and all others are as before |
| `ServiceTokens.CancelReachesItsOwnOnly` | lsmf/production_dispatcher.py:185-194 | a cancellation reaches the one operation whose live request has the caller's full identity, or none |
| `ServiceTokens.LeavingTouchesItsOwnOnly` | lsmf/system_bus_service.py:91-106 | a finished operation completes exactly its own live binding; a stale one completes and answers nothing |
| `ServiceTokens.StepKeepsStale` | lsmf/system_bus_service.py:129-143 | an operation whose request is no longer live is cancelled |
| `ServiceObjects.ProductionDispatcher.Enter` | lsmf/production_dispatcher.py:89-112 | the dispatcher's first segment makes the machine's step |
| `ServiceObjects.ProductionDispatcher.AcquireLock` | lsmf/production_dispatcher.py:112-113 | the segment at the lock makes the machine's step |
| `ServiceObjects.ProductionDispatcher.Judge` | lsmf/production_dispatcher.py:114-136 | the segment after authorization makes the machine's step, whose statuses `ServiceCauses` ties to the verdict and the token |
| `ServiceObjects.ProductionDispatcher.Conclude` | lsmf/production_dispatcher.py:144-183 | the segment after the executor makes the machine's step |
| `ServiceObjects.ProductionDispatcher.CancelOne` | lsmf/production_dispatcher.py:185-194 | accepts exactly an operation with the identical binding |
| `ServiceObjects.ProductionDispatcher.Disconnected` | lsmf/production_dispatcher.py:196-202 | the loop cancels exactly the operations with the given bindings |
| `ServiceObjects.SystemBusServiceBoundary.Submit` | lsmf/system_bus_service.py:76-106 | registration and the dispatcher's first segment make the machine's step and keep all invariants |
| `ServiceObjects.SystemBusServiceBoundary.CancelRequest` | lsmf/system_bus_service.py:108-123 | a cancellation is accepted exactly if a live request with that ID has the caller's identity |
| `ServiceObjects.SystemBusServiceBoundary.Forget` | lsmf/system_bus_service.py:129-138 | the registry and the boundary forget the same requests, whose bindings are handed on |
| `ServiceObjects.SystemBusServiceBoundary.Disconnected` | lsmf/system_bus_service.py:129-143 | makes the machine's step and returns the owner's IDs |
| `ServiceObjects.SystemBusServiceBoundary.Serve` | lsmf/system_bus_service.py:60-157 | the objects, driven by any schedule, reach exactly the machine's states with all invariants |
| `EndToEnd.SuccessIsReal` | lsmf/production_dispatcher.py:136-172 | only a returning executor answers with success, and for a request that changes the host then the terminal record was taken and the host is as the request wants it |
| `EndToEnd.SuccessIsAnswered` | lsmf/production_dispatcher.py:136-172 | a success that the executor returns, that fits the wire and whose record is taken is answered to a live request |
| `EndToEnd.DeliveredSuccessIsReal` | lsmf/production_runtime.py:247-260 | over any run of service, parent, workers and engine: an answered success of an apply means all its files and values were in place and the state before backed up, of a rollback that its backup was restored, with nothing locked |
| `EndToEnd.HostPart` | lsmf/production_runtime.py:247-260 | what happens to the host in such a run is a run of the lockout theorems |
| `SyntheticEngine.TrustedTree.Replace` | lsmf/synthetic_executor.py:159-195 | the target is as before or exactly the snapshot, and nothing else changes |
| `SyntheticEngine.SyntheticBackupStore.Create` | lsmf/synthetic_executor.py:269-311 | write-once, and successful only for a record that loads |
| `SyntheticEngine.SyntheticBackupStore.MarkRecoveryRequired` | lsmf/synthetic_executor.py:344-359 | the first marker stays, silently; without one the eligible backup is marked unless something fails |
| `SyntheticEngine.SyntheticBackupStore.ClearRecoveryRequired` | lsmf/synthetic_executor.py:404-413 | removes only the marker of the given backup |
| `SyntheticEngine.SyntheticExecutor.Restore` | lsmf/synthetic_executor.py:608-613 | when it returns, every snapshot is in place exactly |
| `SyntheticEngine.SyntheticExecutor.ApplyAll` | lsmf/synthetic_executor.py:548-557 | however it ends, each file is as before or has the desired content, with the mode it had or private to its owner; it finishes only with all of them desired |
| `SyntheticEngine.SyntheticExecutor.Apply` | lsmf/synthetic_executor.py:540-572 | desired, or exactly the tree from before, or marked, or left unmarked when the marker cannot be written; undisturbed it succeeds, and after one failure or a cancellation alone it is settled without a marker |
| `SyntheticEngine.SyntheticExecutor.Rollback` | lsmf/synthetic_executor.py:574-606 | the target restored, or exactly the tree from before with its marker, or marked; a first marker is never replaced; undisturbed it succeeds, and after one failure or a cancellation alone it is settled |
| `SyntheticEngine.SyntheticExecutor.ExecuteApply` | lsmf/synthetic_executor.py:494-524 | a marker of any kind stops an apply before it touches anything; a success covers exactly the requested modules, which the manifest must offer for applying; undisturbed such an apply succeeds |
| `SyntheticEngine.SyntheticExecutor.ExecuteRollback` | lsmf/synthetic_executor.py:513-530 | only the marked backup can be rolled back, and only if all its targets are in the manifest; undisturbed that succeeds |
| `SyntheticModel.OneChangeIsAtomic` | lsmf/synthetic_executor.py:545-570 | when at most one file is to be changed, a partly done transaction is done or undone |
| `SyntheticModel.SafeIff` | lsmf/synthetic_executor.py:224-234 | a target is taken exactly if it is within the size limit and neither its group nor others may write it, in octal digits of the mode |
| `SyntheticModel.BigTargetIsNeverChanged` | lsmf/synthetic_executor.py:280-330 | a target of 49150 bytes or more makes an apply with a fresh ID fail before anything is changed |
| `SyntheticModel.PartlyUndone` | lsmf/synthetic_executor.py:608-613 | a compensation that stops anywhere leaves every file as it was before or as the transaction wanted it |
| `SyntheticModel.RestoredIsSame` | lsmf/synthetic_executor.py:608-613 | restoring snapshots after changes to their targets gives back exactly the same tree |
| `BackupFirstLaw.SysctlApplyObeys` | lsmf/sysctl_transaction.py:457-498 | an answering apply reached its goal, changed nothing, or holds the lock |
| `BackupFirstLaw.SysctlRollbackObeys` | lsmf/sysctl_transaction.py:500-534 | the same for an answering rollback |
| `BackupFirstLaw.SysctlReleases` | lsmf/sysctl_transaction.py:514-530 | a released marker means the backup is restored, or the marker was lost |
| `BackupFirstLaw.SyntheticApplyObeys` | lsmf/synthetic_executor.py:540-572 | the synthetic apply obeys the same law unless the marker could not be written and two files were to be changed |
| `BackupFirstLaw.SyntheticRollbackObeys` | lsmf/synthetic_executor.py:574-606 | and so does its rollback |
| `BackupFirstLaw.ApplyObeysIff` | lsmf/synthetic_executor.py:540-572 | before an apply: every answer obeys the law, if and only if the tree is locked, the ID taken, a file cannot be backed up, or at most one file is to be changed |
| `BackupFirstLaw.RollbackObeysIff` | lsmf/synthetic_executor.py:574-606 | the same before a rollback, for targets of the manifest |
| `BackupFirstLaw.SyntheticReleases` | lsmf/synthetic_executor.py:525-530 | this engine never releases a marker before the backup is restored, however the request ends |
| `BackupFirstLaw.UnmarkedBreaksTheLaw` | lsmf/synthetic_executor.py:561-572 | on an empty tree, for every selection of two or more modules within the manifest's limits and with different targets, the engine can answer with a mixed, unlocked tree |
| `ManifestLoader.ModuleSequence` | lsmf/sysctl_manifest.py:95-101 | accepts exactly the lists of distinct module IDs of the required length |
| `ManifestLoader.SortedIffInOrder` | lsmf/sysctl_manifest.py:186-189 | a sequence equals its sorting by the module order if and only if it is in that order |
| `ManifestLoader.Modules` | lsmf/sysctl_manifest.py:145-179 | the nested loops accept exactly modules with distinct targets, globally distinct keys and legal settings, and keep their order |
| `ManifestLoader.LoadManifest` | lsmf/sysctl_manifest.py:117-191 | accepts exactly the JSON forms of valid manifests in texts within the size limit, and returns the manifest they spell |
| `SafeNames.TargetStaysInside` | lsmf/sysctl_manifest.py:104-114 | an accepted target, walked with `..` going up, leads to a file with the suffix below the drop-in directory |
| `SafeNames.KeyStaysInside` | lsmf/sysctl_manifest.py:18-18 | the dots of an accepted key separate two or more plain names |
| `SafeNames.KeysCanBeSetBack` | lsmf/sysctl_manifest.py:22-25 | no valid manifest sets one of the two keys that cannot be set back |
| `SafeNames.BackupIdIsOneComponent` | lsmf/production_protocol.py:53-61 | a backup ID of the protocol or of the store is one plain path component, and one of the protocol has no two dots in a row |
| `SafeNames.RequestIdIff` | lsmf/production_protocol.py:23-25 | a request ID is five lower-case hexadecimal groups of a UUID of version 1 to 5, and every such text is one |
| `SettingGrammar.KeyIff` | lsmf/sysctl_manifest.py:18-18 | a sysctl key is two parts or more of small letters, digits and underscores with single dots between, beginning with a letter |
| `SettingGrammar.ValueIff` | lsmf/sysctl_manifest.py:19-19 | a desired value is one group of digits or more with single spaces between |
| `ManifestFacts.LoadedManifestFits` | lsmf/sysctl_manifest.py:117-124 | the limit on the manifest's text bounds every rendered file |
| `ManifestFacts.SuccessIsExact` | lsmf/sysctl_manifest.py:157-175 | under a valid manifest, a successful apply means present files and exact values |
| `ManifestFacts.AdmittedIsKnown` | lsmf/sysctl_manifest.py:203-217 | every admitted apply names modules of the manifest |
| `ManifestFacts.MultiApplyIsSubsequence` | lsmf/sysctl_manifest.py:182-189 | every multi-apply sequence is a subsequence of the module order |
| `ManifestFacts.OtherModulesUntouched` | lsmf/sysctl_manifest.py:153-170 | a transaction on some modules leaves the files and keys of all others alone |
| `ManifestFacts.RespelledTargetIsAccepted` | lsmf/sysctl_manifest.py:104-114 | doubling a separator gives another accepted text for the same file |
| `ManifestFacts.DisjointTargetsAreNotDisjointFiles` | lsmf/sysctl_manifest.py:153-156 | any valid manifest can be respelled so that two modules share one file |
| `ManifestFacts.OneFileIffOneSpelling` | lsmf/sysctl_manifest.py:104-114 | two targets denote one file if and only if their canonical spellings are one text |
| `ManifestFacts.DisjointFilesIff` | lsmf/sysctl_manifest.py:153-156 | no two modules share a file if and only if their canonical spellings are pairwise different |
| `ManifestFacts.CanonicalTargetsAreDisjointFiles` | lsmf/sysctl_manifest.py:153-156 | so the modules of a valid manifest with canonically spelled targets share no file |
| `Wire.ParametersRoundTrip` | lsmf/production_protocol.py:132-139 | the parameters of a request decode to it, and nothing else does |
| `Wire.ParametersAreInjective` | lsmf/production_protocol.py:132-143 | equal action and parameters mean equal modules and backup |
| `Wire.RequestRoundTrip` | lsmf/production_protocol.py:254-290 | every valid request decodes from its encoding |
| `Wire.OnlyEncodingsDecode` | lsmf/production_protocol.py:254-278 | what decodes as a request is valid, has exactly the parameters of its action, and is its encoding up to the order of fields |
| `Wire.CancelRoundTrip` | lsmf/production_protocol.py:293-302 | cancellations survive the wire |
| `Wire.ResponseRoundTrip` | lsmf/production_protocol.py:305-317 | cancellation responses survive the wire |
| `WireResults.ResultRoundTrip` | lsmf/production_protocol.py:320-379 | every valid result survives the wire |
| `WireResults.ResultDecodesIff` | lsmf/production_protocol.py:340-379 | exactly the encodings of valid results, up to the order of fields and the spelling of the version, decode, and each to its result |
| `WireResults.RequestFits` | lsmf/production_protocol.py:281-290 | no valid request exceeds the size limit |
| `WireResults.ResultFitsIff` | lsmf/production_protocol.py:382-386 | a result fits if and only if its output, with two bytes for each short and six for each long escape, fits beside the rest |
| `WireResults.OverheadIsBounded` | lsmf/production_protocol.py:199-245 | everything but the output of a valid result is small |
| `WireResults.FewEscapesFit` | lsmf/production_protocol.py:382-386 | a valid result whose escapes add at most 24000 bytes fits |
| `WireResults.PlainOutputFits` | lsmf/production_protocol.py:382-386 | a valid result with nothing to escape in its output fits |
| `WireResults.EmptyOutputFits` | lsmf/production_dispatcher.py:251-284 | the dispatcher's own short results always fit |
| `WireResults.ControlOutputDoesNotFit` | lsmf/production_protocol.py:382-386 | a valid audit result of 30000 control characters exceeds the size limit |
| `Utf8.EncodedCharDecodes` | lsmf/privileged_helper.py:300-303 | the encoding of a code point is a complete, shortest sequence for it |
| `Utf8.CutTextDecodes` | lsmf/privileged_helper.py:300-303 | cutting the bytes and decoding with errors ignored drops exactly the cut code point |
| `Utf8.BoundTextIsLongestPrefix` | lsmf/privileged_helper.py:295-303 | bounded text is the longest prefix whose UTF-8 form fits, and the whole text if and only if that fits |
| `HelperOutput.BoundOutput` | lsmf/privileged_helper.py:215-223 | the line loop computes the bounded lines |
| `HelperOutput.ValidatedResult` | lsmf/privileged_helper.py:202-236 | truncation is reported exactly when it was reported before or something changed |
| `HelperOutput.BoundLinesIsBounded` | lsmf/privileged_helper.py:214-223 | kept lines are bounded prefixes within the total, and lines are dropped only when the total is used up exactly |
| `HelperOutput.UncutIffFits` | lsmf/privileged_helper.py:214-223 | nothing is cut if and only if every line and the total fit |
| `HelperOutput.UntruncatedIffComplete` | lsmf/privileged_helper.py:224-236 | output is reported complete exactly if at most 64 lines were given, each of at most 4096 bytes, with at most 32768 in all and fewer before the last |
| `HelperGate.PrivilegedHelper.Finish` | lsmf/privileged_helper.py:251-269 | a terminal record that is not taken turns any typed result into an error |
| `HelperGate.PrivilegedHelper.Handle` | lsmf/privileged_helper.py:102-200 | the executor runs exactly for a new ID with every gate open and the start recorded; success is reported exactly if it then succeeded and was recorded |
| `HelperGate.PrivilegedHelper.HandleAll` | lsmf/privileged_helper.py:102-200 | over any sequence of payloads no request ID is executed twice |
| `TextLines.SplitAt` | lsmf/configuration.py:73-75 | the first line of a text ends at the first break character |
| `TextLines.SplitBefore` | lsmf/configuration.py:73-75 | a line is split off with the one break that ends it, where a carriage return and a line feed are one |
| `TextLines.StripBounds` | lsmf/configuration.py:76-76 | stripping removes exactly the blank beginning and end |
| `Configuration.ParseConfig` | lsmf/configuration.py:69-87 | the line loop computes the parse, with the first offending line on error |
| `Configuration.WriteConfig` | lsmf/configuration.py:132-155 | writes exactly the legal dictionaries, as header and one assignment per line |
| `Configuration.Assignment` | lsmf/configuration.py:13-13 | a matched line is the rendering of its key and value |
| `ConfigurationFacts.AssignmentOfRendered` | lsmf/configuration.py:13-13 | every rendered assignment matches as itself |
| `ConfigurationFacts.ParseOfDocument` | lsmf/configuration.py:69-155 | parsing assignments under any comment line returns them, in order, or fails at the first line whose value has a break |
| `ConfigurationFacts.DocumentSurvivesIff` | lsmf/configuration.py:69-155 | and so returns them if and only if no value has a break character |
| `ConfigurationFacts.ParseOfWrite` | lsmf/configuration.py:69-155 | parsing a written dictionary returns it, in order, or fails at the first line whose value has a break |
| `ConfigurationFacts.RoundTripIff` | lsmf/configuration.py:69-155 | the round trip succeeds if and only if no value has a break character |
| `ConfigurationFacts.VerticalTabIsLost` | lsmf/configuration.py:55-57 | under the shipped schema a value with a vertical tab is legal, and the file with it is refused under any comment |
| `ConfigurationFacts.LossIsRare` | lsmf/configuration.py:52-54 | what is written and lost has one of the eight break characters other than line feed and carriage return |
| `ConfigurationFacts.SwitchesAreBoolean` | lsmf/configuration.py:55-57 | a switch of a module or feature can be written, and then survives, exactly if it is `true` or `false` |
| `ConfigurationFacts.ParsedSurvives` | lsmf/configuration.py:69-155 | every parsed dictionary can be written, and parsing that returns it |
| `LegacyConfiguration.ParseLegacyMixed` | lsmf/configuration.py:90-129 | the line loop with its section computes the migration, which `LegacyDocuments` describes |
| `LegacyKeys.IdentifierIff` | lsmf/configuration.py:48-52 | the identifier of a name is its words of letters and digits, in capitals, joined by single underscores, if it has any |
| `LegacyKeys.KeyIff` | lsmf/configuration.py:113-121 | exactly this key comes out: a module's switch or feature under the section's name without `_hardening`, another option under the whole name, a setting without a section under its own |
| `LegacyDocuments.MigratesIff` | lsmf/configuration.py:90-129 | a legacy document migrates to these entries if and only if they are its settings in order, each under its key, no key comes twice, and the schema accepts all values |
| `LegacyDocuments.KeysOfModule` | lsmf/configuration.py:40-52 | for `[name]` and `[name_hardening]`: the four kinds of keys, character by character in capitals |
| `LegacyDocuments.SettingInSection` | lsmf/configuration.py:101-128 | a section and one setting, quoted or not, migrate to the one entry with that key and value |
| `LegacyDocuments.SettingAlone` | lsmf/configuration.py:103-128 | and so does a setting without a section |
| `LegacyDocuments.KernelSwitchMigrates` | lsmf/configuration.py:113-116 | the switch in a section `[kernel_hardening]` migrates to `MODULE_KERNEL_ENABLED` |
| `LegacyConfiguration.MigrationSurvives` | lsmf/configuration.py:90-155 | a migrated dictionary is accepted by the writer if and only if no key starts with a digit, and then survives the round trip |
| `LegacyConfiguration.ConfigStore.Load` | lsmf/configuration.py:171-172 | a file that does not parse leaves the store as it was; a missing file empties it |
| `LegacyConfiguration.ConfigStore.Set` | lsmf/configuration.py:181-186 | accepts exactly legal keys and values and changes only that key |
| `LegacyConfiguration.ConfigStore.Save` | lsmf/configuration.py:188-189 | the file is replaced as a whole or stays, and is replaced unless something fails |
| `LegacyConfiguration.ConfigStore.Reloads` | lsmf/configuration.py:163-189 | a saved store loads again if and only if no value has a break character |
| `LegacyConfiguration.PutKeys` | lsmf/configuration.py:186-186 | setting a key moves no other key |
| `LegacyConfiguration.PutKeepsOthers` | lsmf/configuration.py:186-186 | setting a key keeps every other key's value |

## Left out

Assumptions of the transaction theorems:

- `LockoutRuns.LockoutSafety` and the theorems about the marked backup speak of fresh backup IDs, which the random request ID and the replay registry provide; `ReusedIds.HazardlessRunsAreSafe` does not.
- No backup of this manifest names a module twice, which loading one checks; a host without backups has none, and `BackupRecords.RunStaysOrderly` keeps it.
- A managed file passes the ownership and type checks and its directory exists. A file or directory that does not is an operation that fails, so where a condition is said to be necessary, it is for files that pass.
- The bytes of a rewritten file are modelled, its owner and group before they are set again are arbitrary, and its mode is anything that a umask may leave of the one asked for.
- Nobody else changes managed files, sysctl values or the backup directory while a request runs, and backups are not tampered with: eligibility is a function of the store.
- A sysctl write may change any key of its own transaction but no key outside it. That the kernel stores what is written is assumed only where success is promised.
- `Progress.ApplyAndRollBack` speaks of a valid manifest whose rendered files fit; every loaded manifest is one (`ManifestFacts.LoadedManifestFits`).
- A worker that returns no result exits with another code than 0, and a worker that would go on for ever is cancelled by its deadline at last. Requests and results that decode both have protocol version 1, so the parent's comparison of versions never differs.
- The parent process survives and gets the marker file created when it marks a backup. If both processes die in mid-mutation, nothing marks recovery.
- Different target texts are different files, which holds exactly when the canonical spellings differ (`ManifestFacts.DisjointFilesIff`); the synthetic engine assumes it too.
- Results carry their status, error code, modules and backup; timestamps, summaries and texts are display only and left out of the engine's replies.

Assumptions of the service theorems:

- The `submit` coroutine is not cancelled from outside. The shielded executor would outlive the lock (`lsmf/production_dispatcher.py:136-148`).
- The authorization task is cancelled only through its token. Authorizer, policy, executor and audit sink answer arbitrarily.
- Peer resolution, session lookup and payload decoding happen before the boundary's first step and are not part of the machine.
- SHA-256 is not modelled: a binding carries its parameter digest as an opaque text.

Weaker than the source in part:

- IsTimestamp: accepts ASCII digits only, where the pattern of the source also matches other decimal digits.
- KeySchema: which texts count as a positive retention number is a parameter, because it depends on Unicode digit tables.
- Supervise: the number of polls is arbitrary and finite, and the grace period is no real time. How a worker ends is left open, unless it would never end by itself, so that a kill may also come too late.

Not modelled:

- File descriptors, temporary files, ownership and symlink checks, and the order of syncs within one operation; they appear as operations that may fail.
- The read-only actions of the synthetic engine (audit and verify), which change nothing.
- JSON text syntax, base64, regular expression engines and clocks; JSON is modelled as values, with the size of its text. That no text of a value is shorter than its strings and names is taken from the syntax.
- D-Bus routing, libsystemd, polkit, `/proc`, Qt, packaging, shell modules, profiles, the module catalog and the read-only executor.
- Credential derivation (`derive_peer`) and the older protocol version, which add only field checks.
