/** Applying to a host that has the desired values already, in whatever spelling the kernel reports them. */
module SettledHosts {
  import opened Common
  import opened Json
  import opened ProductionProtocol
  import opened SysctlManifests
  import opened SysctlSpellings
  import opened ManifestLoader
  import opened ManifestFacts
  import opened PolicyFacts
  import opened TransactionModel
  import opened TransactionSpec
  import opened TransactionEngine
  import opened Progress

  /** A listed apply of a loaded manifest on such a host writes no sysctl, however it ends. With a fresh
      backup ID, no marker and readable files it succeeds unless something fails from outside or it is
      cancelled, whatever this kernel would make of a write. */
  method ApplySettled(executor: TransactionExecutor, req: ProductionRequest, token: CancellationToken)
    returns (end: End, ghost cleared: Option<World>)
    requires executor.Valid() && IsLoaded(executor.manifest)
    requires Listed(executor.manifest, req) && Unrepeated(req.moduleIds)
    requires Knows(executor.manifest, req.moduleIds)
             && AllReported(executor.sysctls.values, Selected(executor.manifest, req.moduleIds))
    modifies executor.files, executor.sysctls, executor.backups, token
    ensures executor.sysctls.writes == old(executor.sysctls.writes) && executor.sysctls.values == old(executor.sysctls.values)
    ensures (old(executor.backups.marker) == Clear && ApplyBackupId(req) !in old(executor.backups.backups)
             && TargetsSmall(Selected(executor.manifest, req.moduleIds), old(executor.Now()))
             && executor.Faults() == old(executor.Faults()) && !token.cancelled)
            ==> end == Returned(Success(req, req.moduleIds, ApplyBackupId(req)))
  {
    AllHoldIffReported(executor.sysctls.values, Selected(executor.manifest, req.moduleIds));
    SelectedIsWritable(executor.manifest, req.moduleIds);
    end, cleared := executor.Execute(req, token);
  }
}
