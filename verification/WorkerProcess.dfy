/** The parent side of the worker boundary: it starts one worker per request, stops it when asked to,
    and marks the backup of any mutation whose result it cannot trust. */
module WorkerProcess {
  import opened Common
  import opened ProductionProtocol
  import opened SysctlManifests
  import opened TransactionModel
  import opened TransactionSpec
  import opened TransactionEngine
  import opened ProcessSpec

  /** `_read_bounded`: collects chunks, never more than one byte beyond the limit. The stream delivers
      at least one byte of what is asked for until it ends. */
  method ReadBounded(stream: seq<bv8>) returns (output: seq<bv8>)
    ensures output <= stream
    ensures |stream| <= MAX_RESULT_BYTES ==> output == stream
    ensures |stream| > MAX_RESULT_BYTES ==> |output| == MAX_RESULT_BYTES + 1
  {
    output := [];
    while |output| <= MAX_RESULT_BYTES
      invariant |output| <= |stream| && |output| <= MAX_RESULT_BYTES + 1
      invariant output == stream[..|output|]
      decreases MAX_RESULT_BYTES + 1 - |output|
    {
      var asked := if 8192 <= MAX_RESULT_BYTES + 1 - |output| then 8192 else MAX_RESULT_BYTES + 1 - |output|;
      var rest := |stream| - |output|;
      if rest == 0 { break; }
      var n :| 1 <= n <= asked && n <= rest;
      output := output + stream[|output|..|output| + n];
    }
  }

  class ProcessExecutor {
    /** The engine the worker process runs; the parent opens the same backup directory. */
    const worker: TransactionExecutor

    constructor (worker: TransactionExecutor)
      ensures this.worker == worker
    {
      this.worker := worker;
    }

    /** `_mark_uncertain`; a marker that already stands is left alone. The backup is named exactly if it is
        marked then, and it is marked unless writing into the marker file fails or another marker stands. */
    method MarkUncertain(req: ProductionRequest) returns (id: Option<BackupId>)
      modifies worker.backups`marker, worker.backups`faults
      ensures MarkedUncertain(req, old(worker.Current()), worker.Current())
      ensures worker.backups.faults >= old(worker.backups.faults)
      ensures id == MarkedBackup(req, worker.Current())
      ensures (Mutating(req) && Eligible(worker.backups.backups, UncertainId(req)) && old(worker.backups.marker) == Clear
               && worker.backups.faults == old(worker.backups.faults)) ==> id == Some(UncertainId(req))
    {
      id := None;
      if req.action == Audit || req.action == VerifyModule { return; }
      var b := UncertainId(req);
      if Eligible(worker.backups.backups, b) {
        match worker.backups.marker
        case Clear =>
          worker.backups.marker := Damaged;
          var o := worker.backups.Try();
          if o.Done? {
            worker.backups.marker := Required(b);
            id := Some(b);
          }
        case Required(x) => id := if x == b then Some(b) else None;
        case Damaged =>
      }
    }

    /** `execute`. The result of a worker is delivered if and only if it is trustworthy; then world, store and
        marker are as the worker left them. Otherwise the request is marked. */
    method Execute(req: ProductionRequest, token: CancellationToken)
      returns (served: Served, ghost work: Option<Work>, ghost seen: Observed)
      requires worker.Valid()
      modifies worker.files, worker.sysctls, worker.backups, token
      ensures ServeSpec(worker.manifest, req, old(worker.Current()), work, served, worker.Current())
      ensures worker.Faults() >= old(worker.Faults())
      ensures old(token.cancelled) ==> token.cancelled && token.timedOut == old(token.timedOut)
      ensures seen.NotAsked? <==> old(token.cancelled)
      ensures seen.NotAsked? ==> served == Delivered(Stopped(req, token.timedOut, req.backupId))
      ensures seen.NotStarted? || seen.NotHandedOver? ==> served == Refused(None)
      ensures seen.NotAsked? || seen.NotStarted? ==> worker.Current() == old(worker.Current())
      ensures seen.Ran? <==> work.Some?
      ensures seen.Ran? ==> seen.cancelled == token.cancelled
      ensures seen.Ran? ==> (served.Delivered? <==> Trustworthy(req, seen, work.value.end, token.timedOut))
      ensures seen.Ran? && served.Delivered? ==> work.value.end == Returned(served.reply) && worker.Current() == work.value.left
      ensures seen.Ran? && served.Refused? ==> MarkedUncertain(req, work.value.left, worker.Current())
      ensures seen.Ran? && !seen.broken && (seen.forced || seen.code != 0 || seen.size > MAX_RESULT_BYTES)
              ==> served == Refused(MarkedBackup(req, worker.Current()))
      ensures served.Delivered? ==> served.reply.requestId == req.requestId && served.reply.action == req.action
      ensures Smooth(seen) && worker.Faults() == old(worker.Faults()) && Listed(worker.manifest, req) && old(worker.CanApply(req))
              ==> served == Delivered(Success(req, req.moduleIds, ApplyBackupId(req)))
      ensures (Smooth(seen) && worker.Faults() == old(worker.Faults()) && req.action == RollbackBackup && req.backupId.Some?
               && worker.sysctls.faithful && old(worker.CanRollBack(req)))
              ==> served == Delivered(Success(req, old(worker.backups.backups)[req.backupId.value].snapshot.moduleIds,
                                              req.backupId.value))
    {
      work := None;
      if token.cancelled {
        return Delivered(Stopped(req, token.timedOut, req.backupId)), None, NotAsked;
      }
      if * { return Refused(None), None, NotStarted; }  // the worker cannot be started
      if * {                                            // the request cannot be handed over
        var _ := MarkUncertain(req);
        return Refused(None), None, NotHandedOver;
      }
      var workerToken := new CancellationToken();
      var end, cleared := worker.Execute(req, workerToken);
      work := Some(Work(end, worker.Current(), cleared));
      var stubborn: bool := *;
      var process := new Process(stubborn);
      var forced := Supervise(process, token);
      served, seen := Collect(req, end, forced, token, workerToken.cancelled);
    }

    /** Reads the output of a worker that has ended and judges it. A worker that returns no result exits with
        another code than 0. */
    method Collect(req: ProductionRequest, end: End, forced: bool, token: CancellationToken, ghost signalled: bool)
      returns (served: Served, ghost seen: Observed)
      modifies worker.backups`marker, worker.backups`faults, token
      ensures worker.backups.faults >= old(worker.backups.faults)
      ensures old(token.cancelled) ==> token.cancelled && token.timedOut == old(token.timedOut)
      ensures seen.Ran? && seen.signalled == signalled && seen.forced == forced && seen.cancelled == token.cancelled
      ensures served.Delivered? <==> Trustworthy(req, seen, end, token.timedOut)
      ensures served.Delivered? ==> end == Returned(served.reply) && worker.Faults() == old(worker.Faults())
      ensures !seen.broken && (seen.forced || seen.code != 0 || seen.size > MAX_RESULT_BYTES)
              ==> served == Refused(MarkedBackup(req, worker.Current()))
      ensures if served.Delivered? then worker.Current() == old(worker.Current())
              else MarkedUncertain(req, old(worker.Current()), worker.Current())
    {
      var stream: seq<bv8> := *;
      var output := ReadBounded(stream);
      var broken: bool, code: int, decodable: bool := *, *, *;
      if !end.Returned? && code == 0 { code := 1; }
      seen := Ran(signalled, broken, forced, code, |stream|, decodable, token.cancelled);
      if broken {                                       // waiting or reading raised
        var _ := MarkUncertain(req);
        return Refused(None), seen;
      }
      if forced || code != 0 || |output| > MAX_RESULT_BYTES {
        var id := MarkUncertain(req);
        return Refused(id), seen;
      }
      if !decodable {
        var _ := MarkUncertain(req);
        return Refused(None), seen;
      }
      served := Judge(req, end.reply, token);
      seen := seen.(cancelled := token.cancelled);
    }

    /** The last two checks: the result must answer this request and confirm a cancellation. */
    method Judge(req: ProductionRequest, reply: Reply, token: CancellationToken) returns (served: Served)
      modifies worker.backups`marker, worker.backups`faults, token
      ensures worker.backups.faults >= old(worker.backups.faults)
      ensures served.Delivered? ==> worker.Faults() == old(worker.Faults())
      ensures old(token.cancelled) ==> token.cancelled && token.timedOut == old(token.timedOut)
      ensures served in {Delivered(reply), Refused(None)}
      ensures served.Delivered? <==>
                && reply.requestId == req.requestId && reply.action == req.action
                && (token.cancelled ==> reply.status == if token.timedOut then TimedOut else Cancelled)
      ensures if served.Delivered? then worker.Current() == old(worker.Current())
              else MarkedUncertain(req, old(worker.Current()), worker.Current())
    {
      if reply.requestId != req.requestId || reply.action != req.action {
        var _ := MarkUncertain(req);
        return Refused(None);
      }
      var stop := token.Checkpoint();
      if stop && reply.status != StopStatus(token.timedOut) {
        var _ := MarkUncertain(req);
        return Refused(None);
      }
      served := Delivered(reply);
    }

    /** The polling loop: a cancellation that is seen while the worker runs stops it; then its end is awaited.
        A worker that would go on for ever is cancelled by the deadline at last, and killed. */
    method Supervise(process: Process, token: CancellationToken) returns (forced: bool)
      requires process.signals == [] && !process.asked
      modifies token, process
      ensures old(token.cancelled) ==> token.cancelled && token.timedOut == old(token.timedOut)
      ensures process.ended
      ensures old(token.cancelled) && !old(process.ended) ==> process.asked
      ensures process.asked ==> token.cancelled
      ensures process.stubborn && !old(process.ended) ==> forced
      ensures process.signals <= [if token.timedOut then UserSignal else Terminate, Kill]
      ensures process.signals != [] ==> process.asked
      ensures forced <==> process.signals == [if token.timedOut then UserSignal else Terminate, Kill]
    {
      forced := false;
      var polls: nat := *;  // how many the worker outlives at most
      while !process.ended
        invariant old(token.cancelled) ==> token.cancelled && token.timedOut == old(token.timedOut) && process.ended == old(process.ended)
        invariant process.signals == [] && !process.asked
        invariant process.stubborn ==> process.ended == old(process.ended)
        decreases polls, if process.ended then 0 else 1, if token.cancelled then 0 else 1
      {
        var stop := token.Checkpoint();
        if stop {
          forced := Stop(process, token.timedOut);
          break;
        }
        if polls == 0 {
          if process.stubborn { token.Cancel(true); } else { process.Await(); }
        } else {
          process.Run();
          polls := polls - 1;
        }
      }
      process.Await();
    }

    /** `_stop`: asks the worker to stop in the way that tells it the reason, and kills it after the grace.
        A worker that is already gone gets no signal. */
    method Stop(process: Process, timedOut: bool) returns (forced: bool)
      modifies process
      ensures process.ended
      ensures old(process.ended) ==> !forced && process.signals == old(process.signals) && process.asked == old(process.asked)
      ensures !old(process.ended) ==> process.asked
      ensures process.stubborn && !old(process.ended) && Kill !in old(process.signals) ==> forced
      ensures forced <==> process.signals == old(process.signals) + [StopSignal(timedOut), Kill]
      ensures !forced ==> process.signals in {old(process.signals), old(process.signals) + [StopSignal(timedOut)]}
    {
      if process.ended { return false; }
      var sent := process.Send(StopSignal(timedOut));
      if !sent { return false; }
      process.Run();
      if process.ended { return false; }
      sent := process.Send(Kill);
      if !sent { return false; }
      process.Await();
      forced := true;
    }
  }

  datatype Signal = Terminate | UserSignal | Kill

  /** The worker reads the reason off the signal. */
  function StopSignal(timedOut: bool): Signal {
    if timedOut then UserSignal else Terminate
  }

  /** The worker process as its parent sees it. */
  class Process {
    var ended: bool
    /** The signals that reached it, and whether any was tried. */
    var signals: seq<Signal>
    ghost var asked: bool
    /** Whether it goes on until it is killed. */
    const stubborn: bool

    constructor (stubborn: bool)
      ensures !ended && signals == [] && !asked && this.stubborn == stubborn
    {
      ended, signals, asked, this.stubborn := false, [], false, stubborn;
    }

    /** It may end at any time, unless it is stubborn. */
    method Run()
      modifies this`ended
      ensures old(ended) ==> ended
      ensures stubborn && Kill !in signals ==> ended == old(ended)
    {
      if !stubborn || Kill in signals {
        if * { ended := true; }
      }
    }

    /** Awaiting a stubborn worker that nobody killed would never end. */
    method Await()
      requires ended || !stubborn || Kill in signals
      modifies this`ended
      ensures ended
    {
      ended := true;
    }

    /** Raises, and so has no effect, if it has ended meanwhile. */
    method Send(signal: Signal) returns (sent: bool)
      modifies this
      ensures asked && signals == if sent then old(signals) + [signal] else old(signals)
      ensures !sent ==> ended
      ensures sent ==> ended == old(ended)
      ensures stubborn && !old(ended) && Kill !in old(signals) ==> sent
    {
      Run();
      asked := true;
      sent := !ended;
      if sent { signals := signals + [signal]; }
    }
  }
}
