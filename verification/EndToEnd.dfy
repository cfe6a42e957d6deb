/** Service, process boundary and transaction engine together: what a delivered success means for the host. */
module EndToEnd {
  import opened Common
  import opened ProductionProtocol
  import opened SysctlManifests
  import opened TransactionModel
  import opened TransactionSpec
  import opened ProcessSpec
  import opened Lockout
  import opened LockoutRuns
  import opened RequestRegistry
  import S = ServiceModel

  /** The service, the host behind its executor, and the request of each serial number. */
  datatype Machine = Machine(service: S.Service, system: System, requests: map<nat, ProductionRequest>)

  /** What happens next: a request is submitted; the executor returns, which has served a request on the host as
      the process boundary allows, or has only read; or anything else in the service. Only the lock's holder
      executes, so that its work on the host may be counted to the moment it returns. */
  datatype Act =
    | Submitting(req: ProductionRequest, binding: RequestBinding, eligible: bool, taken: bool)
    | Returning(event: Event, taken: bool, fits: bool)
    | Reading(status: Option<ProductionStatus>, taken: bool, fits: bool)
    | Otherwise(input: S.Input)

  /** The status the dispatcher sees; a refusal by the process executor is an exception. */
  function Outcome(served: Served): Option<ProductionStatus> {
    if served.Delivered? then Some(served.reply.status) else None
  }

  function InputOf(act: Act): S.Input {
    match act
    case Submitting(_, binding, eligible, taken) => S.Submit(binding, eligible, taken)
    case Returning(event, taken, fits) => S.ExecutorReturns(Outcome(event.served), taken, fits)
    case Reading(status, taken, fits) => S.ExecutorReturns(status, taken, fits)
    case Otherwise(input) => input
  }

  /** The request of the lock's holder. */
  ghost predicate Executes(s: Machine, req: ProductionRequest) {
    && s.service.lock.Some? && s.service.lock.value in s.service.operations
    && var n := s.service.operations[s.service.lock.value].serial;
       n in s.requests && s.requests[n] == req
  }

  ghost predicate Happens(m: SysctlManifest, lim: S.Limits, pre: Machine, act: Act, post: Machine) {
    && S.Enabled(pre.service, InputOf(act))
    && post.service == S.Step(pre.service, InputOf(act), lim)
    && match act
       case Submitting(req, binding, _, _) =>
         && binding.requestId == req.requestId && binding.action == req.action
         && post.system == pre.system
         && post.requests == if post.service.next > pre.service.next then pre.requests[pre.service.next := req] else pre.requests
       case Returning(event, _, _) =>
         && Executes(pre, event.req) && Mutating(event.req)
         && Step(m, pre.system, event, post.system) && post.requests == pre.requests
       case Reading(_, _, _) =>
         && (exists req :: Executes(pre, req) && !Mutating(req))
         && post.system == pre.system && post.requests == pre.requests
       case Otherwise(input) =>
         !input.Submit? && !input.ExecutorReturns? && post.system == pre.system && post.requests == pre.requests
  }

  ghost predicate Goes(m: SysctlManifest, lim: S.Limits, states: seq<Machine>, acts: seq<Act>) {
    && |states| == |acts| + 1
    && forall k :: 0 <= k < |acts| ==> HappensAt(m, lim, states, acts, k)
  }

  ghost predicate HappensAt(m: SysctlManifest, lim: S.Limits, states: seq<Machine>, acts: seq<Act>, k: nat)
    requires |states| == |acts| + 1 && k < |acts|
  {
    Happens(m, lim, states[k], acts[k], states[k + 1])
  }

  // ----- where successes come from -----

  predicate IsSuccess(e: S.Event) {
    e.Answered? && e.answer == Some(Succeeded)
  }

  /** The history grows, and by no success. */
  ghost predicate GrowsQuietly(s: S.Service, t: S.Service) {
    s.log <= t.log && forall i :: |s.log| <= i < |t.log| ==> !IsSuccess(t.log[i])
  }

  lemma {:induction false} LeavesQuietly(s: S.Service, left: S.Service, id: string, answer: Option<ProductionStatus>, lim: S.Limits)
    requires GrowsQuietly(s, left) && id in left.operations && answer != Some(Succeeded)
    ensures GrowsQuietly(s, S.Leave(left, id, answer, lim))
  {
  }

  lemma {:induction false} RefusesQuietly(s: S.Service, left: S.Service, id: string, status: ProductionStatus, accepted: bool, lim: S.Limits)
    requires GrowsQuietly(s, left) && id in left.operations && status != Succeeded
    ensures GrowsQuietly(s, S.Refuse(left, id, status, accepted, lim))
  {
    var noted := S.Note(left, [S.Audited(left.operations[id].serial, S.Refusal(status), accepted)]);
    LeavesQuietly(s, noted, id, if accepted then Some(status) else None, lim);
  }

  lemma {:induction false} InterruptsQuietly(s: S.Service, left: S.Service, id: string, accepted: bool, lim: S.Limits)
    requires GrowsQuietly(s, left) && id in left.operations
    ensures GrowsQuietly(s, S.Interrupt(left, id, accepted, lim))
  {
    var op := left.operations[id];
    RefusesQuietly(s, S.Note(left, [S.Interrupted(op.serial, op.token.timedOut)]), id, S.StopStatus(op.token), accepted, lim);
  }

  lemma {:induction false} SubmitIsQuiet(s: S.Service, b: RequestBinding, eligible: bool, accepted: bool, lim: S.Limits)
    ensures GrowsQuietly(s, S.SubmitStep(s, b, eligible, accepted, lim))
  {
    if MayRegister(s.registry, b, lim.maxLive) && b.requestId !in s.operations && !eligible {
      var registered := s.(registry := Registered(s.registry, b), bindings := s.bindings[b.requestId := b]);
      var op := S.Operation(s.next, b, S.Token(false, false), S.Waiting);
      var entered := registered.(operations := registered.operations[b.requestId := op], next := registered.next + 1);
      RefusesQuietly(s, entered, b.requestId, Rejected, accepted, lim);
    }
  }

  lemma {:induction false} TakeLockIsQuiet(s: S.Service, accepted: bool, lim: S.Limits)
    requires S.Enabled(s, S.TakeLock(accepted))
    ensures GrowsQuietly(s, S.TakeLockStep(s, accepted, lim))
  {
    var id := s.queue[0];
    var op := s.operations[id];
    if op.token.cancelled {
      InterruptsQuietly(s, s.(lock := Some(id), queue := s.queue[1..]), id, accepted, lim);
    }
  }

  lemma {:induction false} JudgedIsQuiet(s: S.Service, verdict: S.Verdict, accepted: bool, lim: S.Limits)
    requires S.Enabled(s, S.Judged(verdict, accepted))
    ensures GrowsQuietly(s, S.JudgedStep(s, verdict, accepted, lim))
  {
    var id := s.lock.value;
    var op := s.operations[id];
    var ruled := S.Note(s, [S.Ruled(op.serial, verdict)]);
    match verdict
    case Withdrawn => InterruptsQuietly(s, ruled, id, accepted, lim);
    case Refused => RefusesQuietly(s, ruled, id, Denied, accepted, lim);
    case Granted =>
      if op.token.cancelled {
        InterruptsQuietly(s, ruled, id, accepted, lim);
      } else if !accepted {
        LeavesQuietly(s, S.Note(ruled, [S.Cleared(op.serial), S.Audited(op.serial, S.Start, accepted)]), id, None, lim);
      }
  }

  /** Nothing but a returning executor makes a success. */
  lemma {:induction false} OthersAreQuiet(s: S.Service, input: S.Input, lim: S.Limits)
    requires S.Enabled(s, input) && !input.ExecutorReturns?
    ensures GrowsQuietly(s, S.Step(s, input, lim))
  {
    match input
    case Submit(b, eligible, accepted) => SubmitIsQuiet(s, b, eligible, accepted, lim);
    case TakeLock(accepted) => TakeLockIsQuiet(s, accepted, lim);
    case Judged(verdict, accepted) => JudgedIsQuiet(s, verdict, accepted, lim);
    case _ =>
  }

  lemma {:induction false} ReturnAppends(s: S.Service, status: Option<ProductionStatus>, accepted: bool, fits: bool, lim: S.Limits)
    requires S.Enabled(s, S.ExecutorReturns(status, accepted, fits))
    ensures var op := s.operations[s.lock.value];
            var n, recorded := op.serial, if status.Some? then status.value else Failed;
            var live := Find(s.registry.live, op.binding.requestId) == Some(op.binding);
            S.ExecutorReturnsStep(s, status, accepted, fits, lim).log ==
            s.log + [S.ExecutorDone(n, status, fits), S.Audited(n, S.End(recorded), accepted),
                     S.Answered(n, live, if live then S.FinalAnswer(status, accepted, fits) else None)]
  {
  }

  // ----- what a success means -----

  /** The host did what request `req` asked, in state `post`, and nothing is locked. */
  ghost predicate Fulfilled(m: SysctlManifest, req: ProductionRequest, pre: System, post: System) {
    && post.state.marker == Clear && post.clean == post.state.world
    && match req.action
       case ApplyModule => AppliedOn(m, req, pre, post)
       case ApplyModules => AppliedOn(m, req, pre, post)
       case RollbackBackup =>
         && req.backupId.Some? && Accepted(m, pre.state.store, req.backupId.value)
         && Matches(post.state.world, pre.state.store[req.backupId.value].snapshot)
       case _ => false
  }

  /** All files and values of the named modules are as wanted, and the state from before is backed up. */
  ghost predicate AppliedOn(m: SysctlManifest, req: ProductionRequest, pre: System, post: System) {
    && Knows(m, req.moduleIds) && Hosts(pre.state.world, Selected(m, req.moduleIds))
    && Desired(post.state.world, Selected(m, req.moduleIds))
    && ApplyBackupId(req) in post.state.store
    && post.state.store[ApplyBackupId(req)] == Whole(SnapshotOf(m, Selected(m, req.moduleIds), pre.state.world))
  }

  lemma {:induction false} SuccessFulfils(m: SysctlManifest, pre: System, e: Event, post: System)
    requires Step(m, pre, e, post) && Succeeding(e.served)
    ensures Fulfilled(m, e.req, pre, post)
  {
    SuccessIsLetIn(m, pre, e, post);
    if e.req.action == RollbackBackup {
      RolledBackFacts(m, pre, e, post, e.req.backupId.value);
    } else {
      AppliedFacts(m, pre, e, post);
    }
  }

  lemma {:induction false} SuccessIsLetIn(m: SysctlManifest, pre: System, e: Event, post: System)
    requires Step(m, pre, e, post) && Succeeding(e.served)
    ensures Admitted(m, e.req)
  {
  }

  /** If one act answers request `n` with success, the executor returned for it, its terminal record was taken
      just before, and the host is as the request wants it. */
  lemma {:induction false} SuccessIsReal(m: SysctlManifest, lim: S.Limits, pre: Machine, act: Act, post: Machine, i: nat)
    requires Happens(m, lim, pre, act, post)
    requires |pre.service.log| <= i < |post.service.log| && IsSuccess(post.service.log[i])
    ensures var n := post.service.log[i].serial;
            && n in pre.requests
            && post.service.log == pre.service.log +
                 [S.ExecutorDone(n, Some(Succeeded), true), S.Audited(n, S.End(Succeeded), true), S.Answered(n, true, Some(Succeeded))]
            && if act.Returning?
               then act.event.req == pre.requests[n] && Succeeding(act.event.served) && Fulfilled(m, pre.requests[n], pre.system, post.system)
               else act.Reading? && !Mutating(pre.requests[n])
  {
    if act.Reading? {
      ReturnAppends(pre.service, act.status, act.taken, act.fits, lim);
    } else if act.Returning? {
      ReturnAppends(pre.service, Outcome(act.event.served), act.taken, act.fits, lim);
      SuccessFulfils(m, pre.system, act.event, post.system);
    } else {
      OthersAreQuiet(pre.service, InputOf(act), lim);
    }
  }

  /** And the other way round: when the executor returns a success that fits the wire and its terminal record is
      taken, a request that is still live is answered with it. */
  lemma {:induction false} SuccessIsAnswered(m: SysctlManifest, lim: S.Limits, pre: Machine, act: Act, post: Machine)
    requires Happens(m, lim, pre, act, post) && act.Returning? && Succeeding(act.event.served) && act.taken && act.fits
    ensures var op := pre.service.operations[pre.service.lock.value];
            var live := Find(pre.service.registry.live, op.binding.requestId) == Some(op.binding);
            post.service.log == pre.service.log +
              [S.ExecutorDone(op.serial, Some(Succeeded), true), S.Audited(op.serial, S.End(Succeeded), true),
               S.Answered(op.serial, live, if live then Some(Succeeded) else None)]
  {
    ReturnAppends(pre.service, Outcome(act.event.served), act.taken, act.fits, lim);
  }

  // ----- over whole runs -----

  lemma {:induction false} HistoryGrows(m: SysctlManifest, lim: S.Limits, pre: Machine, act: Act, post: Machine)
    requires Happens(m, lim, pre, act, post)
    ensures pre.service.log <= post.service.log
  {
    if act.Reading? {
      ReturnAppends(pre.service, act.status, act.taken, act.fits, lim);
    } else if act.Returning? {
      ReturnAppends(pre.service, Outcome(act.event.served), act.taken, act.fits, lim);
    } else {
      OthersAreQuiet(pre.service, InputOf(act), lim);
    }
  }

  /** Requests are filed under serial numbers already handed out. */
  ghost predicate Numbered(s: Machine) {
    forall n :: n in s.requests ==> n < s.service.next
  }

  lemma {:induction false} NextGrows(s: S.Service, input: S.Input, lim: S.Limits)
    requires S.Enabled(s, input)
    ensures s.next <= S.Step(s, input, lim).next
  {
    match input
    case Submit(b, eligible, accepted) => SubmitNext(s, b, eligible, accepted, lim);
    case Judged(verdict, accepted) => JudgedNext(s, verdict, accepted, lim);
    case TakeLock(accepted) => TakeLockNext(s, accepted, lim);
    case _ =>
  }

  lemma {:induction false} SubmitNext(s: S.Service, b: RequestBinding, eligible: bool, accepted: bool, lim: S.Limits)
    ensures s.next <= S.SubmitStep(s, b, eligible, accepted, lim).next
  {
  }

  lemma {:induction false} JudgedNext(s: S.Service, verdict: S.Verdict, accepted: bool, lim: S.Limits)
    requires S.Enabled(s, S.Judged(verdict, accepted))
    ensures S.JudgedStep(s, verdict, accepted, lim).next == s.next
  {
  }

  lemma {:induction false} TakeLockNext(s: S.Service, accepted: bool, lim: S.Limits)
    requires S.Enabled(s, S.TakeLock(accepted))
    ensures S.TakeLockStep(s, accepted, lim).next == s.next
  {
  }

  lemma {:induction false} RequestsStay(m: SysctlManifest, lim: S.Limits, pre: Machine, act: Act, post: Machine)
    requires Happens(m, lim, pre, act, post) && Numbered(pre)
    ensures Numbered(post)
    ensures forall n :: n in pre.requests ==> n in post.requests && post.requests[n] == pre.requests[n]
  {
    NextGrows(pre.service, InputOf(act), lim);
  }

  /** The part of a run up to the state `k`, and what later states keep of it. */
  lemma {:induction false} Kept(m: SysctlManifest, lim: S.Limits, states: seq<Machine>, acts: seq<Act>, j: nat, k: nat)
    requires Goes(m, lim, states, acts) && j <= k <= |acts| && Numbered(states[0])
    ensures Numbered(states[j]) && Numbered(states[k]) && states[j].service.log <= states[k].service.log
    ensures forall n :: n in states[j].requests ==> n in states[k].requests && states[k].requests[n] == states[j].requests[n]
  {
    if k > 0 {
      Kept(m, lim, states, acts, if j < k then j else k - 1, k - 1);
      KeptAt(m, lim, states, acts, k - 1);
    }
  }

  lemma {:induction false} KeptAt(m: SysctlManifest, lim: S.Limits, states: seq<Machine>, acts: seq<Act>, k: nat)
    requires Goes(m, lim, states, acts) && k < |acts| && Numbered(states[k])
    ensures Numbered(states[k + 1]) && states[k].service.log <= states[k + 1].service.log
    ensures forall n :: n in states[k].requests ==> n in states[k + 1].requests && states[k + 1].requests[n] == states[k].requests[n]
  {
    assert HappensAt(m, lim, states, acts, k);
    HistoryGrows(m, lim, states[k], acts[k], states[k + 1]);
    RequestsStay(m, lim, states[k], acts[k], states[k + 1]);
  }

  /** The act that wrote entry `i` of the history. */
  lemma {:induction false} WrittenBy(m: SysctlManifest, lim: S.Limits, states: seq<Machine>, acts: seq<Act>, i: nat, j: nat) returns (k: nat)
    requires Goes(m, lim, states, acts) && Numbered(states[0]) && states[0].service.log == []
    requires j <= |acts| && i < |states[j].service.log|
    ensures k < j && |states[k].service.log| <= i < |states[k + 1].service.log|
    decreases j
  {
    if j > 0 && i < |states[j - 1].service.log| {
      k := WrittenBy(m, lim, states, acts, i, j - 1);
    } else {
      k := j - 1;
    }
  }

  /** The request was served by act `k` as its answer says, on a host that fulfils it. */
  ghost predicate ServedBy(m: SysctlManifest, states: seq<Machine>, acts: seq<Act>, n: nat, req: ProductionRequest, k: nat)
    requires |states| == |acts| + 1 && k < |acts|
  {
    var pre, post := states[k], states[k + 1];
    && post.service.log == pre.service.log +
         [S.ExecutorDone(n, Some(Succeeded), true), S.Audited(n, S.End(Succeeded), true), S.Answered(n, true, Some(Succeeded))]
    && (Mutating(req) ==> acts[k].Returning? && acts[k].event.req == req && Succeeding(acts[k].event.served)
                          && Fulfilled(m, req, pre.system, post.system))
  }

  /** End to end: whatever the schedule, if a request is answered with success, then at that moment its
      terminal record had been taken and, unless it only reads, the host was as it wants: all files and
      values of an apply in place and the state before it backed up, or the named backup restored, and nothing locked. */
  lemma {:induction false} DeliveredSuccessIsReal(m: SysctlManifest, lim: S.Limits, states: seq<Machine>, acts: seq<Act>, i: nat)
    returns (k: nat)
    requires Goes(m, lim, states, acts) && states[0].service == S.Initial() && states[0].requests == map[]
    requires i < |states[|acts|].service.log| && IsSuccess(states[|acts|].service.log[i])
    ensures var n := states[|acts|].service.log[i].serial;
            && k < |acts| && |states[k + 1].service.log| == i + 1
            && n in states[|acts|].requests && ServedBy(m, states, acts, n, states[|acts|].requests[n], k)
  {
    k := WrittenBy(m, lim, states, acts, i, |acts|);
    Kept(m, lim, states, acts, k, |acts|);
    Kept(m, lim, states, acts, k + 1, |acts|);
    assert states[k + 1].service.log[i] == states[|acts|].service.log[i];
    SuccessAt(m, lim, states, acts, k, i);
  }

  lemma {:induction false} SuccessAt(m: SysctlManifest, lim: S.Limits, states: seq<Machine>, acts: seq<Act>, k: nat, i: nat)
    requires Goes(m, lim, states, acts) && k < |acts|
    requires |states[k].service.log| <= i < |states[k + 1].service.log| && IsSuccess(states[k + 1].service.log[i])
    ensures var n := states[k + 1].service.log[i].serial;
            && n in states[k].requests && ServedBy(m, states, acts, n, states[k].requests[n], k)
            && |states[k + 1].service.log| == i + 1
  {
    assert HappensAt(m, lim, states, acts, k);
    SuccessIsReal(m, lim, states[k], acts[k], states[k + 1], i);
  }

  /** And the host's part of such a run is a run in the sense of the lockout theorems. */
  lemma {:induction false} HostPart(m: SysctlManifest, lim: S.Limits, states: seq<Machine>, acts: seq<Act>, j: nat)
    returns (systems: seq<System>, events: seq<Event>)
    requires Goes(m, lim, states, acts) && j <= |acts|
    ensures Run(m, systems, events) && systems[0] == states[0].system && systems[|events|] == states[j].system
    decreases j
  {
    if j == 0 {
      systems, events := [states[0].system], [];
    } else {
      systems, events := HostPart(m, lim, states, acts, j - 1);
      var e, after := HostAct(m, lim, states, acts, j - 1);
      if e.Some? {
        RunExtends(m, systems, events, e.value, after);
        systems, events := systems + [after], events + [e.value];
      }
    }
  }

  lemma {:induction false} HostAct(m: SysctlManifest, lim: S.Limits, states: seq<Machine>, acts: seq<Act>, k: nat)
    returns (e: Option<Event>, after: System)
    requires Goes(m, lim, states, acts) && k < |acts|
    ensures after == states[k + 1].system
    ensures if e.Some? then Step(m, states[k].system, e.value, after) else after == states[k].system
  {
    assert HappensAt(m, lim, states, acts, k);
    e, after := if acts[k].Returning? then Some(acts[k].event) else None, states[k + 1].system;
  }
}
