/** Why a request is refused or stopped, and what it is answered then. */
module ServiceCauses {
  import opened Common
  import opened Json
  import opened ProductionProtocol
  import opened RequestRegistry
  import opened ServiceModel
  import opened ServiceHistory
  import opened ServiceInvariants
  import opened ServiceSteps
  import opened ServiceRuns
  import opened ServiceTokens

  // ----- from the record to its cause -----

  lemma ExecutedIsNotRefused(q: seq<Event>, n: nat, live: bool, answer: Option<ProductionStatus>, k: nat)
    requires k < |q|
    ensures ExecutedPath(q, n, live, answer)
            ==> !(q[k].Audited? && q[k].record.Refusal?) && !q[k].Interrupted? && !(q[k].Ruled? && q[k].verdict == Refused)
  {
    if ExecutedPath(q, n, live, answer) && k < 5 {
      assert q[..5][k] == q[k];
    }
  }

  lemma RefusedIsRecordedLast(q: seq<Event>, n: nat, live: bool, answer: Option<ProductionStatus>, k: nat)
    requires k < |q|
    ensures RefusedPath(q, n, live, answer) && q[k].Audited? ==> k == |q| - 1
  {
    if RefusedPath(q, n, live, answer) && k < |q| - 1 {
      assert q[..|q| - 1][k] == q[k];
    }
  }

  lemma RefusalComesAfterCause(p: seq<Event>, n: nat, k: nat)
    requires Lawful(p, n) && k < |p| && p[k].Audited? && p[k].record.Refusal?
    ensures k == |p| - 2 && Cause(p[..k], n, p[k].record.status)
  {
    if Complete(p, n) {
      var q := p[..|p| - 1];
      assert k < |q| && q[k] == p[k];
      ExecutedIsNotRefused(q, n, p[|p| - 1].live, p[|p| - 1].answer, k);
      RefusedIsRecordedLast(q, n, p[|p| - 1].live, p[|p| - 1].answer, k);
      assert k == |q| - 1 ==> p[..k] == q[..|q| - 1];
    }
  }

  lemma CausesDiffer(p: seq<Event>, n: nat, status: ProductionStatus)
    requires Cause(p, n, status)
    ensures status in {Rejected, Denied, TimedOut, Cancelled}
    ensures (status == Rejected <==> p == []) && (status == Denied <==> p == [Event.Allowed(n), Ruled(n, Refused)])
    ensures (status == TimedOut <==> StoppedAt(p, n, true)) && (status == Cancelled <==> StoppedAt(p, n, false))
  {
    if p != [] {
      var last := p[|p| - 1];
      assert last.Interrupted? || last == Ruled(n, Refused);
    }
  }

  /** Over every run: a request is recorded as rejected exactly if nothing came before, not even the policy's
      consent; as denied exactly after the authorizer refused it; as timed out or cancelled exactly after its
      token stopped it for that reason; and as nothing else before its execution. */
  lemma RefusalsHaveCauses(inputs: seq<Input>, lim: Limits, i: nat)
    requires i < |After(inputs, lim).log|
    requires After(inputs, lim).log[i].Audited? && After(inputs, lim).log[i].record.Refusal?
    ensures var log := After(inputs, lim).log;
            var n, status := log[i].serial, log[i].record.status;
            var before := Of(log[..i], n);
            && status in {Rejected, Denied, TimedOut, Cancelled}
            && (status == Rejected <==> before == [])
            && (status == Denied <==> before == [Event.Allowed(n), Ruled(n, Refused)])
            && (status == TimedOut <==> StoppedAt(before, n, true))
            && (status == Cancelled <==> StoppedAt(before, n, false))
  {
    var s := After(inputs, lim);
    var n := s.log[i].serial;
    PathsAreLawful(inputs, lim, n);
    OfSplit(s.log, i);
    var p, k := Of(s.log, n), |Of(s.log[..i], n)|;
    assert p[k] == s.log[i] && p[..k] == Of(s.log[..i], n);
    RefusalComesAfterCause(p, n, k);
    CausesDiffer(Of(s.log[..i], n), n, s.log[i].record.status);
  }

  // ----- from the cause to record and answer -----

  /** The rest of a path after its cause: one record, and one answer if the request is live and was recorded. */
  ghost predicate EndsIn(p: seq<Event>, gates: seq<Event>, n: nat, status: ProductionStatus) {
    var k := |gates|;
    && |p| == k + 2 && p[..k] == gates && p[k].Audited? && p[k + 1].Answered?
    && p[k] == Audited(n, Refusal(status), p[k].accepted)
    && p[k + 1] == Answered(n, p[k + 1].live, if p[k + 1].live && p[k].accepted then Some(status) else None)
  }

  lemma RefusedEndsIn(p: seq<Event>, n: nat)
    requires Complete(p, n) && RefusedPath(p[..|p| - 1], n, p[|p| - 1].live, p[|p| - 1].answer)
    ensures |p| >= 2 && p[|p| - 2].Audited? && p[|p| - 2].record.Refusal?
    ensures Cause(p[..|p| - 2], n, p[|p| - 2].record.status)
    ensures EndsIn(p, p[..|p| - 2], n, p[|p| - 2].record.status)
  {
    var q := p[..|p| - 1];
    assert q[..|q| - 1] == p[..|p| - 2] && q[|q| - 1] == p[|p| - 2];
  }

  lemma CauseIsRefused(p: seq<Event>, n: nat, k: nat)
    requires Lawful(p, n) && k < |p| && (p[k].Interrupted? || (p[k].Ruled? && p[k].verdict == Refused))
    ensures Complete(p, n) && RefusedPath(p[..|p| - 1], n, p[|p| - 1].live, p[|p| - 1].answer)
  {
    if Complete(p, n) {
      var q := p[..|p| - 1];
      assert q[k] == p[k];
      ExecutedIsNotRefused(q, n, p[|p| - 1].live, p[|p| - 1].answer, k);
    }
  }

  lemma PathOf(inputs: seq<Input>, lim: Limits, i: nat)
    requires i < |After(inputs, lim).log|
    ensures var log := After(inputs, lim).log;
            var n := log[i].serial;
            var k := |Of(log[..i], n)|;
            Lawful(Of(log, n), n) && k < |Of(log, n)| && Of(log, n)[k] == log[i]
  {
    PathsAreLawful(inputs, lim, After(inputs, lim).log[i].serial);
    OfSplit(After(inputs, lim).log, i);
  }

  /** Over every run: a request that the authorizer refuses is recorded and answered `denied`. */
  lemma RefusedIsDenied(inputs: seq<Input>, lim: Limits, i: nat)
    requires i < |After(inputs, lim).log|
    requires After(inputs, lim).log[i].Ruled? && After(inputs, lim).log[i].verdict == Refused
    ensures var log := After(inputs, lim).log;
            var n := log[i].serial;
            EndsIn(Of(log, n), [Event.Allowed(n), Ruled(n, Refused)], n, Denied)
  {
    var s := After(inputs, lim);
    var n := s.log[i].serial;
    var p, k := Of(s.log, n), |Of(s.log[..i], n)|;
    PathOf(inputs, lim, i);
    CauseIsRefused(p, n, k);
    RefusedEndsIn(p, n);
    assert p[k] == Ruled(n, Refused);
    if k < |p| - 2 { assert p[..|p| - 2][k] == p[k]; }
  }

  /** Over every run: a request that its token stops before execution is recorded and answered `timed_out`
      exactly if the reason of the token was the deadline, and otherwise `cancelled`. */
  lemma InterruptedIsStopped(inputs: seq<Input>, lim: Limits, i: nat) returns (gates: seq<Event>)
    requires i < |After(inputs, lim).log| && After(inputs, lim).log[i].Interrupted?
    ensures var log := After(inputs, lim).log;
            var n, timedOut := log[i].serial, log[i].timedOut;
            StoppedAt(gates, n, timedOut) && EndsIn(Of(log, n), gates, n, if timedOut then TimedOut else Cancelled)
  {
    var s := After(inputs, lim);
    var n := s.log[i].serial;
    var p, k := Of(s.log, n), |Of(s.log[..i], n)|;
    PathOf(inputs, lim, i);
    CauseIsRefused(p, n, k);
    RefusedEndsIn(p, n);
    gates := p[..|p| - 2];
    if k < |p| - 2 { assert gates[k] == p[k]; }
  }

  // ----- what the steps note -----

  /** The events one step adds. */
  function Added(s: Service, t: Service): seq<Event> {
    if |s.log| <= |t.log| then t.log[|s.log|..] else []
  }

  lemma LeaveAdds(s: Service, left: Service, es: seq<Event>, id: string, answer: Option<ProductionStatus>, lim: Limits)
    requires left.log == s.log + es && id in left.operations
    ensures var op := left.operations[id];
            var live := Find(left.registry.live, op.binding.requestId) == Some(op.binding);
            Added(s, Leave(left, id, answer, lim)) == es + [Answered(op.serial, live, if live then answer else None)]
  {
    var op := left.operations[id];
    var live := Find(left.registry.live, op.binding.requestId) == Some(op.binding);
    assert Leave(left, id, answer, lim).log == s.log + (es + [Answered(op.serial, live, if live then answer else None)]);
  }

  lemma RefuseAdds(s: Service, left: Service, es: seq<Event>, id: string, status: ProductionStatus, accepted: bool, lim: Limits)
    requires left.log == s.log + es && id in left.operations
    ensures var op := left.operations[id];
            var live := Find(left.registry.live, op.binding.requestId) == Some(op.binding);
            Added(s, Refuse(left, id, status, accepted, lim)) ==
            es + [Audited(op.serial, Refusal(status), accepted), Answered(op.serial, live, if live && accepted then Some(status) else None)]
  {
    var op := left.operations[id];
    var record := [Audited(op.serial, Refusal(status), accepted)];
    assert Note(left, record).log == s.log + (es + record);
    LeaveAdds(s, Note(left, record), es + record, id, if accepted then Some(status) else None, lim);
  }

  lemma InterruptAdds(s: Service, left: Service, es: seq<Event>, id: string, accepted: bool, lim: Limits)
    requires left.log == s.log + es && id in left.operations
    ensures var op := left.operations[id];
            var live := Find(left.registry.live, op.binding.requestId) == Some(op.binding);
            var status := if op.token.timedOut then TimedOut else Cancelled;
            Added(s, Interrupt(left, id, accepted, lim)) ==
            es + [Interrupted(op.serial, op.token.timedOut)]
               + [Audited(op.serial, Refusal(status), accepted), Answered(op.serial, live, if live && accepted then Some(status) else None)]
  {
    var op := left.operations[id];
    var stop := [Interrupted(op.serial, op.token.timedOut)];
    assert Note(left, stop).log == s.log + (es + stop);
    RefuseAdds(s, Note(left, stop), es + stop, id, StopStatus(op.token), accepted, lim);
  }

  // ----- the notes of each step -----

  lemma {:induction false} SubmitAdds(s: Service, b: RequestBinding, eligible: bool, accepted: bool, lim: Limits)
    ensures var added := Added(s, SubmitStep(s, b, eligible, accepted, lim));
            if !MayRegister(s.registry, b, lim.maxLive) || b.requestId in s.operations then added == []
            else if eligible then added == [Event.Allowed(s.next)]
            else |added| == 2 && added[0] == Audited(s.next, Refusal(Rejected), accepted)
                 && added[1].Answered? && added[1] == Answered(s.next, added[1].live, if added[1].live && accepted then Some(Rejected) else None)
  {
    if MayRegister(s.registry, b, lim.maxLive) && b.requestId !in s.operations {
      SubmitUnfolds(s, b, eligible, accepted, lim);
      if !eligible { RefuseAdds(s, Entered(s, b), [], b.requestId, Rejected, accepted, lim); }
    }
  }

  /** The operation that a step of the lock or of the authorizer is about. */
  function Holder(s: Service, input: Input): Operation
    requires Enabled(s, input) && (input.TakeLock? || input.Judged?)
  {
    if input.TakeLock? then s.operations[s.queue[0]] else s.operations[s.lock.value]
  }

  /** Of the others, none notes a stop or a verdict. */
  ghost predicate Plain(added: seq<Event>) {
    forall i :: 0 <= i < |added| ==> !added[i].Interrupted? && !added[i].Ruled?
  }

  lemma {:induction false} OthersArePlain(s: Service, input: Input, lim: Limits)
    requires Enabled(s, input) && !input.TakeLock? && !input.Judged?
    ensures Plain(Added(s, Step(s, input, lim)))
  {
    if input.Submit? {
      SubmitAdds(s, input.binding, input.eligible, input.accepted, lim);
    } else if input.ExecutorReturns? {
      var n := s.operations[s.lock.value].serial;
      var es := Ending(n, input.status, input.accepted, input.fits);
      LeaveAdds(s, Note(s, es), es, s.lock.value, FinalAnswer(input.status, input.accepted, input.fits), lim);
    }
  }

  /** What a checkpoint adds to `es`, and nothing of the kind without one. */
  ghost predicate Stops(added: seq<Event>, es: seq<Event>, n: nat, token: Token, stopped: bool) {
    if stopped
    then |added| == |es| + 3 && added[..|es|] == es && added[|es|] == Interrupted(n, token.timedOut)
         && Plain(added[|es| + 1..])
    else es <= added && Plain(added[|es|..])
  }

  lemma {:induction false} StopAdds(s: Service, left: Service, es: seq<Event>, id: string, accepted: bool, lim: Limits)
    requires left.log == s.log + es && id in left.operations
    ensures Stops(Added(s, Interrupt(left, id, accepted, lim)), es, left.operations[id].serial, left.operations[id].token, true)
  {
    InterruptAdds(s, left, es, id, accepted, lim);
  }

  lemma {:induction false} TakeLockAdds(s: Service, accepted: bool, lim: Limits)
    requires Enabled(s, TakeLock(accepted))
    ensures var op := s.operations[s.queue[0]];
            Stops(Added(s, TakeLockStep(s, accepted, lim)), [], op.serial, op.token, op.token.cancelled)
  {
    var id := s.queue[0];
    if s.operations[id].token.cancelled {
      StopAdds(s, s.(lock := Some(id), queue := s.queue[1..]), [], id, accepted, lim);
    }
  }

  lemma {:induction false} JudgedAdds(s: Service, verdict: Verdict, accepted: bool, lim: Limits)
    requires Enabled(s, Judged(verdict, accepted))
    ensures var op := s.operations[s.lock.value];
            Stops(Added(s, JudgedStep(s, verdict, accepted, lim)), [Ruled(op.serial, verdict)], op.serial, op.token,
                  op.token.cancelled && verdict != Refused)
  {
    var id := s.lock.value;
    var op := s.operations[id];
    var es := [Ruled(op.serial, verdict)];
    var ruled := Note(s, es);
    if verdict == Refused {
      RefuseAdds(s, ruled, es, id, Denied, accepted, lim);
    } else if op.token.cancelled {
      StopAdds(s, ruled, es, id, accepted, lim);
    } else {
      GrantedUnfolds(s, accepted, lim);
      var more := [Cleared(op.serial), Audited(op.serial, Start, accepted)];
      if !accepted {
        assert Note(ruled, more).log == s.log + (es + more);
        LeaveAdds(s, Note(ruled, more), es + more, id, None, lim);
      } else {
        assert JudgedStep(s, verdict, accepted, lim).log == s.log + (es + more + [ExecutorCreated(op.serial)]);
      }
    }
  }

  /** A step notes a stop if and only if it is a checkpoint or the end of an authorization of a request whose
      token is cancelled, unless the authorizer refused that request; and then it notes the reason of the token,
      which is that of its first cancellation. The verdict is noted as it was given. */
  lemma {:induction false} StopsAreTheTokens(s: Service, input: Input, lim: Limits, n: nat, timedOut: bool)
    requires Enabled(s, input)
    ensures Interrupted(n, timedOut) in Added(s, Step(s, input, lim)) <==>
            && (input.TakeLock? || (input.Judged? && input.verdict != Refused))
            && Holder(s, input).serial == n && Holder(s, input).token == Token(true, timedOut)
    ensures forall verdict :: Ruled(n, verdict) in Added(s, Step(s, input, lim)) <==>
              input.Judged? && Holder(s, input).serial == n && input.verdict == verdict
  {
    var added := Added(s, Step(s, input, lim));
    if input.TakeLock? {
      TakeLockAdds(s, input.accepted, lim);
      NotesAre(added, [], Holder(s, input).serial, Holder(s, input).token, Holder(s, input).token.cancelled);
    } else if input.Judged? {
      JudgedAdds(s, input.verdict, input.accepted, lim);
      NotesAre(added, [Ruled(Holder(s, input).serial, input.verdict)], Holder(s, input).serial, Holder(s, input).token,
               Holder(s, input).token.cancelled && input.verdict != Refused);
    } else {
      OthersArePlain(s, input, lim);
    }
  }

  lemma {:induction false} NotesAre(added: seq<Event>, es: seq<Event>, k: nat, token: Token, stopped: bool)
    requires Stops(added, es, k, token, stopped) && forall i :: 0 <= i < |es| ==> es[i].Ruled?
    ensures forall n, timedOut :: Interrupted(n, timedOut) in added <==> stopped && n == k && timedOut == token.timedOut
    ensures forall n, verdict :: Ruled(n, verdict) in added <==> Ruled(n, verdict) in es
  {
    var rest := if stopped then added[|es| + 1..] else added[|es|..];
    var middle := if stopped then [Interrupted(k, token.timedOut)] else [];
    assert added == es + middle + rest;
  }

  // ----- the deadline -----

  /** The deadline runs only during execution. */
  ghost predicate OnlyLate(s: Service) {
    forall id :: id in s.operations && s.operations[id].token.timedOut ==> s.operations[id].token.cancelled && s.operations[id].phase.Executing?
  }

  /** No stop in the history is one by the deadline. */
  ghost predicate NeverLate(log: seq<Event>) {
    forall i :: 0 <= i < |log| && log[i].Interrupted? ==> !log[i].timedOut
  }

  lemma {:induction false} StepKeepsLate(s: Service, input: Input, lim: Limits)
    requires OnlyLate(s) && Enabled(s, input)
    ensures OnlyLate(Step(s, input, lim))
  {
    match input
    case Submit(b, eligible, accepted) => SubmitTokens(s, b, eligible, accepted, lim);
    case TakeLock(accepted) => TakeLockKeepsLate(s, accepted, lim);
    case Judged(verdict, accepted) => JudgedKeepsLate(s, verdict, accepted, lim);
    case ExecutorReturns(status, accepted, fits) => ReturnKeepsLate(s, status, accepted, fits, lim);
    case _ => CancelKeepsLate(s, input, lim);
  }

  lemma {:induction false} TakeLockKeepsLate(s: Service, accepted: bool, lim: Limits)
    requires OnlyLate(s) && Enabled(s, TakeLock(accepted))
    ensures OnlyLate(TakeLockStep(s, accepted, lim))
  {
  }

  lemma {:induction false} JudgedKeepsLate(s: Service, verdict: Verdict, accepted: bool, lim: Limits)
    requires OnlyLate(s) && Enabled(s, Judged(verdict, accepted))
    ensures OnlyLate(JudgedStep(s, verdict, accepted, lim))
  {
  }

  lemma {:induction false} ReturnKeepsLate(s: Service, status: Option<ProductionStatus>, accepted: bool, fits: bool, lim: Limits)
    requires OnlyLate(s) && Enabled(s, ExecutorReturns(status, accepted, fits))
    ensures OnlyLate(ExecutorReturnsStep(s, status, accepted, fits, lim))
  {
  }

  lemma {:induction false} CancelKeepsLate(s: Service, input: Input, lim: Limits)
    requires OnlyLate(s) && Enabled(s, input) && (input.CancelRequest? || input.OwnerLeaves? || input.DeadlinePasses?)
    ensures OnlyLate(Step(s, input, lim))
  {
  }

  lemma {:induction false} SubmitTokens(s: Service, b: RequestBinding, eligible: bool, accepted: bool, lim: Limits)
    ensures forall id :: id in SubmitStep(s, b, eligible, accepted, lim).operations ==>
              || (id in s.operations && SubmitStep(s, b, eligible, accepted, lim).operations[id] == s.operations[id])
              || SubmitStep(s, b, eligible, accepted, lim).operations[id].token == Token(false, false)
  {
  }

  lemma {:induction false} StepAddsNoLate(s: Service, input: Input, lim: Limits)
    requires Inv(s, lim) && OnlyLate(s) && NeverLate(s.log) && Enabled(s, input)
    ensures NeverLate(Step(s, input, lim).log)
  {
    var t := Step(s, input, lim);
    StepContinuesLog(s, input, lim);
    forall i | 0 <= i < |t.log| && t.log[i].Interrupted? ensures !t.log[i].timedOut {
      if i < |s.log| {
        assert t.log[i] == s.log[i];
      } else {
        assert Added(s, t)[i - |s.log|] == t.log[i];
        StopsAreTheTokens(s, input, lim, t.log[i].serial, t.log[i].timedOut);
        if input.TakeLock? { assert s.queue[0] in s.queue; }
      }
    }
  }

  lemma {:induction false} StepContinuesLog(s: Service, input: Input, lim: Limits)
    requires Inv(s, lim) && Enabled(s, input)
    ensures s.log <= Step(s, input, lim).log
  {
    StepContinues(s, input, lim);
    if input.Judged? { JudgedContinues(s, input.verdict, input.accepted, lim); }
  }

  lemma {:induction false} FromStaysLate(s: Service, inputs: seq<Input>, lim: Limits)
    requires Inv(s, lim) && OnlyLate(s) && NeverLate(s.log)
    ensures OnlyLate(From(s, inputs, lim)) && NeverLate(From(s, inputs, lim).log)
    decreases |inputs|
  {
    if inputs != [] {
      if Enabled(s, inputs[0]) {
        StepKeepsLate(s, inputs[0], lim);
        StepAddsNoLate(s, inputs[0], lim);
        StepKeepsInv(s, inputs[0], lim);
      }
      FromStaysLate(Next(s, inputs[0], lim), inputs[1..], lim);
    }
  }

  /** Since the deadline runs only while the executor does, no request is ever recorded as timed out before
      its execution, and a token with that reason belongs to the request that executes. */
  lemma {:induction false} NothingTimesOutEarly(inputs: seq<Input>, lim: Limits, i: nat)
    requires i < |After(inputs, lim).log|
    ensures OnlyLate(After(inputs, lim))
    ensures var e := After(inputs, lim).log[i]; e.Audited? && e.record.Refusal? ==> e.record.status != TimedOut
  {
    InitialInv(lim);
    FromStaysLate(Initial(), inputs, lim);
    var log := After(inputs, lim).log;
    if log[i].Audited? && log[i].record.Refusal? && log[i].record.status == TimedOut {
      RefusalsHaveCauses(inputs, lim, i);
      var before := Of(log[..i], log[i].serial);
      assert before[|before| - 1] == Interrupted(log[i].serial, true);
      var j := OfFrom(log[..i], log[i].serial, |before| - 1);
    }
  }

  /** An event of a path is an event of the history. */
  lemma {:induction false} OfFrom(log: seq<Event>, n: nat, k: nat) returns (j: nat)
    requires k < |Of(log, n)|
    ensures j < |log| && log[j] == Of(log, n)[k]
    decreases |log|
  {
    j := |log| - 1;
    if k < |Of(log[..|log| - 1], n)| {
      j := OfFrom(log[..|log| - 1], n, k);
    }
  }

  // ----- from the reason to the first cancellation -----

  /** The request under `id` goes on from one state to the other, and is cancelled between them. */
  ghost predicate BecomesCancelled(s: Service, t: Service, id: string) {
    && id in s.operations && id in t.operations && t.operations[id].serial == s.operations[id].serial
    && !s.operations[id].token.cancelled && t.operations[id].token.cancelled
  }

  lemma {:induction false} StepGivesReason(s: Service, input: Input, lim: Limits, id: string)
    requires Inv(s, lim) && BecomesCancelled(s, Next(s, input, lim), id)
    ensures Enabled(s, input) && (input.DeadlinePasses? || input.CancelRequest? || input.OwnerLeaves?)
    ensures Next(s, input, lim).operations[id].token.timedOut <==> input == DeadlinePasses
    ensures input == DeadlinePasses ==> s.lock == Some(id) && s.operations[id].phase == Executing(false)
  {
    match input
    case Submit(b, eligible, accepted) => SubmitTokens(s, b, eligible, accepted, lim);
    case TakeLock(accepted) => TakeLockCancelsNothing(s, accepted, lim, id);
    case Judged(verdict, accepted) => JudgedCancelsNothing(s, verdict, accepted, lim, id);
    case ExecutorReturns(result, accepted, fits) => ReturnCancelsNothing(s, result, accepted, fits, lim, id);
    case DeadlinePasses =>
    case CancelRequest(other, peer) => CancelGivesReason(s, other, peer, id);
    case OwnerLeaves(owner) => DisconnectGivesReason(s, owner, lim, id);
  }

  lemma {:induction false} TakeLockCancelsNothing(s: Service, accepted: bool, lim: Limits, id: string)
    ensures Enabled(s, TakeLock(accepted)) ==> !BecomesCancelled(s, TakeLockStep(s, accepted, lim), id)
  {
  }

  lemma {:induction false} CancelGivesReason(s: Service, other: string, peer: PeerIdentity, id: string)
    ensures BecomesCancelled(s, CancelStep(s, other, peer), id) ==> !CancelStep(s, other, peer).operations[id].token.timedOut
  {
  }

  lemma {:induction false} DisconnectGivesReason(s: Service, owner: string, lim: Limits, id: string)
    ensures BecomesCancelled(s, OwnerLeavesStep(s, owner, lim), id) ==> !OwnerLeavesStep(s, owner, lim).operations[id].token.timedOut
  {
  }

  lemma {:induction false} JudgedCancelsNothing(s: Service, verdict: Verdict, accepted: bool, lim: Limits, id: string)
    ensures Enabled(s, Judged(verdict, accepted)) ==> !BecomesCancelled(s, JudgedStep(s, verdict, accepted, lim), id)
  {
  }

  lemma {:induction false} ReturnCancelsNothing(s: Service, result: Option<ProductionStatus>, accepted: bool, fits: bool, lim: Limits,
                                                id: string)
    ensures Enabled(s, ExecutorReturns(result, accepted, fits))
            ==> !BecomesCancelled(s, ExecutorReturnsStep(s, result, accepted, fits, lim), id)
  {
  }

  lemma {:induction false} NextContinues(s: Service, input: Input, lim: Limits)
    requires Inv(s, lim)
    ensures Inv(Next(s, input, lim), lim) && Continues(s, Next(s, input, lim))
  {
    if Enabled(s, input) {
      StepKeepsInv(s, input, lim);
      StepContinues(s, input, lim);
    }
  }

  lemma {:induction false} CancelledOnTheWay(s: Service, t: Service, u: Service, id: string)
    requires Filed(s) && Continues(s, t) && Continues(t, u) && BecomesCancelled(s, u, id)
    ensures if BecomesCancelled(s, t, id) then u.operations[id].token == t.operations[id].token else BecomesCancelled(t, u, id)
  {
  }

  lemma {:induction false} FromShifts(s: Service, later: seq<Input>, k: nat, lim: Limits)
    requires k < |later|
    ensures From(s, later[..k + 1], lim) == From(Next(s, later[0], lim), later[1..][..k], lim)
  {
    assert later[..k + 1][1..] == later[1..][..k] && later[..k + 1][0] == later[0];
  }

  /** The step is the one from `a` to `b` that cancels the request, for the reason it has in the end. */
  ghost predicate Cancels(a: Service, b: Service, u: Service, id: string, lim: Limits) {
    Inv(a, lim) && BecomesCancelled(a, b, id) && id in u.operations && u.operations[id].token == b.operations[id].token
  }

  lemma {:induction false} FindFirstCancellation(s: Service, later: seq<Input>, u: Service, lim: Limits, id: string)
    returns (k: nat, a: Service)
    requires Inv(s, lim) && u == From(s, later, lim) && BecomesCancelled(s, u, id)
    ensures k < |later| && a == From(s, later[..k], lim) && Cancels(a, Next(a, later[k], lim), u, id, lim)
    decreases |later|
  {
    var t := Next(s, later[0], lim);
    NextContinues(s, later[0], lim);
    FromContinues(t, later[1..], lim);
    CancelledOnTheWay(s, t, u, id);
    if BecomesCancelled(s, t, id) {
      k, a := 0, s;
    } else {
      k, a := FindFirstCancellation(t, later[1..], u, lim, id);
      FromShifts(s, later, k, lim);
      k := k + 1;
    }
  }

  /** Over every run: the reason of a cancelled request tells what cancelled it first. It is the deadline exactly
      if the first step that cancelled the request was the deadline's, which finds it executing with the lock;
      otherwise that step was a caller's cancellation or a disconnect, and a deadline that passes later changes
      nothing. */
  lemma {:induction false} ReasonIsTheFirst(before: seq<Input>, later: seq<Input>, lim: Limits, id: string) returns (k: nat)
    requires BecomesCancelled(After(before, lim), From(After(before, lim), later, lim), id)
    ensures k < |later|
    ensures var s, a := After(before, lim), From(After(before, lim), later[..k], lim);
            && BecomesCancelled(a, Next(a, later[k], lim), id) && Enabled(a, later[k])
            && (From(s, later, lim).operations[id].token.timedOut <==> later[k] == DeadlinePasses)
            && (if later[k] == DeadlinePasses then a.lock == Some(id) && a.operations[id].phase == Executing(false)
                else later[k].CancelRequest? || later[k].OwnerLeaves?)
  {
    Reachable(before, lim);
    var s := After(before, lim);
    var a;
    k, a := FindFirstCancellation(s, later, From(s, later, lim), lim, id);
    StepGivesReason(a, later[k], lim, id);
  }

  /** When the deadline passes, the request that executes goes on and is cancelled, for this reason unless it was
      before; every other request, the registry and the history are as they were. */
  lemma {:induction false} DeadlineReachesTheExecuting(inputs: seq<Input>, lim: Limits)
    requires Enabled(After(inputs, lim), DeadlinePasses)
    ensures var s, t := After(inputs, lim), Step(After(inputs, lim), DeadlinePasses, lim);
            && t == s.(operations := t.operations) && t.operations.Keys == s.operations.Keys
            && forall id :: id in s.operations ==>
                 if s.operations[id].phase.Executing?
                 then && s.lock == Some(id) && t.operations[id].phase == Executing(true)
                      && t.operations[id].serial == s.operations[id].serial
                      && t.operations[id].binding == s.operations[id].binding
                      && t.operations[id].token.cancelled
                      && (t.operations[id].token.timedOut <==> s.operations[id].token.cancelled ==> s.operations[id].token.timedOut)
                 else t.operations[id] == s.operations[id]
  {
    Reachable(inputs, lim);
    var s := After(inputs, lim);
    forall id | id in s.operations && s.operations[id].phase.Executing? ensures s.lock == Some(id) {
      assert Placed(s, id);
    }
  }
}
