/** Cancellation: who reaches a token, what it never undoes, and what a departed owner leaves behind. */
module ServiceTokens {
  import opened Common
  import opened Json
  import opened ProductionProtocol
  import opened RequestRegistry
  import opened ServiceModel
  import opened ServiceHistory
  import opened ServiceInvariants
  import opened ServiceSteps
  import opened ServiceRuns

  /** An operation whose request is no longer live, because its owner left, is cancelled. */
  ghost predicate StaleIsCancelled(s: Service) {
    forall id :: id in s.operations && s.operations[id].binding !in s.registry.live ==> s.operations[id].token.cancelled
  }

  /** The same, but for the operation `x`. */
  ghost predicate StaleBut(s: Service, x: string) {
    forall id :: id in s.operations && id != x && s.operations[id].binding !in s.registry.live ==> s.operations[id].token.cancelled
  }

  lemma LeaveKeepsStale(s: Service, left: Service, id: string, answer: Option<ProductionStatus>, lim: Limits)
    requires Coherent(s, lim) && StaleBut(s, id) && id in s.operations
    requires left.registry == s.registry && left.bindings == s.bindings && left.operations == s.operations
    ensures StaleIsCancelled(Leave(left, id, answer, lim))
  {
    var op := left.operations[id];
    CompleteKeepsCoherent(left, op.binding, lim);
    var post := Leave(left, id, answer, lim);
    assert post.registry == CompleteBinding(left, op.binding, lim).registry;
    forall i | i in post.operations && post.operations[i].binding !in post.registry.live
      ensures post.operations[i].token.cancelled
    {
      assert post.operations[i] == s.operations[i] && s.operations[i].binding.requestId == i;
    }
  }

  /** Steps that leave registry and bindings alone and uncancel nobody. */
  lemma StayKeepsStale(s: Service, t: Service)
    requires StaleIsCancelled(s) && t.registry == s.registry && t.operations.Keys == s.operations.Keys
    requires forall i :: i in s.operations ==> t.operations[i].binding == s.operations[i].binding
    requires forall i :: i in s.operations && s.operations[i].token.cancelled ==> t.operations[i].token.cancelled
    ensures StaleIsCancelled(t)
  {
  }

  lemma ClashKeepsStale(s: Service, b: RequestBinding, lim: Limits)
    requires Inv(s, lim) && StaleIsCancelled(s) && MayRegister(s.registry, b, lim.maxLive) && b.requestId in s.operations
    ensures StaleIsCancelled(CompleteBinding(s.(registry := Registered(s.registry, b), bindings := s.bindings[b.requestId := b]), b, lim))
  {
    var registered := s.(registry := Registered(s.registry, b), bindings := s.bindings[b.requestId := b]);
    RegisterKeepsCoherent(s, b, lim);
    CompleteKeepsCoherent(registered, b, lim);
    var t := CompleteBinding(registered, b, lim);
    forall c | c in s.registry.live ensures c in t.registry.live {
      OwnIdInIds(s.registry.live, c);
    }
  }

  lemma EnterKeepsStale(s: Service, b: RequestBinding)
    requires StaleIsCancelled(s)
    ensures StaleIsCancelled(Entered(s, b))
  {
    var t := Entered(s, b);
    assert forall c :: c in s.registry.live ==> c in t.registry.live;
    assert b in t.registry.live;
  }

  lemma SubmitKeepsStale(s: Service, b: RequestBinding, eligible: bool, accepted: bool, lim: Limits)
    requires Inv(s, lim) && StaleIsCancelled(s)
    ensures StaleIsCancelled(SubmitStep(s, b, eligible, accepted, lim))
  {
    var id := b.requestId;
    if !MayRegister(s.registry, b, lim.maxLive) {
    } else if id in s.operations {
      ClashKeepsStale(s, b, lim);
    } else {
      SubmitUnfolds(s, b, eligible, accepted, lim);
      EnterKeepsStale(s, b);
      EnterKeepsCoherent(s, b, lim);
      var entered := Entered(s, b);
      if !eligible {
        var noted := Note(entered, [Audited(s.next, Refusal(Rejected), accepted)]);
        LeaveKeepsStale(entered, noted, id, if accepted then Some(Rejected) else None, lim);
      } else {
        StayKeepsStale(entered, SubmitStep(s, b, eligible, accepted, lim));
      }
    }
  }

  lemma RefuseKeepsStale(s: Service, left: Service, id: string, status: ProductionStatus, accepted: bool, lim: Limits)
    requires Coherent(s, lim) && StaleIsCancelled(s) && id in s.operations
    requires left.registry == s.registry && left.bindings == s.bindings && left.operations == s.operations
    ensures StaleIsCancelled(Refuse(left, id, status, accepted, lim))
  {
    var noted := Note(left, [Audited(left.operations[id].serial, Refusal(status), accepted)]);
    LeaveKeepsStale(s, noted, id, if accepted then Some(status) else None, lim);
  }

  lemma InterruptKeepsStale(s: Service, left: Service, id: string, accepted: bool, lim: Limits)
    requires Coherent(s, lim) && StaleIsCancelled(s) && id in s.operations
    requires left.registry == s.registry && left.bindings == s.bindings && left.operations == s.operations
    ensures StaleIsCancelled(Interrupt(left, id, accepted, lim))
  {
    var op := left.operations[id];
    RefuseKeepsStale(s, Note(left, [Interrupted(op.serial, op.token.timedOut)]), id, StopStatus(op.token), accepted, lim);
  }

  lemma JudgedKeepsStale(s: Service, verdict: Verdict, accepted: bool, lim: Limits)
    requires Inv(s, lim) && StaleIsCancelled(s) && Enabled(s, Judged(verdict, accepted))
    ensures StaleIsCancelled(JudgedStep(s, verdict, accepted, lim))
  {
    var id := s.lock.value;
    var op := s.operations[id];
    var ruled := Note(s, [Ruled(op.serial, verdict)]);
    match verdict
    case Withdrawn => InterruptKeepsStale(s, ruled, id, accepted, lim);
    case Refused => RefuseKeepsStale(s, ruled, id, Denied, accepted, lim);
    case Granted =>
      if op.token.cancelled {
        InterruptKeepsStale(s, ruled, id, accepted, lim);
      } else if !accepted {
        LeaveKeepsStale(s, Note(ruled, [Cleared(op.serial), Audited(op.serial, Start, accepted)]), id, None, lim);
      } else {
        StayKeepsStale(s, JudgedStep(s, verdict, accepted, lim));
      }
  }

  lemma TakeLockKeepsStale(s: Service, accepted: bool, lim: Limits)
    requires Inv(s, lim) && StaleIsCancelled(s) && Enabled(s, TakeLock(accepted))
    ensures StaleIsCancelled(TakeLockStep(s, accepted, lim))
  {
    var id := s.queue[0];
    if s.operations[id].token.cancelled {
      InterruptKeepsStale(s, s.(lock := Some(id), queue := s.queue[1..]), id, accepted, lim);
    } else {
      StayKeepsStale(s, TakeLockStep(s, accepted, lim));
    }
  }

  lemma ExecutorReturnsKeepsStale(s: Service, result: Option<ProductionStatus>, accepted: bool, fits: bool, lim: Limits)
    requires Inv(s, lim) && StaleIsCancelled(s) && Enabled(s, ExecutorReturns(result, accepted, fits))
    ensures StaleIsCancelled(ExecutorReturnsStep(s, result, accepted, fits, lim))
  {
    var noted := Note(s, Ending(s.operations[s.lock.value].serial, result, accepted, fits));
    LeaveKeepsStale(s, noted, s.lock.value, FinalAnswer(result, accepted, fits), lim);
  }

  lemma CancelKeepsStale(s: Service, input: Input, lim: Limits)
    requires StaleIsCancelled(s) && Enabled(s, input) && (input.CancelRequest? || input.OwnerLeaves? || input.DeadlinePasses?)
    ensures StaleIsCancelled(Step(s, input, lim))
  {
  }

  lemma StepKeepsStale(s: Service, input: Input, lim: Limits)
    requires Inv(s, lim) && Enabled(s, input) && StaleIsCancelled(s)
    ensures StaleIsCancelled(Step(s, input, lim))
  {
    match input
    case Submit(b, eligible, accepted) => SubmitKeepsStale(s, b, eligible, accepted, lim);
    case TakeLock(accepted) => TakeLockKeepsStale(s, accepted, lim);
    case Judged(verdict, accepted) => JudgedKeepsStale(s, verdict, accepted, lim);
    case ExecutorReturns(result, accepted, fits) => ExecutorReturnsKeepsStale(s, result, accepted, fits, lim);
    case _ => CancelKeepsStale(s, input, lim);
  }

  lemma {:induction false} FromKeepsStale(s: Service, inputs: seq<Input>, lim: Limits)
    requires Inv(s, lim) && StaleIsCancelled(s)
    ensures StaleIsCancelled(From(s, inputs, lim))
    decreases |inputs|
  {
    if inputs != [] {
      if Enabled(s, inputs[0]) {
        StepKeepsInv(s, inputs[0], lim);
        StepKeepsStale(s, inputs[0], lim);
      }
      FromKeepsStale(Next(s, inputs[0], lim), inputs[1..], lim);
    }
  }

  lemma ReachableStale(inputs: seq<Input>, lim: Limits)
    ensures Inv(After(inputs, lim), lim) && StaleIsCancelled(After(inputs, lim))
  {
    Reachable(inputs, lim);
    InitialInv(lim);
    FromKeepsStale(Initial(), inputs, lim);
  }

  // ----- tokens are one-way -----

  /** What one step may do to an operation: keep its identity, never its cancellation undone. */
  ghost predicate Continues(s: Service, t: Service) {
    && s.next <= t.next
    && (forall id :: id in t.operations ==>
          (t.operations[id].serial >= s.next
           || (id in s.operations && t.operations[id].serial == s.operations[id].serial
               && t.operations[id].binding == s.operations[id].binding
               && (s.operations[id].token.cancelled ==> t.operations[id].token == s.operations[id].token))))
  }

  /** No executor task is created between two states. */
  ghost predicate NoExecutor(s: Service, t: Service) {
    s.log <= t.log && forall i :: |s.log| <= i < |t.log| ==> !t.log[i].ExecutorCreated?
  }

  lemma LeaveContinues(s: Service, left: Service, id: string, answer: Option<ProductionStatus>, lim: Limits)
    requires Filed(s) && id in s.operations && left.operations == s.operations && left.next == s.next && NoExecutor(s, left)
    ensures Continues(s, Leave(left, id, answer, lim)) && NoExecutor(s, Leave(left, id, answer, lim))
  {
    var t := Leave(left, id, answer, lim);
    assert t.operations == s.operations - {id} && t.next == s.next;
    assert t.log == left.log + [t.log[|left.log|]] && t.log[|left.log|].Answered?;
  }

  lemma RefuseContinues(s: Service, left: Service, id: string, status: ProductionStatus, accepted: bool, lim: Limits)
    requires Filed(s) && id in s.operations && left.operations == s.operations && left.next == s.next && NoExecutor(s, left)
    ensures Continues(s, Refuse(left, id, status, accepted, lim)) && NoExecutor(s, Refuse(left, id, status, accepted, lim))
  {
    LeaveContinues(s, Note(left, [Audited(left.operations[id].serial, Refusal(status), accepted)]), id,
                   if accepted then Some(status) else None, lim);
  }

  lemma InterruptContinues(s: Service, left: Service, id: string, accepted: bool, lim: Limits)
    requires Filed(s) && id in s.operations && left.operations == s.operations && left.next == s.next && NoExecutor(s, left)
    ensures Continues(s, Interrupt(left, id, accepted, lim)) && NoExecutor(s, Interrupt(left, id, accepted, lim))
  {
    var op := left.operations[id];
    RefuseContinues(s, Note(left, [Interrupted(op.serial, op.token.timedOut)]), id, StopStatus(op.token), accepted, lim);
  }

  lemma {:induction false} SubmitContinues(s: Service, b: RequestBinding, eligible: bool, accepted: bool, lim: Limits)
    requires Filed(s)
    ensures Continues(s, SubmitStep(s, b, eligible, accepted, lim)) && NoExecutor(s, SubmitStep(s, b, eligible, accepted, lim))
  {
    var id := b.requestId;
    if MayRegister(s.registry, b, lim.maxLive) && id !in s.operations {
      SubmitUnfolds(s, b, eligible, accepted, lim);
      EnteredContinues(s, b);
      if !eligible {
        RefuseContinues(Entered(s, b), Entered(s, b), id, Rejected, accepted, lim);
      }
    }
  }

  lemma {:induction false} EnteredContinues(s: Service, b: RequestBinding)
    requires Filed(s) && b.requestId !in s.operations
    ensures Filed(Entered(s, b)) && Continues(s, Entered(s, b)) && NoExecutor(s, Entered(s, b))
  {
  }

  lemma TakeLockContinues(s: Service, accepted: bool, lim: Limits)
    requires Filed(s) && Enabled(s, TakeLock(accepted))
    ensures Continues(s, TakeLockStep(s, accepted, lim)) && NoExecutor(s, TakeLockStep(s, accepted, lim))
  {
    var id := s.queue[0];
    if s.operations[id].token.cancelled {
      InterruptContinues(s, s.(lock := Some(id), queue := s.queue[1..]), id, accepted, lim);
    }
  }

  /** Only a granted, uncancelled request whose `started` record is accepted gets an executor. */
  lemma JudgedContinues(s: Service, verdict: Verdict, accepted: bool, lim: Limits)
    requires Filed(s) && Enabled(s, Judged(verdict, accepted))
    ensures Continues(s, JudgedStep(s, verdict, accepted, lim))
    ensures var op := s.operations[s.lock.value];
            if verdict == Granted && accepted && !op.token.cancelled
            then JudgedStep(s, verdict, accepted, lim).log
                 == s.log + [Ruled(op.serial, Granted), Cleared(op.serial), Audited(op.serial, Start, true), ExecutorCreated(op.serial)]
            else NoExecutor(s, JudgedStep(s, verdict, accepted, lim))
  {
    var id := s.lock.value;
    var op := s.operations[id];
    var ruled := Note(s, [Ruled(op.serial, verdict)]);
    match verdict
    case Withdrawn => InterruptContinues(s, ruled, id, accepted, lim);
    case Refused => RefuseContinues(s, ruled, id, Denied, accepted, lim);
    case Granted =>
      if op.token.cancelled {
        InterruptContinues(s, ruled, id, accepted, lim);
      } else if !accepted {
        LeaveContinues(s, Note(ruled, [Cleared(op.serial), Audited(op.serial, Start, accepted)]), id, None, lim);
      }
  }

  lemma ExecutorReturnsContinues(s: Service, result: Option<ProductionStatus>, accepted: bool, fits: bool, lim: Limits)
    requires Filed(s) && Enabled(s, ExecutorReturns(result, accepted, fits))
    ensures Continues(s, ExecutorReturnsStep(s, result, accepted, fits, lim)) && NoExecutor(s, ExecutorReturnsStep(s, result, accepted, fits, lim))
  {
    var noted := Note(s, Ending(s.operations[s.lock.value].serial, result, accepted, fits));
    LeaveContinues(s, noted, s.lock.value, FinalAnswer(result, accepted, fits), lim);
  }

  lemma CancelContinues(s: Service, input: Input, lim: Limits)
    requires Filed(s) && Enabled(s, input) && (input.CancelRequest? || input.OwnerLeaves? || input.DeadlinePasses?)
    ensures Continues(s, Step(s, input, lim)) && NoExecutor(s, Step(s, input, lim))
  {
  }

  lemma StepContinues(s: Service, input: Input, lim: Limits)
    requires Filed(s) && Enabled(s, input)
    ensures Continues(s, Step(s, input, lim))
    ensures !input.Judged? ==> NoExecutor(s, Step(s, input, lim))
  {
    match input
    case Submit(b, eligible, accepted) => SubmitContinues(s, b, eligible, accepted, lim);
    case TakeLock(accepted) => TakeLockContinues(s, accepted, lim);
    case Judged(verdict, accepted) => JudgedContinues(s, verdict, accepted, lim);
    case ExecutorReturns(result, accepted, fits) => ExecutorReturnsContinues(s, result, accepted, fits, lim);
    case _ => CancelContinues(s, input, lim);
  }

  lemma {:induction false} FromContinues(s: Service, inputs: seq<Input>, lim: Limits)
    requires Inv(s, lim)
    ensures Continues(s, From(s, inputs, lim))
    decreases |inputs|
  {
    if inputs != [] {
      var t := Next(s, inputs[0], lim);
      if Enabled(s, inputs[0]) {
        StepContinues(s, inputs[0], lim);
        StepKeepsInv(s, inputs[0], lim);
      }
      FromContinues(t, inputs[1..], lim);
    }
  }

  /** First cancellation wins: once a request's token is cancelled, its reason stays until the request is
      gone; a serial number keeps its ID and binding, and never comes back after it is gone. */
  lemma FirstCancellationWins(before: seq<Input>, later: seq<Input>, lim: Limits, n: nat)
    requires n < After(before, lim).next
    ensures var s, t := After(before, lim), From(After(before, lim), later, lim);
            forall id :: id in t.operations && t.operations[id].serial == n ==>
              && id in s.operations && s.operations[id].serial == n
              && t.operations[id].binding == s.operations[id].binding
              && (s.operations[id].token.cancelled ==> t.operations[id].token == s.operations[id].token)
  {
    Reachable(before, lim);
    FromContinues(After(before, lim), later, lim);
  }

  // ----- starting -----

  /** An executor task is created only for the lock's holder, in the step in which its authorization is
      granted and its `started` record accepted, with an uncancelled token and a request that is live. */
  lemma OnlyLiveRequestsStart(inputs: seq<Input>, lim: Limits, input: Input, i: nat)
    requires Enabled(After(inputs, lim), input)
    requires var s, t := After(inputs, lim), Step(After(inputs, lim), input, lim);
             |s.log| <= i < |t.log| && t.log[i].ExecutorCreated?
    ensures var s, t := After(inputs, lim), Step(After(inputs, lim), input, lim);
            && input == Judged(Granted, true)
            && s.lock.Some? && s.lock.value in s.operations
            && var op := s.operations[s.lock.value];
               && op.serial == t.log[i].serial && !op.token.cancelled && op.binding in s.registry.live
               && forall id :: id in s.operations ==> !s.operations[id].phase.Executing?
  {
    var s := After(inputs, lim);
    ReachableStale(inputs, lim);
    StepContinues(s, input, lim);
    JudgedContinues(s, input.verdict, input.accepted, lim);
    forall id | id in s.operations ensures !s.operations[id].phase.Executing? {
      assert Placed(s, id);
    }
  }

  /** Request `n` is cancelled or gone. */
  ghost predicate Stopped(s: Service, n: nat) {
    n < s.next && forall id :: id in s.operations && s.operations[id].serial == n ==> s.operations[id].token.cancelled
  }

  lemma NextStaysOut(s: Service, input: Input, lim: Limits, n: nat)
    requires Filed(s) && Stopped(s, n)
    ensures var t := Next(s, input, lim);
            Stopped(t, n) && s.log <= t.log && forall i :: |s.log| <= i < |t.log| ==> t.log[i] != ExecutorCreated(n)
  {
    if Enabled(s, input) {
      StepContinues(s, input, lim);
      if input.Judged? {
        JudgedContinues(s, input.verdict, input.accepted, lim);
      }
    }
  }

  lemma {:induction false} StoppedStaysOut(s: Service, inputs: seq<Input>, lim: Limits, n: nat)
    requires Inv(s, lim) && Stopped(s, n)
    ensures var t := From(s, inputs, lim);
            s.log <= t.log && forall i :: |s.log| <= i < |t.log| ==> t.log[i] != ExecutorCreated(n)
    decreases |inputs|
  {
    if inputs != [] {
      var t := Next(s, inputs[0], lim);
      NextStaysOut(s, inputs[0], lim, n);
      if Enabled(s, inputs[0]) {
        StepKeepsInv(s, inputs[0], lim);
      }
      StoppedStaysOut(t, inputs[1..], lim, n);
      var u := From(s, inputs, lim);
      forall i | |s.log| <= i < |u.log| ensures u.log[i] != ExecutorCreated(n) {
        if i < |t.log| { assert u.log[i] == t.log[i]; }
      }
    }
  }

  /** A request that is cancelled before its executor task exists never gets one, whatever happens later. */
  lemma CancelledNeverStarts(before: seq<Input>, later: seq<Input>, lim: Limits, id: string)
    requires id in After(before, lim).operations
    requires var op := After(before, lim).operations[id]; op.token.cancelled && !op.phase.Executing?
    ensures forall i :: 0 <= i < |From(After(before, lim), later, lim).log| ==>
              From(After(before, lim), later, lim).log[i] != ExecutorCreated(After(before, lim).operations[id].serial)
  {
    Reachable(before, lim);
    var s := After(before, lim);
    var n := s.operations[id].serial;
    StoppedStaysOut(s, later, lim, n);
    var log := From(s, later, lim).log;
    assert Of(s.log, n) == [Event.Allowed(n)];
    forall i | 0 <= i < |s.log| ensures log[i] != ExecutorCreated(n) {
      assert log[i] == s.log[i];
      if s.log[i].serial == n {
        OfSplit(s.log, i);
        assert s.log[i] in Of(s.log, n);
      }
    }
  }

  // ----- who reaches a token -----

  /** When an owner leaves, afterwards exactly the other owners' requests are live, every operation of
      that owner is cancelled, and every other operation is as it was. */
  lemma DisconnectCancelsItsOwnOnly(inputs: seq<Input>, lim: Limits, owner: string)
    ensures var s, t := After(inputs, lim), OwnerLeavesStep(After(inputs, lim), owner, lim);
            && (forall b :: b in t.registry.live <==> b in s.registry.live && b.peer.uniqueOwner != owner)
            && t.operations.Keys == s.operations.Keys
            && (forall id :: id in s.operations ==>
                  if s.operations[id].binding.peer.uniqueOwner == owner
                  then t.operations[id] == s.operations[id].(token := Cancel(s.operations[id].token, false))
                       && t.operations[id].token.cancelled
                  else t.operations[id] == s.operations[id])
  {
    ReachableStale(inputs, lim);
  }

  /** A cancellation reaches the one operation whose live request has the caller's full identity, or none. */
  lemma CancelReachesItsOwnOnly(inputs: seq<Input>, lim: Limits, id: string, peer: PeerIdentity)
    ensures var s, t := After(inputs, lim), CancelStep(After(inputs, lim), id, peer);
            && t == s.(operations := t.operations) && t.operations.Keys == s.operations.Keys
            && (forall i :: i in s.operations ==>
                  t.operations[i] == if i == id && s.operations[i].binding in s.registry.live && s.operations[i].binding.peer == peer
                                     then s.operations[i].(token := Cancel(s.operations[i].token, false))
                                     else s.operations[i])
  {
    Reachable(inputs, lim);
    var s := After(inputs, lim);
    forall i | i in s.operations && s.operations[i].binding in s.registry.live
      ensures Find(s.registry.live, i) == Some(s.operations[i].binding)
    {
      FindUnique(s.registry.live, s.operations[i].binding);
    }
  }

  /** A finished operation takes exactly its own binding out of the registry. If that binding is no longer
      live (a stale request, perhaps with its ID registered anew), nothing is completed and nothing is
      answered. */
  lemma LeavingTouchesItsOwnOnly(inputs: seq<Input>, lim: Limits, id: string, answer: Option<ProductionStatus>)
    requires id in After(inputs, lim).operations
    ensures var s, t := After(inputs, lim), Leave(After(inputs, lim), id, answer, lim);
            var op := s.operations[id];
            && (forall b :: b in t.registry.live <==> b in s.registry.live && b != op.binding)
            && (op.binding !in s.registry.live ==> t.registry == s.registry && t.bindings == s.bindings)
            && t.log == s.log + [Answered(op.serial, op.binding in s.registry.live, if op.binding in s.registry.live then answer else None)]
  {
    Reachable(inputs, lim);
    var s := After(inputs, lim);
    var op := s.operations[id];
    CompleteKeepsCoherent(s, op.binding, lim);
    var t := Leave(s, id, answer, lim);
    assert t.registry == CompleteBinding(s, op.binding, lim).registry;
    if op.binding in s.registry.live {
      FindUnique(s.registry.live, op.binding);
      forall b | b in s.registry.live && b.requestId == id ensures b == op.binding {
        FindUnique(s.registry.live, b);
      }
    }
  }
}
