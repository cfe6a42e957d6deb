/** The service never gets stuck: some waiting coroutine can always go on, and going on ends. */
module ServiceProgress {
  import opened Common
  import opened Json
  import opened ProductionProtocol
  import opened RequestRegistry
  import opened ServiceModel
  import opened ServiceHistory
  import opened ServiceInvariants
  import opened ServiceSteps
  import opened ServiceRuns

  /** A coroutine that waits for the lock, for its authorization or for its executor goes on. */
  predicate IsWakeUp(input: Input) {
    input.TakeLock? || input.Judged? || input.ExecutorReturns?
  }

  /** How many such steps the operations still need at most. */
  function Remaining(s: Service): nat {
    3 * |s.queue| +
    if s.lock.None? || s.lock.value !in s.operations then 0
    else match s.operations[s.lock.value].phase
         case Waiting => 3
         case Authorizing => 2
         case Executing(_) => 1
  }

  /** Which one can go on does not depend on what it is answered. */
  ghost predicate CanGoOn(s: Service) {
    || (forall accepted :: Enabled(s, TakeLock(accepted)))
    || (forall verdict: Verdict, accepted :: verdict != Withdrawn ==> Enabled(s, Judged(verdict, accepted)))
    || (forall status, accepted, fits :: Enabled(s, ExecutorReturns(status, accepted, fits)))
  }

  /** In every reachable state with an operation, some coroutine can go on, whatever the lock, the authorizer,
      the executor or the audit sink answers. */
  lemma {:induction false} NeverStuck(inputs: seq<Input>, lim: Limits)
    requires After(inputs, lim).operations != map[]
    ensures CanGoOn(After(inputs, lim))
  {
    Reachable(inputs, lim);
    InvGoesOn(After(inputs, lim), lim);
  }

  lemma {:induction false} InvGoesOn(s: Service, lim: Limits)
    requires Inv(s, lim) && s.operations != map[]
    ensures CanGoOn(s)
  {
    if s.lock.Some? {
      HolderAside(s, lim);
    } else {
      FirstCanGoOn(s);
    }
  }

  lemma {:induction false} FirstCanGoOn(s: Service)
    requires Ordered(s, None) && s.lock == None && s.operations != map[]
    ensures forall accepted :: Enabled(s, TakeLock(accepted))
  {
    var id :| id in s.operations;
    assert Placed(s, id);
    assert s.queue[0] in s.queue;
  }

  /** Every such step brings the end nearer. */
  lemma {:induction false} WakeUpsCountDown(s: Service, input: Input, lim: Limits)
    requires Enabled(s, input) && IsWakeUp(input)
    ensures Remaining(Step(s, input, lim)) < Remaining(s)
  {
    match input
    case TakeLock(accepted) => TakeLockCountsDown(s, accepted, lim);
    case Judged(verdict, accepted) => JudgedCountsDown(s, verdict, accepted, lim);
    case ExecutorReturns(status, accepted, fits) => ReturnCountsDown(s, status, accepted, fits, lim);
  }

  lemma {:induction false} ReturnCountsDown(s: Service, status: Option<ProductionStatus>, accepted: bool, fits: bool, lim: Limits)
    requires Enabled(s, ExecutorReturns(status, accepted, fits))
    ensures Remaining(ExecutorReturnsStep(s, status, accepted, fits, lim)) < Remaining(s)
  {
  }

  lemma {:induction false} JudgedCountsDown(s: Service, verdict: Verdict, accepted: bool, lim: Limits)
    requires Enabled(s, Judged(verdict, accepted))
    ensures Remaining(JudgedStep(s, verdict, accepted, lim)) < Remaining(s)
  {
    var id := s.lock.value;
    assert Remaining(s) == 3 * |s.queue| + 2;
    var t := JudgedStep(s, verdict, accepted, lim);
    assert t.queue == s.queue;
    assert t.lock == None || t.operations[id].phase.Executing?;
  }

  lemma {:induction false} TakeLockCountsDown(s: Service, accepted: bool, lim: Limits)
    requires Enabled(s, TakeLock(accepted))
    ensures Remaining(TakeLockStep(s, accepted, lim)) < Remaining(s)
  {
    assert |s.queue[1..]| == |s.queue| - 1;
  }

  ghost predicate AllWakeUps(s: Service, inputs: seq<Input>, lim: Limits)
    decreases |inputs|
  {
    inputs == [] || (Enabled(s, inputs[0]) && IsWakeUp(inputs[0]) && AllWakeUps(Step(s, inputs[0], lim), inputs[1..], lim))
  }

  /** So no schedule keeps the service busy for ever without new requests. */
  lemma {:induction false} WakeUpsAreBounded(s: Service, inputs: seq<Input>, lim: Limits)
    requires AllWakeUps(s, inputs, lim)
    ensures |inputs| <= Remaining(s)
    decreases |inputs|
  {
    if inputs != [] {
      WakeUpsCountDown(s, inputs[0], lim);
      WakeUpsAreBounded(Step(s, inputs[0], lim), inputs[1..], lim);
    }
  }

  /** And some schedule finishes all operations. */
  lemma {:induction false} Drain(s: Service, lim: Limits) returns (inputs: seq<Input>)
    requires Inv(s, lim)
    ensures AllWakeUps(s, inputs, lim) && From(s, inputs, lim).operations == map[]
    decreases Remaining(s)
  {
    inputs := [];
    if s.operations != map[] {
      InvGoesOn(s, lim);
      var input := if Enabled(s, TakeLock(true)) then TakeLock(true)
                   else if Enabled(s, Judged(Granted, true)) then Judged(Granted, true)
                   else ExecutorReturns(None, true, true);
      WakeUpsCountDown(s, input, lim);
      StepKeepsInv(s, input, lim);
      var rest := Drain(Step(s, input, lim), lim);
      inputs := [input] + rest;
      assert inputs[1..] == rest;
    }
  }

  lemma {:induction false} FromConcat(s: Service, a: seq<Input>, b: seq<Input>, lim: Limits)
    ensures From(s, a + b, lim) == From(From(s, a, lim), b, lim)
    decreases |a|
  {
    if a == [] {
      assert a + b == b;
    } else {
      assert (a + b)[0] == a[0] && (a + b)[1..] == a[1..] + b;
      FromConcat(Next(s, a[0], lim), a[1..], b, lim);
    }
  }

  /** Hence after any schedule, every admitted request can still be brought to its one answer. */
  lemma {:induction false} EveryRequestCanBeAnswered(inputs: seq<Input>, lim: Limits) returns (more: seq<Input>)
    ensures AllWakeUps(After(inputs, lim), more, lim)
    ensures var s := After(inputs + more, lim);
            s.operations == map[] && forall n: nat :: n < s.next ==> Complete(Of(s.log, n), n)
  {
    Reachable(inputs, lim);
    more := Drain(After(inputs, lim), lim);
    FromConcat(Initial(), inputs, more, lim);
    Reachable(inputs + more, lim);
    var s := After(inputs + more, lim);
    forall n: nat | n < s.next ensures Complete(Of(s.log, n), n) {
      assert Traced(s, n);
    }
  }
}
