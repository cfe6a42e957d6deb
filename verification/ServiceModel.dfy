/** The helper service between its await points: the bus boundary, the request registry and the
    dispatcher, as one state machine over atomic steps. */
module ServiceModel {
  import opened Common
  import opened ProductionProtocol
  import opened RequestRegistry

  /** A cancellation token. */
  datatype Token = Token(cancelled: bool, timedOut: bool)

  /** Where a submitted request waits: for the lock, for its authorization, or for its executor, which
      after the deadline is awaited without limit. */
  datatype Phase = Waiting | Authorizing | Executing(expired: bool)

  /** An entry of `_operations`; the serial number tells apart requests that share an ID. */
  datatype Operation = Operation(serial: nat, binding: RequestBinding, token: Token, phase: Phase)

  /** What an audit record says: a request stopped before execution, started, or ended. */
  datatype Record = Refusal(status: ProductionStatus) | Start | End(status: ProductionStatus)

  /** The history: the policy let a request pass; the authorizer's verdict; a checkpoint or a cancelled
      authorization raised, with the reason of the token; the last checkpoint was passed; audit attempts with
      their acceptance; executor tasks, with what they return (nothing when they raise or answer for another
      request) and whether that fits the wire; and answers, which go only to a request that is still live. */
  datatype Event =
    | Allowed(serial: nat)
    | Ruled(serial: nat, verdict: Verdict)
    | Interrupted(serial: nat, timedOut: bool)
    | Cleared(serial: nat)
    | Audited(serial: nat, record: Record, accepted: bool)
    | ExecutorCreated(serial: nat)
    | ExecutorDone(serial: nat, result: Option<ProductionStatus>, fits: bool)
    | Answered(serial: nat, live: bool, answer: Option<ProductionStatus>)

  datatype Service = Service(
    registry: RegistryState,
    bindings: map<string, RequestBinding>,
    operations: map<string, Operation>,
    lock: Option<string>,
    queue: seq<string>,
    log: seq<Event>,
    next: nat)

  /** The answer of the authorizer's task: granted, denied or failed, or cancelled with the token. */
  datatype Verdict = Granted | Refused | Withdrawn

  /** One atomic step and the outside answers it meets. */
  datatype Input =
    | Submit(binding: RequestBinding, eligible: bool, accepted: bool)
    | TakeLock(accepted: bool)
    | Judged(verdict: Verdict, accepted: bool)
    | DeadlinePasses
    | ExecutorReturns(status: Option<ProductionStatus>, accepted: bool, fits: bool)
    | CancelRequest(id: string, peer: PeerIdentity)
    | OwnerLeaves(owner: string)

  datatype Limits = Limits(maxLive: nat, maxRecent: nat)

  function Initial(): Service {
    Service(RegistryState([], [], []), map[], map[], None, [], [], 0)
  }

  /** `CancellationToken.cancel` */
  function Cancel(t: Token, timedOut: bool): Token {
    if t.cancelled then t else Token(true, timedOut)
  }

  function StopStatus(t: Token): ProductionStatus {
    if t.timedOut then TimedOut else Cancelled
  }

  /** Which steps can happen, given the operations and who holds and awaits the lock. */
  predicate CanHappen(operations: map<string, Operation>, lock: Option<string>, queue: seq<string>, input: Input) {
    match input
    case TakeLock(_) => lock == None && queue != [] && queue[0] in operations
    case Judged(verdict, _) =>
      && lock.Some? && lock.value in operations && operations[lock.value].phase == Authorizing
      && (verdict == Withdrawn ==> operations[lock.value].token.cancelled)
    case DeadlinePasses => lock.Some? && lock.value in operations && operations[lock.value].phase == Executing(false)
    case ExecutorReturns(_, _, _) => lock.Some? && lock.value in operations && operations[lock.value].phase.Executing?
    case _ => true
  }

  predicate Enabled(s: Service, input: Input) {
    CanHappen(s.operations, s.lock, s.queue, input)
  }

  // ----- leaving the dispatcher and the boundary -----

  /** The boundary completes exactly this binding, if it is still live. */
  function CompleteBinding(s: Service, b: RequestBinding, lim: Limits): Service {
    if Find(s.registry.live, b.requestId) == Some(b)
    then s.(registry := Completed(s.registry, b, lim.maxRecent), bindings := s.bindings - {b.requestId})
    else s
  }

  /** The dispatcher's `submit` ends: its operation is popped and its lock released. */
  function Pop(s: Service, id: string): Service {
    s.(operations := s.operations - {id}, lock := if s.lock == Some(id) then None else s.lock)
  }

  /** The boundary's `submit` ends: it answers with the dispatcher's result only if the request is still
      live under its own binding. */
  function Answer(s: Service, op: Operation, answer: Option<ProductionStatus>, lim: Limits): Service {
    var live := Find(s.registry.live, op.binding.requestId) == Some(op.binding);
    CompleteBinding(s.(log := s.log + [Answered(op.serial, live, if live then answer else None)]), op.binding, lim)
  }

  function Leave(s: Service, id: string, answer: Option<ProductionStatus>, lim: Limits): Service
    requires id in s.operations
  {
    Answer(Pop(s, id), s.operations[id], answer, lim)
  }

  function Note(s: Service, events: seq<Event>): Service {
    s.(log := s.log + events)
  }

  /** `_audit_required` of a refusal, which then is the answer if the record was accepted. */
  function Refuse(s: Service, id: string, status: ProductionStatus, accepted: bool, lim: Limits): Service
    requires id in s.operations
  {
    var noted := Note(s, [Audited(s.operations[id].serial, Refusal(status), accepted)]);
    Leave(noted, id, if accepted then Some(status) else None, lim)
  }

  /** `SyntheticCancelled`: the request stops with the reason of its token. */
  function Interrupt(s: Service, id: string, accepted: bool, lim: Limits): Service
    requires id in s.operations
  {
    var op := s.operations[id];
    Refuse(Note(s, [Interrupted(op.serial, op.token.timedOut)]), id, StopStatus(op.token), accepted, lim)
  }

  // ----- the steps -----

  /** The dispatcher files the operation, asks the policy, and takes the lock if it is free. */
  function Admit(s: Service, b: RequestBinding, eligible: bool, accepted: bool, lim: Limits): Service {
    var id := b.requestId;
    var op := Operation(s.next, b, Token(false, false), Waiting);
    var entered := s.(operations := s.operations[id := op], next := s.next + 1);
    if !eligible then Refuse(entered, id, Rejected, accepted, lim)
    else
      var allowed := Note(entered, [Allowed(s.next)]);
      if s.lock == None && s.queue == []
      then allowed.(lock := Some(id), operations := allowed.operations[id := op.(phase := Authorizing)])
      else allowed.(queue := s.queue + [id])
  }

  /** Registration, then the dispatcher, which raises if a stale operation still has the ID. */
  function SubmitStep(s: Service, b: RequestBinding, eligible: bool, accepted: bool, lim: Limits): Service {
    if !MayRegister(s.registry, b, lim.maxLive) then s
    else
      var registered := s.(registry := Registered(s.registry, b), bindings := s.bindings[b.requestId := b]);
      if b.requestId in s.operations then CompleteBinding(registered, b, lim)
      else Admit(registered, b, eligible, accepted, lim)
  }

  /** The first waiter gets the lock and passes its checkpoint, or leaves. */
  function TakeLockStep(s: Service, accepted: bool, lim: Limits): Service
    requires Enabled(s, TakeLock(accepted))
  {
    var id := s.queue[0];
    var op := s.operations[id];
    var holding := s.(lock := Some(id), queue := s.queue[1..]);
    if op.token.cancelled then Interrupt(holding, id, accepted, lim)
    else holding.(operations := s.operations[id := op.(phase := Authorizing)])
  }

  /** The authorization's answer, the second checkpoint, the `started` record and the executor task. */
  function JudgedStep(s: Service, verdict: Verdict, accepted: bool, lim: Limits): Service
    requires Enabled(s, Judged(verdict, accepted))
  {
    var id := s.lock.value;
    var op := s.operations[id];
    var ruled := Note(s, [Ruled(op.serial, verdict)]);
    match verdict
    case Withdrawn => Interrupt(ruled, id, accepted, lim)
    case Refused => Refuse(ruled, id, Denied, accepted, lim)
    case Granted =>
      if op.token.cancelled then Interrupt(ruled, id, accepted, lim)
      else
        var started := Note(ruled, [Cleared(op.serial), Audited(op.serial, Start, accepted)]);
        if !accepted then Leave(started, id, None, lim)
        else Note(started, [ExecutorCreated(op.serial)]).(operations := s.operations[id := op.(phase := Executing(false))])
  }

  function DeadlineStep(s: Service): Service
    requires Enabled(s, DeadlinePasses)
  {
    var id := s.lock.value;
    var op := s.operations[id];
    s.(operations := s.operations[id := op.(token := Cancel(op.token, true), phase := Executing(true))])
  }

  /** The answer after the terminal record: the short failure that replaces a result whose record was not
      taken always fits the wire, and so does the one for a raised executor; another result may not. */
  function FinalAnswer(result: Option<ProductionStatus>, accepted: bool, fits: bool): Option<ProductionStatus> {
    if !accepted || result.None? then Some(Failed) else if fits then result else None
  }

  /** The executor's result, or `failed` when it raised or answered for another request, is recorded and
      then encoded. */
  function ExecutorReturnsStep(s: Service, result: Option<ProductionStatus>, accepted: bool, fits: bool, lim: Limits): Service
    requires Enabled(s, ExecutorReturns(result, accepted, fits))
  {
    var id := s.lock.value;
    var serial := s.operations[id].serial;
    var status := if result.Some? then result.value else Failed;
    var noted := Note(s, [ExecutorDone(serial, result, fits), Audited(serial, End(status), accepted)]);
    Leave(noted, id, FinalAnswer(result, accepted, fits), lim)
  }

  /** `cancel`: only the owner of a live request reaches its token. */
  function CancelStep(s: Service, id: string, peer: PeerIdentity): Service {
    var found := Find(s.registry.live, id);
    if found.Some? && found.value.peer == peer then CancelOperations(s, [found.value]) else s
  }

  /** `disconnected`: cancels the operation of each binding that is still the identical one. */
  function CancelOperations(s: Service, gone: seq<RequestBinding>): Service {
    s.(operations := map id | id in s.operations ::
         var op := s.operations[id];
         if op.binding in gone then op.(token := Cancel(op.token, false)) else op)
  }

  /** Registry and boundary forget an owner's requests. */
  function Forgotten(s: Service, owner: string, lim: Limits): Service {
    var ids := OwnedIds(s.registry, owner);
    s.(registry := Invalidated(s.registry, owner, lim.maxRecent),
       bindings := map id | id in s.bindings && id !in ids :: s.bindings[id])
  }

  function OwnerLeavesStep(s: Service, owner: string, lim: Limits): Service {
    CancelOperations(Forgotten(s, owner, lim), Keep(s.registry.live, NotOwner(owner)))
  }

  function Step(s: Service, input: Input, lim: Limits): Service
    requires Enabled(s, input)
  {
    match input
    case Submit(b, eligible, accepted) => SubmitStep(s, b, eligible, accepted, lim)
    case TakeLock(accepted) => TakeLockStep(s, accepted, lim)
    case Judged(verdict, accepted) => JudgedStep(s, verdict, accepted, lim)
    case DeadlinePasses => DeadlineStep(s)
    case ExecutorReturns(status, accepted, fits) => ExecutorReturnsStep(s, status, accepted, fits, lim)
    case CancelRequest(id, peer) => CancelStep(s, id, peer)
    case OwnerLeaves(owner) => OwnerLeavesStep(s, owner, lim)
  }
}
