/** The dispatcher and the bus boundary as objects. Each method is the code between two await points;
    each is proved to make exactly the step of the state machine. */
module ServiceObjects {
  import opened Common
  import opened Json
  import opened ProductionProtocol
  import opened RequestRegistry
  import opened ServiceModel
  import opened ServiceHistory
  import opened ServiceInvariants
  import opened ServiceSteps
  import opened ServiceRuns
  import opened ServiceTokens

  /** How a segment of the dispatcher's `submit` ends: at the next await point, with an error before the
      operation was filed, or finished with its answer (`None` when it raised). */
  datatype Segment = Suspended | Clash | Finished(operation: Operation, answer: Option<ProductionStatus>)

  class ProductionDispatcher {
    /** The dictionary `_operations`; the lock's holder and its waiters. */
    var operations: map<string, Operation>
    var lock: Option<string>
    var queue: seq<string>
    var next: nat
    ghost var log: seq<Event>

    constructor ()
      ensures operations == map[] && lock == None && queue == [] && next == 0 && log == []
    {
      operations, lock, queue, next, log := map[], None, [], 0, [];
    }

    /** The whole service, given the boundary's part of it. */
    ghost function With(g: RegistryState, m: map<string, RequestBinding>): Service
      reads this
    {
      Service(g, m, operations, lock, queue, log, next)
    }

    /** A segment and the boundary's reaction to it together make the step `t`. */
    ghost predicate Makes(r: Segment, g: RegistryState, m: map<string, RequestBinding>, t: Service, lim: Limits)
      reads this
    {
      match r
      case Suspended => With(g, m) == t
      case Clash => false
      case Finished(op, answer) => Answer(With(g, m), op, answer, lim) == t
    }

    /** The `finally` of `submit`, on leaving the lock's block. */
    method Finish(id: string)
      requires id in operations
      modifies this`operations, this`lock
      ensures forall g, m :: With(g, m) == Pop(old(With(g, m)), id)
    {
      operations := operations - {id};
      if lock == Some(id) { lock := None; }
    }

    /** A refusal: its audit record is required, so the answer is lost if the record is not accepted. */
    method Stop(id: string, status: ProductionStatus, accepted: bool, ghost g: RegistryState, ghost m: map<string, RequestBinding>, ghost lim: Limits) returns (r: Segment)
      requires id in operations
      modifies this`operations, this`lock, this`log
      ensures Makes(r, g, m, Refuse(old(With(g, m)), id, status, accepted, lim), lim)
    {
      var op := operations[id];
      log := log + [Audited(op.serial, Refusal(status), accepted)];
      Finish(id);
      r := Finished(op, if accepted then Some(status) else None);
    }

    /** The handler of `SyntheticCancelled`: a stop with the reason of the token. */
    method Interrupt(id: string, accepted: bool, ghost g: RegistryState, ghost m: map<string, RequestBinding>, ghost lim: Limits) returns (r: Segment)
      requires id in operations
      modifies this`operations, this`lock, this`log
      ensures Makes(r, g, m, ServiceModel.Interrupt(old(With(g, m)), id, accepted, lim), lim)
    {
      var op := operations[id];
      log := log + [Interrupted(op.serial, op.token.timedOut)];
      r := Stop(id, StopStatus(op.token), accepted, g, m, lim);
    }

    /** `submit` up to its first await point. */
    method Enter(b: RequestBinding, eligible: bool, accepted: bool, ghost g: RegistryState, ghost m: map<string, RequestBinding>, ghost lim: Limits) returns (r: Segment)
      modifies this
      ensures r == Clash <==> b.requestId in old(operations)
      ensures r == Clash ==> forall g, m :: With(g, m) == old(With(g, m))
      ensures r != Clash ==> Makes(r, g, m, Admit(old(With(g, m)), b, eligible, accepted, lim), lim)
    {
      var id := b.requestId;
      if id in operations { return Clash; }
      var op := Operation(next, b, Token(false, false), Waiting);
      operations, next := operations[id := op], next + 1;
      assert With(g, m) == old(With(g, m)).(operations := old(operations)[id := op], next := old(next) + 1);
      if !eligible {
        r := Stop(id, Rejected, accepted, g, m, lim);
      } else {
        Line(op, g, m);
        r := Suspended;
      }
    }

    /** `async with self._lock` of an admitted operation: it takes a free lock, or waits. */
    method Line(op: Operation, ghost g: RegistryState, ghost m: map<string, RequestBinding>)
      modifies this
      ensures var allowed, id := Note(old(With(g, m)), [Event.Allowed(op.serial)]), op.binding.requestId;
              With(g, m) == if old(lock) == None && old(queue) == []
                            then allowed.(lock := Some(id), operations := allowed.operations[id := op.(phase := Authorizing)])
                            else allowed.(queue := old(queue) + [id])
    {
      var id := op.binding.requestId;
      log := log + [Event.Allowed(op.serial)];
      if lock == None && queue == [] {
        lock, operations := Some(id), operations[id := op.(phase := Authorizing)];
      } else {
        queue := queue + [id];
      }
    }

    /** The first waiter wakes up. */
    method AcquireLock(accepted: bool, ghost g: RegistryState, ghost m: map<string, RequestBinding>, ghost lim: Limits) returns (r: Segment)
      requires Enabled(With(g, m), TakeLock(accepted))
      modifies this
      ensures Makes(r, g, m, TakeLockStep(old(With(g, m)), accepted, lim), lim)
    {
      var id := queue[0];
      var op := operations[id];
      lock, queue := Some(id), queue[1..];
      if op.token.cancelled {
        r := Interrupt(id, accepted, g, m, lim);
      } else {
        operations := operations[id := op.(phase := Authorizing)];
        r := Suspended;
      }
    }

    /** The authorization task has ended. */
    method Judge(verdict: Verdict, accepted: bool, ghost g: RegistryState, ghost m: map<string, RequestBinding>, ghost lim: Limits) returns (r: Segment)
      requires Enabled(With(g, m), Judged(verdict, accepted))
      modifies this
      ensures Makes(r, g, m, JudgedStep(old(With(g, m)), verdict, accepted, lim), lim)
    {
      var id := lock.value;
      var op := operations[id];
      log := log + [Ruled(op.serial, verdict)];
      if verdict == Withdrawn {
        r := Interrupt(id, accepted, g, m, lim);
      } else if verdict == Refused {
        r := Stop(id, Denied, accepted, g, m, lim);
      } else {
        if op.token.cancelled {
          r := Interrupt(id, accepted, g, m, lim);
        } else {
          log := log + [Cleared(op.serial), Audited(op.serial, Start, accepted)];
          if !accepted {
            Finish(id);
            r := Finished(op, None);
          } else {
            log := log + [ExecutorCreated(op.serial)];
            operations := operations[id := op.(phase := Executing(false))];
            r := Suspended;
          }
        }
      }
    }

    /** The deadline of `wait_for`. */
    method Expire(ghost g: RegistryState, ghost m: map<string, RequestBinding>)
      requires Enabled(With(g, m), DeadlinePasses)
      modifies this`operations
      ensures With(g, m) == DeadlineStep(old(With(g, m)))
    {
      var id := lock.value;
      var op := operations[id];
      operations := operations[id := op.(token := Cancel(op.token, true), phase := Executing(true))];
    }

    /** The executor task has ended. */
    method Conclude(result: Option<ProductionStatus>, accepted: bool, fits: bool, ghost g: RegistryState, ghost m: map<string, RequestBinding>,
                    ghost lim: Limits) returns (r: Segment)
      requires Enabled(With(g, m), ExecutorReturns(result, accepted, fits))
      modifies this`operations, this`lock, this`log
      ensures Makes(r, g, m, ExecutorReturnsStep(old(With(g, m)), result, accepted, fits, lim), lim)
    {
      var id := lock.value;
      var op := operations[id];
      var status := if result.Some? then result.value else Failed;
      log := log + [ExecutorDone(op.serial, result, fits), Audited(op.serial, End(status), accepted)];
      Finish(id);
      if !accepted { return Finished(op, Some(Failed)); }
      r := Finished(op, if result.None? || fits then Some(status) else None);
    }

    /** Cancels the operation filed under the binding's ID if it has the identical binding. */
    method CancelOne(b: RequestBinding) returns (accepted: bool)
      requires forall id :: id in operations ==> operations[id].binding.requestId == id
      modifies this`operations
      ensures accepted <==> b.requestId in old(operations) && old(operations)[b.requestId].binding == b
      ensures forall g, m :: With(g, m) == CancelOperations(old(With(g, m)), [b])
    {
      accepted := b.requestId in operations && operations[b.requestId].binding == b;
      if accepted {
        var op := operations[b.requestId];
        operations := operations[b.requestId := op.(token := Cancel(op.token, false))];
      }
    }

    method Disconnected(gone: seq<RequestBinding>)
      requires forall id :: id in operations ==> operations[id].binding.requestId == id
      modifies this`operations
      ensures forall g, m :: With(g, m) == CancelOperations(old(With(g, m)), gone)
    {
      ghost var before := With(RegistryState([], [], []), map[]);
      for i := 0 to |gone|
        invariant With(before.registry, before.bindings) == CancelOperations(before, gone[..i])
        invariant forall id :: id in operations ==> operations[id].binding.requestId == id
      {
        var _ := CancelOne(gone[i]);
        assert gone[..i + 1] == gone[..i] + [gone[i]];
        CancelOneMore(before, gone[..i], gone[i]);
      }
      assert gone[..|gone|] == gone;
    }
  }

  /** Cancelling one by one is cancelling together: a second cancellation changes nothing. */
  lemma CancelOneMore(s: Service, gone: seq<RequestBinding>, b: RequestBinding)
    ensures CancelOperations(CancelOperations(s, gone), [b]) == CancelOperations(s, gone + [b])
  {
    var t, u := CancelOperations(CancelOperations(s, gone), [b]), CancelOperations(s, gone + [b]);
    assert t.operations == u.operations;
  }

  /** What popping IDs one after the other from a dictionary yields. */
  function Popped(m: map<string, RequestBinding>, ids: seq<string>): seq<RequestBinding>
    decreases |ids|
  {
    if ids == [] then []
    else (if ids[0] in m then [m[ids[0]]] else []) + Popped(m - {ids[0]}, ids[1..])
  }

  /** Bindings with different IDs that are all filed under their own. */
  ghost predicate FiledIn(bs: seq<RequestBinding>, m: map<string, RequestBinding>) {
    Unrepeated(Ids(bs)) && forall i :: 0 <= i < |bs| ==> bs[i].requestId in m && m[bs[i].requestId] == bs[i]
  }

  lemma {:induction false} RestIsFiled(bs: seq<RequestBinding>, m: map<string, RequestBinding>)
    requires bs != [] && FiledIn(bs, m)
    ensures FiledIn(bs[1..], m - {bs[0].requestId})
    ensures Ids(bs)[0] == bs[0].requestId && Ids(bs)[1..] == Ids(bs[1..])
  {
    var rest := bs[1..];
    forall i, j | 0 <= i < j < |rest| ensures Ids(rest)[i] != Ids(rest)[j] {
      assert Ids(bs)[i + 1] != Ids(bs)[j + 1];
    }
    forall i | 0 <= i < |rest| ensures rest[i].requestId != bs[0].requestId {
      assert Ids(bs)[0] != Ids(bs)[i + 1];
    }
  }

  lemma {:induction false} PoppedAll(m: map<string, RequestBinding>, bs: seq<RequestBinding>)
    requires FiledIn(bs, m)
    ensures Popped(m, Ids(bs)) == bs
    decreases |bs|
  {
    if bs != [] {
      RestIsFiled(bs, m);
      PoppedAll(m - {bs[0].requestId}, bs[1..]);
    }
  }

  class SystemBusServiceBoundary {
    const registry: LiveRequestRegistry
    const dispatcher: ProductionDispatcher
    /** The dictionary `_bindings`. */
    var bindings: map<string, RequestBinding>

    ghost function Limit(): Limits {
      Limits(registry.maxLive, registry.maxRecent)
    }

    ghost function Current(): Service
      reads this, registry, dispatcher
    {
      dispatcher.With(registry.Current(), bindings)
    }

    ghost predicate Valid()
      reads this, registry, dispatcher
    {
      registry.Valid() && Inv(Current(), Limit())
    }

    constructor (maxLive: nat, maxRecent: nat)
      requires maxLive >= 1 && maxRecent >= 1
      ensures Valid() && fresh(registry) && fresh(dispatcher)
      ensures Current() == Initial() && Limit() == Limits(maxLive, maxRecent)
    {
      registry := new LiveRequestRegistry(maxLive, maxRecent);
      dispatcher := new ProductionDispatcher();
      bindings := map[];
      new;
      InitialInv(Limit());
    }

    /** `_complete_if_live`: says whether the binding was still live. */
    method Complete(b: RequestBinding) returns (ok: bool)
      requires registry.Valid()
      modifies this`bindings, registry
      ensures registry.Valid() && Current() == CompleteBinding(old(Current()), b, Limit())
      ensures ok <==> Find(old(registry.live), b.requestId) == Some(b)
    {
      ok := registry.Complete(b);
      if ok { bindings := bindings - {b.requestId}; }
    }

    /** The rest of `submit` once the dispatcher has returned or raised. */
    method Conclude(op: Operation, answer: Option<ProductionStatus>) returns (response: Option<ProductionStatus>)
      requires registry.Valid()
      modifies this`bindings, registry, dispatcher`log
      ensures registry.Valid() && Current() == Answer(old(Current()), op, answer, Limit())
      ensures response.Some? ==> response == answer && Find(old(registry.live), op.binding.requestId) == Some(op.binding)
    {
      var live := Complete(op.binding);
      response := if live then answer else None;
      dispatcher.log := dispatcher.log + [Answered(op.serial, live, response)];
    }

    method Resume(r: Segment, ghost t: Service)
      requires registry.Valid() && dispatcher.Makes(r, registry.Current(), bindings, t, Limit())
      modifies this`bindings, registry, dispatcher`log
      ensures registry.Valid() && Current() == t
    {
      if r.Finished? {
        var _ := Conclude(r.operation, r.answer);
      }
    }

    method Submit(b: RequestBinding, eligible: bool, accepted: bool)
      requires Valid()
      modifies this`bindings, registry, dispatcher
      ensures Valid() && Current() == SubmitStep(old(Current()), b, eligible, accepted, Limit())
    {
      SubmitKeeps(Current(), b, eligible, accepted, Limit());
      var ok := registry.Register(b);
      if !ok { return; }
      bindings := bindings[b.requestId := b];
      ghost var registered := Current();
      var r := dispatcher.Enter(b, eligible, accepted, registry.Current(), bindings, Limit());
      if r == Clash {
        var _ := Complete(b);
      } else {
        Resume(r, Admit(registered, b, eligible, accepted, Limit()));
      }
    }

    // The event loop resumes a suspended submission.

    method TakeLock(accepted: bool)
      requires Valid() && Enabled(Current(), Input.TakeLock(accepted))
      modifies this`bindings, registry, dispatcher
      ensures Valid() && Current() == TakeLockStep(old(Current()), accepted, Limit())
    {
      ghost var t := TakeLockStep(Current(), accepted, Limit());
      TakeLockKeeps(Current(), accepted, Limit());
      var r := dispatcher.AcquireLock(accepted, registry.Current(), bindings, Limit());
      Resume(r, t);
    }

    method Judge(verdict: Verdict, accepted: bool)
      requires Valid() && Enabled(Current(), Judged(verdict, accepted))
      modifies this`bindings, registry, dispatcher
      ensures Valid() && Current() == JudgedStep(old(Current()), verdict, accepted, Limit())
    {
      ghost var t := JudgedStep(Current(), verdict, accepted, Limit());
      JudgedKeeps(Current(), verdict, accepted, Limit());
      var r := dispatcher.Judge(verdict, accepted, registry.Current(), bindings, Limit());
      Resume(r, t);
    }

    method Expire()
      requires Valid() && Enabled(Current(), DeadlinePasses)
      modifies dispatcher
      ensures Valid() && Current() == DeadlineStep(old(Current()))
    {
      DeadlineKeeps(Current(), Limit());
      dispatcher.Expire(registry.Current(), bindings);
    }

    method EndExecution(result: Option<ProductionStatus>, accepted: bool, fits: bool)
      requires Valid() && Enabled(Current(), ExecutorReturns(result, accepted, fits))
      modifies this`bindings, registry, dispatcher
      ensures Valid() && Current() == ExecutorReturnsStep(old(Current()), result, accepted, fits, Limit())
    {
      ghost var t := ExecutorReturnsStep(Current(), result, accepted, fits, Limit());
      ExecutorReturnsKeeps(Current(), result, accepted, fits, Limit());
      var r := dispatcher.Conclude(result, accepted, fits, registry.Current(), bindings, Limit());
      Resume(r, t);
    }

    /** A cancellation by the owner of a live request always finds its operation. */
    method CancelRequest(id: string, peer: PeerIdentity) returns (accepted: bool)
      requires Valid()
      modifies dispatcher
      ensures Valid() && Current() == CancelStep(old(Current()), id, peer)
      ensures accepted <==> exists b :: b in registry.live && b.requestId == id && b.peer == peer
    {
      CancelKeeps(Current(), id, peer, Limit());
      var found := registry.RequireOwner(id, peer);
      if found.None? { return false; }
      FindUnique(registry.live, found.value);
      accepted := dispatcher.CancelOne(found.value);
    }

    /** Pops the bindings of the given IDs. */
    method PopBindings(ids: seq<string>) returns (gone: seq<RequestBinding>)
      modifies this`bindings
      ensures gone == Popped(old(bindings), ids) && bindings == old(bindings) - (set id | id in ids)
    {
      gone := [];
      for i := 0 to |ids|
        invariant gone + Popped(bindings, ids[i..]) == Popped(old(bindings), ids)
        invariant bindings == old(bindings) - (set id | id in ids[..i])
      {
        assert ids[i..][0] == ids[i] && ids[i..][1..] == ids[i + 1..] && ids[..i + 1] == ids[..i] + [ids[i]];
        ConcatAssociates(gone, if ids[i] in bindings then [bindings[ids[i]]] else [], Popped(bindings - {ids[i]}, ids[i + 1..]));
        if ids[i] in bindings {
          gone := gone + [bindings[ids[i]]];
          bindings := bindings - {ids[i]};
        } else {
          assert bindings - {ids[i]} == bindings;
        }
      }
      assert ids[..|ids|] == ids;
    }

    /** The registry and the boundary forget the owner's requests; the IDs and the bindings are returned. */
    method Forget(owner: string) returns (ids: seq<string>, gone: seq<RequestBinding>)
      requires registry.Valid() && SameMaps(Current())
      modifies this`bindings, registry
      ensures registry.Valid() && Current() == Forgotten(old(Current()), owner, Limit())
      ensures ids == OwnedIds(old(registry.Current()), owner) && gone == Keep(old(registry.live), NotOwner(owner))
    {
      ghost var before := Current();
      ghost var leave := Keep(registry.live, NotOwner(owner));
      KeepIds(registry.live, NotOwner(owner));
      forall i | 0 <= i < |leave| ensures leave[i].requestId in bindings && bindings[leave[i].requestId] == leave[i] {
        assert leave[i] in leave;
      }
      PoppedAll(bindings, leave);
      ids := registry.InvalidateOwner(owner);
      gone := PopBindings(ids);
      assert bindings == Forgotten(before, owner, Limit()).bindings;
    }

    method Disconnected(owner: string) returns (ids: seq<string>)
      requires Valid()
      modifies this`bindings, registry, dispatcher
      ensures Valid() && Current() == OwnerLeavesStep(old(Current()), owner, Limit())
      ensures ids == OwnedIds(old(registry.Current()), owner)
    {
      OwnerLeavesKeeps(Current(), owner, Limit());
      assert Filed(Current());
      var gone: seq<RequestBinding>;
      ids, gone := Forget(owner);
      dispatcher.Disconnected(gone);
    }

    method Wake(input: Input)
      requires Valid() && Enabled(Current(), input)
      requires input.TakeLock? || input.Judged? || input.DeadlinePasses? || input.ExecutorReturns?
      modifies this`bindings, registry, dispatcher
      ensures Valid() && Current() == Step(old(Current()), input, Limit())
    {
      match input
      case TakeLock(accepted) => TakeLock(accepted);
      case Judged(verdict, accepted) => Judge(verdict, accepted);
      case DeadlinePasses => Expire();
      case ExecutorReturns(result, accepted, fits) => EndExecution(result, accepted, fits);
    }

    /** Whatever arrives or wakes up next; nothing if it cannot. */
    method Handle(input: Input)
      requires Valid()
      modifies this`bindings, registry, dispatcher
      ensures Valid() && Current() == Next(old(Current()), input, Limit())
    {
      match input {
        case Submit(b, eligible, accepted) => Submit(b, eligible, accepted);
        case CancelRequest(id, peer) => var _ := CancelRequest(id, peer);
        case OwnerLeaves(owner) => var _ := Disconnected(owner);
        case _ =>
          if CanHappen(dispatcher.operations, dispatcher.lock, dispatcher.queue, input) { Wake(input); }
      }
    }

    /** The event loop: whatever can happen next, in any order. */
    method Serve(inputs: seq<Input>)
      requires Valid()
      modifies this`bindings, registry, dispatcher
      ensures Valid() && Current() == From(old(Current()), inputs, Limit())
    {
      ghost var start := Current();
      for i := 0 to |inputs|
        invariant Valid() && From(start, inputs, Limit()) == From(Current(), inputs[i..], Limit())
      {
        assert inputs[i..][0] == inputs[i] && inputs[i..][1..] == inputs[i + 1..];
        Handle(inputs[i]);
      }
    }
  }
}
