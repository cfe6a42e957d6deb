/** Every step keeps the invariants, so every reachable state has them. */
module ServiceSteps {
  import opened Common
  import opened Json
  import opened ProductionProtocol
  import opened RequestRegistry
  import opened ServiceModel
  import opened ServiceHistory
  import opened ServiceInvariants

  // ----- what the invariants depend on -----

  /** Coherence sees the bindings and the serial numbers of the operations only. */
  lemma SameFilingKeepsCoherent(s: Service, t: Service, lim: Limits)
    requires Coherent(s, lim)
    requires t.registry == s.registry && t.bindings == s.bindings && t.next == s.next
    requires t.operations.Keys == s.operations.Keys
    requires forall i :: i in s.operations ==>
               t.operations[i].binding == s.operations[i].binding && t.operations[i].serial == s.operations[i].serial
    ensures Coherent(t, lim)
  {
  }

  /** Changing the phase or token of one operation, and the lock and queue, leaves all recorded paths in place. */
  lemma RephaseKeepsRecorded(s: Service, t: Service, id: string)
    requires Filed(s) && Recorded(s, Some(id)) && id in s.operations
    requires t.log == s.log && t.next == s.next && t.operations.Keys == s.operations.Keys
    requires forall i :: i in s.operations && i != id ==> t.operations[i] == s.operations[i]
    requires t.operations[id].serial == s.operations[id].serial
    requires Of(t.log, t.operations[id].serial) == Path(t.operations[id])
    ensures Recorded(t, None)
  {
    forall n: nat | n < t.next ensures Traced(t, n) {
      assert Traced(s, n);
      if i :| i in s.operations && s.operations[i].serial == n {
        assert i in t.operations && t.operations[i].serial == n;
      }
    }
  }

  ghost predicate OnlyTokensDiffer(s: Service, t: Service) {
    && s.lock == t.lock && s.queue == t.queue && s.log == t.log && s.next == t.next
    && s.operations.Keys == t.operations.Keys
    && forall id :: id in s.operations ==> t.operations[id] == s.operations[id].(token := t.operations[id].token)
  }

  /** The tokens matter to no invariant. */
  lemma TokensDoNotMatter(s: Service, t: Service)
    requires OnlyTokensDiffer(s, t)
    requires Ordered(s, None) && Recorded(s, None) && Bracketed(s, None) && Filed(s)
    ensures Ordered(t, None) && Recorded(t, None) && Bracketed(t, None) && Filed(t)
  {
    TokensOutsideOrder(s, t);
    TokensOutsideHistory(s, t);
    forall id | id in t.operations ensures Unstarted(t, id, Scan(t.log).last) {
      assert Unstarted(s, id, Scan(s.log).last);
    }
  }

  lemma TokensOutsideOrder(s: Service, t: Service)
    requires OnlyTokensDiffer(s, t) && Ordered(s, None)
    ensures Ordered(t, None)
  {
    forall id | id in t.operations ensures Placed(t, id) {
      assert Placed(s, id);
    }
  }

  lemma TokensOutsideHistory(s: Service, t: Service)
    requires OnlyTokensDiffer(s, t) && Recorded(s, None)
    ensures Recorded(t, None)
  {
    forall n: nat | n < t.next ensures Traced(t, n) {
      assert Traced(s, n);
      if id :| id in s.operations && s.operations[id].serial == n {
        assert id in t.operations && t.operations[id].serial == n;
      }
    }
  }

  // ----- submitting -----

  /** A registration of a new ID keeps registry and boundary in step. */
  lemma RegisterKeepsCoherent(s: Service, b: RequestBinding, lim: Limits)
    requires Coherent(s, lim) && MayRegister(s.registry, b, lim.maxLive)
    ensures var r := s.(registry := Registered(s.registry, b), bindings := s.bindings[b.requestId := b]);
            RegistryInv(r.registry, lim.maxLive, lim.maxRecent) && SameMaps(r) && Find(r.registry.live, b.requestId) == Some(b)
  {
    RegisterKeepsInv(s.registry, b, lim.maxLive, lim.maxRecent);
    var live := Registered(s.registry, b).live;
    assert b in live;
    FindUnique(live, b);
    RegisterKeepsMaps(s, b);
  }

  lemma RegisterKeepsMaps(s: Service, b: RequestBinding)
    requires SameMaps(s) && b.requestId !in Ids(s.registry.live)
    ensures SameMaps(s.(registry := Registered(s.registry, b), bindings := s.bindings[b.requestId := b]))
  {
    forall c | c in s.registry.live ensures c.requestId != b.requestId {
      OwnIdInIds(s.registry.live, c);
    }
  }

  /** If a stale operation still runs under the ID, the new registration is completed at once. */
  lemma ClashKeeps(s: Service, b: RequestBinding, lim: Limits)
    requires Inv(s, lim) && MayRegister(s.registry, b, lim.maxLive) && b.requestId in s.operations
    ensures Inv(CompleteBinding(s.(registry := Registered(s.registry, b), bindings := s.bindings[b.requestId := b]), b, lim), lim)
  {
    var registered := s.(registry := Registered(s.registry, b), bindings := s.bindings[b.requestId := b]);
    RegisterKeepsCoherent(s, b, lim);
    CompleteKeepsCoherent(registered, b, lim);
    var post := CompleteBinding(registered, b, lim);
    forall c | c in post.registry.live ensures c in s.registry.live {
    }
    TokensDoNotMatter(s, post);
  }

  /** The state in which the dispatcher has filed a new operation that is not placed yet. */
  function Entered(s: Service, b: RequestBinding): Service {
    s.(registry := Registered(s.registry, b), bindings := s.bindings[b.requestId := b],
       operations := s.operations[b.requestId := Operation(s.next, b, Token(false, false), Waiting)],
       next := s.next + 1)
  }

  /** What becomes of a new operation. */
  lemma SubmitUnfolds(s: Service, b: RequestBinding, eligible: bool, accepted: bool, lim: Limits)
    requires MayRegister(s.registry, b, lim.maxLive) && b.requestId !in s.operations
    ensures var id, entered := b.requestId, Entered(s, b);
            var allowed := Note(entered, [Event.Allowed(s.next)]);
            SubmitStep(s, b, eligible, accepted, lim) ==
            if !eligible then Refuse(entered, id, Rejected, accepted, lim)
            else if s.lock == None && s.queue == [] then Rephased(allowed.(lock := Some(id)), id, Authorizing)
            else allowed.(queue := s.queue + [id])
  {
    var registered := s.(registry := Registered(s.registry, b), bindings := s.bindings[b.requestId := b]);
    assert registered.(operations := Entered(s, b).operations, next := s.next + 1) == Entered(s, b);
  }

  lemma EnterKeepsCoherent(s: Service, b: RequestBinding, lim: Limits)
    requires Coherent(s, lim) && MayRegister(s.registry, b, lim.maxLive) && b.requestId !in s.operations
    ensures Coherent(Entered(s, b), lim)
  {
    RegisterKeepsCoherent(s, b, lim);
    var t := Entered(s, b);
    assert SameMaps(t);
    assert Backed(t) by {
      forall c | c in t.registry.live
        ensures c.requestId in t.operations && t.operations[c.requestId].binding == c
      {
        if c != b {
          assert c in s.registry.live;
        }
      }
    }
  }

  lemma EnterKeepsOrdered(s: Service, b: RequestBinding)
    requires Ordered(s, None) && b.requestId !in s.operations
    ensures Ordered(Entered(s, b), Some(b.requestId))
    ensures s.lock != Some(b.requestId)
  {
    var t := Entered(s, b);
    forall i | i in t.operations && i != b.requestId ensures Placed(t, i) {
      assert Placed(s, i);
    }
  }

  lemma EnterKeepsRecorded(s: Service, b: RequestBinding)
    requires Recorded(s, None) && b.requestId !in s.operations
    ensures Recorded(Entered(s, b), Some(b.requestId))
    ensures Of(Entered(s, b).log, s.next) == []
  {
    var t := Entered(s, b);
    forall n: nat | n < t.next ensures Traced(t, n) {
      if n == s.next {
        assert b.requestId in t.operations;
      } else {
        assert Traced(s, n);
        if i :| i in s.operations && s.operations[i].serial == n {
          assert i in t.operations && t.operations[i].serial == n;
        }
      }
    }
  }

  lemma EnterKeepsBracketed(s: Service, b: RequestBinding)
    requires Bracketed(s, None) && b.requestId !in s.operations && s.lock != Some(b.requestId)
    ensures Bracketed(Entered(s, b), Some(b.requestId))
  {
    var t := Entered(s, b);
    forall i | i in t.operations && i != b.requestId ensures Unstarted(t, i, Scan(t.log).last) {
      assert Unstarted(s, i, Scan(s.log).last);
    }
  }

  lemma EnterKeeps(s: Service, b: RequestBinding, lim: Limits)
    requires Inv(s, lim) && MayRegister(s.registry, b, lim.maxLive) && b.requestId !in s.operations
    ensures InvBut(Entered(s, b), lim, Some(b.requestId))
    ensures s.lock != Some(b.requestId) && Of(Entered(s, b).log, s.next) == [] && Scan(s.log).last < s.next
  {
    EnterKeepsCoherent(s, b, lim);
    EnterKeepsOrdered(s, b);
    EnterKeepsRecorded(s, b);
    EnterKeepsBracketed(s, b);
  }

  // ----- the lock -----

  /** The free lock goes to an operation that is in no queue. */
  lemma HoldKeeps(s: Service, id: string, lim: Limits)
    requires InvBut(s, lim, Some(id)) && id in s.operations && s.lock == None
    ensures InvBut(s.(lock := Some(id)), lim, Some(id))
  {
    var t := s.(lock := Some(id));
    forall i | i in t.operations && i != id ensures Placed(t, i) && Unstarted(t, i, Scan(t.log).last) {
      assert Placed(s, i) && Unstarted(s, i, Scan(s.log).last);
    }
    SameFilingKeepsCoherent(s, t, lim);
    assert Recorded(t, Some(id)) by {
      forall n: nat | n < t.next ensures Traced(t, n) {
        assert Traced(s, n);
      }
    }
  }

  function Rephased(s: Service, id: string, phase: Phase): Service
    requires id in s.operations
  {
    s.(operations := s.operations[id := s.operations[id].(phase := phase)])
  }

  /** The holder of the lock that comes before all waiters starts its authorization. */
  lemma AuthorizeKeepsOrdered(s: Service, id: string)
    requires Ordered(s, Some(id)) && id in s.operations && s.lock == Some(id)
    requires forall q :: q in s.queue ==> s.operations[id].serial < s.operations[q].serial
    ensures Ordered(Rephased(s, id, Authorizing), None)
  {
    var t := Rephased(s, id, Authorizing);
    forall i | i in t.operations ensures Placed(t, i) {
      if i != id { assert Placed(s, i); }
    }
  }

  lemma AuthorizeKeeps(s: Service, id: string, lim: Limits)
    requires InvBut(s, lim, Some(id)) && id in s.operations && s.lock == Some(id)
    requires forall q :: q in s.queue ==> s.operations[id].serial < s.operations[q].serial
    requires Of(s.log, s.operations[id].serial) == [Event.Allowed(s.operations[id].serial)]
    requires Scan(s.log).last < s.operations[id].serial
    ensures Inv(Rephased(s, id, Authorizing), lim)
  {
    var t := Rephased(s, id, Authorizing);
    SameFilingKeepsCoherent(s, t, lim);
    AuthorizeKeepsOrdered(s, id);
    RephaseKeepsRecorded(s, t, id);
    forall i | i in t.operations ensures Unstarted(t, i, Scan(t.log).last) {
      if i != id { assert Unstarted(s, i, Scan(s.log).last); }
    }
  }

  /** The newest operation waits behind everyone. */
  lemma QueueKeepsOrdered(s: Service, id: string)
    requires Filed(s) && Ordered(s, Some(id)) && id in s.operations && s.lock != Some(id)
    requires s.operations[id].phase == Waiting && s.operations[id].serial + 1 == s.next
    ensures Ordered(s.(queue := s.queue + [id]), None)
  {
    var t := s.(queue := s.queue + [id]);
    UnrepeatedAppend(s.queue, id);
    forall i | i in s.operations && i != id ensures s.operations[i].serial < s.operations[id].serial {
    }
    forall i, j | 0 <= i < j < |t.queue| ensures t.operations[t.queue[i]].serial < t.operations[t.queue[j]].serial {
      assert t.queue[i] in s.queue;
    }
    forall i | i in t.operations ensures Placed(t, i) {
      if i != id { assert Placed(s, i); }
    }
  }

  lemma QueueKeeps(s: Service, id: string, lim: Limits)
    requires InvBut(s, lim, Some(id)) && id in s.operations && s.lock != Some(id)
    requires s.operations[id].phase == Waiting && s.operations[id].serial + 1 == s.next
    requires Of(s.log, s.operations[id].serial) == [Event.Allowed(s.operations[id].serial)]
    requires Scan(s.log).last < s.operations[id].serial
    ensures Inv(s.(queue := s.queue + [id]), lim)
  {
    var t := s.(queue := s.queue + [id]);
    SameFilingKeepsCoherent(s, t, lim);
    QueueKeepsOrdered(s, id);
    RephaseKeepsRecorded(s, t, id);
    forall i | i in t.operations ensures Unstarted(t, i, Scan(t.log).last) {
      if i != id { assert Unstarted(s, i, Scan(s.log).last); }
    }
  }

  // ----- the steps -----

  lemma AllowedKeeps(s: Service, b: RequestBinding, lim: Limits)
    requires Inv(s, lim) && MayRegister(s.registry, b, lim.maxLive) && b.requestId !in s.operations
    ensures var allowed := Note(Entered(s, b), [Event.Allowed(s.next)]);
            && InvBut(allowed, lim, Some(b.requestId)) && s.lock != Some(b.requestId)
            && Of(allowed.log, s.next) == [Event.Allowed(s.next)] && Scan(allowed.log).last < s.next
  {
    EnterKeeps(s, b, lim);
    var entered, es := Entered(s, b), [Event.Allowed(s.next)];
    ReadOne(Scan(entered.log), es[0]);
    ReadAllConcat(Bracket(None, -1), entered.log, es);
    NoteKeeps(entered, b.requestId, es, lim);
  }

  lemma SubmitKeeps(s: Service, b: RequestBinding, eligible: bool, accepted: bool, lim: Limits)
    requires Inv(s, lim)
    ensures Inv(SubmitStep(s, b, eligible, accepted, lim), lim)
  {
    var id := b.requestId;
    if !MayRegister(s.registry, b, lim.maxLive) {
    } else if id in s.operations {
      ClashKeeps(s, b, lim);
    } else if !eligible {
      EnterKeeps(s, b, lim);
      RefuseKeeps(Entered(s, b), id, Rejected, accepted, lim);
      SubmitUnfolds(s, b, eligible, accepted, lim);
    } else {
      SubmitUnfolds(s, b, eligible, accepted, lim);
      AllowedKeeps(s, b, lim);
      var allowed := Note(Entered(s, b), [Event.Allowed(s.next)]);
      if s.lock == None && s.queue == [] {
        HoldKeeps(allowed, id, lim);
        AuthorizeKeeps(allowed.(lock := Some(id)), id, lim);
      } else {
        QueueKeeps(allowed, id, lim);
      }
    }
  }

  /** The first waiter has left the queue. */
  lemma DequeueKeeps(s: Service, lim: Limits)
    requires Inv(s, lim) && s.lock == None && s.queue != []
    ensures s.queue[0] in s.operations && InvBut(s.(queue := s.queue[1..]), lim, Some(s.queue[0]))
    ensures forall q :: q in s.queue[1..] ==> s.operations[s.queue[0]].serial < s.operations[q].serial
  {
    var id, t := s.queue[0], s.(queue := s.queue[1..]);
    assert id in s.queue;
    SameFilingKeepsCoherent(s, t, lim);
    RephaseKeepsRecorded(s, t, id);
    DequeueKeepsOrdered(s);
    forall i | i in t.operations && i != id ensures Unstarted(t, i, Scan(t.log).last) {
      assert Unstarted(s, i, Scan(s.log).last);
    }
  }

  lemma DequeueKeepsOrdered(s: Service)
    requires Ordered(s, None) && s.lock == None && s.queue != []
    ensures Ordered(s.(queue := s.queue[1..]), Some(s.queue[0]))
  {
    var id, t := s.queue[0], s.(queue := s.queue[1..]);
    forall i | i in t.operations && i != id ensures Placed(t, i) {
      assert Placed(s, i);
    }
  }

  lemma TakeLockKeeps(s: Service, accepted: bool, lim: Limits)
    requires Inv(s, lim) && Enabled(s, TakeLock(accepted))
    ensures Inv(TakeLockStep(s, accepted, lim), lim)
  {
    var id := s.queue[0];
    var dequeued := s.(queue := s.queue[1..]);
    assert s.operations[id].phase == Waiting && Unstarted(s, id, Scan(s.log).last) by { assert id in s.queue; }
    DequeueKeeps(s, lim);
    HoldKeeps(dequeued, id, lim);
    var holding := dequeued.(lock := Some(id));
    assert Of(s.log, s.operations[id].serial) == Path(s.operations[id]);
    if s.operations[id].token.cancelled {
      InterruptKeeps(holding, id, accepted, lim);
    } else {
      AuthorizeKeeps(holding, id, lim);
    }
  }

  /** The lock's holder can be singled out until it executes. */
  lemma HolderAside(s: Service, lim: Limits)
    requires Inv(s, lim) && s.lock.Some?
    ensures s.lock.value in s.operations && s.operations[s.lock.value].phase != Waiting
    ensures !s.operations[s.lock.value].phase.Executing? ==> InvBut(s, lim, s.lock)
    ensures Of(s.log, s.operations[s.lock.value].serial) == Path(s.operations[s.lock.value])
  {
    if !s.operations[s.lock.value].phase.Executing? {
      forall i | i in s.operations ensures Placed(s, i) && Unstarted(s, i, Scan(s.log).last) {
      }
    }
  }

  /** Everyone but the lock's holder waits and is younger. */
  lemma OthersAreYounger(s: Service, id: string)
    requires Ordered(s, None) && s.lock == Some(id) && id in s.operations
    ensures forall i :: i in s.operations && i != id ==> s.operations[id].serial < s.operations[i].serial && !s.operations[i].phase.Executing?
  {
    forall i | i in s.operations && i != id ensures s.operations[id].serial < s.operations[i].serial && !s.operations[i].phase.Executing? {
      assert Placed(s, i);
    }
  }

  /** The start's audit attempt opens the bracket if the record was accepted. */
  lemma StartReads(s: Service, n: nat, accepted: bool)
    requires Scan(s.log).Bracket? && Scan(s.log).open == None && Scan(s.log).last < n
    ensures Scan(s.log + [Cleared(n), Audited(n, Start, accepted)]) == Bracket(if accepted then Some(n) else None, n)
    ensures accepted ==> Scan(s.log + [Cleared(n), Audited(n, Start, accepted)] + [ExecutorCreated(n)]) == Bracket(Some(n), n)
  {
    var es := [Cleared(n), Audited(n, Start, accepted)];
    ReadAllConcat(Bracket(None, -1), s.log, es);
    ReadTwo(Scan(s.log), es[0], es[1]);
    if accepted {
      ReadAllConcat(Bracket(None, -1), s.log + es, [ExecutorCreated(n)]);
      ReadOne(Bracket(Some(n), n), ExecutorCreated(n));
    }
  }

  /** The facts about a granted holder before its start. */
  ghost predicate Ready(s: Service, id: string, lim: Limits) {
    && InvBut(s, lim, Some(id)) && id in s.operations && s.lock == Some(id)
    && s.operations[id].phase == Authorizing
    && Of(s.log, s.operations[id].serial) == [Event.Allowed(s.operations[id].serial), Ruled(s.operations[id].serial, Granted)]
    && Scan(s.log).last < s.operations[id].serial
    && (forall i :: i in s.operations && i != id ==>
          s.operations[id].serial < s.operations[i].serial && !s.operations[i].phase.Executing?)
  }

  lemma UnstartedKeeps(s: Service, id: string, lim: Limits)
    requires Ready(s, id, lim)
    ensures var n := s.operations[id].serial;
            Inv(Leave(Note(s, [Cleared(n), Audited(n, Start, false)]), id, None, lim), lim)
  {
    var n := s.operations[id].serial;
    var es := [Cleared(n), Audited(n, Start, false)];
    var started := Note(s, es);
    NoteKeepsRecorded(s, id, es);
    StartReads(s, n, false);
    SameFilingKeepsCoherent(s, started, lim);
    assert Ordered(started, Some(id)) by {
      forall i | i in started.operations && i != id ensures Placed(started, i) {
        assert Placed(s, i);
      }
    }
    LeaveKeeps(started, id, None, lim);
  }

  function Started(s: Service, id: string): Service
    requires id in s.operations
  {
    var n := s.operations[id].serial;
    Rephased(Note(Note(s, [Cleared(n), Audited(n, Start, true)]), [ExecutorCreated(n)]), id, Executing(false))
  }

  lemma StartedKeepsRecorded(s: Service, id: string, lim: Limits)
    requires Ready(s, id, lim)
    ensures Recorded(Started(s, id), None)
  {
    var n := s.operations[id].serial;
    var started := Note(s, [Cleared(n), Audited(n, Start, true)]);
    NoteKeepsRecorded(s, id, [Cleared(n), Audited(n, Start, true)]);
    assert Filed(started);
    NoteKeepsRecorded(started, id, [ExecutorCreated(n)]);
    var created := Note(started, [ExecutorCreated(n)]);
    assert Filed(created);
    assert Of(created.log, n) == Path(s.operations[id].(phase := Executing(false)));
    RephaseKeepsRecorded(created, Started(s, id), id);
  }

  lemma StartedKeepsBracketed(s: Service, id: string, lim: Limits)
    requires Ready(s, id, lim)
    ensures Bracketed(Started(s, id), None)
  {
    StartReads(s, s.operations[id].serial, true);
  }

  lemma StartedKeeps(s: Service, id: string, lim: Limits)
    requires Ready(s, id, lim)
    ensures Inv(Started(s, id), lim)
  {
    var t := Started(s, id);
    SameFilingKeepsCoherent(s, t, lim);
    ExecuteKeepsOrdered(s, t, id, false);
    StartedKeepsRecorded(s, id, lim);
    StartedKeepsBracketed(s, id, lim);
  }

  /** The lock's holder goes on into its execution. */
  lemma ExecuteKeepsOrdered(s: Service, t: Service, id: string, expired: bool)
    requires Ordered(s, Some(id)) && s.lock == Some(id) && id in s.operations
    requires forall i :: i in s.operations && i != id ==> s.operations[id].serial < s.operations[i].serial
    requires t.lock == s.lock && t.queue == s.queue
    requires id in t.operations && t.operations == s.operations[id := t.operations[id]]
    requires t.operations[id].serial == s.operations[id].serial && t.operations[id].phase == Executing(expired)
    ensures Ordered(t, None)
  {
    forall i | i in t.operations ensures Placed(t, i) {
      if i != id { assert Placed(s, i); }
    }
  }

  /** The verdict is noted. */
  lemma RulingKeeps(s: Service, verdict: Verdict, lim: Limits)
    requires Inv(s, lim) && s.lock.Some? && s.lock.value in s.operations && s.operations[s.lock.value].phase == Authorizing
    ensures var n := s.operations[s.lock.value].serial;
            var ruled := Note(s, [Ruled(n, verdict)]);
            InvBut(ruled, lim, s.lock) && Of(ruled.log, n) == [Event.Allowed(n), Ruled(n, verdict)] && Scan(ruled.log).last < n
  {
    var id := s.lock.value;
    var es := [Ruled(s.operations[id].serial, verdict)];
    HolderAside(s, lim);
    ReadOne(Scan(s.log), es[0]);
    NoteKeeps(s, id, es, lim);
    ReadAllConcat(Bracket(None, -1), s.log, es);
    assert Unstarted(s, id, Scan(s.log).last);
  }

  lemma {:induction false} JudgedKeeps(s: Service, verdict: Verdict, accepted: bool, lim: Limits)
    requires Inv(s, lim) && Enabled(s, Judged(verdict, accepted))
    ensures Inv(JudgedStep(s, verdict, accepted, lim), lim)
  {
    var id := s.lock.value;
    var ruled := Note(s, [Ruled(s.operations[id].serial, verdict)]);
    RulingKeeps(s, verdict, lim);
    match verdict
    case Withdrawn => InterruptKeeps(ruled, id, accepted, lim);
    case Refused => RefuseKeeps(ruled, id, Denied, accepted, lim);
    case Granted => GrantedKeeps(s, accepted, lim);
  }

  /** What becomes of a granted request. */
  lemma GrantedUnfolds(s: Service, accepted: bool, lim: Limits)
    requires Enabled(s, Judged(Granted, accepted))
    ensures var id := s.lock.value;
            var op := s.operations[id];
            var granted := Note(s, [Ruled(op.serial, Granted)]);
            JudgedStep(s, Granted, accepted, lim) ==
            if op.token.cancelled then Interrupt(granted, id, accepted, lim)
            else if accepted then Started(granted, id)
            else Leave(Note(granted, [Cleared(op.serial), Audited(op.serial, Start, false)]), id, None, lim)
  {
  }

  lemma GrantedKeeps(s: Service, accepted: bool, lim: Limits)
    requires Inv(s, lim) && Enabled(s, Judged(Granted, accepted))
    ensures Inv(JudgedStep(s, Granted, accepted, lim), lim)
  {
    var id := s.lock.value;
    var op := s.operations[id];
    RulingKeeps(s, Granted, lim);
    OthersAreYounger(s, id);
    GrantedUnfolds(s, accepted, lim);
    var granted := Note(s, [Ruled(op.serial, Granted)]);
    if op.token.cancelled {
      InterruptKeeps(granted, id, accepted, lim);
    } else if accepted {
      StartedKeeps(granted, id, lim);
    } else {
      UnstartedKeeps(granted, id, lim);
    }
  }

  lemma DeadlineKeeps(s: Service, lim: Limits)
    requires Inv(s, lim) && Enabled(s, DeadlinePasses)
    ensures Inv(DeadlineStep(s), lim)
  {
    var id, t := s.lock.value, DeadlineStep(s);
    SameFilingKeepsCoherent(s, t, lim);
    HolderAside(s, lim);
    RephaseKeepsRecorded(s, t, id);
    OthersAreYounger(s, id);
    ExecuteKeepsOrdered(s, t, id, true);
    DeadlineKeepsBracketed(s);
  }

  lemma DeadlineKeepsBracketed(s: Service)
    requires Bracketed(s, None) && Enabled(s, DeadlinePasses)
    ensures Bracketed(DeadlineStep(s), None)
  {
    var t := DeadlineStep(s);
    forall i | i in t.operations ensures Unstarted(t, i, Scan(t.log).last) {
      assert Unstarted(s, i, Scan(s.log).last);
    }
  }

  /** The executor's end and the terminal audit attempt. */
  function Ending(n: nat, result: Option<ProductionStatus>, accepted: bool, fits: bool): seq<Event> {
    [ExecutorDone(n, result, fits), Audited(n, End(if result.Some? then result.value else Failed), accepted)]
  }

  /** They close the bracket. */
  lemma EndKeeps(s: Service, result: Option<ProductionStatus>, accepted: bool, fits: bool, lim: Limits)
    requires Inv(s, lim) && s.lock.Some? && s.lock.value in s.operations && s.operations[s.lock.value].phase.Executing?
    ensures var n := s.operations[s.lock.value].serial;
            var t := Note(s, Ending(n, result, accepted, fits));
            InvBut(t, lim, s.lock) && Of(t.log, n) == Path(s.operations[s.lock.value]) + Ending(n, result, accepted, fits)
  {
    var id := s.lock.value;
    var n := s.operations[id].serial;
    var es := Ending(n, result, accepted, fits);
    var t := Note(s, es);
    SameFilingKeepsCoherent(s, t, lim);
    assert Recorded(s, Some(id));
    NoteKeepsRecorded(s, id, es);
    ReadAllConcat(Bracket(None, -1), s.log, es);
    ReadTwo(Scan(s.log), es[0], es[1]);
    forall i | i in t.operations ensures Placed(t, i) && Unstarted(t, i, Scan(t.log).last) {
      assert Placed(s, i) && Unstarted(s, i, Scan(s.log).last);
    }
  }

  lemma ExecutorReturnsKeeps(s: Service, result: Option<ProductionStatus>, accepted: bool, fits: bool, lim: Limits)
    requires Inv(s, lim) && Enabled(s, ExecutorReturns(result, accepted, fits))
    ensures Inv(ExecutorReturnsStep(s, result, accepted, fits, lim), lim)
  {
    EndKeeps(s, result, accepted, fits, lim);
    var id := s.lock.value;
    var n := s.operations[id].serial;
    var noted := Note(s, Ending(n, result, accepted, fits));
    var answer := FinalAnswer(result, accepted, fits);
    assert ExecutedPath(Of(noted.log, n), n, true, answer);
    LeaveKeeps(noted, id, answer, lim);
  }

  lemma CancelKeeps(s: Service, id: string, peer: PeerIdentity, lim: Limits)
    requires Inv(s, lim)
    ensures Inv(CancelStep(s, id, peer), lim)
  {
    var found := Find(s.registry.live, id);
    if found.Some? && found.value.peer == peer {
      var t := CancelOperations(s, [found.value]);
      CancelChangesTokens(s, [found.value]);
      TokensDoNotMatter(s, t);
      SameFilingKeepsCoherent(s, t, lim);
    }
  }

  lemma CancelChangesTokens(s: Service, gone: seq<RequestBinding>)
    ensures OnlyTokensDiffer(s, CancelOperations(s, gone))
  {
  }

  lemma OwnerLeavesKeeps(s: Service, owner: string, lim: Limits)
    requires Inv(s, lim)
    ensures Inv(OwnerLeavesStep(s, owner, lim), lim)
  {
    var t := OwnerLeavesStep(s, owner, lim);
    CancelChangesTokens(s, Keep(s.registry.live, NotOwner(owner)));
    TokensDoNotMatter(s, t);
    InvalidateKeepsInv(s.registry, owner, lim.maxLive, lim.maxRecent);
    OwnedAreGone(s, owner, lim);
  }

  /** The boundary drops exactly the bindings of the departed owner. */
  lemma OwnedAreGone(s: Service, owner: string, lim: Limits)
    requires RegistryInv(s.registry, lim.maxLive, lim.maxRecent) && SameMaps(s)
    ensures forall b :: b in s.registry.live ==> (b.requestId in OwnedIds(s.registry, owner) <==> b.peer.uniqueOwner == owner)
    ensures SameMaps(OwnerLeavesStep(s, owner, lim))
  {
    InvalidationIsExact(s.registry, owner, lim.maxLive, lim.maxRecent);
  }

  lemma StepKeepsInv(s: Service, input: Input, lim: Limits)
    requires Inv(s, lim) && Enabled(s, input)
    ensures Inv(Step(s, input, lim), lim)
  {
    match input
    case Submit(b, eligible, accepted) => SubmitKeeps(s, b, eligible, accepted, lim);
    case TakeLock(accepted) => TakeLockKeeps(s, accepted, lim);
    case Judged(verdict, accepted) => JudgedKeeps(s, verdict, accepted, lim);
    case DeadlinePasses => DeadlineKeeps(s, lim);
    case ExecutorReturns(status, accepted, fits) => ExecutorReturnsKeeps(s, status, accepted, fits, lim);
    case CancelRequest(id, peer) => CancelKeeps(s, id, peer, lim);
    case OwnerLeaves(owner) => OwnerLeavesKeeps(s, owner, lim);
  }
}
