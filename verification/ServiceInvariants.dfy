/** What every step of the service keeps. */
module ServiceInvariants {
  import opened Common
  import opened Json
  import opened ProductionProtocol
  import opened RequestRegistry
  import opened ServiceModel
  import opened ServiceHistory

  // ----- coherence of registry, boundary and dispatcher -----

  /** Operations are filed under their own ID with a serial number already handed out, each its own. */
  ghost predicate Filed(s: Service) {
    && (forall id :: id in s.operations ==>
          s.operations[id].binding.requestId == id && s.operations[id].serial < s.next)
    && (forall id, id' :: id in s.operations && id' in s.operations && id != id'
          ==> s.operations[id].serial != s.operations[id'].serial)
  }

  /** The registry's live map is the boundary's binding map. */
  ghost predicate SameMaps(s: Service) {
    && (forall b :: b in s.registry.live ==> b.requestId in s.bindings && s.bindings[b.requestId] == b)
    && (forall id :: id in s.bindings ==> s.bindings[id] in s.registry.live && s.bindings[id].requestId == id)
  }

  /** Every live request has an operation with the identical binding. */
  ghost predicate Backed(s: Service) {
    forall b :: b in s.registry.live ==> b.requestId in s.operations && s.operations[b.requestId].binding == b
  }

  // ----- the lock and its queue -----

  ghost predicate Queued(s: Service) {
    && Unrepeated(s.queue)
    && (forall id :: id in s.queue ==> id in s.operations && s.operations[id].phase == Waiting && s.lock != Some(id))
    && (forall i, j :: 0 <= i < j < |s.queue| ==> s.operations[s.queue[i]].serial < s.operations[s.queue[j]].serial)
  }

  /** Whoever is past the lock holds it, and whoever is not waits in the queue. */
  ghost predicate Placed(s: Service, id: string)
    requires id in s.operations
  {
    if s.operations[id].phase == Waiting then id in s.queue else s.lock == Some(id)
  }

  // ----- the history -----

  /** What the audit bracket must look like. */
  function OpenBracket(s: Service): Option<nat> {
    if s.lock.Some? && s.lock.value in s.operations && s.operations[s.lock.value].phase.Executing?
    then Some(s.operations[s.lock.value].serial) else None
  }

  ghost predicate Traced(s: Service, n: nat) {
    (exists id :: id in s.operations && s.operations[id].serial == n) || Complete(Of(s.log, n), n)
  }

  ghost predicate Unstarted(s: Service, id: string, last: int)
    requires id in s.operations
  {
    !s.operations[id].phase.Executing? ==> last < s.operations[id].serial
  }

  /** The history records the path of every operation but `x`, and complete paths of all earlier ones. */
  ghost predicate Recorded(s: Service, x: Option<string>) {
    && (forall id :: id in s.operations && Some(id) != x ==> Of(s.log, s.operations[id].serial) == Path(s.operations[id]))
    && (forall n: nat {:trigger Of(s.log, n)} :: n >= s.next ==> Of(s.log, n) == [])
    && (forall n: nat {:trigger Traced(s, n)} :: n < s.next ==> Traced(s, n))
  }

  /** The lock and the queue agree with the phases of all operations but `x`. */
  ghost predicate Ordered(s: Service, x: Option<string>) {
    && Queued(s)
    && (x.Some? ==> x.value !in s.queue)
    && (s.lock.Some? ==> s.lock.value in s.operations && (x == s.lock || s.operations[s.lock.value].phase != Waiting))
    && (s.lock.Some? && s.lock != x ==> forall id :: id in s.queue ==> s.operations[s.lock.value].serial < s.operations[id].serial)
    && (forall id :: id in s.operations && Some(id) != x ==> Placed(s, id))
  }

  ghost predicate Coherent(s: Service, lim: Limits) {
    RegistryInv(s.registry, lim.maxLive, lim.maxRecent) && Filed(s) && SameMaps(s) && Backed(s)
  }

  /** The bracket is open exactly while the lock's holder executes; whoever has not started is later
      than everyone who has. */
  ghost predicate Bracketed(s: Service, x: Option<string>) {
    && Scan(s.log).Bracket?
    && Scan(s.log).open == (if s.lock == x then None else OpenBracket(s))
    && Scan(s.log).last < s.next
    && (forall id :: id in s.operations && Some(id) != x ==> Unstarted(s, id, Scan(s.log).last))
  }

  /** All invariants, except what concerns the operation `x` that is about to leave. */
  ghost predicate InvBut(s: Service, lim: Limits, x: Option<string>) {
    Coherent(s, lim) && Ordered(s, x) && Recorded(s, x) && Bracketed(s, x)
  }

  ghost predicate Inv(s: Service, lim: Limits) {
    InvBut(s, lim, None)
  }

  lemma InitialInv(lim: Limits)
    ensures Inv(Initial(), lim)
  {
  }

  // ----- notes -----

  /** Events of operation `id` extend its own path only. */
  lemma NoteKeepsRecorded(s: Service, id: string, es: seq<Event>)
    requires Filed(s) && id in s.operations && AllOf(es, s.operations[id].serial)
    requires Recorded(s, Some(id))
    ensures Recorded(Note(s, es), Some(id))
    ensures Of(Note(s, es).log, s.operations[id].serial) == Of(s.log, s.operations[id].serial) + es
  {
    var n := s.operations[id].serial;
    OfNoted(s.log, es, n);
    forall k: nat | k < s.next ensures Traced(Note(s, es), k) {
      assert Traced(s, k);
      if k == n {
        assert id in Note(s, es).operations;
      }
    }
  }

  /** Notes that do not touch the bracket keep everything. */
  lemma NoteKeeps(s: Service, id: string, es: seq<Event>, lim: Limits)
    requires InvBut(s, lim, Some(id)) && id in s.operations && AllOf(es, s.operations[id].serial)
    requires ReadAll(Scan(s.log), es) == Scan(s.log)
    ensures InvBut(Note(s, es), lim, Some(id))
    ensures Of(Note(s, es).log, s.operations[id].serial) == Of(s.log, s.operations[id].serial) + es
  {
    NoteKeepsRecorded(s, id, es);
    NoteKeepsOrdered(s, es, Some(id));
    ReadAllConcat(Bracket(None, -1), s.log, es);
    assert Scan(Note(s, es).log) == Scan(s.log);
    forall i | i in s.operations && i != id ensures Unstarted(Note(s, es), i, Scan(s.log).last) {
      assert Unstarted(s, i, Scan(s.log).last);
    }
  }

  lemma NoteKeepsOrdered(s: Service, es: seq<Event>, x: Option<string>)
    requires Ordered(s, x)
    ensures Ordered(Note(s, es), x)
  {
    forall i | i in s.operations && Some(i) != x ensures Placed(Note(s, es), i) {
      assert Placed(s, i);
    }
  }

  // ----- leaving -----

  lemma CompleteKeepsCoherent(s: Service, b: RequestBinding, lim: Limits)
    requires RegistryInv(s.registry, lim.maxLive, lim.maxRecent) && SameMaps(s)
    ensures RegistryInv(CompleteBinding(s, b, lim).registry, lim.maxLive, lim.maxRecent)
    ensures SameMaps(CompleteBinding(s, b, lim))
    ensures forall c :: c in CompleteBinding(s, b, lim).registry.live
                        <==> c in s.registry.live && !(Find(s.registry.live, b.requestId) == Some(b) && c.requestId == b.requestId)
  {
    CompleteKeepsInv(s.registry, b, lim.maxLive, lim.maxRecent);
    if Find(s.registry.live, b.requestId) == Some(b) {
      var live := Keep(s.registry.live, HasId(b.requestId));
      assert forall c :: c in live <==> c in s.registry.live && !HasId(b.requestId)(c);
    }
  }

  lemma AnswerCompletes(p: seq<Event>, n: nat, live: bool, answer: Option<ProductionStatus>)
    requires EndedWith(p, n, live, answer)
    ensures Complete(p + [Answered(n, live, answer)], n)
  {
    var all := p + [Answered(n, live, answer)];
    assert all[..|all| - 1] == p;
  }

  lemma LeaveKeepsRecorded(s: Service, id: string, answer: Option<ProductionStatus>, lim: Limits)
    requires Filed(s) && id in s.operations && Recorded(s, Some(id))
    requires Concludes(Of(s.log, s.operations[id].serial), s.operations[id].serial, answer)
    ensures Recorded(Leave(s, id, answer, lim), None)
  {
    var n := s.operations[id].serial;
    var live := Find(s.registry.live, id) == Some(s.operations[id].binding);
    var es := [Answered(n, live, if live then answer else None)];
    var post := Leave(s, id, answer, lim);
    assert post.log == s.log + es && post.operations == s.operations - {id} && post.next == s.next;
    LeftIsRecorded(s, post, id, live, if live then answer else None);
  }

  /** The path of a request that has left is complete, and the others are as before. */
  lemma LeftIsRecorded(s: Service, post: Service, id: string, live: bool, answer: Option<ProductionStatus>)
    requires Filed(s) && id in s.operations && Recorded(s, Some(id))
    requires EndedWith(Of(s.log, s.operations[id].serial), s.operations[id].serial, live, answer)
    requires post.log == s.log + [Answered(s.operations[id].serial, live, answer)]
    requires post.operations == s.operations - {id} && post.next == s.next
    ensures Recorded(post, None)
  {
    var n := s.operations[id].serial;
    OfNoted(s.log, [Answered(n, live, answer)], n);
    AnswerCompletes(Of(s.log, n), n, live, answer);
    LeaveKeepsTraced(s, post, id);
  }

  /** One operation less, whose path is complete. */
  lemma LeaveKeepsTraced(s: Service, post: Service, id: string)
    requires id in s.operations && post.operations == s.operations - {id}
    requires forall k: nat {:trigger Traced(s, k)} :: k < s.next ==> Traced(s, k)
    requires forall k: nat {:trigger Of(post.log, k)} :: k != s.operations[id].serial ==> Of(post.log, k) == Of(s.log, k)
    requires Complete(Of(post.log, s.operations[id].serial), s.operations[id].serial)
    ensures forall k: nat {:trigger Traced(post, k)} :: k < s.next ==> Traced(post, k)
  {
    forall k: nat | k < s.next ensures Traced(post, k) {
      assert Traced(s, k);
      if k != s.operations[id].serial {
        if id' :| id' in s.operations && s.operations[id'].serial == k {
          assert id' in post.operations && post.operations[id'].serial == k;
        }
      }
    }
  }

  lemma LeaveKeepsBracketed(s: Service, id: string, answer: Option<ProductionStatus>, lim: Limits)
    requires id in s.operations && Bracketed(s, Some(id))
    ensures Bracketed(Leave(s, id, answer, lim), None)
  {
    var post := Leave(s, id, answer, lim);
    var e := post.log[|post.log| - 1];
    assert post.log == s.log + [e] && e.Answered?;
    ReadAllConcat(Bracket(None, -1), s.log, [e]);
    ReadOne(Scan(s.log), e);
    assert forall i :: i in post.operations ==> Unstarted(s, i, Scan(s.log).last);
  }

  lemma LeaveKeepsOrdered(s: Service, id: string, answer: Option<ProductionStatus>, lim: Limits)
    requires id in s.operations && Ordered(s, Some(id))
    ensures Ordered(Leave(s, id, answer, lim), None)
  {
    var post := Leave(s, id, answer, lim);
    assert post.operations == s.operations - {id} && post.queue == s.queue;
    forall i | i in post.operations ensures Placed(post, i) {
      assert Placed(s, i);
    }
  }

  lemma LeaveKeepsCoherent(s: Service, id: string, answer: Option<ProductionStatus>, lim: Limits)
    requires id in s.operations && Coherent(s, lim)
    ensures Coherent(Leave(s, id, answer, lim), lim)
  {
    var op := s.operations[id];
    var live := Find(s.registry.live, id) == Some(op.binding);
    var popped := s.(operations := s.operations - {id},
                     lock := if s.lock == Some(id) then None else s.lock,
                     log := s.log + [Answered(op.serial, live, if live then answer else None)]);
    CompleteKeepsCoherent(popped, op.binding, lim);
    var post := Leave(s, id, answer, lim);
    forall b | b in post.registry.live
      ensures b.requestId in post.operations && post.operations[b.requestId].binding == b
    {
      assert s.operations[b.requestId].binding == b;
      if b.requestId == id {
        FindUnique(s.registry.live, b);
      }
    }
  }

  /** An operation whose path is within the grammar leaves the service in order. */
  lemma LeaveKeeps(s: Service, id: string, answer: Option<ProductionStatus>, lim: Limits)
    requires InvBut(s, lim, Some(id)) && id in s.operations
    requires Concludes(Of(s.log, s.operations[id].serial), s.operations[id].serial, answer)
    ensures Inv(Leave(s, id, answer, lim), lim)
  {
    LeaveKeepsCoherent(s, id, answer, lim);
    LeaveKeepsOrdered(s, id, answer, lim);
    LeaveKeepsRecorded(s, id, answer, lim);
    LeaveKeepsBracketed(s, id, answer, lim);
  }

  /** A refusal with its cause in the history. */
  lemma RefuseKeeps(s: Service, id: string, status: ProductionStatus, accepted: bool, lim: Limits)
    requires InvBut(s, lim, Some(id)) && id in s.operations
    requires Cause(Of(s.log, s.operations[id].serial), s.operations[id].serial, status)
    ensures Inv(Refuse(s, id, status, accepted, lim), lim)
  {
    var n := s.operations[id].serial;
    var es := [Audited(n, Refusal(status), accepted)];
    ReadOne(Scan(s.log), es[0]);
    NoteKeeps(s, id, es, lim);
    var noted := Note(s, es);
    RecordedRefusal(Of(s.log, n), n, status, accepted);
    LeaveKeeps(noted, id, if accepted then Some(status) else None, lim);
  }

  lemma RecordedRefusal(p: seq<Event>, n: nat, status: ProductionStatus, accepted: bool)
    requires Cause(p, n, status)
    ensures Concludes(p + [Audited(n, Refusal(status), accepted)], n, if accepted then Some(status) else None)
  {
    var all := p + [Audited(n, Refusal(status), accepted)];
    assert all[..|all| - 1] == p;
  }

  /** The ways to a checkpoint. */
  predicate BeforeStop(p: seq<Event>, n: nat) {
    p in {[Allowed(n)], [Allowed(n), Ruled(n, Withdrawn)], [Allowed(n), Ruled(n, Granted)]}
  }

  lemma InterruptKeeps(s: Service, id: string, accepted: bool, lim: Limits)
    requires InvBut(s, lim, Some(id)) && id in s.operations
    requires BeforeStop(Of(s.log, s.operations[id].serial), s.operations[id].serial)
    ensures Inv(Interrupt(s, id, accepted, lim), lim)
  {
    var op := s.operations[id];
    var es := [Interrupted(op.serial, op.token.timedOut)];
    ReadOne(Scan(s.log), es[0]);
    NoteKeeps(s, id, es, lim);
    RefuseKeeps(Note(s, es), id, StopStatus(op.token), accepted, lim);
  }
}
