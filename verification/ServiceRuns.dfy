/** What holds in every reachable state of the service, over all interleavings of its steps. */
module ServiceRuns {
  import opened Common
  import opened Json
  import opened ProductionProtocol
  import opened RequestRegistry
  import opened ServiceModel
  import opened ServiceHistory
  import opened ServiceInvariants
  import opened ServiceSteps

  /** One step, or none if the input cannot happen. */
  function Next(s: Service, input: Input, lim: Limits): Service {
    if Enabled(s, input) then Step(s, input, lim) else s
  }

  /** The state after a schedule of inputs. */
  function From(s: Service, inputs: seq<Input>, lim: Limits): Service
    decreases |inputs|
  {
    if inputs == [] then s else From(Next(s, inputs[0], lim), inputs[1..], lim)
  }

  function After(inputs: seq<Input>, lim: Limits): Service {
    From(Initial(), inputs, lim)
  }

  lemma {:induction false} FromKeepsInv(s: Service, inputs: seq<Input>, lim: Limits)
    requires Inv(s, lim)
    ensures Inv(From(s, inputs, lim), lim)
    decreases |inputs|
  {
    if inputs != [] {
      if Enabled(s, inputs[0]) {
        StepKeepsInv(s, inputs[0], lim);
      }
      FromKeepsInv(Next(s, inputs[0], lim), inputs[1..], lim);
    }
  }

  lemma Reachable(inputs: seq<Input>, lim: Limits)
    ensures Inv(After(inputs, lim), lim)
  {
    InitialInv(lim);
    FromKeepsInv(Initial(), inputs, lim);
  }

  // ----- coherence -----

  /** At every scheduling point the registry's live bindings are exactly the boundary's, each has an
      operation with the identical binding, the bounds and the replay order hold, and only the lock's
      holder is past the lock. */
  lemma LayersAgree(inputs: seq<Input>, lim: Limits)
    ensures var s := After(inputs, lim);
            && (forall b :: b in s.registry.live <==> b.requestId in s.bindings && s.bindings[b.requestId] == b)
            && (forall id :: id in s.bindings ==> s.bindings[id].requestId == id)
            && (forall id :: id in s.bindings ==> id in s.operations && s.operations[id].binding == s.bindings[id])
            && |s.registry.live| <= lim.maxLive
            && s.registry.recent == Last(s.registry.finished, lim.maxRecent)
            && (forall id :: id in s.operations && s.operations[id].phase != Waiting ==> s.lock == Some(id))
  {
    Reachable(inputs, lim);
    var s := After(inputs, lim);
    forall id | id in s.operations && s.operations[id].phase != Waiting ensures s.lock == Some(id) {
      assert Placed(s, id);
    }
  }

  // ----- paths -----

  lemma {:induction false} OfSplit(log: seq<Event>, i: nat)
    requires i < |log|
    ensures var n := log[i].serial; Of(log, n) == Of(log[..i], n) + [log[i]] + Of(log[i + 1..], n)
  {
    var n := log[i].serial;
    var before := log[..i + 1];
    assert log == before + log[i + 1..];
    OfAppend(before, log[i + 1..], n);
    assert before[..|before| - 1] == log[..i] && before[|before| - 1] == log[i];
  }

  predicate Executed(p: seq<Event>, n: nat) {
    p == [Event.Allowed(n), Ruled(n, Granted), Cleared(n), Audited(n, Start, true), ExecutorCreated(n)]
  }

  /** Every path is that of an operation in its phase, or that of an answered request. */
  predicate Lawful(p: seq<Event>, n: nat) {
    p == [] || p == [Event.Allowed(n)] || Executed(p, n) || Complete(p, n)
  }

  lemma PathsAreLawful(inputs: seq<Input>, lim: Limits, n: nat)
    ensures Lawful(Of(After(inputs, lim).log, n), n)
  {
    Reachable(inputs, lim);
    var s := After(inputs, lim);
    if n < s.next {
      assert Traced(s, n);
      if id :| id in s.operations && s.operations[id].serial == n {
        assert Of(s.log, n) == Path(s.operations[id]);
      }
    } else {
      assert Of(s.log, n) == [];
    }
  }

  lemma CreatedComesFifth(p: seq<Event>, n: nat, k: nat)
    requires Lawful(p, n) && k < |p| && p[k].ExecutorCreated?
    ensures Executed(p[..k + 1], n)
  {
    if Complete(p, n) {
      var q := p[..|p| - 1];
      assert q[k] == p[k];
      if ExecutedPath(q, n, p[|p| - 1].live, p[|p| - 1].answer) {
        assert q[..5][k] == ExecutorCreated(n);
        assert p[..k + 1] == q[..5];
      }
    } else {
      assert p[..k + 1] == p;
    }
  }

  /** Gate order: an executor task is created only after, for the same request and in this order, the
      policy said yes, the authorization succeeded, the last checkpoint was passed, and the `started`
      record was accepted; and at most once. */
  lemma GateOrder(inputs: seq<Input>, lim: Limits, i: nat)
    requires i < |After(inputs, lim).log| && After(inputs, lim).log[i].ExecutorCreated?
    ensures var s := After(inputs, lim);
            var n := s.log[i].serial;
            Of(s.log[..i], n) == [Event.Allowed(n), Ruled(n, Granted), Cleared(n), Audited(n, Start, true)]
  {
    var s := After(inputs, lim);
    var n := s.log[i].serial;
    PathsAreLawful(inputs, lim, n);
    OfSplit(s.log, i);
    var p, k := Of(s.log, n), |Of(s.log[..i], n)|;
    CreatedComesFifth(p, n, k);
    assert p[..k + 1] == Of(s.log[..i], n) + [s.log[i]];
    assert Of(s.log[..i], n) == p[..k + 1][..k];
  }

  /** Each admitted request is either in progress under one operation, with the path of its phase, or
      gone with one complete path that ends in its only answer. */
  lemma EveryRequestIsTraced(inputs: seq<Input>, lim: Limits, n: nat)
    requires n < After(inputs, lim).next
    ensures var s := After(inputs, lim);
            if exists id :: id in s.operations && s.operations[id].serial == n
            then forall id :: id in s.operations && s.operations[id].serial == n ==> Of(s.log, n) == Path(s.operations[id])
            else Complete(Of(s.log, n), n)
  {
    Reachable(inputs, lim);
    assert Traced(After(inputs, lim), n);
  }

  lemma NoAnswerBefore(p: seq<Event>, n: nat, live: bool, answer: Option<ProductionStatus>, k: nat)
    requires EndedWith(p, n, live, answer) && k < |p|
    ensures !p[k].Answered?
  {
    if RefusedPath(p, n, live, answer) {
      if k < |p| - 1 { assert p[..|p| - 1][k] == p[k]; }
    } else if ExecutedPath(p, n, live, answer) {
      if k < 5 { assert p[..5][k] == p[k]; }
    }
  }

  lemma AnswerComesLast(p: seq<Event>, n: nat, k: nat)
    requires Lawful(p, n) && k < |p| && p[k].Answered?
    ensures k == |p| - 1 && Complete(p, n)
  {
    if Complete(p, n) && k < |p| - 1 {
      NoAnswerBefore(p[..|p| - 1], n, p[|p| - 1].live, p[|p| - 1].answer, k);
    }
  }

  /** Every answer is exactly what the path before it makes of it, for a live request and for one that is not:
      with `GateOrder`, `RefusalsHaveCauses` and the definition of the three kinds of paths, this says for every
      request which status it gets, and when it gets none. */
  lemma AnswersAreExact(inputs: seq<Input>, lim: Limits, i: nat)
    requires i < |After(inputs, lim).log| && After(inputs, lim).log[i].Answered?
    ensures var log := After(inputs, lim).log;
            EndedWith(Of(log[..i], log[i].serial), log[i].serial, log[i].live, log[i].answer)
  {
    var s := After(inputs, lim);
    var n := s.log[i].serial;
    PathsAreLawful(inputs, lim, n);
    OfSplit(s.log, i);
    var p, k := Of(s.log, n), |Of(s.log[..i], n)|;
    AnswerComesLast(p, n, k);
    assert p[..|p| - 1] == Of(s.log[..i], n);
  }

  /** What the history of request `n` says before it is answered with `status`: a success only after an
      execution that succeeded and an accepted terminal record; any other answer but `failed` is that of
      an accepted record; `failed` is a failed execution or a terminal record that was not accepted. */
  ghost predicate Justifies(p: seq<Event>, n: nat, status: ProductionStatus) {
    && p != []
    && (status == Succeeded ==>
          p == [Event.Allowed(n), Ruled(n, Granted), Cleared(n), Audited(n, Start, true), ExecutorCreated(n),
                ExecutorDone(n, Some(Succeeded), true), Audited(n, End(Succeeded), true)])
    && (status != Failed ==> p[|p| - 1] in {Audited(n, Refusal(status), true), Audited(n, End(status), true)})
    && (status == Failed ==>
          p[|p| - 1] == Audited(n, End(Failed), true) || (exists r :: p[|p| - 1] == Audited(n, End(r), false)))
  }

  lemma EndJustifies(p: seq<Event>, n: nat, live: bool, status: ProductionStatus)
    requires EndedWith(p, n, live, Some(status))
    ensures Justifies(p, n, status)
  {
    if ExecutedPath(p, n, live, Some(status)) {
      assert p == p[..5] + [p[5], p[6]];
    }
  }

  lemma AnswersAreRecorded(inputs: seq<Input>, lim: Limits, i: nat)
    requires i < |After(inputs, lim).log|
    requires After(inputs, lim).log[i].Answered? && After(inputs, lim).log[i].answer.Some?
    ensures var log := After(inputs, lim).log;
            Justifies(Of(log[..i], log[i].serial), log[i].serial, log[i].answer.value)
  {
    var log := After(inputs, lim).log;
    AnswersAreExact(inputs, lim, i);
    EndJustifies(Of(log[..i], log[i].serial), log[i].serial, log[i].live, log[i].answer.value);
  }

  // ----- the bracket -----

  /** The reading of a prefix of the history, and of the rest from there. */
  lemma ScanSplits(s: Service, lim: Limits, i: nat)
    requires Inv(s, lim) && i < |s.log|
    ensures !Scan(s.log[..i]).Broken? && !Read(Scan(s.log[..i]), s.log[i]).Broken?
    ensures !ReadAll(Read(Scan(s.log[..i]), s.log[i]), s.log[i + 1..]).Broken?
  {
    var start := Bracket(None, -1);
    var rest := s.log[i..];
    assert s.log == s.log[..i] + rest;
    ReadAllConcat(start, s.log[..i], rest);
    assert rest[0] == s.log[i] && rest[1..] == s.log[i + 1..];
    if Scan(s.log[..i]).Broken? {
      BrokenStays(rest);
    } else if Read(Scan(s.log[..i]), s.log[i]).Broken? {
      BrokenStays(rest[1..]);
    }
  }

  /** Audit bracketing and serialization: after an accepted `started` record, nobody's `started` attempt
      and no other request's executor follows before that request's terminal attempt. */
  lemma StartsDoNotOverlap(inputs: seq<Input>, lim: Limits, i: nat, j: nat)
    requires i < j < |After(inputs, lim).log|
    requires var log := After(inputs, lim).log;
             && log[i].Audited? && log[i].record.Start? && log[i].accepted
             && ((log[j].Audited? && log[j].record.Start?) || (log[j].ExecutorCreated? && log[j].serial != log[i].serial))
    ensures var log := After(inputs, lim).log;
            exists k :: i < k < j && log[k].Audited? && log[k].record.End? && log[k].serial == log[i].serial
  {
    Reachable(inputs, lim);
    var s := After(inputs, lim);
    ScanSplits(s, lim, i);
    var begun, rest := Read(Scan(s.log[..i]), s.log[i]), s.log[i + 1..];
    assert begun.open == Some(s.log[i].serial) && rest[j - i - 1] == s.log[j];
    if s.log[j].Audited? {
      OpenUntilEnd(begun, rest, j - i - 1);
    } else {
      OpenUntilEndCreated(begun, rest, j - i - 1);
    }
    var k :| 0 <= k < j - i - 1 && rest[k].Audited? && rest[k].record.End? && rest[k].serial == s.log[i].serial;
    assert s.log[i + 1 + k] == rest[k];
  }

  /** First come, first served: starts are attempted in the order of submission. */
  lemma StartsKeepOrder(inputs: seq<Input>, lim: Limits, i: nat, j: nat)
    requires i < j < |After(inputs, lim).log|
    requires var log := After(inputs, lim).log;
             log[i].Audited? && log[i].record.Start? && log[j].Audited? && log[j].record.Start?
    ensures After(inputs, lim).log[i].serial < After(inputs, lim).log[j].serial
  {
    Reachable(inputs, lim);
    var s := After(inputs, lim);
    ScanSplits(s, lim, i);
    var read, rest := Read(Scan(s.log[..i]), s.log[i]), s.log[i + 1..];
    assert read.last == s.log[i].serial && rest[j - i - 1] == s.log[j];
    LastGrows(read, rest, j - i - 1);
  }
}
