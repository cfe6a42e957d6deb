/** The history of the service: the path of one request through it, and the bracket that the audit
    records of one request form around its execution. */
module ServiceHistory {
  import opened Common
  import opened ProductionProtocol
  import opened ServiceModel

  // ----- the events of one request -----

  /** The events with one serial number, in order. */
  function Of(log: seq<Event>, n: nat): (r: seq<Event>)
    ensures |r| <= |log|
  {
    if log == [] then []
    else
      var e := log[|log| - 1];
      Of(log[..|log| - 1], n) + if e.serial == n then [e] else []
  }

  lemma OfAppend(a: seq<Event>, b: seq<Event>, n: nat)
    ensures Of(a + b, n) == Of(a, n) + Of(b, n)
  {
    if b == [] {
      assert a + b == a;
    } else {
      var all := a + b;
      assert all[..|all| - 1] == a + b[..|b| - 1] && all[|all| - 1] == b[|b| - 1];
      OfAppend(a, b[..|b| - 1], n);
    }
  }

  /** Events of one serial number only. */
  ghost predicate AllOf(b: seq<Event>, n: nat) {
    forall i :: 0 <= i < |b| ==> b[i].serial == n
  }

  lemma OfOwn(b: seq<Event>, n: nat, k: nat)
    requires AllOf(b, n)
    ensures Of(b, k) == if k == n then b else []
  {
    if b != [] {
      OfOwn(b[..|b| - 1], n, k);
      assert b == b[..|b| - 1] + [b[|b| - 1]];
    }
  }

  /** Appending events of request `n` extends its path and no other. */
  lemma OfNoted(log: seq<Event>, b: seq<Event>, n: nat)
    requires AllOf(b, n)
    ensures Of(log + b, n) == Of(log, n) + b
    ensures forall k: nat {:trigger Of(log + b, k)} :: k != n ==> Of(log + b, k) == Of(log, k)
  {
    OfAppend(log, b, n);
    OfOwn(b, n, n);
    forall k: nat | k != n ensures Of(log + b, k) == Of(log, k) {
      OfAppend(log, b, k);
      OfOwn(b, n, k);
    }
  }

  // ----- the paths -----

  /** What lies behind a request in each phase. */
  function Path(op: Operation): seq<Event> {
    if op.phase.Executing?
    then [Allowed(op.serial), Ruled(op.serial, Granted), Cleared(op.serial), Audited(op.serial, Start, true),
          ExecutorCreated(op.serial)]
    else [Allowed(op.serial)]
  }

  /** The way to a stop before execution: at the lock, while authorizing, or at the last checkpoint. */
  predicate StoppedAt(p: seq<Event>, n: nat, timedOut: bool) {
    || p == [Allowed(n), Interrupted(n, timedOut)]
    || p == [Allowed(n), Ruled(n, Withdrawn), Interrupted(n, timedOut)]
    || p == [Allowed(n), Ruled(n, Granted), Interrupted(n, timedOut)]
  }

  /** Why a request is refused with this status: the policy did not let it pass, the authorizer refused it, or
      its token stopped it for this reason. */
  predicate Cause(p: seq<Event>, n: nat, status: ProductionStatus) {
    || (p == [] && status == Rejected)
    || (p == [Allowed(n), Ruled(n, Refused)] && status == Denied)
    || (StoppedAt(p, n, true) && status == TimedOut)
    || (StoppedAt(p, n, false) && status == Cancelled)
  }

  /** Refused before execution; a live request is answered with the status exactly if that was recorded. */
  predicate RefusedPath(p: seq<Event>, n: nat, live: bool, answer: Option<ProductionStatus>) {
    && p != []
    && var last := p[|p| - 1];
       && last.Audited? && last.record.Refusal? && last.serial == n
       && Cause(p[..|p| - 1], n, last.record.status)
       && answer == if live && last.accepted then Some(last.record.status) else None
  }

  /** The `started` record was not accepted. */
  predicate UnstartedPath(p: seq<Event>, n: nat, answer: Option<ProductionStatus>) {
    p == [Allowed(n), Ruled(n, Granted), Cleared(n), Audited(n, Start, false)] && answer == None
  }

  /** Executed. The terminal record says how: what the executor returned, or `failed`. A live request is
      answered `failed` if the record was not accepted or nothing was returned, and otherwise with the result
      if that fits the wire. */
  predicate ExecutedPath(p: seq<Event>, n: nat, live: bool, answer: Option<ProductionStatus>) {
    && |p| == 7
    && p[..5] == [Allowed(n), Ruled(n, Granted), Cleared(n), Audited(n, Start, true), ExecutorCreated(n)]
    && p[5].ExecutorDone? && p[5].serial == n
    && p[6].Audited? && p[6] == Audited(n, End(if p[5].result.Some? then p[5].result.value else Failed), p[6].accepted)
    && answer == if !live then None
                 else if !p[6].accepted || p[5].result.None? then Some(Failed)
                 else if p[5].fits then p[5].result
                 else None
  }

  predicate EndedWith(p: seq<Event>, n: nat, live: bool, answer: Option<ProductionStatus>) {
    RefusedPath(p, n, live, answer) || UnstartedPath(p, n, answer) || ExecutedPath(p, n, live, answer)
  }

  /** What the dispatcher returns goes to a live request; another gets nothing. */
  predicate Concludes(p: seq<Event>, n: nat, answer: Option<ProductionStatus>) {
    EndedWith(p, n, true, answer) && EndedWith(p, n, false, None)
  }

  /** The whole life of an answered request. */
  predicate Complete(p: seq<Event>, n: nat) {
    && p != []
    && p[|p| - 1].Answered? && p[|p| - 1].serial == n
    && EndedWith(p[..|p| - 1], n, p[|p| - 1].live, p[|p| - 1].answer)
  }

  // ----- the bracket -----

  /** Reading the history from left to right: the request whose bracket is open, and the last one that
      tried to start. */
  datatype Bracket = Bracket(open: Option<nat>, last: int) | Broken

  function Read(b: Bracket, e: Event): Bracket {
    if b.Broken? then Broken
    else
      match e
      case Audited(n, Start, accepted) =>
        if b.open.None? && b.last < n then Bracket(if accepted then Some(n) else None, n) else Broken
      case Audited(n, End(_), _) => if b.open == Some(n) then b.(open := None) else Broken
      case ExecutorCreated(n) => if b.open == Some(n) then b else Broken
      case ExecutorDone(n, _, _) => if b.open == Some(n) then b else Broken
      case _ => b
  }

  function ReadAll(b: Bracket, es: seq<Event>): Bracket
    decreases |es|
  {
    if es == [] then b else ReadAll(Read(b, es[0]), es[1..])
  }

  function Scan(log: seq<Event>): Bracket {
    ReadAll(Bracket(None, -1), log)
  }

  lemma {:induction false} ReadAllConcat(b: Bracket, x: seq<Event>, y: seq<Event>)
    ensures ReadAll(b, x + y) == ReadAll(ReadAll(b, x), y)
    decreases |x|
  {
    if x == [] {
      assert x + y == y;
    } else {
      var all := x + y;
      assert all[0] == x[0] && all[1..] == x[1..] + y;
      ReadAllConcat(Read(b, x[0]), x[1..], y);
    }
  }

  lemma ReadOne(b: Bracket, e: Event)
    ensures ReadAll(b, [e]) == Read(b, e)
  {
    var es := [e];
    assert es[1..] == [];
  }

  lemma ReadTwo(b: Bracket, e: Event, f: Event)
    ensures ReadAll(b, [e, f]) == Read(Read(b, e), f)
  {
    assert [e, f] == [e] + [f];
    ReadAllConcat(b, [e], [f]);
    ReadOne(b, e);
    ReadOne(Read(b, e), f);
  }

  lemma {:induction false} BrokenStays(es: seq<Event>)
    ensures ReadAll(Broken, es) == Broken
    decreases |es|
  {
    if es != [] {
      BrokenStays(es[1..]);
    }
  }

  /** While a bracket is open, nobody else starts or runs until the bracket's terminal record. */
  lemma {:induction false} OpenUntilEnd(b: Bracket, es: seq<Event>, j: nat)
    requires !b.Broken? && b.open.Some? && j < |es| && !ReadAll(b, es).Broken?
    requires es[j].Audited? && es[j].record.Start?
    ensures exists k :: 0 <= k < j && es[k].Audited? && es[k].record.End? && es[k].serial == b.open.value
    decreases |es|
  {
    var next := Read(b, es[0]);
    if next.Broken? {
      BrokenStays(es[1..]);
    } else if next.open == b.open {
      assert j > 0;
      OpenUntilEnd(next, es[1..], j - 1);
      var k :| 0 <= k < j - 1 && es[1..][k].Audited? && es[1..][k].record.End? && es[1..][k].serial == b.open.value;
      assert es[k + 1] == es[1..][k];
    }
  }

  lemma {:induction false} OpenUntilEndCreated(b: Bracket, es: seq<Event>, j: nat)
    requires !b.Broken? && b.open.Some? && j < |es| && !ReadAll(b, es).Broken?
    requires es[j].ExecutorCreated? && es[j].serial != b.open.value
    ensures exists k :: 0 <= k < j && es[k].Audited? && es[k].record.End? && es[k].serial == b.open.value
    decreases |es|
  {
    var next := Read(b, es[0]);
    if next.Broken? {
      BrokenStays(es[1..]);
    } else if next.open == b.open {
      assert j > 0;
      OpenUntilEndCreated(next, es[1..], j - 1);
      var k :| 0 <= k < j - 1 && es[1..][k].Audited? && es[1..][k].record.End? && es[1..][k].serial == b.open.value;
      assert es[k + 1] == es[1..][k];
    }
  }

  lemma {:induction false} LastGrows(b: Bracket, es: seq<Event>, j: nat)
    requires !b.Broken? && j < |es| && !ReadAll(b, es).Broken?
    requires es[j].Audited? && es[j].record.Start?
    ensures b.last < es[j].serial
    decreases |es|
  {
    var next := Read(b, es[0]);
    if next.Broken? {
      BrokenStays(es[1..]);
    } else if j > 0 {
      LastGrows(next, es[1..], j - 1);
    }
  }
}
