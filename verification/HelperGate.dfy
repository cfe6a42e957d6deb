/** The synchronous helper: every request ID is tried once, and nothing runs that was not allowed,
    authorized and announced to the audit first. */
module HelperGate {
  import opened Common
  import opened Json

  datatype HelperStatus = Success | Error | Denied | Cancelled | Timeout

  /** A decoded request, as far as the gates look at it. */
  datatype HelperRequest = HelperRequest(requestId: string, hasAuthorization: bool)

  /** `outcome` of an audit event. */
  datatype Outcome = Invalid | Rejected | Refused | Failed | Started | Ended(status: HelperStatus)

  datatype AuditEvent = AuditEvent(requestId: Option<string>, outcome: Outcome)

  /** What is returned: no typed result for an invalid payload. */
  datatype HelperOutcome = HelperOutcome(result: Option<HelperStatus>, event: AuditEvent)

  /** The answers of the parts that may be missing; an exception counts as a refusal. */
  datatype Answers = Answers(
    policy: Option<bool>, authorizer: Option<bool>, executor: Option<Option<HelperStatus>>, sink: Option<bool>, sinkAtEnd: bool)

  /** The ID is new and everyone who must agree does. */
  predicate Permitted(seen: set<string>, req: HelperRequest, a: Answers) {
    && req.requestId !in seen && req.hasAuthorization
    && a.policy == Some(true) && a.authorizer == Some(true) && a.executor.Some?
  }

  predicate Runs(seen: set<string>, req: HelperRequest, a: Answers) {
    Permitted(seen, req, a) && a.sink == Some(true)
  }

  /** A permitted request that cannot be recorded is an error, others are denied, and whatever it was, an
      untaken terminal record makes it an error. */
  function Reported(seen: set<string>, req: HelperRequest, a: Answers): HelperStatus {
    if a.sink.Some? && !a.sinkAtEnd then Error
    else if !Permitted(seen, req, a) then Denied
    else if !Runs(seen, req, a) || a.executor.value.None? then Error
    else a.executor.value.value
  }

  class PrivilegedHelper {
    var seen: set<string>
    var audit: seq<AuditEvent>
    /** The IDs whose executor was started. */
    ghost var executed: seq<string>

    /** No ID was executed twice, and each execution was announced. */
    ghost predicate Valid()
      reads this
    {
      && Unrepeated(executed)
      && forall id :: id in executed ==> id in seen && AuditEvent(Some(id), Started) in audit
    }

    constructor ()
      ensures Valid() && seen == {} && audit == [] && executed == []
    {
      seen, audit, executed := {}, [], [];
    }

    /** `_record` with a sink that is there or not and takes the event or not. */
    method Record(event: AuditEvent, sink: Option<bool>, requireSink: bool) returns (ok: bool)
      modifies this`audit
      ensures audit == old(audit) + [event]
      ensures ok <==> if sink.None? then !requireSink else sink.value
    {
      audit := audit + [event];
      ok := if sink.None? then !requireSink else sink.value;
    }

    /** `_finish`: a terminal record that is not taken turns any typed result into an error. */
    method Finish(result: Option<HelperStatus>, id: Option<string>, outcome: Outcome, sink: Option<bool>) returns (o: HelperOutcome)
      modifies this`audit
      ensures old(audit) < audit && o.event == audit[|audit| - 1]
      ensures forall e :: e in old(audit) ==> e in audit
      ensures sink == Some(false) ==> o == HelperOutcome(if id.Some? then Some(Error) else result, AuditEvent(id, Failed))
      ensures sink != Some(false) ==> o == HelperOutcome(result, AuditEvent(id, outcome))
    {
      var ok := Record(AuditEvent(id, outcome), sink, false);
      if ok { return HelperOutcome(result, AuditEvent(id, outcome)); }
      audit := audit + [AuditEvent(id, Failed)];
      o := HelperOutcome(if id.Some? then Some(Error) else result, AuditEvent(id, Failed));
    }

    /** `handle` of a decoded payload. The executor runs exactly when the ID is new and every gate is
        open; a success is reported exactly when it then succeeded and the terminal record was taken. */
    method Handle(decoded: Option<HelperRequest>, a: Answers) returns (o: HelperOutcome)
      requires Valid()
      modifies this
      ensures Valid()
      ensures old(audit) < audit && o.event == audit[|audit| - 1]
      ensures seen == old(seen) + if decoded.Some? then {decoded.value.requestId} else {}
      ensures executed == old(executed) + if decoded.Some? && Runs(old(seen), decoded.value, a) then [decoded.value.requestId] else []
      ensures o.result == if decoded.None? then None else Some(Reported(old(seen), decoded.value, a))
      ensures o.result == Some(Success)
              <==> decoded.Some? && Runs(old(seen), decoded.value, a) && a.executor.value == Some(Success) && a.sinkAtEnd
    {
      var end := if a.sink.None? then None else Some(a.sinkAtEnd);
      if decoded.None? {
        o := Finish(None, None, Invalid, end);
        return;
      }
      var req := decoded.value;
      var id := Some(req.requestId);
      if req.requestId in seen {
        o := Finish(Some(Denied), id, Rejected, end);
        return;
      }
      seen := seen + {req.requestId};
      if !req.hasAuthorization {
        o := Finish(Some(Denied), id, Refused, end);
        return;
      }
      if a.policy != Some(true) {
        o := Finish(Some(Denied), id, Rejected, end);
        return;
      }
      if a.authorizer != Some(true) || a.executor.None? {
        o := Finish(Some(Denied), id, Refused, end);
        return;
      }
      if a.sink.None? {
        o := Finish(Some(Error), id, Failed, end);
        return;
      }
      var started := Record(AuditEvent(id, Started), a.sink, true);
      if !started {
        audit := audit + [AuditEvent(id, Failed)];
        return HelperOutcome(Some(Error), AuditEvent(id, Failed));
      }
      assert req.requestId !in executed;
      executed := executed + [req.requestId];
      assert audit[|audit| - 1] == AuditEvent(id, Started);
      assert Valid();
      var result := a.executor.value;
      if result.None? {
        o := Finish(Some(Error), id, Failed, end);
      } else {
        o := Finish(result, id, Ended(result.value), end);
      }
    }

    /** Over any sequence of payloads, no request ID is ever executed twice. */
    method HandleAll(payloads: seq<Option<HelperRequest>>, answers: seq<Answers>) returns (outcomes: seq<HelperOutcome>)
      requires Valid() && |payloads| == |answers|
      modifies this
      ensures Valid() && |outcomes| == |payloads| && old(audit) <= audit
      ensures Unrepeated(executed) && old(executed) <= executed
      ensures forall id :: id in executed[|old(executed)|..] ==> id !in old(seen)
    {
      outcomes := [];
      for i := 0 to |payloads|
        invariant Valid() && |outcomes| == i && old(audit) <= audit && old(seen) <= seen
        invariant old(executed) <= executed
        invariant forall id :: id in executed[|old(executed)|..] ==> id !in old(seen)
      {
        var o := Handle(payloads[i], answers[i]);
        outcomes := outcomes + [o];
      }
    }
  }
}
