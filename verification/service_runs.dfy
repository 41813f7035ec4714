/** One whole call of the ordering service, as a run of the write protocol. */
module ServiceRuns {
  import opened Text
  import opened Idempotency
  import opened Protocol
  import opened ProtocolTheorems

  /** The process's one thread is in this phase and the lock is free. */
  predicate Rests(s: State, phase: Phase) {
    s.threads == [phase] && s.lock == None
  }

  /** The post and what follows it, for a key that was not recorded. */
  function PostEvents(reply: Reply, applied: bool): seq<Event> {
    match reply
    case Answers(response) => [PostSucceeds(0, response), Record(0)]
    case Raises => [PostRaises(0, applied)]
  }

  /** The order the post leaves at the upstream. */
  function Ordered(call: Call, reply: Reply, applied: bool): seq<Order> {
    if reply.Answers? then [Order(call, true)] else if applied then [Order(call, false)] else []
  }

  function ReportEvent(written: bool, raised: bool): Event {
    if raised then ReportFails(0, written) else Report(0)
  }

  lemma MeasureRun(s: State, measured: Event)
    requires Rests(s, Idle) && measured.Measure? && measured.t == 0 && CallFor(measured).Some?
    ensures Run(s, [measured]) == s.(threads := [Waiting(CallFor(measured).value)])
  {
    RunOne(s, measured);
  }

  /** Take the lock and look the key up. */
  const LOOKUP := [Acquire(0), Lookup(0)]

  lemma LookupRun(s: State, call: Call)
    requires Rests(s, Waiting(call))
    ensures Run(s, LOOKUP) == Step(s.(threads := [Checking(call)], lock := Some(0)), Lookup(0))
  {
    RunTwo(s, Acquire(0), Lookup(0));
  }

  lemma ReplayRun(s: State, call: Call)
    requires Rests(s, Waiting(call)) && call.key in s.results
    ensures
      var s', entry := Run(s, LOOKUP), s.results[call.key];
      && Rests(s', Reporting(call, OperationResult(Duplicate, call.key, entry.response, entry.recordedAt)))
      && s'.results == s.results && s'.clock == s.clock && s'.ledger == s.ledger && s'.audit == s.audit
  {
    LookupRun(s, call);
  }

  lemma PostRun(s: State, call: Call, reply: Reply, applied: bool)
    requires s.threads == [Posting(call)] && s.lock == Some(0) && call.key !in s.results
    ensures
      var s' := Run(s, PostEvents(reply, applied));
      var (results, executed) := ExecuteLocked(s.results, call.key, reply, s.clock);
      && s'.threads == [if executed.Returned? then Reporting(call, executed.result) else Idle]
      && s'.lock == None && s'.results == results && s'.clock == s.clock
      && s'.ledger == s.ledger + Ordered(call, reply, applied) && s'.audit == s.audit
  {
    match reply {
      case Answers(response) => RunTwo(s, PostSucceeds(0, response), Record(0));
      case Raises => RunOne(s, PostRaises(0, applied));
    }
  }

  lemma ReportRun(s: State, call: Call, result: OperationResult, written: bool, raised: bool)
    requires Rests(s, Reporting(call, result)) && (!raised ==> written)
    ensures
      var s' := Run(s, [ReportEvent(written, raised)]);
      && Rests(s', Idle) && s'.results == s.results && s'.clock == s.clock && s'.ledger == s.ledger
      && s'.audit == s.audit + (if written then [OrderRaised(call, result)] else [])
  {
    RunOne(s, ReportEvent(written, raised));
    assert written || s.audit + [] == s.audit;
  }

  /** The events of one call that is to place an order, once it has been measured. */
  function CallEvents(known: bool, reply: Reply, applied: bool, written: bool, raised: bool): seq<Event> {
    if known then LOOKUP + [ReportEvent(written, raised)]
    else LOOKUP + PostEvents(reply, applied) + if reply.Answers? then [ReportEvent(written, raised)] else []
  }

  /** What a call leaves behind: the store as one execution leaves it, the orders it caused and its report. */
  predicate CallLeaves(s: State, s': State, call: Call, reply: Reply, applied: bool, written: bool) {
    var (results, executed) := ExecuteLocked(s.results, call.key, reply, s.clock);
    && Rests(s', Idle) && s'.clock == s.clock && s'.results == results
    && s'.ledger == s.ledger + (if call.key in s.results then [] else Ordered(call, reply, applied))
    && s'.audit == s.audit + (if executed.Returned? && written then [OrderRaised(call, executed.result)] else [])
  }

  lemma CallRun(s: State, call: Call, reply: Reply, applied: bool, written: bool, raised: bool)
    requires Rests(s, Waiting(call)) && (!raised ==> written)
    ensures CallLeaves(s, Run(s, CallEvents(call.key in s.results, reply, applied, written, raised)),
                       call, reply, applied, written)
  {
    var report, s1 := [ReportEvent(written, raised)], Run(s, LOOKUP);
    LookupRun(s, call);
    if call.key in s.results {
      ReplayRun(s, call);
      ReportRun(s1, call, s1.threads[0].result, written, raised);
      RunConcat(s, LOOKUP, report);
    } else {
      PostRun(s1, call, reply, applied);
      RunConcat(s, LOOKUP, PostEvents(reply, applied));
      var s2 := Run(s1, PostEvents(reply, applied));
      if reply.Answers? {
        ReportRun(s2, call, s2.threads[0].result, written, raised);
        RunConcat(s, LOOKUP + PostEvents(reply, applied), report);
      } else {
        assert LOOKUP + PostEvents(reply, applied) + [] == LOOKUP + PostEvents(reply, applied);
      }
    }
  }

  lemma {:induction false} TicksRun(s: State, n: nat)
    ensures Run(s, seq(n, i => Tick)) == s.(clock := s.clock + n)
  {
    if n > 0 {
      TicksRun(s, n - 1);
      assert seq(n, i => Tick)[..n - 1] == seq(n - 1, i => Tick);
    }
  }
}
