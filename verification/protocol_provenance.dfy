/** Where each order comes from: the thread that posted it, and the measurement that thread's call began with. */
module ProtocolProvenance {
  import opened Text
  import opened Protocol
  import opened ProtocolTheorems

  function PhaseAt(n: nat, events: seq<Event>, q: nat, t: nat): Phase
    requires q <= |events|
  {
    var s := Exec(n, events[..q]);
    if s.At(t) then s.threads[t] else Idle
  }

  predicate Serves(phase: Phase, call: Call) {
    !phase.Idle? && phase.call == call
  }

  /**
   * The `m`-th event is a measurement of thread `t`, which was idle, that led to
   * this call, and the thread has been busy with the call ever since, up to the
   * state before event `p`.
   */
  ghost predicate Serving(n: nat, events: seq<Event>, t: nat, m: nat, p: nat, call: Call) {
    && m < p <= |events|
    && events[m].Measure? && events[m].t == t && CallFor(events[m]) == Some(call)
    && PhaseAt(n, events, m, t).Idle?
    && Busy(n, events, t, m, p, call)
  }

  /** In every state after event `m`, up to the one before event `p`, the thread has this call. */
  ghost predicate Busy(n: nat, events: seq<Event>, t: nat, m: nat, p: nat, call: Call)
    requires p <= |events|
  {
    forall q: nat | m < q <= p :: Serves(PhaseAt(n, events, q, t), call)
  }

  /** A thread begins a call by measuring, and goes on with the same call until it is idle again. */
  lemma StepServes(s: State, e: Event, t: nat)
    requires s.At(t) && !Step(s, e).threads[t].Idle?
    ensures s.threads[t].Idle? ==> e.Measure? && e.t == t && CallFor(e) == Some(Step(s, e).threads[t].call)
    ensures !s.threads[t].Idle? ==> Step(s, e).threads[t].call == s.threads[t].call
  {
  }

  lemma StepKeepsThreads(s: State, e: Event)
    ensures |Step(s, e).threads| == |s.threads|
  {
  }

  /** A run and its continuation agree on every step of the run. */
  lemma PhaseEarlier(n: nat, events: seq<Event>, more: seq<Event>, q: nat, t: nat)
    requires q <= |events|
    ensures PhaseAt(n, events + more, q, t) == PhaseAt(n, events, q, t)
  {
    assert (events + more)[..q] == events[..q];
  }

  lemma PhaseNow(n: nat, events: seq<Event>, q: nat, t: nat)
    requires q == |events|
    ensures PhaseAt(n, events, q, t) == if Exec(n, events).At(t) then Exec(n, events).threads[t] else Idle
  {
    assert events[..q] == events;
  }

  lemma ServingOn(n: nat, events: seq<Event>, more: seq<Event>, t: nat, m: nat, p: nat, call: Call)
    requires Serving(n, events, t, m, p, call)
    ensures Serving(n, events + more, t, m, p, call)
  {
    PhaseEarlier(n, events, more, m, t);
    forall q | m < q <= p
      ensures Serves(PhaseAt(n, events + more, q, t), call)
    {
      PhaseEarlier(n, events, more, q, t);
    }
  }

  lemma BusyNext(n: nat, events: seq<Event>, t: nat, m: nat, q: nat, p: nat, call: Call)
    requires q < p <= |events| && p == q + 1 && Busy(n, events, t, m, q, call)
    requires Serves(PhaseAt(n, events, p, t), call)
    ensures Busy(n, events, t, m, p, call)
  {
    forall r: nat | m < r <= p
      ensures Serves(PhaseAt(n, events, r, t), call)
    {
      if r <= q {
        assert Serves(PhaseAt(n, events, r, t), call);
      } else {
        assert r == p;
      }
    }
  }

  /** A thread still busy with its call goes on serving it. */
  lemma ServingNext(n: nat, events: seq<Event>, t: nat, m: nat, q: nat, p: nat, call: Call)
    requires Serving(n, events, t, m, q, call) && p == q + 1 <= |events|
    requires Serves(PhaseAt(n, events, p, t), call)
    ensures Serving(n, events, t, m, p, call)
  {
    BusyNext(n, events, t, m, q, p, call);
  }

  lemma ServingBegins(n: nat, events: seq<Event>, t: nat, m: nat, p: nat, call: Call)
    requires p == m + 1 <= |events| && PhaseAt(n, events, m, t).Idle? && Serves(PhaseAt(n, events, p, t), call)
    requires events[m].Measure? && events[m].t == t && CallFor(events[m]) == Some(call)
    ensures Serving(n, events, t, m, p, call)
  {
    BusyNext(n, events, t, m, m, p, call);
  }

  /** Every busy thread is busy with a call it has measured itself. */
  lemma {:induction false} BusyServes(n: nat, events: seq<Event>, t: nat, p: nat) returns (m: nat)
    requires Exec(n, events).At(t) && !Exec(n, events).threads[t].Idle? && p == |events|
    ensures Serving(n, events, t, m, p, Exec(n, events).threads[t].call)
  {
    if events == [] {
      assert false;
    } else {
      var q, call := |events| - 1, Exec(n, events).threads[t].call;
      var front, last := events[..q], events[q];
      LastApart(events);
      StepKeepsThreads(Exec(n, front), last);
      StepServes(Exec(n, front), last, t);
      PhaseNow(n, events, p, t);
      PhaseNow(n, front, q, t);
      PhaseEarlier(n, front, [last], q, t);
      if Exec(n, front).threads[t].Idle? {
        m := q;
        ServingBegins(n, events, t, m, p, call);
      } else {
        m := BusyServes(n, front, t, q);
        ServingOn(n, front, [last], t, m, q, call);
        ServingNext(n, events, t, m, q, p, call);
      }
    }
  }

  lemma BusyServesBefore(n: nat, events: seq<Event>, t: nat, p: nat, call: Call) returns (m: nat)
    requires p <= |events| && Serves(PhaseAt(n, events, p, t), call)
    ensures Serving(n, events, t, m, p, call)
  {
    var front, rest := events[..p], events[p..];
    assert front + rest == events;
    m := BusyServes(n, front, t, p);
    ServingOn(n, front, rest, t, m, p, call);
  }

  /** Event `p` is the post that caused the `i`-th order, confirmed or not. */
  ghost predicate Causes(n: nat, events: seq<Event>, p: nat, i: nat, o: Order) {
    && p < |events| && (events[p].PostSucceeds? || events[p].PostRaises?)
    && PhaseAt(n, events, p, events[p].t) == Posting(o.call)
    && Exec(n, events[..p]).ledger + [o] == Exec(n, events[..p + 1]).ledger
    && |Exec(n, events[..p]).ledger| == i
    && (if events[p].PostSucceeds? then o.confirmed else events[p].applied && !o.confirmed)
  }

  lemma StepCauses(s: State, e: Event)
    ensures Step(s, e).ledger == s.ledger || exists o ::
      && Step(s, e).ledger == s.ledger + [o]
      && (e.PostSucceeds? || e.PostRaises?) && s.At(e.t) && s.threads[e.t] == Posting(o.call)
      && (if e.PostSucceeds? then o.confirmed else e.applied && !o.confirmed)
  {
    match e {
      case PostSucceeds(t, _) =>
        assert s.At(t) && s.threads[t].Posting? ==> Step(s, e).ledger == s.ledger + [Order(s.threads[t].call, true)];
      case PostRaises(t, applied) =>
        assert s.At(t) && s.threads[t].Posting? && applied ==>
            Step(s, e).ledger == s.ledger + [Order(s.threads[t].call, false)];
      case _ =>
    }
  }

  lemma {:induction false} OrderIsCaused(n: nat, events: seq<Event>, i: nat) returns (p: nat)
    requires i < |Exec(n, events).ledger|
    ensures Causes(n, events, p, i, Exec(n, events).ledger[i])
  {
    if events == [] {
      assert false;
    } else {
      p := |events| - 1;
      var front, last := events[..p], events[p];
      var s := Exec(n, front);
      StepCauses(s, last);
      assert events[..p + 1] == events;
      if i < |s.ledger| {
        p := OrderIsCaused(n, front, i);
        assert events[..p] == front[..p] && events[..p + 1] == front[..p + 1];
      }
    }
  }

  /**
   * The `i`-th order was caused by post `p` of the thread that made measurement
   * `m`, in the call this measurement began.
   */
  ghost predicate OrderOf(n: nat, events: seq<Event>, i: nat, m: nat, p: nat) {
    && i < |Exec(n, events).ledger|
    && Causes(n, events, p, i, Exec(n, events).ledger[i])
    && Serving(n, events, events[p].t, m, p, Exec(n, events).ledger[i].call)
  }

  /** The readings of the measurement allow exactly this order. */
  ghost predicate Justifies(e: Event, call: Call) {
    && e.Measure? && CallFor(e) == Some(call)
    && e.onHand.Some? && e.onHand.value >= 0
    && call.quantity == Sum(e.rows) - e.onHand.value && call.quantity >= 7
  }

  /**
   * Every order at the upstream, in every run, was posted by a thread within a
   * call that the same thread had begun with a measurement: it is for the till
   * units of that measurement less the stock it read, which was known and not
   * negative, and for seven units or more.
   */
  lemma OrderProvenance(n: nat, events: seq<Event>, i: nat) returns (m: nat, p: nat)
    requires i < |Exec(n, events).ledger|
    ensures OrderOf(n, events, i, m, p) && Justifies(events[m], Exec(n, events).ledger[i].call)
  {
    p := OrderIsCaused(n, events, i);
    var call := Exec(n, events).ledger[i].call;
    m := BusyServesBefore(n, events, events[p].t, p, call);
    CallIsPolicy(events[m], call);
  }

  /* --------------------------------------- one order for each measurement */

  function Rank(phase: Phase): nat {
    match phase
    case Idle => 0
    case Waiting(_) => 1
    case Checking(_) => 2
    case Posting(_) => 3
    case Answered(_, _) => 4
    case Reporting(_, _) => 5
  }

  /** A call never goes back; its post is over once it has ended. */
  lemma StepAdvances(s: State, e: Event, t: nat)
    requires s.At(t) && !Step(s, e).threads[t].Idle?
    ensures Rank(s.threads[t]) <= Rank(Step(s, e).threads[t])
    ensures (e.PostSucceeds? || e.PostRaises?) && e.t == t && s.threads[t].Posting?
      ==> Rank(s.threads[t]) < Rank(Step(s, e).threads[t])
  {
  }

  /** Event `p` ends a post of thread `t`. */
  predicate Posts(n: nat, events: seq<Event>, p: nat, t: nat) {
    && p < |events| && (events[p].PostSucceeds? || events[p].PostRaises?) && events[p].t == t
    && PhaseAt(n, events, p, t).Posting?
  }

  lemma PhaseAdvances(n: nat, events: seq<Event>, t: nat, a: nat, b: nat)
    requires b == a + 1 <= |events| && !PhaseAt(n, events, b, t).Idle?
    ensures Rank(PhaseAt(n, events, a, t)) <= Rank(PhaseAt(n, events, b, t))
    ensures Posts(n, events, a, t) ==> Rank(PhaseAt(n, events, a, t)) < Rank(PhaseAt(n, events, b, t))
  {
    var s := Exec(n, events[..a]);
    assert events[..b][..a] == events[..a];
    StepKeepsThreads(s, events[a]);
    StepAdvances(s, events[a], t);
  }

  lemma {:induction false} BusyAdvances(n: nat, events: seq<Event>, t: nat, m: nat, p: nat, call: Call, a: nat, b: nat)
    requires p <= |events| && Busy(n, events, t, m, p, call) && m <= a <= b <= p
    ensures Rank(PhaseAt(n, events, a, t)) <= Rank(PhaseAt(n, events, b, t))
    decreases b
  {
    if a < b {
      var before := b - 1;
      BusyAdvances(n, events, t, m, p, call, a, before);
      assert Serves(PhaseAt(n, events, b, t), call);
      PhaseAdvances(n, events, t, before, b);
    }
  }

  /** Within one call a post that has ended is the only one. */
  lemma PostsOnce(n: nat, events: seq<Event>, t: nat, m: nat, p: nat, q: nat, call: Call)
    requires q <= |events| && Busy(n, events, t, m, q, call) && m < p < q && Posts(n, events, p, t)
    ensures !PhaseAt(n, events, q, t).Posting?
  {
    var next := p + 1;
    assert Serves(PhaseAt(n, events, next, t), call);
    PhaseAdvances(n, events, t, p, next);
    BusyAdvances(n, events, t, m, q, call, next, q);
  }

  /** No measurement leads to two orders. */
  lemma OneOrderPerMeasurement(n: nat, events: seq<Event>, i: nat, j: nat, m: nat, p: nat, q: nat)
    requires OrderOf(n, events, i, m, p) && OrderOf(n, events, j, m, q)
    ensures i == j && p == q
  {
    var ledger, t := Exec(n, events).ledger, events[m].t;
    OrderPosts(n, events, i, m, p, ledger[i].call);
    OrderPosts(n, events, j, m, q, ledger[j].call);
    if p < q {
      PostsOnce(n, events, t, m, p, q, ledger[j].call);
    } else if q < p {
      PostsOnce(n, events, t, m, q, p, ledger[i].call);
    }
  }

  lemma OrderPosts(n: nat, events: seq<Event>, i: nat, m: nat, p: nat, call: Call)
    requires OrderOf(n, events, i, m, p) && call == Exec(n, events).ledger[i].call
    ensures m < p && Posts(n, events, p, events[m].t) && Busy(n, events, events[m].t, m, p, call)
    ensures |Exec(n, events[..p]).ledger| == i
  {
  }
}
