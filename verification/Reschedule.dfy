/**
 Reschedule requests to one CPU: smp_request_reschedule on the requesting CPUs and
 smp_reschedule_handler on the target, one atomic access a step.

 A request whose compare-and-swap finds the flag already set returns success without
 sending anything; it relies on the interrupt of the request that set the flag.
 */
module Reschedule {

  /** `winners` threads have set the flag and not yet sent; `losers` have failed to send and
      not yet cleared the flag; `ipis` interrupts are in flight. `behind` counts the requests
      that returned success since the flag was set, without an interrupt of their own; no step
      reads it. The remaining fields are the code's counters, each with the number of events
      that have happened and are not counted yet. */
  datatype Target = Target(
    pending: bool, winners: nat, losers: nat, ipis: nat, behind: nat,
    sent: Count, received: Count, ignored: Count, coalesced: Count)

  datatype Count = Count(counted: nat, due: nat) {
    function Total(): nat { counted + due }
    function Due(): Count { Count(counted, due + 1) }
    function Counted(): Count
      requires due > 0
    {
      Count(counted + 1, due - 1)
    }
  }

  datatype Counter = Sent | Received | Ignored | Coalesced

  function Of(t: Target, c: Counter): Count {
    match c
    case Sent => t.sent
    case Received => t.received
    case Ignored => t.ignored
    case Coalesced => t.coalesced
  }

  datatype Step = Request | SendOk | SendFail | ClearAfterFail | Handle | Increment(counter: Counter)

  /** No request was made yet. */
  predicate Init(t: Target) {
    && !t.pending && t.winners == 0 && t.losers == 0 && t.ipis == 0 && t.behind == 0
    && forall c :: Of(t, c) == Count(0, 0)
  }

  predicate Enabled(t: Target, step: Step) {
    match step
    case Request => true
    case SendOk => t.winners > 0
    case SendFail => t.winners > 0
    case ClearAfterFail => t.losers > 0
    case Handle => t.ipis > 0
    case Increment(c) => Of(t, c).due > 0
  }

  function Do(t: Target, step: Step): Target
    requires Enabled(t, step)
  {
    match step
    case Request =>
      if t.pending then t.(coalesced := t.coalesced.Due(), behind := t.behind + 1)
      else t.(pending := true, winners := t.winners + 1)
    case SendOk => t.(winners := t.winners - 1, ipis := t.ipis + 1, sent := t.sent.Due())
    case SendFail => t.(winners := t.winners - 1, losers := t.losers + 1)
    case ClearAfterFail =>
      t.(losers := t.losers - 1, pending := false, ignored := t.ignored.Due(), behind := 0)
    case Handle =>
      var u := t.(ipis := t.ipis - 1);
      if t.pending then u.(pending := false, received := t.received.Due(), behind := 0)
      else u.(ignored := t.ignored.Due())
    case Increment(Sent) => t.(sent := t.sent.Counted())
    case Increment(Received) => t.(received := t.received.Counted())
    case Increment(Ignored) => t.(ignored := t.ignored.Counted())
    case Increment(Coalesced) => t.(coalesced := t.coalesced.Counted())
  }

  predicate Possible(t: Target, steps: seq<Step>)
    decreases |steps|
  {
    steps != [] ==> Enabled(t, steps[0]) && Possible(Do(t, steps[0]), steps[1..])
  }

  function After(t: Target, steps: seq<Step>): Target
    requires Possible(t, steps)
    decreases |steps|
  {
    if steps == [] then t else After(Do(t, steps[0]), steps[1..])
  }

  /** How many of the first steps of the run were failed sends. */
  function Failures(steps: seq<Step>): nat {
    if steps == [] then 0 else (if steps[0].SendFail? then 1 else 0) + Failures(steps[1..])
  }

  /** How many requests were made. */
  function Requests(steps: seq<Step>): nat {
    if steps == [] then 0 else (if steps[0].Request? then 1 else 0) + Requests(steps[1..])
  }

  /** Sent, joined, failed, or still to be sent. */
  function Accounted(t: Target): nat {
    t.sent.Total() + t.coalesced.Total() + t.ignored.Total() + t.winners + t.losers
  }

  /** No flag is cleared after a failed send while another request relies on it. */
  predicate NobodyBehindFailures(t: Target, steps: seq<Step>)
    requires Possible(t, steps)
    decreases |steps|
  {
    steps != [] ==>
      && (steps[0].ClearAfterFail? ==> t.behind == 0)
      && NobodyBehindFailures(Do(t, steps[0]), steps[1..])
  }

  /** The flag is set exactly while one request is on its way: its thread is about to send,
      has failed to send, or its interrupt is in flight. */
  predicate Inv(t: Target) {
    && t.winners + t.losers + t.ipis == (if t.pending then 1 else 0)
    && (t.behind > 0 ==> t.pending)
    && t.sent.Total() == t.received.Total() + t.ipis
  }

  lemma InitInv(t: Target)
    requires Init(t)
    ensures Inv(t) && Accounted(t) == 0 && t.ignored.Total() == 0
  {
    assert Of(t, Sent) == t.sent && Of(t, Received) == t.received;
    assert Of(t, Ignored) == t.ignored && Of(t, Coalesced) == t.coalesced;
  }

  lemma {:induction false} RunInv(t: Target, steps: seq<Step>)
    requires Inv(t) && Possible(t, steps)
    ensures Inv(After(t, steps))
    decreases |steps|
  {
    if steps != [] { RunInv(Do(t, steps[0]), steps[1..]); }
  }

  lemma {:induction false} RunCounts(t: Target, steps: seq<Step>)
    requires Inv(t) && Possible(t, steps)
    ensures After(t, steps).ignored.Total() + After(t, steps).losers == t.ignored.Total() + t.losers + Failures(steps)
    ensures Accounted(After(t, steps)) == Accounted(t) + Requests(steps)
    decreases |steps|
  {
    if steps != [] { RunCounts(Do(t, steps[0]), steps[1..]); }
  }

  /** In every run, between any two accesses: at most one interrupt is in flight, the flag is
      set whenever one is, the interrupts sent are those received and those in flight, every
      handler run finds the flag set, so that only failed sends are ignored, and every request
      was sent, joined another one, failed or is still to be sent. The counters lag behind by
      what is due. */
  lemma {:induction false} OneInterruptInFlight(t: Target, steps: seq<Step>)
    requires Init(t) && Possible(t, steps)
    ensures var u := After(t, steps);
            && u.ipis <= 1 && (u.ipis == 1 ==> u.pending)
            && u.sent.Total() == u.received.Total() + u.ipis
            && u.ignored.Total() + u.losers == Failures(steps)
            && Accounted(u) == Requests(steps)
  {
    InitInv(t);
    RunInv(t, steps);
    RunCounts(t, steps);
  }

  /** Nothing is on its way. */
  predicate Quiet(t: Target) { t.winners == 0 && t.losers == 0 && t.ipis == 0 }

  // ----- Which requests are answered -----

  /** A request returns success: it finds the flag set, or its interrupt was sent. */
  predicate Grants(t: Target, step: Step) { step.SendOk? || (step.Request? && t.pending) }

  /** A handler run that finds the flag set comes before the flag is cleared in any other way. */
  predicate Answers(t: Target, steps: seq<Step>)
    requires Possible(t, steps)
    decreases |steps|
  {
    && steps != []
    && ((steps[0].Handle? && t.pending) ||
        (!steps[0].ClearAfterFail? && Answers(Do(t, steps[0]), steps[1..])))
  }

  predicate AllAnswered(t: Target, steps: seq<Step>)
    requires Possible(t, steps)
    decreases |steps|
  {
    steps != [] ==>
      && (Grants(t, steps[0]) ==> Answers(Do(t, steps[0]), steps[1..]))
      && AllAnswered(Do(t, steps[0]), steps[1..])
  }

  /** An interrupt in flight is handled before the run comes to rest. */
  lemma {:induction false} InFlightAnswers(t: Target, steps: seq<Step>)
    requires Inv(t) && t.ipis == 1 && Possible(t, steps) && Quiet(After(t, steps))
    ensures Answers(t, steps)
    decreases |steps|
  {
    if !steps[0].Handle? { InFlightAnswers(Do(t, steps[0]), steps[1..]); }
  }

  /** Seen from any point of a run: everything granted from now on is answered, and what relies
      on the flag now is too, exactly if no flag is cleared under a request. */
  lemma {:induction false} AnsweredFrom(t: Target, steps: seq<Step>)
    requires Inv(t) && Possible(t, steps) && Quiet(After(t, steps))
    ensures NobodyBehindFailures(t, steps) <==> AllAnswered(t, steps) && (t.behind > 0 ==> Answers(t, steps))
    decreases |steps|
  {
    if steps != [] {
      var u, rest := Do(t, steps[0]), steps[1..];
      AnsweredFrom(u, rest);
      if steps[0].SendOk? { InFlightAnswers(u, rest); }
    }
  }

  lemma {:induction false} PrefixPossible(t: Target, steps: seq<Step>, i: nat)
    requires Possible(t, steps) && i <= |steps|
    ensures Possible(t, steps[..i])
    decreases |steps|
  {
    if i > 0 {
      PrefixPossible(Do(t, steps[0]), steps[1..], i - 1);
      assert steps[..i][1..] == steps[1..][..i - 1];
    }
  }

  /** The state before step i of the run. */
  function Before(t: Target, steps: seq<Step>, i: nat): Target
    requires Possible(t, steps) && i <= |steps|
  {
    PrefixPossible(t, steps, i);
    After(t, steps[..i])
  }

  lemma BeforeRest(t: Target, steps: seq<Step>, i: nat)
    requires Possible(t, steps) && 0 < i <= |steps|
    ensures Before(t, steps, i) == Before(Do(t, steps[0]), steps[1..], i - 1)
  {
    PrefixPossible(t, steps, i);
    assert steps[..i][1..] == steps[1..][..i - 1];
  }

  /** Step j is a handler run that finds the flag set, and the flag was not cleared after a
      failed send between steps i and j. */
  predicate AnsweredBy(t: Target, steps: seq<Step>, i: int, j: nat)
    requires Possible(t, steps) && -1 <= i < j < |steps|
  {
    steps[j].Handle? && Before(t, steps, j).pending && forall m | i < m < j :: !steps[m].ClearAfterFail?
  }

  /** The same seen one step later. */
  lemma Shifted(t: Target, steps: seq<Step>, i: nat, j: nat)
    requires Possible(t, steps) && i < j < |steps|
    ensures AnsweredBy(t, steps, i, j) <==> AnsweredBy(Do(t, steps[0]), steps[1..], i - 1, j - 1)
  {
    var rest := steps[1..];
    BeforeRest(t, steps, j);
    assert forall m | 0 < m < |steps| :: steps[m] == rest[m - 1];
    assert forall m | 0 <= m < |rest| :: rest[m] == steps[m + 1];
  }

  lemma {:induction false} AnswersAt(t: Target, steps: seq<Step>)
    requires Possible(t, steps)
    ensures Answers(t, steps) <==> exists j | 0 <= j < |steps| :: AnsweredBy(t, steps, -1, j)
    decreases |steps|
  {
    if steps != [] {
      var u, rest := Do(t, steps[0]), steps[1..];
      AnswersAt(u, rest);
      assert Before(t, steps, 0) == t;
      assert AnsweredBy(t, steps, -1, 0) <==> steps[0].Handle? && t.pending;
      if !steps[0].ClearAfterFail? && Answers(u, rest) {
        var j :| 0 <= j < |rest| && AnsweredBy(u, rest, -1, j);
        Shifted(t, steps, 0, j + 1);
        assert AnsweredBy(t, steps, -1, j + 1);
      }
      if j :| 0 < j < |steps| && AnsweredBy(t, steps, -1, j) {
        Shifted(t, steps, 0, j);
        assert AnsweredBy(u, rest, -1, j - 1);
      }
    }
  }

  /** The request that returned success at step i is answered at a later step. */
  predicate AnsweredLater(t: Target, steps: seq<Step>, i: nat)
    requires Possible(t, steps) && i < |steps|
  {
    exists j | i < j < |steps| :: AnsweredBy(t, steps, i, j)
  }

  predicate GrantedAt(t: Target, steps: seq<Step>, i: nat)
    requires Possible(t, steps) && i < |steps|
  {
    Grants(Before(t, steps, i), steps[i])
  }

  lemma LaterShifted(t: Target, steps: seq<Step>, i: nat)
    requires Possible(t, steps) && 0 < i < |steps|
    ensures AnsweredLater(t, steps, i) <==> AnsweredLater(Do(t, steps[0]), steps[1..], i - 1)
    ensures GrantedAt(t, steps, i) <==> GrantedAt(Do(t, steps[0]), steps[1..], i - 1)
  {
    var u, rest := Do(t, steps[0]), steps[1..];
    BeforeRest(t, steps, i);
    if AnsweredLater(t, steps, i) {
      var j :| i < j < |steps| && AnsweredBy(t, steps, i, j);
      Shifted(t, steps, i, j);
      assert AnsweredBy(u, rest, i - 1, j - 1);
    }
    if AnsweredLater(u, rest, i - 1) {
      var j :| i - 1 < j < |rest| && AnsweredBy(u, rest, i - 1, j);
      Shifted(t, steps, i, j + 1);
      assert AnsweredBy(t, steps, i, j + 1);
    }
  }

  lemma FirstLater(t: Target, steps: seq<Step>)
    requires Possible(t, steps) && steps != []
    ensures AnsweredLater(t, steps, 0) <==> Answers(Do(t, steps[0]), steps[1..])
    ensures GrantedAt(t, steps, 0) <==> Grants(t, steps[0])
  {
    var u, rest := Do(t, steps[0]), steps[1..];
    AnswersAt(u, rest);
    assert Before(t, steps, 0) == t;
    if AnsweredLater(t, steps, 0) {
      var j :| 0 < j < |steps| && AnsweredBy(t, steps, 0, j);
      Shifted(t, steps, 0, j);
      assert AnsweredBy(u, rest, -1, j - 1);
    }
    if j :| 0 <= j < |rest| && AnsweredBy(u, rest, -1, j) {
      Shifted(t, steps, 0, j + 1);
      assert AnsweredBy(t, steps, 0, j + 1);
    }
  }

  lemma {:induction false} AllAnsweredAt(t: Target, steps: seq<Step>)
    requires Possible(t, steps)
    ensures AllAnswered(t, steps) <==>
            forall i | 0 <= i < |steps| && GrantedAt(t, steps, i) :: AnsweredLater(t, steps, i)
    decreases |steps|
  {
    if steps != [] {
      var u, rest := Do(t, steps[0]), steps[1..];
      AllAnsweredAt(u, rest);
      FirstLater(t, steps);
      forall i | 0 < i < |steps|
        ensures AnsweredLater(t, steps, i) <==> AnsweredLater(u, rest, i - 1)
        ensures GrantedAt(t, steps, i) <==> GrantedAt(u, rest, i - 1)
      {
        LaterShifted(t, steps, i);
      }
      forall i | 0 <= i < |rest|
        ensures AnsweredLater(u, rest, i) <==> AnsweredLater(t, steps, i + 1)
        ensures GrantedAt(u, rest, i) <==> GrantedAt(t, steps, i + 1)
      {
        LaterShifted(t, steps, i + 1);
      }
    }
  }

  /** Whenever a run comes to rest, every step at which a request returned success is followed
      by a handler run that finds the flag set, before the flag is cleared in any other way, if
      and only if no flag was cleared under a request that relied on it. */
  lemma AnsweredIff(t: Target, steps: seq<Step>)
    requires Init(t) && Possible(t, steps) && Quiet(After(t, steps))
    ensures (forall i | 0 <= i < |steps| && GrantedAt(t, steps, i) :: AnsweredLater(t, steps, i)) <==>
            NobodyBehindFailures(t, steps)
  {
    InitInv(t);
    AnsweredFrom(t, steps);
    AllAnsweredAt(t, steps);
  }

  lemma {:induction false} NoFailureNoClear(t: Target, steps: seq<Step>)
    requires Possible(t, steps) && t.losers == 0 && Failures(steps) == 0
    ensures NobodyBehindFailures(t, steps)
    decreases |steps|
  {
    if steps != [] { NoFailureNoClear(Do(t, steps[0]), steps[1..]); }
  }

  /** Where no send fails, every successful request is answered. */
  lemma AnsweredWithoutFailures(t: Target, steps: seq<Step>)
    requires Init(t) && Possible(t, steps) && Quiet(After(t, steps)) && Failures(steps) == 0
    ensures forall i | 0 <= i < |steps| && GrantedAt(t, steps, i) :: AnsweredLater(t, steps, i)
  {
    NoFailureNoClear(t, steps);
    AnsweredIff(t, steps);
  }

  lemma OneStep(t: Target, step: Step)
    requires Enabled(t, step)
    ensures Possible(t, [step]) && After(t, [step]) == Do(t, step)
  {
    assert [step][1..] == [];
  }

  lemma {:induction false} Joined(t: Target, first: seq<Step>, second: seq<Step>)
    requires Possible(t, first) && Possible(After(t, first), second)
    ensures Possible(t, first + second) && After(t, first + second) == After(After(t, first), second)
    decreases |first|
  {
    if first == [] {
      assert first + second == second;
    } else {
      Joined(Do(t, first[0]), first[1..], second);
      assert (first + second)[1..] == first[1..] + second;
    }
  }

  /** One more step at the end of a run. */
  lemma Extended(t: Target, steps: seq<Step>, now: Target, step: Step) returns (longer: seq<Step>)
    requires Possible(t, steps) && After(t, steps) == now && Enabled(now, step)
    ensures longer == steps + [step] && Possible(t, longer) && After(t, longer) == Do(now, step)
  {
    OneStep(now, step);
    Joined(t, steps, [step]);
    longer := steps + [step];
  }

  lemma TwoRequests(t: Target) returns (steps: seq<Step>, now: Target)
    requires Init(t)
    ensures |steps| == 2 && Possible(t, steps) && After(t, steps) == now
    ensures now == t.(pending := true, winners := 1, behind := 1, coalesced := t.coalesced.Due())
    ensures GrantedAt(t, steps, 1) && !steps[0].Handle? && !steps[1].Handle?
  {
    var first := Extended(t, [], t, Request);
    now := Do(t, Request);
    steps := Extended(t, first, now, Request);
    assert steps[..1] == first;
    now := Do(now, Request);
  }

  /** Two requests, one interrupt and one handler run: both requests are answered, and every event
      is counted in the end. */
  lemma AnsweredRun(t: Target) returns (steps: seq<Step>)
    requires Init(t)
    ensures Possible(t, steps)
    ensures After(t, steps) == Target(false, 0, 0, 0, 0, Count(1, 0), Count(1, 0), Count(0, 0), Count(1, 0))
  {
    InitialIs(t);
    var two, now := TwoRequests(t);
    steps := Extended(t, two, now, SendOk);
    now := Do(now, SendOk);
    steps := Extended(t, steps, now, Handle);
    now := Do(now, Handle);
    steps := Extended(t, steps, now, Increment(Sent));
    now := Do(now, Increment(Sent));
    steps := Extended(t, steps, now, Increment(Received));
    now := Do(now, Increment(Received));
    steps := Extended(t, steps, now, Increment(Coalesced));
  }

  lemma InitialIs(t: Target)
    requires Init(t)
    ensures t == Target(false, 0, 0, 0, 0, Count(0, 0), Count(0, 0), Count(0, 0), Count(0, 0))
  {
    assert Of(t, Sent) == t.sent && Of(t, Received) == t.received;
    assert Of(t, Ignored) == t.ignored && Of(t, Coalesced) == t.coalesced;
  }

  /** Two requests, the second returning success behind the first, whose send then fails. */
  lemma DroppedRequestRun(t: Target) returns (steps: seq<Step>)
    requires Init(t)
    ensures |steps| == 4 && Possible(t, steps) && Quiet(After(t, steps))
    ensures GrantedAt(t, steps, 1) && !AnsweredLater(t, steps, 1)
    ensures After(t, steps) == Target(false, 0, 0, 0, 0, Count(0, 0), Count(0, 0), Count(0, 1), Count(0, 1))
  {
    InitialIs(t);
    var two, now := TwoRequests(t);
    steps := Extended(t, two, now, SendFail);
    steps := Extended(t, steps, Do(now, SendFail), ClearAfterFail);
    assert steps[..1] == two[..1];
  }
}
