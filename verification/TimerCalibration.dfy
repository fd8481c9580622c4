/**
 Calibrating the local timers (configure_local_scheduler_cpu in kernel/cpu/smp.cpp with the
 measurement in arch/x86_64/apic.cpp): the arithmetic of the acceptance test with its 32-bit
 result, and the accounts of concurrent calibrations.
 */
module TimerCalibration {

  // ----- The acceptance test -----

  const U32: nat := 0x1_0000_0000

  /** The fastest clock that can be measured: all ticks of the 32-bit counter in 1/100 s. */
  const FASTEST: nat := 0xFFFF_FFFF * 100

  const TOLERANCE: nat := 1500

  /** What a measurement can give: a whole number of ticks in 1/100 s, and a reload value. */
  predicate Measurable(hz: nat) { 0 < hz <= FASTEST && hz % 100 == 0 }

  function Difference(hz: nat, reference: nat): nat {
    if hz > reference then hz - reference else reference - hz
  }

  /** Integer division, by repeated subtraction. */
  function Quotient(a: nat, e: nat): nat
    requires e > 0
  {
    if a < e then 0 else 1 + Quotient(a - e, e)
  }

  lemma {:induction false} QuotientIs(a: nat, e: nat, q: nat, r: nat)
    requires e > 0 && a == q * e + r && r < e
    ensures Quotient(a, e) == q
    decreases q
  {
    if q > 0 {
      assert a - e == (q - 1) * e + r;
      assert q * e >= e;
      QuotientIs(a - e, e, q - 1, r);
    }
  }

  lemma QuotientIsDivision(a: nat, e: nat)
    requires e > 0
    ensures Quotient(a, e) == a / e
  {
    QuotientIs(a, e, a / e, a % e);
  }

  lemma {:induction false} QuotientRest(a: nat, e: nat) returns (r: nat)
    requires e > 0
    ensures a == Quotient(a, e) * e + r && r < e
  {
    if a < e {
      r := a;
    } else {
      r := QuotientRest(a - e, e);
      assert (1 + Quotient(a - e, e)) * e == e + Quotient(a - e, e) * e;
    }
  }

  lemma {:induction false} QuotientBelow(a: nat, e: nat, q: nat)
    requires e > 0
    ensures Quotient(a, e) < q <==> a < q * e
    decreases q
  {
    if q > 0 {
      assert q * e == (q - 1) * e + e;
      if a >= e { QuotientBelow(a - e, e, q - 1); }
    }
  }

  /** error_bps: hundredths of a percent, cut to 32 bits. */
  function ErrorBps(hz: nat, reference: nat): nat
    requires reference > 0
  {
    Quotient(Difference(hz, reference) * 10000, reference) % U32
  }

  /** The same with the division of the code. */
  lemma ErrorIsDivision(hz: nat, reference: nat)
    requires reference > 0
    ensures ErrorBps(hz, reference) == Difference(hz, reference) * 10000 / reference % U32
  {
    QuotientIsDivision(Difference(hz, reference) * 10000, reference);
  }

  predicate Accepted(hz: nat, reference: nat)
    requires reference > 0
  {
    ErrorBps(hz, reference) <= TOLERANCE
  }

  /** The clock is less than 15.01 percent slower or faster than the reference. */
  predicate Within(hz: nat, reference: nat) {
    8499 * reference < 10000 * hz < 11501 * reference
  }

  /** The product fits in 64 bits. */
  lemma NoOverflow(hz: nat, reference: nat)
    requires Measurable(hz) && Measurable(reference)
    ensures Difference(hz, reference) * 10000 < U32 * U32
  {
  }

  /** From a reference of 1 MHz on nothing is cut off. */
  lemma NothingCut(hz: nat, reference: nat)
    requires Measurable(hz) && Measurable(reference) && reference >= 1000000
    ensures Quotient(Difference(hz, reference) * 10000, reference) < U32
  {
    QuotientBelow(Difference(hz, reference) * 10000, reference, U32);
  }

  lemma SmallQuotient(a: nat, e: nat)
    requires e > 0 && Quotient(a, e) < U32
    ensures Quotient(a, e) % U32 <= TOLERANCE <==> a < 1501 * e
  {
    QuotientBelow(a, e, TOLERANCE + 1);
  }

  lemma AcceptedIsWithin(hz: nat, reference: nat)
    requires Measurable(hz) && Measurable(reference) && reference >= 1000000
    ensures Accepted(hz, reference) <==> Within(hz, reference)
  {
    NothingCut(hz, reference);
    SmallQuotient(Difference(hz, reference) * 10000, reference);
  }

  /** A clock that is faster than the reference by so much that the error comes round. */
  lemma FasterBy(reference: nat, difference: nat, q: nat, r: nat)
    requires reference > 0 && 10000 * difference == q * reference + r && r < reference
    requires q % U32 <= TOLERANCE && q >= U32
    ensures Accepted(reference + difference, reference) && !Within(reference + difference, reference)
  {
    QuotientIs(10000 * difference, reference, q, r);
    QuotientBelow(10000 * difference, reference, TOLERANCE + 1);
  }

  /** The same when the difference is given beyond the first 2^32 parts. */
  lemma FasterByMore(reference: nat, difference: nat, over: nat)
    requires reference > 0 && 10000 * difference == U32 * reference + over && over < 625 * reference
    ensures Accepted(reference + difference, reference) && !Within(reference + difference, reference)
  {
    var r := QuotientRest(over, reference);
    QuotientBelow(over, reference, 625);
    Distributes(Quotient(over, reference), reference);
    FasterBy(reference, difference, U32 + Quotient(over, reference), r);
  }

  lemma Distributes(p: nat, e: nat)
    ensures (U32 + p) * e == U32 * e + p * e
  {
  }

  lemma SlowReference(m: nat) returns (hz: nat)
    requires 1 <= m <= 15
    ensures Measurable(hz) && Accepted(hz, 100 * m) && !Within(hz, 100 * m)
  {
    FasterBy(100 * m, 100 * m * 0x1000_0000, 625 * U32, 0);
    hz := 100 * m + 100 * m * 0x1000_0000;
  }

  lemma RoundedUp(m: nat) returns (k: nat, over: nat)
    requires m < 10000
    ensures 10000 * k == U32 * m + over && over < 10000 && m + k <= 0xFFFF_FFFF
  {
    k := (U32 * m + 9999) / 10000;
    over := 10000 * k - U32 * m;
  }

  lemma MultipleIsMeasurable(n: nat)
    requires 0 < n <= 0xFFFF_FFFF
    ensures Measurable(100 * n)
  {
  }

  lemma FastReference(m: nat) returns (hz: nat)
    requires 16 <= m < 10000
    ensures Measurable(hz) && Accepted(hz, 100 * m) && !Within(hz, 100 * m)
  {
    var k, over := RoundedUp(m);
    FasterByMore(100 * m, 100 * k, 100 * over);
    MultipleIsMeasurable(m + k);
    hz := 100 * m + 100 * k;
  }

  /** Below 1 MHz some clock is accepted only because its error is cut to 32 bits. The reference
      is 100 * m. */
  lemma WronglyAccepted(m: nat) returns (hz: nat)
    requires 1 <= m < 10000
    ensures Measurable(hz) && Accepted(hz, 100 * m) && !Within(hz, 100 * m)
  {
    if m <= 15 {
      hz := SlowReference(m);
    } else {
      hz := FastReference(m);
    }
  }

  /** The test means what it says exactly for references of at least 1 MHz. */
  lemma TestIsSoundIff(reference: nat)
    requires Measurable(reference)
    ensures (forall hz | Measurable(hz) && Accepted(hz, reference) :: Within(hz, reference)) <==> reference >= 1000000
  {
    if reference >= 1000000 {
      forall hz | Measurable(hz) && Accepted(hz, reference) ensures Within(hz, reference) {
        AcceptedIsWithin(hz, reference);
      }
    } else {
      var hz := WronglyAccepted(reference / 100);
      assert 100 * (reference / 100) == reference;
    }
  }

  // ----- Concurrent calibrations -----

  /** How far the calibration of a CPU has come. */
  datatype Phase =
    | Idle
    | Calibrating
    | Measured(hz: nat)
    | Compared(hz: nat, expected: nat)
    | Enabled(hz: nat)
    | Counted(hz: nat)
    | Failed

  /** `runs` counts the measurements begun on each CPU. */
  datatype State = State(
    phases: seq<Phase>, attempted: seq<bool>, runs: seq<nat>,
    reference: nat, released: bool, schedulerCpus: nat, calibrationFailed: nat)

  datatype Step =
    | Attempt(c: nat)
    | MeasurementFails(c: nat)
    | Measure(c: nat, hz: nat)
    | Compare(c: nat)
    | Reject(c: nat)
    | Enable(c: nat)
    | Count(c: nat)
    | Release

  predicate Shape(s: State) { |s.phases| == |s.attempted| == |s.runs| > 0 }

  predicate Init(s: State) {
    && Shape(s) && (forall c | 0 <= c < |s.phases| :: s.phases[c] == Idle && !s.attempted[c] && s.runs[c] == 0)
    && s.reference == 0 && !s.released && s.schedulerCpus == 0 && s.calibrationFailed == 0
  }

  /** Any number of callers may attempt at any time; the other CPUs wait for the release, which
      follows the success of CPU 0. */
  predicate Possible(s: State, step: Step)
    requires Shape(s)
  {
    match step
    case Attempt(c) => c < |s.phases| && (c == 0 || s.released)
    case MeasurementFails(c) => c < |s.phases| && s.phases[c].Calibrating?
    case Measure(c, hz) => c < |s.phases| && s.phases[c].Calibrating? && Measurable(hz)
    case Compare(c) => c < |s.phases| && s.phases[c].Measured?
    case Reject(c) =>
      && c < |s.phases| && s.phases[c].Compared?
      && !(s.phases[c].expected > 0 && Accepted(s.phases[c].hz, s.phases[c].expected))
    case Enable(c) =>
      && c < |s.phases| && s.phases[c].Compared?
      && s.phases[c].expected > 0 && Accepted(s.phases[c].hz, s.phases[c].expected)
    case Count(c) => c < |s.phases| && s.phases[c].Enabled?
    case Release => s.phases[0].Counted?
  }

  function Move(s: State, c: nat, p: Phase): State
    requires c < |s.phases|
  {
    s.(phases := s.phases[c := p])
  }

  function Do(s: State, step: Step): (t: State)
    requires Shape(s) && Possible(s, step)
    ensures Shape(t) && |t.phases| == |s.phases|
  {
    match step
    case Attempt(c) =>
      if s.attempted[c] then s
      else Move(s, c, Calibrating).(attempted := s.attempted[c := true], runs := s.runs[c := s.runs[c] + 1])
    case MeasurementFails(c) => Move(s, c, Failed).(calibrationFailed := s.calibrationFailed + 1)
    case Measure(c, hz) => Move(s, c, Measured(hz))
    case Compare(c) =>
      var hz := s.phases[c].hz;
      if c == 0 || s.reference == 0 then Move(s, c, Compared(hz, hz)).(reference := hz)
      else Move(s, c, Compared(hz, s.reference))
    case Reject(c) => Move(s, c, Failed).(calibrationFailed := s.calibrationFailed + 1)
    case Enable(c) => Move(s, c, Enabled(s.phases[c].hz))
    case Count(c) => Move(s, c, Counted(s.phases[c].hz)).(schedulerCpus := s.schedulerCpus + 1)
    case Release => s.(released := true)
  }

  /** How many CPUs among the first n have finished well, badly, or not yet. */
  function Finished(ps: seq<Phase>, n: nat): nat
    requires n <= |ps|
  {
    if n == 0 then 0 else Finished(ps, n - 1) + (if ps[n - 1].Counted? then 1 else 0)
  }

  function Failures(ps: seq<Phase>, n: nat): nat
    requires n <= |ps|
  {
    if n == 0 then 0 else Failures(ps, n - 1) + (if ps[n - 1].Failed? then 1 else 0)
  }

  function Busy(ps: seq<Phase>, n: nat): nat
    requires n <= |ps|
  {
    if n == 0 then 0
    else Busy(ps, n - 1) + (if ps[n - 1].Idle? || ps[n - 1].Counted? || ps[n - 1].Failed? then 0 else 1)
  }

  function Attempts(attempted: seq<bool>, n: nat): nat
    requires n <= |attempted|
  {
    if n == 0 then 0 else Attempts(attempted, n - 1) + (if attempted[n - 1] then 1 else 0)
  }

  lemma {:induction false} CountsMove(ps: seq<Phase>, c: nat, p: Phase, n: nat)
    requires c < |ps| && n <= |ps|
    ensures var qs := ps[c := p];
            && Finished(qs, n) == Finished(ps, n) + (if c < n && p.Counted? then 1 else 0)
                                  - (if c < n && ps[c].Counted? then 1 else 0)
            && Failures(qs, n) == Failures(ps, n) + (if c < n && p.Failed? then 1 else 0)
                                  - (if c < n && ps[c].Failed? then 1 else 0)
  {
    if n > 0 { CountsMove(ps, c, p, n - 1); }
  }

  /** What each CPU's phase means. */
  predicate PhaseOk(s: State, c: nat)
    requires Shape(s) && c < |s.phases|
  {
    && (s.attempted[c] <==> s.phases[c] != Idle)
    && s.runs[c] == (if s.attempted[c] then 1 else 0)
    && (c > 0 && s.phases[c] != Idle ==> s.released)
    && (s.phases[c].Measured? ==> Measurable(s.phases[c].hz))
    && (s.phases[c].Compared? || s.phases[c].Enabled? || s.phases[c].Counted? ==>
          Measurable(s.phases[c].hz) && Measurable(s.reference) && (c == 0 ==> s.reference == s.phases[c].hz))
    && (s.phases[c].Compared? ==> s.phases[c].expected == s.reference)
    && (s.phases[c].Enabled? || s.phases[c].Counted? ==> Accepted(s.phases[c].hz, s.reference))
  }

  ghost predicate Inv(s: State) {
    && Shape(s)
    && (s.released ==> s.phases[0].Counted?)
    && (forall c | 0 <= c < |s.phases| :: PhaseOk(s, c))
    && s.schedulerCpus == Finished(s.phases, |s.phases|) && s.calibrationFailed == Failures(s.phases, |s.phases|)
  }

  /** While CPU 0 is not done no other CPU has begun. */
  lemma OthersIdle(s: State, c: nat)
    requires Inv(s) && 0 < c < |s.phases| && !s.phases[0].Counted?
    ensures s.phases[c] == Idle
  {
    assert PhaseOk(s, c);
  }

  /** The CPU that makes the step. */
  function Actor(step: Step): nat { if step.Release? then 0 else step.c }

  lemma OthersKeepPhase(s: State, step: Step, c: nat)
    requires Inv(s) && Possible(s, step) && c < |s.phases| && c != Actor(step)
    ensures PhaseOk(Do(s, step), c)
  {
    assert PhaseOk(s, c) && PhaseOk(s, 0);
    if c > 0 && !s.phases[0].Counted? { OthersIdle(s, c); }
  }

  lemma ActorKeepsPhase(s: State, step: Step)
    requires Inv(s) && Possible(s, step)
    ensures PhaseOk(Do(s, step), Actor(step))
  {
    var c := Actor(step);
    assert PhaseOk(s, c) && PhaseOk(s, 0);
    if c > 0 && !s.phases[0].Counted? { OthersIdle(s, c); }
  }

  lemma StepKeepsPhases(s: State, step: Step)
    requires Inv(s) && Possible(s, step)
    ensures forall c | 0 <= c < |s.phases| :: PhaseOk(Do(s, step), c)
  {
    forall c | 0 <= c < |s.phases| ensures PhaseOk(Do(s, step), c) {
      if c == Actor(step) { ActorKeepsPhase(s, step); } else { OthersKeepPhase(s, step, c); }
    }
  }

  lemma StepInv(s: State, step: Step)
    requires Inv(s) && Possible(s, step)
    ensures Inv(Do(s, step))
  {
    StepKeepsPhases(s, step);
    var n := |s.phases|;
    match step
    case Attempt(c) => assert PhaseOk(s, c); CountsMove(s.phases, c, Calibrating, n);
    case MeasurementFails(c) => CountsMove(s.phases, c, Failed, n);
    case Measure(c, hz) => CountsMove(s.phases, c, Measured(hz), n);
    case Compare(c) => CountsMove(s.phases, c, Do(s, step).phases[c], n);
    case Reject(c) => CountsMove(s.phases, c, Failed, n);
    case Enable(c) => CountsMove(s.phases, c, Enabled(s.phases[c].hz), n);
    case Count(c) => CountsMove(s.phases, c, Counted(s.phases[c].hz), n);
    case Release =>
  }

  predicate Run(s: State, steps: seq<Step>)
    requires Shape(s)
    decreases |steps|
  {
    steps != [] ==> Possible(s, steps[0]) && Run(Do(s, steps[0]), steps[1..])
  }

  function After(s: State, steps: seq<Step>): (t: State)
    requires Shape(s) && Run(s, steps)
    ensures Shape(t) && |t.phases| == |s.phases|
    decreases |steps|
  {
    if steps == [] then s else After(Do(s, steps[0]), steps[1..])
  }

  lemma {:induction false} RunInv(s: State, steps: seq<Step>)
    requires Inv(s) && Run(s, steps)
    ensures Inv(After(s, steps))
    decreases |steps|
  {
    if steps != [] {
      StepInv(s, steps[0]);
      RunInv(Do(s, steps[0]), steps[1..]);
    }
  }

  lemma {:induction false} EveryAttemptIsSomewhere(s: State, n: nat)
    requires Inv(s) && n <= |s.phases|
    ensures Attempts(s.attempted, n) == Finished(s.phases, n) + Failures(s.phases, n) + Busy(s.phases, n)
  {
    if n > 0 {
      EveryAttemptIsSomewhere(s, n - 1);
      assert PhaseOk(s, n - 1);
    }
  }

  lemma {:induction false} NothingCounted(ps: seq<Phase>, n: nat)
    requires n <= |ps| && forall c | 0 <= c < |ps| :: ps[c] == Idle
    ensures Finished(ps, n) == 0 && Failures(ps, n) == 0
  {
    if n > 0 { NothingCounted(ps, n - 1); }
  }

  /** In every run each CPU is calibrated at most once, however many callers race, the two
      counters and the calibrations under way make up the CPUs that attempted one, and every
      enabled CPU passed the test against the clock of CPU 0, which from 1 MHz on means that its
      error is below 15.01 percent. */
  lemma Calibrated(s: State, steps: seq<Step>, c: nat)
    requires Init(s) && Run(s, steps) && c < |s.phases|
    ensures var t := After(s, steps); var n := |t.phases|;
            && t.runs[c] <= 1
            && t.schedulerCpus + t.calibrationFailed + Busy(t.phases, n) == Attempts(t.attempted, n)
            && (t.phases[c].Enabled? || t.phases[c].Counted? ==>
                  && t.reference > 0 && Accepted(t.phases[c].hz, t.reference)
                  && (t.reference >= 1000000 ==> Within(t.phases[c].hz, t.reference)))
  {
    NothingCounted(s.phases, |s.phases|);
    assert Inv(s) by { assert forall k | 0 <= k < |s.phases| :: PhaseOk(s, k); }
    RunInv(s, steps);
    var t := After(s, steps);
    EveryAttemptIsSomewhere(t, |t.phases|);
    assert PhaseOk(t, c);
    if (t.phases[c].Enabled? || t.phases[c].Counted?) && t.reference >= 1000000 {
      AcceptedIsWithin(t.phases[c].hz, t.reference);
    }
  }

  // ----- Two CPUs -----

  lemma {:induction false} Extended(s: State, steps: seq<Step>, step: Step)
    requires Shape(s) && Run(s, steps) && Possible(After(s, steps), step)
    ensures Run(s, steps + [step]) && After(s, steps + [step]) == Do(After(s, steps), step)
    decreases |steps|
  {
    if steps == [] {
      assert [step][1..] == [];
    } else {
      Extended(Do(s, steps[0]), steps[1..], step);
      assert (steps + [step])[1..] == steps[1..] + [step];
    }
  }

  lemma Take(s: State, steps: seq<Step>, now: State, step: Step) returns (longer: seq<Step>, next: State)
    requires Shape(s) && Run(s, steps) && After(s, steps) == now && Possible(now, step)
    ensures next == Do(now, step) && Run(s, longer) && After(s, longer) == next
  {
    Extended(s, steps, step);
    longer, next := steps + [step], Do(now, step);
  }

  /** CPU 0 measures its clock, which becomes the reference, and the others are released. */
  lemma FirstCalibrated(s: State, hz: nat) returns (steps: seq<Step>, t: State)
    requires Init(s) && |s.phases| == 2 && Measurable(hz)
    ensures Run(s, steps) && After(s, steps) == t
    ensures t == State([Counted(hz), Idle], [true, false], [1, 0], hz, true, 1, 0)
  {
    AlwaysItself(hz);
    steps, t := Take(s, [], s, Attempt(0));
    steps, t := Take(s, steps, t, Measure(0, hz));
    steps, t := Take(s, steps, t, Compare(0));
    steps, t := Take(s, steps, t, Enable(0));
    steps, t := Take(s, steps, t, Count(0));
    steps, t := Take(s, steps, t, Release);
  }

  lemma AlwaysItself(hz: nat)
    requires hz > 0
    ensures Accepted(hz, hz)
  {
    assert Difference(hz, hz) == 0;
  }

  /** The second CPU, with any clock: from 1 MHz on it is enabled and counted exactly if its clock is
      within the tolerance, and counted as failed otherwise. A second attempt changes nothing. */
  lemma SecondCalibrated(s: State, first: nat, second: nat) returns (steps: seq<Step>, t: State)
    requires Init(s) && |s.phases| == 2 && Measurable(first) && Measurable(second) && first >= 1000000
    ensures Run(s, steps) && After(s, steps) == t
    ensures t == if Within(second, first)
                 then State([Counted(first), Counted(second)], [true, true], [1, 1], first, true, 2, 0)
                 else State([Counted(first), Failed], [true, true], [1, 1], first, true, 1, 1)
  {
    AcceptedIsWithin(second, first);
    steps, t := FirstCalibrated(s, first);
    steps, t := Take(s, steps, t, Attempt(1));
    steps, t := Take(s, steps, t, Measure(1, second));
    steps, t := Take(s, steps, t, Compare(1));
    if Within(second, first) {
      steps, t := Take(s, steps, t, Enable(1));
      steps, t := Take(s, steps, t, Count(1));
    } else {
      steps, t := Take(s, steps, t, Reject(1));
    }
    steps, t := Take(s, steps, t, Attempt(1));
  }
}
