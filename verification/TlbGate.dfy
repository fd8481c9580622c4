/**
 Which changes a user space takes: one at a time, and none any more after one of its
 invalidations has timed out.
 */
module TlbGate {
  import opened Basics
  import opened TlbModel
  import opened TlbSlots
  import opened TlbRuns

  /** The step by which an invalidation of space sp is given up, its time-out counted. */
  predicate TimesOut(muts: seq<Mutation>, step: Step, sp: nat) {
    step.OnThread? && step.thread.GiveUp? && step.op < |muts| && muts[step.op].space == sp
  }

  predicate TimedOut(muts: seq<Mutation>, steps: seq<Step>, sp: nat) {
    exists i | 0 <= i < |steps| :: TimesOut(muts, steps[i], sp)
  }

  predicate Unfinished(s: State, sp: nat, k: nat) {
    k < |s.ops| && k < |s.muts| && s.muts[k].space == sp && !Finished(s.ops[k].phase)
  }

  /** An invalidation of the space is under way. */
  predicate UnderWay(s: State, sp: nat) { exists k :: 0 <= k < |s.ops| && Unfinished(s, sp, k) }

  // ----- The gate -----

  /** The gate of every user space is closed exactly while one invalidation of it is under way. */
  ghost predicate GateOk(s: State, sp: nat)
    requires sp < |s.spaces|
  {
    && (s.spaces[sp].busy <==> UnderWay(s, sp))
    && (forall j, k | Unfinished(s, sp, j) && Unfinished(s, sp, k) :: j == k)
  }

  ghost predicate Gates(s: State) {
    Shape(s) && forall sp | 0 < sp < |s.spaces| :: GateOk(s, sp)
  }

  /** Nothing changed that the gate of sp speaks of. */
  lemma SameGate(s: State, t: State, sp: nat)
    requires sp < |s.spaces| && sp < |t.spaces| && GateOk(s, sp) && t.spaces[sp].busy == s.spaces[sp].busy
    requires forall k :: Unfinished(t, sp, k) <==> Unfinished(s, sp, k)
    ensures GateOk(t, sp)
  {
    if UnderWay(s, sp) {
      var k :| 0 <= k < |s.ops| && Unfinished(s, sp, k);
      assert Unfinished(t, sp, k);
    }
    if UnderWay(t, sp) {
      var k :| 0 <= k < |t.ops| && Unfinished(t, sp, k);
      assert Unfinished(s, sp, k);
    }
  }

  lemma MutateGates(s: State, m: Mutation, sp: nat)
    requires Gates(s) && MutateEnabled(s, m) && 0 < sp < |s.spaces|
    ensures GateOk(DoMutate(s, m), sp)
  {
    var t := DoMutate(s, m);
    assert GateOk(s, sp);
    assert forall k | 0 <= k < |s.ops| :: Unfinished(t, sp, k) <==> Unfinished(s, sp, k);
    if sp == m.space {
      assert Unfinished(t, sp, |s.ops|);
    } else {
      SameGate(s, t, sp);
    }
  }

  predicate Ends(step: ThreadStep) { step.Succeed? || step.GiveUp? || step.Abandon? }

  lemma ThreadUnfinished(s: State, k: nat, step: ThreadStep, sp: nat)
    requires Shape(s) && ThreadEnabled(s, k, step) && 0 < sp < |s.spaces|
    ensures var t := DoThread(s, k, step);
            && |t.spaces| == |s.spaces| && t.muts == s.muts && |t.ops| == |s.ops|
            && (Ends(step) && s.muts[k].space == sp ==> !t.spaces[sp].busy)
            && (!(Ends(step) && s.muts[k].space == sp) ==> t.spaces[sp].busy == s.spaces[sp].busy)
            && !Finished(s.ops[k].phase) && (Finished(t.ops[k].phase) <==> Ends(step))
            && forall j | 0 <= j < |s.ops| && j != k :: t.ops[j].phase == s.ops[j].phase
  {
  }

  lemma ThreadGates(s: State, k: nat, step: ThreadStep, sp: nat)
    requires Gates(s) && ThreadEnabled(s, k, step) && 0 < sp < |s.spaces|
    ensures sp < |DoThread(s, k, step).spaces| && GateOk(DoThread(s, k, step), sp)
  {
    var t := DoThread(s, k, step);
    ThreadUnfinished(s, k, step, sp);
    assert GateOk(s, sp);
    if Ends(step) && s.muts[k].space == sp {
      assert Unfinished(s, sp, k);
      assert forall j | Unfinished(t, sp, j) :: Unfinished(s, sp, j) && j != k;
    } else {
      SameGate(s, t, sp);
    }
  }

  lemma OtherGates(s: State, step: Step, sp: nat)
    requires Gates(s) && Enabled(s, step) && !step.Mutate? && !step.OnThread? && 0 < sp < |Do(s, step).spaces|
    ensures GateOk(Do(s, step), sp)
  {
    var t := Do(s, step);
    if sp < |s.spaces| {
      assert GateOk(s, sp);
      SameGate(s, t, sp);
    }
  }

  lemma StepGates(s: State, step: Step)
    requires Gates(s) && Enabled(s, step) && Shape(Do(s, step))
    ensures Gates(Do(s, step))
  {
    var t := Do(s, step);
    forall sp | 0 < sp < |t.spaces| ensures GateOk(t, sp) {
      match step
      case Mutate(m) => MutateGates(s, m, sp);
      case OnThread(k, a) => ThreadGates(s, k, a, sp);
      case _ => OtherGates(s, step, sp);
    }
  }

  // ----- Time-outs -----

  predicate Poisoned(s: State, sp: nat) { sp < |s.spaces| && s.spaces[sp].poisoned }

  lemma StepTimesOut(s: State, step: Step, sp: nat)
    requires Shape(s) && Enabled(s, step) && sp != 0
    ensures Poisoned(Do(s, step), sp) <==> Poisoned(s, sp) || TimesOut(s.muts, step, sp)
    ensures s.muts <= Do(s, step).muts
  {
  }

  lemma StepShape(s: State, step: Step)
    requires Shape(s) && Enabled(s, step)
    ensures Shape(Do(s, step))
  {
    match step
    case OnThread(k, a) => ThreadShape(s, k, a);
    case OnRoot(c, r) => assert |DoRoot(s, c, r).cpus| == |s.cpus|;
    case _ =>
  }

  lemma ThreadShape(s: State, k: nat, step: ThreadStep)
    requires Shape(s) && ThreadEnabled(s, k, step)
    ensures Shape(DoThread(s, k, step))
  {
  }

  /** Through any run: the gates stay in order, and a space is closed exactly if it was or one of
      its invalidations has timed out since. */
  lemma {:induction false} RunGates(s: State, steps: seq<Step>, sp: nat)
    requires Gates(s) && Possible(s, steps) && sp != 0
    ensures Gates(After(s, steps)) && s.muts <= After(s, steps).muts
    ensures Poisoned(After(s, steps), sp) <==> Poisoned(s, sp) || TimedOut(After(s, steps).muts, steps, sp)
    decreases |steps|
  {
    if steps != [] {
      var t, rest := Do(s, steps[0]), steps[1..];
      StepShape(s, steps[0]);
      StepGates(s, steps[0]);
      StepTimesOut(s, steps[0], sp);
      RunGates(t, rest, sp);
      FirstOrLater(s.muts, After(s, steps).muts, steps, sp);
    }
  }

  lemma FirstOrLater(muts: seq<Mutation>, more: seq<Mutation>, steps: seq<Step>, sp: nat)
    requires steps != [] && muts <= more && (steps[0].OnThread? ==> steps[0].op < |muts|)
    ensures TimedOut(more, steps, sp) <==> TimesOut(muts, steps[0], sp) || TimedOut(more, steps[1..], sp)
  {
    if TimedOut(more, steps[1..], sp) {
      var i :| 0 <= i < |steps[1..]| && TimesOut(more, steps[1..][i], sp);
      assert TimesOut(more, steps[i + 1], sp);
    }
    if TimedOut(more, steps, sp) {
      var i :| 0 <= i < |steps| && TimesOut(more, steps[i], sp);
      if i > 0 { assert TimesOut(more, steps[1..][i - 1], sp); }
    }
  }

  // ----- Results -----

  /** After every run a user space takes a change exactly if no invalidation of it is under way
      and none has ever timed out. */
  lemma TakesChangeIff(s: State, steps: seq<Step>, m: Mutation)
    requires Init(s) && Possible(s, steps) && 0 < m.space < |After(s, steps).spaces|
    ensures var t := After(s, steps);
            Enabled(t, Mutate(m)) <==> !UnderWay(t, m.space) && !TimedOut(t.muts, steps, m.space)
  {
    RunGates(s, steps, m.space);
    assert GateOk(After(s, steps), m.space);
  }

  /** Once an invalidation of a user space was given up, no later step changes that space. */
  lemma ClosedForGood(s: State, steps: seq<Step>, i: nat, j: nat)
    requires Init(s) && Possible(s, steps) && i < j < |steps|
    requires steps[i].OnThread? && steps[i].thread.GiveUp? && steps[j].Mutate?
    requires var muts := After(s, steps).muts; steps[i].op < |muts| && muts[steps[i].op].space != 0
    ensures steps[j].mutation.space != After(s, steps).muts[steps[i].op].space
  {
    var sp, before := After(s, steps).muts[steps[i].op].space, steps[..j];
    Split(s, steps, j);
    RunGates(s, before, sp);
    RunGates(After(s, before), steps[j..], sp);
    Split(s, before, i);
    RunGates(s, before[..i], sp);
    RunGates(After(s, before[..i]), before[i..], sp);
    assert before[i..][0] == before[i] == steps[i] && steps[j..][0] == steps[j];
    assert TimesOut(After(s, before).muts, before[i], sp);
    assert Poisoned(After(s, before), sp);
  }

  /** CPU 1 is on space 1, and CPU 0 is about to ask it to drop a page. */
  lemma AboutToAsk(n: nat) returns (steps: seq<Step>, s: State)
    requires n >= 2
    ensures Reaches(Start(n), steps, ALL, s) && |s.cpus| == n && |s.spaces| == 2
    ensures s.muts == [Mutation(1, 0, 1)] && s.ops == [Op(1, 2, {1}, 0, {}, {}, None, Scan(1))]
    ensures s.spaces[1] == Space(2, 1, {1}, true, false) && s.sendFailures == 0
    ensures !s.cpus[1].pending && s.cpus[1].ackToken == 0 && s.cpus[0].sent == 0
  {
    steps, s := [], Start(n);
    steps, s := Take(Start(n), steps, ALL, s, CreateSpace);
    steps, s := Adopt(Start(n), steps, ALL, s, 1, 1);
    assert s.spaces[1].cached == {1};
    steps, s := Launch(Start(n), steps, ALL, s, Mutation(1, 0, 1), 0);
  }

  /** The request is posted, its interrupt fails, and the invalidation is given up. */
  lemma FailedSendRun(n: nat) returns (steps: seq<Step>, s: State)
    requires n >= 2
    ensures Reaches(Start(n), steps, ALL, s) && |s.cpus| == n && |s.ops| == 1
    ensures s.ops[0].phase.Failed? && s.sendFailures == 1 && s.cpus[0].sent == 1 && !s.cpus[1].pending
    ensures forall m: Mutation | m.space == 1 :: !Enabled(s, Mutate(m))
  {
    steps, s := AboutToAsk(n);
    steps, s := Take(Start(n), steps, ALL, s, OnThread(0, Observe));
    steps, s := Take(Start(n), steps, ALL, s, OnThread(0, FillHead));
    steps, s := Take(Start(n), steps, ALL, s, OnThread(0, FillTail));
    steps, s := Take(Start(n), steps, ALL, s, OnThread(0, Post));
    steps, s := Take(Start(n), steps, ALL, s, OnThread(0, CountSent));
    steps, s := Take(Start(n), steps, ALL, s, OnThread(0, SendFail));
    steps, s := Take(Start(n), steps, ALL, s, OnThread(0, GiveUp));
  }

  /** The time runs out before the slot is free, and then the lock of the space cannot be had: the
      invalidation fails and the space takes changes as before. */
  lemma NoLockRun(n: nat) returns (steps: seq<Step>, s: State)
    requires n >= 2
    ensures Reaches(Start(n), steps, ALL, s) && |s.ops| == 1 && s.ops[0].phase.Failed?
    ensures forall m: Mutation | m.space == 1 :: Enabled(s, Mutate(m))
  {
    steps, s := AboutToAsk(n);
    steps, s := Take(Start(n), steps, ALL, s, OnThread(0, LeaveEarly));
    steps, s := Take(Start(n), steps, ALL, s, OnThread(0, Abandon));
  }

  /** The request is refused before the wait is entered. Whether the space then takes changes
      depends only on whether its lock can be had. */
  lemma RefusedRun(n: nat, locked: bool) returns (steps: seq<Step>, s: State)
    requires n >= 1
    ensures Reaches(Start(n), steps, ALL, s) && |s.ops| == 1 && s.ops[0].phase.Failed? && s.ops[0].acked == {}
    ensures forall m: Mutation | m.space == 1 :: Enabled(s, Mutate(m)) <==> !locked
  {
    steps, s := [], Start(n);
    steps, s := Take(Start(n), steps, ALL, s, CreateSpace);
    steps, s := Adopt(Start(n), steps, ALL, s, 0, 1);
    steps, s := Take(Start(n), steps, ALL, s, Mutate(Mutation(1, 0, 1)));
    steps, s := Take(Start(n), steps, ALL, s, OnThread(0, Capture));
    steps, s := Take(Start(n), steps, ALL, s, OnThread(0, if locked then GiveUp else Abandon));
  }

  /** Nobody answers before the deadline. */
  lemma DeadlineRun(n: nat) returns (steps: seq<Step>, s: State)
    requires n >= 2
    ensures Reaches(Start(n), steps, ALL, s) && |s.cpus| == n && |s.ops| == 1 && s.ops[0].phase.Failed?
    ensures s.cpus[1].pending && s.cpus[1].ipi && s.cpus[0].sent == 1
    ensures forall m: Mutation | m.space == 1 :: !Enabled(s, Mutate(m))
  {
    steps, s := AboutToAsk(n);
    steps, s := Deliver(Start(n), steps, ALL, s, 0);
    steps, s := Take(Start(n), steps, ALL, s, OnThread(0, LeaveEarly));
    steps, s := Take(Start(n), steps, ALL, s, OnThread(0, GiveUp));
  }

  /** A change of a space that no CPU has used succeeds without any wait. */
  lemma NobodyRun(n: nat) returns (steps: seq<Step>, s: State)
    ensures Reaches(Start(n), steps, ALL, s) && |steps| == 4 && |s.ops| == 1 && s.ops[0].phase.Succeeded?
    ensures forall m: Mutation | m.space == 1 :: Enabled(s, Mutate(m))
  {
    s := Do(Start(n), CreateSpace);
    s := Do(s, Mutate(Mutation(1, 0, 1)));
    s := Do(s, OnThread(0, Capture));
    s := Do(s, OnThread(0, Succeed));
    steps := [CreateSpace, Mutate(Mutation(1, 0, 1)), OnThread(0, Capture), OnThread(0, Succeed)];
  }

  /** A run is its beginning and its rest. */
  lemma {:induction false} Split(s: State, steps: seq<Step>, i: nat)
    requires Possible(s, steps) && i <= |steps|
    ensures Possible(s, steps[..i]) && Possible(After(s, steps[..i]), steps[i..])
    ensures After(After(s, steps[..i]), steps[i..]) == After(s, steps)
    decreases i
  {
    if i > 0 {
      Split(Do(s, steps[0]), steps[1..], i - 1);
      assert steps[..i][1..] == steps[1..][..i - 1] && steps[1..][i - 1..] == steps[i..];
    } else {
      assert steps[..0] == [] && steps[0..] == steps;
    }
  }
}
