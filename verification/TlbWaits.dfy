/**
 What one wait at a time on every CPU is worth: on two CPUs no slot is ever claimed twice, and on
 one CPU nothing is posted at all.
 */
module TlbWaits {
  import opened TlbModel
  import opened TlbSlots
  import opened TlbSafety

  /** No two threads wait on the same CPU. */
  predicate OneWait(s: State) {
    forall j, k | 0 <= j < |s.ops| && 0 <= k < |s.ops| :: j != k ==> Apart(s.ops[j], s.ops[k])
  }

  predicate Apart(o: Op, p: Op) { Inside(o.phase) && Inside(p.phase) ==> o.cpu != p.cpu }

  /** Every thread that is inside now was inside before on the same CPU, except for k. */
  predicate OnlyEnters(s: State, t: State, k: nat) {
    && |s.ops| <= |t.ops|
    && (forall j | 0 <= j < |s.ops| && j != k :: SameWait(s.ops[j], t.ops[j]))
    && (forall j | |s.ops| <= j < |t.ops| :: !Inside(t.ops[j].phase))
  }

  predicate SameWait(o: Op, p: Op) { Inside(p.phase) ==> Inside(o.phase) && p.cpu == o.cpu }

  lemma StepEnters(s: State, step: Step)
    requires Enabled(s, step)
    ensures var t, k := Do(s, step), if step.OnThread? then step.op else |s.ops|;
            && |t.cpus| == |s.cpus| && OnlyEnters(s, t, k)
            && (step.OnThread? ==>
                  && k < |t.ops|
                  && if step.thread.Enter? then t.ops[k].cpu == step.thread.cpu else SameWait(s.ops[k], t.ops[k]))
  {
    match step
    case OnThread(k, a) => ThreadEnters(s, k, a);
    case OnHandler(c, h) => HandlerEnters(s, c, h);
    case OnRoot(c, r) => RootEnters(s, c, r);
    case _ =>
  }

  lemma ThreadEnters(s: State, k: nat, step: ThreadStep)
    requires ThreadEnabled(s, k, step)
    ensures var t := DoThread(s, k, step);
            && |t.cpus| == |s.cpus| && OnlyEnters(s, t, k) && k < |t.ops|
            && if step.Enter? then t.ops[k].cpu == step.cpu else SameWait(s.ops[k], t.ops[k])
  {
  }

  lemma HandlerEnters(s: State, c: nat, step: HandlerStep)
    requires HandlerEnabled(s, c, step)
    ensures |DoHandler(s, c, step).cpus| == |s.cpus| && OnlyEnters(s, DoHandler(s, c, step), |s.ops|)
  {
  }

  lemma RootEnters(s: State, c: nat, step: RootStep)
    requires RootEnabled(s, c, step)
    ensures |DoRoot(s, c, step).cpus| == |s.cpus| && OnlyEnters(s, DoRoot(s, c, step), |s.ops|)
  {
  }

  lemma StepOneWait(s: State, step: Step)
    requires OneWait(s) && Enabled(s, step)
    ensures OneWait(Do(s, step)) && |Do(s, step).cpus| == |s.cpus|
  {
    var t := Do(s, step);
    StepEnters(s, step);
    forall j, k | 0 <= j < |t.ops| && 0 <= k < |t.ops| && j != k ensures Apart(t.ops[j], t.ops[k]) {
      if j < |s.ops| && k < |s.ops| { assert Apart(s.ops[j], s.ops[k]); }
    }
  }

  /** Of two CPUs only the other one can claim a slot. */
  lemma ClaimedAlone(s: State, k: nat)
    requires Slots(s) && OneWait(s) && |s.cpus| <= 2 && ThreadEnabled(s, k, Observe)
    ensures SoleClaim(s, k, s.ops[k].phase.next)
  {
    forall j | 0 <= j < |s.ops| && j != k ensures !Claiming(s.ops[j].phase, s.ops[k].phase.next) {
      assert OpOk(s, j) && OpOk(s, k) && Apart(s.ops[j], s.ops[k]);
    }
  }

  /** On at most two CPUs every run claims slots one thread at a time, whatever else it obeys. */
  lemma {:induction false} RunClaimsAlone(s: State, steps: seq<Step>, w: Conditions)
    requires Slots(s) && OneWait(s) && |s.cpus| <= 2
    requires Possible(s, steps) && RunObeys(s, steps, w.(soleClaims := false))
    ensures RunObeys(s, steps, w.(soleClaims := true))
    decreases |steps|
  {
    if steps != [] {
      var step := steps[0];
      if step.OnThread? && step.thread.Observe? { ClaimedAlone(s, step.op); }
      assert Obeys(s, step, w.(soleClaims := true));
      StepSlots(s, step, w.(soleClaims := true));
      StepOneWait(s, step);
      RunClaimsAlone(Do(s, step), steps[1..], w);
    }
  }

  /** On one CPU no request is ever posted. */
  lemma {:induction false} RunPostsNothing(s: State, steps: seq<Step>, w: Conditions)
    requires Slots(s) && |s.cpus| <= 1 && w.soleClaims
    requires Possible(s, steps) && RunObeys(s, steps, w.(freshPairs := false))
    ensures RunObeys(s, steps, w.(freshPairs := true))
    decreases |steps|
  {
    if steps != [] {
      var step := steps[0];
      if step.OnThread? { assert OpOk(s, step.op); }
      StepSlots(s, step, w);
      StepEnters(s, step);
      RunPostsNothing(Do(s, step), steps[1..], w);
    }
  }

  /** Without CPUs nothing is ever flushed. */
  lemma {:induction false} RunFlushesNothing(s: State, steps: seq<Step>, w: Conditions)
    requires s.cpus == [] && Possible(s, steps) && RunObeys(s, steps, w)
    ensures RunObeys(s, steps, w.(noSkips := true, noReverts := true))
    decreases |steps|
  {
    if steps != [] {
      StepEnters(s, steps[0]);
      RunFlushesNothing(Do(s, steps[0]), steps[1..], w);
    }
  }

  /** On two CPUs invalidation is safe in every run that obeys the other three conditions. */
  lemma RetiredNeverCachedOnTwo(s: State, steps: seq<Step>, c: nat, e: Entry)
    requires Init(s) && |s.cpus| <= 2 && Possible(s, steps) && RunObeys(s, steps, ALL.(soleClaims := false))
    requires c < |After(s, steps).cpus| && e in After(s, steps).cpus[c].tlb
    ensures Shape(After(s, steps)) && !Retired(After(s, steps), e)
  {
    InitSlots(s);
    RunClaimsAlone(s, steps, ALL);
    RetiredNeverCached(s, steps, c, e);
  }
}
