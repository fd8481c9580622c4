/**
 Generations, tokens and acknowledgement pairs: when two invalidations carry the same
 pair, and what the pair on a CPU says.
 */
module TlbPairs {
  import opened Basics
  import opened TlbModel
  import opened TlbSlots

  /** A user space starts at generation 1 and token 0, and takes both together. */
  predicate SpaceNumbers(s: State, sp: nat)
    requires sp < |s.spaces|
  {
    sp != 0 ==> s.spaces[sp].gen == s.spaces[sp].token + 1
  }

  /** The generation is one ahead of the token, as in every user space. */
  predicate Straight(o: Op) { o.gen == o.token + 1 }

  /** A captured invalidation keeps the numbers it took; an unfinished one of a user space
      holds the gate and is the newest. */
  predicate OpNumbers(s: State, k: nat)
    requires Shape(s) && k < |s.ops|
  {
    var o, sp := s.ops[k], s.muts[k].space;
    && (o.phase.Drawn? ==> sp == 0)
    && (!Uncaptured(o.phase) ==> 1 <= o.token <= s.spaces[sp].token && (sp != 0 ==> Straight(o)))
    && (sp != 0 && !Finished(o.phase) ==>
          && s.spaces[sp].busy
          && (!Uncaptured(o.phase) ==> o.token == s.spaces[sp].token))
  }

  /** Two invalidations of one space never share a token, and those of a user space follow
      each other. */
  predicate TwoNumbers(s: State, j: nat, k: nat)
    requires Shape(s) && j < |s.ops| && k < |s.ops|
  {
    j != k && s.muts[j].space == s.muts[k].space ==>
      && (!Uncaptured(s.ops[j].phase) && !Uncaptured(s.ops[k].phase) ==> s.ops[j].token != s.ops[k].token)
      && (s.muts[j].space != 0 ==> Finished(s.ops[j].phase) || Finished(s.ops[k].phase))
  }

  predicate Numbers(s: State)
    requires Shape(s)
  {
    && (forall sp | 0 <= sp < |s.spaces| :: SpaceNumbers(s, sp))
    && (forall k | 0 <= k < |s.ops| :: OpNumbers(s, k))
    && (forall j, k | 0 <= j < |s.ops| && 0 <= k < |s.ops| :: TwoNumbers(s, j, k))
  }

  /** The pair on a CPU is the pair of the last request it handled, except while the
      handler is replacing it. */
  predicate AckOk(s: State, c: nat)
    requires Shape(s) && c < |s.cpus|
  {
    var u := s.cpus[c];
    && (u.lastAck.Some? ==>
          && u.lastAck.value < |s.ops|
          && !Uncaptured(s.ops[u.lastAck.value].phase)
          && c in s.ops[u.lastAck.value].published)
    && (!Busy(u.handler) || u.handler.Read? || u.handler.Flushed? ==>
          if u.lastAck.None? then u.ackToken == 0 && u.ackGen == 0
          else u.ackToken == s.ops[u.lastAck.value].token && u.ackGen == s.ops[u.lastAck.value].gen)
    && (u.handler.GenStored? ==> u.ackGen == u.slot.gen)
    && (u.handler.TokenStored? ==> u.ackGen == u.slot.gen && u.ackToken == u.slot.token)
  }

  /** A CPU that has freed its slot has handled the request that was posted there last. */
  predicate AnswerOk(s: State, c: nat)
    requires Shape(s) && c < |s.cpus|
  {
    var u := s.cpus[c];
    u.owner < |s.ops| && c in s.ops[u.owner].published && !u.pending ==> u.lastAck == Some(u.owner)
  }

  predicate Acks(s: State)
    requires Shape(s)
  {
    forall c | 0 <= c < |s.cpus| :: AckOk(s, c) && AnswerOk(s, c)
  }

  predicate Paired(s: State) {
    Slots(s) && Numbers(s) && Acks(s)
  }

  // ----- Every step keeps it -----

  /** No invalidation was begun or changed, and no space changed its numbers. */
  lemma NumbersElsewhere(s: State, t: State)
    requires Shape(s) && Shape(t) && Numbers(s) && t.ops == s.ops && t.muts == s.muts && |s.spaces| <= |t.spaces|
    requires forall sp | 0 <= sp < |s.spaces| :: SameNumbers(s.spaces[sp], t.spaces[sp])
    requires forall sp | |s.spaces| <= sp < |t.spaces| :: SpaceNumbers(t, sp)
    ensures Numbers(t)
  {
    forall k | 0 <= k < |t.ops| ensures OpNumbers(t, k) { assert OpNumbers(s, k); }
    forall j, k | 0 <= j < |t.ops| && 0 <= k < |t.ops| ensures TwoNumbers(t, j, k) { assert TwoNumbers(s, j, k); }
    forall sp | 0 <= sp < |t.spaces| ensures SpaceNumbers(t, sp) {
      if sp < |s.spaces| { assert SpaceNumbers(s, sp); }
    }
  }

  predicate SameNumbers(u: Space, v: Space) { v.token == u.token && v.gen == u.gen && v.busy == u.busy }

  lemma NumbersAtMutate(s: State, m: Mutation)
    requires Slots(s) && Numbers(s) && MutateEnabled(s, m) && Shape(DoMutate(s, m))
    ensures Numbers(DoMutate(s, m))
  {
    var t := DoMutate(s, m);
    forall k | 0 <= k < |t.ops| ensures OpNumbers(t, k) {
      if k < |s.ops| { assert OpNumbers(s, k); }
    }
    forall j, k | 0 <= j < |t.ops| && 0 <= k < |t.ops| ensures TwoNumbers(t, j, k) {
      if j < |s.ops| { assert OpNumbers(s, j); }
      if k < |s.ops| { assert OpNumbers(s, k); }
      if j < |s.ops| && k < |s.ops| { assert TwoNumbers(s, j, k); }
    }
    forall sp | 0 <= sp < |t.spaces| ensures SpaceNumbers(t, sp) { assert SpaceNumbers(s, sp); }
  }

  lemma OtherNumbers(s: State, step: Step)
    requires Slots(s) && Numbers(s) && Enabled(s, step) && Shape(Do(s, step))
    requires !step.OnThread?
    ensures Numbers(Do(s, step))
  {
    if step.Mutate? {
      NumbersAtMutate(s, step.mutation);
    } else {
      NumbersElsewhere(s, Do(s, step));
    }
  }

  /** The thread takes numbers. */
  predicate Draws(step: ThreadStep) { step.Capture? || step.DrawGeneration? || step.DrawToken? }

  /** What every other thread step leaves alone: numbers and gates, ... */
  predicate KeptSpaces(s: State, t: State, k: nat) {
    && Shape(s) && Shape(t) && k < |s.ops| == |t.ops| && t.muts == s.muts && |t.spaces| == |s.spaces|
    && (forall sp | 0 <= sp < |s.spaces| ::
          && t.spaces[sp].token == s.spaces[sp].token && t.spaces[sp].gen == s.spaces[sp].gen
          && (t.spaces[sp].busy == s.spaces[sp].busy ||
              (sp == s.muts[k].space && Finished(t.ops[k].phase))))
  }

  /** ... the pairs of all invalidations, ... */
  predicate KeptOps(s: State, t: State, k: nat) {
    && k < |s.ops| == |t.ops| && !Finished(s.ops[k].phase)
    && (forall j | 0 <= j < |s.ops| :: KeptOp(s.ops[j], t.ops[j]))
  }

  predicate KeptOp(o: Op, p: Op) {
    && p.token == o.token && p.gen == o.gen
    && (Uncaptured(p.phase) <==> Uncaptured(o.phase)) && (p.phase.Drawn? <==> o.phase.Drawn?)
    && o.published <= p.published && (Finished(o.phase) ==> Finished(p.phase))
  }

  /** ... and what handlers have stored. */
  predicate KeptCpus(s: State, t: State) {
    && |t.cpus| == |s.cpus|
    && (forall c | 0 <= c < |s.cpus| :: KeptCpu(s.cpus[c], t.cpus[c]))
  }

  predicate KeptCpu(u: Cpu, v: Cpu) {
    && v.handler == u.handler && v.lastAck == u.lastAck && v.ackGen == u.ackGen && v.ackToken == u.ackToken
    && (v.slot == u.slot || !Busy(u.handler))
  }

  lemma ThreadKeepsSpaces(s: State, k: nat, step: ThreadStep)
    requires Shape(s) && ThreadEnabled(s, k, step) && Shape(DoThread(s, k, step)) && !Draws(step)
    ensures KeptSpaces(s, DoThread(s, k, step), k)
  {
  }

  lemma ThreadKeepsOps(s: State, k: nat, step: ThreadStep)
    requires Shape(s) && ThreadEnabled(s, k, step) && Shape(DoThread(s, k, step)) && !Draws(step)
    ensures KeptOps(s, DoThread(s, k, step), k)
  {
  }

  lemma ThreadKeepsCpus(s: State, k: nat, step: ThreadStep)
    requires Slots(s) && ThreadEnabled(s, k, step) && !Draws(step)
    ensures KeptCpus(s, DoThread(s, k, step))
  {
    assert OpOk(s, k) && ClaimOk(s, k);
    if step.FillHead? || step.FillTail? { assert SlotOk(s, s.ops[k].phase.next); }
  }

  lemma KeptNumbers(s: State, t: State, k: nat)
    requires Shape(s) && Numbers(s) && KeptSpaces(s, t, k) && KeptOps(s, t, k)
    ensures Numbers(t)
  {
    forall sp | 0 <= sp < |t.spaces| ensures SpaceNumbers(t, sp) { assert SpaceNumbers(s, sp); }
    forall j | 0 <= j < |t.ops| ensures OpNumbers(t, j) {
      assert OpNumbers(s, j) && TwoNumbers(s, j, k) && KeptOp(s.ops[j], t.ops[j]);
    }
    forall i, j | 0 <= i < |t.ops| && 0 <= j < |t.ops| ensures TwoNumbers(t, i, j) {
      assert TwoNumbers(s, i, j) && KeptOp(s.ops[i], t.ops[i]) && KeptOp(s.ops[j], t.ops[j]);
    }
  }

  lemma KeptAcks(s: State, t: State, k: nat)
    requires Shape(s) && Shape(t) && Acks(s) && KeptOps(s, t, k) && KeptCpus(s, t)
    requires forall c | 0 <= c < |t.cpus| :: AnswerOk(t, c)
    ensures Acks(t)
  {
    forall c | 0 <= c < |t.cpus| ensures AckOk(t, c) {
      assert AckOk(s, c) && KeptCpu(s.cpus[c], t.cpus[c]);
      if s.cpus[c].lastAck.Some? {
        var j := s.cpus[c].lastAck.value;
        assert KeptOp(s.ops[j], t.ops[j]);
      }
    }
  }

  /** A posted request is pending, and one whose interrupt failed was never published. */
  lemma ThreadAnswers(s: State, k: nat, step: ThreadStep)
    requires Slots(s) && Acks(s) && ThreadEnabled(s, k, step) && Shape(DoThread(s, k, step))
    ensures var t := DoThread(s, k, step); forall c | 0 <= c < |t.cpus| :: AnswerOk(t, c)
  {
    var t := DoThread(s, k, step);
    assert OpOk(s, k) && ClaimOk(s, k);
    forall c | 0 <= c < |t.cpus| ensures AnswerOk(t, c) { assert AnswerOk(s, c); }
  }

  lemma DrawNumbers(s: State, k: nat, step: ThreadStep)
    requires Shape(s) && Numbers(s) && Draws(step) && ThreadEnabled(s, k, step) && Shape(DoThread(s, k, step))
    ensures Numbers(DoThread(s, k, step))
  {
    var t := DoThread(s, k, step);
    assert OpNumbers(s, k) && SpaceNumbers(s, s.muts[k].space);
    forall sp | 0 <= sp < |t.spaces| ensures SpaceNumbers(t, sp) { assert SpaceNumbers(s, sp); }
    forall j | 0 <= j < |t.ops| ensures OpNumbers(t, j) {
      assert OpNumbers(s, j) && TwoNumbers(s, j, k);
    }
    forall i, j | 0 <= i < |t.ops| && 0 <= j < |t.ops| ensures TwoNumbers(t, i, j) {
      assert TwoNumbers(s, i, j) && OpNumbers(s, i) && OpNumbers(s, j);
    }
  }

  lemma DrawAcks(s: State, k: nat, step: ThreadStep)
    requires Slots(s) && Acks(s) && Draws(step) && ThreadEnabled(s, k, step) && Shape(DoThread(s, k, step))
    ensures Acks(DoThread(s, k, step))
  {
    var t := DoThread(s, k, step);
    ThreadAnswers(s, k, step);
    forall c | 0 <= c < |t.cpus| ensures AckOk(t, c) { assert AckOk(s, c); }
  }

  lemma HandlerAcks(s: State, c: nat, step: HandlerStep)
    requires Slots(s) && Acks(s) && HandlerEnabled(s, c, step)
    ensures Acks(DoHandler(s, c, step))
  {
    var t := DoHandler(s, c, step);
    assert SlotOk(s, c);
    forall d | 0 <= d < |t.cpus| ensures AckOk(t, d) && AnswerOk(t, d) { assert AckOk(s, d) && AnswerOk(s, d); }
  }

  predicate SameAcks(u: Cpu, v: Cpu) {
    && v.handler == u.handler && v.lastAck == u.lastAck && v.ackGen == u.ackGen && v.ackToken == u.ackToken
    && v.slot == u.slot && v.owner == u.owner && v.pending == u.pending
  }

  /** No CPU's slot, pair or handler changed, and at most an invalidation was begun. */
  lemma AcksElsewhere(s: State, t: State)
    requires Shape(s) && Shape(t) && Acks(s) && |t.cpus| == |s.cpus|
    requires t.ops == s.ops || (|t.ops| == |s.ops| + 1 && t.ops[..|s.ops|] == s.ops && t.ops[|s.ops|].published == {})
    requires forall c | 0 <= c < |s.cpus| :: SameAcks(s.cpus[c], t.cpus[c])
    ensures Acks(t)
  {
    assert forall k | 0 <= k < |s.ops| :: t.ops[k] == s.ops[k];
    forall c | 0 <= c < |t.cpus| ensures AckOk(t, c) && AnswerOk(t, c) {
      assert AckOk(s, c) && AnswerOk(s, c) && SameAcks(s.cpus[c], t.cpus[c]);
    }
  }

  lemma StepPaired(s: State, step: Step, w: Conditions)
    requires Paired(s) && Enabled(s, step) && w.soleClaims && Obeys(s, step, w)
    ensures Paired(Do(s, step))
  {
    var t := Do(s, step);
    StepSlots(s, step, w);
    if step.OnThread? && Draws(step.thread) {
      DrawNumbers(s, step.op, step.thread);
      DrawAcks(s, step.op, step.thread);
    } else if step.OnThread? {
      ThreadKeepsSpaces(s, step.op, step.thread);
      ThreadKeepsOps(s, step.op, step.thread);
      ThreadKeepsCpus(s, step.op, step.thread);
      ThreadAnswers(s, step.op, step.thread);
      KeptNumbers(s, t, step.op);
      KeptAcks(s, t, step.op);
    } else {
      OtherNumbers(s, step);
      if step.OnHandler? { HandlerAcks(s, step.cpu, step.handler); } else { AcksElsewhere(s, t); }
    }
  }

  lemma {:induction false} RunPaired(s: State, steps: seq<Step>, w: Conditions)
    requires Paired(s) && Possible(s, steps) && w.soleClaims && RunObeys(s, steps, w)
    ensures Paired(After(s, steps))
    decreases |steps|
  {
    if steps != [] {
      StepPaired(s, steps[0], w);
      RunPaired(Do(s, steps[0]), steps[1..], w);
    }
  }

  lemma InitPaired(s: State)
    requires Init(s)
    ensures Paired(s)
  {
  }

  // ----- Results -----

  /** The two invalidations belong to different spaces that have counted equally far. A user
      space always counts straight, the kernel only where its draws overlapped. */
  predicate Collide(s: State, j: nat, k: nat)
    requires j < |s.ops| && k < |s.ops| && |s.ops| == |s.muts|
  {
    && s.muts[j].space != s.muts[k].space && s.ops[j].token == s.ops[k].token
    && Straight(s.ops[j]) && Straight(s.ops[k])
  }

  /** Two captured invalidations carry the same pair exactly when they count the same
      number of invalidations in two different spaces, and if one of them is the kernel's, its
      generation was drawn one ahead of its token. */
  lemma SamePairIff(s: State, j: nat, k: nat)
    requires Slots(s) && Numbers(s) && j < |s.ops| && k < |s.ops| && j != k
    requires !Uncaptured(s.ops[j].phase) && !Uncaptured(s.ops[k].phase)
    ensures s.ops[j].token == s.ops[k].token && s.ops[j].gen == s.ops[k].gen <==> Collide(s, j, k)
    ensures s.muts[k].space != 0 ==> Straight(s.ops[k])
  {
    assert OpNumbers(s, j) && OpNumbers(s, k) && TwoNumbers(s, j, k);
  }

  /** Whether a request is posted over its own pair can be read off before posting: it is
      exactly when the last request the CPU handled collides with it. */
  lemma PairReusedIff(s: State, steps: seq<Step>, w: Conditions, k: nat)
    requires Init(s) && Possible(s, steps) && w.soleClaims && RunObeys(s, steps, w)
    requires ThreadEnabled(After(s, steps), k, Post)
    ensures var t := After(s, steps);
            var c := t.ops[k].phase.next;
            !FreshPair(t, k, c) <==>
              && t.cpus[c].lastAck.Some? && t.cpus[c].lastAck.value < |t.ops| == |t.muts|
              && Collide(t, t.cpus[c].lastAck.value, k)
  {
    InitPaired(s);
    RunPaired(s, steps, w);
    var t := After(s, steps);
    var c := t.ops[k].phase.next;
    assert OpOk(t, k) && ClaimOk(t, k) && SlotOk(t, c) && AckOk(t, c) && OpNumbers(t, k);
    if t.cpus[c].lastAck.Some? {
      SamePairIff(t, t.cpus[c].lastAck.value, k);
    }
  }

  // ----- The kernel's numbers -----

  predicate NoneDrawn(s: State) { forall k | 0 <= k < |s.ops| :: !s.ops[k].phase.Drawn? }

  /** No kernel-wide invalidation takes its generation while another is about to take its
      token. */
  predicate DrawsApart(s: State, steps: seq<Step>)
    requires Possible(s, steps)
    decreases |steps|
  {
    steps != [] ==>
      && (steps[0].OnThread? && steps[0].thread.DrawGeneration? ==> NoneDrawn(s))
      && DrawsApart(Do(s, steps[0]), steps[1..])
  }

  /** Then the kernel's generations and tokens keep step. */
  predicate InStep(s: State)
    requires Shape(s)
  {
    && (forall k | 0 <= k < |s.ops| :: KernelOp(s, k))
    && (NoneDrawn(s) ==> s.spaces[0].gen == s.spaces[0].token)
    && (forall j, k | 0 <= j < |s.ops| && 0 <= k < |s.ops| :: s.ops[j].phase.Drawn? && s.ops[k].phase.Drawn? ==> j == k)
  }

  predicate KernelOp(s: State, k: nat)
    requires Shape(s) && k < |s.ops|
  {
    s.muts[k].space == 0 ==>
      && (!Uncaptured(s.ops[k].phase) ==> s.ops[k].gen == s.ops[k].token)
      && (s.ops[k].phase.Drawn? ==> s.ops[k].gen == s.spaces[0].gen == s.spaces[0].token + 1)
  }

  /** The kernel's counters and the kernel's invalidations stayed as they were. */
  predicate KeptKernel(s: State, t: State) {
    && Shape(s) && Shape(t) && |t.ops| >= |s.ops| && |t.spaces| >= |s.spaces|
    && t.spaces[0].gen == s.spaces[0].gen && t.spaces[0].token == s.spaces[0].token
    && (forall k | 0 <= k < |s.ops| :: t.muts[k] == s.muts[k] && KeptKernelOp(s.muts[k].space, s.ops[k], t.ops[k]))
    && (forall k | |s.ops| <= k < |t.ops| :: t.ops[k].phase.Mutated?)
  }

  predicate KeptKernelOp(sp: nat, o: Op, p: Op) {
    && (p.phase.Drawn? <==> o.phase.Drawn?)
    && (sp == 0 ==> p.gen == o.gen && p.token == o.token && (Uncaptured(p.phase) <==> Uncaptured(o.phase)))
  }

  lemma KeptInStep(s: State, t: State)
    requires Shape(s) && InStep(s) && KeptKernel(s, t)
    ensures InStep(t)
  {
    forall k | 0 <= k < |t.ops| ensures KernelOp(t, k) {
      if k < |s.ops| { assert KernelOp(s, k) && KeptKernelOp(s.muts[k].space, s.ops[k], t.ops[k]); }
    }
    forall k | 0 <= k < |t.ops| && t.ops[k].phase.Drawn? ensures k < |s.ops| && s.ops[k].phase.Drawn? {
      assert k < |s.ops| ==> KeptKernelOp(s.muts[k].space, s.ops[k], t.ops[k]);
    }
    forall k | 0 <= k < |s.ops| && s.ops[k].phase.Drawn? ensures t.ops[k].phase.Drawn? {
      assert KeptKernelOp(s.muts[k].space, s.ops[k], t.ops[k]);
    }
  }

  lemma DrawsInStep(s: State, k: nat, step: ThreadStep)
    requires Shape(s) && InStep(s) && ThreadEnabled(s, k, step) && Shape(DoThread(s, k, step))
    requires step.DrawToken? || (step.DrawGeneration? && NoneDrawn(s))
    ensures InStep(DoThread(s, k, step))
  {
    var t := DoThread(s, k, step);
    assert KernelOp(s, k);
    assert step.DrawGeneration? ==> t.ops[k].phase.Drawn?;
    forall j | 0 <= j < |t.ops| ensures KernelOp(t, j) { assert KernelOp(s, j); }
  }

  lemma StepInStep(s: State, step: Step)
    requires Shape(s) && InStep(s) && Enabled(s, step) && Shape(Do(s, step))
    requires step.OnThread? && step.thread.DrawGeneration? ==> NoneDrawn(s)
    ensures InStep(Do(s, step))
  {
    if step.OnThread? && (step.thread.DrawGeneration? || step.thread.DrawToken?) {
      DrawsInStep(s, step.op, step.thread);
    } else {
      if step.OnThread? { ThreadKeepsKernel(s, step.op, step.thread); } else { OtherKeepsKernel(s, step); }
      KeptInStep(s, Do(s, step));
    }
  }

  lemma ThreadKeepsKernel(s: State, k: nat, step: ThreadStep)
    requires Shape(s) && ThreadEnabled(s, k, step) && Shape(DoThread(s, k, step))
    requires !step.DrawGeneration? && !step.DrawToken?
    ensures KeptKernel(s, DoThread(s, k, step))
  {
    if !step.Capture? {
      var t := DoThread(s, k, step);
      ThreadKeepsSpaces(s, k, step);
      ThreadKeepsOps(s, k, step);
      forall j | 0 <= j < |s.ops| ensures KeptKernelOp(s.muts[j].space, s.ops[j], t.ops[j]) {
        assert KeptOp(s.ops[j], t.ops[j]);
      }
    }
  }

  lemma OtherKeepsKernel(s: State, step: Step)
    requires Shape(s) && Enabled(s, step) && Shape(Do(s, step)) && !step.OnThread?
    ensures KeptKernel(s, Do(s, step))
  {
  }

  lemma {:induction false} RunInStep(s: State, steps: seq<Step>, w: Conditions)
    requires Slots(s) && InStep(s) && Possible(s, steps) && w.soleClaims && RunObeys(s, steps, w)
    requires DrawsApart(s, steps)
    ensures Shape(After(s, steps)) && InStep(After(s, steps))
    decreases |steps|
  {
    if steps != [] {
      StepSlots(s, steps[0], w);
      StepInStep(s, steps[0]);
      RunInStep(Do(s, steps[0]), steps[1..], w);
    }
  }

  /** As long as kernel-wide invalidations take their numbers one after the other, one user
      space and the kernel never meet the same pair twice. */
  lemma OneSpaceIsFresh(s: State, steps: seq<Step>, w: Conditions, sp: nat, k: nat)
    requires Init(s) && Possible(s, steps) && w.soleClaims && RunObeys(s, steps, w) && DrawsApart(s, steps)
    requires forall m | m in After(s, steps).muts :: m.space == 0 || m.space == sp
    requires ThreadEnabled(After(s, steps), k, Post)
    ensures FreshPair(After(s, steps), k, After(s, steps).ops[k].phase.next)
  {
    InitPaired(s);
    RunPaired(s, steps, w);
    RunInStep(s, steps, w);
    PairReusedIff(s, steps, w, k);
    var t := After(s, steps);
    var c := t.ops[k].phase.next;
    assert OpOk(t, k) && AckOk(t, c) && KernelOp(t, k);
    if t.cpus[c].lastAck.Some? { assert KernelOp(t, t.cpus[c].lastAck.value); }
  }

  /** The token is checked again under the lock before success is reported; the gate makes
      that check hold for every invalidation still under way. */
  lemma RecheckNeverFails(s: State, steps: seq<Step>, w: Conditions, k: nat)
    requires Init(s) && Possible(s, steps) && w.soleClaims && RunObeys(s, steps, w)
    requires k < |After(s, steps).ops|
    requires Inside(After(s, steps).ops[k].phase) || After(s, steps).ops[k].phase.Left?
    ensures var t := After(s, steps);
            && IsOp(t, k)
            && (t.muts[k].space != 0 ==>
                  t.spaces[t.muts[k].space].token == t.ops[k].token && t.spaces[t.muts[k].space].gen == t.ops[k].gen)
  {
    InitPaired(s);
    RunPaired(s, steps, w);
    var t := After(s, steps);
    assert OpNumbers(t, k) && SpaceNumbers(t, t.muts[k].space);
  }

  /** A CPU outside its handler answers the poll of invalidation k exactly when the last
      request it handled carries k's pair: a later request overwrites the answer. */
  lemma AnswerIsLastHandled(s: State, steps: seq<Step>, w: Conditions, k: nat, c: nat)
    requires Init(s) && Possible(s, steps) && w.soleClaims && RunObeys(s, steps, w)
    requires k < |After(s, steps).ops| && After(s, steps).ops[k].phase.Poll?
    requires c < |After(s, steps).cpus| && !Busy(After(s, steps).cpus[c].handler)
    ensures var t := After(s, steps);
            t.cpus[c].ackToken == t.ops[k].token && t.cpus[c].ackGen == t.ops[k].gen <==>
              && t.cpus[c].lastAck.Some? && t.cpus[c].lastAck.value < |t.ops| == |t.muts|
              && (t.cpus[c].lastAck.value == k || Collide(t, t.cpus[c].lastAck.value, k))
  {
    InitPaired(s);
    RunPaired(s, steps, w);
    var t := After(s, steps);
    assert AckOk(t, c) && OpNumbers(t, k);
    if t.cpus[c].lastAck.Some? && t.cpus[c].lastAck.value != k {
      SamePairIff(t, t.cpus[c].lastAck.value, k);
    }
  }
}
