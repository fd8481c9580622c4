/**
 What the request slots, the acknowledgement pairs and the counters keep in every run
 in which no two threads claim the same slot at once.
 */
module TlbSlots {
  import opened TlbModel

  // ----- Four conditions on runs -----

  /** No other thread stands between seeing t's slot free and marking it used. */
  predicate SoleClaim(s: State, k: nat, t: nat) {
    forall j | 0 <= j < |s.ops| :: j != k ==> !Claiming(s.ops[j].phase, t)
  }

  /** Before posting to t, the acknowledgement pair on t is not already the one that
      will be waited for. */
  predicate FreshPair(s: State, k: nat, t: nat)
    requires IsOp(s, k) && IsCpu(s, t)
  {
    s.cpus[t].ackToken != s.ops[k].token || s.cpus[t].ackGen != s.ops[k].gen
  }

  /** Between the two writes by which a CPU changes its root. */
  predicate Between(u: Cpu) { u.switching.Switched? || u.switching.Leaving? }

  /** The CPU is between the two writes, with the root of a user space loaded that it does not
      record. A flush of that space is skipped. */
  predicate Unrecorded(u: Cpu, sp: nat) {
    Between(u) && sp != 0 && u.root == sp && u.loaded != sp
  }

  /** The CPU has loaded the root of another space and still records the one of the request,
      which flushes everything. The flush loads the old root again. */
  predicate Reverts(u: Cpu, r: Request) {
    && u.switching.Switched? && r.space != 0 && u.loaded == r.space && Full(r)
    && u.switching.space != r.space
  }

  /** Which conditions are asked for: seeing a slot free and taking it is one action as far
      as other threads can tell (`soleClaims`), a request is posted only over a different
      acknowledgement pair (`freshPairs`), no flush of a space lands on a CPU that has loaded its
      root and not recorded it yet, or not any more (`noSkips`), and no flush of everything in the
      space that a CPU is leaving lands after it has loaded the new root (`noReverts`). All other
      flushes may land anywhere in a change of root. */
  datatype Conditions = Conditions(soleClaims: bool, freshPairs: bool, noSkips: bool, noReverts: bool)

  const ALL: Conditions := Conditions(true, true, true, true)

  predicate FlushObeys(u: Cpu, r: Request, w: Conditions) {
    (w.noSkips ==> !Unrecorded(u, r.space)) && (w.noReverts ==> !Reverts(u, r))
  }

  predicate Obeys(s: State, step: Step, w: Conditions)
    requires Enabled(s, step)
  {
    match step
    case OnThread(k, Observe) => w.soleClaims ==> SoleClaim(s, k, s.ops[k].phase.next)
    case OnThread(k, Post) => w.freshPairs ==> FreshPair(s, k, s.ops[k].phase.next)
    case OnThread(k, Enter(c)) => c in s.ops[k].targets ==> FlushObeys(s.cpus[c], RequestOf(s, k), w)
    case OnHandler(c, HandlerFlush) => FlushObeys(s.cpus[c], s.cpus[c].handler.req, w)
    case _ => true
  }

  predicate RunObeys(s: State, steps: seq<Step>, w: Conditions)
    requires Possible(s, steps)
    decreases |steps|
  {
    steps != [] ==>
      Obeys(s, steps[0], w) && RunObeys(Do(s, steps[0]), steps[1..], w)
  }

  // ----- The invariant -----

  predicate Shape(s: State) {
    && |s.muts| == |s.ops| && |s.spaces| > 0
    && (forall k | 0 <= k < |s.muts| :: s.muts[k].space < |s.spaces|)
    && (forall sp | 0 <= sp < |s.spaces| ::
          forall c | c in s.spaces[sp].cached :: c < |s.cpus|)
  }

  /** A used slot holds exactly the request of the invalidation that posted it; an interrupt
      is on its way or the handler works on it, or else the interrupt is still to be sent. */
  predicate SlotOk(s: State, c: nat)
    requires Shape(s) && c < |s.cpus|
  {
    var u := s.cpus[c];
    && (Busy(u.handler) ==> u.pending && u.handler.req == u.slot)
    && (u.ipi ==> u.pending && !Busy(u.handler))
    && (u.pending ==>
          && u.owner < |s.ops|
          && !Uncaptured(s.ops[u.owner].phase)
          && u.slot == RequestOf(s, u.owner)
          && (if u.ipi || Busy(u.handler) then c in s.ops[u.owner].published
              else Holding(s.ops[u.owner].phase, c)))
    && u.received == u.acks + (if u.handler.Idle? then 0 else 1)
  }

  /** What an invalidation's own variables say about each other. */
  predicate OpOk(s: State, k: nat)
    requires Shape(s) && k < |s.ops|
  {
    var o := s.ops[k];
    && (forall c | c in o.targets :: c < |s.cpus|)
    && o.published <= o.targets && o.acked <= o.targets
    && (Uncaptured(o.phase) || o.phase.Captured? ==> o.published == {} && o.acked == {})
    && (o.seen.Some? ==> o.seen.value in o.published && !At(o.phase) && !o.phase.Captured?)
    && (At(o.phase) ==>
          && o.phase.next <= |s.cpus| && o.cpu < |s.cpus|
          && (forall c | c in o.published :: c < o.phase.next)
          && (!o.phase.Scan? ==>
                o.phase.next < |s.cpus| && o.phase.next in o.targets && o.phase.next != o.cpu))
    && (o.phase.Succeeded? || o.phase == Left(true) ==> o.targets <= o.acked)
  }

  /** How a thread stands to the slot it claims or holds. */
  predicate ClaimOk(s: State, k: nat)
    requires Shape(s) && k < |s.ops| && OpOk(s, k)
  {
    var p := s.ops[k].phase;
    && (p.Observed? || p.HeadFilled? || p.Filled? ==>
          !s.cpus[p.next].pending && SoleClaim(s, k, p.next))
    && (p.HeadFilled? ==>
          var slot, r := s.cpus[p.next].slot, RequestOf(s, k);
          slot.space == r.space && slot.token == r.token && slot.gen == r.gen)
    && (p.Filled? ==> s.cpus[p.next].slot == RequestOf(s, k))
    && (p.Marked? || p.Posted? ==> s.cpus[p.next].pending && s.cpus[p.next].owner == k)
  }

  predicate Slots(s: State) {
    && Shape(s)
    && (forall c | 0 <= c < |s.cpus| :: SlotOk(s, c))
    && (forall k | 0 <= k < |s.ops| :: OpOk(s, k) && ClaimOk(s, k))
  }

  // ----- Frames: what may change without disturbing the rest -----

  predicate SameSpaces(s: State, t: State) {
    && |t.spaces| == |s.spaces|
    && (forall sp | 0 <= sp < |s.spaces| :: t.spaces[sp].cached == s.spaces[sp].cached)
  }

  /** Nothing but roots, records, TLBs and spaces changed. */
  predicate RootChange(s: State, t: State) {
    && Shape(s) && Shape(t) && |t.cpus| == |s.cpus|
    && t == s.(cpus := t.cpus, spaces := t.spaces)
    && (forall c | 0 <= c < |s.cpus| ::
          t.cpus[c] == s.cpus[c].(root := t.cpus[c].root, loaded := t.cpus[c].loaded,
                                  switching := t.cpus[c].switching, tlb := t.cpus[c].tlb))
  }

  lemma RootFrame(s: State, t: State)
    requires Slots(s) && RootChange(s, t)
    ensures Slots(t)
  {
    forall c | 0 <= c < |t.cpus| ensures SlotOk(t, c) { assert SlotOk(s, c); }
    forall k | 0 <= k < |t.ops| ensures OpOk(t, k) && ClaimOk(t, k) {
      assert OpOk(s, k) && ClaimOk(s, k);
    }
  }

  /** t differs from s in invalidation k only, which keeps its request and its posted slot. */
  predicate OpChange(s: State, t: State, k: nat) {
    && Shape(s) && Shape(t) && k < |s.ops| == |t.ops| && SameSpaces(s, t)
    && t == s.(ops := s.ops[k := t.ops[k]], spaces := t.spaces)
    && var o, p := s.ops[k], t.ops[k];
    && (Uncaptured(o.phase) || (p.token == o.token && p.gen == o.gen && !Uncaptured(p.phase)))
    && !o.phase.Marked? && !o.phase.Posted? && o.published <= p.published
  }

  lemma OpFrame(s: State, t: State, k: nat)
    requires Slots(s) && OpChange(s, t, k) && OpOk(t, k) && ClaimOk(t, k)
    requires !t.ops[k].phase.HeadFilled? && !t.ops[k].phase.Filled?
    ensures Slots(t)
  {
    assert OpOk(s, k) && ClaimOk(s, k);
    forall c | 0 <= c < |t.cpus| ensures SlotOk(t, c) { assert SlotOk(s, c); }
    forall j | 0 <= j < |t.ops| ensures OpOk(t, j) && ClaimOk(t, j) {
      assert OpOk(s, j) && ClaimOk(s, j);
    }
  }

  /** t differs from s in invalidation k, in the slot of CPU c, which nobody else holds or
      claims, and perhaps in counters. */
  predicate SlotChange(s: State, t: State, c: nat, k: nat) {
    && Shape(s) && Shape(t) && k < |s.ops| == |t.ops| && c < |s.cpus| == |t.cpus|
    && SameSpaces(s, t)
    && t == s.(ops := s.ops[k := t.ops[k]], cpus := t.cpus, spaces := t.spaces,
               sendFailures := t.sendFailures)
    && (forall d | 0 <= d < |s.cpus| :: d != c ==> t.cpus[d] == s.cpus[d].(sent := t.cpus[d].sent))
    && (forall j | 0 <= j < |s.ops| :: j != k ==>
          !Claiming(s.ops[j].phase, c) && !Holding(s.ops[j].phase, c))
    && var o, p := s.ops[k], t.ops[k];
    && (Claiming(o.phase, c) || Holding(o.phase, c))
    && p.token == o.token && p.gen == o.gen && !Uncaptured(p.phase) && o.published <= p.published
    && (At(p.phase) ==> p.phase.Scan? || p.phase.next == c)
  }

  lemma SlotFrame(s: State, t: State, c: nat, k: nat)
    requires Slots(s) && SlotChange(s, t, c, k) && OpOk(t, k) && ClaimOk(t, k) && SlotOk(t, c)
    ensures Slots(t)
  {
    forall d | 0 <= d < |t.cpus| ensures SlotOk(t, d) { assert SlotOk(s, d); }
    forall j | 0 <= j < |t.ops| ensures OpOk(t, j) && ClaimOk(t, j) {
      assert OpOk(s, j) && ClaimOk(s, j);
    }
  }

  /** Nobody else claims or holds the slot at which thread k stands. */
  lemma SoleHolder(s: State, k: nat)
    requires Slots(s) && k < |s.ops| && At(s.ops[k].phase) && !s.ops[k].phase.Scan?
    ensures AloneAt(s, k, s.ops[k].phase.next)
  {
    assert OpOk(s, k) && ClaimOk(s, k);
    forall j | 0 <= j < |s.ops| && j != k
      ensures !Claiming(s.ops[j].phase, s.ops[k].phase.next) && !Holding(s.ops[j].phase, s.ops[k].phase.next)
    {
      assert OpOk(s, j) && ClaimOk(s, j);
    }
  }

  // ----- Every step keeps the invariant -----

  lemma InitSlots(s: State)
    requires Init(s)
    ensures Slots(s)
  {
  }

  lemma RootSteps(s: State, step: Step)
    requires Slots(s) && Enabled(s, step)
    requires step.CreateSpace? || step.OnRoot? || step.OnCache?
    ensures Slots(Do(s, step))
  {
    RootFrame(s, Do(s, step));
  }

  lemma MutateStep(s: State, m: Mutation)
    requires Slots(s) && MutateEnabled(s, m)
    ensures Slots(DoMutate(s, m))
  {
    var t := DoMutate(s, m);
    forall c | 0 <= c < |t.cpus| ensures SlotOk(t, c) { assert SlotOk(s, c); }
    forall k | 0 <= k < |t.ops| ensures OpOk(t, k) && ClaimOk(t, k) {
      if k < |s.ops| { assert OpOk(s, k) && ClaimOk(s, k); }
    }
  }

  lemma EnterStep(s: State, k: nat, c: nat)
    requires Slots(s) && ThreadEnabled(s, k, Enter(c))
    ensures Slots(DoEnter(s, k, c))
  {
    assert OpOk(s, k);
    if c in s.ops[k].targets {
      var mid := SetCpu(s, c, Flush(s.cpus[c], RequestOf(s, k)));
      RootFrame(s, mid);
      OpFrame(mid, DoEnter(s, k, c), k);
    } else {
      OpFrame(s, DoEnter(s, k, c), k);
    }
  }

  /** Taking generation, token and targets. */
  lemma DrawSteps(s: State, k: nat, step: ThreadStep)
    requires Slots(s) && ThreadEnabled(s, k, step) && (step.Capture? || step.DrawGeneration? || step.DrawToken?)
    ensures Slots(DoThread(s, k, step))
  {
    assert OpOk(s, k) && ClaimOk(s, k);
    OpFrame(s, DoThread(s, k, step), k);
  }

  /** Steps of the thread that touch no slot. */
  lemma MoveSteps(s: State, k: nat, step: ThreadStep, w: Conditions)
    requires Slots(s) && ThreadEnabled(s, k, step) && w.soleClaims && Obeys(s, OnThread(k, step), w)
    requires step.SkipTarget? || step.Observe? || step.StartPoll?
          || step.PollToken? || step.PollGen? || step.Leave? || step.LeaveEarly?
    ensures Slots(DoThread(s, k, step))
  {
    assert OpOk(s, k) && ClaimOk(s, k);
    OpFrame(s, DoThread(s, k, step), k);
  }

  /** The thread comes to its end. */
  lemma EndSteps(s: State, k: nat, step: ThreadStep)
    requires Slots(s) && ThreadEnabled(s, k, step) && (step.Succeed? || step.GiveUp? || step.Abandon?)
    ensures Slots(DoThread(s, k, step))
  {
    assert OpOk(s, k) && ClaimOk(s, k);
    OpFrame(s, DoThread(s, k, step), k);
  }

  /** Steps of the thread on the slot it claims or holds. */
  predicate OnSlot(step: ThreadStep) {
    step.FillHead? || step.FillTail? || step.Post? || step.CountSent? || step.SendOk? || step.SendFail?
  }

  lemma SlotSteps(s: State, k: nat, step: ThreadStep)
    requires Slots(s) && ThreadEnabled(s, k, step) && OnSlot(step)
    ensures Slots(DoThread(s, k, step))
  {
    var c, t := s.ops[k].phase.next, DoThread(s, k, step);
    assert OpOk(s, k) && ClaimOk(s, k) && SlotOk(s, c);
    SoleHolder(s, k);
    if step.FillHead? || step.FillTail? || step.Post? {
      ClaimSteps(s, k, step);
    } else {
      HoldSteps(s, k, step);
    }
    SlotFrame(s, t, c, k);
  }

  /** What a step on a slot leaves of the thread and the slot themselves. */
  predicate SlotStepOk(s: State, t: State, c: nat, k: nat) {
    SlotChange(s, t, c, k) && OpOk(t, k) && ClaimOk(t, k) && SlotOk(t, c)
  }

  predicate AloneAt(s: State, k: nat, c: nat)
    requires k < |s.ops|
  {
    forall j | 0 <= j < |s.ops| :: j != k ==> !Claiming(s.ops[j].phase, c) && !Holding(s.ops[j].phase, c)
  }

  lemma ClaimSteps(s: State, k: nat, step: ThreadStep)
    requires Shape(s) && ThreadEnabled(s, k, step) && (step.FillHead? || step.FillTail? || step.Post?)
    requires OpOk(s, k) && ClaimOk(s, k) && SlotOk(s, s.ops[k].phase.next) && AloneAt(s, k, s.ops[k].phase.next)
    ensures SlotStepOk(s, DoThread(s, k, step), s.ops[k].phase.next, k)
  {
  }

  lemma HoldSteps(s: State, k: nat, step: ThreadStep)
    requires Shape(s) && ThreadEnabled(s, k, step) && (step.CountSent? || step.SendOk? || step.SendFail?)
    requires OpOk(s, k) && ClaimOk(s, k) && SlotOk(s, s.ops[k].phase.next) && AloneAt(s, k, s.ops[k].phase.next)
    ensures SlotStepOk(s, DoThread(s, k, step), s.ops[k].phase.next, k)
  {
  }

  lemma HandlerSteps(s: State, c: nat, step: HandlerStep)
    requires Slots(s) && HandlerEnabled(s, c, step)
    ensures Slots(DoHandler(s, c, step))
  {
    var t := DoHandler(s, c, step);
    assert SlotOk(s, c);
    forall d | 0 <= d < |t.cpus| ensures SlotOk(t, d) { assert SlotOk(s, d); }
    forall j | 0 <= j < |t.ops| ensures OpOk(t, j) && ClaimOk(t, j) {
      assert OpOk(s, j) && ClaimOk(s, j);
    }
  }

  lemma StepSlots(s: State, step: Step, w: Conditions)
    requires Slots(s) && Enabled(s, step) && w.soleClaims && Obeys(s, step, w)
    ensures Slots(Do(s, step))
  {
    match step
    case Mutate(m) => MutateStep(s, m);
    case OnThread(k, a) =>
      if a.Enter? { EnterStep(s, k, a.cpu); }
      else if OnSlot(a) { SlotSteps(s, k, a); }
      else if a.Capture? || a.DrawGeneration? || a.DrawToken? { DrawSteps(s, k, a); }
      else if a.Succeed? || a.GiveUp? || a.Abandon? { EndSteps(s, k, a); }
      else { MoveSteps(s, k, a, w); }
    case OnHandler(c, h) => HandlerSteps(s, c, h);
    case _ => RootSteps(s, step);
  }

  // ----- Conservation of requests -----

  function Bit(b: bool): int { if b then 1 else 0 }

  /** What a CPU adds to requests sent minus requests handled minus requests waiting. */
  function Share(u: Cpu): int {
    u.sent - u.acks - Bit(u.pending) - Bit(u.handler.Cleared?)
  }

  function Balance(cpus: seq<Cpu>): int {
    if cpus == [] then 0 else Share(cpus[0]) + Balance(cpus[1..])
  }

  function Sent(cpus: seq<Cpu>): int {
    if cpus == [] then 0 else cpus[0].sent + Sent(cpus[1..])
  }

  function Acknowledged(cpus: seq<Cpu>): int {
    if cpus == [] then 0 else cpus[0].acks + Acknowledged(cpus[1..])
  }

  function Waiting(cpus: seq<Cpu>): int {
    if cpus == [] then 0 else Bit(cpus[0].pending) + Waiting(cpus[1..])
  }

  /** CPUs that have freed their slot and not counted it yet. */
  function Uncounted(cpus: seq<Cpu>): int {
    if cpus == [] then 0 else Bit(cpus[0].handler.Cleared?) + Uncounted(cpus[1..])
  }

  /** Threads that have used a slot and not counted it yet. */
  function Marks(ops: seq<Op>): int {
    if ops == [] then 0 else Bit(ops[0].phase.Marked?) + Marks(ops[1..])
  }

  lemma {:induction false} BalanceSplit(cpus: seq<Cpu>)
    ensures Balance(cpus) == Sent(cpus) - Acknowledged(cpus) - Waiting(cpus) - Uncounted(cpus)
  {
    if cpus != [] { BalanceSplit(cpus[1..]); }
  }

  lemma {:induction false} BalanceUpdate(cpus: seq<Cpu>, c: nat, u: Cpu)
    requires c < |cpus|
    ensures Balance(cpus[c := u]) == Balance(cpus) - Share(cpus[c]) + Share(u)
  {
    if c == 0 {
      assert cpus[c := u][1..] == cpus[1..];
    } else {
      assert cpus[c := u][1..] == cpus[1..][c - 1 := u];
      BalanceUpdate(cpus[1..], c - 1, u);
    }
  }

  lemma {:induction false} MarksUpdate(ops: seq<Op>, k: nat, o: Op)
    requires k < |ops|
    ensures Marks(ops[k := o]) == Marks(ops) - Bit(ops[k].phase.Marked?) + Bit(o.phase.Marked?)
  {
    if k == 0 {
      assert ops[k := o][1..] == ops[1..];
    } else {
      assert ops[k := o][1..] == ops[1..][k - 1 := o];
      MarksUpdate(ops[1..], k - 1, o);
    }
  }

  lemma {:induction false} MarksAppend(ops: seq<Op>, o: Op)
    ensures Marks(ops + [o]) == Marks(ops) + Bit(o.phase.Marked?)
  {
    if ops == [] {
      assert [o][1..] == [];
    } else {
      assert (ops + [o])[1..] == ops[1..] + [o];
      MarksAppend(ops[1..], o);
    }
  }

  lemma {:induction false} NothingToBalance(cpus: seq<Cpu>)
    requires forall c | 0 <= c < |cpus| :: Share(cpus[c]) == 0
    ensures Balance(cpus) == 0
  {
    if cpus != [] { NothingToBalance(cpus[1..]); }
  }

  /** Every request is counted where it is. */
  function Account(s: State): int { Balance(s.cpus) + Marks(s.ops) - s.sendFailures }

  /** One CPU changed, and perhaps spaces. */
  lemma CpuAccount(s: State, t: State, c: nat, u: Cpu)
    requires c < |s.cpus| && t.cpus == s.cpus[c := u] && t.ops == s.ops && t.sendFailures == s.sendFailures
    ensures Account(t) == Account(s) - Share(s.cpus[c]) + Share(u)
  {
    BalanceUpdate(s.cpus, c, u);
  }

  /** One CPU and one invalidation changed. */
  lemma BothAccount(s: State, t: State, c: nat, u: Cpu, k: nat, o: Op)
    requires c < |s.cpus| && t.cpus == s.cpus[c := u] && k < |s.ops| && t.ops == s.ops[k := o]
    ensures Account(t) == Account(s) - Share(s.cpus[c]) + Share(u)
              - Bit(s.ops[k].phase.Marked?) + Bit(o.phase.Marked?) - t.sendFailures + s.sendFailures
  {
    BalanceUpdate(s.cpus, c, u);
    MarksUpdate(s.ops, k, o);
  }

  lemma FlushShare(u: Cpu, r: Request)
    ensures Share(Flush(u, r)) == Share(u)
  {
  }

  lemma RootAccount(s: State, c: nat, step: RootStep)
    requires RootEnabled(s, c, step)
    ensures Account(DoRoot(s, c, step)) == Account(s)
  {
    var t := DoRoot(s, c, step);
    CpuAccount(s, t, c, t.cpus[c]);
  }

  lemma CacheAccount(s: State, c: nat, step: CacheStep)
    requires CacheEnabled(s, c, step)
    ensures Account(DoCache(s, c, step)) == Account(s)
  {
    var t := DoCache(s, c, step);
    CpuAccount(s, t, c, t.cpus[c]);
  }

  lemma HandlerAccount(s: State, c: nat, step: HandlerStep)
    requires HandlerEnabled(s, c, step) && Shape(s) && SlotOk(s, c)
    ensures Account(DoHandler(s, c, step)) == Account(s)
  {
    var u := HandlerCpu(s.cpus[c], step);
    if step.HandlerFlush? { FlushShare(s.cpus[c], s.cpus[c].handler.req); }
    CpuAccount(s, DoHandler(s, c, step), c, u);
  }

  lemma SlotAccount(s: State, k: nat, step: ThreadStep)
    requires Shape(s) && ThreadEnabled(s, k, step) && OnSlot(step) && !step.CountSent?
    requires OpOk(s, k) && ClaimOk(s, k)
    ensures Account(DoThread(s, k, step)) == Account(s)
  {
    var t, c := DoThread(s, k, step), s.ops[k].phase.next;
    BothAccount(s, t, c, t.cpus[c], k, t.ops[k]);
  }

  lemma CountAccount(s: State, k: nat)
    requires ThreadEnabled(s, k, CountSent)
    ensures Account(DoCountSent(s, k)) == Account(s)
  {
    var t, i := DoCountSent(s, k), s.ops[k].cpu;
    BothAccount(s, t, i, t.cpus[i], k, t.ops[k]);
  }

  lemma EnterAccount(s: State, k: nat, c: nat)
    requires ThreadEnabled(s, k, Enter(c))
    ensures Account(DoEnter(s, k, c)) == Account(s)
  {
    var t := DoEnter(s, k, c);
    FlushShare(s.cpus[c], RequestOf(s, k));
    assert s.cpus[c := s.cpus[c]] == s.cpus;
    BothAccount(s, t, c, t.cpus[c], k, t.ops[k]);
  }

  lemma MoveAccount(s: State, k: nat, step: ThreadStep)
    requires ThreadEnabled(s, k, step) && !OnSlot(step) && !step.Enter?
    ensures Account(DoThread(s, k, step)) == Account(s)
  {
    var t := DoThread(s, k, step);
    assert t.cpus == s.cpus && t.ops == s.ops[k := t.ops[k]];
    MarksUpdate(s.ops, k, t.ops[k]);
  }

  lemma StepAccount(s: State, step: Step)
    requires Slots(s) && Enabled(s, step)
    ensures Account(Do(s, step)) == Account(s)
  {
    match step
    case CreateSpace =>
    case Mutate(m) => MarksAppend(s.ops, DoMutate(s, m).ops[|s.ops|]);
    case OnRoot(c, r) => RootAccount(s, c, r);
    case OnCache(c, e) => CacheAccount(s, c, e);
    case OnThread(k, a) =>
      assert OpOk(s, k) && ClaimOk(s, k);
      if a.Enter? { EnterAccount(s, k, a.cpu); }
      else if a.CountSent? { CountAccount(s, k); }
      else if OnSlot(a) { SlotAccount(s, k, a); }
      else { MoveAccount(s, k, a); }
    case OnHandler(c, h) =>
      assert SlotOk(s, c);
      HandlerAccount(s, c, h);
  }

  lemma {:induction false} RunSlots(s: State, steps: seq<Step>, w: Conditions)
    requires Slots(s) && Possible(s, steps) && w.soleClaims && RunObeys(s, steps, w)
    ensures Slots(After(s, steps)) && Account(After(s, steps)) == Account(s)
    decreases |steps|
  {
    if steps != [] {
      StepSlots(s, steps[0], w);
      StepAccount(s, steps[0]);
      RunSlots(Do(s, steps[0]), steps[1..], w);
    }
  }

  /** In every run, between any two accesses: the requests counted as sent, with those in a slot
      that are still to be counted, are those counted as acknowledged, with those freed and still
      to be counted, those waiting in a slot and those whose interrupt could not be sent; and a
      CPU outside its handler has acknowledged exactly what it received. */
  lemma RequestsConserved(s: State, steps: seq<Step>, w: Conditions)
    requires Init(s) && Possible(s, steps) && w.soleClaims && RunObeys(s, steps, w)
    ensures var t := After(s, steps);
            && Sent(t.cpus) + Marks(t.ops) ==
               Acknowledged(t.cpus) + Uncounted(t.cpus) + Waiting(t.cpus) + t.sendFailures
            && (forall c | 0 <= c < |t.cpus| :: t.cpus[c].handler.Idle? ==> t.cpus[c].received == t.cpus[c].acks)
  {
    var t := After(s, steps);
    InitSlots(s);
    NothingToBalance(s.cpus);
    RunSlots(s, steps, w);
    BalanceSplit(t.cpus);
    forall c | 0 <= c < |t.cpus| ensures t.cpus[c].handler.Idle? ==> t.cpus[c].received == t.cpus[c].acks {
      assert SlotOk(t, c);
    }
  }
}
