/**
 The main result on TLB invalidation: once an invalidation has reported success, no CPU
 caches a translation it removed, and none ever will again.

 It holds in every run that obeys four conditions. TlbConditions shows on how many CPUs they
 are needed.
 */
module TlbSafety {
  import opened Basics
  import opened TlbModel
  import opened TlbSlots

  /** The TLB holds no translation that change number k replaced. */
  predicate Clean(tlb: set<Entry>, m: Mutation, k: nat) {
    forall e | e in tlb :: m.Covers(e.space, e.page) ==> e.ver > k
  }

  // ----- The invariant -----

  /** Outside the change of root, the loaded record agrees with a user root; every CPU that
      can hold translations of a space is marked in it. */
  predicate RootOk(s: State, c: nat)
    requires c < |s.cpus|
  {
    var u := s.cpus[c];
    && u.root < |s.spaces| && u.loaded < |s.spaces|
    && (u.root != 0 ==> c in s.spaces[u.root].cached)
    && (u.loaded != 0 ==> c in s.spaces[u.loaded].cached)
    && (forall e | e in u.tlb :: e.space == 0 || e.space == u.root)
    && (u.switching.Steady? || u.switching.Joining? ==> u.root == 0 || u.root == u.loaded)
    && (u.switching.Switched? ==> u.root == 0 || u.root == u.switching.space)
    && (u.switching.Joining? || u.switching.Switched? ==>
          u.switching.space < |s.spaces| && c in s.spaces[u.switching.space].cached)
  }

  /** A translation removed by invalidation k is cached on c only while k still waits
      for c, and then c's acknowledgement pair cannot be taken for k's. */
  predicate PairOk(s: State, c: nat, k: nat)
    requires Shape(s) && c < |s.cpus| && k < |s.ops|
  {
    var u, o := s.cpus[c], s.ops[k];
    Uncaptured(o.phase) || Clean(u.tlb, s.muts[k], k) ||
    ( && c in o.targets && c !in o.acked
      && (c in o.published || Holding(o.phase, c) ==>
            && u.pending && u.owner == k && (!Busy(u.handler) || u.handler.Read?)
            && (u.ackGen != o.gen || (u.ackToken != o.token && o.seen != Some(c)))))
  }

  predicate Roots(s: State) {
    forall c | 0 <= c < |s.cpus| :: RootOk(s, c)
  }

  predicate Pairs(s: State)
    requires Shape(s)
  {
    forall c, k | 0 <= c < |s.cpus| && 0 <= k < |s.ops| :: PairOk(s, c, k)
  }

  predicate Inv(s: State) {
    Slots(s) && Roots(s) && Pairs(s)
  }

  /** At every time each page has exactly one translation that can be read. */
  lemma {:induction false} OneCurrent(muts: seq<Mutation>, sp: nat, page: nat) returns (ver: nat)
    ensures forall v: nat :: Current(muts, sp, page, v) <==> v == ver
  {
    if muts == [] {
      ver := 0;
    } else {
      var front, last := muts[..|muts| - 1], muts[|muts| - 1];
      if last.Covers(sp, page) {
        ver := |muts|;
      } else {
        ver := OneCurrent(front, sp, page);
        forall v: nat ensures Current(muts, sp, page, v) <==> Current(front, sp, page, v) {}
      }
    }
  }

  // ----- The flush -----

  /** What the flush leaves of the requested pages, unless their root is loaded and the record
      names another one. */
  lemma FlushClears(u: Cpu, r: Request, m: Mutation, k: nat)
    requires r.space == m.space && r.first == m.first && r.count == m.count
    requires forall e | e in u.tlb :: e.space == 0 || e.space == u.root
    requires r.space == 0 || u.root != r.space || u.loaded == r.space
    ensures Clean(Flush(u, r).tlb, m, k)
  {
    if r.space != 0 && u.loaded != r.space {
      assert forall e | e in u.tlb :: !m.Covers(e.space, e.page);
    }
  }

  lemma FlushShrinks(u: Cpu, r: Request)
    ensures Flush(u, r).tlb <= u.tlb
    ensures Flush(u, r) == u.(tlb := Flush(u, r).tlb, root := Flush(u, r).root)
    ensures Flush(u, r).root == u.root ||
            (Flush(u, r).tlb == {} && (r.space == 0 || u.loaded == r.space) && Flush(u, r).root == r.space)
  {
  }

  // ----- Every step that obeys the conditions keeps the invariant -----

  lemma InitInv(s: State)
    requires Init(s)
    ensures Inv(s)
  {
  }

  /** CPU c changed and nothing else the invariant on roots speaks of; marks in spaces only
      grow. */
  predicate OneRoot(s: State, t: State, c: nat) {
    && c < |s.cpus| == |t.cpus| && |s.spaces| <= |t.spaces|
    && (forall d | 0 <= d < |s.cpus| :: d != c ==> SameRoot(s.cpus[d], t.cpus[d]))
    && (forall sp | 0 <= sp < |s.spaces| :: s.spaces[sp].cached <= t.spaces[sp].cached)
  }

  predicate SameRoot(u: Cpu, v: Cpu) {
    v.root == u.root && v.loaded == u.loaded && v.switching == u.switching && v.tlb == u.tlb
  }

  lemma OneRootChanged(s: State, t: State, c: nat)
    requires Roots(s) && OneRoot(s, t, c) && RootOk(t, c)
    ensures Roots(t)
  {
    forall d | 0 <= d < |t.cpus| ensures RootOk(t, d) { assert RootOk(s, d); }
  }

  lemma RootsAtRootStep(s: State, c: nat, step: RootStep)
    requires Shape(s) && Roots(s) && RootEnabled(s, c, step)
    ensures Roots(DoRoot(s, c, step))
  {
    assert RootOk(s, c);
    OneRootChanged(s, DoRoot(s, c, step), c);
  }

  lemma RootsAtCacheStep(s: State, c: nat, step: CacheStep)
    requires Shape(s) && Roots(s) && CacheEnabled(s, c, step)
    ensures Roots(DoCache(s, c, step))
  {
    assert RootOk(s, c);
    OneRootChanged(s, DoCache(s, c, step), c);
  }

  /** No CPU's root, record or TLB changed. */
  lemma RootsElsewhere(s: State, t: State)
    requires Roots(s) && |t.cpus| == |s.cpus| && |s.spaces| <= |t.spaces|
    requires forall c | 0 <= c < |s.cpus| :: SameRoot(s.cpus[c], t.cpus[c])
    requires forall sp | 0 <= sp < |s.spaces| :: s.spaces[sp].cached <= t.spaces[sp].cached
    ensures Roots(t)
  {
    forall c | 0 <= c < |t.cpus| ensures RootOk(t, c) { assert RootOk(s, c); }
  }

  lemma RootsAtEnter(s: State, k: nat, c: nat)
    requires Shape(s) && Roots(s) && ThreadEnabled(s, k, Enter(c)) && Obeys(s, OnThread(k, Enter(c)), ALL)
    ensures Roots(DoEnter(s, k, c))
  {
    FlushShrinks(s.cpus[c], RequestOf(s, k));
    assert RootOk(s, c);
    OneRootChanged(s, DoEnter(s, k, c), c);
  }

  lemma RootsAtThreadStep(s: State, k: nat, step: ThreadStep)
    requires Shape(s) && Roots(s) && ThreadEnabled(s, k, step) && Obeys(s, OnThread(k, step), ALL)
    ensures Roots(DoThread(s, k, step))
  {
    if step.Enter? {
      RootsAtEnter(s, k, step.cpu);
    } else {
      RootsElsewhere(s, DoThread(s, k, step));
    }
  }

  lemma RootsAtHandlerStep(s: State, c: nat, step: HandlerStep)
    requires Inv(s) && HandlerEnabled(s, c, step) && Obeys(s, OnHandler(c, step), ALL)
    ensures Roots(DoHandler(s, c, step))
  {
    var t := DoHandler(s, c, step);
    assert SlotOk(s, c);
    FlushShrinks(s.cpus[c], s.cpus[c].slot);
    forall d | 0 <= d < |t.cpus| ensures RootOk(t, d) { assert RootOk(s, d); }
  }

  /** Roots change with an empty TLB, and the processor reads only current translations. */
  lemma PairsAtRootStep(s: State, step: Step)
    requires Inv(s) && Enabled(s, step) && Shape(Do(s, step))
    requires step.CreateSpace? || step.OnRoot? || step.OnCache?
    ensures Pairs(Do(s, step))
  {
    var t := Do(s, step);
    forall c, k | 0 <= c < |t.cpus| && 0 <= k < |t.ops| ensures PairOk(t, c, k) {
      assert PairOk(s, c, k);
    }
  }

  lemma PairsAtMutate(s: State, m: Mutation)
    requires Inv(s) && MutateEnabled(s, m) && Shape(DoMutate(s, m))
    ensures Pairs(DoMutate(s, m))
  {
    var t := DoMutate(s, m);
    forall c, k | 0 <= c < |t.cpus| && 0 <= k < |t.ops| ensures PairOk(t, c, k) {
      if k < |s.ops| { assert PairOk(s, c, k); }
    }
  }

  /** Every CPU that may hold an old translation is among the captured targets. */
  lemma PairsAtCapture(s: State, k: nat)
    requires Inv(s) && ThreadEnabled(s, k, Capture) && Shape(DoCapture(s, k))
    ensures Pairs(DoCapture(s, k))
  {
    var t := DoCapture(s, k);
    assert OpOk(s, k);
    forall c, j | 0 <= c < |t.cpus| && 0 <= j < |t.ops| ensures PairOk(t, c, j) {
      assert PairOk(s, c, j) && RootOk(s, c);
    }
  }

  /** Every CPU is asked to drop kernel translations. */
  lemma PairsAtDraw(s: State, k: nat, step: ThreadStep)
    requires Inv(s) && (step.DrawGeneration? || step.DrawToken?) && ThreadEnabled(s, k, step)
    requires Shape(DoThread(s, k, step))
    ensures Pairs(DoThread(s, k, step))
  {
    var t := DoThread(s, k, step);
    assert OpOk(s, k);
    forall c, j | 0 <= c < |t.cpus| && 0 <= j < |t.ops| ensures PairOk(t, c, j) {
      assert PairOk(s, c, j);
    }
  }

  /** The initiating CPU flushes itself first. */
  lemma PairsAtEnter(s: State, k: nat, c: nat)
    requires Inv(s) && ThreadEnabled(s, k, Enter(c)) && Shape(DoEnter(s, k, c))
    requires Obeys(s, OnThread(k, Enter(c)), ALL)
    ensures Pairs(DoEnter(s, k, c))
  {
    var t := DoEnter(s, k, c);
    assert OpOk(s, k) && RootOk(s, c);
    if c in s.ops[k].targets {
      FlushShrinks(s.cpus[c], RequestOf(s, k));
      FlushClears(s.cpus[c], RequestOf(s, k), s.muts[k], k);
    }
    forall d, j | 0 <= d < |t.cpus| && 0 <= j < |t.ops| ensures PairOk(t, d, j) {
      assert PairOk(s, d, j);
    }
  }

  /** The two loads of a poll accept only a CPU that has flushed. */
  lemma PairsAtMove(s: State, k: nat, step: ThreadStep)
    requires Inv(s) && ThreadEnabled(s, k, step) && Shape(DoThread(s, k, step))
    requires step.SkipTarget? || step.Observe? || step.StartPoll? || step.PollToken?
          || step.PollGen? || step.Leave? || step.LeaveEarly? || step.Succeed? || step.GiveUp?
          || step.Abandon?
    ensures Pairs(DoThread(s, k, step))
  {
    var t := DoThread(s, k, step);
    assert OpOk(s, k);
    forall c, j | 0 <= c < |t.cpus| && 0 <= j < |t.ops| ensures PairOk(t, c, j) {
      assert PairOk(s, c, j);
    }
  }

  /** A request is posted over a different pair, on a CPU that has handled all before it. */
  lemma PairsAtSlot(s: State, k: nat, step: ThreadStep)
    requires Inv(s) && ThreadEnabled(s, k, step) && Shape(DoThread(s, k, step))
    requires Obeys(s, OnThread(k, step), ALL)
    requires OnSlot(step)
    ensures Pairs(DoThread(s, k, step))
  {
    var t := DoThread(s, k, step);
    assert OpOk(s, k) && ClaimOk(s, k) && SlotOk(s, s.ops[k].phase.next);
    forall c, j | 0 <= c < |t.cpus| && 0 <= j < |t.ops| ensures PairOk(t, c, j) {
      assert PairOk(s, c, j);
    }
  }

  /** The pair changes only after the flush, and then to the pair of the flushed request. */
  lemma PairsAtHandler(s: State, c: nat, step: HandlerStep)
    requires Inv(s) && HandlerEnabled(s, c, step) && Shape(DoHandler(s, c, step))
    requires Obeys(s, OnHandler(c, step), ALL)
    ensures Pairs(DoHandler(s, c, step))
  {
    var u, t := s.cpus[c], DoHandler(s, c, step);
    assert SlotOk(s, c) && RootOk(s, c);
    if step.HandlerFlush? {
      FlushShrinks(u, u.slot);
      FlushClears(u, u.slot, s.muts[u.owner], u.owner);
    }
    forall d, k | 0 <= d < |t.cpus| && 0 <= k < |t.ops| ensures PairOk(t, d, k) {
      assert PairOk(s, d, k);
    }
  }

  lemma StepInv(s: State, step: Step)
    requires Inv(s) && Enabled(s, step) && Obeys(s, step, ALL)
    ensures Inv(Do(s, step))
  {
    StepSlots(s, step, ALL);
    match step
    case CreateSpace => RootsElsewhere(s, Do(s, step)); PairsAtRootStep(s, step);
    case Mutate(m) => RootsElsewhere(s, Do(s, step)); PairsAtMutate(s, m);
    case OnRoot(c, a) => RootsAtRootStep(s, c, a); PairsAtRootStep(s, step);
    case OnCache(c, a) => RootsAtCacheStep(s, c, a); PairsAtRootStep(s, step);
    case OnThread(k, a) =>
      RootsAtThreadStep(s, k, a);
      if a.Capture? { PairsAtCapture(s, k); }
      else if a.DrawGeneration? || a.DrawToken? { PairsAtDraw(s, k, a); }
      else if a.Enter? { PairsAtEnter(s, k, a.cpu); }
      else if OnSlot(a) { PairsAtSlot(s, k, a); }
      else { PairsAtMove(s, k, a); }
    case OnHandler(c, h) => RootsAtHandlerStep(s, c, h); PairsAtHandler(s, c, h);
  }

  lemma {:induction false} RunInv(s: State, steps: seq<Step>)
    requires Inv(s) && Possible(s, steps) && RunObeys(s, steps, ALL)
    ensures Inv(After(s, steps))
    decreases |steps|
  {
    if steps != [] {
      StepInv(s, steps[0]);
      RunInv(Do(s, steps[0]), steps[1..]);
    }
  }

  // ----- The main results -----

  /** The translation was replaced by an invalidation that has reported success, so the
      frame it names may have been given to someone else. */
  predicate Retired(s: State, e: Entry)
    requires Shape(s)
  {
    exists k | 0 <= k < |s.ops| ::
      s.ops[k].phase.Succeeded? && s.muts[k].Covers(e.space, e.page) && e.ver <= k
  }

  /** In every run that obeys the conditions, on any number of CPUs, with any number of spaces and
      concurrent invalidations: no CPU ever caches a retired translation. */
  lemma RetiredNeverCached(s: State, steps: seq<Step>, c: nat, e: Entry)
    requires Init(s) && Possible(s, steps) && RunObeys(s, steps, ALL)
    requires c < |After(s, steps).cpus| && e in After(s, steps).cpus[c].tlb
    ensures Shape(After(s, steps)) && !Retired(After(s, steps), e)
  {
    var t := After(s, steps);
    InitInv(s);
    RunInv(s, steps);
    forall k | 0 <= k < |t.ops| && t.ops[k].phase.Succeeded?
      ensures !t.muts[k].Covers(e.space, e.page) || e.ver > k
    {
      assert OpOk(t, k) && PairOk(t, c, k);
    }
  }
}
