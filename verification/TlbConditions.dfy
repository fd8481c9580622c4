/**
 The conditions of TlbSafety: when a flush misses something, when the record of the loaded
 space is true, and on how many CPUs each condition, dropped alone, lets an invalidation report
 success while a CPU still caches what it removed.
 */
module TlbConditions {
  import opened Basics
  import opened TlbModel
  import opened TlbSlots
  import opened TlbSafety
  import opened TlbRuns
  import opened TlbWaits

  // ----- What a flush can miss -----

  predicate Caches(tlb: set<Entry>, r: Request) {
    exists e | e in tlb :: Mutation(r.space, r.first, r.count).Covers(e.space, e.page)
  }

  /** In every run so far within the conditions, the next flush of a request leaves something
      of its pages exactly if it lands between the two writes, with the root of its space loaded
      and not recorded, and something was cached. */
  lemma FlushIncompleteIff(s: State, steps: seq<Step>, c: nat, r: Request)
    requires Init(s) && Possible(s, steps) && RunObeys(s, steps, ALL) && c < |After(s, steps).cpus|
    ensures var u := After(s, steps).cpus[c];
            Caches(Flush(u, r).tlb, r) <==> Unrecorded(u, r.space) && Caches(u.tlb, r)
  {
    InitInv(s);
    RunInv(s, steps);
    var t := After(s, steps);
    assert RootOk(t, c);
    var u := t.cpus[c];
    FlushShrinks(u, r);
    if Caches(u.tlb, r) && r.space != 0 {
      var e :| e in u.tlb && Mutation(r.space, r.first, r.count).Covers(e.space, e.page);
      assert u.root == r.space;
    }
  }

  // ----- When the record of the loaded space is true -----

  /** Outside a change of root the record names the loaded root. */
  predicate Truthful(s: State) {
    forall c | 0 <= c < |s.cpus| :: RecordOk(s.cpus[c])
  }

  predicate RecordOk(u: Cpu) {
    && (u.switching.Steady? || u.switching.Joining? ==> u.root == u.loaded)
    && (u.switching.Switched? ==> u.root == u.switching.space)
    && (u.switching.Leaving? ==> u.loaded == 0)
  }

  /** No kernel-wide change covers more pages. */
  predicate KernelWithin(muts: seq<Mutation>, limit: nat) {
    forall k | 0 <= k < |muts| :: muts[k].space == 0 ==> 0 < muts[k].count <= limit
  }

  lemma FlushTruthful(u: Cpu, r: Request)
    requires RecordOk(u) && !Reverts(u, r) && (r.space == 0 ==> 0 < r.count <= PAGE_LIMIT)
    ensures RecordOk(Flush(u, r))
  {
  }

  lemma HandlerTruthful(s: State, c: nat, step: HandlerStep)
    requires Inv(s) && Truthful(s) && HandlerEnabled(s, c, step) && Obeys(s, OnHandler(c, step), ALL)
    requires KernelWithin(s.muts, PAGE_LIMIT)
    ensures Truthful(DoHandler(s, c, step))
  {
    var u := s.cpus[c];
    assert SlotOk(s, c) && RecordOk(u);
    if step.HandlerFlush? {
      assert s.muts[u.owner].space == 0 ==> 0 < s.muts[u.owner].count <= PAGE_LIMIT;
      FlushTruthful(u, u.slot);
    }
    assert RecordOk(HandlerCpu(u, step));
  }

  lemma EnterTruthful(s: State, k: nat, c: nat)
    requires Inv(s) && Truthful(s) && ThreadEnabled(s, k, Enter(c)) && Obeys(s, OnThread(k, Enter(c)), ALL)
    requires KernelWithin(s.muts, PAGE_LIMIT)
    ensures Truthful(DoEnter(s, k, c))
  {
    assert RecordOk(s.cpus[c]);
    assert s.muts[k].space == 0 ==> 0 < s.muts[k].count <= PAGE_LIMIT;
    if c in s.ops[k].targets { FlushTruthful(s.cpus[c], RequestOf(s, k)); }
  }

  lemma RootTruthful(s: State, c: nat, step: RootStep)
    requires Inv(s) && Truthful(s) && RootEnabled(s, c, step)
    ensures Truthful(DoRoot(s, c, step))
  {
    assert RootOk(s, c) && RecordOk(s.cpus[c]);
    var t := DoRoot(s, c, step);
    forall d | 0 <= d < |t.cpus| ensures RecordOk(t.cpus[d]) { assert RecordOk(s.cpus[d]); }
  }

  lemma OtherTruthful(s: State, t: State)
    requires Truthful(s) && |t.cpus| == |s.cpus|
    requires forall c | 0 <= c < |s.cpus| ::
               t.cpus[c].root == s.cpus[c].root && t.cpus[c].loaded == s.cpus[c].loaded
               && t.cpus[c].switching == s.cpus[c].switching
    ensures Truthful(t)
  {
    forall c | 0 <= c < |t.cpus| ensures RecordOk(t.cpus[c]) { assert RecordOk(s.cpus[c]); }
  }

  lemma StepTruthful(s: State, step: Step)
    requires Inv(s) && Truthful(s) && Enabled(s, step) && Obeys(s, step, ALL) && KernelWithin(s.muts, PAGE_LIMIT)
    ensures Truthful(Do(s, step))
  {
    match step
    case OnRoot(c, r) => RootTruthful(s, c, r);
    case OnHandler(c, h) => HandlerTruthful(s, c, h);
    case OnThread(k, a) => ThreadTruthful(s, k, a);
    case _ => OtherTruthful(s, Do(s, step));
  }

  lemma ThreadTruthful(s: State, k: nat, step: ThreadStep)
    requires Inv(s) && Truthful(s) && ThreadEnabled(s, k, step) && Obeys(s, OnThread(k, step), ALL)
    requires KernelWithin(s.muts, PAGE_LIMIT)
    ensures Truthful(DoThread(s, k, step))
  {
    if step.Enter? {
      EnterTruthful(s, k, step.cpu);
    } else {
      OtherTruthful(s, DoThread(s, k, step));
    }
  }

  /** Changes are never taken back. */
  lemma StepMutations(s: State, step: Step)
    requires Enabled(s, step)
    ensures s.muts <= Do(s, step).muts
  {
  }

  lemma {:induction false} RunMutations(s: State, steps: seq<Step>)
    requires Possible(s, steps)
    ensures s.muts <= After(s, steps).muts
    decreases |steps|
  {
    if steps != [] {
      StepMutations(s, steps[0]);
      RunMutations(Do(s, steps[0]), steps[1..]);
    }
  }

  lemma {:induction false} RunTruthful(s: State, steps: seq<Step>)
    requires Inv(s) && Truthful(s) && Possible(s, steps) && RunObeys(s, steps, ALL)
    requires KernelWithin(After(s, steps).muts, PAGE_LIMIT)
    ensures Truthful(After(s, steps))
    decreases |steps|
  {
    if steps != [] {
      RunMutations(s, steps);
      assert KernelWithin(s.muts, PAGE_LIMIT);
      StepInv(s, steps[0]);
      StepTruthful(s, steps[0]);
      RunTruthful(Do(s, steps[0]), steps[1..]);
    }
  }

  /** Every run within the conditions whose kernel-wide changes cover at most `limit` pages
      keeps the records true. */
  ghost predicate TruthfulUpTo(limit: nat) {
    forall s, steps | Init(s) && Possible(s, steps) && RunObeys(s, steps, ALL) ::
      KernelWithin(After(s, steps).muts, limit) ==> Truthful(After(s, steps))
  }

  /** A kernel-wide flush of everything loads the kernel root under a user record, so the
      records are true exactly if kernel-wide changes stay within the limit of single pages. */
  lemma TruthfulIff(limit: nat)
    ensures TruthfulUpTo(limit) <==> limit <= 32
  {
    if limit <= PAGE_LIMIT {
      forall s, steps | Init(s) && Possible(s, steps) && RunObeys(s, steps, ALL) &&
                        KernelWithin(After(s, steps).muts, limit)
        ensures Truthful(After(s, steps))
      {
        InitInv(s);
        RunTruthful(s, steps);
      }
    } else {
      var steps, t := KernelFlushRun();
      assert After(Start(2), steps) == t && !Truthful(t);
    }
  }

  /** CPU 1 has a user space loaded when CPU 0 changes 33 kernel pages. */
  lemma KernelFlushRun() returns (steps: seq<Step>, t: State)
    ensures Reaches(Start(2), steps, ALL, t) && KernelWithin(t.muts, PAGE_LIMIT + 1)
    ensures |t.cpus| == 2 && !RecordOk(t.cpus[1])
  {
    steps, t := [], Start(2);
    steps, t := Take(Start(2), steps, ALL, t, CreateSpace);
    steps, t := Adopt(Start(2), steps, ALL, t, 1, 1);
    steps, t := LaunchKernel(Start(2), steps, ALL, t, Mutation(0, 0, PAGE_LIMIT + 1));
    steps, t := Deliver(Start(2), steps, ALL, t, 0);
    steps, t := BeginServe(Start(2), steps, ALL, t, 1);
  }

  // ----- Each condition is needed -----

  /** The run ends with a retired translation in the TLB of CPU c. */
  predicate Violates(s: State, steps: seq<Step>, w: Conditions, c: nat, e: Entry) {
    && Possible(s, steps) && RunObeys(s, steps, w)
    && var t := After(s, steps);
    Shape(t) && c < |t.cpus| && e in t.cpus[c].tlb && Retired(t, e)
  }

  /** With flushes allowed to be skipped: CPU 1 has loaded the root of space 1 and
      cached a page but not yet recorded the space when the request for it arrives. */
  lemma WindowRun(n: nat) returns (steps: seq<Step>)
    requires n >= 2
    ensures Violates(Start(n), steps, ALL.(noSkips := false), 1, Entry(1, 0, 0))
  {
    var w, s := ALL.(noSkips := false), Start(n);
    steps, s := HalfWay(n, w);
    steps, s := Launch(Start(n), steps, w, s, Mutation(1, 0, 1), 0);
    steps, s := Deliver(Start(n), steps, w, s, 0);
    steps, s := Serve(Start(n), steps, w, s, 1);
    steps, s := Collect(Start(n), steps, w, s, 0);
  }

  /** CPU 1 has loaded the root of space 1 and cached a page of it. */
  lemma HalfWay(n: nat, w: Conditions) returns (steps: seq<Step>, s: State)
    requires n >= 2
    ensures Reaches(Start(n), steps, w, s)
    ensures var u := FreshCpu().(root := 1, tlb := {Entry(1, 0, 0)}, switching := Switched(1));
            s == State(Start(n).cpus[1 := u],
                       [Space(0, 0, {}, false, false), Space(1, 0, {1}, false, false)], [], [], 0)
  {
    steps, s := [], Start(n);
    steps, s := Take(Start(n), steps, w, s, CreateSpace);
    steps, s := Take(Start(n), steps, w, s, OnRoot(1, BeginSwitch(1)));
    steps, s := Take(Start(n), steps, w, s, OnRoot(1, LoadRoot));
    steps, s := Take(Start(n), steps, w, s, OnCache(1, Fill(Entry(1, 0, 0))));
    assert s.cpus[1].tlb == {Entry(1, 0, 0)} && s.spaces[1].cached == {1};
  }

  /** One CPU is enough: CPU 0 has loaded the root of space 1 and cached a page but not yet
      recorded the space when a thread on it changes that page, and its own flush is skipped. */
  lemma OwnWindowRun(n: nat) returns (steps: seq<Step>)
    requires n >= 1
    ensures Violates(Start(n), steps, ALL.(noSkips := false), 0, Entry(1, 0, 0))
  {
    var w, s := ALL.(noSkips := false), Start(n);
    steps, s := [], Start(n);
    steps, s := Take(Start(n), steps, w, s, CreateSpace);
    steps, s := Take(Start(n), steps, w, s, OnRoot(0, BeginSwitch(1)));
    steps, s := Take(Start(n), steps, w, s, OnRoot(0, LoadRoot));
    steps, s := Take(Start(n), steps, w, s, OnCache(0, Fill(Entry(1, 0, 0))));
    assert s.spaces[1].cached == {0};
    steps, s := InvalidateAlone(Start(n), steps, w, s, Mutation(1, 0, 1));
    assert s.ops[0].phase.Succeeded? && s.muts[0].Covers(1, 0);
  }

  /** The same when CPU 0 leaves space 1: it no longer records it and still has its root. */
  lemma OwnLeavingRun(n: nat) returns (steps: seq<Step>)
    requires n >= 1
    ensures Violates(Start(n), steps, ALL.(noSkips := false), 0, Entry(1, 0, 0))
    ensures var u := After(Start(n), steps).cpus[0]; u.switching.Leaving? && u.root == 1 && u.loaded == 0
  {
    var w, s := ALL.(noSkips := false), Start(n);
    steps, s := [], Start(n);
    steps, s := Take(Start(n), steps, w, s, CreateSpace);
    steps, s := Adopt(Start(n), steps, w, s, 0, 1);
    steps, s := Take(Start(n), steps, w, s, OnRoot(0, BeginLeave));
    steps, s := Take(Start(n), steps, w, s, OnRoot(0, LoadKernelRoot));
    assert s.cpus[0] == FreshCpu() && s.spaces[1].cached == {0};
    steps, s := Adopt(Start(n), steps, w, s, 0, 1);
    steps, s := Take(Start(n), steps, w, s, OnRoot(0, BeginLeave));
    steps, s := Take(Start(n), steps, w, s, OnCache(0, Fill(Entry(1, 0, 0))));
    assert s.spaces[1].cached == {0};
    steps, s := InvalidateAlone(Start(n), steps, w, s, Mutation(1, 0, 1));
    assert s.ops[0].phase.Succeeded? && s.muts[0].Covers(1, 0);
  }

  /** With an old root loaded again: CPU 0 has left space 1 for space 2 but not recorded it when
      everything in space 1 is flushed. Then it records space 2 with the root of space 1, and a
      later flush of space 1 is skipped although no change of root is under way. */
  lemma RevertedRootRun(n: nat) returns (steps: seq<Step>)
    requires n >= 1
    ensures Violates(Start(n), steps, ALL.(noReverts := false), 0, Entry(1, 0, 1))
    ensures var u := After(Start(n), steps).cpus[0]; u.switching.Steady? && u.root == 1 && u.loaded == 2
  {
    var w, s := ALL.(noReverts := false), Start(n);
    steps, s := Reverted(n, w);
    steps, s := Take(Start(n), steps, w, s, OnCache(0, Fill(Entry(1, 0, 1))));
    steps, s := InvalidateAlone(Start(n), steps, w, s, Mutation(1, 0, 1));
    assert s.ops[1].phase.Succeeded? && s.muts[1].Covers(1, 0);
  }

  /** CPU 0 is on the root of space 1 and records space 2. */
  lemma Reverted(n: nat, w: Conditions) returns (steps: seq<Step>, s: State)
    requires n >= 1 && !w.noReverts
    ensures Reaches(Start(n), steps, w, s)
    ensures Shape(s) && |s.cpus| == n && s.cpus[0].root == 1 && s.cpus[0].loaded == 2 && s.cpus[0].switching.Steady?
    ensures |s.spaces| == 3 && s.spaces[1] == Space(2, 1, {0}, false, false)
    ensures s.muts == [Mutation(1, 0, PAGE_LIMIT + 1)] && s.ops == [Op(1, 2, {0}, 0, {}, {0}, None, Succeeded)]
  {
    steps, s := [], Start(n);
    steps, s := Take(Start(n), steps, w, s, CreateSpace);
    steps, s := Take(Start(n), steps, w, s, CreateSpace);
    steps, s := Adopt(Start(n), steps, w, s, 0, 1);
    steps, s := Take(Start(n), steps, w, s, OnRoot(0, BeginSwitch(2)));
    steps, s := Take(Start(n), steps, w, s, OnRoot(0, LoadRoot));
    assert s.spaces[1].cached == {0};
    steps, s := InvalidateAlone(Start(n), steps, w, s, Mutation(1, 0, PAGE_LIMIT + 1));
    steps, s := Take(Start(n), steps, w, s, OnRoot(0, RecordSwitch));
  }

  /** With a pair posted over itself: CPU 1 has acknowledged the first invalidation of
      space 1 when the first invalidation of space 2 reaches it, and CPU 0 takes the old
      answer for the new one. */
  lemma ReusedPairRun(n: nat) returns (steps: seq<Step>)
    requires n >= 2
    ensures Violates(Start(n), steps, ALL.(freshPairs := false), 1, Entry(2, 0, 0))
  {
    var w, s := ALL.(freshPairs := false), Start(n);
    steps, s := OneAnswered(n, w);
    steps, s := Launch(Start(n), steps, w, s, Mutation(2, 0, 1), 0);
    steps, s := Deliver(Start(n), steps, w, s, 1);
    steps, s := Collect(Start(n), steps, w, s, 1);
  }

  /** CPU 1 has answered the first invalidation of space 1 and now caches a page of space 2. */
  lemma OneAnswered(n: nat, w: Conditions) returns (steps: seq<Step>, s: State)
    requires n >= 2
    ensures Reaches(Start(n), steps, w, s)
    ensures |s.cpus| == n && |s.ops| == |s.muts| == 1 && |s.spaces| == 3 && Shape(s)
    ensures s.ops[0].phase.Succeeded? && s.spaces[2] == Space(1, 0, {1}, false, false) && s.muts[0].space == 1
    ensures var u := s.cpus[1]; !u.pending && u.ackToken == 1 && u.ackGen == 2 && u.tlb == {Entry(2, 0, 0)}
  {
    steps, s := [], Start(n);
    steps, s := Take(Start(n), steps, w, s, CreateSpace);
    steps, s := Take(Start(n), steps, w, s, CreateSpace);
    steps, s := Adopt(Start(n), steps, w, s, 1, 1);
    steps, s := FirstRound(Start(n), steps, w, s);
    steps, s := Adopt(Start(n), steps, w, s, 1, 2);
    assert s.spaces[2].cached == {1};
    steps, s := Take(Start(n), steps, w, s, OnCache(1, Fill(Entry(2, 0, 0))));
  }

  /** The first invalidation of space 1, from beginning to end. */
  lemma FirstRound(s: State, steps: seq<Step>, w: Conditions, now: State)
    returns (longer: seq<Step>, next: State)
    requires Reaches(s, steps, w, now) && |now.cpus| >= 2 && now.cpus[1].switching.Steady?
    requires now.ops == [] && now.muts == [] && |now.spaces| == 3
    requires now.spaces[1] == Space(1, 0, {1}, false, false)
    requires !now.cpus[1].pending && now.cpus[1].handler.Idle? && now.cpus[1].ackToken == 0
    ensures Reaches(s, longer, w, next)
    ensures |next.cpus| == |now.cpus| && next.spaces == now.spaces[1 := Space(2, 1, {1}, false, false)]
    ensures next.muts == [Mutation(1, 0, 1)]
    ensures next.ops == [Op(1, 2, {1}, 0, {1}, {1}, None, Succeeded)]
    ensures next.cpus[1].switching.Steady? && !next.cpus[1].pending
    ensures next.cpus[1].ackToken == 1 && next.cpus[1].ackGen == 2
  {
    longer, next := Launch(s, steps, w, now, Mutation(1, 0, 1), 0);
    longer, next := Deliver(s, longer, w, next, 0);
    longer, next := Serve(s, longer, w, next, 1);
    assert {} + {1} == {1};
    longer, next := Collect(s, longer, w, next, 0);
  }

  /** Two kernel-wide invalidations have taken their numbers at the same time: the second has
      the first token and the second generation. CPU 1 runs space 1 and caches a page of it. */
  lemma DrawnCrosswise(w: Conditions) returns (steps: seq<Step>, s: State)
    ensures Reaches(Start(2), steps, w, s)
    ensures s == State([FreshCpu(), FreshCpu().(root := 1, loaded := 1, tlb := {Entry(1, 0, 0)})],
                       [Space(2, 2, {}, false, false), Space(1, 0, {1}, false, false)],
                       [Mutation(0, 9, 1), Mutation(0, 9, 1)],
                       [Op(2, 1, {0, 1}, 0, {}, {}, None, Captured), Op(1, 2, {0, 1}, 0, {}, {}, None, Captured)], 0)
  {
    steps, s := [], Start(2);
    steps, s := Take(Start(2), steps, w, s, CreateSpace);
    steps, s := Adopt(Start(2), steps, w, s, 1, 1);
    steps, s := Take(Start(2), steps, w, s, OnCache(1, Fill(Entry(1, 0, 0))));
    assert s.cpus[1].tlb == {Entry(1, 0, 0)} && s.spaces[1].cached == {1};
    steps, s := Take(Start(2), steps, w, s, Mutate(Mutation(0, 9, 1)));
    steps, s := Take(Start(2), steps, w, s, Mutate(Mutation(0, 9, 1)));
    steps, s := DrawCrosswise(Start(2), steps, w, s);
  }

  /** CPU 1 is on space 1 and caches pages of both halves. */
  lemma KernelPageCached() returns (steps: seq<Step>, s: State)
    ensures Reaches(Start(2), steps, ALL, s)
    ensures s == State([FreshCpu(), FreshCpu().(root := 1, loaded := 1, tlb := {Entry(1, 9, 0), Entry(0, 5, 0)})],
                       [Space(0, 0, {}, false, false), Space(1, 0, {1}, false, false)], [], [], 0)
  {
    steps, s := [], Start(2);
    steps, s := Take(Start(2), steps, ALL, s, CreateSpace);
    steps, s := Adopt(Start(2), steps, ALL, s, 1, 1);
    steps, s := Take(Start(2), steps, ALL, s, OnCache(1, Fill(Entry(1, 9, 0))));
    steps, s := Take(Start(2), steps, ALL, s, OnCache(1, Fill(Entry(0, 5, 0))));
    steps, s := Take(Start(2), steps, ALL, s, OnCache(1, Fill(Entry(0, 6, 0))));
    steps, s := Take(Start(2), steps, ALL, s, OnCache(1, Evict(Entry(0, 6, 0))));
    assert s.cpus[1].tlb == {Entry(1, 9, 0), Entry(0, 5, 0)} && s.spaces[1].cached == {1};
  }

  /** And a kernel-wide change of one of them has drawn its numbers. */
  lemma KernelPageDrawn() returns (steps: seq<Step>, s: State)
    ensures Reaches(Start(2), steps, ALL, s)
    ensures s == State([FreshCpu(), FreshCpu().(root := 1, loaded := 1, tlb := {Entry(1, 9, 0), Entry(0, 5, 0)})],
                       [Space(1, 1, {}, false, false), Space(1, 0, {1}, false, false)],
                       [Mutation(0, 5, 1)], [Op(1, 1, {0, 1}, 0, {}, {}, None, Captured)], 0)
  {
    steps, s := KernelPageCached();
    steps, s := Take(Start(2), steps, ALL, s, Mutate(Mutation(0, 5, 1)));
    steps, s := Take(Start(2), steps, ALL, s, OnThread(0, DrawGeneration));
    steps, s := Take(Start(2), steps, ALL, s, OnThread(0, DrawToken));
    assert s.ops[0].targets == {0, 1};
  }

  /** The change is made known to CPU 1, which drops the page and keeps the other one. */
  lemma KernelPageRun() returns (steps: seq<Step>, s: State)
    ensures Reaches(Start(2), steps, ALL, s) && |s.cpus| == 2 && |s.ops| == 1 && s.ops[0].phase.Succeeded?
    ensures s.cpus[1].root == 1 && s.cpus[1].tlb == {Entry(1, 9, 0)}
  {
    steps, s := KernelPageDrawn();
    steps, s := Take(Start(2), steps, ALL, s, OnThread(0, Enter(0)));
    steps, s := Take(Start(2), steps, ALL, s, OnThread(0, SkipTarget));
    steps, s := Deliver(Start(2), steps, ALL, s, 0);
    steps, s := Serve(Start(2), steps, ALL, s, 1);
    steps, s := Collect(Start(2), steps, ALL, s, 0);
  }

  lemma DrawCrosswise(s: State, steps: seq<Step>, w: Conditions, now: State)
    returns (longer: seq<Step>, next: State)
    requires Reaches(s, steps, w, now) && |now.cpus| == 2 && |now.ops| == 2 && IsOp(now, 0) && IsOp(now, 1)
    requires now.spaces[0] == Space(0, 0, {}, false, false) && now.muts[0].space == now.muts[1].space == 0
    requires now.ops[0] == now.ops[1] == Op(0, 0, {}, 0, {}, {}, None, Mutated)
    ensures Reaches(s, longer, w, next)
    ensures next == now.(
              spaces := now.spaces[0 := Space(2, 2, {}, false, false)],
              ops := [Op(2, 1, {0, 1}, 0, {}, {}, None, Captured), Op(1, 2, {0, 1}, 0, {}, {}, None, Captured)])
  {
    longer, next := Take(s, steps, w, now, OnThread(0, DrawGeneration));
    longer, next := Take(s, longer, w, next, OnThread(1, DrawGeneration));
    longer, next := Take(s, longer, w, next, OnThread(1, DrawToken));
    assert AllCpus(2) == {0, 1};
    longer, next := Take(s, longer, w, next, OnThread(0, DrawToken));
  }

  /** The second has come to its end, and CPU 1 still caches its page. */
  lemma CrosswiseAnswered(w: Conditions) returns (steps: seq<Step>, s: State)
    ensures Reaches(Start(2), steps, w, s) && Shape(s)
    ensures |s.cpus| == 2 && |s.ops| == |s.muts| == 2 && s.spaces[1..] == [Space(1, 0, {1}, false, false)]
    ensures s.muts == [Mutation(0, 9, 1), Mutation(0, 9, 1)]
    ensures s.ops[0].phase.Captured? && s.ops[1].phase.Succeeded?
    ensures var u := s.cpus[1]; !u.pending && u.ackToken == 1 && u.ackGen == 2 && u.tlb == {Entry(1, 0, 0)}
  {
    steps, s := DrawnCrosswise(w);
    steps, s := Take(Start(2), steps, w, s, OnThread(1, Enter(0)));
    steps, s := Take(Start(2), steps, w, s, OnThread(1, SkipTarget));
    steps, s := Deliver(Start(2), steps, w, s, 1);
    steps, s := Serve(Start(2), steps, w, s, 1);
    steps, s := Collect(Start(2), steps, w, s, 1);
  }

  /** One user space and the kernel: the first invalidation of space 1 carries the pair of a
      kernel-wide one whose numbers were drawn crosswise and which has ended, and CPU 0 takes the
      old answer for the new one. */
  lemma CrosswiseRun() returns (steps: seq<Step>)
    ensures Violates(Start(2), steps, ALL.(freshPairs := false), 1, Entry(1, 0, 0))
    ensures forall m | m in After(Start(2), steps).muts :: m.space == 0 || m.space == 1
  {
    var w, s := ALL.(freshPairs := false), Start(2);
    steps, s := CrosswiseAnswered(w);
    steps, s := Launch(Start(2), steps, w, s, Mutation(1, 0, 1), 0);
    steps, s := Deliver(Start(2), steps, w, s, 2);
    steps, s := Collect(Start(2), steps, w, s, 2);
  }

  /** With two claims of one slot: threads 0 and 1, on CPUs 0 and 2, both see the slot of CPU 1
      free, the request posted mixes the one's pair with the other's pages, and CPU 1 acknowledges
      pages it did not flush. */
  lemma TornRequestRun(n: nat) returns (steps: seq<Step>)
    requires n >= 3
    ensures Violates(Start(n), steps, ALL.(soleClaims := false), 1, Entry(1, 0, 0))
  {
    var w := ALL.(soleClaims := false);
    var s;
    steps, s := TwoSpaces(n, w);
    steps, s := Launch(Start(n), steps, w, s, Mutation(1, 0, 1), 0);
    steps, s := Launch(Start(n), steps, w, s, Mutation(2, 9, 1), 2);
    steps, s := Tear(Start(n), steps, w, s);
    steps, s := PostAndSend(Start(n), steps, w, s, 0);
    steps, s := Serve(Start(n), steps, w, s, 1);
    steps, s := Collect(Start(n), steps, w, s, 0);
  }

  /** CPU 1 may cache spaces 1 and 2, and caches a page of space 1. */
  lemma TwoSpaces(n: nat, w: Conditions) returns (steps: seq<Step>, s: State)
    requires n >= 2
    ensures Reaches(Start(n), steps, w, s)
    ensures var u := FreshCpu().(root := 1, loaded := 1, tlb := {Entry(1, 0, 0)});
            var sp := Space(1, 0, {1}, false, false);
            s == State(Start(n).cpus[1 := u], [Space(0, 0, {}, false, false), sp, sp], [], [], 0)
  {
    steps, s := [], Start(n);
    steps, s := Take(Start(n), steps, w, s, CreateSpace);
    steps, s := Take(Start(n), steps, w, s, CreateSpace);
    steps, s := Adopt(Start(n), steps, w, s, 1, 2);
    steps, s := Adopt(Start(n), steps, w, s, 1, 1);
    steps, s := Take(Start(n), steps, w, s, OnCache(1, Fill(Entry(1, 0, 0))));
    assert s.cpus[1].tlb == {Entry(1, 0, 0)} && s.spaces[1].cached == {1} && s.spaces[2].cached == {1};
  }

  /** Two threads, each at its only target CPU 1. */
  predicate BothAtOne(s: State) {
    && |s.cpus| >= 2 && !s.cpus[1].pending && |s.ops| == 2 && IsOp(s, 0) && IsOp(s, 1)
    && (forall k | 0 <= k < 2 :: s.ops[k].phase == Scan(1) && s.ops[k].targets == {1} && s.ops[k].cpu != 1)
  }

  /** They have written the heads of their requests. */
  lemma BothHeads(s: State, steps: seq<Step>, w: Conditions, now: State)
    returns (longer: seq<Step>, next: State)
    requires Reaches(s, steps, w, now) && !w.soleClaims && BothAtOne(now)
    ensures Reaches(s, longer, w, next)
    ensures var r := RequestOf(now, 0);
            var slot := now.cpus[1].slot.(space := r.space, token := r.token, gen := r.gen);
            next == now.(cpus := now.cpus[1 := now.cpus[1].(slot := slot)],
                         ops := [now.ops[0].(phase := HeadFilled(1)), now.ops[1].(phase := HeadFilled(1))])
  {
    longer, next := Take(s, steps, w, now, OnThread(0, Observe));
    longer, next := Take(s, longer, w, next, OnThread(1, Observe));
    longer, next := Take(s, longer, w, next, OnThread(1, FillHead));
    longer, next := Take(s, longer, w, next, OnThread(0, FillHead));
  }

  /** Thread 0 is ready to post what both have written. */
  lemma Tear(s: State, steps: seq<Step>, w: Conditions, now: State)
    returns (longer: seq<Step>, next: State)
    requires Reaches(s, steps, w, now) && !w.soleClaims && BothAtOne(now)
    ensures Reaches(s, longer, w, next)
    ensures var slot := RequestOf(now, 0).(first := now.muts[1].first, count := now.muts[1].count);
            next == now.(cpus := now.cpus[1 := now.cpus[1].(slot := slot)],
                         ops := [now.ops[0].(phase := Filled(1)), now.ops[1].(phase := Filled(1))])
  {
    longer, next := BothHeads(s, steps, w, now);
    longer, next := Take(s, longer, w, next, OnThread(0, FillTail));
    longer, next := Take(s, longer, w, next, OnThread(1, FillTail));
  }

  /** Two requests are posted in one slot, and the interrupt of one is sent. */
  lemma PostedTwice(n: nat, w: Conditions) returns (steps: seq<Step>, s: State)
    requires n >= 3 && w == ALL.(soleClaims := false)
    ensures Reaches(Start(n), steps, w, s) && |s.cpus| == n && IsOp(s, 1)
    ensures s.ops[1].phase == Marked(1) && s.ops[1].cpu == 2 && s.cpus[0].sent == 1 && s.cpus[2].sent == 0
    ensures var u := s.cpus[1];
            && u.ipi && u.pending && u.handler.Idle? && u.received == 0 && u.acks == 0 && FlushObeys(u, u.slot, w)
  {
    steps, s := TwoSpaces(n, w);
    steps, s := Launch(Start(n), steps, w, s, Mutation(1, 0, 1), 0);
    steps, s := Launch(Start(n), steps, w, s, Mutation(2, 9, 1), 2);
    steps, s := Tear(Start(n), steps, w, s);
    steps, s := PostAndSend(Start(n), steps, w, s, 0);
    steps, s := Take(Start(n), steps, w, s, OnThread(1, Post));
  }

  /** Two requests in one slot are answered once, and the second interrupt finds nothing to do. */
  lemma StrayInterruptRun(n: nat) returns (steps: seq<Step>, s: State)
    requires n >= 3
    ensures Reaches(Start(n), steps, ALL.(soleClaims := false), s) && |s.cpus| == n
    ensures s.cpus[0].sent == 1 && s.cpus[2].sent == 1 && s.cpus[1].received == 1 && s.cpus[1].acks == 1
    ensures !s.cpus[1].ipi && !s.cpus[1].pending && s.cpus[1].handler.Idle?
  {
    var w := ALL.(soleClaims := false);
    steps, s := PostedTwice(n, w);
    steps, s := Serve(Start(n), steps, w, s, 1);
    steps, s := Take(Start(n), steps, w, s, OnThread(1, CountSent));
    steps, s := Take(Start(n), steps, w, s, OnThread(1, SendOk));
    steps, s := Take(Start(n), steps, w, s, OnHandler(1, TakeIpi));
  }

  // ----- On how many CPUs a condition can be dropped -----

  /** The run ends with no retired translation in any TLB. */
  ghost predicate EndsSafe(s: State, steps: seq<Step>)
    requires Possible(s, steps)
  {
    var t := After(s, steps);
    Shape(t) && forall c | 0 <= c < |t.cpus| :: forall e | e in t.cpus[c].tlb :: !Retired(t, e)
  }

  /** Every run on n CPUs that obeys w ends so. */
  ghost predicate SafeOn(n: nat, w: Conditions) {
    forall s, steps | Init(s) && |s.cpus| == n && Possible(s, steps) :: RunObeys(s, steps, w) ==> EndsSafe(s, steps)
  }

  /** Dropping the condition on claims is safe exactly on at most two CPUs. */
  lemma ClaimsDroppedIff(n: nat)
    ensures SafeOn(n, ALL.(soleClaims := false)) <==> n <= 2
  {
    var w := ALL.(soleClaims := false);
    if n <= 2 {
      forall s, steps | Init(s) && |s.cpus| == n && Possible(s, steps) && RunObeys(s, steps, w)
        ensures EndsSafe(s, steps)
      {
        RunEndsSafe(s, steps, w);
      }
    } else {
      var steps := TornRequestRun(n);
      assert !EndsSafe(Start(n), steps);
    }
  }

  /** Dropping the condition on pairs is safe exactly on one CPU. */
  lemma PairsDroppedIff(n: nat)
    ensures SafeOn(n, ALL.(freshPairs := false)) <==> n <= 1
  {
    var w := ALL.(freshPairs := false);
    if n <= 1 {
      forall s, steps | Init(s) && |s.cpus| == n && Possible(s, steps) && RunObeys(s, steps, w)
        ensures EndsSafe(s, steps)
      {
        InitSlots(s);
        RunPostsNothing(s, steps, w);
        RunEndsSafe(s, steps, ALL);
      }
    } else {
      var steps := ReusedPairRun(n);
      assert !EndsSafe(Start(n), steps);
    }
  }

  /** Letting flushes be skipped is safe on no CPU at all. */
  lemma SkipsDroppedIff(n: nat)
    ensures SafeOn(n, ALL.(noSkips := false)) <==> n == 0
  {
    if n == 0 {
      SafeWithoutCpus(ALL.(noSkips := false));
    } else {
      var steps := OwnWindowRun(n);
      assert !EndsSafe(Start(n), steps);
    }
  }

  /** Nor is letting flushes load an old root again. */
  lemma RevertsDroppedIff(n: nat)
    ensures SafeOn(n, ALL.(noReverts := false)) <==> n == 0
  {
    if n == 0 {
      SafeWithoutCpus(ALL.(noReverts := false));
    } else {
      var steps := RevertedRootRun(n);
      assert !EndsSafe(Start(n), steps);
    }
  }

  lemma SafeWithoutCpus(w: Conditions)
    requires w.soleClaims && w.freshPairs
    ensures SafeOn(0, w)
  {
    forall s, steps | Init(s) && |s.cpus| == 0 && Possible(s, steps) && RunObeys(s, steps, w)
      ensures EndsSafe(s, steps)
    {
      RunFlushesNothing(s, steps, w);
      RunEndsSafe(s, steps, ALL);
    }
  }

  lemma RunEndsSafe(s: State, steps: seq<Step>, w: Conditions)
    requires Init(s) && Possible(s, steps) && RunObeys(s, steps, w)
    requires w == ALL || (w == ALL.(soleClaims := false) && |s.cpus| <= 2)
    ensures EndsSafe(s, steps)
  {
    InitSlots(s);
    if w != ALL { RunClaimsAlone(s, steps, ALL); }
    RunSlots(s, steps, ALL);
    var t := After(s, steps);
    forall c, e | 0 <= c < |t.cpus| && e in t.cpus[c].tlb ensures !Retired(t, e) {
      RetiredNeverCached(s, steps, c, e);
    }
  }
}
