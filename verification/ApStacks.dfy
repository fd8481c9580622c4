/**
 Which processors can run on the same stack while the application processors start. A processor
 that comes late takes the stack that is published by then, and runs on it until it halts.
 */
module ApStacks {
  import opened CpuTopology
  import opened ApBringup

  /** The processor has taken a stack and not halted. */
  predicate OnStack(ap: Ap) { !ap.Off? && !ap.Trampoline? && !ap.Halted? }

  /** It has not taken one yet. */
  predicate Stackless(ap: Ap) { ap.Off? || ap.Trampoline? }

  /** Two processors run on the stack of CPU k. */
  predicate Share(s: State, p: nat, q: nat, k: nat) {
    && p < |s.aps| && q < |s.aps| && p != q
    && OnStack(s.aps[p]) && s.aps[p].stack == k && OnStack(s.aps[q]) && s.aps[q].stack == k
  }

  /** Of two processors on one stack at most one is the owner; all others are too late and never
      get past activation. */
  lemma AtMostTheOwner(s: State, steps: seq<Step>, p: nat, q: nat, k: nat)
    requires ApBringup.Init(s) && Possible(s, steps) && Share(After(s, steps), p, q, k)
    ensures var t := After(s, steps);
            && !(Accepted(t.aps[p]) && Accepted(t.aps[q]))
            && (Accepted(t.aps[p]) ==> k < |t.apic| && t.physical[p] == t.apic[k])
            && (forall j | 0 <= j < |t.apic| :: t.apic[j] == t.physical[p] ==> j <= k)
  {
    InitInvariant(s);
    RunInvariant(s, steps);
    var t := After(s, steps);
    assert ApOk(t.apic, t.physical[p], t.started, t.box, t.aps[p]);
    assert ApOk(t.apic, t.physical[q], t.started, t.box, t.aps[q]);
  }

  /** When the stack of CPU k is about to be published, processor p can still come to run on it:
      it was told to start before and has not taken a stack, or it is CPU k. */
  predicate CanTake(s: State, p: nat, k: nat)
    requires ApBringup.Shape(s) && p < |s.aps| && k < |s.apic|
  {
    (s.physical[p] in s.started && Stackless(s.aps[p])) || s.physical[p] == s.apic[k]
  }

  // ----- Only those can -----

  /** Processor p, with APIC id `own`, will not take the stack of CPU k. */
  predicate Misses(s: State, p: nat, k: nat)
    requires ApBringup.Shape(s) && p < |s.aps|
  {
    match s.aps[p]
    case Off => s.physical[p] in s.started ==> s.box.stack > k
    case Trampoline => s.box.stack > k
    case Halted => true
    case _ => s.aps[p].stack != k
  }

  /** The loop has reached the publication of CPU k's stack. */
  predicate Reached(s: State, k: nat)
    requires ApBringup.Shape(s)
  {
    && (s.bsp.Next? ==> s.bsp.k > k)
    && (!s.bsp.Done? ==> s.bsp.k >= k)
    && (s.bsp.ClearMagic? ==> s.bsp.k > k)
  }

  lemma BspMisses(s: State, a: BspStep, p: nat, k: nat)
    requires ApBringup.Shape(s) && Reads(s) && BspEnabled(s, a) && p < |s.aps| && k < |s.apic|
    requires Reached(s, k) && Misses(s, p, k) && s.physical[p] != s.apic[k]
    ensures Reached(DoBsp(s, a), k) && Misses(DoBsp(s, a), p, k)
  {
    assert ApOk(s.apic, s.physical[p], s.started, s.box, s.aps[p]);
    BspKeepsBox(s, a);
  }

  lemma StepMisses(s: State, step: Step, p: nat, k: nat)
    requires ApBringup.Shape(s) && Reads(s) && Enabled(s, step) && p < |s.aps| && k < |s.apic|
    requires Reached(s, k) && Misses(s, p, k) && s.physical[p] != s.apic[k]
    ensures var t := Do(s, step); Reached(t, k) && |t.aps| == |s.aps| && Misses(t, p, k)
  {
    match step
    case OnBsp(a) => BspMisses(s, a, p, k);
    case OnAp(q) => ApTouches(s, q);
    case _ =>
  }

  lemma {:induction false} RunMisses(s: State, steps: seq<Step>, p: nat, k: nat)
    requires Inv(s) && Possible(s, steps) && p < |s.aps| && k < |s.apic|
    requires Reached(s, k) && Misses(s, p, k) && s.physical[p] != s.apic[k]
    ensures var t := After(s, steps); |t.aps| == |s.aps| && Misses(t, p, k)
    decreases |steps|
  {
    if steps != [] {
      StepInvariant(s, steps[0]);
      StepMisses(s, steps[0], p, k);
      RunMisses(Do(s, steps[0]), steps[1..], p, k);
    }
  }

  /** At the publication, whoever cannot take the stack never will. */
  lemma TakenBy(s: State, steps: seq<Step>, p: nat)
    requires Inv(s) && s.bsp.WriteStack? && p < |s.aps| && Possible(s, steps)
    requires var t := After(s, steps); p < |t.aps| && OnStack(t.aps[p]) && t.aps[p].stack == s.bsp.k
    ensures CanTake(s, p, s.bsp.k)
  {
    if !CanTake(s, p, s.bsp.k) {
      assert ApOk(s.apic, s.physical[p], s.started, s.box, s.aps[p]);
      RunMisses(s, steps, p, s.bsp.k);
      assert false;
    }
  }

  // ----- And they can -----

  /** Processor p, which was told to start, takes the stack that is published. */
  lemma TakesStack(s: State, now: State, p: nat) returns (next: State)
    requires Reachable(s, now) && ApBringup.Shape(now) && p < |now.aps|
    requires now.physical[p] in now.started && Stackless(now.aps[p])
    ensures Reachable(s, next) && ApBringup.Shape(next)
    ensures next == now.(aps := now.aps[p := HasStack(now.box.stack)])
  {
    next := now;
    if now.aps[p].Off? {
      next := ApBringup.Take(s, now, OnAp(p));
    }
    next := ApBringup.Take(s, next, OnAp(p));
  }

  /** The mailbox is written to its end and CPU k told to start. */
  lemma PublishedAndTold(s: State, now: State) returns (next: State)
    requires Reachable(s, now) && ApBringup.Shape(now) && now.bsp.WriteStack? && !now.box.magic
    ensures Reachable(s, next) && ApBringup.Shape(next)
    ensures var k := now.bsp.k;
            next == now.(box := Mailbox(true, k, k, now.apic[k]), bsp := AwaitOnline(k),
                         started := now.started + {now.apic[k]})
  {
    next := ApBringup.Take(s, now, OnBsp(Publish));
    next := ApBringup.Take(s, next, OnBsp(Publish));
    next := ApBringup.Take(s, next, OnBsp(Publish));
    next := ApBringup.Take(s, next, OnBsp(Publish));
    next := ApBringup.Take(s, next, OnBsp(Start(true)));
  }

  lemma NowTakes(s: State, p: nat)
    requires Inv(s) && s.bsp.WriteStack? && p < |s.aps| && CanTake(s, p, s.bsp.k)
    ensures Stackless(s.aps[p])
  {
    assert ApOk(s.apic, s.physical[p], s.started, s.box, s.aps[p]);
  }

  lemma BothTake(s: State, p: nat, q: nat) returns (t: State)
    requires Inv(s) && s.bsp.WriteStack? && p < |s.aps| && q < |s.aps| && p != q
    requires CanTake(s, p, s.bsp.k) && CanTake(s, q, s.bsp.k)
    ensures Reachable(s, t) && Share(t, p, q, s.bsp.k)
  {
    NowTakes(s, p);
    NowTakes(s, q);
    assert Possible(s, []) && After(s, []) == s;
    t := PublishedAndTold(s, s);
    t := TakesStack(s, t, p);
    t := TakesStack(s, t, q);
  }

  /** Some continuation brings two processors on the stack of CPU k. */
  ghost predicate CanBeShared(s: State, k: nat)
    requires ApBringup.Shape(s)
  {
    exists t, p, q :: Reachable(s, t) && Share(t, p, q, k)
  }

  /** In every run that has come to the publication of a stack: two processors can come to run on
      it exactly if two are left that can take it. With the owner present that is exactly if a
      processor that was told to start before has not taken its own stack yet. */
  lemma SharedStackIff(s: State, steps: seq<Step>)
    requires ApBringup.Init(s) && Possible(s, steps) && After(s, steps).bsp.WriteStack?
    ensures var t := After(s, steps);
            CanBeShared(t, t.bsp.k) <==>
              exists p, q | 0 <= p < |t.aps| && 0 <= q < |t.aps| && p != q ::
                CanTake(t, p, t.bsp.k) && CanTake(t, q, t.bsp.k)
  {
    InitInvariant(s);
    RunInvariant(s, steps);
    var t := After(s, steps);
    if CanBeShared(t, t.bsp.k) {
      var u, p, q :| Reachable(t, u) && Share(u, p, q, t.bsp.k);
      var more :| Possible(t, more) && After(t, more) == u;
      SameNumber(t, more);
      TakenBy(t, more, p);
      TakenBy(t, more, q);
    }
    if p, q :| 0 <= p < |t.aps| && 0 <= q < |t.aps| && p != q && CanTake(t, p, t.bsp.k) && CanTake(t, q, t.bsp.k) {
      var u := BothTake(t, p, q);
    }
  }

  lemma {:induction false} SameNumber(s: State, steps: seq<Step>)
    requires ApBringup.Shape(s) && Possible(s, steps)
    ensures |After(s, steps).aps| == |s.aps|
    decreases |steps|
  {
    if steps != [] { SameNumber(Do(s, steps[0]), steps[1..]); }
  }

  // ----- A processor that is up, and a late one on its stack -----

  /** Two processors are there. The first was told to start and given up, and the stack of the
      second is about to be published. */
  lemma FirstIsLate(s: State) returns (t: State)
    requires ApBringup.Init(s) && |s.apic| == 3 && s.physical == [s.apic[1], s.apic[2]]
    requires s.lifecycle[1] == s.lifecycle[2] == Prepared
    ensures Reachable(s, t) && ApBringup.Shape(t)
    ensures t.bsp == WriteStack(2) && !t.box.magic && t.started == {s.apic[1]} && t.aps == [Off, Off]
    ensures t.apic == s.apic && t.physical == s.physical && t.lifecycle == s.lifecycle[1 := Failed][2 := Starting]
  {
    t := FirstGivenUp(s);
    t := ApBringup.Take(s, t, OnBsp(Begin));
    t := ApBringup.Take(s, t, OnBsp(Publish));
  }

  lemma FirstGivenUp(s: State) returns (t: State)
    requires ApBringup.Init(s) && |s.apic| == 3 && |s.aps| == 2 && s.lifecycle[1] == Prepared
    ensures Reachable(s, t) && ApBringup.Shape(t) && t.apic == s.apic && t.physical == s.physical
    ensures t.bsp == Next(2) && t.started == {s.apic[1]} && t.aps == [Off, Off]
    ensures t.lifecycle == s.lifecycle[1 := Failed]
  {
    assert Possible(s, []) && After(s, []) == s;
    t := ApBringup.Take(s, s, OnBsp(Begin));
    t := Published(s, t);
    assert {} + {s.apic[1]} == {s.apic[1]};
    t := ApBringup.Take(s, t, OnBsp(Start(true)));
    t := TimesOut(s, t);
  }

  lemma TimesOut(s: State, now: State) returns (next: State)
    requires Reachable(s, now) && ApBringup.Shape(now) && now.bsp.AwaitOnline?
    requires !now.online[now.bsp.k] && now.lifecycle[now.bsp.k] == Starting
    ensures Reachable(s, next) && ApBringup.Shape(next)
    ensures next == now.(lifecycle := now.lifecycle[now.bsp.k := Failed], bsp := Next(now.bsp.k + 1),
                         stats := CountFailed(now.stats))
  {
    next := ApBringup.Take(s, now, OnBsp(TimeOut));
    next := ApBringup.Take(s, next, OnBsp(MarkFailed));
  }

  /** The second processor makes its next step without touching a record. */
  lemma SecondMoves(s: State, now: State, ap: Ap) returns (next: State)
    requires Reachable(s, now) && ApBringup.Shape(now) && |now.aps| == 2 && Enabled(now, OnAp(1))
    requires !now.aps[1].Checked? && !now.aps[1].Entered?
    requires NextAp(now.apic, now.physical[1], now.box, false, now.aps[1]) == ap
    ensures next == now.(aps := [now.aps[0], ap]) && ApBringup.Shape(next) && Reachable(s, next)
  {
    next := ApBringup.Take(s, now, OnAp(1));
    assert next.aps == [now.aps[0], ap];
  }

  /** It finds the mailbox whole and for itself. */
  lemma SecondMatches(s: State, now: State) returns (next: State)
    requires Reachable(s, now) && ApBringup.Shape(now) && |now.apic| == 3 && |now.aps| == 2
    requires now.box == Mailbox(true, 2, 2, now.apic[2]) && now.aps[1] == HasStack(2)
    ensures Reachable(s, next) && ApBringup.Shape(next) && next == now.(aps := [now.aps[0], Matched(2, 2)])
  {
    next := SecondMoves(s, now, HasId(2, 2));
    next := SecondMoves(s, next, SawMagic(2, 2));
    next := SecondMoves(s, next, Matched(2, 2));
  }

  lemma SecondPasses(s: State, now: State) returns (next: State)
    requires Reachable(s, now) && ApBringup.Shape(now) && |now.apic| == 3 && |now.aps| == 2
    requires now.box.expectedApic == now.apic[2] && now.physical == [now.apic[1], now.apic[2]]
    requires now.aps[1] == Matched(2, 2)
    ensures Reachable(s, next) && ApBringup.Shape(next) && next == now.(aps := [now.aps[0], Checked(2, 2)])
  {
    next := SecondMoves(s, now, Active(2, 2));
    next := SecondMoves(s, next, Checked(2, 2));
  }

  lemma SecondEnters(s: State, now: State) returns (next: State)
    requires Reachable(s, now) && ApBringup.Shape(now) && |now.apic| == 3 && |now.aps| == 2
    requires now.aps[1] == Checked(2, 2) && now.lifecycle[2] == Starting
    ensures Reachable(s, next) && ApBringup.Shape(next)
    ensures next == now.(aps := [now.aps[0], Entered(2, 2)], lifecycle := now.lifecycle[2 := Online])
  {
    next := ApBringup.Take(s, now, OnAp(1));
    assert next.aps == [now.aps[0], Entered(2, 2)];
  }

  lemma SecondRuns(s: State, now: State) returns (next: State)
    requires Reachable(s, now) && ApBringup.Shape(now) && |now.apic| == 3 && |now.aps| == 2
    requires now.aps[1] == Entered(2, 2)
    ensures Reachable(s, next) && ApBringup.Shape(next)
    ensures next == now.(aps := [now.aps[0], Running(2, 2)], online := now.online[2 := true])
  {
    next := ApBringup.Take(s, now, OnAp(1));
    assert next.aps == [now.aps[0], Running(2, 2)];
  }

  /** The second processor finds everything in order and goes online. */
  lemma OwnerComesUp(s: State, now: State) returns (next: State)
    requires Reachable(s, now) && ApBringup.Shape(now) && |now.apic| == 3 && |now.aps| == 2
    requires now.box == Mailbox(true, 2, 2, now.apic[2]) && now.physical == [now.apic[1], now.apic[2]]
    requires now.aps[1] == HasStack(2) && now.lifecycle[2] == Starting
    ensures Reachable(s, next) && ApBringup.Shape(next)
    ensures next == now.(aps := [now.aps[0], Running(2, 2)], lifecycle := now.lifecycle[2 := Online],
                         online := now.online[2 := true])
  {
    next := SecondMatches(s, now);
    next := SecondPasses(s, next);
    next := SecondEnters(s, next);
    next := SecondRuns(s, next);
  }

  /** The second processor is online on its stack, and the first, which came late, runs on the
      same one. */
  lemma LateOnStackRun(s: State) returns (t: State)
    requires ApBringup.Init(s) && |s.apic| == 3 && s.physical == [s.apic[1], s.apic[2]]
    requires s.lifecycle[1] == s.lifecycle[2] == Prepared
    ensures Reachable(s, t) && Share(t, 0, 1, 2) && t.aps[1].Running? && t.online[2]
  {
    t := FirstIsLate(s);
    t := PublishedAndTold(s, t);
    t := TakesStack(s, t, 0);
    t := TakesStack(s, t, 1);
    t := OwnerComesUp(s, t);
  }
}
