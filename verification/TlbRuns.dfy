/**
 Runs of the TLB protocol put together from parts.
 */
module TlbRuns {
  import opened Basics
  import opened TlbModel
  import opened TlbSlots
  import opened TlbSafety

  /** The run of `steps` from s is possible, obeys w and ends in `now`. */
  predicate Reaches(s: State, steps: seq<Step>, w: Conditions, now: State) {
    Possible(s, steps) && RunObeys(s, steps, w) && After(s, steps) == now
  }

  lemma {:induction false} Extend(s: State, steps: seq<Step>, w: Conditions, step: Step)
    requires Possible(s, steps) && RunObeys(s, steps, w)
    requires Enabled(After(s, steps), step) && Obeys(After(s, steps), step, w)
    ensures Reaches(s, steps + [step], w, Do(After(s, steps), step))
    decreases |steps|
  {
    if steps == [] {
      assert [step][1..] == [];
    } else {
      assert (steps + [step])[1..] == steps[1..] + [step];
      Extend(Do(s, steps[0]), steps[1..], w, step);
    }
  }

  lemma Take(s: State, steps: seq<Step>, w: Conditions, now: State, step: Step)
    returns (longer: seq<Step>, next: State)
    requires Reaches(s, steps, w, now) && Enabled(now, step) && Obeys(now, step, w)
    ensures next == Do(now, step) && Reaches(s, longer, w, next)
  {
    Extend(s, steps, w, step);
    longer, next := steps + [step], Do(now, step);
  }

  /** n CPUs on the kernel root, and no user space. */
  function Start(n: nat): (s: State)
    ensures Init(s) && |s.cpus| == n
  {
    State(seq(n, _ => FreshCpu()), [Space(0, 0, {}, false, false)], [], [], 0)
  }

  /** CPU c changes to user space sp. */
  lemma Adopt(s: State, steps: seq<Step>, w: Conditions, now: State, c: nat, sp: nat)
    returns (longer: seq<Step>, next: State)
    requires Reaches(s, steps, w, now) && RootEnabled(now, c, BeginSwitch(sp))
    ensures Reaches(s, longer, w, next)
    ensures next == now.(
              cpus := now.cpus[c := now.cpus[c].(root := sp, loaded := sp, tlb := {})],
              spaces := now.spaces[sp := now.spaces[sp].(cached := now.spaces[sp].cached + {c})])
  {
    longer, next := Take(s, steps, w, now, OnRoot(c, BeginSwitch(sp)));
    longer, next := Take(s, longer, w, next, OnRoot(c, LoadRoot));
    longer, next := Take(s, longer, w, next, OnRoot(c, RecordSwitch));
  }

  /** CPU i begins an invalidation of a user space only CPU 1 may cache. */
  lemma Launch(s: State, steps: seq<Step>, w: Conditions, now: State, m: Mutation, i: nat)
    returns (longer: seq<Step>, next: State)
    requires Reaches(s, steps, w, now) && MutateEnabled(now, m) && m.space != 0
    requires i < |now.cpus| && i != 1 && 2 <= |now.cpus| && WaitFree(now, i)
    requires |now.ops| == |now.muts| && now.spaces[m.space].cached == {1}
    ensures Reaches(s, longer, w, next)
    ensures var sp := now.spaces[m.space];
            next == now.(
              muts := now.muts + [m],
              ops := now.ops + [Op(sp.token + 1, sp.gen + 1, {1}, i, {}, {}, None, Scan(1))],
              spaces := now.spaces[m.space := sp.(token := sp.token + 1, gen := sp.gen + 1, busy := true)])
  {
    var k := |now.ops|;
    longer, next := Take(s, steps, w, now, Mutate(m));
    longer, next := Take(s, longer, w, next, OnThread(k, Capture));
    longer, next := Take(s, longer, w, next, OnThread(k, Enter(i)));
    longer, next := Take(s, longer, w, next, OnThread(k, SkipTarget));
  }

  /** On two CPUs, CPU 0 begins a kernel-wide invalidation and has flushed itself. */
  lemma LaunchKernel(s: State, steps: seq<Step>, w: Conditions, now: State, m: Mutation)
    returns (longer: seq<Step>, next: State)
    requires Reaches(s, steps, w, now) && MutateEnabled(now, m) && m.space == 0 && WaitFree(now, 0)
    requires |now.cpus| == 2 && |now.ops| == |now.muts|
    ensures Reaches(s, longer, w, next)
    ensures var sp, k := now.spaces[0], |now.ops|;
            && next.muts == now.muts + [m] && |next.cpus| == 2 && next.cpus[1] == now.cpus[1]
            && next.ops == now.ops + [Op(sp.token + 1, sp.gen + 1, {0, 1}, 0, {}, {0}, None, Scan(1))]
            && |next.spaces| == |now.spaces|
  {
    var k := |now.ops|;
    longer, next := Take(s, steps, w, now, Mutate(m));
    longer, next := Take(s, longer, w, next, OnThread(k, DrawGeneration));
    longer, next := Take(s, longer, w, next, OnThread(k, DrawToken));
    assert next.ops[k].targets == {0, 1};
    longer, next := Take(s, longer, w, next, OnThread(k, Enter(0)));
    longer, next := Take(s, longer, w, next, OnThread(k, SkipTarget));
  }

  /** No target is left but the thread's own CPU. */
  lemma {:induction false} SkipRest(s: State, steps: seq<Step>, w: Conditions, now: State, k: nat)
    returns (longer: seq<Step>, next: State)
    requires Reaches(s, steps, w, now) && IsOp(now, k)
    requires now.ops[k].phase.Scan? && now.ops[k].phase.next <= |now.cpus|
    requires forall d | d in now.ops[k].targets :: d >= now.ops[k].phase.next ==> d == now.ops[k].cpu
    ensures Reaches(s, longer, w, next) && next == Move(now, k, Scan(|now.cpus|))
    decreases |now.cpus| - now.ops[k].phase.next
  {
    longer, next := steps, now;
    if now.ops[k].phase.next < |now.cpus| {
      longer, next := Take(s, steps, w, now, OnThread(k, SkipTarget));
      longer, next := SkipRest(s, longer, w, next, k);
    } else {
      assert now.ops[k := now.ops[k]] == now.ops;
    }
  }

  lemma BeginPoll(s: State, steps: seq<Step>, w: Conditions, now: State, k: nat)
    returns (longer: seq<Step>, next: State)
    requires Reaches(s, steps, w, now) && IsOp(now, k)
    requires now.ops[k].phase.Scan? && now.ops[k].phase.next <= |now.cpus|
    requires forall d | d in now.ops[k].targets :: d >= now.ops[k].phase.next ==> d == now.ops[k].cpu
    ensures Reaches(s, longer, w, next) && next == Move(now, k, Poll)
  {
    longer, next := SkipRest(s, steps, w, now, k);
    longer, next := Take(s, longer, w, next, OnThread(k, StartPoll));
    assert next.ops == now.ops[k := now.ops[k].(phase := Poll)];
  }

  /** CPU 0 invalidates a user space that only it may cache, from beginning to end. */
  lemma InvalidateAlone(s: State, steps: seq<Step>, w: Conditions, now: State, m: Mutation)
    returns (longer: seq<Step>, next: State)
    requires Reaches(s, steps, w, now) && MutateEnabled(now, m) && m.space != 0
    requires 1 <= |now.cpus| && WaitFree(now, 0) && |now.ops| == |now.muts|
    requires now.spaces[m.space].cached == {0} && !now.spaces[m.space].busy
    requires var sp := now.spaces[m.space];
             FlushObeys(now.cpus[0], Request(m.space, sp.token + 1, sp.gen + 1, m.first, m.count), w)
    ensures Reaches(s, longer, w, next)
    ensures var sp := now.spaces[m.space];
            var r := Request(m.space, sp.token + 1, sp.gen + 1, m.first, m.count);
            next == now.(
              cpus := now.cpus[0 := Flush(now.cpus[0], r)],
              muts := now.muts + [m],
              ops := now.ops + [Op(sp.token + 1, sp.gen + 1, {0}, 0, {}, {0}, None, Succeeded)],
              spaces := now.spaces[m.space := sp.(token := sp.token + 1, gen := sp.gen + 1)])
  {
    var k := |now.ops|;
    longer, next := Take(s, steps, w, now, Mutate(m));
    longer, next := Take(s, longer, w, next, OnThread(k, Capture));
    longer, next := Take(s, longer, w, next, OnThread(k, Enter(0)));
    longer, next := FinishAlone(s, longer, w, next, k);
  }

  /** No CPU is left to ask. */
  lemma FinishAlone(s: State, steps: seq<Step>, w: Conditions, now: State, k: nat)
    returns (longer: seq<Step>, next: State)
    requires Reaches(s, steps, w, now) && IsOp(now, k) && TokenValid(now, k) && now.muts[k].space != 0
    requires now.ops[k].phase == Scan(0) && now.ops[k].targets == now.ops[k].acked == {now.ops[k].cpu}
    requires now.ops[k].seen.None?
    ensures Reaches(s, longer, w, next) && next == End(now, k, Succeeded)
  {
    longer, next := BeginPoll(s, steps, w, now, k);
    longer, next := Take(s, longer, w, next, OnThread(k, Leave));
    longer, next := Take(s, longer, w, next, OnThread(k, Succeed));
    assert next.ops == End(now, k, Succeeded).ops;
  }

  /** CPU 1 is the last CPU thread k has to ask, and k runs on another one. */
  predicate LastIsOne(s: State, k: nat) {
    && IsOp(s, k) && 2 <= |s.cpus| && s.ops[k].cpu < |s.cpus| && s.ops[k].cpu != 1
    && (forall d | d in s.ops[k].targets :: d > 1 ==> d == s.ops[k].cpu)
  }

  /** The state after k has posted to CPU 1: `slot` is what it left there. */
  function Delivered(s: State, k: nat, slot: Request): State
    requires LastIsOne(s, k)
  {
    var i := s.ops[k].cpu;
    s.(cpus := s.cpus[i := s.cpus[i].(sent := s.cpus[i].sent + 1)]
                     [1 := s.cpus[1].(pending := true, slot := slot, owner := k, ipi := true)],
       ops := s.ops[k := s.ops[k].(published := s.ops[k].published + {1}, phase := Poll)])
  }

  /** Thread k, at its last target, CPU 1, posts its request. */
  lemma Deliver(s: State, steps: seq<Step>, w: Conditions, now: State, k: nat)
    returns (longer: seq<Step>, next: State)
    requires Reaches(s, steps, w, now) && LastIsOne(now, k)
    requires now.ops[k].phase == Scan(1) && 1 in now.ops[k].targets && !now.cpus[1].pending
    requires w.soleClaims ==> SoleClaim(now, k, 1)
    requires w.freshPairs ==> FreshPair(now, k, 1)
    ensures Reaches(s, longer, w, next) && next == Delivered(now, k, RequestOf(now, k))
  {
    longer, next := Take(s, steps, w, now, OnThread(k, Observe));
    longer, next := Take(s, longer, w, next, OnThread(k, FillHead));
    longer, next := Take(s, longer, w, next, OnThread(k, FillTail));
    longer, next := PostAndSend(s, longer, w, next, k);
    assert next.cpus == Delivered(now, k, RequestOf(now, k)).cpus;
  }

  lemma PostAndSend(s: State, steps: seq<Step>, w: Conditions, now: State, k: nat)
    returns (longer: seq<Step>, next: State)
    requires Reaches(s, steps, w, now) && LastIsOne(now, k) && now.ops[k].phase == Filled(1)
    requires w.freshPairs ==> FreshPair(now, k, 1)
    ensures Reaches(s, longer, w, next) && next == Delivered(now, k, now.cpus[1].slot)
  {
    longer, next := Take(s, steps, w, now, OnThread(k, Post));
    longer, next := Take(s, longer, w, next, OnThread(k, CountSent));
    longer, next := Take(s, longer, w, next, OnThread(k, SendOk));
    longer, next := BeginPoll(s, longer, w, next, k);
    assert next.cpus == Delivered(now, k, now.cpus[1].slot).cpus;
  }

  /** CPU c takes the interrupt and flushes. */
  lemma BeginServe(s: State, steps: seq<Step>, w: Conditions, now: State, c: nat)
    returns (longer: seq<Step>, next: State)
    requires Reaches(s, steps, w, now) && IsCpu(now, c)
    requires now.cpus[c].ipi && now.cpus[c].pending && now.cpus[c].handler.Idle?
    requires FlushObeys(now.cpus[c], now.cpus[c].slot, w)
    ensures Reaches(s, longer, w, next)
    ensures var u := now.cpus[c];
            next == now.(cpus := now.cpus[c := Flush(u, u.slot).(
              ipi := false, handler := Flushed(u.slot), received := u.received + 1)])
  {
    longer, next := Take(s, steps, w, now, OnHandler(c, TakeIpi));
    longer, next := Take(s, longer, w, next, OnHandler(c, HandlerFlush));
  }

  /** It answers and frees its slot. */
  lemma EndServe(s: State, steps: seq<Step>, w: Conditions, now: State, c: nat)
    returns (longer: seq<Step>, next: State)
    requires Reaches(s, steps, w, now) && IsCpu(now, c) && now.cpus[c].handler.Flushed?
    ensures Reaches(s, longer, w, next)
    ensures var u := now.cpus[c];
            next == now.(cpus := now.cpus[c := u.(
              pending := false, ackGen := u.handler.req.gen, ackToken := u.handler.req.token,
              handler := Idle, lastAck := Some(u.owner), acks := u.acks + 1)])
  {
    longer, next := Take(s, steps, w, now, OnHandler(c, StoreAckGen));
    longer, next := Take(s, longer, w, next, OnHandler(c, StoreAckToken));
    longer, next := Take(s, longer, w, next, OnHandler(c, ClearPending));
    longer, next := Take(s, longer, w, next, OnHandler(c, CountAck));
  }

  /** CPU c takes the interrupt and handles its slot. */
  lemma Serve(s: State, steps: seq<Step>, w: Conditions, now: State, c: nat)
    returns (longer: seq<Step>, next: State)
    requires Reaches(s, steps, w, now) && IsCpu(now, c)
    requires now.cpus[c].ipi && now.cpus[c].pending && now.cpus[c].handler.Idle?
    requires FlushObeys(now.cpus[c], now.cpus[c].slot, w)
    ensures Reaches(s, longer, w, next)
    ensures var u := now.cpus[c];
            next == now.(cpus := now.cpus[c := Flush(u, u.slot).(
              pending := false, ipi := false, ackGen := u.slot.gen, ackToken := u.slot.token,
              lastAck := Some(u.owner), received := u.received + 1, acks := u.acks + 1)])
  {
    longer, next := BeginServe(s, steps, w, now, c);
    FlushShrinks(now.cpus[c], now.cpus[c].slot);
    longer, next := EndServe(s, longer, w, next, c);
  }

  /** Thread k finds its pair on CPU 1, whose answer alone was missing, and reports success. */
  lemma Collect(s: State, steps: seq<Step>, w: Conditions, now: State, k: nat)
    returns (longer: seq<Step>, next: State)
    requires Reaches(s, steps, w, now) && IsOp(now, k) && 2 <= |now.cpus|
    requires now.ops[k].phase.Poll? && now.ops[k].seen.None? && 1 in now.ops[k].published && 1 !in now.ops[k].acked
    requires now.ops[k].targets <= now.ops[k].acked + {1} && TokenValid(now, k)
    requires now.cpus[1].ackToken == now.ops[k].token && now.cpus[1].ackGen == now.ops[k].gen
    ensures Reaches(s, longer, w, next)
    ensures next == End(now.(ops := now.ops[k := now.ops[k].(acked := now.ops[k].acked + {1})]), k, Succeeded)
  {
    longer, next := Take(s, steps, w, now, OnThread(k, PollToken(1)));
    longer, next := Take(s, longer, w, next, OnThread(k, PollGen));
    assert next.ops == now.ops[k := now.ops[k].(acked := now.ops[k].acked + {1})];
    longer, next := Take(s, longer, w, next, OnThread(k, Leave));
    longer, next := Take(s, longer, w, next, OnThread(k, Succeed));
  }
}
