/**
 What an invalidation can still reach: success, as long as nobody posts after it, and a false
 success, if it is about to post over its own acknowledgement pair.
 */
module TlbProgress {
  import opened Basics
  import opened TlbModel
  import opened TlbSlots
  import opened TlbPairs
  import opened TlbRuns

  /** Slots are claimed by one thread at a time; nothing else is asked for. */
  const CLAIMS: Conditions := Conditions(true, false, false, false)

  /** The CPU shows the acknowledgement pair the invalidation waits for. */
  predicate Shows(u: Cpu, o: Op) { u.ackToken == o.token && u.ackGen == o.gen }

  // ----- No target is passed over -----

  /** The publication loop has dealt with every target it has gone past. */
  predicate CoverOk(o: Op) {
    && (At(o.phase) ==>
          && (o.cpu in o.targets ==> o.cpu in o.acked) && o.acked <= {o.cpu}
          && (forall c | c in o.targets :: c < o.phase.next ==> c in o.published || c in o.acked))
    && (o.phase.Poll? ==> o.targets <= o.published + o.acked)
  }

  predicate Covered(s: State) {
    forall k | 0 <= k < |s.ops| :: CoverOk(s.ops[k])
  }

  lemma ThreadCovers(s: State, k: nat, step: ThreadStep)
    requires Slots(s) && Covered(s) && ThreadEnabled(s, k, step)
    ensures Covered(DoThread(s, k, step))
  {
    assert OpOk(s, k) && CoverOk(s.ops[k]);
    var t := DoThread(s, k, step);
    forall j | 0 <= j < |t.ops| ensures CoverOk(t.ops[j]) {
      if j != k { assert CoverOk(s.ops[j]); }
    }
  }

  lemma StepCovers(s: State, step: Step)
    requires Slots(s) && Covered(s) && Enabled(s, step)
    ensures Covered(Do(s, step))
  {
    if step.OnThread? {
      ThreadCovers(s, step.op, step.thread);
    } else {
      var t := Do(s, step);
      forall j | 0 <= j < |t.ops| ensures CoverOk(t.ops[j]) {
        if j < |s.ops| { assert CoverOk(s.ops[j]); }
      }
    }
  }

  lemma {:induction false} RunCovers(s: State, steps: seq<Step>, w: Conditions)
    requires Slots(s) && Covered(s) && Possible(s, steps) && w.soleClaims && RunObeys(s, steps, w)
    ensures Covered(After(s, steps))
    decreases |steps|
  {
    if steps != [] {
      StepSlots(s, steps[0], w);
      StepCovers(s, steps[0]);
      RunCovers(Do(s, steps[0]), steps[1..], w);
    }
  }

  lemma Reached(s: State, steps: seq<Step>, w: Conditions)
    requires Init(s) && Possible(s, steps) && w.soleClaims && RunObeys(s, steps, w)
    ensures Paired(After(s, steps)) && Covered(After(s, steps))
  {
    InitPaired(s);
    RunPaired(s, steps, w);
    RunCovers(s, steps, w);
  }

  // ----- A CPU comes to the end of its handler -----

  /** What the handler does next. */
  function HandlerNext(u: Cpu): HandlerStep {
    match u.handler
    case Idle => TakeIpi
    case Read(_) => HandlerFlush
    case Flushed(_) => StoreAckGen
    case GenStored(_) => StoreAckToken
    case TokenStored(_) => ClearPending
    case Cleared => CountAck
  }

  /** How many steps it takes to free the slot. */
  function Remaining(u: Cpu): nat {
    if !u.pending then 0
    else match u.handler
         case Cleared => 6
         case Idle => 5
         case Read(_) => 4
         case Flushed(_) => 3
         case GenStored(_) => 2
         case TokenStored(_) => 1
  }

  predicate OnlyCpu(s: State, t: State, c: nat) {
    c < |s.cpus| == |t.cpus| && t == s.(cpus := s.cpus[c := t.cpus[c]])
  }

  lemma HandlerMoves(s: State, c: nat)
    requires Slots(s) && c < |s.cpus| && s.cpus[c].pending && (s.cpus[c].ipi || Busy(s.cpus[c].handler))
    ensures var step, u := HandlerNext(s.cpus[c]), s.cpus[c];
            && HandlerEnabled(s, c, step)
            && OnlyCpu(s, DoHandler(s, c, step), c)
            && HandlerCpu(u, step).owner == u.owner && Remaining(HandlerCpu(u, step)) < Remaining(u)
  {
    assert SlotOk(s, c);
  }

  /** A pending request whose interrupt was sent is handled after at most six steps. */
  lemma {:induction false} Drain(s: State, steps: seq<Step>, now: State, k: nat, c: nat)
    returns (longer: seq<Step>, next: State)
    requires Reaches(s, steps, CLAIMS, now) && Paired(now) && c < |now.cpus| && k < |now.ops|
    requires now.ops[k].phase.Poll? && now.cpus[c].owner == k
    ensures Reaches(s, longer, CLAIMS, next) && Paired(next) && OnlyCpu(now, next, c)
    ensures next.cpus[c].owner == k && !next.cpus[c].pending
    decreases Remaining(now.cpus[c])
  {
    longer, next := steps, now;
    if now.cpus[c].pending {
      assert SlotOk(now, c);
      HandlerMoves(now, c);
      var step := OnHandler(c, HandlerNext(now.cpus[c]));
      longer, next := Take(s, steps, CLAIMS, now, step);
      StepPaired(now, step, CLAIMS);
      longer, next := Drain(s, longer, next, k, c);
    }
  }

  /** Nothing changed but CPUs in `todo`. */
  predicate OnlyCpus(s: State, t: State, todo: set<nat>) {
    && |s.cpus| == |t.cpus| && t == s.(cpus := t.cpus)
    && forall c | 0 <= c < |s.cpus| && c !in todo :: t.cpus[c] == s.cpus[c]
  }

  predicate Freed(s: State, k: nat, todo: set<nat>) {
    forall c | c in todo :: c < |s.cpus| && s.cpus[c].owner == k && !s.cpus[c].pending
  }

  lemma {:induction false} DrainAll(s: State, steps: seq<Step>, now: State, k: nat, todo: set<nat>)
    returns (longer: seq<Step>, next: State)
    requires Reaches(s, steps, CLAIMS, now) && Paired(now) && k < |now.ops| && now.ops[k].phase.Poll?
    requires forall c | c in todo :: c < |now.cpus| && now.cpus[c].owner == k
    ensures Reaches(s, longer, CLAIMS, next) && Paired(next) && OnlyCpus(now, next, todo) && Freed(next, k, todo)
    decreases todo
  {
    longer, next := steps, now;
    if todo != {} {
      var c :| c in todo;
      longer, next := Drain(s, steps, now, k, c);
      longer, next := DrainAll(s, longer, next, k, todo - {c});
    }
  }

  /** A CPU that handled k's request, and none since, answers k's poll. */
  lemma FreedShows(s: State, k: nat, c: nat)
    requires Paired(s) && k < |s.ops| && c < |s.cpus| && c in s.ops[k].published
    requires s.cpus[c].owner == k && !s.cpus[c].pending
    ensures s.cpus[c].lastAck == Some(k) && Shows(s.cpus[c], s.ops[k])
  {
    assert SlotOk(s, c) && AckOk(s, c) && AnswerOk(s, c);
  }

  // ----- The poll comes to its end -----

  predicate AllShow(s: State, k: nat)
    requires k < |s.ops|
  {
    forall c | c in s.ops[k].targets && c !in s.ops[k].acked ::
      c < |s.cpus| && c in s.ops[k].published && Shows(s.cpus[c], s.ops[k])
  }

  lemma PollOne(s: State, steps: seq<Step>, w: Conditions, now: State, k: nat, c: nat)
    returns (longer: seq<Step>, next: State)
    requires Reaches(s, steps, w, now) && IsOp(now, k) && now.ops[k].phase.Poll? && now.ops[k].seen.None?
    requires c < |now.cpus| && c in now.ops[k].published && c !in now.ops[k].acked && Shows(now.cpus[c], now.ops[k])
    ensures Reaches(s, longer, w, next)
    ensures next == SetOp(now, k, now.ops[k].(acked := now.ops[k].acked + {c}))
  {
    longer, next := Take(s, steps, w, now, OnThread(k, PollToken(c)));
    longer, next := Take(s, longer, w, next, OnThread(k, PollGen));
    assert next.ops == now.ops[k := now.ops[k].(acked := now.ops[k].acked + {c})];
  }

  /** With every missing answer in place the thread reports success. */
  lemma {:induction false} PollAll(s: State, steps: seq<Step>, w: Conditions, now: State, k: nat)
    returns (longer: seq<Step>, next: State)
    requires Reaches(s, steps, w, now) && IsOp(now, k) && now.ops[k].phase.Poll? && TokenValid(now, k)
    requires AllShow(now, k) && now.ops[k].seen.None?
    ensures Reaches(s, longer, w, next) && next.cpus == now.cpus
    ensures |next.ops| == |now.ops| && next.ops[k].phase.Succeeded?
    decreases now.ops[k].targets - now.ops[k].acked
  {
    var o := now.ops[k];
    if o.targets <= o.acked {
      longer, next := Take(s, steps, w, now, OnThread(k, Leave));
      longer, next := Take(s, longer, w, next, OnThread(k, Succeed));
    } else {
      var c :| c in o.targets && c !in o.acked;
      longer, next := PollOne(s, steps, w, now, k, c);
      assert o.targets - (o.acked + {c}) < o.targets - o.acked by { assert c in o.targets - o.acked; }
      longer, next := PollAll(s, longer, w, next, k);
    }
  }

  /** A poll that stands between its two loads makes the second. */
  lemma ClearSeen(s: State, steps: seq<Step>, w: Conditions, now: State, k: nat)
    returns (longer: seq<Step>, next: State)
    requires Reaches(s, steps, w, now) && IsOp(now, k) && now.ops[k].phase.Poll?
    requires now.ops[k].seen.Some? ==> now.ops[k].seen.value < |now.cpus|
    requires TokenValid(now, k) && AllShow(now, k)
    ensures Reaches(s, longer, w, next) && IsOp(next, k) && next.ops[k].phase.Poll? && next.ops[k].seen.None?
    ensures next.cpus == now.cpus && |next.ops| == |now.ops| && TokenValid(next, k) && AllShow(next, k)
  {
    longer, next := steps, now;
    if now.ops[k].seen.Some? {
      longer, next := Take(s, steps, w, now, OnThread(k, PollGen));
    }
  }

  // ----- Success with one initiator -----

  /** Nobody has posted to a CPU after k did. */
  predicate LastPoster(s: State, k: nat)
    requires k < |s.ops|
  {
    forall c | c in s.ops[k].published :: c < |s.cpus| && s.cpus[c].owner == k
  }

  /** An invalidation that polls, and after which nobody posted to its targets, can always
      still succeed. */
  lemma CanSucceed(s: State, steps: seq<Step>, w: Conditions, k: nat) returns (more: seq<Step>)
    requires Init(s) && Possible(s, steps) && w.soleClaims && RunObeys(s, steps, w)
    requires k < |After(s, steps).ops| && After(s, steps).ops[k].phase.Poll? && LastPoster(After(s, steps), k)
    ensures var t := After(s, steps);
            && Possible(t, more) && RunObeys(t, more, CLAIMS)
            && k < |After(t, more).ops| && After(t, more).ops[k].phase.Succeeded?
  {
    Reached(s, steps, w);
    var t := After(s, steps);
    var next;
    assert OpOk(t, k) && CoverOk(t.ops[k]) && OpNumbers(t, k) && SpaceNumbers(t, t.muts[k].space);
    more, next := DrainAll(t, [], t, k, t.ops[k].published);
    forall c | c in t.ops[k].published ensures c < |next.cpus| && Shows(next.cpus[c], next.ops[k]) {
      FreedShows(next, k, c);
    }
    more, next := ClearSeen(t, more, CLAIMS, next, k);
    more, next := PollAll(t, more, CLAIMS, next, k);
  }

  /** No thread but k posts a request in this run. */
  predicate NoOtherPosts(steps: seq<Step>, k: nat) {
    forall i | 0 <= i < |steps| :: steps[i].OnThread? && steps[i].thread.Post? ==> steps[i].op == k
  }

  /** The slots k has used are marked as its own. */
  predicate Owns(s: State, k: nat) {
    && k < |s.ops|
    && (forall c | 0 <= c < |s.cpus| :: Uses(s.ops[k], c) ==> s.cpus[c].owner == k)
  }

  lemma StepOwns(s: State, step: Step, k: nat)
    requires Slots(s) && Owns(s, k) && Enabled(s, step)
    requires step.OnThread? && step.thread.Post? ==> step.op == k
    ensures Owns(Do(s, step), k)
  {
    if step.OnThread? { ThreadOwns(s, step.op, step.thread, k); }
  }

  predicate Uses(o: Op, c: nat) { c in o.published || Holding(o.phase, c) }

  /** Only posting uses another slot, and only posting changes an owner. */
  lemma SameUses(s: State, j: nat, step: ThreadStep, k: nat, c: nat)
    requires Shape(s) && k < |s.ops| && OpOk(s, k) && ThreadEnabled(s, j, step) && !step.Post?
    ensures |DoThread(s, j, step).ops| == |s.ops|
    ensures Uses(DoThread(s, j, step).ops[k], c) ==> Uses(s.ops[k], c)
  {
  }

  lemma SameOwners(s: State, j: nat, step: ThreadStep, c: nat)
    requires ThreadEnabled(s, j, step) && !step.Post? && c < |s.cpus|
    ensures |DoThread(s, j, step).cpus| == |s.cpus| && DoThread(s, j, step).cpus[c].owner == s.cpus[c].owner
  {
  }

  lemma PostOwns(s: State, k: nat)
    requires Slots(s) && Owns(s, k) && ThreadEnabled(s, k, Post)
    ensures Owns(DoPost(s, k), k)
  {
  }

  lemma ThreadOwns(s: State, j: nat, step: ThreadStep, k: nat)
    requires Slots(s) && Owns(s, k) && ThreadEnabled(s, j, step) && (step.Post? ==> j == k)
    ensures Owns(DoThread(s, j, step), k)
  {
    if step.Post? {
      PostOwns(s, k);
    } else {
      var t := DoThread(s, j, step);
      assert OpOk(s, k);
      SameUses(s, j, step, k, 0);
      assert |t.cpus| == |s.cpus|;
      forall c | 0 <= c < |t.cpus| && Uses(t.ops[k], c) ensures t.cpus[c].owner == k {
        SameUses(s, j, step, k, c);
        SameOwners(s, j, step, c);
      }
    }
  }

  lemma {:induction false} RunOwns(s: State, steps: seq<Step>, w: Conditions, k: nat)
    requires Slots(s) && Owns(s, k) && Possible(s, steps) && w.soleClaims && RunObeys(s, steps, w)
    requires NoOtherPosts(steps, k)
    ensures Owns(After(s, steps), k)
    decreases |steps|
  {
    if steps != [] {
      StepSlots(s, steps[0], w);
      StepOwns(s, steps[0], k);
      assert forall i | 0 <= i < |steps| - 1 :: steps[1..][i] == steps[i + 1];
      RunOwns(Do(s, steps[0]), steps[1..], w, k);
    }
  }

  lemma {:induction false} Joined(s: State, first: seq<Step>, later: seq<Step>, w: Conditions)
    requires Possible(s, first) && RunObeys(s, first, w)
    requires Possible(After(s, first), later) && RunObeys(After(s, first), later, w)
    ensures Reaches(s, first + later, w, After(After(s, first), later))
    decreases |first|
  {
    if first == [] {
      assert first + later == later;
    } else {
      Joined(Do(s, first[0]), first[1..], later, w);
      assert (first + later)[1..] == first[1..] + later;
    }
  }

  /** From its capture on the only thread that posts: whatever the CPUs have done meanwhile,
      an invalidation that polls can still be acknowledged by all its targets. */
  lemma AloneCanSucceed(s: State, first: seq<Step>, later: seq<Step>, w: Conditions, k: nat) returns (more: seq<Step>)
    requires Init(s) && w.soleClaims && Possible(s, first) && RunObeys(s, first, w)
    requires k < |After(s, first).ops| && After(s, first).ops[k].phase.Captured?
    requires Possible(After(s, first), later) && RunObeys(After(s, first), later, w) && NoOtherPosts(later, k)
    requires k < |After(After(s, first), later).ops| && After(After(s, first), later).ops[k].phase.Poll?
    ensures var t := After(After(s, first), later);
            && Possible(t, more) && RunObeys(t, more, CLAIMS)
            && k < |After(t, more).ops| && After(t, more).ops[k].phase.Succeeded?
  {
    Reached(s, first, w);
    var begun := After(s, first);
    assert OpOk(begun, k);
    RunOwns(begun, later, w, k);
    Joined(s, first, later, w);
    Reached(s, first + later, w);
    assert OpOk(After(begun, later), k);
    more := CanSucceed(s, first + later, w, k);
  }

  // ----- A pair posted over itself -----

  /** The thread posts and sends, and has nobody else to ask. */
  lemma PostLast(s: State, steps: seq<Step>, w: Conditions, now: State, k: nat)
    returns (longer: seq<Step>, next: State)
    requires Reaches(s, steps, w, now) && IsOp(now, k) && now.ops[k].phase.Filled? && now.ops[k].cpu < |now.cpus|
    requires now.ops[k].phase.next < |now.cpus| && !w.freshPairs
    requires forall d | d in now.ops[k].targets :: d > now.ops[k].phase.next ==> d == now.ops[k].cpu
    ensures Reaches(s, longer, w, next)
    ensures |next.cpus| == |now.cpus| && next.muts == now.muts && next.spaces == now.spaces
    ensures forall d | 0 <= d < |now.cpus| ::
              && next.cpus[d].tlb == now.cpus[d].tlb
              && next.cpus[d].ackToken == now.cpus[d].ackToken && next.cpus[d].ackGen == now.cpus[d].ackGen
    ensures next.ops == now.ops[k := now.ops[k].(
              published := now.ops[k].published + {now.ops[k].phase.next}, phase := Poll)]
  {
    longer, next := Take(s, steps, w, now, OnThread(k, Post));
    longer, next := Take(s, longer, w, next, OnThread(k, CountSent));
    longer, next := Take(s, longer, w, next, OnThread(k, SendOk));
    longer, next := BeginPoll(s, longer, w, next, k);
  }

  /** In every state in which a request is about to be posted over its own pair, to the last
      CPU whose answer is missing, the thread can report success with that CPU's TLB untouched.
      So for such a request the condition on pairs is not only sufficient. */
  lemma ReusedPairSucceeds(s: State, steps: seq<Step>, w: Conditions, k: nat) returns (more: seq<Step>)
    requires Init(s) && Possible(s, steps) && w.soleClaims && RunObeys(s, steps, w)
    requires ThreadEnabled(After(s, steps), k, Post)
    requires var t := After(s, steps); !FreshPair(t, k, t.ops[k].phase.next)
    requires var t := After(s, steps);
             forall d | d in t.ops[k].targets && d !in t.ops[k].acked && d != t.ops[k].phase.next ::
               d in t.ops[k].published && d < |t.cpus| && Shows(t.cpus[d], t.ops[k])
    ensures var t := After(s, steps); var c := t.ops[k].phase.next;
            && Possible(t, more) && RunObeys(t, more, ALL.(freshPairs := false))
            && k < |After(t, more).ops| && After(t, more).ops[k].phase.Succeeded?
            && c < |After(t, more).cpus| && After(t, more).cpus[c].tlb == t.cpus[c].tlb
  {
    Reached(s, steps, w);
    var t := After(s, steps);
    var v := ALL.(freshPairs := false);
    var next;
    assert OpOk(t, k) && CoverOk(t.ops[k]) && OpNumbers(t, k) && SpaceNumbers(t, t.muts[k].space);
    more, next := PostLast(t, [], v, t, k);
    more, next := PollAll(t, more, v, next, k);
  }
}
