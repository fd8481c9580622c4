/**
 The cross-CPU TLB invalidation protocol as a state machine.

 One step is one atomic access (or one access nobody else can observe half done)
 of kernel/cpu/smp.cpp or kernel/mm/address_space.cpp. CPUs, address spaces and
 invalidations are numbered; address space 0 is the kernel, whose translations
 every CPU may cache whatever root it has loaded.
 */
module TlbModel {
  import opened Basics

  /** ADDRESS_SPACE_TLB_PAGE_LIMIT: above this many pages a request flushes everything. */
  const PAGE_LIMIT: nat := 32

  /** A cached translation. `ver` is the number of page-table changes, of all spaces
      together, made when the translation was read. */
  datatype Entry = Entry(space: nat, page: nat, ver: nat)

  /** One page-table change: the pages [first, first + count) of one space, or all from `first`
      on if they are too many to be counted, for which the count is 0. */
  datatype Mutation = Mutation(space: nat, first: nat, count: nat) {
    predicate Covers(sp: nat, page: nat) {
      sp == space && first <= page && (count == 0 || page < first + count)
    }
  }

  /** The request fields of one CPU's slot. */
  datatype Request = Request(space: nat, token: nat, gen: nat, first: nat, count: nat)

  /** Where a CPU's shootdown handler stands. */
  datatype Handler =
    | Idle
    | Read(req: Request)
    | Flushed(req: Request)
    | GenStored(req: Request)
    | TokenStored(req: Request)
    | Cleared

  /** Where a CPU's change of root stands; the record of the loaded space is written
      after the root when entering a space and before it when leaving. */
  datatype Switch = Steady | Joining(space: nat) | Switched(space: nat) | Leaving

  /** The fields of one CpuLocal the protocol uses, the CPU's root register and its TLB.
      `owner` and `lastAck` name invalidations; no step reads them. */
  datatype Cpu = Cpu(
    root: nat, loaded: nat, switching: Switch, tlb: set<Entry>,
    pending: bool, slot: Request, owner: nat, ipi: bool, handler: Handler,
    ackGen: nat, ackToken: nat, lastAck: Option<nat>,
    sent: nat, received: nat, acks: nat)

  datatype Space = Space(gen: nat, token: nat, cached: set<nat>, busy: bool, poisoned: bool)

  /** Where the thread that runs an invalidation stands. `next` is the logical id its
      publication loop has reached; `answered` says whether all targets have answered when it
      leaves the wait. */
  datatype Phase =
    | Mutated
    | Drawn
    | Captured
    | Scan(next: nat)
    | Observed(next: nat)
    | HeadFilled(next: nat)
    | Filled(next: nat)
    | Marked(next: nat)
    | Posted(next: nat)
    | Poll
    | Left(answered: bool)
    | Succeeded
    | Failed

  datatype Op = Op(
    token: nat, gen: nat, targets: set<nat>, cpu: nat,
    published: set<nat>, acked: set<nat>, seen: Option<nat>, phase: Phase)

  datatype State = State(
    cpus: seq<Cpu>, spaces: seq<Space>, muts: seq<Mutation>, ops: seq<Op>, sendFailures: nat)

  /** Changing the root of a CPU: address_space_activate, address_space_activate_kernel. */
  datatype RootStep = BeginSwitch(space: nat) | LoadRoot | RecordSwitch | BeginLeave | LoadKernelRoot

  /** The processor fills and drops cached translations as it likes. */
  datatype CacheStep = Fill(entry: Entry) | Evict(entry: Entry)

  /** The thread that runs an invalidation: begin_invalidation_unlocked,
      smp_tlb_shootdown and complete_invalidation. */
  datatype ThreadStep =
    | Capture
    | DrawGeneration
    | DrawToken
    | Enter(cpu: nat)
    | SkipTarget
    | Observe
    | FillHead
    | FillTail
    | Post
    | CountSent
    | SendOk
    | SendFail
    | StartPoll
    | PollToken(cpu: nat)
    | PollGen
    | Leave
    | LeaveEarly
    | Succeed
    | GiveUp
    | Abandon

  /** smp_tlb_shootdown_handler. */
  datatype HandlerStep = TakeIpi | HandlerFlush | StoreAckGen | StoreAckToken | ClearPending | CountAck

  datatype Step =
    | CreateSpace
    | Mutate(mutation: Mutation)
    | OnRoot(cpu: nat, root: RootStep)
    | OnCache(cpu: nat, cache: CacheStep)
    | OnThread(op: nat, thread: ThreadStep)
    | OnHandler(cpu: nat, handler: HandlerStep)

  predicate Full(r: Request) { r.count == 0 || r.count > PAGE_LIMIT }

  /** flush_loaded_address_space. Loading a root drops every cached translation, and
      root 0 is the kernel's. */
  function Flush(c: Cpu, r: Request): Cpu {
    if r.space != 0 && c.loaded != r.space then c
    else if Full(r) then c.(tlb := {}, root := r.space)
    else c.(tlb := set e | e in c.tlb && !(r.first <= e.page < r.first + r.count))
  }

  /** `ver` is the version of the last change that covers the page. */
  predicate Current(muts: seq<Mutation>, sp: nat, page: nat, ver: nat) {
    && ver <= |muts|
    && (ver > 0 ==> muts[ver - 1].Covers(sp, page))
    && (forall k | ver <= k < |muts| :: !muts[k].Covers(sp, page))
  }

  function RequestOf(s: State, k: nat): Request
    requires k < |s.ops| && k < |s.muts|
  {
    var m, o := s.muts[k], s.ops[k];
    Request(m.space, o.token, o.gen, m.first, m.count)
  }

  /** The phases in which the publication loop stands at a CPU. */
  predicate At(p: Phase) {
    p.Scan? || p.Observed? || p.HeadFilled? || p.Filled? || p.Marked? || p.Posted?
  }

  /** Between kernel_tlb_wait_enter and kernel_tlb_wait_leave. */
  predicate Inside(p: Phase) { At(p) || p.Poll? }

  /** CPU c is not in a wait: its wait depth is zero. */
  predicate WaitFree(s: State, c: nat) {
    forall k | 0 <= k < |s.ops| :: Inside(s.ops[k].phase) ==> s.ops[k].cpu != c
  }

  /** Between seeing a free slot on CPU t and marking it used. */
  predicate Claiming(p: Phase, t: nat) {
    (p.Observed? || p.HeadFilled? || p.Filled?) && p.next == t
  }

  /** Between marking the slot of CPU t used and sending the interrupt. */
  predicate Holding(p: Phase, t: nat) {
    (p.Marked? || p.Posted?) && p.next == t
  }

  /** The handler works on a request. */
  predicate Busy(h: Handler) {
    h.Read? || h.Flushed? || h.GenStored? || h.TokenStored?
  }

  /** Generation and token are not both taken yet. */
  predicate Uncaptured(p: Phase) { p.Mutated? || p.Drawn? }

  predicate Finished(p: Phase) { p.Succeeded? || p.Failed? }

  predicate IsCpu(s: State, c: nat) { c < |s.cpus| }

  predicate IsOp(s: State, k: nat) {
    k < |s.ops| && k < |s.muts| && s.muts[k].space < |s.spaces|
  }

  predicate RootEnabled(s: State, c: nat, step: RootStep) {
    && IsCpu(s, c)
    && match step
       case BeginSwitch(sp) => 0 < sp < |s.spaces| && s.cpus[c].switching.Steady?
       case LoadRoot => s.cpus[c].switching.Joining?
       case RecordSwitch => s.cpus[c].switching.Switched?
       case BeginLeave => s.cpus[c].switching.Steady?
       case LoadKernelRoot => s.cpus[c].switching.Leaving?
  }

  predicate CacheEnabled(s: State, c: nat, step: CacheStep) {
    && IsCpu(s, c)
    && (step.Fill? ==>
          && (step.entry.space == 0 || step.entry.space == s.cpus[c].root)
          && Current(s.muts, step.entry.space, step.entry.page, step.entry.ver))
  }

  /** The kernel half has no mutation gate; a space that once timed out takes no more changes. */
  predicate MutateEnabled(s: State, m: Mutation) {
    && m.space < |s.spaces|
    && (m.space == 0 ==> m.count > 0)
    && (m.space != 0 ==> !s.spaces[m.space].busy && !s.spaces[m.space].poisoned)
  }

  predicate ThreadEnabled(s: State, k: nat, step: ThreadStep) {
    && IsOp(s, k)
    && var o := s.ops[k];
    match step
    case Capture => o.phase.Mutated? && s.muts[k].space != 0
    case DrawGeneration => o.phase.Mutated? && s.muts[k].space == 0
    case DrawToken => o.phase.Drawn? && s.muts[k].space == 0
    case Enter(c) => IsCpu(s, c) && o.phase.Captured? && WaitFree(s, c)
    case SkipTarget =>
      && o.phase.Scan? && o.phase.next < |s.cpus|
      && (o.phase.next !in o.targets || o.phase.next == o.cpu)
    case Observe =>
      && o.phase.Scan? && o.phase.next < |s.cpus|
      && o.phase.next in o.targets && o.phase.next != o.cpu
      && !s.cpus[o.phase.next].pending
    case FillHead => o.phase.Observed? && o.phase.next < |s.cpus|
    case FillTail => o.phase.HeadFilled? && o.phase.next < |s.cpus|
    case Post => o.phase.Filled? && o.phase.next < |s.cpus|
    case CountSent => o.phase.Marked? && o.cpu < |s.cpus|
    case SendOk => o.phase.Posted? && o.phase.next < |s.cpus|
    case SendFail => o.phase.Posted? && o.phase.next < |s.cpus|
    case StartPoll => o.phase.Scan? && o.phase.next == |s.cpus|
    case PollToken(c) =>
      && IsCpu(s, c) && o.phase.Poll? && o.seen.None?
      && c in o.published && c !in o.acked
      && s.cpus[c].ackToken == o.token
    case PollGen => o.phase.Poll? && o.seen.Some? && o.seen.value < |s.cpus|
    case Leave => o.phase.Poll? && o.seen.None? && o.targets <= o.acked
    case LeaveEarly => o.phase.Scan? || o.phase.Poll?
    case Succeed => o.phase == Left(true) && TokenValid(s, k)
    case GiveUp => o.phase.Captured? || o.phase.Left?
    case Abandon => (o.phase.Captured? || o.phase.Left?) && s.muts[k].space != 0
  }

  predicate HandlerEnabled(s: State, c: nat, step: HandlerStep) {
    && IsCpu(s, c)
    && match step
       case TakeIpi => s.cpus[c].ipi && s.cpus[c].handler.Idle?
       case HandlerFlush => s.cpus[c].handler.Read?
       case StoreAckGen => s.cpus[c].handler.Flushed?
       case StoreAckToken => s.cpus[c].handler.GenStored?
       case ClearPending => s.cpus[c].handler.TokenStored?
       case CountAck => s.cpus[c].handler.Cleared?
  }

  predicate Enabled(s: State, step: Step) {
    match step
    case CreateSpace => true
    case Mutate(m) => MutateEnabled(s, m)
    case OnRoot(c, r) => RootEnabled(s, c, r)
    case OnCache(c, e) => CacheEnabled(s, c, e)
    case OnThread(k, a) => ThreadEnabled(s, k, a)
    case OnHandler(c, h) => HandlerEnabled(s, c, h)
  }

  /** The check complete_invalidation repeats under the lock: no newer invalidation of
      the space was begun meanwhile. */
  predicate TokenValid(s: State, k: nat)
    requires IsOp(s, k)
  {
    var sp := s.muts[k].space;
    sp != 0 ==> s.spaces[sp].token == s.ops[k].token && s.spaces[sp].gen == s.ops[k].gen
  }

  function SetCpu(s: State, c: nat, cpu: Cpu): State
    requires IsCpu(s, c)
  {
    s.(cpus := s.cpus[c := cpu])
  }

  function SetOp(s: State, k: nat, o: Op): State
    requires IsOp(s, k)
  {
    s.(ops := s.ops[k := o])
  }

  function Move(s: State, k: nat, p: Phase): State
    requires IsOp(s, k)
  {
    SetOp(s, k, s.ops[k].(phase := p))
  }

  /** The invalidation ends: the mutation gate opens, and a failure closes the space to
      further changes. */
  function End(s: State, k: nat, p: Phase): State
    requires IsOp(s, k)
  {
    var sp := s.muts[k].space;
    var was := s.spaces[sp];
    var space := if sp == 0 then was
                 else was.(busy := false, poisoned := was.poisoned || p.Failed?);
    Move(s, k, p).(spaces := s.spaces[sp := space])
  }

  /** complete_invalidation does not get the lock of the space: the mutation gate opens and the
      space stays open to further changes. */
  function DoAbandon(s: State, k: nat): State
    requires ThreadEnabled(s, k, Abandon)
  {
    var sp := s.muts[k].space;
    Move(s, k, Failed).(spaces := s.spaces[sp := s.spaces[sp].(busy := false)])
  }

  function AllCpus(n: nat): (r: set<nat>)
    ensures forall c: nat :: c in r <==> c < n
  {
    if n == 0 then {} else AllCpus(n - 1) + {n - 1}
  }

  function DoRoot(s: State, c: nat, step: RootStep): State
    requires RootEnabled(s, c, step)
  {
    var u := s.cpus[c];
    match step
    case BeginSwitch(sp) =>
      var space := s.spaces[sp].(cached := s.spaces[sp].cached + {c});
      SetCpu(s, c, u.(switching := Joining(sp))).(spaces := s.spaces[sp := space])
    case LoadRoot =>
      SetCpu(s, c, u.(root := u.switching.space, tlb := {}, switching := Switched(u.switching.space)))
    case RecordSwitch => SetCpu(s, c, u.(loaded := u.switching.space, switching := Steady))
    case BeginLeave => SetCpu(s, c, u.(loaded := 0, switching := Leaving))
    case LoadKernelRoot => SetCpu(s, c, u.(root := 0, tlb := {}, switching := Steady))
  }

  function DoCache(s: State, c: nat, step: CacheStep): State
    requires CacheEnabled(s, c, step)
  {
    var u := s.cpus[c];
    match step
    case Fill(e) => SetCpu(s, c, u.(tlb := u.tlb + {e}))
    case Evict(e) => SetCpu(s, c, u.(tlb := u.tlb - {e}))
  }

  function DoMutate(s: State, m: Mutation): State
    requires MutateEnabled(s, m)
  {
    var o := Op(0, 0, {}, 0, {}, {}, None, Mutated);
    var busy := if m.space == 0 then s.spaces[0].busy else true;
    s.(muts := s.muts + [m], ops := s.ops + [o],
       spaces := s.spaces[m.space := s.spaces[m.space].(busy := busy)])
  }

  /** A user space's generation, token and target mask are taken together, under its lock;
      with no target there is nothing to wait for. */
  function DoCapture(s: State, k: nat): State
    requires ThreadEnabled(s, k, Capture)
  {
    var sp := s.muts[k].space;
    var was := s.spaces[sp];
    var targets := was.cached;
    var o := s.ops[k].(token := was.token + 1, gen := was.gen + 1, targets := targets,
                       phase := if targets == {} then Left(true) else Captured);
    var space := was.(token := was.token + 1, gen := was.gen + 1);
    SetOp(s, k, o).(spaces := s.spaces[sp := space])
  }

  /** The kernel's two counters are advanced one after the other, under no lock. */
  function DoDrawGeneration(s: State, k: nat): State
    requires ThreadEnabled(s, k, DrawGeneration)
  {
    var gen := s.spaces[0].gen + 1;
    SetOp(s, k, s.ops[k].(gen := gen, phase := Drawn)).(spaces := s.spaces[0 := s.spaces[0].(gen := gen)])
  }

  function DoDrawToken(s: State, k: nat): State
    requires ThreadEnabled(s, k, DrawToken)
  {
    var token := s.spaces[0].token + 1;
    var o := s.ops[k].(token := token, targets := AllCpus(|s.cpus|), phase := Captured);
    SetOp(s, k, o).(spaces := s.spaces[0 := s.spaces[0].(token := token)])
  }

  /** One CPU runs one invalidation at a time: it waits with preemption off, and its wait does
      not nest. It flushes itself before it asks the others. */
  function DoEnter(s: State, k: nat, c: nat): State
    requires ThreadEnabled(s, k, Enter(c))
  {
    var o := s.ops[k].(cpu := c, phase := Scan(0));
    if c in o.targets then
      SetOp(SetCpu(s, c, Flush(s.cpus[c], RequestOf(s, k))), k, o.(acked := {c}))
    else SetOp(s, k, o)
  }

  /** The request is written field by field: space, generation and token first. */
  function DoFillHead(s: State, k: nat): State
    requires ThreadEnabled(s, k, FillHead)
  {
    var t, r := s.ops[k].phase.next, RequestOf(s, k);
    var slot := s.cpus[t].slot.(space := r.space, token := r.token, gen := r.gen);
    Move(SetCpu(s, t, s.cpus[t].(slot := slot)), k, HeadFilled(t))
  }

  function DoFillTail(s: State, k: nat): State
    requires ThreadEnabled(s, k, FillTail)
  {
    var t, r := s.ops[k].phase.next, RequestOf(s, k);
    var slot := s.cpus[t].slot.(first := r.first, count := r.count);
    Move(SetCpu(s, t, s.cpus[t].(slot := slot)), k, Filled(t))
  }

  function DoPost(s: State, k: nat): State
    requires ThreadEnabled(s, k, Post)
  {
    var t := s.ops[k].phase.next;
    Move(SetCpu(s, t, s.cpus[t].(pending := true, owner := k)), k, Marked(t))
  }

  /** The counters are kept after the stores they count. */
  function DoCountSent(s: State, k: nat): State
    requires ThreadEnabled(s, k, CountSent)
  {
    var i := s.ops[k].cpu;
    Move(SetCpu(s, i, s.cpus[i].(sent := s.cpus[i].sent + 1)), k, Posted(s.ops[k].phase.next))
  }

  function DoSendOk(s: State, k: nat): State
    requires ThreadEnabled(s, k, SendOk)
  {
    var t := s.ops[k].phase.next;
    SetOp(SetCpu(s, t, s.cpus[t].(ipi := true)), k,
          s.ops[k].(published := s.ops[k].published + {t}, phase := Scan(t + 1)))
  }

  function DoSendFail(s: State, k: nat): State
    requires ThreadEnabled(s, k, SendFail)
  {
    var t := s.ops[k].phase.next;
    Move(SetCpu(s, t, s.cpus[t].(pending := false)), k, Left(false))
      .(sendFailures := s.sendFailures + 1)
  }

  function DoPollGen(s: State, k: nat): State
    requires ThreadEnabled(s, k, PollGen)
  {
    var o := s.ops[k];
    var c := o.seen.value;
    if s.cpus[c].ackGen == o.gen then SetOp(s, k, o.(acked := o.acked + {c}, seen := None))
    else SetOp(s, k, o.(seen := None))
  }

  function DoThread(s: State, k: nat, step: ThreadStep): State
    requires ThreadEnabled(s, k, step)
  {
    match step
    case Capture => DoCapture(s, k)
    case DrawGeneration => DoDrawGeneration(s, k)
    case DrawToken => DoDrawToken(s, k)
    case Enter(c) => DoEnter(s, k, c)
    case SkipTarget => Move(s, k, Scan(s.ops[k].phase.next + 1))
    case Observe => Move(s, k, Observed(s.ops[k].phase.next))
    case FillHead => DoFillHead(s, k)
    case FillTail => DoFillTail(s, k)
    case Post => DoPost(s, k)
    case CountSent => DoCountSent(s, k)
    case SendOk => DoSendOk(s, k)
    case SendFail => DoSendFail(s, k)
    case StartPoll => Move(s, k, Poll)
    case PollToken(c) => SetOp(s, k, s.ops[k].(seen := Some(c)))
    case PollGen => DoPollGen(s, k)
    case Leave => Move(s, k, Left(true))
    case LeaveEarly => Move(s, k, Left(false))
    case Succeed => End(s, k, Succeeded)
    case GiveUp => End(s, k, Failed)
    case Abandon => DoAbandon(s, k)
  }

  function HandlerCpu(u: Cpu, step: HandlerStep): Cpu
    requires step.HandlerFlush? || step.StoreAckGen? || step.StoreAckToken? ==> Busy(u.handler)
  {
    match step
    case TakeIpi =>
      if u.pending then u.(ipi := false, handler := Read(u.slot), received := u.received + 1)
      else u.(ipi := false)
    case HandlerFlush => Flush(u, u.handler.req).(handler := Flushed(u.handler.req))
    case StoreAckGen => u.(ackGen := u.handler.req.gen, handler := GenStored(u.handler.req))
    case StoreAckToken => u.(ackToken := u.handler.req.token, handler := TokenStored(u.handler.req))
    case ClearPending => u.(pending := false, handler := Cleared, lastAck := Some(u.owner))
    case CountAck => u.(handler := Idle, acks := u.acks + 1)
  }

  function DoHandler(s: State, c: nat, step: HandlerStep): State
    requires HandlerEnabled(s, c, step)
  {
    SetCpu(s, c, HandlerCpu(s.cpus[c], step))
  }

  function Do(s: State, step: Step): State
    requires Enabled(s, step)
  {
    match step
    case CreateSpace => s.(spaces := s.spaces + [Space(1, 0, {}, false, false)])
    case Mutate(m) => DoMutate(s, m)
    case OnRoot(c, r) => DoRoot(s, c, r)
    case OnCache(c, e) => DoCache(s, c, e)
    case OnThread(k, a) => DoThread(s, k, a)
    case OnHandler(c, h) => DoHandler(s, c, h)
  }

  /** A CPU as cpu_local.cpp prepares it, on the kernel root with an empty TLB. */
  function FreshCpu(): Cpu {
    Cpu(0, 0, Steady, {}, false, Request(0, 0, 0, 0, 0), 0, false, Idle, 0, 0, None, 0, 0, 0)
  }

  /** n CPUs are online, only the kernel space exists, and no invalidation was begun. */
  predicate Init(s: State) {
    && (forall c | 0 <= c < |s.cpus| :: s.cpus[c] == FreshCpu())
    && s.spaces == [Space(0, 0, {}, false, false)]
    && s.muts == [] && s.ops == [] && s.sendFailures == 0
  }

  /** The run of `steps` from s is possible. */
  predicate Possible(s: State, steps: seq<Step>)
    decreases |steps|
  {
    steps != [] ==> Enabled(s, steps[0]) && Possible(Do(s, steps[0]), steps[1..])
  }

  function After(s: State, steps: seq<Step>): State
    requires Possible(s, steps)
    decreases |steps|
  {
    if steps == [] then s else After(Do(s, steps[0]), steps[1..])
  }
}
