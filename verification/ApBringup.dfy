/**
 Starting the application processors (APs): the loop of smp_start_application_processors on
 the bootstrap processor, the mailbox it publishes field by field, and the APs, each of which
 may arrive at any time after it was first told to start, read the mailbox while the next
 CPU is being published, and come online or stop.
 */
module ApBringup {
  import opened Basics
  import opened CpuTopology

  /** The fields an AP reads; a stack is identified by the logical id of its owner. */
  datatype Mailbox = Mailbox(magic: bool, stack: nat, logicalId: nat, expectedApic: nat)

  /** Where the bootstrap processor is; k is the logical id it works on. */
  datatype Bsp =
    | Next(k: nat)
    | ClearMagic(k: nat)
    | WriteStack(k: nat)
    | WriteId(k: nat)
    | WriteApic(k: nat)
    | SetMagic(k: nat)
    | StartAp(k: nat)
    | AwaitOnline(k: nat)
    | GiveUp(k: nat)
    | Ping(k: nat, round: nat)
    | AwaitPing(k: nat, round: nat, previous: nat)
    | Done

  /** Where an AP is, with the stack and the logical id it has read. */
  datatype Ap =
    | Off
    | Trampoline
    | HasStack(stack: nat)
    | HasId(stack: nat, id: nat)
    | SawMagic(stack: nat, id: nat)
    | Matched(stack: nat, id: nat)
    | Active(stack: nat, id: nat)
    | Checked(stack: nat, id: nat)
    | Entered(stack: nat, id: nat)
    | Running(stack: nat, id: nat)
    | Halted

  datatype Stats = Stats(attempted: nat, online: nat, failed: nat, pingSent: nat, pingAcknowledged: nat)

  /** `apic[i]` is the APIC id in record i, `physical[p]` the one CPU p really has. */
  datatype State = State(
    apic: seq<nat>, physical: seq<nat>,
    lifecycle: seq<Lifecycle>, online: seq<bool>, pings: seq<nat>, pingPending: seq<bool>,
    box: Mailbox, started: set<nat>, bsp: Bsp, aps: seq<Ap>, stats: Stats)

  const PING_ROUNDS: nat := 3

  datatype Step =
    | OnBsp(action: BspStep)
    | OnAp(p: nat)
    | ApInitFails(p: nat)
    | HandlePing(p: nat)

  /** `Refuse` is a failed transition to STARTING or an injected fault; a start may report an
      error whether or not the other CPU received it, a ping that reports one was not received. */
  datatype BspStep =
    | Begin | Refuse | Publish | Start(ok: bool) | SeeOnline | TimeOut | MarkFailed
    | SendPing(ok: bool) | SeePing | PingTimeOut | PingsDone | Finish

  predicate Shape(s: State) {
    && |s.lifecycle| == |s.online| == |s.pings| == |s.pingPending| == |s.apic| > 0
    && |s.aps| == |s.physical|
    && Distinct(s.apic) && Distinct(s.physical)
    && InRange(s.bsp, |s.apic|)
    && (forall p | 0 <= p < |s.aps| :: Accepted(s.aps[p]) ==> s.aps[p].id < |s.apic|)
  }

  predicate InRange(b: Bsp, n: nat) {
    match b
    case Done => true
    case Next(k) => 1 <= k <= n
    case _ => 1 <= b.k < n
  }

  /** An AP that passed cpu_local_activate and has not stopped. */
  predicate Accepted(ap: Ap) { ap.Active? || ap.Checked? || ap.Entered? || ap.Running? }

  /** After the per-CPU areas were prepared: the bootstrap processor is online, no other CPU is
      starting or online, and nothing was published. */
  predicate Init(s: State) {
    && Shape(s)
    && (forall i | 1 <= i < |s.apic| :: !s.online[i] && s.lifecycle[i] != Starting && s.lifecycle[i] != Online)
    && s.lifecycle[0] == Online
    && (forall i | 0 <= i < |s.apic| :: s.pings[i] == 0 && !s.pingPending[i])
    && (forall p | 0 <= p < |s.aps| :: s.aps[p] == Off)
    && s.started == {} && s.bsp == Next(1) && s.stats == Stats(0, 0, 0, 0, 0)
  }

  // ----- Steps -----

  predicate BspEnabled(s: State, a: BspStep)
    requires Shape(s)
  {
    match a
    case Begin => s.bsp.Next? && s.bsp.k < |s.apic| && s.lifecycle[s.bsp.k] == Prepared
    case Refuse => s.bsp.Next? && s.bsp.k < |s.apic|
    case Publish => s.bsp.ClearMagic? || s.bsp.WriteStack? || s.bsp.WriteId? || s.bsp.WriteApic? || s.bsp.SetMagic?
    case Start(_) => s.bsp.StartAp?
    case SeeOnline => s.bsp.AwaitOnline? && s.online[s.bsp.k]
    case TimeOut => s.bsp.AwaitOnline? && !s.online[s.bsp.k]
    case MarkFailed => s.bsp.GiveUp?
    case SendPing(_) => s.bsp.Ping? && s.bsp.round < PING_ROUNDS
    case SeePing => s.bsp.AwaitPing? && s.pings[s.bsp.k] > s.bsp.previous
    case PingTimeOut => s.bsp.AwaitPing?
    case PingsDone => s.bsp.Ping? && s.bsp.round >= PING_ROUNDS
    case Finish => s.bsp.Next? && s.bsp.k >= |s.apic|
  }

  predicate Enabled(s: State, step: Step)
    requires Shape(s)
  {
    match step
    case OnBsp(a) => BspEnabled(s, a)
    case OnAp(p) =>
      && p < |s.aps| && !s.aps[p].Running? && !s.aps[p].Halted?
      && (s.aps[p].Off? ==> s.physical[p] in s.started)
    case ApInitFails(p) => p < |s.aps| && s.aps[p].Checked?
    case HandlePing(p) =>
      p < |s.aps| && s.aps[p].Running? && s.pingPending[s.aps[p].id]
  }

  /** One write of publish_mailbox. */
  function DoPublish(s: State): (t: State)
    requires Shape(s)
    ensures Shape(t) && t.apic == s.apic && t.physical == s.physical
  {
    match s.bsp
    case ClearMagic(k) => s.(box := s.box.(magic := false), bsp := WriteStack(k))
    case WriteStack(k) => s.(box := s.box.(stack := k), bsp := WriteId(k))
    case WriteId(k) => s.(box := s.box.(logicalId := k), bsp := WriteApic(k))
    case WriteApic(k) => s.(box := s.box.(expectedApic := s.apic[k]), bsp := SetMagic(k))
    case SetMagic(k) => s.(box := s.box.(magic := true), bsp := StartAp(k))
    case _ => s
  }

  /** cpu_transition, with the rule of the topology. */
  function Transition(s: State, i: nat, to: Lifecycle): State
    requires i < |s.lifecycle|
  {
    if Legal(s.lifecycle[i], to) then s.(lifecycle := s.lifecycle[i := to]) else s
  }

  /** The bootstrap processor at its next point, with its counters. */
  function At(s: State, bsp: Bsp, stats: Stats): State { s.(bsp := bsp, stats := stats) }

  function CountFailed(c: Stats): Stats { c.(failed := c.failed + 1) }

  function DoBsp(s: State, a: BspStep): (t: State)
    requires Shape(s) && BspEnabled(s, a)
    ensures Shape(t) && t.apic == s.apic && t.physical == s.physical
  {
    match a
    case Begin =>
      At(Transition(s, s.bsp.k, Starting), ClearMagic(s.bsp.k), s.stats.(attempted := s.stats.attempted + 1))
    case Refuse => At(s, Next(s.bsp.k + 1), CountFailed(s.stats))
    case Publish => DoPublish(s)
    case Start(ok) =>
      s.(started := s.started + {s.apic[s.bsp.k]}, bsp := if ok then AwaitOnline(s.bsp.k) else GiveUp(s.bsp.k))
    case SeeOnline => s.(stats := s.stats.(online := s.stats.online + 1), bsp := Ping(s.bsp.k, 0))
    case TimeOut => s.(bsp := GiveUp(s.bsp.k))
    case MarkFailed => At(Transition(s, s.bsp.k, Failed), Next(s.bsp.k + 1), CountFailed(s.stats))
    case SendPing(ok) =>
      var c := s.stats.(pingSent := s.stats.pingSent + 1);
      if ok
      then s.(pingPending := s.pingPending[s.bsp.k := true], stats := c,
              bsp := AwaitPing(s.bsp.k, s.bsp.round, s.pings[s.bsp.k]))
      else At(s, Next(s.bsp.k + 1), CountFailed(c))
    case SeePing =>
      s.(stats := s.stats.(pingAcknowledged := s.stats.pingAcknowledged + 1), bsp := Ping(s.bsp.k, s.bsp.round + 1))
    case PingTimeOut => At(s, Next(s.bsp.k + 1), CountFailed(s.stats))
    case PingsDone => s.(bsp := Next(s.bsp.k + 1))
    case Finish => s.(box := s.box.(magic := false), bsp := Done)
  }

  /** The trampoline and smp_ap_entry up to the idle loop, one access at a time: where the CPU
      with APIC id `own` goes next. `legal` is the answer of cpu_transition. */
  function NextAp(apic: seq<nat>, own: nat, box: Mailbox, legal: bool, ap: Ap): (r: Ap)
    requires Accepted(ap) ==> ap.id < |apic|
    ensures Accepted(r) ==> r.id < |apic|
  {
    match ap
    case Off => Trampoline
    case Trampoline => HasStack(box.stack)
    case HasStack(stack) => HasId(stack, box.logicalId)
    case HasId(stack, id) => if box.magic then SawMagic(stack, id) else Halted
    case SawMagic(stack, id) => if box.logicalId == id then Matched(stack, id) else Halted
    case Matched(stack, id) => if id < |apic| && apic[id] == own then Active(stack, id) else Halted
    case Active(stack, id) => if apic[id] == box.expectedApic then Checked(stack, id) else Halted
    case Checked(stack, id) => if legal then Entered(stack, id) else Halted
    case Entered(stack, id) => Running(stack, id)
    case Running(_, _) => ap
    case Halted => ap
  }

  function DoAp(s: State, p: nat): (t: State)
    requires Shape(s) && Enabled(s, OnAp(p))
    ensures Shape(t) && t.apic == s.apic && t.physical == s.physical
  {
    var ap := s.aps[p];
    var legal := ap.Checked? && Legal(s.lifecycle[ap.id], Online);
    s.(aps := s.aps[p := NextAp(s.apic, s.physical[p], s.box, legal, ap)],
       lifecycle := if legal then s.lifecycle[ap.id := Online] else s.lifecycle,
       online := if ap.Entered? then s.online[ap.id := true] else s.online)
  }

  function Do(s: State, step: Step): (t: State)
    requires Shape(s) && Enabled(s, step)
    ensures Shape(t) && t.apic == s.apic && t.physical == s.physical
  {
    match step
    case OnBsp(a) => DoBsp(s, a)
    case OnAp(p) => DoAp(s, p)
    case ApInitFails(p) => s.(aps := s.aps[p := Halted])
    case HandlePing(p) =>
      var i := s.aps[p].id;
      s.(pings := s.pings[i := s.pings[i] + 1], pingPending := s.pingPending[i := false])
  }

  predicate Possible(s: State, steps: seq<Step>)
    requires Shape(s)
    decreases |steps|
  {
    steps != [] ==> Enabled(s, steps[0]) && Possible(Do(s, steps[0]), steps[1..])
  }

  function After(s: State, steps: seq<Step>): (t: State)
    requires Shape(s) && Possible(s, steps)
    ensures Shape(t) && t.apic == s.apic && t.physical == s.physical
    decreases |steps|
  {
    if steps == [] then s else After(Do(s, steps[0]), steps[1..])
  }

  // ----- What an AP can have read -----

  /** The mailbox as the bootstrap processor has it at each point. Before the first start the
      memory may hold anything. */
  predicate BoxOk(s: State)
    requires Shape(s)
  {
    match s.bsp
    case Next(k) => s.started != {} ==> Whole(s) && s.box.stack < k
    case Done => s.started != {} ==> Whole(s)
    case ClearMagic(k) => s.started != {} ==> Whole(s) && s.box.stack < k
    case WriteStack(k) => !s.box.magic && (s.started != {} ==> Whole(s) && s.box.stack < k)
    case WriteId(k) => !s.box.magic && s.box.stack == k && (s.started != {} ==> s.box.logicalId < k)
    case WriteApic(k) => !s.box.magic && s.box.stack == s.box.logicalId == k
    case SetMagic(k) => !s.box.magic && Whole(s) && s.box.stack == k
    case _ => s.box.magic && Whole(s) && s.box.stack == s.bsp.k
  }

  predicate Whole(s: State) {
    && s.box.stack == s.box.logicalId < |s.apic|
    && s.box.expectedApic == s.apic[s.box.logicalId]
  }

  /** What an AP holds is no newer than the mailbox and no older than its own start. */
  predicate ApOk(apic: seq<nat>, own: nat, started: set<nat>, box: Mailbox, ap: Ap) {
    && (ap.Off? || own in started)
    && (ap.HasStack? || ap.HasId? || ap.SawMagic? || ap.Matched? ==>
          && (forall j | 0 <= j < |apic| && apic[j] == own :: j <= ap.stack)
          && ap.stack <= box.stack)
    && (ap.HasId? ==> ap.id <= box.logicalId)
    && (ap.SawMagic? ==> ap.stack <= box.logicalId)
    && (ap.Matched? ==> ap.stack <= ap.id)
    && (Accepted(ap) ==> ap.id < |apic| && apic[ap.id] == own && ap.stack == ap.id)
  }

  predicate Reads(s: State)
    requires Shape(s)
  {
    && BoxOk(s)
    && (forall j | 0 <= j < |s.apic| && s.apic[j] in s.started :: j <= s.box.stack)
    && (forall p | 0 <= p < |s.aps| :: ApOk(s.apic, s.physical[p], s.started, s.box, s.aps[p]))
  }

  lemma ApOkLater(apic: seq<nat>, own: nat, started: set<nat>, box: Mailbox, ap: Ap, started': set<nat>, box': Mailbox)
    requires ApOk(apic, own, started, box, ap) && started <= started'
    requires started != {} ==> box.stack <= box'.stack && box.logicalId <= box'.logicalId
    ensures ApOk(apic, own, started', box', ap)
  {
  }

  lemma BspKeepsBox(s: State, a: BspStep)
    requires Shape(s) && BspEnabled(s, a) && BoxOk(s)
    requires forall j | 0 <= j < |s.apic| && s.apic[j] in s.started :: j <= s.box.stack
    ensures var t := DoBsp(s, a);
            && BoxOk(t) && s.started <= t.started
            && (s.started != {} ==> s.box.stack <= t.box.stack && s.box.logicalId <= t.box.logicalId)
            && (forall j | 0 <= j < |t.apic| && t.apic[j] in t.started :: j <= t.box.stack)
  {
  }

  lemma BspReads(s: State, a: BspStep)
    requires Shape(s) && Reads(s) && BspEnabled(s, a)
    ensures Reads(DoBsp(s, a))
  {
    var t := DoBsp(s, a);
    BspKeepsBox(s, a);
    assert t.apic == s.apic && t.physical == s.physical && t.aps == s.aps;
    forall p | 0 <= p < |t.aps| ensures ApOk(t.apic, t.physical[p], t.started, t.box, t.aps[p]) {
      ApOkLater(s.apic, s.physical[p], s.started, s.box, s.aps[p], t.started, t.box);
    }
  }

  lemma ApAdvances(apic: seq<nat>, own: nat, started: set<nat>, box: Mailbox, legal: bool, ap: Ap)
    requires ApOk(apic, own, started, box, ap) && own in started && Distinct(apic)
    requires box.magic ==> box.stack == box.logicalId
    requires forall j | 0 <= j < |apic| && apic[j] == own :: j <= box.stack
    ensures ApOk(apic, own, started, box, NextAp(apic, own, box, legal, ap))
  {
  }

  lemma ApTouches(s: State, p: nat)
    requires Shape(s) && Enabled(s, OnAp(p))
    ensures var t := DoAp(s, p);
            && t.apic == s.apic && t.physical == s.physical && t.started == s.started && t.box == s.box
            && t.bsp == s.bsp && t.stats == s.stats && t.pings == s.pings && t.pingPending == s.pingPending
            && forall q | 0 <= q < |s.aps| && q != p :: t.aps[q] == s.aps[q]
  {
  }

  lemma ApReads(s: State, p: nat)
    requires Shape(s) && Reads(s) && Enabled(s, OnAp(p))
    ensures Reads(DoAp(s, p))
  {
    var ap := s.aps[p];
    ApTouches(s, p);
    assert ApOk(s.apic, s.physical[p], s.started, s.box, ap);
    ApAdvances(s.apic, s.physical[p], s.started, s.box, ap.Checked? && Legal(s.lifecycle[ap.id], Online), ap);
  }

  lemma StepReads(s: State, step: Step)
    requires Shape(s) && Reads(s) && Enabled(s, step)
    ensures Reads(Do(s, step))
  {
    match step
    case OnBsp(a) => BspReads(s, a);
    case OnAp(p) => ApReads(s, p);
    case ApInitFails(p) => assert ApOk(s.apic, s.physical[p], s.started, s.box, s.aps[p]);
    case HandlePing(p) =>
  }

  // ----- Lifecycles -----

  predicate BroughtUp(s: State, i: nat) {
    exists p :: 0 <= p < |s.aps| && (s.aps[p].Entered? || s.aps[p].Running?) && s.aps[p].id == i
  }

  /** The CPU that was told to start and is neither online nor given up yet. */
  predicate Waiting(b: Bsp, i: nat) {
    !b.Next? && !b.Done? && !b.Ping? && !b.AwaitPing? && b.k == i
  }

  predicate Lives(s: State)
    requires Shape(s)
  {
    && (forall i | 1 <= i < |s.apic| :: s.lifecycle[i] == Online ==> BroughtUp(s, i))
    && (forall i | 1 <= i < |s.apic| :: s.online[i] ==> s.lifecycle[i] == Online)
    && (forall p | 0 <= p < |s.aps| ::
          && (s.aps[p].Entered? || s.aps[p].Running? ==> s.lifecycle[s.aps[p].id] == Online)
          && (s.aps[p].Running? ==> s.online[s.aps[p].id]))
    && (forall i | 0 <= i < |s.apic| :: s.lifecycle[i] == Starting ==> Waiting(s.bsp, i))
  }

  /** ONLINE and FAILED are final here. */
  predicate Settles(s: State, t: State) {
    && |t.lifecycle| == |s.lifecycle|
    && (forall i | 0 <= i < |s.lifecycle| :: s.lifecycle[i] == Online ==> t.lifecycle[i] == Online)
    && (forall i | 0 <= i < |s.lifecycle| :: s.lifecycle[i] == Failed ==> t.lifecycle[i] == Failed)
  }

  lemma BspLives(s: State, a: BspStep)
    requires Shape(s) && Lives(s) && BspEnabled(s, a)
    ensures Lives(DoBsp(s, a)) && Settles(s, DoBsp(s, a))
  {
    var t := DoBsp(s, a);
    assert t.aps == s.aps && t.online == s.online;
    assert forall i | 0 <= i < |s.lifecycle| :: t.lifecycle[i] == Online <==> s.lifecycle[i] == Online;
    forall i | 1 <= i < |t.apic| && t.lifecycle[i] == Online ensures BroughtUp(t, i) {
      assert BroughtUp(s, i);
    }
  }

  lemma ApLives(s: State, p: nat)
    requires Shape(s) && Lives(s) && Enabled(s, OnAp(p))
    ensures Lives(DoAp(s, p)) && Settles(s, DoAp(s, p))
  {
    var t := DoAp(s, p);
    forall i | 1 <= i < |t.apic| && t.lifecycle[i] == Online ensures BroughtUp(t, i) {
      if s.lifecycle[i] == Online {
        var q :| 0 <= q < |s.aps| && (s.aps[q].Entered? || s.aps[q].Running?) && s.aps[q].id == i;
        assert t.aps[q].Entered? || t.aps[q].Running?;
      } else {
        assert t.aps[p].Entered? && t.aps[p].id == i;
      }
    }
  }

  lemma StepLives(s: State, step: Step)
    requires Shape(s) && Lives(s) && Enabled(s, step)
    ensures Lives(Do(s, step)) && Settles(s, Do(s, step))
  {
    match step
    case OnBsp(a) => BspLives(s, a);
    case OnAp(p) => ApLives(s, p);
    case _ =>
      var t := Do(s, step);
      forall i | 1 <= i < |t.apic| && t.lifecycle[i] == Online ensures BroughtUp(t, i) {
        var q :| 0 <= q < |s.aps| && (s.aps[q].Entered? || s.aps[q].Running?) && s.aps[q].id == i;
        assert t.aps[q] == s.aps[q];
      }
  }

  // ----- Accounts -----

  predicate Quiet(s: State, i: nat)
    requires i < |s.pings| && i < |s.pingPending|
  {
    s.pings[i] == 0 && !s.pingPending[i]
  }

  /** CPUs 1 to k-1 came online and answered every ping. */
  predicate AllUp(s: State, k: nat)
    requires Shape(s) && k <= |s.apic|
  {
    forall i | 1 <= i < k :: s.online[i] && s.pings[i] == PING_ROUNDS && !s.pingPending[i]
  }

  predicate Counts(c: Stats, attempted: nat, online: nat, sent: nat, acknowledged: nat) {
    c.attempted == attempted && c.online == online && c.pingSent == sent && c.pingAcknowledged == acknowledged
  }

  /** The first CPU that was not pinged yet. */
  function Unpinged(s: State): nat {
    match s.bsp
    case Done => |s.apic|
    case Ping(k, _) => k + 1
    case AwaitPing(k, _, _) => k + 1
    case _ => s.bsp.k
  }

  /** The pings of the current CPU. */
  predicate Rounds(s: State)
    requires Shape(s)
  {
    && (forall i | Unpinged(s) <= i < |s.apic| :: Quiet(s, i))
    && (s.bsp.Ping? ==>
          && s.online[s.bsp.k] && s.bsp.round <= PING_ROUNDS
          && s.pings[s.bsp.k] == s.bsp.round && !s.pingPending[s.bsp.k])
    && (s.bsp.AwaitPing? ==>
          && s.online[s.bsp.k] && s.bsp.round < PING_ROUNDS && s.bsp.previous == s.bsp.round
          && s.pings[s.bsp.k] == (if s.pingPending[s.bsp.k] then s.bsp.round else s.bsp.round + 1))
  }

  /** As long as nothing failed the counters say exactly how far the loop has come. */
  predicate Tally(s: State)
    requires Shape(s)
  {
    match s.bsp
    case Next(k) => AllUp(s, k) && Counts(s.stats, k - 1, k - 1, 3 * (k - 1), 3 * (k - 1))
    case Done => var n := |s.apic|; AllUp(s, n) && Counts(s.stats, n - 1, n - 1, 3 * (n - 1), 3 * (n - 1))
    case Ping(k, r) => AllUp(s, k) && Counts(s.stats, k, k, 3 * (k - 1) + r, 3 * (k - 1) + r)
    case AwaitPing(k, r, _) => AllUp(s, k) && Counts(s.stats, k, k, 3 * (k - 1) + r + 1, 3 * (k - 1) + r)
    case _ => var k := s.bsp.k; AllUp(s, k) && Counts(s.stats, k, k - 1, 3 * (k - 1), 3 * (k - 1))
  }

  predicate Accounts(s: State)
    requires Shape(s)
  {
    Rounds(s) && (s.stats.failed == 0 ==> Tally(s))
  }

  lemma BspRounds(s: State, a: BspStep)
    requires Shape(s) && Rounds(s) && BspEnabled(s, a)
    ensures Rounds(DoBsp(s, a))
  {
    var t := DoBsp(s, a);
    if a.SendPing? {
      forall i | Unpinged(t) <= i < |t.apic| ensures Quiet(t, i) { assert Quiet(s, i); }
    } else {
      assert t.pings == s.pings && t.pingPending == s.pingPending && t.online == s.online;
      assert forall i | 0 <= i < |s.apic| :: Quiet(t, i) == Quiet(s, i);
      if a.SeeOnline? { assert Quiet(s, s.bsp.k); }
    }
  }

  lemma BspTally(s: State, a: BspStep)
    requires Shape(s) && Rounds(s) && BspEnabled(s, a) && s.stats.failed == 0 && Tally(s)
    ensures DoBsp(s, a).stats.failed == 0 ==> Tally(DoBsp(s, a))
  {
  }

  lemma PingAccounts(s: State, p: nat)
    requires Shape(s) && Accounts(s) && Enabled(s, HandlePing(p))
    ensures Accounts(Do(s, HandlePing(p)))
  {
    var t := Do(s, HandlePing(p));
    var i := s.aps[p].id;
    assert !Quiet(s, i);
    assert i < Unpinged(s);
    forall j | Unpinged(t) <= j < |t.apic| ensures Quiet(t, j) { assert Quiet(s, j); }
  }

  lemma OtherAccounts(s: State, t: State)
    requires Shape(s) && Shape(t) && Accounts(s)
    requires t.pings == s.pings && t.pingPending == s.pingPending && t.bsp == s.bsp && t.stats == s.stats
    requires t.apic == s.apic && forall i | 0 <= i < |s.online| :: s.online[i] ==> t.online[i]
    ensures Accounts(t)
  {
    assert forall i | 0 <= i < |s.apic| :: Quiet(t, i) == Quiet(s, i);
  }

  lemma StepAccounts(s: State, step: Step)
    requires Shape(s) && Accounts(s) && Enabled(s, step)
    ensures Accounts(Do(s, step))
  {
    match step
    case OnBsp(a) =>
      BspRounds(s, a);
      if s.stats.failed == 0 { BspTally(s, a); }
    case HandlePing(p) => PingAccounts(s, p);
    case _ => OtherAccounts(s, Do(s, step));
  }

  // ----- Results -----

  predicate Inv(s: State) { Shape(s) && Reads(s) && Lives(s) && Accounts(s) }

  lemma StepInvariant(s: State, step: Step)
    requires Inv(s) && Enabled(s, step)
    ensures Inv(Do(s, step)) && Settles(s, Do(s, step))
  {
    StepReads(s, step);
    StepLives(s, step);
    StepAccounts(s, step);
  }

  lemma {:induction false} RunInvariant(s: State, steps: seq<Step>)
    requires Inv(s) && Possible(s, steps)
    ensures Inv(After(s, steps)) && Settles(s, After(s, steps))
    decreases |steps|
  {
    if steps != [] {
      StepInvariant(s, steps[0]);
      RunInvariant(Do(s, steps[0]), steps[1..]);
    }
  }

  lemma InitInvariant(s: State)
    requires Init(s)
    ensures Inv(s)
  {
    assert forall i | 0 <= i < |s.apic| :: Quiet(s, i);
  }

  /** A record that has gone ONLINE never goes FAILED, and the other way round, however late
      its CPU arrives. */
  lemma OnlineOrFailedForGood(s: State, first: seq<Step>, later: seq<Step>)
    requires Init(s) && Possible(s, first) && Possible(After(s, first), later)
    ensures Settles(After(s, first), After(After(s, first), later))
  {
    InitInvariant(s);
    RunInvariant(s, first);
    RunInvariant(After(s, first), later);
  }

  /** Whoever has come to its idle loop while it is waited for is seen, and not given up. */
  lemma RunningIsSeen(s: State, steps: seq<Step>, p: nat)
    requires Init(s) && Possible(s, steps) && p < |After(s, steps).aps|
    requires var t := After(s, steps); t.bsp.AwaitOnline? && t.aps[p].Running? && t.aps[p].id == t.bsp.k
    ensures var t := After(s, steps); Enabled(t, OnBsp(SeeOnline)) && !Enabled(t, OnBsp(TimeOut))
  {
    InitInvariant(s);
    RunInvariant(s, steps);
  }

  /** Only the CPU with the APIC id of the record gets past activation as that logical id, and
      it runs on the stack of that id, even if the mailbox changed under it. */
  lemma OnlyTheRightCpu(s: State, steps: seq<Step>, p: nat)
    requires Init(s) && Possible(s, steps) && p < |s.aps|
    ensures var t := After(s, steps);
            && |t.aps| == |s.aps|
            && (Accepted(t.aps[p]) ==> t.apic[t.aps[p].id] == t.physical[p] && t.aps[p].stack == t.aps[p].id)
  {
    InitInvariant(s);
    RunInvariant(s, steps);
    var t := After(s, steps);
    assert ApOk(t.apic, t.physical[p], t.started, t.box, t.aps[p]);
  }

  /** online implies ONLINE, and an ONLINE record was brought up by its own CPU. */
  lemma OnlineMeansBroughtUp(s: State, steps: seq<Step>, i: nat)
    requires Init(s) && Possible(s, steps) && 1 <= i < |s.apic|
    ensures var t := After(s, steps);
            && (t.online[i] ==> t.lifecycle[i] == Online)
            && (t.lifecycle[i] == Online ==>
                  exists p :: 0 <= p < |t.aps| && (t.aps[p].Entered? || t.aps[p].Running?) &&
                              t.aps[p].id == t.aps[p].stack == i && t.physical[p] == t.apic[i])
  {
    InitInvariant(s);
    RunInvariant(s, steps);
    var t := After(s, steps);
    if t.lifecycle[i] == Online {
      assert BroughtUp(t, i);
      var p :| 0 <= p < |t.aps| && (t.aps[p].Entered? || t.aps[p].Running?) && t.aps[p].id == i;
      assert ApOk(t.apic, t.physical[p], t.started, t.box, t.aps[p]);
    }
  }

  /** When the loop reports success, every AP is online and answered three pings; in any case
      no record is left STARTING. */
  lemma SuccessMeansAllOnline(s: State, steps: seq<Step>)
    requires Init(s) && Possible(s, steps) && After(s, steps).bsp == Done
    ensures var t := After(s, steps); var n := |s.apic|;
            && (forall i | 0 <= i < n :: t.lifecycle[i] != Starting)
            && (t.stats.failed == 0 ==>
                  && t.stats == Stats(n - 1, n - 1, 0, 3 * (n - 1), 3 * (n - 1))
                  && (forall i | 1 <= i < n :: t.online[i] && t.lifecycle[i] == Online && t.pings[i] == PING_ROUNDS))
  {
    InitInvariant(s);
    RunInvariant(s, steps);
  }

  // ----- What the count of failures means -----

  /** How many of the records from 1 up to k are not ONLINE. */
  function NotOnline(lifecycle: seq<Lifecycle>, k: nat): nat
    requires k <= |lifecycle|
  {
    if k <= 1 then 0 else NotOnline(lifecycle, k - 1) + if lifecycle[k - 1] == Online then 0 else 1
  }

  /** The failure is counted for a CPU that went ONLINE in the meantime. */
  predicate IsLate(s: State, step: Step)
    requires Shape(s)
  {
    step == OnBsp(MarkFailed) && s.bsp.GiveUp? && s.lifecycle[s.bsp.k] == Online
  }

  /** The failure is counted for an unanswered ping. */
  predicate IsLostPing(step: Step) { step == OnBsp(SendPing(false)) || step == OnBsp(PingTimeOut) }

  function LateArrivals(s: State, steps: seq<Step>): nat
    requires Shape(s) && Possible(s, steps)
    decreases |steps|
  {
    if steps == [] then 0
    else (if IsLate(s, steps[0]) then 1 else 0) + LateArrivals(Do(s, steps[0]), steps[1..])
  }

  function LostPings(steps: seq<Step>): nat {
    if steps == [] then 0 else (if IsLostPing(steps[0]) then 1 else 0) + LostPings(steps[1..])
  }

  /** The loop is done with the records before this one. */
  function Passed(s: State): nat { if s.bsp.Done? then |s.apic| else s.bsp.k }

  /** The loop has not begun with the records from this one on. */
  function Ahead(s: State): nat {
    if s.bsp.Done? then |s.apic| else if s.bsp.Next? then s.bsp.k else s.bsp.k + 1
  }

  predicate NoneAhead(s: State)
    requires Shape(s)
  {
    forall i | Ahead(s) <= i < |s.apic| :: s.lifecycle[i] != Online
  }

  /** Failures counted beyond those of records that are not ONLINE. */
  function Surplus(s: State): int
    requires Shape(s)
  {
    s.stats.failed - NotOnline(s.lifecycle, Passed(s))
  }

  lemma {:induction false} SameRecords(l: seq<Lifecycle>, m: seq<Lifecycle>, k: nat)
    requires k <= |l| == |m| && forall i | 1 <= i < k :: l[i] == Online <==> m[i] == Online
    ensures NotOnline(l, k) == NotOnline(m, k)
  {
    if k > 1 { SameRecords(l, m, k - 1); }
  }

  predicate PingsOnline(s: State)
    requires Shape(s)
  {
    s.bsp.Ping? || s.bsp.AwaitPing? ==> s.lifecycle[s.bsp.k] == Online
  }

  lemma BspSurplus(s: State, a: BspStep)
    requires Shape(s) && NoneAhead(s) && PingsOnline(s) && BspEnabled(s, a)
    ensures NoneAhead(DoBsp(s, a))
    ensures Surplus(DoBsp(s, a)) ==
            Surplus(s) + (if IsLate(s, OnBsp(a)) then 1 else 0) + if IsLostPing(OnBsp(a)) then 1 else 0
  {
    var t := DoBsp(s, a);
    assert forall i | 0 <= i < |s.lifecycle| :: t.lifecycle[i] == Online <==> s.lifecycle[i] == Online;
    SameRecords(s.lifecycle, t.lifecycle, Passed(s));
  }

  /** A CPU can go ONLINE only while the loop waits for it. */
  lemma ApSurplus(s: State, p: nat)
    requires Inv(s) && NoneAhead(s) && Enabled(s, OnAp(p))
    ensures NoneAhead(DoAp(s, p)) && Surplus(DoAp(s, p)) == Surplus(s)
  {
    var t, ap := DoAp(s, p), s.aps[p];
    ApTouches(s, p);
    if ap.Checked? && Legal(s.lifecycle[ap.id], Online) {
      assert Waiting(s.bsp, ap.id);
    }
    SameRecords(s.lifecycle, t.lifecycle, Passed(s));
  }

  lemma StepSurplus(s: State, step: Step)
    requires Inv(s) && NoneAhead(s) && Enabled(s, step)
    ensures NoneAhead(Do(s, step))
    ensures Surplus(Do(s, step)) ==
            Surplus(s) + (if IsLate(s, step) then 1 else 0) + if IsLostPing(step) then 1 else 0
  {
    match step
    case OnBsp(a) =>
      assert PingsOnline(s);
      BspSurplus(s, a);
    case OnAp(p) => ApSurplus(s, p);
    case _ =>
  }

  lemma {:induction false} RunSurplus(s: State, steps: seq<Step>)
    requires Inv(s) && NoneAhead(s) && Possible(s, steps)
    ensures Surplus(After(s, steps)) == Surplus(s) + LateArrivals(s, steps) + LostPings(steps)
    decreases |steps|
  {
    if steps != [] {
      StepInvariant(s, steps[0]);
      StepSurplus(s, steps[0]);
      RunSurplus(Do(s, steps[0]), steps[1..]);
    }
  }

  /** Every counted failure is a record that is not ONLINE, a CPU that went ONLINE after the
      time-out, or a ping without an answer. */
  lemma FailuresAccounted(s: State, steps: seq<Step>)
    requires Init(s) && Possible(s, steps) && After(s, steps).bsp == Done
    ensures var t := After(s, steps);
            t.stats.failed == NotOnline(t.lifecycle, |s.apic|) + LateArrivals(s, steps) + LostPings(steps)
  {
    InitInvariant(s);
    RunSurplus(s, steps);
  }

  predicate LateSomewhere(s: State, steps: seq<Step>, i: nat)
    requires Shape(s) && Possible(s, steps) && i < |steps|
  {
    PrefixPossible(s, steps, i);
    IsLate(After(s, steps[..i]), steps[i])
  }

  lemma {:induction false} PrefixPossible(s: State, steps: seq<Step>, i: nat)
    requires Shape(s) && Possible(s, steps) && i <= |steps|
    ensures Possible(s, steps[..i])
    decreases |steps|
  {
    if i > 0 {
      PrefixPossible(Do(s, steps[0]), steps[1..], i - 1);
      assert steps[..i][1..] == steps[1..][..i - 1];
    }
  }

  /** So the count is the number of records that are not ONLINE exactly if no CPU went ONLINE
      between its time-out and the attempt to mark it FAILED, and every ping was answered. */
  lemma FailuresExactIff(s: State, steps: seq<Step>)
    requires Init(s) && Possible(s, steps) && After(s, steps).bsp == Done
    ensures var t := After(s, steps);
            t.stats.failed == NotOnline(t.lifecycle, |s.apic|) <==>
              && (forall i | 0 <= i < |steps| :: !LateSomewhere(s, steps, i))
              && (forall i | 0 <= i < |steps| :: !IsLostPing(steps[i]))
  {
    FailuresAccounted(s, steps);
    NoneLateIff(s, steps);
    NoneLostIff(steps);
  }

  lemma {:induction false} NoneLateIff(s: State, steps: seq<Step>)
    requires Shape(s) && Possible(s, steps)
    ensures LateArrivals(s, steps) == 0 <==> forall i | 0 <= i < |steps| :: !LateSomewhere(s, steps, i)
    decreases |steps|
  {
    if steps != [] {
      var next, rest := Do(s, steps[0]), steps[1..];
      NoneLateIff(next, rest);
      assert LateSomewhere(s, steps, 0) == IsLate(s, steps[0]);
      forall i | 0 <= i < |rest| ensures LateSomewhere(s, steps, i + 1) == LateSomewhere(next, rest, i) {
        PrefixPossible(s, steps, i + 1);
        assert steps[..i + 1][1..] == rest[..i];
      }
      assert forall i | 0 < i < |steps| :: LateSomewhere(s, steps, i) == LateSomewhere(next, rest, i - 1);
    }
  }

  lemma {:induction false} NoneLostIff(steps: seq<Step>)
    ensures LostPings(steps) == 0 <==> forall i | 0 <= i < |steps| :: !IsLostPing(steps[i])
  {
    if steps != [] {
      NoneLostIff(steps[1..]);
      assert forall i | 0 < i < |steps| :: steps[i] == steps[1..][i - 1];
    }
  }

  // ----- What the counters mean, failures included -----

  predicate IsBegin(step: Step) { step == OnBsp(Begin) }
  predicate IsSeen(step: Step) { step == OnBsp(SeeOnline) }
  predicate IsGivenUp(step: Step) { step == OnBsp(MarkFailed) }
  predicate IsRefused(step: Step) { step == OnBsp(Refuse) }
  predicate IsSent(step: Step) { step.OnBsp? && step.action.SendPing? }
  predicate IsAnswered(step: Step) { step == OnBsp(SeePing) }

  function CountOf(steps: seq<Step>, p: Step -> bool): nat {
    if steps == [] then 0 else (if p(steps[0]) then 1 else 0) + CountOf(steps[1..], p)
  }

  /** CPU k was told to start, and it is not decided yet whether it came up. */
  predicate Pending(b: Bsp) {
    b.ClearMagic? || b.WriteStack? || b.WriteId? || b.WriteApic? || b.SetMagic? ||
    b.StartAp? || b.AwaitOnline? || b.GiveUp?
  }

  /** Every counter has grown by the number of steps it counts. */
  predicate Grown(from: Stats, to: Stats, steps: seq<Step>) {
    && to.attempted == from.attempted + CountOf(steps, IsBegin)
    && to.online == from.online + CountOf(steps, IsSeen)
    && to.failed == from.failed + CountOf(steps, IsRefused) + CountOf(steps, IsGivenUp) + LostPings(steps)
    && to.pingSent == from.pingSent + CountOf(steps, IsSent)
    && to.pingAcknowledged == from.pingAcknowledged + CountOf(steps, IsAnswered)
  }

  /** Starts decided and not, pings answered and not. */
  function Undecided(b: Bsp): nat { if Pending(b) then 1 else 0 }

  function Unanswered(b: Bsp): nat { if b.AwaitPing? then 1 else 0 }

  lemma StepGrows(s: State, step: Step)
    requires Shape(s) && Enabled(s, step)
    ensures var t := Do(s, step); var n, m := s.stats, t.stats;
            && m.attempted == n.attempted + (if IsBegin(step) then 1 else 0)
            && m.online == n.online + (if IsSeen(step) then 1 else 0)
            && m.failed == n.failed + (if IsRefused(step) || IsGivenUp(step) || IsLostPing(step) then 1 else 0)
            && m.pingSent == n.pingSent + (if IsSent(step) then 1 else 0)
            && m.pingAcknowledged == n.pingAcknowledged + (if IsAnswered(step) then 1 else 0)
  {
  }

  lemma StepDecides(s: State, step: Step)
    requires Shape(s) && Enabled(s, step)
    ensures var t := Do(s, step);
            && (if IsBegin(step) then 1 else 0) + Undecided(s.bsp) ==
               (if IsSeen(step) || IsGivenUp(step) then 1 else 0) + Undecided(t.bsp)
            && (if IsSent(step) then 1 else 0) + Unanswered(s.bsp) ==
               (if IsAnswered(step) || IsLostPing(step) then 1 else 0) + Unanswered(t.bsp)
  {
  }

  lemma {:induction false} RunGrows(s: State, steps: seq<Step>)
    requires Shape(s) && Possible(s, steps)
    ensures Grown(s.stats, After(s, steps).stats, steps)
    decreases |steps|
  {
    if steps != [] {
      StepGrows(s, steps[0]);
      RunGrows(Do(s, steps[0]), steps[1..]);
    }
  }

  lemma {:induction false} RunDecides(s: State, steps: seq<Step>)
    requires Shape(s) && Possible(s, steps)
    ensures var b := After(s, steps).bsp;
            && CountOf(steps, IsBegin) + Undecided(s.bsp) ==
               CountOf(steps, IsSeen) + CountOf(steps, IsGivenUp) + Undecided(b)
            && CountOf(steps, IsSent) + Unanswered(s.bsp) ==
               CountOf(steps, IsAnswered) + LostPings(steps) + Unanswered(b)
    decreases |steps|
  {
    if steps != [] {
      StepDecides(s, steps[0]);
      RunDecides(Do(s, steps[0]), steps[1..]);
    }
  }

  /** In every run, whatever fails: each counter is the number of steps it counts; every attempt
      came online, was given up or is not decided yet; and every ping was acknowledged, is lost or
      is waited for. */
  lemma CountersBalance(s: State, steps: seq<Step>)
    requires Init(s) && Possible(s, steps)
    ensures var t := After(s, steps); var n := t.stats;
            && Grown(Stats(0, 0, 0, 0, 0), n, steps)
            && n.attempted == n.online + CountOf(steps, IsGivenUp) + (if Pending(t.bsp) then 1 else 0)
            && n.pingSent == n.pingAcknowledged + LostPings(steps) + (if t.bsp.AwaitPing? then 1 else 0)
  {
    RunGrows(s, steps);
    RunDecides(s, steps);
  }

  // ----- Who is told to start -----

  predicate Later(b: Bsp, i: nat) { if b.Next? then i >= b.k else !b.Done? && i > b.k }

  predicate Publishing(b: Bsp) {
    b.ClearMagic? || b.WriteStack? || b.WriteId? || b.WriteApic? || b.SetMagic? || b.StartAp?
  }

  /** What the loop has not come to is as it was in the beginning, and what it publishes and
      starts was PREPARED then. */
  predicate FromPrepared(first: seq<Lifecycle>, s: State)
    requires Shape(s)
  {
    && |first| == |s.apic|
    && (forall i | 0 <= i < |first| && Later(s.bsp, i) :: s.lifecycle[i] == first[i] && first[i] != Starting)
    && (Publishing(s.bsp) ==> first[s.bsp.k] == Prepared)
    && (forall i | 0 <= i < |first| && s.apic[i] in s.started :: first[i] == Prepared)
  }

  lemma {:induction false} RunFromPrepared(first: seq<Lifecycle>, s: State, steps: seq<Step>)
    requires Shape(s) && FromPrepared(first, s) && Possible(s, steps)
    ensures FromPrepared(first, After(s, steps))
    decreases |steps|
  {
    if steps != [] { RunFromPrepared(first, Do(s, steps[0]), steps[1..]); }
  }

  /** In every run only processors whose records were PREPARED are ever told to start. */
  lemma OnlyPreparedStart(s: State, steps: seq<Step>, i: nat)
    requires Init(s) && Possible(s, steps) && i < |s.apic| && s.apic[i] in After(s, steps).started
    ensures s.lifecycle[i] == Prepared
  {
    RunFromPrepared(s.lifecycle, s, steps);
  }

  // ----- What a processor must find -----

  /** The processor makes n steps while nothing else happens. */
  function ApAfter(apic: seq<nat>, own: nat, box: Mailbox, legal: bool, ap: Ap, n: nat): (r: Ap)
    requires Accepted(ap) ==> ap.id < |apic|
    ensures Accepted(r) ==> r.id < |apic|
    decreases n
  {
    if n == 0 then ap else ApAfter(apic, own, box, legal, NextAp(apic, own, box, legal, ap), n - 1)
  }

  /** A processor that arrives and is not disturbed comes up exactly if the mailbox is valid and
      names a record with its own APIC id, names that APIC id too, and the record may go ONLINE;
      otherwise it halts. It takes its stack and its id from the mailbox. */
  lemma ComesUpIff(apic: seq<nat>, own: nat, box: Mailbox, legal: bool)
    ensures var ap := ApAfter(apic, own, box, legal, Off, 9);
            var id := box.logicalId;
            if box.magic && id < |apic| && apic[id] == own == box.expectedApic && legal
            then ap == Running(box.stack, id) else ap == Halted
  {
    var a1 := NextAp(apic, own, box, legal, Off);
    var a2 := NextAp(apic, own, box, legal, a1);
    var a3 := NextAp(apic, own, box, legal, a2);
    assert a3 == HasId(box.stack, box.logicalId);
    assert ApAfter(apic, own, box, legal, Off, 9) == ApAfter(apic, own, box, legal, a1, 8);
    assert ApAfter(apic, own, box, legal, a1, 8) == ApAfter(apic, own, box, legal, a2, 7);
    assert ApAfter(apic, own, box, legal, a2, 7) == ApAfter(apic, own, box, legal, a3, 6);
    ChecksIff(apic, own, box, legal, a3);
  }

  /** Its six checks. */
  lemma ChecksIff(apic: seq<nat>, own: nat, box: Mailbox, legal: bool, ap: Ap)
    requires ap == HasId(box.stack, box.logicalId)
    ensures var r := ApAfter(apic, own, box, legal, ap, 6);
            if box.magic && ap.id < |apic| && apic[ap.id] == own == box.expectedApic && legal
            then r == Running(ap.stack, ap.id) else r == Halted
  {
    var a4 := NextAp(apic, own, box, legal, ap);
    var a5 := NextAp(apic, own, box, legal, a4);
    var a6 := NextAp(apic, own, box, legal, a5);
    assert ApAfter(apic, own, box, legal, ap, 6) == ApAfter(apic, own, box, legal, a4, 5);
    assert ApAfter(apic, own, box, legal, a4, 5) == ApAfter(apic, own, box, legal, a5, 4);
    assert ApAfter(apic, own, box, legal, a5, 4) == ApAfter(apic, own, box, legal, a6, 3);
    var a7 := NextAp(apic, own, box, legal, a6);
    var a8 := NextAp(apic, own, box, legal, a7);
    assert ApAfter(apic, own, box, legal, a6, 3) == ApAfter(apic, own, box, legal, a7, 2);
    assert ApAfter(apic, own, box, legal, a7, 2) == ApAfter(apic, own, box, legal, a8, 1);
    assert ApAfter(apic, own, box, legal, a8, 1) == NextAp(apic, own, box, legal, a8);
  }

  // ----- A failure counted for a CPU that is online -----

  ghost predicate Reachable(s: State, t: State) {
    Shape(s) && exists steps :: Possible(s, steps) && After(s, steps) == t
  }

  lemma {:induction false} Extends(s: State, steps: seq<Step>, step: Step)
    requires Shape(s) && Possible(s, steps) && Enabled(After(s, steps), step)
    ensures Possible(s, steps + [step]) && After(s, steps + [step]) == Do(After(s, steps), step)
    decreases |steps|
  {
    if steps == [] {
      assert ([step])[1..] == [];
    } else {
      Extends(Do(s, steps[0]), steps[1..], step);
      assert (steps + [step])[1..] == steps[1..] + [step];
    }
  }

  lemma Take(s: State, now: State, step: Step) returns (next: State)
    requires Reachable(s, now) && Shape(now) && Enabled(now, step)
    ensures next == Do(now, step) && Reachable(s, next)
  {
    var steps :| Possible(s, steps) && After(s, steps) == now;
    Extends(s, steps, step);
    next := Do(now, step);
  }

  lemma Published(s: State, now: State) returns (next: State)
    requires Reachable(s, now) && Shape(now) && now.bsp == ClearMagic(1)
    ensures Reachable(s, next) && Shape(next)
    ensures next == now.(box := Mailbox(true, 1, 1, now.apic[1]), bsp := StartAp(1))
  {
    next := Take(s, now, OnBsp(Publish));
    next := Take(s, next, OnBsp(Publish));
    next := Take(s, next, OnBsp(Publish));
    next := Take(s, next, OnBsp(Publish));
    next := Take(s, next, OnBsp(Publish));
  }

  /** The second of two CPUs has been told to start. */
  lemma Told(s: State) returns (t: State)
    requires Init(s) && |s.apic| == 2 && s.lifecycle[1] == Prepared
    ensures Reachable(s, t) && Shape(t)
    ensures t == s.(lifecycle := s.lifecycle[1 := Starting], stats := Stats(1, 0, 0, 0, 0),
                    box := Mailbox(true, 1, 1, s.apic[1]), started := {s.apic[1]}, bsp := AwaitOnline(1))
  {
    assert Possible(s, []) && After(s, []) == s;
    t := Take(s, s, OnBsp(Begin));
    t := Published(s, t);
    t := Take(s, t, OnBsp(Start(true)));
    assert {} + {s.apic[1]} == {s.apic[1]};
  }

  /** The only AP makes its next step without touching a record. */
  lemma Moves(s: State, now: State, ap: Ap) returns (next: State)
    requires Reachable(s, now) && Shape(now) && |now.aps| == 1 && Enabled(now, OnAp(0))
    requires !now.aps[0].Checked? && !now.aps[0].Entered?
    requires NextAp(now.apic, now.physical[0], now.box, false, now.aps[0]) == ap
    ensures next == now.(aps := [ap]) && Shape(next) && Reachable(s, next)
  {
    next := Take(s, now, OnAp(0));
    assert next.aps == [ap];
  }

  /** It arrives and reads the mailbox. */
  lemma ReadsMailbox(s: State, now: State) returns (next: State)
    requires Reachable(s, now) && Shape(now)
    requires |now.apic| == 2 && now.aps == [Off] && now.physical == [now.apic[1]]
    requires now.box == Mailbox(true, 1, 1, now.apic[1]) && now.started == {now.apic[1]}
    ensures Reachable(s, next) && next == now.(aps := [HasId(1, 1)]) && Shape(next)
  {
    next := Moves(s, now, Trampoline);
    next := Moves(s, next, HasStack(1));
    next := Moves(s, next, HasId(1, 1));
  }

  /** It finds the mailbox whole and for the id it read. */
  lemma Matches(s: State, now: State) returns (next: State)
    requires Reachable(s, now) && Shape(now)
    requires |now.apic| == 2 && now.aps == [HasId(1, 1)] && now.physical == [now.apic[1]]
    requires now.box == Mailbox(true, 1, 1, now.apic[1]) && now.started == {now.apic[1]}
    ensures Reachable(s, next) && next == now.(aps := [Matched(1, 1)]) && Shape(next)
  {
    next := Moves(s, now, SawMagic(1, 1));
    next := Moves(s, next, Matched(1, 1));
  }

  /** It finds its own APIC id in its record and in the mailbox. */
  lemma PassesChecks(s: State, now: State) returns (next: State)
    requires Reachable(s, now) && Shape(now)
    requires |now.apic| == 2 && now.aps == [Matched(1, 1)] && now.physical == [now.apic[1]]
    requires now.box == Mailbox(true, 1, 1, now.apic[1]) && now.started == {now.apic[1]}
    ensures Reachable(s, next) && next == now.(aps := [Checked(1, 1)]) && Shape(next)
  {
    next := Moves(s, now, Active(1, 1));
    next := Moves(s, next, Checked(1, 1));
  }

  /** The CPU goes ONLINE after the time-out, so that it cannot be marked FAILED. */
  lemma GivenUp(s: State, now: State) returns (next: State)
    requires Reachable(s, now) && Shape(now) && |now.apic| == 2 && now.bsp == AwaitOnline(1) && !now.online[1]
    requires now.aps == [Checked(1, 1)] && now.lifecycle[1] == Starting
    ensures Reachable(s, next) && Shape(next)
    ensures next == now.(aps := [Entered(1, 1)], lifecycle := now.lifecycle[1 := Online], bsp := Next(2),
                         stats := now.stats.(failed := now.stats.failed + 1))
  {
    next := Take(s, now, OnBsp(TimeOut));
    next := Enters(s, next);
    next := Take(s, next, OnBsp(MarkFailed));
  }

  lemma Enters(s: State, now: State) returns (next: State)
    requires Reachable(s, now) && Shape(now) && |now.apic| == 2
    requires now.aps == [Checked(1, 1)] && now.lifecycle[1] == Starting
    ensures Reachable(s, next) && Shape(next)
    ensures next == now.(aps := [Entered(1, 1)], lifecycle := now.lifecycle[1 := Online])
  {
    next := Take(s, now, OnAp(0));
    assert next.aps == [Entered(1, 1)];
  }

  /** It has passed all its checks while the bootstrap processor still waits for it. */
  lemma Arrives(s: State) returns (t: State)
    requires Init(s) && |s.apic| == 2 && s.lifecycle[1] == Prepared && s.physical == [s.apic[1]]
    ensures Reachable(s, t) && Shape(t)
    ensures t == s.(lifecycle := s.lifecycle[1 := Starting], stats := Stats(1, 0, 0, 0, 0),
                    box := Mailbox(true, 1, 1, s.apic[1]), started := {s.apic[1]}, bsp := AwaitOnline(1),
                    aps := [Checked(1, 1)])
  {
    t := Told(s);
    assert s.aps == [Off];
    t := ReadsMailbox(s, t);
    t := Matches(s, t);
    t := PassesChecks(s, t);
  }

  /** The loop reports a failure and every record is ONLINE: the count of failures can include
      a CPU that is up. */
  lemma LateArrivalRun(s: State) returns (t: State)
    requires Init(s) && |s.apic| == 2 && s.lifecycle[1] == Prepared && s.physical == [s.apic[1]]
    ensures Reachable(s, t) && t.bsp == Done && t.stats.failed == 1
    ensures t.lifecycle == [Online, Online] && t.online == s.online[1 := true]
  {
    t := Arrives(s);
    t := GivenUp(s, t);
    t := Take(s, t, OnAp(0));
    t := Take(s, t, OnBsp(Finish));
  }

  /** The same without any race: the CPU is up in time and does not answer the ping. */
  lemma UnansweredPingRun(s: State) returns (t: State)
    requires Init(s) && |s.apic| == 2 && s.lifecycle[1] == Prepared && s.physical == [s.apic[1]]
    ensures Reachable(s, t) && t.bsp == Done && t.stats == Stats(1, 1, 1, 1, 0)
    ensures t.lifecycle == [Online, Online] && t.online == s.online[1 := true]
  {
    t := Arrives(s);
    t := Enters(s, t);
    t := Take(s, t, OnAp(0));
    t := NotAnswered(s, t);
    t := Take(s, t, OnBsp(Finish));
  }

  lemma NotAnswered(s: State, now: State) returns (next: State)
    requires Reachable(s, now) && Shape(now) && |now.apic| == 2 && now.bsp == AwaitOnline(1) && now.online[1]
    ensures Reachable(s, next) && Shape(next)
    ensures next.bsp == Next(2)
    ensures next.stats == Stats(now.stats.attempted, now.stats.online + 1, now.stats.failed + 1,
                                now.stats.pingSent + 1, now.stats.pingAcknowledged)
    ensures next.lifecycle == now.lifecycle && next.online == now.online && next.apic == now.apic
  {
    next := Take(s, now, OnBsp(SeeOnline));
    next := Take(s, next, OnBsp(SendPing(true)));
    next := Take(s, next, OnBsp(PingTimeOut));
  }

  // ----- Starts that go well, and starts that fail -----

  /** One ping is sent, handled and seen. */
  lemma OnePing(s: State, now: State, r: nat) returns (next: State)
    requires Reachable(s, now) && Shape(now) && |now.apic| == 2 && |now.aps| == 1 && now.aps[0] == Running(1, 1)
    requires now.bsp == Ping(1, r) && r < PING_ROUNDS && !now.pingPending[1]
    ensures Reachable(s, next) && Shape(next)
    ensures next == now.(bsp := Ping(1, r + 1), pings := now.pings[1 := now.pings[1] + 1],
                         stats := now.stats.(pingSent := now.stats.pingSent + 1,
                                             pingAcknowledged := now.stats.pingAcknowledged + 1))
  {
    next := PingAnswered(s, now, r);
    next := PingSeen(s, next, r);
  }

  lemma PingAnswered(s: State, now: State, r: nat) returns (next: State)
    requires Reachable(s, now) && Shape(now) && |now.apic| == 2 && |now.aps| == 1 && now.aps[0] == Running(1, 1)
    requires now.bsp == Ping(1, r) && r < PING_ROUNDS && !now.pingPending[1]
    ensures Reachable(s, next) && Shape(next)
    ensures next == now.(bsp := AwaitPing(1, r, now.pings[1]), pings := now.pings[1 := now.pings[1] + 1],
                         stats := now.stats.(pingSent := now.stats.pingSent + 1))
  {
    next := PingSent(s, now, r);
    next := PingHandled(s, next);
    assert now.pingPending[1 := true][1 := false] == now.pingPending;
  }

  lemma PingSent(s: State, now: State, r: nat) returns (next: State)
    requires Reachable(s, now) && Shape(now) && |now.apic| == 2 && now.bsp == Ping(1, r) && r < PING_ROUNDS
    ensures Reachable(s, next) && Shape(next)
    ensures next == now.(bsp := AwaitPing(1, r, now.pings[1]), pingPending := now.pingPending[1 := true],
                         stats := now.stats.(pingSent := now.stats.pingSent + 1))
  {
    next := Take(s, now, OnBsp(SendPing(true)));
  }

  lemma PingHandled(s: State, now: State) returns (next: State)
    requires Reachable(s, now) && Shape(now) && |now.apic| == 2 && |now.aps| == 1
    requires now.aps[0] == Running(1, 1) && now.pingPending[1]
    ensures Reachable(s, next) && Shape(next)
    ensures next == now.(pings := now.pings[1 := now.pings[1] + 1], pingPending := now.pingPending[1 := false])
  {
    next := Take(s, now, HandlePing(0));
  }

  lemma PingSeen(s: State, now: State, r: nat) returns (next: State)
    requires Reachable(s, now) && Shape(now) && |now.apic| == 2
    requires now.bsp.AwaitPing? && now.bsp.k == 1 && now.bsp.round == r && now.pings[1] > now.bsp.previous
    ensures Reachable(s, next) && Shape(next)
    ensures next == now.(bsp := Ping(1, r + 1),
                         stats := now.stats.(pingAcknowledged := now.stats.pingAcknowledged + 1))
  {
    next := Take(s, now, OnBsp(SeePing));
  }

  /** Three pings, and the loop is done. */
  lemma AllPings(s: State, now: State) returns (next: State)
    requires Reachable(s, now) && Shape(now) && |now.apic| == 2 && |now.aps| == 1 && now.aps[0] == Running(1, 1)
    requires now.bsp == Ping(1, 0) && !now.pingPending[1]
    ensures Reachable(s, next) && Shape(next) && next.bsp == Done && !next.box.magic
    ensures next.lifecycle == now.lifecycle && next.online == now.online
    ensures next.stats == now.stats.(pingSent := now.stats.pingSent + 3,
                                     pingAcknowledged := now.stats.pingAcknowledged + 3)
  {
    next := OnePing(s, now, 0);
    next := OnePing(s, next, 1);
    next := OnePing(s, next, 2);
    next := PingsOver(s, next);
  }

  lemma PingsOver(s: State, now: State) returns (next: State)
    requires Reachable(s, now) && Shape(now) && |now.apic| == 2 && now.bsp == Ping(1, 3)
    ensures Reachable(s, next) && Shape(next)
    ensures next == now.(bsp := Done, box := now.box.(magic := false))
  {
    next := Take(s, now, OnBsp(PingsDone));
    next := Take(s, next, OnBsp(Finish));
  }

  /** The second of two CPUs comes up in time. */
  lemma ComesUp(s: State) returns (t: State)
    requires Init(s) && |s.apic| == 2 && s.lifecycle[1] == Prepared && s.physical == [s.apic[1]]
    ensures Reachable(s, t) && Shape(t) && t.apic == s.apic && t.aps == [Running(1, 1)]
    ensures t.lifecycle == s.lifecycle[1 := Online] && t.online == s.online[1 := true]
    ensures t.bsp == Ping(1, 0) && t.stats == Stats(1, 1, 0, 0, 0) && t.pings == s.pings && !t.pingPending[1]
  {
    t := Arrives(s);
    t := Enters(s, t);
    t := Take(s, t, OnAp(0));
    t := Take(s, t, OnBsp(SeeOnline));
  }

  /** It answers three pings, and the loop reports success. */
  lemma SuccessRun(s: State) returns (t: State)
    requires Init(s) && |s.apic| == 2 && s.lifecycle[1] == Prepared && s.physical == [s.apic[1]]
    ensures Reachable(s, t) && t.bsp == Done && t.stats == Stats(1, 1, 0, 3, 3)
    ensures t.lifecycle == [Online, Online] && t.online == s.online[1 := true] && !t.box.magic
  {
    t := ComesUp(s);
    t := AllPings(s, t);
  }

  /** A start that reports an error may have been received: the CPU comes up all the same. */
  lemma ReportedErrorRun(s: State) returns (t: State)
    requires Init(s) && |s.apic| == 2 && s.lifecycle[1] == Prepared && s.physical == [s.apic[1]]
    ensures Reachable(s, t) && t.bsp == Done && t.stats == Stats(1, 0, 1, 0, 0)
    ensures t.lifecycle == [Online, Online]
  {
    assert Possible(s, []) && After(s, []) == s;
    t := Take(s, s, OnBsp(Begin));
    t := Published(s, t);
    t := Take(s, t, OnBsp(Start(false)));
    assert {} + {s.apic[1]} == {s.apic[1]} && s.aps == [Off];
    t := ComesUpLate(s, t);
  }

  lemma ComesUpLate(s: State, now: State) returns (next: State)
    requires Reachable(s, now) && Shape(now) && |now.apic| == 2 && now.bsp == GiveUp(1)
    requires now.aps == [Off] && now.physical == [now.apic[1]] && now.lifecycle == [Online, Starting]
    requires now.box == Mailbox(true, 1, 1, now.apic[1]) && now.started == {now.apic[1]}
    ensures Reachable(s, next) && next.bsp == Done && next.lifecycle == [Online, Online]
    ensures next.stats == CountFailed(now.stats)
  {
    next := ReadsMailbox(s, now);
    next := Matches(s, next);
    next := PassesChecks(s, next);
    next := Enters(s, next);
    next := MarkedAndDone(s, next);
  }

  /** The last CPU is given up, whatever its record says, and the loop ends. */
  lemma MarkedAndDone(s: State, now: State) returns (next: State)
    requires Reachable(s, now) && Shape(now) && |now.apic| == 2 && now.bsp == GiveUp(1)
    ensures Reachable(s, next) && Shape(next) && next.bsp == Done && next.stats == CountFailed(now.stats)
    ensures next.aps == now.aps
    ensures next.lifecycle == if now.lifecycle[1] == Starting then now.lifecycle[1 := Failed] else now.lifecycle
  {
    next := Take(s, now, OnBsp(MarkFailed));
    next := Take(s, next, OnBsp(Finish));
  }

  /** A CPU whose own set-up fails halts, and its record goes FAILED. */
  lemma SetUpFailsRun(s: State) returns (t: State)
    requires Init(s) && |s.apic| == 2 && s.lifecycle[1] == Prepared && s.physical == [s.apic[1]]
    ensures Reachable(s, t) && t.bsp == Done && t.stats == Stats(1, 0, 1, 0, 0)
    ensures t.lifecycle == [Online, Failed] && t.aps == [Halted]
  {
    t := Arrives(s);
    t := SetUpFails(s, t);
    t := MarkedAndDone(s, t);
  }

  lemma SetUpFails(s: State, now: State) returns (next: State)
    requires Reachable(s, now) && Shape(now) && |now.apic| == 2 && now.bsp == AwaitOnline(1) && !now.online[1]
    requires now.aps == [Checked(1, 1)]
    ensures Reachable(s, next) && Shape(next) && next == now.(aps := [Halted], bsp := GiveUp(1))
  {
    next := Take(s, now, ApInitFails(0));
    next := Take(s, next, OnBsp(TimeOut));
    assert next.aps == [Halted];
  }

  /** A CPU that is refused is not told to start at all. */
  lemma RefusedRun(s: State) returns (t: State)
    requires Init(s) && |s.apic| == 2
    ensures Reachable(s, t) && t.bsp == Done && t.stats == Stats(0, 0, 1, 0, 0) && t.started == {}
    ensures t.lifecycle == s.lifecycle
  {
    assert Possible(s, []) && After(s, []) == s;
    t := Take(s, s, OnBsp(Refuse));
    t := Take(s, t, OnBsp(Finish));
  }
}
