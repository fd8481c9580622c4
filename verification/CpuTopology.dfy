/**
 The CPU table of kernel/cpu/cpu.cpp: how it is filled from what the firmware lists, and the
 lifecycle of each record.
 */
module CpuTopology {
  import opened Basics

  const CPU_MAX_COUNT: nat := 8

  datatype Lifecycle = Empty | Discovered | Prepared | Starting | Online | Offline | Failed

  /** cpu_transition_is_legal. */
  predicate Legal(from: Lifecycle, to: Lifecycle) {
    || (from == Discovered && to == Prepared)
    || (from == Prepared && to == Starting)
    || (from == Starting && (to == Online || to == Failed))
    || (from == Online && to == Offline)
  }

  /** How many transitions lie behind a record in this state. */
  function Rank(l: Lifecycle): nat {
    match l
    case Empty => 0 case Discovered => 0 case Prepared => 1 case Starting => 2
    case Online => 3 case Failed => 3 case Offline => 4
  }

  /** A processor entry the firmware parser retained. */
  datatype CpuInfo = CpuInfo(acpiId: nat, apicId: nat, flags: nat, entryType: nat)

  predicate Xapic(c: CpuInfo) { c.entryType == 0 }

  predicate IsEnabled(c: CpuInfo) { c.flags % 2 == 1 }

  datatype Acpi = Acpi(parseValid: bool, cpus: seq<CpuInfo>, total: nat, disabled: nat,
                       overflow: nat, unsupported: nat, malformed: nat)

  datatype Record = Record(logicalId: nat, apicId: nat, acpiId: nat, flags: nat,
                           lifecycle: Lifecycle, isBsp: bool, enabled: bool, xapic: bool)

  function Ids(rs: seq<Record>): seq<nat> {
    seq(|rs|, i requires 0 <= i < |rs| => rs[i].apicId)
  }

  function InState(rs: seq<Record>, l: Lifecycle): nat {
    if rs == [] then 0
    else InState(rs[..|rs| - 1], l) + (if rs[|rs| - 1].lifecycle == l then 1 else 0)
  }

  /** The APIC ids of the xAPIC processors in cpus[..n], without the one at index b. */
  function OtherIds(cpus: seq<CpuInfo>, n: nat, b: nat): seq<nat>
    requires n <= |cpus|
  {
    if n == 0 then []
    else if n - 1 != b && Xapic(cpus[n - 1]) then OtherIds(cpus, n - 1, b) + [cpus[n - 1].apicId]
    else OtherIds(cpus, n - 1, b)
  }

  /** No two xAPIC processors have the same APIC id. */
  predicate DistinctIds(cpus: seq<CpuInfo>) {
    forall i, j | 0 <= i < j < |cpus| && Xapic(cpus[i]) && Xapic(cpus[j]) :: cpus[i].apicId != cpus[j].apicId
  }

  /** The first xAPIC processor with the bootstrap processor's id is at index b. */
  predicate BspAt(cpus: seq<CpuInfo>, bsp: nat, b: nat) {
    && b < |cpus| && Xapic(cpus[b]) && cpus[b].apicId == bsp
    && forall i | 0 <= i < b :: !(Xapic(cpus[i]) && cpus[i].apicId == bsp)
  }

  predicate HasBsp(cpus: seq<CpuInfo>, bsp: nat) {
    exists i :: 0 <= i < |cpus| && Xapic(cpus[i]) && cpus[i].apicId == bsp
  }

  /** DistinctIds among cpus[..n] and the processor at b. */
  predicate DistinctSoFar(cpus: seq<CpuInfo>, n: nat, b: nat)
    requires n <= |cpus| && b < |cpus|
  {
    forall j | 0 <= j < n && j != b && Xapic(cpus[j]) ::
      && cpus[j].apicId != cpus[b].apicId
      && forall i | 0 <= i < j && i != b && Xapic(cpus[i]) :: cpus[i].apicId != cpus[j].apicId
  }

  lemma {:induction false} InStateUpdate(rs: seq<Record>, i: nat, l: Lifecycle, state: Lifecycle)
    requires i < |rs|
    ensures InState(rs[i := rs[i].(lifecycle := l)], state) ==
            InState(rs, state) - (if rs[i].lifecycle == state then 1 else 0) + (if l == state then 1 else 0)
  {
    var front, updated := rs[..|rs| - 1], rs[i := rs[i].(lifecycle := l)];
    if i < |rs| - 1 {
      assert updated[..|rs| - 1] == front[i := front[i].(lifecycle := l)];
      InStateUpdate(front, i, l, state);
    } else {
      assert updated[..|rs| - 1] == front;
    }
  }

  /** From any state on, however often it is asked, a record makes no more transitions than
      its rank leaves room for: at most four. */
  function Successes(l: Lifecycle, requests: seq<Lifecycle>): nat
    decreases |requests|
  {
    if requests == [] then 0
    else if Legal(l, requests[0]) then 1 + Successes(requests[0], requests[1..])
    else Successes(l, requests[1..])
  }

  lemma {:induction false} AtMostFour(l: Lifecycle, requests: seq<Lifecycle>)
    ensures Successes(l, requests) + Rank(l) <= 4
    decreases |requests|
  {
    if requests != [] {
      AtMostFour(l, requests[1..]);
      AtMostFour(requests[0], requests[1..]);
    }
  }

  /** All requests succeed, one after the other. */
  predicate AllSucceed(l: Lifecycle, requests: seq<Lifecycle>)
    decreases |requests|
  {
    requests != [] ==> Legal(l, requests[0]) && AllSucceed(requests[0], requests[1..])
  }

  /** The lives of a record: a discovered one is prepared and started, and then goes online and
      perhaps offline, or fails. One that is online can only go offline, and nothing more follows
      after that or after a failure. */
  lemma Lives(requests: seq<Lifecycle>)
    ensures AllSucceed(Discovered, requests) <==>
            requests <= [Prepared, Starting, Online, Offline] || requests <= [Prepared, Starting, Failed]
    ensures AllSucceed(Online, requests) <==> requests <= [Offline]
    ensures AllSucceed(Offline, requests) || AllSucceed(Failed, requests) || AllSucceed(Empty, requests) <==>
            requests == []
  {
    if |requests| > 0 { LivesFrom(requests[1..]); }
  }

  lemma LivesFrom(rest: seq<Lifecycle>)
    ensures AllSucceed(Online, rest) <==> rest <= [Offline]
    ensures AllSucceed(Starting, rest) <==> rest <= [Online, Offline] || rest <= [Failed]
    ensures AllSucceed(Prepared, rest) <==> rest <= [Starting, Online, Offline] || rest <= [Starting, Failed]
  {
    if |rest| > 0 {
      assert AllSucceed(Online, rest[1..]) <==> rest[1..] <= [Offline];
      assert AllSucceed(Starting, rest[1..]) <==> rest[1..] <= [Online, Offline] || rest[1..] <= [Failed];
    }
  }

  /** Logical ids are positions, APIC ids are distinct, the bootstrap processor is the first
      record and no other, and every record has come as far as it was moved. */
  ghost predicate TableOk(rs: seq<Record>, moves: seq<nat>) {
    && |rs| <= 8 && |moves| == |rs|
    && (forall i | 0 <= i < |rs| :: rs[i].logicalId == i && (rs[i].isBsp <==> i == 0))
    && (forall i, j | 0 <= i < j < |rs| :: rs[i].apicId != rs[j].apicId)
    && (forall i | 0 <= i < |rs| :: moves[i] + (if i == 0 then 3 else 0) == Rank(rs[i].lifecycle))
  }

  lemma TableGrows(rs: seq<Record>, moves: seq<nat>, r: Record)
    requires TableOk(rs, moves) && |rs| < CPU_MAX_COUNT && r.apicId !in Ids(rs)
    requires r.logicalId == |rs| && (r.isBsp <==> rs == [])
    requires r.lifecycle == if rs == [] then Online else Discovered
    ensures TableOk(rs + [r], moves + [0])
    ensures Ids(rs + [r]) == Ids(rs) + [r.apicId]
  {
    assert forall i | 0 <= i < |rs| :: Ids(rs)[i] == rs[i].apicId;
  }

  lemma InStateGrows(rs: seq<Record>, r: Record, l: Lifecycle)
    ensures InState(rs + [r], l) == InState(rs, l) + (if r.lifecycle == l then 1 else 0)
  {
    assert (rs + [r])[..|rs|] == rs;
  }

  lemma TableMoves(rs: seq<Record>, moves: seq<nat>, i: nat, next: Lifecycle)
    requires TableOk(rs, moves) && i < |rs| && Legal(rs[i].lifecycle, next)
    ensures TableOk(rs[i := rs[i].(lifecycle := next)], moves[i := moves[i] + 1])
  {
  }

  /** The static table and its counters. Only the used part of the table is kept. `moves`
      counts the transitions each record made since the table was filled. */
  class Topology {
    var records: seq<Record>
    var onlineCount: nat
    var discoveredCount: nat
    var duplicateCount: nat
    var overflowCount: nat
    var malformedCount: nat
    var topologyValid: bool
    ghost var moves: seq<nat>

    ghost predicate Valid()
      reads this
    {
      && TableOk(records, moves)
      && onlineCount == InState(records, Online) && discoveredCount == InState(records, Discovered)
    }

    constructor ()
      ensures Valid() && records == []
    {
      records, moves := [], [];
      onlineCount, discoveredCount, duplicateCount, overflowCount, malformedCount := 0, 0, 0, 0, 0;
      topologyValid := false;
    }

    method Append(c: CpuInfo, isBsp: bool, lifecycle: Lifecycle)
      requires Valid() && |records| < CPU_MAX_COUNT
      requires c.apicId !in Ids(records)
      requires if isBsp then records == [] && lifecycle == Online else records != [] && lifecycle == Discovered
      modifies this`records, this`onlineCount, this`discoveredCount, this`moves
      ensures Valid()
      ensures records == old(records) + [
                Record(old(|records|), c.apicId, c.acpiId, c.flags, lifecycle, isBsp,
                       c.flags % 2 == 1, c.entryType == 0)]
      ensures Ids(records) == old(Ids(records)) + [c.apicId]
    {
      var r := Record(|records|, c.apicId, c.acpiId, c.flags, lifecycle, isBsp, IsEnabled(c), Xapic(c));
      TableGrows(records, moves, r);
      InStateGrows(records, r, Online);
      InStateGrows(records, r, Discovered);
      records := records + [r];
      moves := moves + [0];
      if lifecycle == Online {
        onlineCount := onlineCount + 1;
      } else if lifecycle == Discovered {
        discoveredCount := discoveredCount + 1;
      }
    }

    method AlreadyPresent(apicId: nat) returns (present: bool)
      ensures present <==> apicId in Ids(records)
    {
      assert forall j | 0 <= j < |records| :: Ids(records)[j] == records[j].apicId;
      var i := 0;
      while i < |records|
        invariant i <= |records| && forall j | 0 <= j < i :: records[j].apicId != apicId
      {
        if records[i].apicId == apicId {
          return true;
        }
        i := i + 1;
      }
      return false;
    }

    /** cpu_record_by_apic_id: the records can be told apart by their APIC ids. */
    method Find(apicId: nat) returns (found: bool, i: nat)
      requires Valid()
      ensures found ==> i < |records| && records[i].apicId == apicId
      ensures found ==> forall r | r in records :: r.apicId == apicId ==> r == records[i]
      ensures !found ==> forall r | r in records :: r.apicId != apicId
    {
      i := 0;
      while i < |records|
        invariant i <= |records| && forall j | 0 <= j < i :: records[j].apicId != apicId
      {
        if records[i].apicId == apicId {
          return true, i;
        }
        i := i + 1;
      }
      return false, 0;
    }

    method FindBsp(cpus: seq<CpuInfo>, bsp: nat) returns (found: bool, b: nat)
      ensures found <==> HasBsp(cpus, bsp)
      ensures found ==> BspAt(cpus, bsp, b)
    {
      found, b := false, 0;
      var i := 0;
      while i < |cpus|
        invariant i <= |cpus|
        invariant found ==> BspAt(cpus, bsp, b)
        invariant !found ==> forall j | 0 <= j < i :: !(Xapic(cpus[j]) && cpus[j].apicId == bsp)
      {
        if Xapic(cpus[i]) && cpus[i].apicId == bsp && !found {
          found, b := true, i;
        }
        i := i + 1;
      }
    }

    /** One more xAPIC processor, after those whose ids are listed in `ids`. */
    method Consider(c: CpuInfo, ghost ids: seq<nat>, ghost first: Record)
      requires Valid() && |ids| < CPU_MAX_COUNT && Gathered(Ids(records), ids, duplicateCount)
      requires AsFound(records, first)
      modifies this
      ensures Valid() && overflowCount == old(overflowCount) && malformedCount == old(malformedCount)
      ensures Gathered(Ids(records), ids + [c.apicId], duplicateCount)
      ensures AsFound(records, first)
    {
      var present := AlreadyPresent(c.apicId);
      if present {
        GatheredAgain(Ids(records), ids, duplicateCount, c.apicId);
        duplicateCount := duplicateCount + 1;
      } else {
        GatheredNew(Ids(records), ids, duplicateCount, c.apicId);
        Append(c, false, Discovered);
      }
    }

    /** The records after the bootstrap processor's: every other xAPIC processor that is not a
        repetition. The source also counts an overflow here, which the bound on the parsed
        list rules out. */
    method AppendOthers(cpus: seq<CpuInfo>, b: nat)
      requires Valid() && |cpus| <= CPU_MAX_COUNT && b < |cpus|
      requires |records| == 1 && Ids(records) == [cpus[b].apicId] && duplicateCount == 0
      modifies this
      ensures Valid() && records != [] && overflowCount == old(overflowCount) && malformedCount == old(malformedCount)
      ensures Gathered(Ids(records), [cpus[b].apicId] + OtherIds(cpus, |cpus|, b), duplicateCount)
      ensures AsFound(records, old(records[0]))
    {
      ghost var first, ids := records[0], [cpus[b].apicId];
      assert ids[..0] == [];
      var i := 0;
      while i < |cpus|
        invariant i <= |cpus| && Valid() && overflowCount == old(overflowCount) && malformedCount == old(malformedCount)
        invariant AsFound(records, first)
        invariant Gathered(Ids(records), ids, duplicateCount) && ids == [cpus[b].apicId] + OtherIds(cpus, i, b)
      {
        if i != b && Xapic(cpus[i]) {
          OtherIdsLength(cpus, i, b);
          Consider(cpus[i], ids, first);
          ids := ids + [cpus[i].apicId];
        }
        i := i + 1;
      }
    }

    /** cpu_topology_init succeeds exactly on a parse without overflow or error that lists the
        bootstrap processor and no xAPIC id twice. Then the table holds the bootstrap processor
        and, in the firmware's order, every other xAPIC processor. */
    method Init(acpi: Acpi, bsp: nat) returns (ok: bool)
      requires |acpi.cpus| <= CPU_MAX_COUNT
      modifies this
      ensures Valid() && ok == topologyValid
      ensures ok <==> && acpi.parseValid && acpi.overflow == 0 && acpi.malformed == 0
                      && HasBsp(acpi.cpus, bsp) && DistinctIds(acpi.cpus)
      ensures ok ==> exists b :: BspAt(acpi.cpus, bsp, b) && Ids(records) == [bsp] + OtherIds(acpi.cpus, |acpi.cpus|, b)
      ensures forall i | 0 <= i < |records| :: records[i].lifecycle == if i == 0 then Online else Discovered
    {
      records, moves := [], [];
      onlineCount, discoveredCount, duplicateCount, overflowCount, malformedCount := 0, 0, 0, 0, 0;
      topologyValid := false;
      if !acpi.parseValid || |acpi.cpus| == 0 {
        malformedCount := acpi.malformed;
        return false;
      }
      overflowCount, malformedCount := acpi.overflow, acpi.malformed;
      var found, b := FindBsp(acpi.cpus, bsp);
      if !found {
        return false;
      }
      Append(acpi.cpus[b], true, Online);
      assert Ids(records) == [bsp];
      AppendOthers(acpi.cpus, b);
      DistinctListed(acpi.cpus, |acpi.cpus|, b);
      DistinctAtTheEnd(acpi.cpus, b);
      topologyValid := duplicateCount == 0 && overflowCount == 0 && malformedCount == 0;
      return topologyValid;
    }

    method Transition(id: nat, next: Lifecycle) returns (ok: bool)
      requires Valid()
      modifies this
      ensures Valid() && topologyValid == old(topologyValid)
      ensures ok <==> id < old(|records|) && Legal(old(records)[id].lifecycle, next)
      ensures ok ==> records == old(records)[id := old(records)[id].(lifecycle := next)]
      ensures ok ==> moves == old(moves)[id := old(moves)[id] + 1] && moves[id] <= 4
      ensures !ok ==> records == old(records) && moves == old(moves)
    {
      if id >= |records| || !Legal(records[id].lifecycle, next) {
        return false;
      }
      var previous := records[id].lifecycle;
      InStateUpdate(records, id, next, Online);
      InStateUpdate(records, id, next, Discovered);
      InStatePositive(records, id);
      TableMoves(records, moves, id, next);
      records := records[id := records[id].(lifecycle := next)];
      moves := moves[id := moves[id] + 1];
      discoveredCount :=
        discoveredCount - (if previous == Discovered then 1 else 0) + (if next == Discovered then 1 else 0);
      onlineCount := onlineCount - (if previous == Online then 1 else 0) + (if next == Online then 1 else 0);
      return true;
    }
  }

  /** A given first record, then records that were only discovered. */
  predicate AsFound(rs: seq<Record>, first: Record) {
    rs != [] && rs[0] == first && forall i | 1 <= i < |rs| :: rs[i].lifecycle == Discovered
  }

  /** The ids in the table are those listed, and as long as none repeats, in the same order. */
  ghost predicate Gathered(ids: seq<nat>, listed: seq<nat>, duplicates: nat) {
    && (forall x :: x in ids <==> x in listed)
    && |ids| <= |listed|
    && (duplicates == 0 <==> Distinct(listed))
    && (duplicates == 0 ==> ids == listed)
  }

  lemma GatheredAgain(ids: seq<nat>, listed: seq<nat>, duplicates: nat, x: nat)
    requires Gathered(ids, listed, duplicates) && x in ids
    ensures Gathered(ids, listed + [x], duplicates + 1)
  {
    DistinctAppends(listed, x);
  }

  lemma GatheredNew(ids: seq<nat>, listed: seq<nat>, duplicates: nat, x: nat)
    requires Gathered(ids, listed, duplicates) && x !in ids
    ensures Gathered(ids + [x], listed + [x], duplicates)
  {
    DistinctAppends(listed, x);
  }

  lemma {:induction false} InStatePositive(rs: seq<Record>, i: nat)
    requires i < |rs|
    ensures InState(rs, rs[i].lifecycle) > 0
  {
    if i < |rs| - 1 { InStatePositive(rs[..|rs| - 1], i); }
  }

  lemma {:induction false} OtherIdsLength(cpus: seq<CpuInfo>, n: nat, b: nat)
    requires n <= |cpus|
    ensures |OtherIds(cpus, n, b)| <= if b < n then n - 1 else n
  {
    if n > 0 {
      OtherIdsLength(cpus, n - 1, b);
    }
  }

  lemma {:induction false} OtherIdsHolds(cpus: seq<CpuInfo>, n: nat, b: nat, x: nat)
    requires n <= |cpus|
    ensures x in OtherIds(cpus, n, b) <==> exists j :: 0 <= j < n && j != b && Xapic(cpus[j]) && cpus[j].apicId == x
  {
    if n > 0 {
      OtherIdsHolds(cpus, n - 1, b, x);
    }
  }

  lemma DistinctStep(cpus: seq<CpuInfo>, i: nat, b: nat)
    requires i < |cpus| && b < |cpus|
    ensures DistinctSoFar(cpus, i + 1, b) <==>
            DistinctSoFar(cpus, i, b) &&
            (i != b && Xapic(cpus[i]) ==> cpus[i].apicId !in [cpus[b].apicId] + OtherIds(cpus, i, b))
  {
    OtherIdsHolds(cpus, i, b, cpus[i].apicId);
  }

  lemma {:induction false} DistinctListed(cpus: seq<CpuInfo>, n: nat, b: nat)
    requires n <= |cpus| && b < |cpus|
    ensures Distinct([cpus[b].apicId] + OtherIds(cpus, n, b)) <==> DistinctSoFar(cpus, n, b)
  {
    if n > 0 {
      DistinctListed(cpus, n - 1, b);
      DistinctStep(cpus, n - 1, b);
      var ids := [cpus[b].apicId] + OtherIds(cpus, n - 1, b);
      if n - 1 != b && Xapic(cpus[n - 1]) {
        assert [cpus[b].apicId] + OtherIds(cpus, n, b) == ids + [cpus[n - 1].apicId];
        DistinctAppends(ids, cpus[n - 1].apicId);
      }
    }
  }

  lemma DistinctAtTheEnd(cpus: seq<CpuInfo>, b: nat)
    requires b < |cpus| && Xapic(cpus[b])
    ensures DistinctSoFar(cpus, |cpus|, b) <==> DistinctIds(cpus)
  {
    if DistinctIds(cpus) {
      forall j | 0 <= j < |cpus| && j != b && Xapic(cpus[j]) ensures cpus[j].apicId != cpus[b].apicId {
        if j < b { assert cpus[j].apicId != cpus[b].apicId; } else { assert cpus[b].apicId != cpus[j].apicId; }
      }
    }
  }
}
