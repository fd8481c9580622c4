/**
 From the bytes of the ACPI interrupt table (MADT) to the CPU table: the loop of
 acpi_madt_parse_cpu_entries with its 16-bit counters, and cpu_topology_init after it. The
 layout of the entries is that of section 5.2.12 of the ACPI specification.
 */
module Madt {
  import opened Bytes
  import opened CpuTopology

  const ACPI_MAX_CPUS: nat := 8
  const WRAP: nat := 65536

  /** The value of a 16-bit counter after x increments from zero. */
  function Wrapped(x: nat): (r: nat)
    ensures r < WRAP && (x < WRAP ==> r == x)
  {
    if x < WRAP then x else Wrapped(x - WRAP)
  }

  lemma {:induction false} WrappedIsRemainder(x: nat)
    ensures Wrapped(x) == x % WRAP
  {
    if x >= WRAP {
      WrappedIsRemainder(x - WRAP);
      assert x == (x - WRAP) / WRAP * WRAP + WRAP + (x - WRAP) % WRAP;
    }
  }

  // ----- What the table lists -----

  datatype Listing = Malformed | Listing(cpus: seq<CpuInfo>)

  /** The entry at o has a header, does not run past the end, and is long enough for its type. */
  predicate EntryOk(b: seq<byte>, o: nat) {
    && o + 2 <= |b|
    && 2 <= b[o + 1] && o + b[o + 1] <= |b|
    && (b[o] == 0 ==> b[o + 1] >= 8)
    && (b[o] == 9 ==> b[o + 1] >= 16)
  }

  /** The processor the entry at o describes, if it describes one. */
  function Described(b: seq<byte>, o: nat): seq<CpuInfo>
    requires EntryOk(b, o)
  {
    if b[o] == 0 then [CpuInfo(b[o + 2], b[o + 3], U32(b, o + 4), 0)]
    else if b[o] == 9 then [CpuInfo(U32(b, o + 12), U32(b, o + 4), U32(b, o + 8), 9)]
    else []
  }

  /** The processors described from offset o on, in table order. */
  function ListedFrom(b: seq<byte>, o: nat): Listing
    decreases |b| - o
  {
    if o >= |b| then Listing([])
    else if !EntryOk(b, o) then Malformed
    else
      match ListedFrom(b, o + b[o + 1])
      case Malformed => Malformed
      case Listing(rest) => Listing(Described(b, o) + rest)
  }

  /** Enabled, or may be enabled later. */
  predicate Usable(c: CpuInfo) { c.flags % 4 != 0 }

  function UsableOf(cpus: seq<CpuInfo>): seq<CpuInfo> {
    if cpus == [] then []
    else
      var front, last := UsableOf(cpus[..|cpus| - 1]), cpus[|cpus| - 1];
      if Usable(last) then front + [last] else front
  }

  function X2apics(cpus: seq<CpuInfo>): nat {
    if cpus == [] then 0 else X2apics(cpus[..|cpus| - 1]) + (if Xapic(cpus[|cpus| - 1]) then 0 else 1)
  }

  /** The parser's state for a list of processors: the first usable ones are kept, the others
      counted modulo 2^16. */
  function StateFor(cpus: seq<CpuInfo>, valid: bool): Acpi {
    var usable := UsableOf(cpus);
    Acpi(valid,
         if |usable| <= ACPI_MAX_CPUS then usable else usable[..ACPI_MAX_CPUS],
         Wrapped(|cpus|),
         Wrapped(if |cpus| <= |usable| then 0 else |cpus| - |usable|),
         Wrapped(if |usable| <= ACPI_MAX_CPUS then 0 else |usable| - ACPI_MAX_CPUS),
         Wrapped(X2apics(usable)),
         0)
  }

  /** Adding one to a 16-bit counter. */
  function Inc(x: nat): nat { if x + 1 == WRAP then 0 else x + 1 }

  lemma {:induction false} IncWraps(x: nat)
    ensures Inc(Wrapped(x)) == Wrapped(x + 1)
  {
    if x >= WRAP { IncWraps(x - WRAP); }
  }

  lemma UsableAppends(cpus: seq<CpuInfo>, c: CpuInfo)
    ensures UsableOf(cpus + [c]) == if Usable(c) then UsableOf(cpus) + [c] else UsableOf(cpus)
    ensures X2apics(cpus + [c]) == X2apics(cpus) + if Xapic(c) then 0 else 1
  {
    assert (cpus + [c])[..|cpus|] == cpus;
  }

  lemma {:induction false} UsableLength(cpus: seq<CpuInfo>)
    ensures |UsableOf(cpus)| <= |cpus|
  {
    if cpus != [] { UsableLength(cpus[..|cpus| - 1]); }
  }

  // ----- The parser -----

  lemma NotUsable(before: seq<CpuInfo>, c: CpuInfo)
    requires !Usable(c)
    ensures var s := StateFor(before, false);
            StateFor(before + [c], false) == s.(total := Inc(s.total), disabled := Inc(s.disabled))
  {
    UsableAppends(before, c);
    UsableLength(before);
    IncWraps(|before|);
    IncWraps(|before| - |UsableOf(before)|);
  }

  lemma OneMoreUsable(before: seq<CpuInfo>, c: CpuInfo)
    requires Usable(c)
    ensures var s := StateFor(before, false); var next := StateFor(before + [c], false);
            && next.total == Inc(s.total) && next.disabled == s.disabled && !next.parseValid && next.malformed == 0
            && next.unsupported == if Xapic(c) then s.unsupported else Inc(s.unsupported)
  {
    UsableAppends(before, c);
    UsableAppends(UsableOf(before), c);
    IncWraps(|before|);
    IncWraps(X2apics(UsableOf(before)));
  }

  lemma KeptOrNot(before: seq<CpuInfo>, c: CpuInfo)
    requires Usable(c)
    ensures var s := StateFor(before, false); var next := StateFor(before + [c], false);
            if |s.cpus| >= ACPI_MAX_CPUS
            then next.cpus == s.cpus && next.overflow == Inc(s.overflow)
            else next.cpus == s.cpus + [c] && next.overflow == s.overflow
  {
    UsableAppends(before, c);
    var usable := UsableOf(before);
    if |usable| >= ACPI_MAX_CPUS {
      IncWraps(|usable| - ACPI_MAX_CPUS);
    }
  }

  /** retain_cpu: one more processor entry. */
  method Retain(state: Acpi, c: CpuInfo, ghost before: seq<CpuInfo>) returns (next: Acpi)
    requires state == StateFor(before, false) && (c.entryType == 0 || c.entryType == 9)
    ensures next == StateFor(before + [c], false)
  {
    next := state.(total := Inc(state.total));
    if !Usable(c) {
      NotUsable(before, c);
      next := next.(disabled := Inc(next.disabled));
      return;
    }
    OneMoreUsable(before, c);
    KeptOrNot(before, c);
    if c.entryType == 9 {
      next := next.(unsupported := Inc(next.unsupported));
    }
    if |state.cpus| >= ACPI_MAX_CPUS {
      next := next.(overflow := Inc(next.overflow));
      return;
    }
    next := next.(cpus := next.cpus + [c]);
  }

  /** What was read up to offset o and what is listed after it make up the whole list. */
  ghost predicate Agrees(b: seq<byte>, o: nat, before: seq<CpuInfo>) {
    ListedFrom(b, 0) ==
    match ListedFrom(b, o)
    case Malformed => Malformed
    case Listing(rest) => Listing(before + rest)
  }

  lemma AgreesFurther(b: seq<byte>, o: nat, before: seq<CpuInfo>)
    requires o < |b| && EntryOk(b, o) && Agrees(b, o, before)
    ensures Agrees(b, o + b[o + 1], before + Described(b, o))
  {
    var rest := ListedFrom(b, o + b[o + 1]);
    if rest.Listing? {
      assert before + (Described(b, o) + rest.cpus) == (before + Described(b, o)) + rest.cpus;
    }
  }

  lemma AgreesAtTheEnd(b: seq<byte>, o: nat, before: seq<CpuInfo>)
    requires Agrees(b, o, before)
    ensures o >= |b| ==> ListedFrom(b, 0) == Listing(before)
    ensures o < |b| && !EntryOk(b, o) ==> ListedFrom(b, 0) == Malformed
  {
    assert before + [] == before;
  }

  /** One turn of the loop. */
  method ParseEntry(b: seq<byte>, o: nat, state: Acpi, ghost before: seq<CpuInfo>) returns (ok: bool, next: Acpi)
    requires o < |b| && state == StateFor(before, false)
    ensures ok <==> EntryOk(b, o)
    ensures ok ==> next == StateFor(before + Described(b, o), false)
    ensures !ok ==> next == state
  {
    if |b| - o < 2 {
      return false, state;
    }
    var entryType, length := b[o], b[o + 1];
    if length < 2 || length > |b| - o {
      return false, state;
    }
    if entryType == 0 {
      if length < 8 {
        return false, state;
      }
      next := Retain(state, CpuInfo(b[o + 2], b[o + 3], U32(b, o + 4), 0), before);
    } else if entryType == 9 {
      if length < 16 {
        return false, state;
      }
      next := Retain(state, CpuInfo(U32(b, o + 12), U32(b, o + 4), U32(b, o + 8), 9), before);
    } else {
      next := state;
      assert before + [] == before;
    }
    return true, next;
  }

  /** The loop accepts exactly the regions that are whole lists of entries, and then retains
      and counts what they list. */
  method Parse(b: seq<byte>) returns (ok: bool, state: Acpi)
    ensures ok <==> ListedFrom(b, 0).Listing?
    ensures ok ==> state == StateFor(ListedFrom(b, 0).cpus, true)
    ensures !ok ==> !state.parseValid && state.cpus == [] && state.malformed == 1
  {
    state := Acpi(false, [], 0, 0, 0, 0, 0);
    ghost var before: seq<CpuInfo> := [];
    var o := 0;
    AgreesAtStart(b);
    while o < |b|
      invariant state == StateFor(before, false) && Agrees(b, o, before)
    {
      AgreesAtTheEnd(b, o, before);
      ok, state := ParseEntry(b, o, state, before);
      if !ok {
        return false, state.(cpus := [], malformed := state.malformed + 1);
      }
      AgreesFurther(b, o, before);
      before := before + Described(b, o);
      o := o + b[o + 1];
    }
    AgreesAtTheEnd(b, o, before);
    return true, state.(parseValid := true);
  }

  lemma AgreesAtStart(b: seq<byte>)
    ensures Agrees(b, 0, [])
  {
    if ListedFrom(b, 0).Listing? {
      assert [] + ListedFrom(b, 0).cpus == ListedFrom(b, 0).cpus;
    }
  }

  // ----- Counting -----

  /** Every listed processor takes up at least eight bytes. */
  lemma {:induction false} EightBytesEach(b: seq<byte>, o: nat)
    requires o <= |b| && ListedFrom(b, o).Listing?
    ensures 8 * |ListedFrom(b, o).cpus| <= |b| - o
    decreases |b| - o
  {
    if o < |b| { EightBytesEach(b, o + b[o + 1]); }
  }

  lemma {:induction false} WrapPart(x: nat, y: nat)
    ensures Wrapped(Wrapped(x) + y) == Wrapped(x + y)
  {
    if x >= WRAP { WrapPart(x - WRAP, y); }
  }

  lemma PartsAddUp(disabled: nat, overflow: nat, kept: nat)
    ensures Wrapped(disabled + overflow + kept) == Wrapped(Wrapped(disabled) + Wrapped(overflow) + kept)
  {
    WrapPart(disabled, overflow + kept);
    WrapPart(overflow, Wrapped(disabled) + kept);
  }

  lemma KeptOrCounted(cpus: seq<CpuInfo>)
    ensures var s := StateFor(cpus, true);
            && s.total == Wrapped(|cpus|) == Wrapped(s.disabled + s.overflow + |s.cpus|)
            && (|cpus| < WRAP ==> |cpus| == s.disabled + s.overflow + |s.cpus|)
  {
    UsableLength(cpus);
    var usable := |UsableOf(cpus)|;
    var overflow := if usable <= ACPI_MAX_CPUS then 0 else usable - ACPI_MAX_CPUS;
    PartsAddUp(|cpus| - usable, overflow, usable - overflow);
  }

  /** A completed parse loses no processor: listed = disabled + overflowed + retained, exactly
      in a region of less than 2^19 bytes and modulo 2^16 in any. */
  lemma NothingLost(b: seq<byte>)
    requires ListedFrom(b, 0).Listing?
    ensures var cpus := ListedFrom(b, 0).cpus; var s := StateFor(cpus, true);
            && s.total == Wrapped(|cpus|) == Wrapped(s.disabled + s.overflow + |s.cpus|)
            && (|b| < 524288 ==> s.total == |cpus| == s.disabled + s.overflow + |s.cpus|)
  {
    KeptOrCounted(ListedFrom(b, 0).cpus);
    EightBytesEach(b, 0);
  }

  // ----- Firmware table to CPU table -----

  /** The region lists at most as many usable processors as there is room for, among them the
      bootstrap processor, and no xAPIC id twice. */
  ghost predicate Describes(b: seq<byte>, bsp: nat) {
    && ListedFrom(b, 0).Listing?
    && var usable := UsableOf(ListedFrom(b, 0).cpus);
    |usable| <= ACPI_MAX_CPUS && HasBsp(usable, bsp) && DistinctIds(usable)
  }

  /** What is really decided: the first usable processors are in order and the count of the
      others is a multiple of 2^16. */
  ghost predicate SeemsToDescribe(b: seq<byte>, bsp: nat) {
    && ListedFrom(b, 0).Listing?
    && var s := StateFor(ListedFrom(b, 0).cpus, true);
    s.overflow == 0 && HasBsp(s.cpus, bsp) && DistinctIds(s.cpus)
  }

  /** The table is valid exactly when the region seems to describe one. Then it holds the
      bootstrap processor and after it, in table order, the other xAPIC processors. */
  method Discover(b: seq<byte>, bsp: nat, table: Topology) returns (ok: bool)
    modifies table
    ensures table.Valid() && ok == table.topologyValid
    ensures ok <==> SeemsToDescribe(b, bsp)
    ensures ok ==>
              var cpus := StateFor(ListedFrom(b, 0).cpus, true).cpus;
              exists i :: BspAt(cpus, bsp, i) && Ids(table.records) == [bsp] + OtherIds(cpus, |cpus|, i)
  {
    var parsed, state := Parse(b);
    ok := table.Init(state, bsp);
  }

  /** How many usable processors the region lists. */
  ghost function UsableCount(b: seq<byte>): nat
    requires ListedFrom(b, 0).Listing?
  {
    |UsableOf(ListedFrom(b, 0).cpus)|
  }

  /** The overflow count is zero exactly if nothing usable is dropped or a multiple of 2^16
      entries is. */
  lemma OverflowZeroIff(cpus: seq<CpuInfo>)
    ensures var usable := |UsableOf(cpus)|;
            StateFor(cpus, true).overflow == 0 <==> usable <= ACPI_MAX_CPUS || (usable - ACPI_MAX_CPUS) % WRAP == 0
  {
    var usable := |UsableOf(cpus)|;
    if usable > ACPI_MAX_CPUS { WrappedIsRemainder(usable - ACPI_MAX_CPUS); }
  }

  /** A region is taken for a description and is none exactly if it lists eight usable
      processors in order and after them a positive multiple of 2^16 more. */
  lemma MistakenIff(b: seq<byte>, bsp: nat)
    ensures SeemsToDescribe(b, bsp) && !Describes(b, bsp) <==>
            && ListedFrom(b, 0).Listing? && UsableCount(b) > ACPI_MAX_CPUS
            && (UsableCount(b) - ACPI_MAX_CPUS) % WRAP == 0
            && var first := UsableOf(ListedFrom(b, 0).cpus)[..ACPI_MAX_CPUS];
               HasBsp(first, bsp) && DistinctIds(first)
    ensures Describes(b, bsp) ==> SeemsToDescribe(b, bsp)
  {
    if ListedFrom(b, 0).Listing? { OverflowZeroIff(ListedFrom(b, 0).cpus); }
  }

  /** In a region of less than 524352 bytes, seeming to describe is describing, and nothing
      usable is left out. */
  lemma SmallRegionsDescribe(b: seq<byte>, bsp: nat)
    requires |b| < 8 * (WRAP + ACPI_MAX_CPUS)
    ensures SeemsToDescribe(b, bsp) <==> Describes(b, bsp)
    ensures Describes(b, bsp) ==>
              var cpus := ListedFrom(b, 0).cpus; StateFor(cpus, true).cpus == UsableOf(cpus)
  {
    if ListedFrom(b, 0).Listing? {
      EightBytesEach(b, 0);
      NoneDropped(ListedFrom(b, 0).cpus);
    }
  }

  lemma NoneDropped(cpus: seq<CpuInfo>)
    requires |cpus| < WRAP + ACPI_MAX_CPUS
    ensures StateFor(cpus, true).overflow == 0 <==> |UsableOf(cpus)| <= ACPI_MAX_CPUS
    ensures |UsableOf(cpus)| <= ACPI_MAX_CPUS ==> StateFor(cpus, true).cpus == UsableOf(cpus)
  {
    UsableLength(cpus);
  }

  /** Valid tables mean what they say for all regions of up to n bytes. */
  ghost predicate SoundUpTo(n: nat) {
    forall b, bsp | |b| <= n :: SeemsToDescribe(b, bsp) <==> Describes(b, bsp)
  }

  /** That is so exactly below 524352 bytes, the size of 65544 entries. */
  lemma SoundUpToIff(n: nat)
    ensures SoundUpTo(n) <==> n < 8 * (WRAP + ACPI_MAX_CPUS)
  {
    if n < 8 * (WRAP + ACPI_MAX_CPUS) {
      forall b, bsp | |b| <= n ensures SeemsToDescribe(b, bsp) <==> Describes(b, bsp) {
        SmallRegionsDescribe(b, bsp);
      }
    } else {
      TooManyCpus();
      assert |Rows(WRAP + ACPI_MAX_CPUS)| <= n;
    }
  }

  // ----- A region with too many processors that is taken for a small one -----

  function RowId(i: nat): byte { if i < 8 then i else 255 }

  function Row(i: nat): seq<byte> { [0, 8, 0, RowId(i), 1, 0, 0, 0] }

  /** n enabled xAPIC processors. */
  function Rows(n: nat): (b: seq<byte>)
    ensures |b| == 8 * n
  {
    if n == 0 then [] else Rows(n - 1) + Row(n - 1)
  }

  function RowCpus(i: nat, n: nat): (cpus: seq<CpuInfo>)
    requires i <= n
    ensures |cpus| == n - i && forall k | 0 <= k < n - i :: cpus[k] == CpuInfo(0, RowId(i + k), 1, 0)
  {
    seq(n - i, k requires 0 <= k < n - i => CpuInfo(0, RowId(i + k), 1, 0))
  }

  predicate RowOk(b: seq<byte>, i: nat) {
    && EntryOk(b, 8 * i) && b[8 * i + 1] == 8
    && Described(b, 8 * i) == [CpuInfo(0, RowId(i), 1, 0)]
  }

  lemma {:induction false} RowAt(n: nat, i: nat)
    requires i < n
    ensures Rows(n)[8 * i..8 * i + 8] == Row(i)
  {
    if i < n - 1 {
      RowAt(n - 1, i);
      assert Rows(n)[8 * i..8 * i + 8] == Rows(n - 1)[8 * i..8 * i + 8];
    }
  }

  lemma RowIsOk(b: seq<byte>, i: nat)
    requires 8 * i + 8 <= |b| && b[8 * i..8 * i + 8] == Row(i)
    ensures RowOk(b, i)
  {
    var row := b[8 * i..8 * i + 8];
    assert row[0] == b[8 * i] && row[1] == b[8 * i + 1] && row[2] == b[8 * i + 2] && row[3] == b[8 * i + 3];
    assert row[4] == b[8 * i + 4] && row[5] == b[8 * i + 5] && row[6] == b[8 * i + 6] && row[7] == b[8 * i + 7];
  }

  lemma RowCpusFrom(i: nat, n: nat)
    requires i < n
    ensures RowCpus(i, n) == [CpuInfo(0, RowId(i), 1, 0)] + RowCpus(i + 1, n)
  {
  }

  lemma {:induction false} RowsList(b: seq<byte>, n: nat, i: nat)
    requires i <= n && |b| == 8 * n && forall k | 0 <= k < n :: RowOk(b, k)
    ensures ListedFrom(b, 8 * i) == Listing(RowCpus(i, n))
    decreases n - i
  {
    if i < n {
      assert RowOk(b, i);
      RowsList(b, n, i + 1);
      ListedAfter(b, 8 * i, CpuInfo(0, RowId(i), 1, 0), RowCpus(i + 1, n));
      RowCpusFrom(i, n);
    }
  }

  lemma RowsListed(n: nat)
    ensures ListedFrom(Rows(n), 0) == Listing(RowCpus(0, n))
  {
    forall i | 0 <= i < n ensures RowOk(Rows(n), i) {
      RowAt(n, i);
      RowIsOk(Rows(n), i);
    }
    RowsList(Rows(n), n, 0);
  }

  lemma ListedAfter(b: seq<byte>, o: nat, c: CpuInfo, rest: seq<CpuInfo>)
    requires o < |b| && EntryOk(b, o) && Described(b, o) == [c] && ListedFrom(b, o + b[o + 1]) == Listing(rest)
    ensures ListedFrom(b, o) == Listing([c] + rest)
  {
  }

  lemma {:induction false} AllUsable(cpus: seq<CpuInfo>)
    requires forall c | c in cpus :: Usable(c)
    ensures UsableOf(cpus) == cpus
  {
    if cpus != [] { AllUsable(cpus[..|cpus| - 1]); }
  }

  lemma RowsState(n: nat)
    requires n >= ACPI_MAX_CPUS
    ensures UsableOf(RowCpus(0, n)) == RowCpus(0, n)
    ensures StateFor(RowCpus(0, n), true).overflow == Wrapped(n - ACPI_MAX_CPUS)
    ensures StateFor(RowCpus(0, n), true).cpus == RowCpus(0, ACPI_MAX_CPUS)
  {
    AllUsable(RowCpus(0, n));
    assert RowCpus(0, n)[..ACPI_MAX_CPUS] == RowCpus(0, ACPI_MAX_CPUS);
  }

  /** The counts of a list add up. */
  predicate AddsUp(s: Acpi) { s.total == s.disabled + s.overflow + |s.cpus| }

  /** They do for all regions of up to n bytes. */
  ghost predicate AddUpTo(n: nat) {
    forall b | |b| <= n && ListedFrom(b, 0).Listing? :: AddsUp(StateFor(ListedFrom(b, 0).cpus, true))
  }

  /** That is so exactly below 524288 bytes, the size of 65536 entries. */
  lemma AddUpToIff(n: nat)
    ensures AddUpTo(n) <==> n < 8 * WRAP
  {
    if n < 8 * WRAP {
      forall b | |b| <= n && ListedFrom(b, 0).Listing? ensures AddsUp(StateFor(ListedFrom(b, 0).cpus, true)) {
        NothingLost(b);
      }
    } else {
      var b, cpus := Rows(WRAP), RowCpus(0, WRAP);
      RowsListed(WRAP);
      RowsState(WRAP);
      assert StateFor(cpus, true).total == 0 && !AddsUp(StateFor(cpus, true));
      assert |b| <= n;
    }
  }

  /** The 16-bit overflow counter comes round to zero: 65544 processors, of which 65536 are
      dropped, make a table that counts as valid. */
  lemma TooManyCpus()
    ensures var b := Rows(WRAP + ACPI_MAX_CPUS); SeemsToDescribe(b, 0) && !Describes(b, 0)
  {
    var n := WRAP + ACPI_MAX_CPUS;
    RowsListed(n);
    RowsState(n);
    var kept := RowCpus(0, ACPI_MAX_CPUS);
    assert forall i | 0 <= i < |kept| :: kept[i].apicId == i;
    assert Xapic(kept[0]) && kept[0].apicId == 0;
  }
}
