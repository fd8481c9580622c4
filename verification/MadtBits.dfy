/**
 What the firmware parser makes of a region, said by the bytes of the region alone: the lengths
 and types of its entries, the two flag bits of each processor, and its ids.
 */
module MadtBits {
  import opened Bytes
  import opened CpuTopology
  import opened Madt

  /** The length byte fits the type and the region. */
  predicate WholeEntry(b: seq<byte>, o: nat) {
    && o + 2 <= |b| && 2 <= b[o + 1] && o + b[o + 1] <= |b|
    && (b[o] == 0 ==> 8 <= b[o + 1]) && (b[o] == 9 ==> 16 <= b[o + 1])
  }

  /** The region is a whole list of entries from o on. */
  predicate WholeList(b: seq<byte>, o: nat)
    decreases |b| - o
  {
    o >= |b| || (WholeEntry(b, o) && WholeList(b, o + b[o + 1]))
  }

  /** A processor entry with bit 0 or bit 1 of its flags set. The lowest byte of the flags is byte
      4 of an entry of type 0 and byte 8 of one of type 9. */
  predicate BitSet(b: seq<byte>, o: nat)
    requires WholeEntry(b, o)
  {
    || (b[o] == 0 && (b[o + 4] as int % 2 == 1 || b[o + 4] as int / 2 % 2 == 1))
    || (b[o] == 9 && (b[o + 8] as int % 2 == 1 || b[o + 8] as int / 2 % 2 == 1))
  }

  /** Four bytes, the lowest first. */
  function Word(b: seq<byte>, o: nat): nat
    requires o + 4 <= |b|
  {
    b[o] as int + 0x100 * b[o + 1] as int + 0x10000 * b[o + 2] as int + 0x1000000 * b[o + 3] as int
  }

  /** The ACPI and APIC ids in a processor entry: bytes 2 and 3, or the words at 12 and 4. */
  function IdsAt(b: seq<byte>, o: nat): (nat, nat)
    requires WholeEntry(b, o) && (b[o] == 0 || b[o] == 9)
  {
    if b[o] == 0 then (b[o + 2], b[o + 3]) else (Word(b, o + 12), Word(b, o + 4))
  }

  /** The ids of the processors with a bit set, in table order. */
  function IdsFrom(b: seq<byte>, o: nat): seq<(nat, nat)>
    requires WholeList(b, o)
    decreases |b| - o
  {
    if o >= |b| then []
    else (if BitSet(b, o) then [IdsAt(b, o)] else []) + IdsFrom(b, o + b[o + 1])
  }

  /** How many processor entries there are, ... */
  function Processors(b: seq<byte>, o: nat): nat
    requires WholeList(b, o)
    decreases |b| - o
  {
    if o >= |b| then 0 else (if b[o] == 0 || b[o] == 9 then 1 else 0) + Processors(b, o + b[o + 1])
  }

  /** ... how many have both bits clear, ... */
  function Clear(b: seq<byte>, o: nat): nat
    requires WholeList(b, o)
    decreases |b| - o
  {
    if o >= |b| then 0
    else (if (b[o] == 0 || b[o] == 9) && !BitSet(b, o) then 1 else 0) + Clear(b, o + b[o + 1])
  }

  /** ... and how many of type 9 have one set. */
  function Wide(b: seq<byte>, o: nat): nat
    requires WholeList(b, o)
    decreases |b| - o
  {
    if o >= |b| then 0 else (if b[o] == 9 && BitSet(b, o) then 1 else 0) + Wide(b, o + b[o + 1])
  }

  // ----- The parser agrees -----

  function IdsOf(cpus: seq<CpuInfo>): seq<(nat, nat)> {
    seq(|cpus|, i requires 0 <= i < |cpus| => (cpus[i].acpiId, cpus[i].apicId))
  }

  lemma {:induction false} UsableParts(a: seq<CpuInfo>, b: seq<CpuInfo>)
    ensures UsableOf(a + b) == UsableOf(a) + UsableOf(b)
    decreases |b|
  {
    if b == [] {
      assert a + b == a;
    } else {
      var front, last := b[..|b| - 1], b[|b| - 1];
      assert a + b == (a + front) + [last];
      UsableParts(a, front);
      UsableAppends(a + front, last);
      UsableAppends(front, last);
      assert front + [last] == b;
    }
  }

  lemma {:induction false} WideParts(a: seq<CpuInfo>, b: seq<CpuInfo>)
    ensures X2apics(a + b) == X2apics(a) + X2apics(b)
    decreases |b|
  {
    if b == [] {
      assert a + b == a;
    } else {
      var front, last := b[..|b| - 1], b[|b| - 1];
      assert a + b == (a + front) + [last];
      WideParts(a, front);
      UsableAppends(a + front, last);
      UsableAppends(front, last);
      assert front + [last] == b;
    }
  }

  lemma FlagBits(flags: nat, low: byte)
    requires flags % 256 == low
    ensures flags % 4 == 0 <==> low as int % 2 == 0 && low as int / 2 % 2 == 0
  {
    assert flags == 4 * (64 * (flags / 256)) + low;
    assert flags % 4 == low as int % 4;
  }

  /** One entry. */
  lemma EntryBits(b: seq<byte>, o: nat)
    requires o < |b| && WholeEntry(b, o)
    ensures EntryOk(b, o)
    ensures var here := Described(b, o); var usable := UsableOf(here);
            && |here| == (if b[o] == 0 || b[o] == 9 then 1 else 0)
            && IdsOf(usable) == (if BitSet(b, o) then [IdsAt(b, o)] else [])
            && X2apics(usable) == (if b[o] == 9 && BitSet(b, o) then 1 else 0)
  {
    var here := Described(b, o);
    if b[o] == 0 || b[o] == 9 {
      var low := if b[o] == 0 then o + 4 else o + 8;
      FlagBits(U32(b, low), b[low]);
      UsableAppends([], here[0]);
      assert here == [] + here && [] + [here[0]] == here;
    }
  }

  lemma {:induction false} WholeIff(b: seq<byte>, o: nat)
    ensures WholeList(b, o) <==> ListedFrom(b, o).Listing?
    decreases |b| - o
  {
    if o < |b| && EntryOk(b, o) { WholeIff(b, o + b[o + 1]); }
  }

  /** The processors listed from o on are those of the bytes. */
  predicate Agreed(b: seq<byte>, o: nat, cpus: seq<CpuInfo>)
    requires WholeList(b, o)
  {
    var usable := UsableOf(cpus);
    && |cpus| == Processors(b, o) && |cpus| == |usable| + Clear(b, o)
    && IdsOf(usable) == IdsFrom(b, o) && X2apics(usable) == Wide(b, o)
  }

  lemma {:induction false} ListBits(b: seq<byte>, o: nat)
    requires WholeList(b, o)
    ensures ListedFrom(b, o).Listing? && Agreed(b, o, ListedFrom(b, o).cpus)
    decreases |b| - o
  {
    WholeIff(b, o);
    if o < |b| {
      ListBits(b, o + b[o + 1]);
      OneMoreEntry(b, o, ListedFrom(b, o + b[o + 1]).cpus);
    }
  }

  lemma OneMoreEntry(b: seq<byte>, o: nat, rest: seq<CpuInfo>)
    requires o < |b| && WholeList(b, o) && Agreed(b, o + b[o + 1], rest)
    ensures EntryOk(b, o) && Agreed(b, o, Described(b, o) + rest)
  {
    EntryBits(b, o);
    Together(Described(b, o), rest);
    assert |IdsOf(UsableOf(Described(b, o)))| == |UsableOf(Described(b, o))|;
  }

  lemma Together(here: seq<CpuInfo>, rest: seq<CpuInfo>)
    ensures |UsableOf(here + rest)| == |UsableOf(here)| + |UsableOf(rest)|
    ensures IdsOf(UsableOf(here + rest)) == IdsOf(UsableOf(here)) + IdsOf(UsableOf(rest))
    ensures X2apics(UsableOf(here + rest)) == X2apics(UsableOf(here)) + X2apics(UsableOf(rest))
  {
    UsableParts(here, rest);
    WideParts(UsableOf(here), UsableOf(rest));
  }

  /** Parsing a region. It succeeds exactly on a whole list of entries. Then the processors with a
      flag bit set are kept in order, up to eight, and counted as overflow after that; those with
      both bits clear are counted as disabled. All counts are modulo 2^16. */
  method ParseRegion(b: seq<byte>) returns (ok: bool, state: Acpi)
    ensures ok <==> WholeList(b, 0)
    ensures ok ==>
              var ids := IdsFrom(b, 0);
              && state.parseValid && IdsOf(state.cpus) == (if |ids| <= 8 then ids else ids[..8])
              && state.overflow == (if |ids| <= 8 then 0 else (|ids| - 8) % 65536)
              && state.disabled == Clear(b, 0) % 65536 && state.total == Processors(b, 0) % 65536
              && state.unsupported == Wide(b, 0) % 65536 && state.malformed == 0
  {
    ok, state := Parse(b);
    WholeIff(b, 0);
    if ok {
      ListBits(b, 0);
      ghost var cpus := ListedFrom(b, 0).cpus;
      ghost var usable := UsableOf(cpus);
      assert |IdsOf(usable)| == |usable|;
      WrappedIsRemainder(|cpus|);
      WrappedIsRemainder(|cpus| - |usable|);
      WrappedIsRemainder(X2apics(usable));
      if |usable| > 8 { WrappedIsRemainder(|usable| - 8); }
    }
  }

  /** Two processors of type 0, and one of type 9 between them that has no place in the table. */
  function ThreeProcessors(x: byte, y: byte, f: byte, g: byte): seq<byte> {
    [0, 8, 7, x, f, 0, 0, 0] +
    [9, 16, 0, 0, 1, 2, 3, 4, 1, 0, 0, 0, 5, 6, 7, 8] +
    [0, 8, 9, y, g, 0, 0, 0]
  }

  function ThreeCpus(x: byte, y: byte, f: byte, g: byte): seq<CpuInfo> {
    [CpuInfo(7, x, f, 0), CpuInfo(0x8070605, 0x4030201, 1, 9), CpuInfo(9, y, g, 0)]
  }

  lemma ThreeDescribed(x: byte, y: byte, f: byte, g: byte)
    ensures var b, cpus := ThreeProcessors(x, y, f, g), ThreeCpus(x, y, f, g);
            && EntryOk(b, 0) && EntryOk(b, 8) && EntryOk(b, 24) && ListedFrom(b, 32) == Listing([])
            && Described(b, 0) == [cpus[0]] && Described(b, 8) == [cpus[1]] && Described(b, 24) == [cpus[2]]
  {
  }

  lemma ThreeListed(x: byte, y: byte, f: byte, g: byte)
    ensures ListedFrom(ThreeProcessors(x, y, f, g), 0) == Listing(ThreeCpus(x, y, f, g))
  {
    var b, cpus := ThreeProcessors(x, y, f, g), ThreeCpus(x, y, f, g);
    ThreeDescribed(x, y, f, g);
    ListedAfter(b, 24, cpus[2], []);
    ListedAfter(b, 8, cpus[1], [cpus[2]]);
    ListedAfter(b, 0, cpus[0], [cpus[1], cpus[2]]);
  }

  /** From that region, with any flags that have one of the two bits set and the second processor
      of type 0 as the bootstrap processor, the table lists that one before the first. */
  method DiscoverThree(x: byte, y: byte, f: byte, g: byte, table: Topology) returns (ok: bool)
    requires x != y && f % 4 != 0 && g % 4 != 0
    modifies table
    ensures ok && Ids(table.records) == [y as nat, x as nat]
  {
    ghost var cpus := ThreeCpus(x, y, f, g);
    ThreeListed(x, y, f, g);
    AllUsable(cpus);
    assert HasBsp(cpus, y) by { assert cpus[2].apicId == y; }
    ok := Discover(ThreeProcessors(x, y, f, g), y, table);
    assert BspAt(cpus, y, 2);
    assert forall i | BspAt(cpus, y, i) :: i == 2;
    OthersOfThree(cpus);
  }

  lemma OthersOfThree(cpus: seq<CpuInfo>)
    requires |cpus| == 3 && Xapic(cpus[0]) && !Xapic(cpus[1])
    ensures OtherIds(cpus, 3, 2) == [cpus[0].apicId]
  {
    assert OtherIds(cpus, 1, 2) == OtherIds(cpus, 0, 2) + [cpus[0].apicId];
    assert OtherIds(cpus, 2, 2) == OtherIds(cpus, 1, 2);
    assert OtherIds(cpus, 3, 2) == OtherIds(cpus, 2, 2);
  }
}
