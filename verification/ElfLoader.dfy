/**
 Loading an ELF program: which load ranges are accepted (kernel/process/userprog64.cpp), how
 the page permissions are computed, and the sequence of mappings by which the loader
 (kernel/core/kernel64_user.cpp) fills the pages and gives them their final permissions.
 */
module ElfLoader {
  import opened Basics

  const PAGE: nat := 4096
  const WRAP: nat := 0x1_0000_0000_0000_0000
  const STACK_PAGES: nat := 4

  /** A program header. */
  datatype Segment = Segment(
    load: bool, offset: nat, vaddr: nat, filesz: nat, memsz: nat, writable: bool, executable: bool)

  predicate SegmentOk(s: Segment) { s.offset < WRAP && s.vaddr < WRAP && s.filesz < WRAP && s.memsz < WRAP }

  /** A segment that takes up memory. */
  predicate Loaded(s: Segment) { s.load && s.memsz > 0 }

  // ----- The load range -----

  /** What the checks on one segment establish. */
  predicate Checked(s: Segment, size: nat) {
    && (s.load && s.memsz == 0 ==> s.filesz == 0)
    && (Loaded(s) ==>
          && s.filesz <= s.memsz && s.offset <= size && (s.offset + s.filesz) % 0x1_0000_0000_0000_0000 <= size
          && s.vaddr + s.memsz < 0x1_0000_0000_0000_0000)
  }

  /** The checks of elf64_collect_load_info, with sums of 64 bits. */
  method CheckSegment(s: Segment, size: nat) returns (ok: bool)
    requires SegmentOk(s)
    ensures ok <==> Checked(s, size)
  {
    if !s.load {
      return true;
    }
    if s.memsz == 0 {
      return s.filesz == 0;
    }
    if s.filesz > s.memsz || s.offset > size || (s.offset + s.filesz) % WRAP > size {
      return false;
    }
    return (s.vaddr + s.memsz) % WRAP >= s.vaddr;
  }

  predicate Inside(s: Segment, first: nat, last: nat) {
    Loaded(s) ==> first <= s.vaddr && s.vaddr + s.memsz <= last
  }

  /** Every loaded segment is in order and lies between first and last. */
  predicate Collected(segments: seq<Segment>, size: nat, first: nat, last: nat) {
    forall s | s in segments :: Checked(s, size) && Inside(s, first, last)
  }

  /** Both bounds are reached. */
  predicate Tight(segments: seq<Segment>, first: nat, last: nat) {
    && (exists s | s in segments :: Loaded(s) && s.vaddr == first)
    && (exists s | s in segments :: Loaded(s) && s.vaddr + s.memsz == last)
  }

  predicate AllChecked(segments: seq<Segment>, size: nat) { forall s | s in segments :: Checked(s, size) }

  predicate EntryIn(segments: seq<Segment>, entry: nat) {
    exists s | s in segments :: Loaded(s) && s.vaddr <= entry < s.vaddr + s.memsz
  }

  /** Succeeds exactly if every segment is in order and one of them holds the entry point; then
      first and last are the bounds of the loaded segments. */
  method CollectLoadInfo(segments: seq<Segment>, size: nat, entry: nat) returns (ok: bool, first: nat, last: nat)
    requires forall s | s in segments :: SegmentOk(s)
    ensures ok <==> AllChecked(segments, size) && EntryIn(segments, entry)
    ensures ok ==> Collected(segments, size, first, last) && Tight(segments, first, last)
  {
    first, last := WRAP - 1, 0;
    var entryCovered, loads := false, 0;
    var i := 0;
    while i < |segments|
      invariant i <= |segments| && Collected(segments[..i], size, first, last)
      invariant if loads == 0 then first == WRAP - 1 && last == 0 else Tight(segments[..i], first, last)
      invariant entryCovered <==> EntryIn(segments[..i], entry)
      invariant entryCovered ==> loads > 0
    {
      var s := segments[i];
      ok := CheckSegment(s, size);
      if !ok {
        assert s in segments;
        return;
      }
      OneMoreSegment(segments[..i], s, size, first, last, entry);
      assert segments[..i + 1] == segments[..i] + [s];
      if Loaded(s) {
        first := if s.vaddr < first then s.vaddr else first;
        last := if s.vaddr + s.memsz > last then s.vaddr + s.memsz else last;
        entryCovered := entryCovered || s.vaddr <= entry < s.vaddr + s.memsz;
        loads := loads + 1;
      }
      i := i + 1;
    }
    assert segments[..i] == segments;
    ok := loads > 0 && entryCovered;
  }

  lemma OneMoreSegment(before: seq<Segment>, s: Segment, size: nat, first: nat, last: nat, entry: nat)
    requires Collected(before, size, first, last) && Checked(s, size) && SegmentOk(s)
    requires (first == WRAP - 1 && last == 0) || Tight(before, first, last)
    ensures var f := if s.vaddr < first then s.vaddr else first;
            var l := if s.vaddr + s.memsz > last then s.vaddr + s.memsz else last;
            if Loaded(s) then Collected(before + [s], size, f, l) && Tight(before + [s], f, l)
            else
              && Collected(before + [s], size, first, last)
              && (Tight(before, first, last) ==> Tight(before + [s], first, last))
    ensures EntryIn(before + [s], entry) <==>
            EntryIn(before, entry) || (Loaded(s) && s.vaddr <= entry < s.vaddr + s.memsz)
  {
    assert forall t :: t in before + [s] <==> t in before || t == s;
    if Tight(before, first, last) {
      var a :| a in before && Loaded(a) && a.vaddr == first;
      var b :| b in before && Loaded(b) && b.vaddr + b.memsz == last;
      assert a in before + [s] && b in before + [s];
    }
    assert s in before + [s];
  }

  /** The range the loader accepts: not empty, no larger than the room below the stack, and
      starting on a page. */
  predicate RangeOk(first: nat, last: nat, room: nat) {
    first < last && last - first <= room && first % 4096 == 0
  }

  function PageCount(first: nat, last: nat): nat
    requires first <= last
  {
    (last - first + PAGE - 1) / PAGE
  }

  function FirstPage(s: Segment, first: nat): nat
    requires first <= s.vaddr
  {
    (s.vaddr - first) / PAGE
  }

  function LastPage(s: Segment, first: nat): nat
    requires first <= s.vaddr && s.memsz > 0
  {
    (s.vaddr - first + s.memsz - 1) / PAGE
  }

  /** In an accepted image every segment's pages and every byte copied from the file are where
      the loader looks for them. */
  lemma SegmentsInRange(segments: seq<Segment>, size: nat, first: nat, last: nat, room: nat, s: Segment)
    requires Collected(segments, size, first, last) && RangeOk(first, last, room)
    requires s in segments && Loaded(s) && size < 0x1_0000_0000 && room < 0x1_0000_0000
    ensures FirstPage(s, first) <= LastPage(s, first) < PageCount(first, last)
    ensures s.offset + s.filesz <= size
  {
    assert Checked(s, size) && Inside(s, first, last);
  }

  // ----- Page permissions -----

  /** A page that is mapped for user programs. */
  datatype Flags = Flags(writable: bool, noExecute: bool)

  predicate Exclusive(f: Flags) { f.writable ==> f.noExecute }

  /** Segment s has a byte on page p of the image. */
  predicate Covers(s: Segment, first: nat, p: nat) {
    first <= s.vaddr && s.vaddr - first < (p + 1) * 4096 && p * 4096 < s.vaddr - first + s.memsz
  }

  lemma CoversIff(s: Segment, first: nat, p: nat)
    requires Loaded(s) && first <= s.vaddr
    ensures Covers(s, first, p) <==> FirstPage(s, first) <= p <= LastPage(s, first)
  {
  }

  predicate WritableAt(segments: seq<Segment>, first: nat, p: nat) {
    exists s | s in segments :: Loaded(s) && s.writable && Covers(s, first, p)
  }

  /** One segment's pages. */
  method MarkPages(flags: array<Flags>, s: Segment, first: nat, ghost before: seq<Segment>)
    requires Loaded(s) && first <= s.vaddr && LastPage(s, first) < flags.Length
    requires forall p | 0 <= p < flags.Length :: flags[p] == Permission(before, first, p)
    modifies flags
    ensures forall p | 0 <= p < flags.Length :: flags[p] == Permission(before + [s], first, p)
  {
    ghost var initial := flags[..];
    var page := FirstPage(s, first);
    while page <= LastPage(s, first)
      invariant FirstPage(s, first) <= page <= LastPage(s, first) + 1
      invariant forall p | 0 <= p < flags.Length ::
                  flags[p] == if FirstPage(s, first) <= p < page && s.writable then Flags(true, true) else initial[p]
    {
      flags[page] := flags[page].(writable := flags[page].writable || s.writable);
      if s.writable {
        flags[page] := flags[page].(noExecute := true);
      }
      page := page + 1;
    }
    forall p | 0 <= p < flags.Length ensures flags[p] == Permission(before + [s], first, p) {
      CoversIff(s, first, p);
      WritableGrows(before, s, first, p);
    }
  }

  /** What a page ends up with: writable pages cannot be executed, all others can. */
  function Permission(segments: seq<Segment>, first: nat, p: nat): Flags {
    var w := WritableAt(segments, first, p); Flags(w, w)
  }

  lemma WritableGrows(before: seq<Segment>, s: Segment, first: nat, p: nat)
    ensures WritableAt(before + [s], first, p) <==>
            WritableAt(before, first, p) || (Loaded(s) && s.writable && Covers(s, first, p))
  {
    if Loaded(s) && s.writable && Covers(s, first, p) { assert s in before + [s]; }
  }

  method PageFlags(segments: seq<Segment>, size: nat, first: nat, last: nat) returns (flags: array<Flags>)
    requires first < last && Collected(segments, size, first, last)
    ensures fresh(flags) && flags.Length == PageCount(first, last)
    ensures forall p | 0 <= p < flags.Length :: flags[p] == Permission(segments, first, p)
  {
    flags := new Flags[PageCount(first, last)](_ => Flags(false, false));
    var i := 0;
    while i < |segments|
      invariant i <= |segments|
      invariant forall p | 0 <= p < flags.Length :: flags[p] == Permission(segments[..i], first, p)
    {
      var s := segments[i];
      assert segments[..i + 1] == segments[..i] + [s];
      assert Checked(s, size) && Inside(s, first, last);
      if s.load && !(s.memsz == 0 && s.filesz == 0) {
        MarkPages(flags, s, first, segments[..i]);
      } else {
        forall p | 0 <= p < flags.Length ensures flags[p] == Permission(segments[..i + 1], first, p) {
          WritableGrows(segments[..i], s, first, p);
        }
      }
      i := i + 1;
    }
    assert segments[..i] == segments;
  }

  predicate ExecutableAt(segments: seq<Segment>, first: nat, p: nat) {
    exists s | s in segments :: Loaded(s) && s.executable && Covers(s, first, p)
  }

  /** Every loaded segment with a byte on the page is read-only data. */
  predicate OnlyConstantsAt(segments: seq<Segment>, first: nat, p: nat) {
    forall s | s in segments && Loaded(s) && Covers(s, first, p) :: !s.writable && !s.executable
  }

  // ----- Mapping -----

  const MAX_REGIONS: nat := 32

  datatype Rights = Rights(write: bool, execute: bool)

  datatype Region = Region(page: nat, count: nat, rights: Rights)

  predicate Contains(r: Region, p: nat, rights: Rights) { r.page <= p < r.page + r.count && r.rights == rights }

  /** Some region grants these rights on page p. */
  predicate Grants(regions: seq<Region>, p: nat, rights: Rights) {
    exists i | 0 <= i < |regions| :: Contains(regions[i], p, rights)
  }

  /** The regions grant on every page what they granted before, and what r grants. */
  ghost predicate GrantsMore(before: seq<Region>, r: Region, after: seq<Region>) {
    forall p: nat, rights :: Grants(after, p, rights) <==> Grants(before, p, rights) || Contains(r, p, rights)
  }

  /** A recorded region of the same rights ends where r starts or starts where r ends. */
  predicate Adjoins(regions: seq<Region>, r: Region) {
    exists i | 0 <= i < |regions| :: Touches(regions[i], r)
  }

  predicate Touches(s: Region, r: Region) {
    s.rights == r.rights && (s.page + s.count == r.page || r.page + r.count == s.page)
  }

  /** A region that adjoins an existing one of the same rights is joined with it. */
  lemma Joins(regions: seq<Region>, i: nat, r: Region, joined: Region)
    requires i < |regions| && regions[i].rights == r.rights == joined.rights
    requires joined.count == regions[i].count + r.count
    requires (regions[i].page + regions[i].count == r.page && joined.page == regions[i].page) ||
             (r.page + r.count == regions[i].page && joined.page == r.page)
    ensures GrantsMore(regions, r, regions[i := joined])
  {
    var after := regions[i := joined];
    forall p: nat, rights ensures Grants(after, p, rights) <==> Grants(regions, p, rights) || Contains(r, p, rights) {
      assert Contains(joined, p, rights) <==> Contains(regions[i], p, rights) || Contains(r, p, rights);
      if Grants(after, p, rights) {
        var k :| 0 <= k < |after| && Contains(after[k], p, rights);
        assert k != i ==> Contains(regions[k], p, rights);
      }
      if Grants(regions, p, rights) {
        var k :| 0 <= k < |regions| && Contains(regions[k], p, rights);
        assert Contains(after[k], p, rights);
      }
      assert Contains(r, p, rights) ==> Contains(after[i], p, rights);
    }
  }

  lemma Appends(regions: seq<Region>, r: Region)
    ensures GrantsMore(regions, r, regions + [r])
  {
    var after := regions + [r];
    forall p: nat, rights ensures Grants(after, p, rights) <==> Grants(regions, p, rights) || Contains(r, p, rights) {
      if Grants(regions, p, rights) {
        var k :| 0 <= k < |regions| && Contains(regions[k], p, rights);
        assert Contains(after[k], p, rights);
      }
      assert Contains(r, p, rights) ==> Contains(after[|regions|], p, rights);
    }
  }

  /** user_region_rights_from_vm_flags. */
  function RightsOf(f: Flags): Rights { Rights(f.writable, !f.noExecute) }

  predicate AllExclusive(pages: map<nat, Flags>) { forall p | p in pages :: Exclusive(pages[p]) }

  predicate NeverBoth(r: Region) { !(r.rights.write && r.rights.execute) }

  /** What calls into the memory manager do: they succeed, or may fail at any time, or no mapping
      call is acknowledged by the other CPUs. */
  datatype Calls = Succeed | MayFail | GoUnanswered

  /** The pages of one program slot. `frames` holds the frame each page is mapped to and `used` the
      frames that are allocated; `history` holds every state the mapping was ever in. */
  class AddressSpace {
    var pages: map<nat, Flags>
    var frames: map<nat, nat>
    var used: set<nat>
    var regions: seq<Region>
    ghost var history: seq<map<nat, Flags>>

    /** No page was ever both writable and executable, and no region is recorded so. */
    ghost predicate Valid()
      reads this
    {
      && history != [] && history[|history| - 1] == pages
      && (forall h | h in history :: AllExclusive(h))
      && |regions| <= 32 && (forall r | r in regions :: !(r.rights.write && r.rights.execute))
      && frames.Keys == pages.Keys && OneToOne(frames)
    }

    /** No mapped page has a frame that was given back, except for this one. */
    ghost predicate OnlyLost(lost: Option<nat>)
      requires Valid()
      reads this
    {
      && (lost.Some? ==> lost.value in pages)
      && forall p | p in pages :: frames[p] !in used <==> lost == Some(p)
    }

    constructor (used: set<nat>)
      ensures Valid() && pages == map[] && regions == [] && this.used == used
    {
      pages, regions, history := map[], [], [map[]];
      frames, this.used := map[], used;
    }

    /** address_space_map_page can fail before it has mapped, and also after it, when the other
        CPUs do not acknowledge the change in time. */
    method MapPage(page: nat, frame: nat, flags: Flags, calls: Calls) returns (ok: bool)
      requires Valid() && Exclusive(flags) && OneToOne(frames[page := frame])
      modifies this`pages, this`frames, this`history
      ensures Valid() && old(history) <= history
      ensures || (pages == old(pages)[page := flags] && frames == old(frames)[page := frame])
              || (!ok && pages == old(pages) && frames == old(frames))
      ensures calls.Succeed? ==> ok
      ensures calls.GoUnanswered? ==> !ok && pages == old(pages)[page := flags]
    {
      ok := false;
      var mapped: bool := *;
      if !calls.MayFail? || mapped {
        assert AllExclusive(pages) by { assert history[|history| - 1] in history; }
        pages, frames := pages[page := flags], frames[page := frame];
        history := history + [pages];
        ok := *;
        ok := calls.Succeed? || (calls.MayFail? && ok);
      }
    }

    /** address_space_add_region: join with the first region that adjoins with the same rights,
        or take a free slot. It fails exactly if gate or lock cannot be had, or no region adjoins
        and the table is full. */
    method AddRegion(region: Region, locked: bool) returns (ok: bool)
      requires Valid() && NeverBoth(region)
      modifies this`regions
      ensures ok <==> locked && (Adjoins(old(regions), region) || |old(regions)| < 32)
      ensures Valid() && (ok ==> GrantsMore(old(regions), region, regions)) && (!ok ==> regions == old(regions))
      ensures |regions| <= |old(regions)| + 1
    {
      if !locked {
        return false;
      }
      ok := true;
      var i := 0;
      while i < |regions|
        invariant i <= |regions| && regions == old(regions) && !Adjoins(regions[..i], region)
      {
        var r := regions[i];
        assert NeverBoth(r);
        if r.page + r.count == region.page && r.rights == region.rights {
          Joins(regions, i, region, Region(r.page, r.count + region.count, r.rights));
          regions := regions[i := Region(r.page, r.count + region.count, r.rights)];
          return;
        }
        if r.page == region.page + region.count && r.rights == region.rights {
          Joins(regions, i, region, Region(region.page, r.count + region.count, r.rights));
          regions := regions[i := Region(region.page, r.count + region.count, r.rights)];
          return;
        }
        i := i + 1;
      }
      if |regions| == MAX_REGIONS {
        return false;
      }
      Appends(regions, region);
      regions := regions + [region];
    }

    /** pmm_alloc_block: a frame that is not in use. */
    method Allocate(calls: Calls) returns (ok: bool, frame: nat)
      requires Valid() && OnlyLost(None)
      modifies this`used
      ensures Valid() && OnlyLost(None) && (!calls.MayFail? ==> ok)
      ensures ok ==> used == old(used) + {frame} && frame !in old(used)
      ensures !ok ==> used == old(used)
    {
      ok := *;
      ok := ok || !calls.MayFail?;
      frame := 0;
      if ok {
        UnusedExists(used);
        frame :| frame !in used;
        used := used + {frame};
      }
    }

    /** One new page. If it cannot be mapped its frame is given back, even if it is mapped. */
    method MapNew(page: nat, calls: Calls) returns (ok: bool, lost: Option<nat>)
      requires Valid() && OnlyLost(None) && page !in pages
      modifies this`pages, this`frames, this`used, this`history
      ensures Valid() && old(history) <= history && OnlyLost(lost)
      ensures pages == old(pages)[page := Flags(true, true)] || (!ok && pages == old(pages))
      ensures lost == if !ok && page in pages then Some(page) else None
      ensures (calls.Succeed? ==> ok) && (calls.GoUnanswered? ==> lost == Some(page))
    {
      lost := None;
      var frame;
      ok, frame := Allocate(calls);
      if !ok {
        return;
      }
      assert forall p | p in frames :: frames[p] != frame;
      OneMoreFrame(frames, page, frame);
      ok := MapPage(page, frame, Flags(true, true), calls);
      if !ok {
        used := used - {frame};
        lost := if page in pages then Some(page) else None;
      }
    }

    /** Writable pages that cannot be executed, for the code to be filled in or for the stack. */
    method MapData(base: nat, count: nat, calls: Calls) returns (ok: bool, lost: Option<nat>)
      requires Valid() && OnlyLost(None) && forall p | base <= p < base + count :: p !in pages
      modifies this`pages, this`frames, this`used, this`history
      ensures Valid() && old(history) <= history && (calls.Succeed? ==> ok)
      ensures OnlyLost(lost) && (ok ==> lost.None?)
      ensures calls.GoUnanswered? && count > 0 ==> lost == Some(base)
      ensures forall p | p in pages :: p in old(pages) || base <= p < base + count
      ensures ok ==> forall p :: p in pages <==> p in old(pages) || base <= p < base + count
      ensures ok ==> forall p | p in pages ::
                pages[p] == if base <= p < base + count then Flags(true, true) else old(pages)[p]
    {
      var i := 0;
      while i < count
        invariant i <= count && Valid() && old(history) <= history
        invariant OnlyLost(None) && (calls.GoUnanswered? ==> i == 0)
        invariant forall p :: p in pages <==> p in old(pages) || base <= p < base + i
        invariant forall p | p in pages :: pages[p] == if base <= p < base + i then Flags(true, true) else old(pages)[p]
      {
        ok, lost := MapNew(base + i, calls);
        if !ok {
          return;
        }
        i := i + 1;
      }
      ok, lost := true, None;
    }

    method MapStack(base: nat, calls: Calls) returns (ok: bool, lost: Option<nat>)
      requires Valid() && OnlyLost(None) && forall p | base <= p < base + STACK_PAGES :: p !in pages
      modifies this
      ensures Valid() && old(history) <= history && |regions| <= |old(regions)| + 1
      ensures OnlyLost(lost) && (ok || calls.Succeed? ==> lost.None?)
      ensures calls.Succeed? && |old(regions)| < MAX_REGIONS ==> ok
      ensures forall p | p in pages :: p in old(pages) || base <= p < base + STACK_PAGES
      ensures ok ==> forall p :: p in pages <==> p in old(pages) || base <= p < base + STACK_PAGES
      ensures ok ==> forall p | p in pages ::
                pages[p] == if base <= p < base + STACK_PAGES then Flags(true, true) else old(pages)[p]
      ensures ok ==> GrantsMore(old(regions), Region(base, STACK_PAGES, Rights(true, false)), regions)
    {
      ok, lost := MapData(base, STACK_PAGES, calls);
      if ok {
        var locked: bool := *;
        ok := AddRegion(Region(base, STACK_PAGES, Rights(true, false)), calls.Succeed? || locked);
      }
    }

    method ProtectPage(page: nat, flags: Flags, calls: Calls) returns (ok: bool)
      requires Valid() && Exclusive(flags) && page in pages
      modifies this`pages, this`frames, this`regions, this`history
      ensures Valid() && old(history) <= history && pages.Keys == old(pages.Keys) && frames == old(frames)
      ensures |regions| <= |old(regions)| + 1 && (calls.Succeed? && |old(regions)| < MAX_REGIONS ==> ok)
      ensures ok ==> pages == old(pages)[page := flags]
      ensures ok ==> GrantsMore(old(regions), Region(page, 1, RightsOf(flags)), regions)
    {
      assert frames[page := frames[page]] == frames;
      ok := MapPage(page, frames[page], flags, calls);
      if ok {
        var locked: bool := *;
        ok := AddRegion(Region(page, 1, RightsOf(flags)), calls.Succeed? || locked);
      }
    }

    /** The final permissions of the code pages, page by page, each recorded in a region. */
    method Protect(base: nat, flags: seq<Flags>, calls: Calls) returns (ok: bool)
      requires Valid() && forall p | 0 <= p < |flags| :: base + p in pages && Exclusive(flags[p])
      modifies this`pages, this`frames, this`regions, this`history
      ensures Valid() && old(history) <= history && pages.Keys == old(pages.Keys) && frames == old(frames)
      ensures ok ==> forall p | p in pages ::
                pages[p] == if base <= p < base + |flags| then flags[p - base] else old(pages)[p]
      ensures ok ==> GrantsPages(old(regions), base, flags, |flags|, regions)
      ensures calls.Succeed? && |old(regions)| + |flags| <= MAX_REGIONS ==> ok
    {
      var i := 0;
      while i < |flags|
        invariant i <= |flags| && Valid() && old(history) <= history
        invariant pages.Keys == old(pages.Keys) && frames == old(frames)
        invariant forall p | p in pages :: pages[p] == if base <= p < base + i then flags[p - base] else old(pages)[p]
        invariant GrantsPages(old(regions), base, flags, i, regions) && |regions| <= |old(regions)| + i
      {
        ghost var mid := regions;
        ok := ProtectPage(base + i, flags[i], calls);
        if !ok {
          return;
        }
        OneMorePage(old(regions), base, flags, i, mid, regions);
        i := i + 1;
      }
      ok := true;
    }

    /** Pages are taken back one by one, and their frames when the other CPUs have acknowledged it;
        a page whose call fails stays, and so does one that the loader did not count. */
    method Cleanup(lost: Option<nat>)
      requires Valid() && OnlyLost(lost)
      modifies this
      ensures Valid() && old(history) <= history && OnlyLost(lost)
      ensures pages.Keys <= old(pages.Keys) && forall p | p in pages :: pages[p] == old(pages)[p]
    {
      var left: set<nat> := if lost.Some? then pages.Keys - {lost.value} else pages.Keys;
      while left != {}
        invariant Valid() && old(history) <= history && OnlyLost(lost) && (lost.Some? ==> lost.value !in left)
        invariant pages.Keys <= old(pages.Keys) && forall p | p in pages :: pages[p] == old(pages)[p]
        decreases left
      {
        var p :| p in left;
        left := left - {p};
        var unmapped: bool := *;
        if unmapped && p in pages {
          Unmap(p, lost);
        }
      }
    }

    method Unmap(page: nat, ghost lost: Option<nat>)
      requires Valid() && OnlyLost(lost) && page in pages && lost != Some(page)
      modifies this
      ensures Valid() && old(history) <= history && OnlyLost(lost)
      ensures pages == old(pages) - {page}
    {
      assert AllExclusive(pages) by { assert history[|history| - 1] in history; }
      var frame := frames[page];
      OneFrameLess(frames, page);
      pages, frames := pages - {page}, frames - {page};
      history := history + [pages];
      var acknowledged: bool := *;
      if acknowledged {
        used := used - {frame};
      }
    }
  }

  /** No two pages have the same frame. */
  predicate OneToOne(m: map<nat, nat>) { forall p, q | p in m && q in m && p != q :: TwoFrames(m, p, q) }

  predicate TwoFrames(m: map<nat, nat>, p: nat, q: nat)
    requires p in m && q in m
  {
    m[p] != m[q]
  }

  lemma OneMoreFrame(m: map<nat, nat>, page: nat, frame: nat)
    requires OneToOne(m) && forall p | p in m :: m[p] != frame
    ensures OneToOne(m[page := frame])
  {
    var more := m[page := frame];
    forall p, q | p in more && q in more && p != q ensures TwoFrames(more, p, q) {
      assert p != page && q != page ==> TwoFrames(m, p, q);
    }
  }

  lemma OneFrameLess(m: map<nat, nat>, page: nat)
    requires OneToOne(m) && page in m
    ensures OneToOne(m - {page}) && forall p | p in m && p != page :: m[p] != m[page]
  {
    forall p, q | p in m - {page} && q in m - {page} && p != q ensures TwoFrames(m - {page}, p, q) {
      assert TwoFrames(m, p, q);
    }
    forall p | p in m && p != page ensures m[p] != m[page] { assert TwoFrames(m, p, page); }
  }

  lemma UnusedExists(used: set<nat>)
    ensures exists f: nat :: f !in used
  {
    var n := Above(used);
    assert n !in used;
  }

  /** A number above all in the set. */
  lemma Above(used: set<nat>) returns (n: nat)
    ensures forall u | u in used :: u < n
    decreases used
  {
    n := 0;
    if u :| u in used {
      var rest := Above(used - {u});
      n := if u < rest then rest else u + 1;
      assert forall v | v in used :: v == u || v in used - {u};
    }
  }

  /** The regions grant what they granted before and, on the first k pages from base, the rights
      of their flags. */
  ghost predicate GrantsPages(before: seq<Region>, base: nat, flags: seq<Flags>, k: nat, after: seq<Region>)
    requires k <= |flags|
  {
    forall p: nat, rights :: Grants(after, p, rights) <==>
      Grants(before, p, rights) || (base <= p < base + k && rights == RightsOf(flags[p - base]))
  }

  lemma OneMorePage(before: seq<Region>, base: nat, flags: seq<Flags>, k: nat, mid: seq<Region>, after: seq<Region>)
    requires k < |flags| && GrantsPages(before, base, flags, k, mid)
    requires GrantsMore(mid, Region(base + k, 1, RightsOf(flags[k])), after)
    ensures GrantsPages(before, base, flags, k + 1, after)
  {
    var r := Region(base + k, 1, RightsOf(flags[k]));
    forall p: nat, rights
      ensures Grants(after, p, rights) <==>
              Grants(before, p, rights) || (base <= p < base + k + 1 && rights == RightsOf(flags[p - base]))
    {
      assert Contains(r, p, rights) <==> p == base + k && rights == RightsOf(flags[k]);
    }
  }

  /** Loading an ELF image into an empty slot. Whatever fails, no page is ever both writable and
      executable. When nothing fails, a code page is writable exactly when a loaded writable
      segment has a byte on it, and cannot be executed exactly then; the stack is writable; the
      recorded regions grant on every page its rights and nothing else; and a code page can be
      executed although no loaded executable segment is on it exactly if there is nothing but
      read-only data on it. When no call fails, an image that passes the checks is loaded, unless it
      has more pages than the table has regions for. In the end a mapped page has a frame that was
      given back exactly if a call that should map a new page has mapped it and failed: that page,
      `lost`, stays mapped. */
  method LoadElf(space: AddressSpace, segments: seq<Segment>, size: nat, entry: nat,
                 codeBase: nat, stackBase: nat, calls: Calls)
    returns (ok: bool, first: nat, last: nat, lost: Option<nat>)
    requires space.Valid() && space.pages == map[] && space.regions == []
    requires (forall s | s in segments :: SegmentOk(s)) && codeBase <= stackBase
    modifies space
    ensures space.Valid() && old(space.history) <= space.history
    ensures space.OnlyLost(lost) && (ok || calls.Succeed? ==> lost.None?)
    ensures calls.GoUnanswered? && Loadable(segments, size, entry, first, last, stackBase - codeBase) ==>
              lost == Some(codeBase)
    ensures !ok ==> space.pages == map[] ||
                    (first < last && WithinSlot(space.pages, PageCount(first, last), codeBase, stackBase))
    ensures AllChecked(segments, size) && EntryIn(segments, entry) ==>
              && Collected(segments, size, first, last) && Tight(segments, first, last)
              && (calls.Succeed? && RangeOk(first, last, (stackBase - codeBase) * 4096) ==>
                    ok || PageCount(first, last) >= 32)
    ensures ok ==> Collected(segments, size, first, last) && Tight(segments, first, last) && EntryIn(segments, entry)
    ensures ok ==> RangeOk(first, last, (stackBase - codeBase) * 4096)
    ensures ok ==> SlotIs(space.pages, segments, first, PageCount(first, last), codeBase, stackBase)
    ensures ok ==> RegionsMatch(space.regions, space.pages)
    ensures ok ==> forall p | 0 <= p < PageCount(first, last) ::
                     && codeBase + p in space.pages
                     && (!space.pages[codeBase + p].noExecute && !ExecutableAt(segments, first, p) <==>
                         OnlyConstantsAt(segments, first, p))
  {
    lost := None;
    var collected;
    collected, first, last := CollectLoadInfo(segments, size, entry);
    if !collected || !(first < last && last - first <= (stackBase - codeBase) * PAGE && first % PAGE == 0) {
      return false, first, last, lost;
    }
    var flags := PageFlags(segments, size, first, last);
    ok, lost := MapAll(space, flags[..], codeBase, stackBase, calls);
    if !ok {
      space.Cleanup(lost);
    } else {
      forall p | 0 <= p < PageCount(first, last)
        ensures !space.pages[codeBase + p].noExecute && !ExecutableAt(segments, first, p) <==>
                OnlyConstantsAt(segments, first, p)
      {
        UnaskedIff(segments, first, p);
      }
    }
  }

  /** The image passes all checks before anything is mapped. */
  predicate Loadable(segments: seq<Segment>, size: nat, entry: nat, first: nat, last: nat, slot: nat) {
    AllChecked(segments, size) && EntryIn(segments, entry) && RangeOk(first, last, slot * 4096)
  }

  lemma UnaskedIff(segments: seq<Segment>, first: nat, p: nat)
    ensures !Permission(segments, first, p).noExecute && !ExecutableAt(segments, first, p) <==>
            OnlyConstantsAt(segments, first, p)
  {
  }

  /** Code on the first page and constants on the second. */
  function ConstantsImage(): seq<Segment> {
    [Segment(true, 0, 0, 4096, 4096, false, true), Segment(true, 4096, 4096, 4096, 4096, false, false)]
  }

  lemma ConstantsImageOk()
    ensures AllChecked(ConstantsImage(), 8192) && EntryIn(ConstantsImage(), 0)
    ensures forall s | s in ConstantsImage() :: SegmentOk(s)
    ensures OnlyConstantsAt(ConstantsImage(), 0, 1)
  {
    assert ConstantsImage()[0] in ConstantsImage();
  }

  lemma ConstantsBounds(first: nat, last: nat)
    requires Tight(ConstantsImage(), first, last) && Collected(ConstantsImage(), 8192, first, last)
    ensures first == 0 && last == 8192
  {
    var code, constants := ConstantsImage()[0], ConstantsImage()[1];
    assert code in ConstantsImage() && constants in ConstantsImage();
    assert Inside(code, first, last) && Inside(constants, first, last);
  }

  /** Loading that image maps its two pages for execution, the one of constants too, and four stack
      pages for writing, and nothing else; when no call fails it is loaded. */
  method ConstantsAreExecutable(space: AddressSpace, codeBase: nat, stackBase: nat, calls: Calls) returns (ok: bool)
    requires space.Valid() && space.pages == map[] && space.regions == [] && codeBase + 2 <= stackBase
    modifies space
    ensures calls.Succeed? ==> ok
    ensures ok ==> forall p :: p in space.pages <==> codeBase <= p < codeBase + 2 || stackBase <= p < stackBase + 4
    ensures ok ==> forall p | p in space.pages ::
                     space.pages[p] == if p < codeBase + 2 then Flags(false, false) else Flags(true, true)
    ensures ok ==> forall p, rights | p in space.pages ::
                     Grants(space.regions, p, rights) <==>
                     rights == if p < codeBase + 2 then Rights(false, true) else Rights(true, false)
    ensures !ExecutableAt(ConstantsImage(), 0, 1)
  {
    ConstantsImageOk();
    var first, last;
    ghost var lost;
    ok, first, last, lost := LoadElf(space, ConstantsImage(), 8192, 0, codeBase, stackBase, calls);
    ConstantsBounds(first, last);
    assert (stackBase - codeBase) * PAGE >= 8192;
    assert forall p :: !WritableAt(ConstantsImage(), 0, p);
    assert forall s | s in ConstantsImage() && s.executable :: s == ConstantsImage()[0];
  }

  /** Only pages of the slot are mapped. */
  predicate WithinSlot(pages: map<nat, Flags>, count: nat, codeBase: nat, stackBase: nat) {
    forall p | p in pages :: codeBase <= p < codeBase + count || stackBase <= p < stackBase + 4
  }

  /** The pages of the slot after loading: the code with its permissions, the stack, and no
      others. */
  ghost predicate SlotIs(pages: map<nat, Flags>, segments: seq<Segment>, first: nat, count: nat, codeBase: nat,
                         stackBase: nat)
  {
    && (forall p :: p in pages <==> codeBase <= p < codeBase + count || stackBase <= p < stackBase + 4)
    && (forall p | p in pages ::
          pages[p] == if codeBase <= p < codeBase + count then Permission(segments, first, p - codeBase)
                      else Flags(true, true))
  }

  /** The regions grant exactly the rights of the pages. */
  ghost predicate RegionsMatch(regions: seq<Region>, pages: map<nat, Flags>) {
    forall p: nat, rights :: Grants(regions, p, rights) <==> p in pages && rights == RightsOf(pages[p])
  }

  /** All pages of the slot, writable. */
  method MapPages(space: AddressSpace, count: nat, codeBase: nat, stackBase: nat, calls: Calls)
    returns (ok: bool, lost: Option<nat>)
    requires space.Valid() && space.pages == map[] && space.regions == [] && codeBase + count <= stackBase
    modifies space
    ensures space.Valid() && old(space.history) <= space.history && |space.regions| <= 1
    ensures space.OnlyLost(lost) && (ok || calls.Succeed? ==> lost.None?) && (calls.Succeed? ==> ok)
    ensures calls.GoUnanswered? && count > 0 ==> lost == Some(codeBase)
    ensures WithinSlot(space.pages, count, codeBase, stackBase)
    ensures ok ==> forall p :: p in space.pages <==>
              codeBase <= p < codeBase + count || stackBase <= p < stackBase + STACK_PAGES
    ensures ok ==> forall p | p in space.pages :: space.pages[p] == Flags(true, true)
    ensures ok ==> GrantsMore([], Region(stackBase, STACK_PAGES, Rights(true, false)), space.regions)
  {
    ok, lost := space.MapData(codeBase, count, calls);
    if ok {
      ok, lost := space.MapStack(stackBase, calls);
    }
  }

  method MapAll(space: AddressSpace, flags: seq<Flags>, codeBase: nat, stackBase: nat, calls: Calls)
    returns (ok: bool, lost: Option<nat>)
    requires space.Valid() && space.pages == map[] && space.regions == []
    requires codeBase + |flags| <= stackBase && forall p | 0 <= p < |flags| :: Exclusive(flags[p])
    modifies space
    ensures space.Valid() && old(space.history) <= space.history
    ensures space.OnlyLost(lost) && (ok || calls.Succeed? ==> lost.None?)
    ensures calls.GoUnanswered? && flags != [] ==> lost == Some(codeBase)
    ensures WithinSlot(space.pages, |flags|, codeBase, stackBase)
    ensures ok ==> forall p :: p in space.pages <==>
              codeBase <= p < codeBase + |flags| || stackBase <= p < stackBase + STACK_PAGES
    ensures ok ==> forall p | p in space.pages ::
                     space.pages[p] == if p < codeBase + |flags| then flags[p - codeBase] else Flags(true, true)
    ensures ok ==> RegionsMatch(space.regions, space.pages)
    ensures calls.Succeed? && |flags| < MAX_REGIONS ==> ok
  {
    ok, lost := MapPages(space, |flags|, codeBase, stackBase, calls);
    if !ok {
      return;
    }
    ghost var withStack := space.regions;
    ok := space.Protect(codeBase, flags, calls);
    if ok {
      RegionsAgree(withStack, space.regions, space.pages, flags, codeBase, stackBase);
    }
  }

  lemma RegionsAgree(withStack: seq<Region>, regions: seq<Region>, pages: map<nat, Flags>, flags: seq<Flags>,
                     codeBase: nat, stackBase: nat)
    requires GrantsMore([], Region(stackBase, STACK_PAGES, Rights(true, false)), withStack)
    requires GrantsPages(withStack, codeBase, flags, |flags|, regions) && codeBase + |flags| <= stackBase
    requires forall p :: p in pages <==> codeBase <= p < codeBase + |flags| || stackBase <= p < stackBase + STACK_PAGES
    requires forall p | p in pages ::
               pages[p] == if p < codeBase + |flags| then flags[p - codeBase] else Flags(true, true)
    ensures RegionsMatch(regions, pages)
  {
    forall p: nat, rights ensures Grants(regions, p, rights) <==> p in pages && rights == RightsOf(pages[p]) {
      assert !Grants([], p, rights);
      assert Grants(withStack, p, rights) <==> Contains(Region(stackBase, STACK_PAGES, Rights(true, false)), p, rights);
    }
  }

  /** Loading a flat program of one page: readable and executable in the end, beside the stack
      and nothing else. */
  method LoadFlat(space: AddressSpace, codeBase: nat, stackBase: nat, calls: Calls)
    returns (ok: bool, lost: Option<nat>)
    requires space.Valid() && space.pages == map[] && space.regions == [] && codeBase < stackBase
    modifies space
    ensures space.Valid() && old(space.history) <= space.history
    ensures ok ==> SlotIs(space.pages, [], 0, 1, codeBase, stackBase) && RegionsMatch(space.regions, space.pages)
    ensures ok ==> codeBase in space.pages && space.pages[codeBase] == Flags(false, false)
    ensures !ok ==> WithinSlot(space.pages, 1, codeBase, stackBase)
    ensures space.OnlyLost(lost) && (ok ==> lost.None?) && (calls.GoUnanswered? ==> lost == Some(codeBase))
    ensures calls.Succeed? ==> ok
  {
    ok, lost := MapAll(space, [Flags(false, false)], codeBase, stackBase, calls);
    if !ok {
      space.Cleanup(lost);
    }
  }
}
