/**
 A FAT32 root directory: the groups of entries the builder writes, one for each file, and the
 scan by which the kernel's driver finds the n-th visible file.
 */
module FatDirectory {
  import opened Bytes
  import opened FatNames

  datatype File = File(name: Name, data: seq<byte>)

  type Entry = seq<byte>

  // ----- One entry -----

  predicate IsLongName(e: Entry)
    requires |e| == 32
  {
    e[11] == 0x0F
  }

  predicate IsLabel(e: Entry)
    requires |e| == 32
  {
    e[11] as int / 8 % 2 == 1
  }

  predicate IsDotName(e: Entry)
    requires |e| == 32
  {
    e[0] == DOT && (e[1] == SPACE || (e[1] == DOT && e[2] == SPACE))
  }

  /** An entry the scan counts. */
  predicate Visible(e: Entry)
    requires |e| == 32
  {
    e[0] != 0xE5 && !IsLongName(e) && !IsLabel(e) && !IsDotName(e)
  }

  /** The part of s before the first space. */
  function BeforeSpace(s: seq<byte>): seq<byte> {
    if s == [] || s[0] == SPACE then [] else [s[0]] + BeforeSpace(s[1..])
  }

  /** dir_entry_name. */
  function ShortName(e: Entry): seq<byte>
    requires |e| == 32
  {
    BeforeSpace(e[..8]) + (if e[8..11] == [SPACE, SPACE, SPACE] then [] else [DOT] + BeforeSpace(e[8..11]))
  }

  // ----- The scan -----

  /** What read_dir_entry_internal carries from entry to entry. */
  datatype Scan = Scan(seen: nat, buffer: seq<byte>, active: bool, sum: byte)

  predicate ScanOk(s: Scan) { |s.buffer| == NAME_CAPACITY }

  function Reset(s: Scan): Scan
    requires ScanOk(s)
  {
    s.(buffer := s.buffer[0 := 0], active := false)
  }

  /** One long-name entry: it starts a name if it is marked as the last chunk or does not go
      with what was collected, and then adds its characters. */
  function NextLong(s: Scan, e: Entry): Scan
    requires ScanOk(s) && |e| == 32
  {
    var t := if e[0] as int / 64 % 2 == 1 || !s.active || e[13] != s.sum
             then Scan(s.seen, s.buffer[0 := 0], true, e[13]) else s;
    t.(buffer := Collected(t.buffer, e))
  }

  function Next(s: Scan, e: Entry): (r: Scan)
    requires ScanOk(s) && |e| == 32
    ensures ScanOk(r)
  {
    if e[0] == 0xE5 then Reset(s)
    else if IsLongName(e) then NextLong(s, e)
    else if IsLabel(e) || IsDotName(e) then Reset(s)
    else Reset(s.(seen := s.seen + 1))
  }

  /** The name reported for a visible entry. */
  function NameFor(s: Scan, e: Entry): seq<byte>
    requires ScanOk(s) && |e| == 32
  {
    if s.active && s.buffer[0] != 0 && Checksum(e[..11], 11) == s.sum
    then Prefix(CString(s.buffer), NAME_CAPACITY - 1)
    else ShortName(e)
  }

  datatype Lookup = NotFound | Unreadable | Found(name: seq<byte>, entry: Entry)

  predicate EntriesOk(dir: seq<Entry>) { forall k | 0 <= k < |dir| :: |dir[k]| == 32 }

  /** The visible entry number `target`, when the scan stands at entry k in state s. It is
      unreadable if the scan runs out of entries. */
  function ScanFrom(dir: seq<Entry>, k: nat, s: Scan, target: nat): Lookup
    requires EntriesOk(dir) && ScanOk(s)
    decreases |dir| - k
  {
    if k >= |dir| then Unreadable
    else if dir[k][0] == 0 then NotFound
    else if Visible(dir[k]) && s.seen == target then Found(NameFor(s, dir[k]), dir[k])
    else ScanFrom(dir, k + 1, Next(s, dir[k]), target)
  }

  /** An entry that is not deleted, not part of a long name, not a volume label and not one of the
      two dot names. */
  predicate Counted(e: Entry)
    requires |e| == 32
  {
    && e[0] != 0xE5 && e[11] != 0x0F && e[11] as int % 16 < 8
    && e[..2] != Codes(". ") && e[..3] != Codes(".. ")
  }

  function CountedIn(dir: seq<Entry>, i: nat, j: nat): nat
    requires i <= j <= |dir| && EntriesOk(dir)
    decreases j - i
  {
    if i == j then 0 else (if Counted(dir[i]) then 1 else 0) + CountedIn(dir, i + 1, j)
  }

  /** The entries from i up to j go on. */
  predicate GoesOn(dir: seq<Entry>, i: nat, j: nat)
    requires i <= j <= |dir| && EntriesOk(dir)
  {
    forall k | i <= k < j :: dir[k][0] != 0
  }

  lemma VisibleIff(e: Entry)
    requires |e| == 32
    ensures Visible(e) <==> Counted(e)
  {
    assert e[..2] == Codes(". ") <==> e[0] == 46 && e[1] == 32;
    assert e[..3] == Codes(".. ") <==> e[0] == 46 && e[1] == 46 && e[2] == 32;
  }

  /** In any directory, whoever made it: the scan stops at the entry before which so many are
      counted, at an end mark before that, or where the entries run out. */
  lemma {:induction false} ScanStopsAt(dir: seq<Entry>, k: nat, s: Scan, target: nat) returns (j: nat)
    requires EntriesOk(dir) && ScanOk(s) && k <= |dir| && s.seen <= target
    ensures k <= j <= |dir| && GoesOn(dir, k, j)
    ensures match ScanFrom(dir, k, s, target)
            case Found(_, e) =>
              j < |dir| && dir[j] == e && e[0] != 0 && Counted(e) && s.seen + CountedIn(dir, k, j) == target
            case NotFound => j < |dir| && dir[j][0] == 0 && s.seen + CountedIn(dir, k, j) <= target
            case Unreadable => j == |dir| && s.seen + CountedIn(dir, k, j) <= target
    decreases |dir| - k
  {
    j := k;
    if k < |dir| {
      VisibleIff(dir[k]);
      if dir[k][0] != 0 && !(Visible(dir[k]) && s.seen == target) {
        j := ScanStopsAt(dir, k + 1, Next(s, dir[k]), target);
      }
    }
  }

  lemma {:induction false} NoSpaces(s: seq<byte>, rest: seq<byte>)
    requires SPACE !in s && (rest == [] || rest[0] == SPACE)
    ensures BeforeSpace(s + rest) == s
  {
    if s == [] {
      assert s + rest == rest;
    } else {
      NoSpaces(s[1..], rest);
      assert (s + rest)[1..] == s[1..] + rest;
    }
  }

  /** The name of an entry without a long name. */
  lemma ShortNameIs(e: Entry, stem: seq<byte>, ext: seq<byte>)
    requires |e| == 32 && |stem| <= 8 && |ext| <= 3 && 32 !in stem && 32 !in ext
    requires e[..8] == stem + seq(8 - |stem|, _ => 32) && e[8..11] == ext + seq(3 - |ext|, _ => 32)
    ensures ShortName(e) == if ext == [] then stem else stem + [46] + ext
  {
    NoSpaces(stem, seq(8 - |stem|, _ => 32));
    NoSpaces(ext, seq(3 - |ext|, _ => 32));
    if ext != [] {
      assert e[8..11][0] == ext[0] && ext[0] in ext;
    }
  }

  // ----- The builder's directory -----

  /** A short entry the scan counts. */
  predicate ShortOk(e: Entry) {
    |e| == 32 && Printable(e[0]) && e[11] == 0x20
  }

  predicate HoldsNameAt(dir: seq<Entry>, k: nat, n: Name, checksum: byte) {
    && k + ChunkCount(n) <= |dir|
    && forall i | k <= i < k + ChunkCount(n) :: ChunkAt(dir, k, n, checksum, i)
  }

  /** Entry i belongs to the long name that starts at entry k. */
  predicate ChunkAt(dir: seq<Entry>, k: nat, n: Name, checksum: byte, i: nat)
    requires k <= i < k + ChunkCount(n) <= |dir|
  {
    HoldsChunk(dir[i], n, ChunkCount(n) - 1 - (i - k), checksum)
  }

  /** The entries of one file stand at k. */
  predicate GroupAt(dir: seq<Entry>, k: nat, n: Name, short: Entry) {
    && k + ChunkCount(n) < |dir| && ShortOk(short)
    && HoldsNameAt(dir, k, n, Checksum(short[..11], 11))
    && dir[k + ChunkCount(n)] == short
  }

  /** How many entries the first i files take. */
  function EntriesBefore(files: seq<File>, i: nat): nat
    requires i <= |files|
  {
    if i == 0 then 0 else EntriesBefore(files, i - 1) + ChunkCount(files[i - 1].name) + 1
  }

  predicate NamesFit(files: seq<File>) { forall f | f in files :: NameFits(f.name) }

  predicate NamesOk(files: seq<File>) { forall f | f in files :: NameOk(f.name) }

  predicate GroupOf(dir: seq<Entry>, files: seq<File>, shorts: seq<Entry>, i: nat)
    requires i < |files| && i < |shorts|
  {
    GroupAt(dir, EntriesBefore(files, i), files[i].name, shorts[i])
  }

  /** The directory holds the groups of all files in order and then an end mark. */
  predicate DirectoryOf(dir: seq<Entry>, files: seq<File>, shorts: seq<Entry>) {
    && EntriesOk(dir) && EntriesOk(shorts) && |shorts| == |files|
    && (forall i | 0 <= i < |files| :: GroupOf(dir, files, shorts, i))
    && EntriesBefore(files, |files|) < |dir| && dir[EntriesBefore(files, |files|)][0] == 0
  }

  /** As far as the directory goes, the entries of one file stand at k. */
  predicate GroupSoFar(dir: seq<Entry>, k: nat, n: Name, short: Entry) {
    && ShortOk(short)
    && (forall i | k <= i < k + ChunkCount(n) && i < |dir| :: ChunkSoFar(dir, k, n, Checksum(short[..11], 11), i))
    && (k + ChunkCount(n) < |dir| ==> dir[k + ChunkCount(n)] == short)
  }

  predicate ChunkSoFar(dir: seq<Entry>, k: nat, n: Name, checksum: byte, i: nat)
    requires k <= i < k + ChunkCount(n) && i < |dir|
  {
    HoldsChunk(dir[i], n, ChunkCount(n) - 1 - (i - k), checksum)
  }

  predicate GroupBegun(dir: seq<Entry>, files: seq<File>, shorts: seq<Entry>, i: nat)
    requires i < |files| && i < |shorts|
  {
    GroupSoFar(dir, EntriesBefore(files, i), files[i].name, shorts[i])
  }

  /** The directory begins with the groups of the files in order, as far as it goes. */
  predicate BeginsDirectory(dir: seq<Entry>, files: seq<File>, shorts: seq<Entry>) {
    && EntriesOk(dir) && EntriesOk(shorts) && |shorts| == |files|
    && (forall i | 0 <= i < |files| :: GroupBegun(dir, files, shorts, i))
  }

  lemma GroupWhole(dir: seq<Entry>, k: nat, n: Name, short: Entry)
    ensures GroupAt(dir, k, n, short) <==> GroupSoFar(dir, k, n, short) && k + ChunkCount(n) < |dir|
  {
    if GroupAt(dir, k, n, short) {
      forall i | k <= i < k + ChunkCount(n) ensures ChunkSoFar(dir, k, n, Checksum(short[..11], 11), i) {
        assert ChunkAt(dir, k, n, Checksum(short[..11], 11), i);
      }
    }
    if GroupSoFar(dir, k, n, short) && k + ChunkCount(n) < |dir| {
      forall i | k <= i < k + ChunkCount(n) ensures ChunkAt(dir, k, n, Checksum(short[..11], 11), i) {
        assert ChunkSoFar(dir, k, n, Checksum(short[..11], 11), i);
      }
    }
  }

  lemma {:induction false} EntriesGrow(files: seq<File>, i: nat, j: nat)
    requires i <= j <= |files|
    ensures EntriesBefore(files, i) <= EntriesBefore(files, j)
    decreases j
  {
    if i < j { EntriesGrow(files, i, j - 1); }
  }

  /** How many of the first n files have their whole group among the first `limit` entries. */
  function SeenCount(files: seq<File>, limit: nat, n: nat): (r: nat)
    requires n <= |files|
    ensures r <= n
  {
    if n == 0 then 0 else if EntriesBefore(files, n) <= limit then n else SeenCount(files, limit, n - 1)
  }

  lemma {:induction false} SeenIff(files: seq<File>, limit: nat, n: nat, i: nat)
    requires i < n <= |files|
    ensures i < SeenCount(files, limit, n) <==> EntriesBefore(files, i + 1) <= limit
    decreases n
  {
    EntriesGrow(files, i + 1, n);
    if EntriesBefore(files, n) > limit && i + 1 < n { SeenIff(files, limit, n - 1, i); }
  }

  /** The buffer holds the terminated name from chunk c on, as far as there is room. */
  predicate HoldsFrom(buffer: seq<byte>, n: Name, c: nat) {
    && |buffer| == NAME_CAPACITY
    && forall p | LFN_UNITS * c <= p < NAME_CAPACITY && p <= |n| :: buffer[p] == if p < |n| then n[p] else 0
  }

  /** Chunks are read from the last to the first. Those beyond the buffer may overwrite any part
      of it, start the name anew, or look deleted; the first five put everything in order. */
  lemma CollectsOne(s: Scan, n: Name, checksum: byte, c: nat, e: Entry)
    requires ScanOk(s) && NameOk(n) && c < ChunkCount(n)
    requires HoldsChunk(e, n, c, checksum) && HoldsFrom(s.buffer, n, c + 1)
    ensures var t := Next(s, e);
            && t.seen == s.seen && HoldsFrom(t.buffer, n, c)
            && (c < 5 ==> t.active && t.sum == checksum)
  {
    if c < 5 {
      ChunkCollected(s.buffer, e, n, c, checksum);
      ChunkCollected(s.buffer[0 := 0], e, n, c, checksum);
    }
  }

  lemma ChunkPasses(e: Entry, n: Name, c: nat, checksum: byte)
    requires c < ChunkCount(n) && HoldsChunk(e, n, c, checksum)
    ensures Passes(e)
  {
  }

  /** The state after the entries from a up to b. */
  ghost function Through(dir: seq<Entry>, a: nat, b: nat, s: Scan): (r: Scan)
    requires EntriesOk(dir) && ScanOk(s) && a <= b <= |dir|
    ensures ScanOk(r)
    decreases b - a
  {
    if a == b then s else Next(Through(dir, a, b - 1, s), dir[b - 1])
  }

  predicate Passes(e: Entry) { |e| == 32 && e[0] != 0 && !Visible(e) }

  lemma {:induction false} ScanThrough(dir: seq<Entry>, a: nat, b: nat, s: Scan, target: nat)
    requires EntriesOk(dir) && ScanOk(s) && a <= b <= |dir| && forall k | a <= k < b :: Passes(dir[k])
    ensures ScanFrom(dir, a, s, target) == ScanFrom(dir, b, Through(dir, a, b, s), target)
    decreases b - a
  {
    if a < b {
      ScanThrough(dir, a, b - 1, s, target);
      assert Passes(dir[b - 1]);
    }
  }

  /** Going through the first j long-name entries of a group. */
  lemma {:induction false} ThroughLongName(dir: seq<Entry>, k: nat, s: Scan, n: Name, checksum: byte, j: nat)
    requires EntriesOk(dir) && ScanOk(s) && NameOk(n) && HoldsNameAt(dir, k, n, checksum) && j <= ChunkCount(n)
    ensures var t, c := Through(dir, k, k + j, s), ChunkCount(n) - j;
            t.seen == s.seen && HoldsFrom(t.buffer, n, c) && (j > 0 && c < 5 ==> t.active && t.sum == checksum)
  {
    if j > 0 {
      ThroughLongName(dir, k, s, n, checksum, j - 1);
      assert ChunkAt(dir, k, n, checksum, k + j - 1);
      CollectsOne(Through(dir, k, k + j - 1, s), n, checksum, ChunkCount(n) - j, dir[k + j - 1]);
    }
  }

  lemma LongNamePasses(dir: seq<Entry>, k: nat, n: Name, checksum: byte)
    requires NameOk(n) && HoldsNameAt(dir, k, n, checksum)
    ensures forall i | k <= i < k + ChunkCount(n) :: Passes(dir[i])
  {
    forall i | k <= i < k + ChunkCount(n) ensures Passes(dir[i]) {
      assert ChunkAt(dir, k, n, checksum, i);
      ChunkPasses(dir[i], n, ChunkCount(n) - 1 - (i - k), checksum);
    }
  }

  /** The name under which the driver sees a file: an empty one is replaced by the alias. */
  function NameSeen(n: Name, short: Entry): Name
    requires |short| == 32
  {
    if n == [] then ShortName(short) else Shown(n)
  }

  lemma CollectedName(s: Scan, n: Name, short: Entry)
    requires ScanOk(s) && NameOk(n) && HoldsFrom(s.buffer, n, 0) && |short| == 32
    requires s.active && s.sum == Checksum(short[..11], 11)
    ensures NameFor(s, short) == NameSeen(n, short)
  {
    var buffer := s.buffer;
    assert forall i | 0 <= i < NAME_CAPACITY && i < |n| :: buffer[i] == n[i] && n[i] in n;
    if n == [] {
      assert buffer[0] == 0;
    } else if |n| < NAME_CAPACITY {
      assert buffer[..|n|] == n;
      CStringOf(buffer, n);
    } else {
      CStringOfAll(buffer);
      assert buffer[..NAME_CAPACITY - 1] == n[..NAME_CAPACITY - 1];
    }
  }

  lemma ScanLongName(dir: seq<Entry>, k: nat, s: Scan, target: nat, n: Name, short: Entry) returns (t: Scan)
    requires EntriesOk(dir) && ScanOk(s) && NameOk(n) && GroupAt(dir, k, n, short)
    ensures ScanOk(t) && t.seen == s.seen && NameFor(t, short) == NameSeen(n, short)
    ensures ScanFrom(dir, k, s, target) == ScanFrom(dir, k + ChunkCount(n), t, target)
  {
    var checksum := Checksum(short[..11], 11);
    LongNamePasses(dir, k, n, checksum);
    ScanThrough(dir, k, k + ChunkCount(n), s, target);
    ThroughLongName(dir, k, s, n, checksum, ChunkCount(n));
    t := Through(dir, k, k + ChunkCount(n), s);
    CollectedName(t, n, short);
  }

  /** At the short entry the name is complete. */
  lemma ScanShort(dir: seq<Entry>, k: nat, s: Scan, target: nat)
    requires EntriesOk(dir) && ScanOk(s) && k < |dir| && ShortOk(dir[k])
    ensures ScanFrom(dir, k, s, target) ==
            if s.seen == target then Found(NameFor(s, dir[k]), dir[k])
            else ScanFrom(dir, k + 1, Reset(s.(seen := s.seen + 1)), target)
  {
  }

  /** A group is found under its name, or passed. */
  lemma ScanGroup(dir: seq<Entry>, k: nat, s: Scan, target: nat, n: Name, short: Entry) returns (t: Scan)
    requires EntriesOk(dir) && ScanOk(s) && NameOk(n) && GroupAt(dir, k, n, short)
    ensures ScanOk(t) && t.seen == s.seen + 1
    ensures ScanFrom(dir, k, s, target) ==
            if s.seen == target then Found(NameSeen(n, short), short)
            else ScanFrom(dir, k + ChunkCount(n) + 1, t, target)
  {
    var u := ScanLongName(dir, k, s, target, n, short);
    ScanShort(dir, k + ChunkCount(n), u, target);
    t := Reset(u.(seen := u.seen + 1));
  }

  function FileAt(files: seq<File>, shorts: seq<Entry>, target: nat): Lookup
    requires |shorts| == |files| && EntriesOk(shorts)
  {
    if target < |files| then Found(NameSeen(files[target].name, shorts[target]), shorts[target]) else NotFound
  }

  lemma ScanEnds(dir: seq<Entry>, k: nat, s: Scan, target: nat)
    requires EntriesOk(dir) && ScanOk(s) && k < |dir| && dir[k][0] == 0
    ensures ScanFrom(dir, k, s, target) == NotFound
  {
  }

  /** The scan finds exactly the files, in order, under the names that fit. */
  lemma {:induction false} ScanFinds(dir: seq<Entry>, files: seq<File>, shorts: seq<Entry>, i: nat, s: Scan,
                                     target: nat)
    requires DirectoryOf(dir, files, shorts) && NamesOk(files) && i <= |files|
    requires ScanOk(s) && s.seen == i <= target
    ensures ScanFrom(dir, EntriesBefore(files, i), s, target) == FileAt(files, shorts, target)
    decreases |files| - i
  {
    var k := EntriesBefore(files, i);
    if i == |files| {
      ScanEnds(dir, k, s, target);
    } else {
      assert NameOk(files[i].name) by { assert files[i] in files; }
      assert GroupOf(dir, files, shorts, i);
      var t := ScanGroup(dir, k, s, target, files[i].name, shorts[i]);
      if i != target {
        assert EntriesBefore(files, i + 1) == k + ChunkCount(files[i].name) + 1;
        ScanFinds(dir, files, shorts, i + 1, t, target);
      }
    }
  }

  /** A group that is cut off leaves nothing more to read. */
  lemma ScanCutOff(dir: seq<Entry>, k: nat, s: Scan, target: nat, n: Name, short: Entry)
    requires EntriesOk(dir) && ScanOk(s) && k <= |dir| && GroupSoFar(dir, k, n, short) && k + ChunkCount(n) >= |dir|
    ensures ScanFrom(dir, k, s, target) == Unreadable
  {
    forall i | k <= i < |dir| ensures Passes(dir[i]) {
      assert ChunkSoFar(dir, k, n, Checksum(short[..11], 11), i);
      ChunkPasses(dir[i], n, ChunkCount(n) - 1 - (i - k), Checksum(short[..11], 11));
    }
    ScanThrough(dir, k, |dir|, s, target);
  }

  /** In a directory that is cut off, the scan finds a file exactly if its group is whole. */
  lemma {:induction false} ScanFindsBegun(dir: seq<Entry>, files: seq<File>, shorts: seq<Entry>, i: nat, s: Scan,
                                          target: nat)
    requires BeginsDirectory(dir, files, shorts) && NamesOk(files) && i <= target < |files|
    requires ScanOk(s) && s.seen == i && EntriesBefore(files, i) <= |dir|
    ensures ScanFrom(dir, EntriesBefore(files, i), s, target) ==
            if EntriesBefore(files, target + 1) <= |dir| then FileAt(files, shorts, target) else Unreadable
    decreases |files| - i
  {
    var k, n := EntriesBefore(files, i), files[i].name;
    assert NameOk(n) by { assert files[i] in files; }
    assert GroupBegun(dir, files, shorts, i);
    GroupWhole(dir, k, n, shorts[i]);
    assert EntriesBefore(files, i + 1) == k + ChunkCount(n) + 1;
    EntriesGrow(files, i + 1, target + 1);
    if k + ChunkCount(n) >= |dir| {
      ScanCutOff(dir, k, s, target, n, shorts[i]);
    } else {
      var t := ScanGroup(dir, k, s, target, n, shorts[i]);
      if i != target {
        ScanFindsBegun(dir, files, shorts, i + 1, t, target);
      }
    }
  }
}
