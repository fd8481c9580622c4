/**
 The root image builder, tools/build_fat32_root_image.py: cluster allocation, file data, the
 root directory and both copies of the file allocation table, written into one image.
 */
module FatImage {
  import opened Basics
  import opened Bytes
  import opened FatNames
  import opened FatDirectory

  const SECTOR: nat := 512
  const TOTAL_SECTORS: nat := 32768
  const RESERVED_SECTORS: nat := 32
  const FAT_COUNT: nat := 2
  const SECTORS_PER_CLUSTER: nat := 8
  const ROOT_CLUSTER: nat := 2
  const CLUSTER: nat := 4096
  const END_OF_CHAIN: nat := 0x0FFFFFFF

  /** What compute_fat_sectors arrives at, and the places that follow from it. */
  const FAT_SECTORS: nat := 32
  const FAT_BYTES: nat := 16384
  const FAT1: nat := 16384
  const FAT2: nat := 32768
  const DATA: nat := 49152
  const IMAGE_BYTES: nat := 16777216
  const FAT_ENTRIES: nat := 4096
  const CLUSTER_LIMIT: nat := 4086

  function NeededFatSectors(sectors: nat): nat
    requires RESERVED_SECTORS + FAT_COUNT * sectors <= TOTAL_SECTORS
  {
    var clusters := (TOTAL_SECTORS - RESERVED_SECTORS - FAT_COUNT * sectors) / SECTORS_PER_CLUSTER;
    ((clusters + 2) * 4 + SECTOR - 1) / SECTOR
  }

  /** The search for a table size that describes the space left beside it ends with one that
      does. */
  method ComputeFatSectors() returns (sectors: nat)
    ensures RESERVED_SECTORS + FAT_COUNT * sectors <= TOTAL_SECTORS && NeededFatSectors(sectors) == sectors
    ensures sectors == FAT_SECTORS
  {
    sectors := 1;
    while NeededFatSectors(sectors) != sectors
      invariant sectors == 1 || sectors == FAT_SECTORS
      decreases FAT_SECTORS - sectors
    {
      sectors := NeededFatSectors(sectors);
    }
  }

  function Offset(cluster: nat): nat
    requires cluster >= 2
  {
    (RESERVED_SECTORS + FAT_COUNT * FAT_SECTORS + (cluster - 2) * SECTORS_PER_CLUSTER) * SECTOR
  }

  lemma OffsetIs(cluster: nat)
    requires cluster >= 2
    ensures Offset(cluster) == DATA + (cluster - 2) * CLUSTER
  {
  }

  // ----- The file allocation table -----

  predicate IsFat(fat: seq<byte>) { |fat| == FAT_BYTES }

  function FatEntry(fat: seq<byte>, c: nat): nat
    requires IsFat(fat) && c < FAT_ENTRIES
  {
    U32(fat, 4 * c) % 0x1000_0000
  }

  method SetFatEntry(fat: array<byte>, c: nat, value: nat)
    requires fat.Length == FAT_BYTES && c < FAT_ENTRIES && value < 0x1000_0000
    modifies fat
    ensures FatEntry(fat[..], c) == value
    ensures forall d | 0 <= d < FAT_ENTRIES && d != c :: FatEntry(fat[..], d) == FatEntry(old(fat[..]), d)
  {
    WriteAt(fat, 4 * c, Le32(value));
    U32Le32(value);
    SpliceInside(old(fat[..]), 4 * c, Le32(value));
    U32InSlice(fat[..], 4 * c, 4 * c + 4, 0);
  }

  /** Cluster c leads to the next one, or ends the chain if it is the last before `end`. */
  predicate Linked(fat: seq<byte>, end: nat, c: nat)
    requires IsFat(fat) && c < FAT_ENTRIES
  {
    FatEntry(fat, c) == if c + 1 == end then END_OF_CHAIN else c + 1
  }

  /** The clusters from first up to end are one chain. */
  predicate Chained(fat: seq<byte>, first: nat, end: nat)
    requires IsFat(fat)
  {
    end <= FAT_ENTRIES && forall c | first <= c < end :: Linked(fat, end, c)
  }

  predicate SameEntry(fat: seq<byte>, other: seq<byte>, c: nat)
    requires IsFat(fat) && IsFat(other) && c < FAT_ENTRIES
  {
    FatEntry(fat, c) == FatEntry(other, c)
  }

  predicate SameBefore(fat: seq<byte>, other: seq<byte>, first: nat)
    requires IsFat(fat) && IsFat(other)
  {
    forall c | 0 <= c < first && c < FAT_ENTRIES :: SameEntry(fat, other, c)
  }

  predicate SameFrom(fat: seq<byte>, other: seq<byte>, end: nat)
    requires IsFat(fat) && IsFat(other)
  {
    forall c | end <= c < FAT_ENTRIES :: SameEntry(fat, other, c)
  }

  /** The two entries before the first cluster. */
  predicate TableBegins(fat: seq<byte>)
    requires IsFat(fat)
  {
    FatEntry(fat, 0) == 0x0FFF_FFF8 && FatEntry(fat, 1) == 0x0FFF_FFFF
  }

  /** No cluster from here on is in use. */
  predicate FreeFrom(fat: seq<byte>, next: nat)
    requires IsFat(fat)
  {
    forall c | next <= c < FAT_ENTRIES :: FatEntry(fat, c) == 0
  }

  lemma TableKept(fat: seq<byte>, other: seq<byte>, first: nat, end: nat)
    requires IsFat(fat) && IsFat(other) && TableBegins(fat) && FreeFrom(fat, first) && 2 <= first <= end
    requires SameBefore(fat, other, first) && SameFrom(fat, other, end)
    ensures TableBegins(other) && FreeFrom(other, end)
  {
    assert SameEntry(fat, other, 0) && SameEntry(fat, other, 1);
    forall c | end <= c < FAT_ENTRIES ensures FatEntry(other, c) == 0 {
      assert SameEntry(fat, other, c);
    }
  }

  lemma ChainKept(fat: seq<byte>, other: seq<byte>, first: nat, end: nat, limit: nat)
    requires IsFat(fat) && IsFat(other) && Chained(fat, first, end) && end <= limit && SameBefore(fat, other, limit)
    ensures Chained(other, first, end)
  {
    forall c | first <= c < end ensures Linked(other, end, c) {
      assert Linked(fat, end, c) && SameEntry(fat, other, c);
    }
  }

  function ClustersFor(size: nat): nat { (size + CLUSTER - 1) / CLUSTER }

  /** The loop that links the clusters from first up to end. An entry outside the table ends
      the program. */
  method LinkClusters(fat: array<byte>, first: nat, end: nat) returns (ok: bool)
    requires fat.Length == FAT_BYTES && first <= end && first <= FAT_ENTRIES
    modifies fat
    ensures ok <==> end <= FAT_ENTRIES
    ensures ok ==> Chained(fat[..], first, end)
    ensures ok ==> SameBefore(old(fat[..]), fat[..], first) && SameFrom(old(fat[..]), fat[..], end)
  {
    var c := first;
    while c < end
      invariant first <= c <= end && c <= FAT_ENTRIES
      invariant SameBefore(old(fat[..]), fat[..], first) && SameFrom(old(fat[..]), fat[..], end)
      invariant forall d | first <= d < c :: Linked(fat[..], end, d)
    {
      if c >= FAT_ENTRIES {
        return false;
      }
      ghost var before := fat[..];
      SetFatEntry(fat, c, if c + 1 == end then END_OF_CHAIN else c + 1);
      forall d | 0 <= d < FAT_ENTRIES && (d < first || end <= d) ensures SameEntry(old(fat[..]), fat[..], d) {
        assert SameEntry(old(fat[..]), before, d);
      }
      forall d | first <= d < c + 1 ensures Linked(fat[..], end, d) {
        assert d < c ==> Linked(before, end, d);
      }
      c := c + 1;
    }
    ok := true;
  }

  method AllocateClusters(next: nat, fat: array<byte>, size: nat) returns (ok: bool, first: nat, after: nat)
    requires fat.Length == FAT_BYTES && next <= FAT_ENTRIES
    modifies fat
    ensures after == next + ClustersFor(size) && first == (if size == 0 then 0 else next)
    ensures ok <==> after <= FAT_ENTRIES
    ensures ok ==> Chained(fat[..], next, after)
    ensures ok ==> SameBefore(old(fat[..]), fat[..], next) && SameFrom(old(fat[..]), fat[..], after)
  {
    first, after := if size == 0 then 0 else next, next + ClustersFor(size);
    if size == 0 {
      assert forall c | 0 <= c < FAT_ENTRIES :: SameEntry(old(fat[..]), fat[..], c);
      return true, first, after;
    }
    ok := LinkClusters(fat, next, after);
  }

  // ----- File data -----

  /** The image below `limit`, as far as there is one, is as before. */
  predicate KeptBelow(image: seq<byte>, image': seq<byte>, limit: nat) {
    var end := if limit < |image| then limit else |image|;
    end <= |image'| && image'[..end] == image[..end]
  }

  lemma KeptTwice(image: seq<byte>, mid: seq<byte>, image': seq<byte>, limit: nat)
    requires KeptBelow(image, mid, limit) && KeptBelow(mid, image', limit) && |mid| >= |image|
    ensures KeptBelow(image, image', limit)
  {
    var end := if limit < |image| then limit else |image|;
    var mend := if limit < |mid| then limit else |mid|;
    assert image'[..mend][..end] == image'[..end] && mid[..mend][..end] == mid[..end];
  }

  lemma OneMoreChunk(image: seq<byte>, at: nat, data: seq<byte>, i: nat, j: nat)
    requires i <= j <= |data|
    ensures SliceAssign(SliceAssign(image, at, data[..i]), at + i, data[i..j]) == SliceAssign(image, at, data[..j])
  {
    var first, second := data[..i], data[i..j];
    assert data[..j] == first + second;
    SliceAssignTwice(image, at, first, second);
  }

  /** Cluster by cluster, the data end up as by one slice assignment: one stretch of the image,
      which grows if there is no room, and then not beyond where the data should end. */
  method WriteFileData(image: seq<byte>, first: nat, data: seq<byte>) returns (image': seq<byte>)
    requires first == 0 || first >= 2
    ensures image' == if first == 0 then image else SliceAssign(image, Offset(first), data)
  {
    image' := image;
    if first == 0 {
      return;
    }
    var offset, cluster := 0, first;
    OffsetIs(first);
    while offset < |data|
      invariant offset <= |data| && cluster >= first
      invariant offset == (if (cluster - first) * CLUSTER < |data| then (cluster - first) * CLUSTER else |data|)
      invariant image' == SliceAssign(image, Offset(first), data[..offset])
    {
      var end := if offset + CLUSTER <= |data| then offset + CLUSTER else |data|;
      OffsetIs(cluster);
      assert Offset(cluster) == Offset(first) + offset;
      OneMoreChunk(image, Offset(first), data, offset, end);
      image' := SliceAssign(image', Offset(cluster), data[offset..end]);
      offset := end;
      cluster := cluster + 1;
    }
    assert data[..offset] == data;
  }

  // ----- Directory entries -----

  /** What the driver reads from a short entry. */
  function FirstClusterIn(e: Entry): nat
    requires |e| == 32
  {
    U16(e, 20) * 65536 + U16(e, 26)
  }

  function SizeIn(e: Entry): nat
    requires |e| == 32
  {
    U32(e, 28)
  }

  predicate Empty(b: seq<byte>, lo: nat, hi: nat) { hi <= |b| && forall i | lo <= i < hi :: b[i] == 0 }

  predicate IsShort(e: Entry, alias: seq<byte>, first: nat, size: nat) {
    && ShortOk(e) && e[..11] == alias
    && U16(e, 20) == first / 65536 && U16(e, 26) == first % 65536 && U32(e, 28) == size
    && Empty(e, 12, 20) && Empty(e, 22, 26)
  }

  method MakeDirEntry(alias: seq<byte>, first: nat, size: nat) returns (e: Entry)
    requires |alias| == 11 && Printable(alias[0])
    requires first < 0x1000_0000 && size < 0x1_0000_0000
    ensures IsShort(e, alias, first, size)
  {
    e := seq(32, _ => 0);
    e := Splice(e, 0, alias);
    e := e[11 := 0x20];
    e := Splice(e, 20, Le16(first / 65536));
    e := Splice(e, 26, Le16(first % 65536));
    e := Splice(e, 28, Le32(size));
    assert e[..11] == alias;
    U32Le32(size);
    assert e[28..32] == Le32(size);
    U32InSlice(e, 28, 32, 0);
  }

  lemma GroupKept(dir: seq<Entry>, more: seq<Entry>, files: seq<File>, shorts: seq<Entry>, others: seq<Entry>, i: nat)
    requires i < |files| && i < |shorts| && GroupOf(dir, files, shorts, i)
    ensures GroupOf(dir + more, files, shorts + others, i)
  {
    var k, n, checksum := EntriesBefore(files, i), files[i].name, Checksum(shorts[i][..11], 11);
    forall c | k <= c < k + ChunkCount(n) ensures ChunkAt(dir + more, k, n, checksum, c) {
      assert ChunkAt(dir, k, n, checksum, c);
    }
  }

  /** The group of the next file. */
  lemma GroupAdded(dir: seq<Entry>, files: seq<File>, shorts: seq<Entry>, es: seq<Entry>, short: Entry)
    requires |shorts| < |files| && |dir| == EntriesBefore(files, |shorts|) && ShortOk(short)
    requires HoldsName(es, files[|shorts|].name, Checksum(short[..11], 11))
    ensures GroupOf(dir + es + [short], files, shorts + [short], |shorts|)
  {
    LongNameAdded(dir, es, [short], files[|shorts|].name, Checksum(short[..11], 11));
  }

  lemma LongNameAdded(dir: seq<Entry>, es: seq<Entry>, more: seq<Entry>, n: Name, checksum: byte)
    requires HoldsName(es, n, checksum)
    ensures HoldsNameAt(dir + es + more, |dir|, n, checksum)
  {
    var all, k := dir + es + more, |dir|;
    forall c | k <= c < k + ChunkCount(n) ensures ChunkAt(all, k, n, checksum, c) {
      var j := c - k;
      assert HoldsChunk(es[j], n, |es| - 1 - j, checksum);
      assert all[c] == es[j];
    }
  }

  // ----- Where the files go -----

  function StartOf(files: seq<File>, rootClusters: nat, i: nat): (c: nat)
    requires i <= |files|
    ensures c >= ROOT_CLUSTER
  {
    if i == 0 then ROOT_CLUSTER + rootClusters
    else StartOf(files, rootClusters, i - 1) + ClustersFor(|files[i - 1].data|)
  }

  lemma {:induction false} StartsAscend(files: seq<File>, rootClusters: nat, i: nat, j: nat)
    requires i <= j <= |files|
    ensures StartOf(files, rootClusters, i) <= StartOf(files, rootClusters, j)
    decreases j
  {
    if i < j { StartsAscend(files, rootClusters, i, j - 1); }
  }

  /** The clusters of a file belong to no other file and not to the root directory. */
  lemma ChainsApart(files: seq<File>, rootClusters: nat, i: nat, j: nat, c: nat)
    requires i < |files| && j < |files| && i != j
    requires StartOf(files, rootClusters, i) <= c < StartOf(files, rootClusters, i + 1)
    ensures ROOT_CLUSTER + rootClusters <= c
    ensures !(StartOf(files, rootClusters, j) <= c < StartOf(files, rootClusters, j + 1))
  {
    StartsAscend(files, rootClusters, 0, i);
    if i < j {
      StartsAscend(files, rootClusters, i + 1, j);
    } else {
      StartsAscend(files, rootClusters, j + 1, i);
    }
  }

  /** The cluster recorded for file i. */
  function FirstOf(files: seq<File>, rootClusters: nat, i: nat): nat
    requires i < |files|
  {
    if files[i].data == [] then 0 else StartOf(files, rootClusters, i)
  }

  lemma RoomFor(files: seq<File>, rootClusters: nat, i: nat)
    requires i < |files|
    ensures var start := StartOf(files, rootClusters, i);
            2 <= start && Offset(start) + |files[i].data| <= Offset(StartOf(files, rootClusters, i + 1))
  {
    StartsAscend(files, rootClusters, 0, i);
    StartsAscend(files, rootClusters, i, i + 1);
    OffsetIs(StartOf(files, rootClusters, i));
    OffsetIs(StartOf(files, rootClusters, i + 1));
    assert ClustersFor(|files[i].data|) * CLUSTER >= |files[i].data|;
  }

  lemma BeforeFirstFile(files: seq<File>, rootClusters: nat, i: nat)
    requires i <= |files|
    ensures 2 <= ROOT_CLUSTER + rootClusters <= StartOf(files, rootClusters, i)
    ensures Offset(ROOT_CLUSTER + rootClusters) <= Offset(StartOf(files, rootClusters, i))
  {
    StartsAscend(files, rootClusters, 0, i);
    OffsetIs(ROOT_CLUSTER + rootClusters);
    OffsetIs(StartOf(files, rootClusters, i));
  }

  // ----- Where the bytes of the files go -----

  /** How long the image is after the first i files. */
  function Length(files: seq<File>, rootClusters: nat, i: nat): (n: nat)
    requires i <= |files|
    ensures n >= IMAGE_BYTES
  {
    if i == 0 then IMAGE_BYTES
    else
      var n := Length(files, rootClusters, i - 1);
      Max(n, Min(Offset(StartOf(files, rootClusters, i - 1)), n) + |files[i - 1].data|)
  }

  function Max(a: nat, b: nat): nat { if a < b then b else a }

  function Min(a: nat, b: nat): nat { if a < b then a else b }

  /** Where the bytes of file i begin: at its first cluster, or at the end of the image if that
      comes before it. */
  function Place(files: seq<File>, rootClusters: nat, i: nat): nat
    requires i < |files|
  {
    Min(Offset(StartOf(files, rootClusters, i)), Length(files, rootClusters, i))
  }

  lemma {:induction false} LengthsAscend(files: seq<File>, rootClusters: nat, i: nat, j: nat)
    requires i <= j <= |files|
    ensures Length(files, rootClusters, i) <= Length(files, rootClusters, j)
    decreases j
  {
    if i < j {
      LengthsAscend(files, rootClusters, i, j - 1);
      assert Length(files, rootClusters, j - 1) <= Length(files, rootClusters, j);
    }
  }

  /** No image is longer than where the data should end. */
  lemma {:induction false} LengthBound(files: seq<File>, rootClusters: nat, i: nat)
    requires i <= |files|
    ensures Length(files, rootClusters, i) <= Max(IMAGE_BYTES, Offset(StartOf(files, rootClusters, i)))
  {
    BeforeFirstFile(files, rootClusters, i);
    if i > 0 {
      LengthBound(files, rootClusters, i - 1);
      RoomFor(files, rootClusters, i - 1);
    }
  }

  /** The bytes of file j end before those of a later file i begin. */
  lemma PlacesApart(files: seq<File>, rootClusters: nat, j: nat, i: nat)
    requires j < i < |files|
    ensures Place(files, rootClusters, j) + |files[j].data| <= Place(files, rootClusters, i)
  {
    RoomFor(files, rootClusters, j);
    StartsAscend(files, rootClusters, j + 1, i);
    OffsetIs(StartOf(files, rootClusters, j + 1));
    OffsetIs(StartOf(files, rootClusters, i));
    LengthsAscend(files, rootClusters, j + 1, i);
  }

  /** The chain of file j. */
  predicate ChainedAt(fat: seq<byte>, files: seq<File>, rootClusters: nat, j: nat)
    requires IsFat(fat) && j < |files|
  {
    Chained(fat, StartOf(files, rootClusters, j), StartOf(files, rootClusters, j + 1))
  }

  /** The bytes of file j. */
  predicate PlacedAt(image: seq<byte>, files: seq<File>, rootClusters: nat, j: nat)
    requires j < |files|
  {
    var at := Place(files, rootClusters, j);
    at + |files[j].data| <= |image| && image[at..at + |files[j].data|] == files[j].data
  }

  predicate Fits(files: seq<File>, rootClusters: nat) {
    StartOf(files, rootClusters, |files|) <= CLUSTER_LIMIT
  }

  /** A file ends inside the image exactly if its clusters do. */
  lemma FitsInImage(start: nat, size: nat)
    requires start >= 2 && size > 0
    ensures Offset(start) + size <= IMAGE_BYTES <==> start + ClustersFor(size) <= CLUSTER_LIMIT
  {
    OffsetIs(start);
  }

  /** A file that ends within the image is where its clusters are. */
  lemma PlaceInImage(files: seq<File>, rootClusters: nat, i: nat)
    requires i < |files| && StartOf(files, rootClusters, i + 1) <= CLUSTER_LIMIT
    ensures StartOf(files, rootClusters, i) >= 2
    ensures Place(files, rootClusters, i) == Offset(StartOf(files, rootClusters, i))
    ensures Place(files, rootClusters, i) + |files[i].data| <= IMAGE_BYTES
  {
    RoomFor(files, rootClusters, i);
    OffsetIs(StartOf(files, rootClusters, i + 1));
    OffsetIs(StartOf(files, rootClusters, i));
  }

  // ----- Storing one file after the other -----

  /** Chain and data of one file. The program ends if the table is full. */
  method StoreFile(image: seq<byte>, fat: array<byte>, files: seq<File>, rootClusters: nat, i: nat)
    returns (ok: bool, first: nat, after: nat, image': seq<byte>)
    requires fat.Length == FAT_BYTES && i < |files| && StartOf(files, rootClusters, i) <= FAT_ENTRIES
    requires |image| == Length(files, rootClusters, i)
    modifies fat
    ensures after == StartOf(files, rootClusters, i + 1) && first == FirstOf(files, rootClusters, i)
    ensures ok <==> after <= FAT_ENTRIES
    ensures ok ==> ChainedAt(fat[..], files, rootClusters, i)
    ensures ok ==> SameBefore(old(fat[..]), fat[..], StartOf(files, rootClusters, i))
    ensures ok ==> SameFrom(old(fat[..]), fat[..], after)
    ensures ok ==> |image'| == Length(files, rootClusters, i + 1) && PlacedAt(image', files, rootClusters, i)
    ensures ok ==> KeptBelow(image, image', Place(files, rootClusters, i))
  {
    var data := files[i].data;
    var next := StartOf(files, rootClusters, i);
    BeforeFirstFile(files, rootClusters, i);
    ok, first, after := AllocateClusters(next, fat, |data|);
    image' := image;
    if ok {
      image' := WriteFileData(image, first, data);
      SliceAssigned(image, Offset(next), data);
    }
  }

  lemma KeptFurther(image: seq<byte>, image': seq<byte>, limit: nat, lower: nat)
    requires KeptBelow(image, image', limit) && lower <= limit
    ensures KeptBelow(image, image', lower)
  {
    var end := if limit < |image| then limit else |image|;
    var low := if lower < |image| then lower else |image|;
    assert image'[..end][..low] == image'[..low] && image[..end][..low] == image[..low];
  }

  /** What is written from `at` on leaves the chains and bytes of the files that end before it. */
  lemma EarlierKept(image: seq<byte>, fat: seq<byte>, image': seq<byte>, fat': seq<byte>, files: seq<File>,
                    rootClusters: nat, i: nat, j: nat)
    requires j < i < |files| && IsFat(fat) && IsFat(fat')
    requires LaidAt(image, fat, files, rootClusters, j)
    requires SameBefore(fat, fat', StartOf(files, rootClusters, i)) && |image| <= |image'|
    requires KeptBelow(image, image', Place(files, rootClusters, i))
    ensures LaidAt(image', fat', files, rootClusters, j)
  {
    StartsAscend(files, rootClusters, j + 1, i);
    ChainKept(fat, fat', StartOf(files, rootClusters, j), StartOf(files, rootClusters, j + 1),
              StartOf(files, rootClusters, i));
    PlacesApart(files, rootClusters, j, i);
    var lo, hi := Place(files, rootClusters, j), Place(files, rootClusters, j) + |files[j].data|;
    KeptFurther(image, image', Place(files, rootClusters, i), hi);
    assert image'[..hi] == image[..hi];
    assert image'[lo..hi] == image'[..hi][lo..hi] && image[lo..hi] == image[..hi][lo..hi];
  }

  // ----- Listing one file after the other -----

  predicate ListedAt(entries: seq<Entry>, files: seq<File>, shorts: seq<Entry>, rootClusters: nat, j: nat)
    requires j < |files| && j < |shorts|
  {
    && GroupOf(entries, files, shorts, j)
    && IsShort(shorts[j], shorts[j][..11], FirstOf(files, rootClusters, j), |files[j].data|)
  }

  /** The directory entries of the files whose short entries are in `shorts`. */
  ghost predicate Listed(entries: seq<Entry>, files: seq<File>, shorts: seq<Entry>, rootClusters: nat) {
    && |shorts| <= |files| && EntriesOk(entries) && |entries| == EntriesBefore(files, |shorts|)
    && (forall j | 0 <= j < |shorts| :: ListedAt(entries, files, shorts, rootClusters, j))
  }

  ghost function Aliases(shorts: seq<Entry>): set<seq<byte>> { set s | s in shorts && |s| == 32 :: s[..11] }

  /** The alias of file j is the first, counting from j + 1, that no file before it has. */
  ghost predicate NumberedAt(files: seq<File>, shorts: seq<Entry>, j: nat)
    requires j < |files| && j < |shorts|
  {
    && |shorts[j]| == 32
    && exists serial :: && NextAlias(files[j].name, j + 1, serial, Aliases(shorts[..j]))
                        && shorts[j][..11] == Alias(files[j].name, serial)
  }

  ghost predicate AllNumbered(files: seq<File>, shorts: seq<Entry>) {
    |shorts| <= |files| && DistinctAliases(shorts) && forall j | 0 <= j < |shorts| :: NumberedAt(files, shorts, j)
  }

  /** The aliases in use are those of the short entries. */
  ghost predicate AliasesAre(files: seq<File>, shorts: seq<Entry>, used: set<seq<byte>>) {
    |used| == |shorts| && used == Aliases(shorts) && AllNumbered(files, shorts)
  }

  predicate DistinctAliases(shorts: seq<Entry>) {
    && (forall j | 0 <= j < |shorts| :: ShortOk(shorts[j]))
    && (forall i, j | 0 <= i < j < |shorts| :: TwoAliases(shorts, i, j))
  }

  predicate TwoAliases(shorts: seq<Entry>, i: nat, j: nat)
    requires i < j < |shorts| && |shorts[i]| == 32 && |shorts[j]| == 32
  {
    shorts[i][..11] != shorts[j][..11]
  }

  method ListFile(files: seq<File>, rootClusters: nat, first: nat, entries: seq<Entry>, used: set<seq<byte>>,
                  ghost shorts: seq<Entry>)
    returns (entries': seq<Entry>, used': set<seq<byte>>, short: Entry)
    requires Listed(entries, files, shorts, rootClusters) && AliasesAre(files, shorts, used) && |shorts| < |files|
    requires NameFits(files[|shorts|].name) && 2 * |files| + 2 < 1000000
    requires first == FirstOf(files, rootClusters, |shorts|) < FAT_ENTRIES && |files[|shorts|].data| < 0x1_0000_0000
    ensures Listed(entries', files, shorts + [short], rootClusters) && AliasesAre(files, shorts + [short], used')
  {
    var file := files[|used|];
    var alias := ChooseAlias(file.name, |used| + 1, used);
    used' := used + {alias};
    var es := MakeLfnEntries(file.name, Checksum(alias, 11));
    short := MakeDirEntry(alias, first, |file.data|);
    entries' := entries + es.value + [short];
    OneMoreListed(entries, es.value, files, shorts, short, rootClusters);
    OneMoreAlias(files, shorts, used, short);
  }

  lemma OneMoreListed(entries: seq<Entry>, es: seq<Entry>, files: seq<File>, shorts: seq<Entry>, short: Entry,
                      rootClusters: nat)
    requires Listed(entries, files, shorts, rootClusters) && |shorts| < |files| && ShortOk(short)
    requires HoldsName(es, files[|shorts|].name, Checksum(short[..11], 11))
    requires IsShort(short, short[..11], FirstOf(files, rootClusters, |shorts|), |files[|shorts|].data|)
    ensures Listed(entries + es + [short], files, shorts + [short], rootClusters)
  {
    var longer := entries + es + [short];
    GroupAdded(entries, files, shorts, es, short);
    forall j | 0 <= j < |shorts| ensures ListedAt(longer, files, shorts + [short], rootClusters, j) {
      assert ListedAt(entries, files, shorts, rootClusters, j);
      assert longer == entries + (es + [short]);
      GroupKept(entries, es + [short], files, shorts, [short], j);
    }
    assert ListedAt(longer, files, shorts + [short], rootClusters, |shorts|);
    LongNameLengths(es, files[|shorts|].name, Checksum(short[..11], 11));
  }

  lemma MoreNumbered(files: seq<File>, shorts: seq<Entry>, short: Entry)
    requires |shorts| < |files| && |short| == 32 && forall j | 0 <= j < |shorts| :: NumberedAt(files, shorts, j)
    requires exists serial :: && NextAlias(files[|shorts|].name, |shorts| + 1, serial, Aliases(shorts))
                              && short[..11] == Alias(files[|shorts|].name, serial)
    ensures forall j | 0 <= j <= |shorts| :: NumberedAt(files, shorts + [short], j)
  {
    var more := shorts + [short];
    forall j | 0 <= j <= |shorts| ensures NumberedAt(files, more, j) {
      assert more[..j] == shorts[..j] && shorts[..|shorts|] == shorts;
      assert j < |shorts| ==> NumberedAt(files, shorts, j);
    }
  }

  lemma AliasesGrow(shorts: seq<Entry>, short: Entry)
    requires |short| == 32
    ensures Aliases(shorts + [short]) == Aliases(shorts) + {short[..11]}
  {
    var more := shorts + [short];
    forall a | a in Aliases(shorts) + {short[..11]} ensures a in Aliases(more) {
      if a in Aliases(shorts) {
        var s :| s in shorts && |s| == 32 && s[..11] == a;
        assert s in more;
      } else {
        assert short in more;
      }
    }
  }

  lemma LongNameLengths(es: seq<Entry>, n: Name, checksum: byte)
    requires HoldsName(es, n, checksum)
    ensures |es| == ChunkCount(n) && EntriesOk(es)
  {
    forall j | 0 <= j < |es| ensures |es[j]| == 32 {
      assert HoldsChunk(es[j], n, |es| - 1 - j, checksum);
    }
  }

  lemma OneMoreAlias(files: seq<File>, shorts: seq<Entry>, used: set<seq<byte>>, short: Entry)
    requires AliasesAre(files, shorts, used) && |shorts| < |files| && ShortOk(short)
    requires exists serial :: && NextAlias(files[|shorts|].name, |shorts| + 1, serial, used)
                              && short[..11] == Alias(files[|shorts|].name, serial)
    ensures AliasesAre(files, shorts + [short], used + {short[..11]})
  {
    AliasesGrow(shorts, short);
    MoreNumbered(files, shorts, short);
    MoreDistinct(shorts, short);
  }

  lemma MoreDistinct(shorts: seq<Entry>, short: Entry)
    requires DistinctAliases(shorts) && ShortOk(short) && short[..11] !in Aliases(shorts)
    ensures DistinctAliases(shorts + [short])
  {
    var more := shorts + [short];
    forall i, j | 0 <= i < j < |more| ensures TwoAliases(more, i, j) {
      assert j < |shorts| ==> TwoAliases(shorts, i, j);
    }
  }

  // ----- The whole image -----

  function Zeros(n: nat): (r: seq<byte>)
    ensures |r| == n && forall i | 0 <= i < n :: r[i] == 0
  {
    seq(n, _ => 0)
  }

  /** The boot sector, byte by byte. */
  function BootByte(i: nat): byte {
    if i < 11 then [0xEB, 0x58, 0x90, 79, 83, 54, 52, 70, 51, 50, 32][i]
    else if i == 12 then 2 else if i == 13 then 8 else if i == 14 then 32 else if i == 16 then 2
    else if i == 21 then 0xF8 else if i == 24 then 32 else if i == 26 then 64
    else if i == 33 then 128 else if i == 36 then 32 else if i == 44 then 2 else if i == 48 then 1
    else if i == 50 then 6
    else if i == 64 then 0x80 else if i == 66 then 0x29
    else if 67 <= i < 71 then [0x14, 0x06, 0x26, 0x20][i - 67]
    else if 71 <= i < 90 then [79, 83, 54, 52, 32, 82, 79, 79, 84, 32, 32, 70, 65, 84, 51, 50, 32, 32, 32][i - 71]
    else if i == 510 then 0x55 else if i == 511 then 0xAA
    else 0
  }

  function BootSector(): (b: seq<byte>)
    ensures |b| == SECTOR && forall i | 0 <= i < SECTOR :: b[i] == BootByte(i)
  {
    seq(SECTOR, i requires 0 <= i => BootByte(i))
  }

  function FsInfoSector(): (b: seq<byte>)
    ensures |b| == SECTOR
  {
    [0x52, 0x52, 0x61, 0x41] + Zeros(480) + [0x72, 0x72, 0x41, 0x61] + [255, 255, 255, 255, 255, 255, 255, 255] +
    Zeros(14) + [0x55, 0xAA]
  }

  /** The fields of the boot sector that the driver reads. */
  predicate BootOk(b: seq<byte>) {
    && |b| >= SECTOR
    && U16(b, 11) == SECTOR && b[13] as int == SECTORS_PER_CLUSTER && U16(b, 14) == RESERVED_SECTORS
    && b[16] as int == FAT_COUNT && U16(b, 17) == 0 && U16(b, 19) == 0 && U16(b, 22) == 0
    && U32(b, 32) == TOTAL_SECTORS && U32(b, 36) == FAT_SECTORS && U32(b, 44) == ROOT_CLUSTER
  }

  /** The fields that only name and describe the volume. */
  predicate BootDescribes(b: seq<byte>) {
    && |b| >= SECTOR
    && b[..3] == [0xEB, 0x58, 0x90] && b[3..11] == Codes("OS64F32 ")
    && b[21] == 0xF8 && U16(b, 24) == 32 && U16(b, 26) == 64 && U32(b, 28) == 0 && U32(b, 40) == 0
    && U16(b, 48) == 1 && U16(b, 50) == 6 && U16(b, 64) == 0x80 && b[66] == 0x29 && U32(b, 67) == 0x2026_0614
    && b[71..82] == Codes("OS64 ROOT  ") && b[82..90] == Codes("FAT32   ") && U16(b, 510) == 0xAA55
  }

  /** The information sector. */
  predicate InfoOk(b: seq<byte>) {
    && |b| >= 1024
    && U32(b, 512) == 0x4161_5252 && U32(b, 996) == 0x6141_7272
    && U32(b, 1000) == 0xFFFF_FFFF && U32(b, 1004) == 0xFFFF_FFFF && U16(b, 1022) == 0xAA55
  }

  /** The sectors before the tables: the boot sector, the information sector, a copy of the boot
      sector in sector 6, and nothing else. */
  predicate ReservedOk(b: seq<byte>) {
    && |b| == FAT1 && BootOk(b) && BootDescribes(b) && InfoOk(b) && b[3072..3584] == b[..512]
    && Empty(b, 52, 64) && Empty(b, 90, 510) && Empty(b, 516, 996) && Empty(b, 1008, 1022)
    && Empty(b, 1024, 3072) && Empty(b, 3584, 16384)
  }

  function ReservedBytes(): (b: seq<byte>)
    ensures |b| == FAT1
  {
    BootSector() + FsInfoSector() + Zeros(2048) + BootSector() + Zeros(12800)
  }

  lemma BootIsOk(b: seq<byte>)
    requires |b| >= SECTOR && b[..SECTOR] == BootSector()
    ensures BootOk(b)
  {
    BootByteAt(b);
  }

  lemma BootByteAt(b: seq<byte>)
    requires |b| >= SECTOR && b[..SECTOR] == BootSector()
    ensures forall i | 0 <= i < SECTOR :: b[i] == BootByte(i)
  {
    forall i | 0 <= i < SECTOR ensures b[i] == BootByte(i) {
      assert b[..SECTOR][i] == b[i];
    }
  }

  lemma BootDoesDescribe(b: seq<byte>)
    requires |b| >= SECTOR && b[..SECTOR] == BootSector()
    ensures BootDescribes(b) && Empty(b, 52, 64) && Empty(b, 90, 510)
  {
    BootByteAt(b);
    BootTexts(b);
  }

  lemma BootTexts(b: seq<byte>)
    requires |b| >= SECTOR && forall i | 0 <= i < SECTOR :: b[i] == BootByte(i)
    ensures b[..3] == [0xEB, 0x58, 0x90] && b[3..11] == Codes("OS64F32 ")
    ensures b[71..82] == Codes("OS64 ROOT  ") && b[82..90] == Codes("FAT32   ")
  {
    TextCodes();
    assert b[3..11] == [79, 83, 54, 52, 70, 51, 50, 32];
    assert b[71..82] == [79, 83, 54, 52, 32, 82, 79, 79, 84, 32, 32];
    assert b[82..90] == [70, 65, 84, 51, 50, 32, 32, 32];
  }

  lemma TextCodes()
    ensures Codes("OS64F32 ") == [79, 83, 54, 52, 70, 51, 50, 32]
    ensures Codes("OS64 ROOT  ") == [79, 83, 54, 52, 32, 82, 79, 79, 84, 32, 32]
    ensures Codes("FAT32   ") == [70, 65, 84, 51, 50, 32, 32, 32]
  {
  }

  lemma InfoIsOk(b: seq<byte>)
    requires |b| >= 1024 && b[512..1024] == FsInfoSector()
    ensures InfoOk(b) && Empty(b, 516, 996) && Empty(b, 1008, 1022)
  {
    forall i | 512 <= i < 1024 ensures b[i] == FsInfoSector()[i - 512] {
      assert b[512..1024][i - 512] == b[i];
    }
  }

  lemma ReservedIsOk()
    ensures ReservedOk(ReservedBytes())
  {
    var b := ReservedBytes();
    assert b[..SECTOR] == BootSector() && b[512..1024] == FsInfoSector() && b[3072..3584] == BootSector();
    BootIsOk(b);
    BootDoesDescribe(b);
    InfoIsOk(b);
  }

  function EntryBytes(entries: seq<Entry>): (b: seq<byte>)
    requires EntriesOk(entries)
    ensures |b| == 32 * |entries|
  {
    if entries == [] then [] else EntryBytes(entries[..|entries| - 1]) + entries[|entries| - 1]
  }

  lemma {:induction false} EntryBytesAt(entries: seq<Entry>, k: nat)
    requires EntriesOk(entries) && k < |entries|
    ensures EntryBytes(entries)[32 * k..32 * k + 32] == entries[k]
  {
    var front := entries[..|entries| - 1];
    if k < |front| {
      EntryBytesAt(front, k);
      assert EntryBytes(entries)[32 * k..32 * k + 32] == EntryBytes(front)[32 * k..32 * k + 32];
    }
  }

  function RootClusters(files: seq<File>): nat {
    ClustersFor((EntriesBefore(files, |files|) + 1) * 32)
  }

  /** How many sectors of the root directory are in the image. */
  function RootSectors(image: seq<byte>, rootClusters: nat): (n: nat)
    requires |image| >= DATA
    ensures DATA + SECTOR * n <= |image| && n <= SECTORS_PER_CLUSTER * rootClusters
  {
    var n := (|image| - DATA) / SECTOR;
    if n < SECTORS_PER_CLUSTER * rootClusters then n else SECTORS_PER_CLUSTER * rootClusters
  }

  /** The entries in the clusters of the root directory, as far as they are in the image. */
  function DirIn(image: seq<byte>, rootClusters: nat): (dir: seq<Entry>)
    requires |image| >= DATA
    ensures |dir| == 16 * RootSectors(image, rootClusters) && EntriesOk(dir)
    ensures DATA + CLUSTER * rootClusters <= |image| ==> |dir| == 128 * rootClusters
  {
    var n := 16 * RootSectors(image, rootClusters);
    seq(n, k requires 0 <= k < n => image[DATA + 32 * k..DATA + 32 * k + 32])
  }

  /** The entries of all files are in the image, and the mark after them. */
  predicate RootFits(files: seq<File>) { DATA + 32 * EntriesBefore(files, |files|) < IMAGE_BYTES }

  /** How long the image is in the end. */
  function FinalLength(files: seq<File>): nat {
    Max(Length(files, RootClusters(files), |files|), DATA + 32 * EntriesBefore(files, |files|))
  }

  /** What every image that was built has, even one that is too long: the boot sector, the chain
      of the root directory, and the directory as far as it is in the image. */
  ghost predicate HeadOf(image: seq<byte>, files: seq<File>, shorts: seq<Entry>) {
    && |image| >= IMAGE_BYTES && BootOk(image) && image[FAT1..FAT2] == image[FAT2..DATA]
    && Chained(image[FAT1..FAT2], ROOT_CLUSTER, ROOT_CLUSTER + RootClusters(files))
    && BeginsDirectory(DirIn(image, RootClusters(files)), files, shorts)
    && (forall j | 0 <= j < |files| :: ShortIs(files, shorts, j))
    && DistinctAliases(shorts)
  }

  /** The image that is built from these files: its head, its length, the chains of all files and,
      if the directory is inside, its end and the bytes of all files where they were put. */
  ghost predicate BuiltAs(image: seq<byte>, files: seq<File>, shorts: seq<Entry>) {
    && HeadOf(image, files, shorts) && |image| == FinalLength(files)
    && (forall j | 0 <= j < |files| :: ChainedAt(image[FAT1..FAT2], files, RootClusters(files), j))
    && (RootFits(files) ==>
          && DirectoryOf(DirIn(image, RootClusters(files)), files, shorts)
          && forall j | 0 <= j < |files| :: PlacedAt(image, files, RootClusters(files), j))
  }

  /** The bytes of file j are in the clusters of its chain. */
  predicate StoredAt(image: seq<byte>, files: seq<File>, j: nat)
    requires |image| >= DATA && j < |files|
  {
    var start := StartOf(files, RootClusters(files), j);
    && 2 <= start && Offset(start) + |files[j].data| <= |image|
    && ChainedAt(image[FAT1..FAT2], files, RootClusters(files), j)
    && image[Offset(start)..Offset(start) + |files[j].data|] == files[j].data
  }

  /** An image that holds these files: a boot sector the driver accepts, two equal allocation
      tables, a root directory that lists the files under different aliases, and the chains
      and the bytes of all of them. */
  ghost predicate ImageOf(image: seq<byte>, files: seq<File>, shorts: seq<Entry>) {
    && |image| == IMAGE_BYTES && HeadOf(image, files, shorts)
    && DirectoryOf(DirIn(image, RootClusters(files)), files, shorts)
    && (forall j | 0 <= j < |files| :: StoredAt(image, files, j))
  }

  predicate ShortIs(files: seq<File>, shorts: seq<Entry>, j: nat)
    requires j < |files| && j < |shorts|
  {
    && ShortOk(shorts[j])
    && IsShort(shorts[j], shorts[j][..11], FirstOf(files, RootClusters(files), j), |files[j].data|)
  }

  lemma {:induction false} EntriesAscend(files: seq<File>, i: nat)
    requires i <= |files|
    ensures 2 * i <= EntriesBefore(files, i)
  {
    if i > 0 { EntriesAscend(files, i - 1); }
  }

  /** What fits is small enough for every number that is stored. */
  lemma FittingIsSmall(files: seq<File>)
    requires Fits(files, RootClusters(files))
    ensures DATA + CLUSTER * RootClusters(files) == Offset(ROOT_CLUSTER + RootClusters(files)) <= IMAGE_BYTES
    ensures 32 * EntriesBefore(files, |files|) + 32 <= CLUSTER * RootClusters(files)
    ensures 2 * |files| + 2 < 1000000
    ensures ROOT_CLUSTER + RootClusters(files) <= CLUSTER_LIMIT
  {
    var rc := RootClusters(files);
    StartsAscend(files, rc, 0, |files|);
    OffsetIs(ROOT_CLUSTER + rc);
    EntriesAscend(files, |files|);
  }

  /** The directory read from the image is what was written, then an end mark. */
  lemma DirectoryWritten(image: seq<byte>, entries: seq<Entry>, files: seq<File>, shorts: seq<Entry>, rootClusters: nat)
    requires DATA + CLUSTER * rootClusters <= |image|
    requires Listed(entries, files, shorts, rootClusters) && |shorts| == |files|
    requires 32 * |entries| + 32 <= CLUSTER * rootClusters
    requires image[DATA..DATA + 32 * |entries|] == EntryBytes(entries) && image[DATA + 32 * |entries|] == 0
    ensures DirectoryOf(DirIn(image, rootClusters), files, shorts)
  {
    var dir := DirIn(image, rootClusters);
    EntriesWritten(image, entries, rootClusters);
    var more := dir[|entries|..];
    assert dir == entries + more;
    assert shorts + [] == shorts;
    forall j | 0 <= j < |files| ensures GroupOf(dir, files, shorts, j) && |shorts[j]| == 32 {
      assert ListedAt(entries, files, shorts, rootClusters, j);
      GroupKept(entries, more, files, shorts, [], j);
    }
  }

  lemma EntriesWritten(image: seq<byte>, entries: seq<Entry>, rootClusters: nat)
    requires EntriesOk(entries) && DATA + 32 * |entries| <= |image|
    requires image[DATA..DATA + 32 * |entries|] == EntryBytes(entries)
    ensures var dir := DirIn(image, rootClusters);
            forall k | 0 <= k < |entries| && k < |dir| :: dir[k] == entries[k]
  {
    var dir := DirIn(image, rootClusters);
    forall k | 0 <= k < |entries| && k < |dir| ensures dir[k] == entries[k] {
      EntryRead(image, entries, rootClusters, k);
    }
  }

  lemma EntryRead(image: seq<byte>, entries: seq<Entry>, rootClusters: nat, k: nat)
    requires EntriesOk(entries) && DATA + 32 * |entries| <= |image|
    requires image[DATA..DATA + 32 * |entries|] == EntryBytes(entries)
    requires k < |entries| && k < |DirIn(image, rootClusters)|
    ensures DirIn(image, rootClusters)[k] == entries[k]
  {
    EntryWritten(image, EntryBytes(entries), k);
    EntryBytesAt(entries, k);
  }

  /** The directory read from any image begins with what was written. */
  lemma DirectoryBegun(image: seq<byte>, entries: seq<Entry>, files: seq<File>, shorts: seq<Entry>, rootClusters: nat)
    requires Listed(entries, files, shorts, rootClusters) && |shorts| == |files|
    requires DATA + 32 * |entries| <= |image| && image[DATA..DATA + 32 * |entries|] == EntryBytes(entries)
    ensures BeginsDirectory(DirIn(image, rootClusters), files, shorts)
  {
    var dir := DirIn(image, rootClusters);
    EntriesWritten(image, entries, rootClusters);
    forall j | 0 <= j < |files| ensures GroupBegun(dir, files, shorts, j) && |shorts[j]| == 32 {
      assert ListedAt(entries, files, shorts, rootClusters, j);
      GroupCut(entries, dir, EntriesBefore(files, j), files[j].name, shorts[j]);
    }
  }

  lemma GroupCut(entries: seq<Entry>, dir: seq<Entry>, k: nat, n: Name, short: Entry)
    requires GroupAt(entries, k, n, short) && forall i | 0 <= i < |entries| && i < |dir| :: dir[i] == entries[i]
    ensures GroupSoFar(dir, k, n, short)
  {
    var checksum := Checksum(short[..11], 11);
    forall i | k <= i < k + ChunkCount(n) && i < |dir| ensures ChunkSoFar(dir, k, n, checksum, i) {
      assert ChunkAt(entries, k, n, checksum, i);
    }
  }

  lemma EntryWritten(image: seq<byte>, root: seq<byte>, k: nat)
    requires DATA + |root| <= |image| && image[DATA..DATA + |root|] == root && 32 * k + 32 <= |root|
    ensures image[DATA + 32 * k..DATA + 32 * k + 32] == root[32 * k..32 * k + 32]
  {
    SliceOfSlice(image, DATA, DATA + |root|, 32 * k, 32 * k + 32);
  }

  /** image' is image with the root directory and both tables written into it. */
  predicate LastWrites(image: seq<byte>, fat: seq<byte>, root: seq<byte>, image': seq<byte>) {
    && |image'| >= |image| >= IMAGE_BYTES && IsFat(fat) && DATA + |root| <= |image'|
    && image'[..FAT1] == image[..FAT1]
    && image'[FAT1..FAT2] == fat && image'[FAT2..DATA] == fat
    && image'[DATA..DATA + |root|] == root
    && if DATA + |root| <= |image| then |image'| == |image| && image'[DATA + |root|..] == image[DATA + |root|..]
       else |image'| == DATA + |root|
  }

  lemma Written(image: seq<byte>, fat: seq<byte>, root: seq<byte>, image': seq<byte>)
    requires |image| >= IMAGE_BYTES && IsFat(fat)
    requires image' == SliceAssign(SliceAssign(SliceAssign(image, DATA, root), FAT1, fat), FAT2, fat)
    ensures LastWrites(image, fat, root, image')
  {
  }

  /** Images that agree from one place on agree later. */
  lemma SameTail(image: seq<byte>, image': seq<byte>, end: nat, lo: nat, hi: nat)
    requires |image| == |image'| && end <= lo <= hi <= |image| && image'[end..] == image[end..]
    ensures image'[lo..hi] == image[lo..hi]
  {
    forall k | lo <= k < hi ensures image'[k] == image[k] {
      assert image'[k] == image'[end..][k - end] && image[k] == image[end..][k - end];
    }
  }

  lemma ShortsWritten(entries: seq<Entry>, files: seq<File>, shorts: seq<Entry>)
    requires Listed(entries, files, shorts, RootClusters(files)) && |shorts| == |files|
    ensures forall j | 0 <= j < |files| :: ShortIs(files, shorts, j)
  {
    forall j | 0 <= j < |files| ensures ShortIs(files, shorts, j) {
      assert ListedAt(entries, files, shorts, RootClusters(files), j);
    }
  }

  lemma ReservedWritten(boot: seq<byte>, info: seq<byte>)
    requires |boot| == |info| == 512
    ensures SliceAssign(SliceAssign(SliceAssign(Zeros(IMAGE_BYTES), 0, boot), 3072, boot), 512, info) ==
            boot + info + Zeros(2048) + boot + Zeros(12800) + Zeros(IMAGE_BYTES - FAT1)
  {
    var rest := Zeros(12800) + Zeros(IMAGE_BYTES - FAT1);
    assert SliceAssign(Zeros(IMAGE_BYTES), 0, boot) == boot + Zeros(512) + Zeros(2048) + Zeros(512) + rest;
    Replaced(boot + Zeros(512) + Zeros(2048), Zeros(512), boot, rest);
    Replaced(boot, Zeros(512), info, Zeros(2048) + boot + rest);
    assert boot + Zeros(512) + Zeros(2048) + boot + rest == boot + Zeros(512) + (Zeros(2048) + boot + rest);
  }

  lemma Replaced(before: seq<byte>, part: seq<byte>, other: seq<byte>, after: seq<byte>)
    requires |part| == |other|
    ensures SliceAssign(before + part + after, |before|, other) == before + other + after
  {
  }

  /** Boot sector, its copy, the information sector, and zeros. */
  method EmptyImage() returns (image: seq<byte>)
    ensures |image| == IMAGE_BYTES && image[..FAT1] == ReservedBytes()
    ensures forall b | DATA <= b < IMAGE_BYTES :: image[b] == 0
  {
    image := Zeros(IMAGE_BYTES);
    image := SliceAssign(image, 0, BootSector());
    image := SliceAssign(image, 6 * SECTOR, BootSector());
    image := SliceAssign(image, SECTOR, FsInfoSector());
    ReservedWritten(BootSector(), FsInfoSector());
    assert image[..FAT1] == ReservedBytes();
  }

  /** The directory entries are made once to be counted; a name that is too long ends the
      program here. */
  method CountEntries(files: seq<File>) returns (ok: bool, count: nat)
    ensures ok <==> NamesFit(files)
    ensures ok ==> count == EntriesBefore(files, |files|)
  {
    count := 0;
    var i := 0;
    while i < |files|
      invariant i <= |files| && count == EntriesBefore(files, i) && NamesFit(files[..i])
    {
      var es := MakeLfnEntries(files[i].name, 0);
      if es.None? {
        assert files[i] in files;
        return false, count;
      }
      assert files[..i + 1] == files[..i] + [files[i]];
      count := count + |es.value| + 1;
      i := i + 1;
    }
    assert files[..i] == files;
    ok := true;
  }

  predicate HasData(files: seq<File>, n: nat)
    requires n <= |files|
  {
    exists i | 0 <= i < n :: files[i].data != []
  }

  /** The cluster after the last one. */
  function Needed(files: seq<File>): nat { StartOf(files, RootClusters(files), |files|) }

  /** What the table has room for is small enough for every number that is stored. */
  lemma TableIsSmall(files: seq<File>)
    requires ROOT_CLUSTER + RootClusters(files) <= FAT_ENTRIES
    ensures 2 * |files| + 2 < 1000000
    ensures 32 * EntriesBefore(files, |files|) + 32 <= CLUSTER * RootClusters(files)
  {
    EntriesAscend(files, |files|);
  }

  lemma FileIsSmall(files: seq<File>, rootClusters: nat, i: nat)
    requires i < |files| && StartOf(files, rootClusters, i + 1) <= FAT_ENTRIES
    ensures FirstOf(files, rootClusters, i) < FAT_ENTRIES && |files[i].data| < 0x1_0000_0000
  {
    assert ClustersFor(|files[i].data|) * CLUSTER >= |files[i].data|;
    assert files[i].data != [] ==> ClustersFor(|files[i].data|) > 0;
  }

  /** Where the first i files leave the image and the table. */
  ghost predicate Progress(begun: seq<byte>, image: seq<byte>, fat: seq<byte>, files: seq<File>, rootClusters: nat,
                           i: nat)
    requires i <= |files|
  {
    && |begun| == IMAGE_BYTES && |image| == Length(files, rootClusters, i)
    && IsFat(fat) && Chained(fat, ROOT_CLUSTER, ROOT_CLUSTER + rootClusters)
    && TableBegins(fat) && FreeFrom(fat, StartOf(files, rootClusters, i))
    && KeptBelow(begun, image, Offset(ROOT_CLUSTER + rootClusters))
    && AllLaid(image, fat, files, rootClusters, i)
  }

  predicate LaidAt(image: seq<byte>, fat: seq<byte>, files: seq<File>, rootClusters: nat, j: nat)
    requires IsFat(fat) && j < |files|
  {
    ChainedAt(fat, files, rootClusters, j) && PlacedAt(image, files, rootClusters, j)
  }

  ghost predicate AllLaid(image: seq<byte>, fat: seq<byte>, files: seq<File>, rootClusters: nat, i: nat)
    requires IsFat(fat) && i <= |files|
  {
    forall j | 0 <= j < i :: LaidAt(image, fat, files, rootClusters, j)
  }

  method AddFile(image: seq<byte>, fat: array<byte>, files: seq<File>, rootClusters: nat, i: nat,
                 ghost begun: seq<byte>)
    returns (ok: bool, first: nat, after: nat, image': seq<byte>)
    requires fat.Length == FAT_BYTES && i < |files| && StartOf(files, rootClusters, i) <= FAT_ENTRIES
    requires Progress(begun, image, fat[..], files, rootClusters, i)
    modifies fat
    ensures after == StartOf(files, rootClusters, i + 1) && first == FirstOf(files, rootClusters, i)
    ensures ok <==> after <= FAT_ENTRIES
    ensures ok ==> Progress(begun, image', fat[..], files, rootClusters, i + 1)
  {
    ghost var fat0 := fat[..];
    ok, first, after, image' := StoreFile(image, fat, files, rootClusters, i);
    if ok {
      OneMoreFile(begun, image, fat0, image', fat[..], files, rootClusters, i);
    }
  }

  lemma HeadStays(begun: seq<byte>, image: seq<byte>, image': seq<byte>, head: nat, at: nat)
    requires KeptBelow(begun, image, head) && KeptBelow(image, image', Min(at, |image|)) && head <= at
    requires |begun| <= |image|
    ensures KeptBelow(begun, image', head)
  {
    if head < |image| { KeptFurther(image, image', Min(at, |image|), head); }
    KeptTwice(begun, image, image', head);
  }

  lemma OneMoreFile(begun: seq<byte>, image: seq<byte>, fat: seq<byte>, image': seq<byte>, fat': seq<byte>,
                    files: seq<File>, rootClusters: nat, i: nat)
    requires i < |files| && Progress(begun, image, fat, files, rootClusters, i) && IsFat(fat')
    requires LaidAt(image', fat', files, rootClusters, i)
    requires SameBefore(fat, fat', StartOf(files, rootClusters, i))
    requires SameFrom(fat, fat', StartOf(files, rootClusters, i + 1))
    requires |image'| == Length(files, rootClusters, i + 1) && KeptBelow(image, image', Place(files, rootClusters, i))
    ensures Progress(begun, image', fat', files, rootClusters, i + 1)
  {
    BeforeFirstFile(files, rootClusters, i);
    TableKept(fat, fat', StartOf(files, rootClusters, i), StartOf(files, rootClusters, i + 1));
    ChainKept(fat, fat', ROOT_CLUSTER, ROOT_CLUSTER + rootClusters, StartOf(files, rootClusters, i));
    HeadStays(begun, image, image', Offset(ROOT_CLUSTER + rootClusters), Offset(StartOf(files, rootClusters, i)));
    LengthsAscend(files, rootClusters, i, i + 1);
    AllEarlierKept(image, fat, image', fat', files, rootClusters, i);
  }

  lemma AllEarlierKept(image: seq<byte>, fat: seq<byte>, image': seq<byte>, fat': seq<byte>, files: seq<File>,
                       rootClusters: nat, i: nat)
    requires i < |files| && IsFat(fat) && IsFat(fat') && AllLaid(image, fat, files, rootClusters, i)
    requires SameBefore(fat, fat', StartOf(files, rootClusters, i)) && |image| <= |image'|
    requires KeptBelow(image, image', Place(files, rootClusters, i))
    ensures AllLaid(image', fat', files, rootClusters, i)
  {
    forall j | 0 <= j < i ensures LaidAt(image', fat', files, rootClusters, j) {
      assert LaidAt(image, fat, files, rootClusters, j);
      EarlierKept(image, fat, image', fat', files, rootClusters, i, j);
    }
  }

  /** All files into image and tables, and their directory entries. */
  method AddFiles(image: seq<byte>, fat: array<byte>, files: seq<File>, rootClusters: nat)
    returns (ok: bool, image': seq<byte>, entries: seq<Entry>, ghost shorts: seq<Entry>)
    requires fat.Length == FAT_BYTES && NamesFit(files) && 2 * |files| + 2 < 1000000
    requires ROOT_CLUSTER + rootClusters <= FAT_ENTRIES && Progress(image, image, fat[..], files, rootClusters, 0)
    modifies fat
    ensures ok <==> StartOf(files, rootClusters, |files|) <= FAT_ENTRIES
    ensures ok ==> Progress(image, image', fat[..], files, rootClusters, |files|)
    ensures ok ==> Listed(entries, files, shorts, rootClusters) && |shorts| == |files| && AllNumbered(files, shorts)
  {
    image', entries, shorts := image, [], [];
    var used: set<seq<byte>> := {};
    var i := 0;
    while i < |files|
      invariant i <= |files| && StartOf(files, rootClusters, i) <= FAT_ENTRIES
      invariant Progress(image, image', fat[..], files, rootClusters, i)
      invariant Listed(entries, files, shorts, rootClusters) && |shorts| == i && AliasesAre(files, shorts, used)
    {
      var first, after;
      ok, first, after, image' := AddFile(image', fat, files, rootClusters, i, image);
      if !ok {
        StartsAscend(files, rootClusters, i + 1, |files|);
        return;
      }
      FileIsSmall(files, rootClusters, i);
      ghost var short;
      assert NameFits(files[i].name) by { assert files[i] in files; }
      entries, used, short := ListFile(files, rootClusters, first, entries, used, shorts);
      shorts := shorts + [short];
      i := i + 1;
    }
    ok := true;
  }

  method FreshTable() returns (fat: array<byte>)
    ensures fresh(fat) && fat.Length == FAT_BYTES && TableBegins(fat[..]) && FreeFrom(fat[..], ROOT_CLUSTER)
  {
    var sectors := ComputeFatSectors();
    fat := new byte[sectors * SECTOR](_ => 0);
    assert FreeFrom(fat[..], 0);
    SetFatEntry(fat, 0, 0x0FFFFFF8);
    SetFatEntry(fat, 1, 0x0FFFFFFF);
  }

  /** A table with the chain of the root directory. */
  method RootTable(rootClusters: nat) returns (ok: bool, fat: array<byte>)
    ensures fresh(fat) && fat.Length == FAT_BYTES && (ok <==> ROOT_CLUSTER + rootClusters <= FAT_ENTRIES)
    ensures ok ==> Chained(fat[..], ROOT_CLUSTER, ROOT_CLUSTER + rootClusters)
    ensures ok ==> TableBegins(fat[..]) && FreeFrom(fat[..], ROOT_CLUSTER + rootClusters)
  {
    fat := FreshTable();
    ghost var begun := fat[..];
    ok := LinkClusters(fat, ROOT_CLUSTER, ROOT_CLUSTER + rootClusters);
    if ok { TableKept(begun, fat[..], ROOT_CLUSTER, ROOT_CLUSTER + rootClusters); }
  }

  method WriteRootAndTables(image: seq<byte>, root: seq<byte>, fat: seq<byte>) returns (image': seq<byte>)
    requires |image| >= IMAGE_BYTES && IsFat(fat)
    ensures LastWrites(image, fat, root, image')
  {
    image' := SliceAssign(image, DATA, root);
    image' := SliceAssign(image', FAT1, fat);
    image' := SliceAssign(image', FAT2, fat);
    Written(image, fat, root, image');
  }

  lemma BeginsWell(image: seq<byte>, fat: seq<byte>, files: seq<File>, rootClusters: nat)
    requires |image| == IMAGE_BYTES && IsFat(fat) && Chained(fat, ROOT_CLUSTER, ROOT_CLUSTER + rootClusters)
    requires TableBegins(fat) && FreeFrom(fat, ROOT_CLUSTER + rootClusters)
    ensures Progress(image, image, fat, files, rootClusters, 0)
  {
    OffsetIs(ROOT_CLUSTER + rootClusters);
  }

  /** Even an image that is too long has its head. */
  lemma HeadWritten(begun: seq<byte>, image: seq<byte>, fat: seq<byte>, entries: seq<Entry>, files: seq<File>,
                    shorts: seq<Entry>, image': seq<byte>)
    requires |begun| == IMAGE_BYTES && begun[..FAT1] == ReservedBytes()
    requires Progress(begun, image, fat, files, RootClusters(files), |files|)
    requires Listed(entries, files, shorts, RootClusters(files)) && |shorts| == |files| && AllNumbered(files, shorts)
    requires LastWrites(image, fat, EntryBytes(entries), image')
    ensures HeadOf(image', files, shorts)
  {
    OffsetIs(ROOT_CLUSTER + RootClusters(files));
    KeptFurther(begun, image, Offset(ROOT_CLUSTER + RootClusters(files)), FAT1);
    assert image'[..SECTOR] == image'[..FAT1][..SECTOR];
    BootIsOk(image');
    DirectoryBegun(image', entries, files, shorts, RootClusters(files));
    ShortsWritten(entries, files, shorts);
  }

  /** The entry after the last one is still empty. */
  lemma EndMark(begun: seq<byte>, image: seq<byte>, image': seq<byte>, rootClusters: nat, end: nat)
    requires |begun| == IMAGE_BYTES && KeptBelow(begun, image, Offset(ROOT_CLUSTER + rootClusters))
    requires forall b | DATA <= b < IMAGE_BYTES :: begun[b] == 0
    requires DATA <= end < IMAGE_BYTES <= |image| == |image'| && end < Offset(ROOT_CLUSTER + rootClusters)
    requires image'[end..] == image[end..]
    ensures image'[end] == 0
  {
    KeptFurther(begun, image, Offset(ROOT_CLUSTER + rootClusters), end + 1);
    assert image[..end + 1][end] == image[end] && begun[..end + 1][end] == begun[end];
    assert image'[end..][0] == image'[end] && image[end..][0] == image[end];
  }

  lemma RootFitsMeans(files: seq<File>)
    requires RootFits(files)
    ensures DATA + CLUSTER * RootClusters(files) == Offset(ROOT_CLUSTER + RootClusters(files)) <= IMAGE_BYTES
    ensures 32 * EntriesBefore(files, |files|) + 32 <= CLUSTER * RootClusters(files)
    ensures ROOT_CLUSTER + RootClusters(files) <= CLUSTER_LIMIT
  {
    OffsetIs(ROOT_CLUSTER + RootClusters(files));
    RootRoom(EntriesBefore(files, |files|));
  }

  lemma RootRoom(entries: nat)
    requires DATA + 32 * entries < IMAGE_BYTES
    ensures 32 * entries + 32 <= CLUSTER * ClustersFor((entries + 1) * 32)
    ensures ClustersFor((entries + 1) * 32) + ROOT_CLUSTER <= CLUSTER_LIMIT
  {
  }

  /** Writing the directory does not disturb the files. */
  lemma FilesStay(image: seq<byte>, image': seq<byte>, files: seq<File>)
    requires RootFits(files) && |image| == |image'| == Length(files, RootClusters(files), |files|)
    requires var end := DATA + 32 * EntriesBefore(files, |files|); image'[end..] == image[end..]
    requires forall j | 0 <= j < |files| :: PlacedAt(image, files, RootClusters(files), j)
    ensures forall j | 0 <= j < |files| :: PlacedAt(image', files, RootClusters(files), j)
  {
    var rc, end := RootClusters(files), DATA + 32 * EntriesBefore(files, |files|);
    RootFitsMeans(files);
    forall j | 0 <= j < |files| ensures PlacedAt(image', files, rc, j) {
      FileStays(image, image', files, rc, end, j);
    }
  }

  lemma FileStays(image: seq<byte>, image': seq<byte>, files: seq<File>, rootClusters: nat, end: nat, j: nat)
    requires j < |files| && PlacedAt(image, files, rootClusters, j) && |image| == |image'|
    requires end <= IMAGE_BYTES && end <= Offset(ROOT_CLUSTER + rootClusters) && end <= |image|
    requires image'[end..] == image[end..]
    ensures PlacedAt(image', files, rootClusters, j)
  {
    BeforeFirstFile(files, rootClusters, j);
    var at := Place(files, rootClusters, j);
    SameTail(image, image', end, at, at + |files[j].data|);
  }

  lemma Finished(begun: seq<byte>, image: seq<byte>, fat: seq<byte>, entries: seq<Entry>, files: seq<File>,
                 shorts: seq<Entry>, image': seq<byte>)
    requires |begun| == IMAGE_BYTES && begun[..FAT1] == ReservedBytes()
    requires forall b | DATA <= b < IMAGE_BYTES :: begun[b] == 0
    requires Progress(begun, image, fat, files, RootClusters(files), |files|)
    requires Listed(entries, files, shorts, RootClusters(files)) && |shorts| == |files| && AllNumbered(files, shorts)
    requires LastWrites(image, fat, EntryBytes(entries), image')
    ensures BuiltAs(image', files, shorts)
  {
    var rc, end := RootClusters(files), DATA + 32 * |entries|;
    HeadWritten(begun, image, fat, entries, files, shorts, image');
    forall j | 0 <= j < |files| ensures ChainedAt(fat, files, rc, j) && PlacedAt(image, files, rc, j) {
      assert LaidAt(image, fat, files, rc, j);
    }
    if RootFits(files) {
      RootFitsMeans(files);
      EndMark(begun, image, image', rc, end);
      DirectoryWritten(image', entries, files, shorts, rc);
      FilesStay(image, image', files);
    }
  }

  /** If the files fit, all of them are in their clusters. */
  lemma WholeIfFits(image: seq<byte>, files: seq<File>, shorts: seq<Entry>)
    requires BuiltAs(image, files, shorts) && Fits(files, RootClusters(files))
    ensures ImageOf(image, files, shorts) && RootFits(files)
  {
    var rc := RootClusters(files);
    FittingIsSmall(files);
    FittingLength(files);
    forall j | 0 <= j < |files| ensures StoredAt(image, files, j) {
      StartsAscend(files, rc, j + 1, |files|);
      PlaceInImage(files, rc, j);
      assert ChainedAt(image[FAT1..FAT2], files, rc, j) && PlacedAt(image, files, rc, j);
    }
  }

  lemma FittingLength(files: seq<File>)
    requires Fits(files, RootClusters(files))
    ensures FinalLength(files) == IMAGE_BYTES
  {
    FittingIsSmall(files);
    LengthBound(files, RootClusters(files), |files|);
    OffsetIs(StartOf(files, RootClusters(files), |files|));
  }

  /** If they do not and there are any data, the image grows. */
  lemma {:induction false} Overflows(files: seq<File>, rootClusters: nat, i: nat)
    requires i <= |files| && StartOf(files, rootClusters, i) > CLUSTER_LIMIT && HasData(files, i)
    ensures Length(files, rootClusters, i) > IMAGE_BYTES
    decreases i
  {
    if files[i - 1].data == [] {
      Overflows(files, rootClusters, i - 1);
    } else {
      BeforeFirstFile(files, rootClusters, i - 1);
      FitsInImage(StartOf(files, rootClusters, i - 1), |files[i - 1].data|);
    }
  }

  /** What is before the files in every image: the reserved sectors, and tables in which no cluster
      is in use that belongs to no file. */
  ghost predicate Begins(image: seq<byte>, files: seq<File>)
    requires |image| >= DATA
  {
    ReservedOk(image[..FAT1]) && TableBegins(image[FAT1..FAT2]) && FreeFrom(image[FAT1..FAT2], Needed(files))
  }

  lemma BeginningWritten(begun: seq<byte>, image: seq<byte>, fat: seq<byte>, files: seq<File>, root: seq<byte>,
                         image': seq<byte>)
    requires |begun| == IMAGE_BYTES && begun[..FAT1] == ReservedBytes()
    requires Progress(begun, image, fat, files, RootClusters(files), |files|)
    requires LastWrites(image, fat, root, image')
    ensures Begins(image', files)
  {
    OffsetIs(ROOT_CLUSTER + RootClusters(files));
    KeptFurther(begun, image, Offset(ROOT_CLUSTER + RootClusters(files)), FAT1);
    ReservedIsOk();
  }

  /** All that the builder writes. It ends with an error exactly if a name is too long or the table
      too small. The check of the directory's size cannot fail. */
  method Assemble(files: seq<File>) returns (r: Option<seq<byte>>, ghost shorts: seq<Entry>)
    ensures r.Some? <==> NamesFit(files) && Needed(files) <= FAT_ENTRIES
    ensures r.Some? ==> BuiltAs(r.value, files, shorts) && AllNumbered(files, shorts) && Begins(r.value, files)
  {
    shorts := [];
    var ok, count := CountEntries(files);
    if !ok {
      return None, shorts;
    }
    var rootClusters := ClustersFor((count + 1) * 32);
    var image := EmptyImage();
    StartsAscend(files, rootClusters, 0, |files|);
    var fat;
    ok, fat := RootTable(rootClusters);
    if !ok {
      return None, shorts;
    }
    TableIsSmall(files);
    BeginsWell(image, fat[..], files, rootClusters);
    var stored, entries;
    ok, stored, entries, shorts := AddFiles(image, fat, files, rootClusters);
    if !ok {
      return None, shorts;
    }
    var root := EntryBytes(entries);
    assert |root| + 32 <= CLUSTER * rootClusters;
    var whole := WriteRootAndTables(stored, root, fat[..]);
    Finished(image, stored, fat[..], entries, files, shorts, whole);
    BeginningWritten(image, stored, fat[..], files, root, whole);
    r := Some(whole);
  }

  /** If the files fit in the image, it holds them; and if there is any data, the image has its
      32768 sectors exactly if they fit. */
  method Build(files: seq<File>) returns (r: Option<seq<byte>>, ghost shorts: seq<Entry>)
    ensures r.Some? <==> NamesFit(files) && Needed(files) <= FAT_ENTRIES
    ensures r.Some? ==> BuiltAs(r.value, files, shorts)
    ensures NamesFit(files) && Fits(files, RootClusters(files)) ==> r.Some? && ImageOf(r.value, files, shorts)
    ensures r.Some? && HasData(files, |files|) ==> (|r.value| == IMAGE_BYTES <==> Fits(files, RootClusters(files)))
  {
    r, shorts := Assemble(files);
    if r.Some? {
      if Fits(files, RootClusters(files)) {
        WholeIfFits(r.value, files, shorts);
      } else if HasData(files, |files|) {
        Overflows(files, RootClusters(files), |files|);
      }
    }
  }

  /** The image ends no later than the last file should. */
  lemma EndsAtLast(files: seq<File>)
    requires files != [] && files[|files| - 1].data != [] && !Fits(files, RootClusters(files))
    ensures var start := StartOf(files, RootClusters(files), |files| - 1);
            start >= 2 && FinalLength(files) <= Offset(start) + |files[|files| - 1].data|
  {
    var rc, last := RootClusters(files), |files| - 1;
    BeforeFirstFile(files, rc, last);
    OffsetIs(ROOT_CLUSTER + rc);
    LengthBound(files, rc, last);
    FitsInImage(StartOf(files, rc, last), |files[last].data|);
  }
}
