/**
 The kernel's FAT32 driver on a ramdisk: the boot sector, the allocation table, the directory
 scan, and reading a file by its path.
 */
module FatDriver {
  import opened Bytes
  import opened FatNames
  import opened FatDirectory
  import opened FatImage
  import opened FatLayout

  datatype Status = Success | Missing | InvalidPath | Unsupported | BufferTooSmall | IoError

  /** The local state of read_dir_entry_internal. The name buffer starts with anything in it. */
  class Scanner {
    const buffer: array<byte>
    var seen: nat
    var active: bool
    var sum: byte

    ghost predicate Valid()
      reads this
    {
      buffer.Length == NAME_CAPACITY
    }

    ghost function View(): (s: Scan)
      requires Valid()
      reads this, buffer
      ensures ScanOk(s)
    {
      Scan(seen, buffer[..], active, sum)
    }

    constructor (garbage: seq<byte>)
      requires |garbage| == NAME_CAPACITY
      ensures Valid() && fresh(buffer) && View().seen == 0
    {
      seen, active, sum := 0, false, 0;
      buffer := new byte[NAME_CAPACITY](i requires 0 <= i < |garbage| => garbage[i]);
      new;
      buffer[0] := 0;
    }

    /** An entry that is not the one looked for. */
    method Step(e: Entry)
      requires Valid() && |e| == 32
      modifies this, buffer
      ensures Valid() && View() == Next(old(View()), e)
    {
      if e[0] == 0xE5 {
        buffer[0], active := 0, false;
      } else if e[11] == 0x0F {
        if e[0] as int / 64 % 2 == 1 {
          buffer[0], active, sum := 0, true, e[13];
        } else if !active || e[13] != sum {
          buffer[0], active, sum := 0, true, e[13];
        }
        Collect(buffer, e);
      } else if e[11] as int / 8 % 2 == 1 {
        buffer[0], active := 0, false;
      } else if IsDotName(e) {
        buffer[0], active := 0, false;
      } else {
        seen := seen + 1;
        buffer[0], active := 0, false;
      }
    }

    /** The name of a visible entry. */
    method NameOf(e: Entry) returns (name: seq<byte>)
      requires Valid() && |e| == 32
      ensures name == NameFor(View(), e)
    {
      var checksum := DriverChecksum(e[..11]);
      if active && buffer[0] != 0 && checksum == sum {
        name := CopyName(buffer[..]);
      } else {
        name := ShortName(e);
      }
    }
  }

  /** Up to the terminator, and no more than fits with one. */
  method CopyName(b: seq<byte>) returns (name: seq<byte>)
    requires |b| == NAME_CAPACITY
    ensures name == Prefix(CString(b), NAME_CAPACITY - 1)
  {
    name := [];
    while |name| + 1 < NAME_CAPACITY && b[|name|] != 0
      invariant |name| < NAME_CAPACITY && name == b[..|name|] && forall i | 0 <= i < |name| :: b[i] != 0
      decreases NAME_CAPACITY - |name|
    {
      name := name + [b[|name|]];
    }
    CLengthIs(b, |name|);
  }

  /** A boot sector of a FAT32 volume the driver can read. */
  predicate BootAccepted(b: seq<byte>) {
    && |b| >= SECTOR && U16(b, 11) == SECTOR && b[13] > 0 && b[16] > 0
    && U16(b, 17) == 0 && U16(b, 22) == 0 && U32(b, 36) > 0 && U32(b, 44) >= 2
  }

  /** The tables come after the reserved sectors and the clusters after the tables. */
  predicate Layout(b: seq<byte>, fatStart: nat, dataStart: nat, sectorsPerCluster: nat, rootCluster: nat)
    requires BootAccepted(b)
  {
    && fatStart == U16(b, 14) && sectorsPerCluster == b[13] as int && rootCluster == U32(b, 44)
    && dataStart == (U16(b, 14) + b[16] as int * U32(b, 36)) % 0x1_0000_0000
  }

  class Volume {
    const ramdisk: seq<byte>
    var initialized: bool
    var bytesPerSector: nat
    var sectorsPerCluster: nat
    var fatStart: nat
    var dataStart: nat
    var rootCluster: nat

    constructor (ramdisk: seq<byte>)
      ensures this.ramdisk == ramdisk && !initialized
    {
      this.ramdisk := ramdisk;
      initialized := false;
      bytesPerSector, sectorsPerCluster, fatStart, dataStart, rootCluster := 0, 0, 0, 0, 0;
    }

    /** The volume was opened on an image of the builder's layout, which may be too long. */
    ghost predicate Ready()
      reads this
    {
      && initialized && |ramdisk| >= IMAGE_BYTES && bytesPerSector == SECTOR
      && sectorsPerCluster == SECTORS_PER_CLUSTER && rootCluster == ROOT_CLUSTER
      && fatStart == RESERVED_SECTORS && dataStart == RESERVED_SECTORS + FAT_COUNT * FAT_SECTORS
    }

    method ReadSector(lba: nat) returns (ok: bool, sector: seq<byte>)
      ensures ok <==> lba * 512 + 512 <= |ramdisk|
      ensures ok ==> sector == ramdisk[lba * 512..lba * 512 + 512]
    {
      var offset := lba * 512;
      if offset > |ramdisk| || |ramdisk| - offset < 512 {
        return false, [];
      }
      return true, ramdisk[offset..offset + 512];
    }

    /** init accepts exactly the boot sectors of a FAT32 volume with 512-byte sectors and takes
        over their layout, in 32 bits. */
    method Open()
      modifies this
      ensures initialized <==> BootAccepted(ramdisk)
      ensures initialized ==>
                Layout(ramdisk, fatStart, dataStart, sectorsPerCluster, rootCluster) && bytesPerSector == 512
      ensures |ramdisk| >= IMAGE_BYTES && BootOk(ramdisk) ==> Ready()
    {
      initialized := false;
      var ok, sector := ReadSector(0);
      if !ok {
        return;
      }
      assert sector == ramdisk[..512];
      bytesPerSector := U16(sector, 11);
      sectorsPerCluster := sector[13];
      rootCluster := U32(sector, 44);
      if bytesPerSector != 512 || sectorsPerCluster == 0 || U16(sector, 17) != 0 || U16(sector, 22) != 0 ||
         U32(sector, 36) == 0 || sector[16] == 0 || rootCluster < 2 {
        return;
      }
      fatStart := U16(sector, 14);
      dataStart := (fatStart + sector[16] as int * U32(sector, 36)) % 0x1_0000_0000;
      initialized := true;
    }

    method ReadFatEntry(cluster: nat) returns (value: nat)
      requires Ready() && cluster < FAT_ENTRIES
      ensures value == FatEntry(ramdisk[FAT1..FAT2], cluster)
    {
      var offset := cluster * 4;
      var index, rest := offset / bytesPerSector, offset % bytesPerSector;
      var ok, sector := ReadSector(fatStart + index);
      U32InSlice(ramdisk, (fatStart + index) * 512, (fatStart + index) * 512 + 512, rest);
      U32InSlice(ramdisk, FAT1, FAT2, offset);
      value := 0x0FFFFFF7;
      if ok {
        value := U32(sector, rest) % 0x1000_0000;
      }
    }

    method ReadClusterSector(cluster: nat, offset: nat) returns (ok: bool, sector: seq<byte>)
      requires Ready() && 2 <= cluster < FAT_ENTRIES
      ensures ok <==> offset < SECTORS_PER_CLUSTER && Offset(cluster) + offset * SECTOR + SECTOR <= |ramdisk|
      ensures ok ==> var at := Offset(cluster) + offset * SECTOR; sector == ramdisk[at..at + SECTOR]
    {
      if offset >= sectorsPerCluster {
        return false, [];
      }
      OffsetIs(cluster);
      ok, sector := ReadSector(dataStart + (cluster - 2) * sectorsPerCluster + offset);
    }

    /** The sixteen entries of one sector, which are entries k and on of the directory. */
    method ScanSector(scanner: Scanner, sector: seq<byte>, target: nat, ghost dir: seq<Entry>, ghost k: nat)
      returns (done: bool, result: Lookup)
      requires scanner.Valid() && |sector| == SECTOR && EntriesOk(dir) && k + 16 <= |dir|
      requires forall i | 0 <= i < 16 :: SectorEntry(sector, dir, k, i)
      modifies scanner, scanner.buffer
      ensures done ==> result == ScanFrom(dir, k, old(scanner.View()), target) && !result.Unreadable?
      ensures !done ==> ScanFrom(dir, k, old(scanner.View()), target) == ScanFrom(dir, k + 16, scanner.View(), target)
    {
      var i := 0;
      while i < 16
        invariant i <= 16
        invariant ScanFrom(dir, k, old(scanner.View()), target) == ScanFrom(dir, k + i, scanner.View(), target)
      {
        assert SectorEntry(sector, dir, k, i);
        var e := sector[32 * i..32 * i + 32];
        if e[0] == 0 {
          return true, NotFound;
        }
        if Visible(e) && scanner.seen == target {
          var name := scanner.NameOf(e);
          return true, Found(name, e);
        }
        scanner.Step(e);
        i := i + 1;
      }
      return false, NotFound;
    }

    /** One sector of a cluster. If it is not in the image it ends the scan. */
    method ReadAndScan(scanner: Scanner, cluster: nat, s: nat, target: nat, ghost rootClusters: nat)
      returns (done: bool, result: Lookup)
      requires Ready() && scanner.Valid() && 2 <= cluster < 2 + rootClusters <= FAT_ENTRIES && s < SECTORS_PER_CLUSTER
      modifies scanner, scanner.buffer
      ensures var dir, k, was := DirIn(ramdisk, rootClusters), 128 * (cluster - 2) + 16 * s, old(scanner.View());
              && (done ==> result == ScanFrom(dir, k, was, target))
              && (!done ==> ScanFrom(dir, k, was, target) == ScanFrom(dir, k + 16, scanner.View(), target))
              && (!done ==> k + 16 <= |dir|) && (done && result.Unreadable? ==> |dir| < 128 * rootClusters)
    {
      ghost var dir, k := DirIn(ramdisk, rootClusters), 128 * (cluster - 2) + 16 * s;
      var ok, sector := ReadClusterSector(cluster, s);
      SectorInImage(ramdisk, rootClusters, cluster, s);
      if !ok {
        return true, Unreadable;
      }
      SectorIsDirectory(ramdisk, rootClusters, cluster, s, sector, k);
      done, result := ScanSector(scanner, sector, target, dir, k);
    }

    /** The sectors of one cluster. */
    method ScanCluster(scanner: Scanner, cluster: nat, target: nat, ghost rootClusters: nat)
      returns (done: bool, result: Lookup)
      requires Ready() && scanner.Valid() && 2 <= cluster < 2 + rootClusters <= FAT_ENTRIES
      modifies scanner, scanner.buffer
      ensures var dir, k, s := DirIn(ramdisk, rootClusters), 128 * (cluster - 2), old(scanner.View());
              && (done ==> result == ScanFrom(dir, k, s, target))
              && (!done ==> ScanFrom(dir, k, s, target) == ScanFrom(dir, k + 128, scanner.View(), target))
              && (!done ==> k + 128 <= |dir|) && (done && result.Unreadable? ==> |dir| < 128 * rootClusters)
    {
      ghost var dir, k := DirIn(ramdisk, rootClusters), 128 * (cluster - 2);
      var s := 0;
      while s < sectorsPerCluster
        invariant s <= SECTORS_PER_CLUSTER && (s > 0 ==> k + 16 * s <= |dir|)
        invariant ScanFrom(dir, k, old(scanner.View()), target) == ScanFrom(dir, k + 16 * s, scanner.View(), target)
      {
        done, result := ReadAndScan(scanner, cluster, s, target, rootClusters);
        if done {
          return;
        }
        s := s + 1;
      }
      return false, NotFound;
    }

    /** The cluster after one of the root directory's. */
    method FollowRoot(cluster: nat, ghost rootClusters: nat) returns (next: nat)
      requires Ready() && RootOk(ramdisk, rootClusters) && 2 <= cluster < 2 + rootClusters
      ensures next == if cluster + 1 < 2 + rootClusters then cluster + 1 else END_OF_CHAIN
    {
      assert Linked(ramdisk[FAT1..FAT2], ROOT_CLUSTER + rootClusters, cluster);
      next := ReadFatEntry(cluster);
    }

    /** read_dir_entry_internal on the root directory: the chain of clusters, in each the
        sectors, in each the entries. Past the chain's end there is nothing; past the image's
        there is an error. */
    method ReadDirEntry(target: nat, garbage: seq<byte>, ghost rootClusters: nat)
      returns (result: Lookup)
      requires Ready() && |garbage| == NAME_CAPACITY && RootOk(ramdisk, rootClusters)
      ensures Answer(DirIn(ramdisk, rootClusters), rootClusters, target, result)
    {
      var scanner := new Scanner(garbage);
      result := ScanChain(scanner, target, rootClusters);
    }

    method ScanChain(scanner: Scanner, target: nat, ghost rootClusters: nat) returns (result: Lookup)
      requires Ready() && scanner.Valid() && RootOk(ramdisk, rootClusters)
      modifies scanner, scanner.buffer
      ensures var dir, start := DirIn(ramdisk, rootClusters), old(scanner.View());
              var scanned := ScanFrom(dir, 0, start, target);
              if result.NotFound? && scanned.Unreadable? then |dir| >= 128 * rootClusters
              else result == scanned && (result.Unreadable? ==> |dir| < 128 * rootClusters)
    {
      ghost var dir, start := DirIn(ramdisk, rootClusters), scanner.View();
      var cluster := rootCluster;
      ghost var c := cluster;
      while cluster >= 2 && cluster < 0x0FFFFFF8
        invariant 2 <= c <= 2 + rootClusters
        invariant cluster == (if c < 2 + rootClusters then c else END_OF_CHAIN)
        invariant c > 2 ==> 128 * (c - 2) <= |dir|
        invariant ScanFrom(dir, 0, start, target) == ScanFrom(dir, 128 * (c - 2), scanner.View(), target)
        decreases 2 + rootClusters - c
      {
        var done;
        done, result := ScanCluster(scanner, cluster, target, rootClusters);
        if done {
          return;
        }
        cluster := FollowRoot(cluster, rootClusters);
        c := c + 1;
      }
      result := NotFound;
    }

    /** One of the files, or the end after the last one. */
    method FindNext(index: nat, garbage: seq<byte>, ghost files: seq<File>, ghost shorts: seq<Entry>)
      returns (found: Lookup)
      requires Ready() && |garbage| == NAME_CAPACITY && NamesOk(files) && HeadOf(ramdisk, files, shorts)
      requires index < |files| || (index == |files| && Ended(ramdisk, files, shorts))
      ensures found == if index < SeenIn(ramdisk, files) then FileAt(files, shorts, index)
                       else if index < |files| then Unreadable else NotFound
      ensures found.Found? ==> found.name == SeenNames(files, shorts)[index] && ShortOk(found.entry)
    {
      HeadRoot(ramdisk, files, shorts);
      found := ReadDirEntry(index, garbage, RootClusters(files));
      EntryFound(ramdisk, files, shorts, index, found);
      if found.Found? {
        assert ShortIs(files, shorts, index);
      }
    }

    /** find_in_directory: the first file with that name, and none only if there is none. Where
        the directory is cut off it is an error. */
    method FindInRoot(segment: seq<byte>, garbage: seq<byte>, ghost files: seq<File>, ghost shorts: seq<Entry>)
      returns (status: Status, entry: Entry)
      requires Ready() && |garbage| == NAME_CAPACITY && NamesOk(files) && HeadOf(ramdisk, files, shorts)
      requires Ended(ramdisk, files, shorts) || Named(SeenNames(files, shorts), segment)
      ensures segment == [] ==> status == InvalidPath
      ensures segment != [] ==> status == LookedUp(SeenNames(files, shorts), SeenIn(ramdisk, files), segment)
      ensures status == Success ==> entry == shorts[FirstNamed(SeenNames(files, shorts), segment)] && ShortOk(entry)
    {
      if segment == [] {
        return InvalidPath, [];
      }
      ghost var names := SeenNames(files, shorts);
      var index := 0;
      while true
        invariant index <= |files| && NotNamedBefore(names, segment, index) && index <= SeenIn(ramdisk, files)
        decreases |files| - index
      {
        FirstFromBeyond(names, segment, 0, index);
        var found := FindNext(index, garbage, files, shorts);
        if found.NotFound? {
          return Missing, [];
        }
        if found.Unreadable? {
          return IoError, [];
        }
        if found.name == segment {
          FirstFromIs(names, segment, 0, index);
          return Success, found.entry;
        }
        index := index + 1;
      }
    }

    /** read_file_path from the point where the entry is known: it gives what is in the clusters of
        the chain up to the size, and an error exactly if one of the sectors is not in the image. */
    method ReadChain(first: nat, size: nat) returns (status: Status, bytes: seq<byte>)
      requires Ready()
      requires size > 0 ==> first >= 2 && Chained(ramdisk[FAT1..FAT2], first, first + ClustersFor(size))
      ensures size == 0 ==> status == Success && bytes == []
      ensures size > 0 ==> status == if Offset(first) + SectorBytes(size) <= |ramdisk| then Success else IoError
      ensures size > 0 && status == Success ==> |bytes| == size && StandsAt(ramdisk, first, bytes)
    {
      bytes := [];
      var remaining, cluster := size, first;
      while cluster >= 2 && cluster < 0x0FFFFFF8 && remaining > 0
        invariant remaining == size - |bytes|
        invariant bytes != [] ==> StandsAt(ramdisk, first, bytes)
        invariant remaining > 0 ==>
                    first <= cluster < first + ClustersFor(size) && |bytes| == (cluster - first) * CLUSTER
        decreases remaining
      {
        var ok;
        ok, bytes, remaining := ReadCluster(cluster, bytes, remaining, first, size);
        if !ok {
          return IoError, bytes;
        }
        assert Linked(ramdisk[FAT1..FAT2], first + ClustersFor(size), cluster);
        cluster := ReadFatEntry(cluster);
      }
      status := if remaining == 0 then Success else IoError;
    }

    /** The two dot names are refused; every other one is looked for. */
    method FindSegment(segment: seq<byte>, garbage: seq<byte>, ghost files: seq<File>, ghost shorts: seq<Entry>)
      returns (status: Status, entry: Entry)
      requires Ready() && |garbage| == NAME_CAPACITY && NamesOk(files) && HeadOf(ramdisk, files, shorts)
      requires Ended(ramdisk, files, shorts) || Named(SeenNames(files, shorts), segment)
      requires 0 < |segment| < NAME_CAPACITY
      ensures status == ResolvedName(SeenNames(files, shorts), SeenIn(ramdisk, files), segment)
      ensures status == Success ==> entry == shorts[FirstNamed(SeenNames(files, shorts), segment)] && ShortOk(entry)
    {
      if segment == [DOT] || segment == [DOT, DOT] {
        return Unsupported, [];
      }
      status, entry := FindInRoot(segment, garbage, files, shorts);
    }

    /** One round of resolve_path. The builder makes no directories, so anything after the first
        component is refused. */
    method ResolveComponent(path: seq<byte>, cursor: nat, garbage: seq<byte>, ghost files: seq<File>,
                            ghost shorts: seq<Entry>, ghost parts: seq<seq<byte>>)
      returns (status: Status, entry: Entry, next: nat)
      requires Ready() && |garbage| == NAME_CAPACITY && NamesOk(files) && HeadOf(ramdisk, files, shorts)
      requires Ended(ramdisk, files, shorts) || NamesFirst(SeenNames(files, shorts), parts)
      requires cursor < |path| && path[cursor] != SLASH && Components(path[cursor..]) == parts
      ensures parts != [] && status == ResolvedParts(SeenNames(files, shorts), SeenIn(ramdisk, files), parts)
      ensures status == Success ==> next == |path| && entry == shorts[FirstNamed(SeenNames(files, shorts), parts[0])]
    {
      var fits, segment := TakeSegment(path, cursor);
      entry, next := [], cursor;
      if !fits {
        return InvalidPath, entry, next;
      }
      status, entry := FindSegment(segment, garbage, files, shorts);
      if status != Success {
        return;
      }
      status, next := LeaveSegment(path, cursor + |segment|, entry);
    }

    /** resolve_path: component after component, and the root directory if there is none. */
    method ResolvePath(path: seq<byte>, garbage: seq<byte>, ghost files: seq<File>, ghost shorts: seq<Entry>)
      returns (status: Status, isRoot: bool, entry: Entry)
      requires Ready() && |garbage| == NAME_CAPACITY && NamesOk(files) && HeadOf(ramdisk, files, shorts)
      requires Ended(ramdisk, files, shorts) || NamesFirst(SeenNames(files, shorts), Components(path))
      ensures status == ResolvedParts(SeenNames(files, shorts), SeenIn(ramdisk, files), Components(path))
      ensures status == Success ==> (isRoot <==> Components(path) == [])
      ensures status == Success && !isRoot ==>
                entry == shorts[FirstNamed(SeenNames(files, shorts), Components(path)[0])]
    {
      var cursor := 0;
      status, isRoot, entry := Success, true, [];
      ghost var parts, names, seen := Components(path), SeenNames(files, shorts), SeenIn(ramdisk, files);
      assert path[0..] == path;
      while cursor < |path|
        invariant cursor <= |path| && status == Success && (isRoot ==> Components(path[cursor..]) == parts)
        invariant !isRoot ==> cursor == |path| && ResolvedParts(names, seen, parts) == Success && parts != []
        invariant !isRoot ==> entry == shorts[FirstNamed(names, parts[0])]
        decreases |path| - cursor
      {
        cursor := SkipSlashes(path, cursor);
        NothingLeft(path, cursor);
        if cursor == |path| {
          break;
        }
        isRoot := false;
        status, entry, cursor := ResolveComponent(path, cursor, garbage, files, shorts, parts);
        if status != Success {
          return;
        }
      }
      NothingLeft(path, cursor);
    }

    /** read_file_path on any image that was built: the status for every path and buffer size, and
        what is in the file's clusters. */
    method ReadFile(path: seq<byte>, bufferSize: nat, garbage: seq<byte>, ghost files: seq<File>,
                    ghost shorts: seq<Entry>)
      returns (status: Status, bytes: seq<byte>)
      requires Ready() && |garbage| == NAME_CAPACITY && NamesOk(files) && BuiltAs(ramdisk, files, shorts)
      requires Ended(ramdisk, files, shorts) || NamesFirst(SeenNames(files, shorts), Components(path))
      requires 0 !in path
      ensures var names := SeenNames(files, shorts);
              && status == Answered(files, names, SeenIn(ramdisk, files), |ramdisk|, path, bufferSize)
              && (status == Success ==> bytes == BytesAt(ramdisk, files, FirstNamed(names, Components(path)[0])))
    {
      var isRoot, entry;
      status, isRoot, entry := ResolvePath(path, garbage, files, shorts);
      if status != Success {
        return status, [];
      }
      if isRoot {
        return InvalidPath, [];
      }
      ghost var i := FirstNamed(SeenNames(files, shorts), Components(path)[0]);
      status, bytes := ReadEntry(entry, bufferSize, files, shorts, i);
    }

    /** The same from the entry of file i on. */
    method ReadEntry(entry: Entry, bufferSize: nat, ghost files: seq<File>, ghost shorts: seq<Entry>, ghost i: nat)
      returns (status: Status, bytes: seq<byte>)
      requires Ready() && BuiltAs(ramdisk, files, shorts) && i < |files| == |shorts| && entry == shorts[i]
      ensures var size := |files[i].data|;
              status == if bufferSize < (if size > 0 then size else 1) then BufferTooSmall
                        else if InImage(files, |ramdisk|, i) then Success else IoError
      ensures status == Success ==> InImage(files, |ramdisk|, i) && bytes == BytesAt(ramdisk, files, i)
    {
      EntryKnown(ramdisk, files, shorts, i);
      if entry[11] as int / 16 % 2 == 1 {
        return InvalidPath, [];
      }
      var size := SizeIn(entry);
      if bufferSize < (if size > 0 then size else 1) {
        return BufferTooSmall, [];
      }
      status, bytes := ReadChain(FirstClusterIn(entry), size);
    }

    /** The sectors of one cluster, up to the end of the file. */
    method ReadCluster(cluster: nat, copied: seq<byte>, left: nat, ghost first: nat, ghost size: nat)
      returns (ok: bool, bytes: seq<byte>, remaining: nat)
      requires Ready() && 2 <= first <= cluster < first + ClustersFor(size) <= FAT_ENTRIES
      requires |copied| == (cluster - first) * CLUSTER && left == size - |copied| > 0
      requires copied != [] ==> StandsAt(ramdisk, first, copied)
      ensures !ok ==> Offset(first) + SectorBytes(size) > |ramdisk|
      ensures ok ==> remaining == size - |bytes| && bytes != [] && StandsAt(ramdisk, first, bytes)
      ensures ok ==> |bytes| == if left <= CLUSTER then size else |copied| + CLUSTER
    {
      bytes, remaining := copied, left;
      var s := 0;
      while s < sectorsPerCluster && remaining > 0
        invariant s <= SECTORS_PER_CLUSTER && remaining == size - |bytes|
        invariant |bytes| == if left <= s * SECTOR then size else |copied| + s * SECTOR
        invariant bytes != [] ==> StandsAt(ramdisk, first, bytes)
      {
        var sector;
        ok, sector := ReadClusterSector(cluster, s);
        OneMoreSector(ramdisk, first, size, cluster, s, bytes);
        if !ok {
          return;
        }
        var chunk := if remaining > bytesPerSector then bytesPerSector else remaining;
        SectorStands(ramdisk, first, bytes, sector, chunk);
        bytes := bytes + sector[..chunk];
        remaining := remaining - chunk;
        s := s + 1;
      }
      ok := true;
    }
  }

  // ----- Paths -----

  const SLASH: byte := 47

  /** How many characters come before the first slash. */
  function SegmentLength(path: seq<byte>): (n: nat)
    ensures n <= |path| && (n < |path| ==> path[n] == SLASH)
    ensures forall i | 0 <= i < n :: path[i] != SLASH
  {
    if path == [] || path[0] == SLASH then 0 else 1 + SegmentLength(path[1..])
  }

  /** The parts of a path between its slashes. */
  function Components(path: seq<byte>): seq<seq<byte>>
    decreases |path|
  {
    if path == [] then []
    else if path[0] == SLASH then Components(path[1..])
    else [path[..SegmentLength(path)]] + Components(path[SegmentLength(path)..])
  }

  method SkipSlashes(path: seq<byte>, cursor: nat) returns (next: nat)
    requires cursor <= |path|
    ensures cursor <= next <= |path| && (next < |path| ==> path[next] != SLASH)
    ensures Components(path[next..]) == Components(path[cursor..])
  {
    next := cursor;
    while next < |path| && path[next] == SLASH
      invariant cursor <= next <= |path| && Components(path[next..]) == Components(path[cursor..])
    {
      assert path[next..][1..] == path[next + 1..];
      next := next + 1;
    }
  }

  /** The component at the cursor, if it fits in the segment buffer. */
  method TakeSegment(path: seq<byte>, cursor: nat) returns (fits: bool, segment: seq<byte>)
    requires cursor < |path| && path[cursor] != SLASH
    ensures var parts := Components(path[cursor..]);
            && parts != [] && parts[0] != [] && (fits <==> |parts[0]| < NAME_CAPACITY)
            && (fits ==> && segment == parts[0] && cursor + |segment| <= |path|
                         && |parts| == 1 + |Components(path[cursor + |segment|..])|)
  {
    var len := 0;
    FirstComponent(path, cursor, SegmentLength(path[cursor..]));
    while cursor + len < |path| && path[cursor + len] != SLASH
      invariant cursor + len <= |path| && len < NAME_CAPACITY
      invariant forall i | 0 <= i < len :: path[cursor..][i] != SLASH
      decreases |path| - len
    {
      if len + 1 >= NAME_CAPACITY {
        return false, [];
      }
      len := len + 1;
    }
    return true, path[cursor..cursor + len];
  }

  /** Past the slashes after a component. If more follows, the entry must be a directory. */
  method LeaveSegment(path: seq<byte>, cursor: nat, entry: Entry) returns (status: Status, next: nat)
    requires cursor <= |path| && ShortOk(entry)
    ensures status == if Components(path[cursor..]) != [] then Missing else Success
    ensures status == Success ==> next == |path|
  {
    next := SkipSlashes(path, cursor);
    NothingLeft(path, next);
    status := if next < |path| && entry[11] as int / 16 % 2 == 0 then Missing else Success;
  }

  lemma FirstComponent(path: seq<byte>, cursor: nat, len: nat)
    requires cursor < |path| && path[cursor] != SLASH && len == SegmentLength(path[cursor..])
    ensures 0 < len && cursor + len <= |path|
    ensures var parts := Components(path[cursor..]);
            parts != [] && parts[0] == path[cursor..cursor + len] && |parts| == 1 + |Components(path[cursor + len..])|
  {
    var rest := path[cursor..];
    assert rest[..len] == path[cursor..cursor + len] && rest[len..] == path[cursor + len..];
  }

  lemma NothingLeft(path: seq<byte>, cursor: nat)
    requires cursor <= |path| && (cursor < |path| ==> path[cursor] != SLASH)
    ensures Components(path[cursor..]) == [] <==> cursor == |path|
  {
  }

  /** The names under which the driver sees the files. */
  function SeenNames(files: seq<File>, shorts: seq<Entry>): (names: seq<Name>)
    requires |shorts| == |files| && EntriesOk(shorts)
    ensures |names| == |files|
  {
    seq(|files|, i requires 0 <= i < |files| => NameSeen(files[i].name, shorts[i]))
  }

  /** How many files have their whole group of entries in the image. */
  function SeenIn(image: seq<byte>, files: seq<File>): (seen: nat)
    requires |image| >= DATA
    ensures seen <= |files|
  {
    SeenCount(files, |DirIn(image, RootClusters(files))|, |files|)
  }

  /** What looking for a name must give if the entries of the first `seen` files can be read. */
  function LookedUp(names: seq<Name>, seen: nat, n: seq<byte>): Status {
    if FirstNamed(names, n) < seen then Success
    else if seen < |names| then IoError
    else Missing
  }

  /** What looking for a component in the root directory must give. */
  function ResolvedName(names: seq<Name>, seen: nat, n: seq<byte>): Status {
    if |n| >= NAME_CAPACITY then InvalidPath
    else if n == [DOT] || n == [DOT, DOT] then Unsupported
    else LookedUp(names, seen, n)
  }

  /** What resolving a path of these components must give. */
  function ResolvedParts(names: seq<Name>, seen: nat, parts: seq<seq<byte>>): Status {
    if parts == [] then Success
    else if |parts| > 1 && ResolvedName(names, seen, parts[0]) == Success then Missing
    else ResolvedName(names, seen, parts[0])
  }

  predicate NamesFirst(names: seq<Name>, parts: seq<seq<byte>>) { parts != [] && Named(names, parts[0]) }

  /** What reading a path must give. */
  function Expected(files: seq<File>, names: seq<Name>, path: seq<byte>, bufferSize: nat): Status
    requires |names| == |files|
  {
    var parts := Components(path);
    if parts == [] then InvalidPath
    else if ResolvedParts(names, |names|, parts) != Success then ResolvedParts(names, |names|, parts)
    else
      var size := |files[FirstNamed(names, parts[0])].data|;
      if bufferSize < (if size > 0 then size else 1) then BufferTooSmall else Success
  }

  /** What reading a path must give in an image of this length, if the entries of the first `seen`
      files can be read. */
  function Answered(files: seq<File>, names: seq<Name>, seen: nat, length: nat, path: seq<byte>,
                    bufferSize: nat): Status
    requires |names| == |files| && seen <= |files|
  {
    var parts := Components(path);
    if parts == [] then InvalidPath
    else if ResolvedParts(names, seen, parts) != Success then ResolvedParts(names, seen, parts)
    else
      var i := FirstNamed(names, parts[0]);
      var size := |files[i].data|;
      if bufferSize < (if size > 0 then size else 1) then BufferTooSmall
      else if InImage(files, length, i) then Success else IoError
  }

  lemma EntryKnown(image: seq<byte>, files: seq<File>, shorts: seq<Entry>, i: nat)
    requires BuiltAs(image, files, shorts) && i < |files|
    ensures |shorts| == |files| && ShortOk(shorts[i]) && SizeIn(shorts[i]) == |files[i].data|
    ensures FirstClusterIn(shorts[i]) == FirstOf(files, RootClusters(files), i)
    ensures ChainedAt(image[FAT1..FAT2], files, RootClusters(files), i)
  {
    assert ShortIs(files, shorts, i);
  }

  /** The directory and the mark after it are in the image. */
  ghost predicate Ended(image: seq<byte>, files: seq<File>, shorts: seq<Entry>)
    requires |image| >= DATA
  {
    DirectoryOf(DirIn(image, RootClusters(files)), files, shorts)
  }

  /** Then every entry can be read. */
  lemma AllSeen(image: seq<byte>, files: seq<File>, shorts: seq<Entry>)
    requires |image| >= DATA && Ended(image, files, shorts)
    ensures SeenIn(image, files) == |files|
  {
  }

  /** The first file from k on that is seen under this name, or the number of files. */
  function FirstFrom(names: seq<Name>, n: seq<byte>, k: nat): (i: nat)
    requires k <= |names|
    ensures k <= i <= |names|
    decreases |names| - k
  {
    if k == |names| || names[k] == n then k else FirstFrom(names, n, k + 1)
  }

  function FirstNamed(names: seq<Name>, n: seq<byte>): nat { FirstFrom(names, n, 0) }

  predicate Named(names: seq<Name>, n: seq<byte>) { FirstNamed(names, n) < |names| }

  predicate NotNamedBefore(names: seq<Name>, n: seq<byte>, i: nat)
    requires i <= |names|
  {
    forall j | 0 <= j < i :: names[j] != n
  }

  lemma {:induction false} FirstFromIs(names: seq<Name>, n: seq<byte>, k: nat, i: nat)
    requires k <= i <= |names| && NotNamedBefore(names, n, i)
    requires i < |names| ==> names[i] == n
    ensures FirstFrom(names, n, k) == i
    decreases i - k
  {
    if k < i { FirstFromIs(names, n, k + 1, i); }
  }

  lemma {:induction false} FirstFromBeyond(names: seq<Name>, n: seq<byte>, k: nat, i: nat)
    requires k <= i <= |names| && NotNamedBefore(names, n, i)
    ensures FirstFrom(names, n, k) >= i
    decreases i - k
  {
    if k < i { FirstFromBeyond(names, n, k + 1, i); }
  }

  /** It is the one such file before which there is no other. */
  lemma {:induction false} FirstFromFinds(names: seq<Name>, n: seq<byte>, k: nat)
    requires k <= |names| && NotNamedBefore(names, n, k)
    ensures NotNamedBefore(names, n, FirstFrom(names, n, k))
    ensures FirstFrom(names, n, k) < |names| ==> names[FirstFrom(names, n, k)] == n
    decreases |names| - k
  {
    if k < |names| && names[k] != n { FirstFromFinds(names, n, k + 1); }
  }

  /** The result of scanning the directory from its start, with any contents of the name
      buffer. */
  ghost predicate ScannedFromStart(dir: seq<Entry>, target: nat, result: Lookup)
    requires FatDirectory.EntriesOk(dir)
  {
    exists s :: ScanOk(s) && s.seen == 0 && result == ScanFrom(dir, 0, s, target)
  }

  /** What a scan of the directory gives. Running out of entries is no error at the end of the
      chain. */
  ghost predicate Answer(dir: seq<Entry>, rootClusters: nat, target: nat, result: Lookup)
    requires FatDirectory.EntriesOk(dir)
  {
    || (ScannedFromStart(dir, target, result) && (result.Unreadable? ==> |dir| < 128 * rootClusters))
    || (result == NotFound && |dir| >= 128 * rootClusters && ScannedFromStart(dir, target, Unreadable))
  }

  lemma BegunFinds(dir: seq<Entry>, files: seq<File>, shorts: seq<Entry>, target: nat, found: Lookup)
    requires BeginsDirectory(dir, files, shorts) && NamesOk(files) && ScannedFromStart(dir, target, found)
    requires target < |files|
    ensures found == if target < SeenCount(files, |dir|, |files|) then FileAt(files, shorts, target) else Unreadable
  {
    var s :| ScanOk(s) && s.seen == 0 && found == ScanFrom(dir, 0, s, target);
    ScanFindsBegun(dir, files, shorts, 0, s, target);
    SeenIff(files, |dir|, |files|, target);
  }

  /** The answer for each file, and the one after the last file if the directory is inside. */
  lemma EntryFound(image: seq<byte>, files: seq<File>, shorts: seq<Entry>, target: nat, found: Lookup)
    requires HeadOf(image, files, shorts) && NamesOk(files)
    requires target < |files| || (target == |files| && Ended(image, files, shorts))
    requires Answer(DirIn(image, RootClusters(files)), RootClusters(files), target, found)
    ensures found == if target < SeenIn(image, files) then FileAt(files, shorts, target)
                     else if target < |files| then Unreadable else NotFound
  {
    var rc := RootClusters(files);
    var dir := DirIn(image, rc);
    var scanned := if ScannedFromStart(dir, target, found) then found else Unreadable;
    if target < |files| {
      BegunFinds(dir, files, shorts, target, scanned);
      SeenIff(files, |dir|, |files|, target);
      EntriesGrow(files, target + 1, |files|);
    } else {
      DirectoryFinds(dir, files, shorts, target, scanned);
    }
  }

  lemma HeadRoot(image: seq<byte>, files: seq<File>, shorts: seq<Entry>)
    requires HeadOf(image, files, shorts)
    ensures RootOk(image, RootClusters(files))
  {
  }

  lemma DirectoryFinds(dir: seq<Entry>, files: seq<File>, shorts: seq<Entry>, target: nat, found: Lookup)
    requires DirectoryOf(dir, files, shorts) && NamesOk(files) && ScannedFromStart(dir, target, found)
    ensures found == FileAt(files, shorts, target)
  {
    var s :| ScanOk(s) && s.seen == 0 && found == ScanFrom(dir, 0, s, target);
    ScanFinds(dir, files, shorts, 0, s, target);
  }

  /** These bytes stand in the image from the cluster on, and all their sectors are in it. */
  ghost predicate StandsAt(image: seq<byte>, first: nat, bytes: seq<byte>) {
    && first >= 2 && Offset(first) + SectorBytes(|bytes|) <= |image| && |bytes| <= SectorBytes(|bytes|)
    && bytes == image[Offset(first)..Offset(first) + |bytes|]
  }

  /** Where the next sector is, and what it means if it is not in the image. */
  lemma OneMoreSector(image: seq<byte>, first: nat, size: nat, cluster: nat, s: nat, bytes: seq<byte>)
    requires 2 <= first <= cluster && |bytes| == (cluster - first) * CLUSTER + s * SECTOR < size
    ensures |bytes| % SECTOR == 0 && Offset(cluster) + s * SECTOR == Offset(first) + |bytes|
    ensures |bytes| + SECTOR <= SectorBytes(size)
  {
    OffsetIs(first);
    OffsetIs(cluster);
    SectorsAscend(|bytes|, |bytes| + 1);
    SectorsAscend(|bytes| + 1, size);
  }

  lemma SectorStands(image: seq<byte>, first: nat, bytes: seq<byte>, sector: seq<byte>, chunk: nat)
    requires first >= 2 && |bytes| % SECTOR == 0 && 0 < chunk <= SECTOR
    requires bytes != [] ==> StandsAt(image, first, bytes)
    requires var at := Offset(first) + |bytes|; at + SECTOR <= |image| && sector == image[at..at + SECTOR]
    ensures StandsAt(image, first, bytes + sector[..chunk])
  {
    SectorsAscend(|bytes|, |bytes| + chunk);
    var lo, at := Offset(first), Offset(first) + |bytes|;
    assert sector[..chunk] == image[at..at + chunk];
    assert image[lo..at + chunk] == image[lo..at] + image[at..at + chunk];
  }

  /** The root directory has its chain in the table. */
  ghost predicate RootOk(image: seq<byte>, rootClusters: nat) {
    && |image| >= IMAGE_BYTES && 1 <= rootClusters && 2 + rootClusters <= FAT_ENTRIES
    && Chained(image[FAT1..FAT2], ROOT_CLUSTER, ROOT_CLUSTER + rootClusters)
  }

  lemma SectorIsDirectory(image: seq<byte>, rootClusters: nat, cluster: nat, s: nat, sector: seq<byte>, k: nat)
    requires |image| >= IMAGE_BYTES && 2 <= cluster < 2 + rootClusters && s < SECTORS_PER_CLUSTER
    requires var at := Offset(cluster) + s * SECTOR; at + SECTOR <= |image| && sector == image[at..at + SECTOR]
    requires k == 128 * (cluster - 2) + 16 * s && k + 16 <= |DirIn(image, rootClusters)|
    ensures forall i | 0 <= i < 16 :: SectorEntry(sector, DirIn(image, rootClusters), k, i)
  {
    OffsetIs(cluster);
    var at, dir := Offset(cluster) + s * SECTOR, DirIn(image, rootClusters);
    forall i | 0 <= i < 16 ensures SectorEntry(sector, dir, k, i) {
      var lo := DATA + 32 * (k + i);
      assert lo == at + 32 * i;
      assert dir[k + i] == image[lo..lo + 32];
      SliceOfSlice(image, at, at + SECTOR, 32 * i, 32 * i + 32);
    }
  }

  /** A sector of the root directory is in the image exactly if its entries are in DirIn. */
  lemma SectorInImage(image: seq<byte>, rootClusters: nat, cluster: nat, s: nat)
    requires |image| >= DATA && 2 <= cluster < 2 + rootClusters && s < SECTORS_PER_CLUSTER
    ensures var k, n := 128 * (cluster - 2) + 16 * s, |DirIn(image, rootClusters)|;
            if Offset(cluster) + s * SECTOR + SECTOR <= |image| then k + 16 <= n else n <= k && n < 128 * rootClusters
  {
    OffsetIs(cluster);
    var sector := SECTORS_PER_CLUSTER * (cluster - 2) + s;
    assert Offset(cluster) + s * SECTOR == DATA + SECTOR * sector;
    assert sector < (|image| - DATA) / SECTOR <==> SECTOR * sector + SECTOR <= |image| - DATA;
  }

  predicate SectorEntry(sector: seq<byte>, dir: seq<Entry>, k: nat, i: nat)
    requires |sector| == SECTOR && k + 16 <= |dir| && i < 16
  {
    sector[32 * i..32 * i + 32] == dir[k + i]
  }

  // ----- Builder and driver together -----

  const HELLO_NAME: Name := Codes("hello.txt")
  const HELLO_TEXT: seq<byte> := Codes("hello fat32 root\n")

  /** The builder's list: what was asked for and a greeting, which also replaces the contents
      of any file of its name. */
  function FileList(specs: seq<File>): seq<File> {
    seq(|specs|, i requires 0 <= i < |specs| =>
      if specs[i].name == HELLO_NAME then specs[i].(data := HELLO_TEXT) else specs[i]) +
    [File(HELLO_NAME, HELLO_TEXT)]
  }

  /** The builder fails exactly if the table is too small, and leaves an image of 32768 sectors
      exactly if the files fit in one. From that image the driver reads, under each path of one
      component, the bytes of the first file it sees under that name, and it finds no others. From
      an image that is too long, with the directory inside, it reads under such a path what
      BytesRead says, or fails if that is not in the image. */
  method ReadBack(specs: seq<File>, path: seq<byte>, bufferSize: nat, garbage: seq<byte>)
    returns (built: bool, whole: bool, status: Status, bytes: seq<byte>, ghost shorts: seq<Entry>)
    requires (forall f | f in specs :: 0 !in f.name) && |garbage| == NAME_CAPACITY && 0 !in path
    ensures var files := FileList(specs);
            && (built <==> NamesFit(files) && Needed(files) <= FAT_ENTRIES)
            && (whole <==> NamesFit(files) && Fits(files, RootClusters(files)))
            && (whole ==> built && RootFits(files))
    ensures built ==> SeenAs(FileList(specs), shorts)
    ensures built && RootFits(FileList(specs)) ==>
              var files, names := FileList(specs), SeenNames(FileList(specs), shorts);
              && status == Answered(files, names, |names|, FinalLength(files), path, bufferSize)
              && (status == Success ==> bytes == BytesRead(files, FirstNamed(names, Components(path)[0])))
    ensures whole ==>
              var files, names := FileList(specs), SeenNames(FileList(specs), shorts);
              && status == Expected(files, names, path, bufferSize)
              && (status == Success ==> bytes == files[FirstNamed(names, Components(path)[0])].data)
  {
    var files := FileList(specs);
    assert files[|specs|].data != [];
    status, bytes := IoError, [];
    var image;
    image, shorts := Build(files);
    built := image.Some?;
    whole := built && |image.value| == IMAGE_BYTES;
    if built {
      ListedNames(specs);
      SeenWell(image.value, files, shorts);
      if Fits(files, RootClusters(files)) { FittingIsSmall(files); }
      if RootFits(files) {
        var volume := new Volume(image.value);
        volume.Open();
        status, bytes := volume.ReadFile(path, bufferSize, garbage, files, shorts);
        ReadFromLayout(image.value, files, shorts, path, bufferSize);
      }
    }
  }

  /** What the driver answers, said by the files alone. */
  lemma ReadFromLayout(image: seq<byte>, files: seq<File>, shorts: seq<Entry>, path: seq<byte>, bufferSize: nat)
    requires BuiltAs(image, files, shorts) && RootFits(files)
    ensures Ended(image, files, shorts) && SeenIn(image, files) == |files|
    ensures var names, parts := SeenNames(files, shorts), Components(path);
            var answer := Answered(files, names, |names|, |image|, path, bufferSize);
            && (answer == Success ==>
                  var i := FirstNamed(names, parts[0]); BytesAt(image, files, i) == BytesRead(files, i))
            && (Fits(files, RootClusters(files)) ==>
                  && answer == Expected(files, names, path, bufferSize)
                  && (answer == Success ==>
                        var i := FirstNamed(names, parts[0]); BytesRead(files, i) == files[i].data))
  {
    var names, parts := SeenNames(files, shorts), Components(path);
    AllSeen(image, files, shorts);
    if parts != [] && Named(names, parts[0]) {
      var i := FirstNamed(names, parts[0]);
      if InImage(files, |image|, i) { FoundBytes(image, files, shorts, i); }
      if Fits(files, RootClusters(files)) {
        FittingLength(files);
        AllRight(files, i);
      }
    }
  }

  /** The greeting comes last. From an image that was built the driver can read the sector with
      the greeting exactly if the files fit: otherwise that sector is beyond the end, wherever
      its bytes went. */
  method ReadGreetingSector(specs: seq<File>) returns (built: bool, ok: bool)
    ensures var files := FileList(specs);
            && (built <==> NamesFit(files) && Needed(files) <= FAT_ENTRIES)
            && (built ==> (ok <==> Fits(files, RootClusters(files))))
  {
    var files := FileList(specs);
    var last := |specs|;
    assert files[last].data == HELLO_TEXT;
    var image, shorts := Build(files);
    built, ok := image.Some?, false;
    if built {
      var cluster := StartOf(files, RootClusters(files), last);
      OffsetIs(cluster);
      LastReadableIff(files);
      var volume := new Volume(image.value);
      var sector;
      ok, sector := volume.ReadSector(RESERVED_SECTORS + FAT_COUNT * FAT_SECTORS + (cluster - 2) * SECTORS_PER_CLUSTER);
    }
  }

  /** The greeting comes last. If it is the only file of its name, the driver reads it from an
      image that was built exactly if the files fit: otherwise its sector is beyond the end,
      wherever its bytes went, and the path gives an error. */
  method ReadGreeting(specs: seq<File>, path: seq<byte>, bufferSize: nat, garbage: seq<byte>)
    returns (built: bool, status: Status, bytes: seq<byte>)
    requires (forall f | f in specs :: 0 !in f.name && f.name != HELLO_NAME) && |garbage| == NAME_CAPACITY
    requires Components(path) == [HELLO_NAME] && 0 !in path
    ensures var files := FileList(specs);
            && (built <==> NamesFit(files) && Needed(files) <= FAT_ENTRIES)
            && (built && bufferSize >= 17 ==>
                  status == if Fits(files, RootClusters(files)) then Success else IoError)
            && (built && status == Success ==> bytes == Codes("hello fat32 root\n"))
  {
    var files := FileList(specs);
    status, bytes := IoError, [];
    var image;
    ghost var shorts;
    image, shorts := Build(files);
    built := image.Some?;
    if built {
      ListedNames(specs);
      GreetingIsNamed(specs, shorts);
      assert files[|files| - 1].data == HELLO_TEXT;
      LastReadableIff(files);
      if Fits(files, RootClusters(files)) {
        WholeIfFits(image.value, files, shorts);
        ReadFromLayout(image.value, files, shorts, path, bufferSize);
      }
      var volume := new Volume(image.value);
      volume.Open();
      status, bytes := volume.ReadFile(path, bufferSize, garbage, files, shorts);
    }
  }

  /** From an image that is whole the greeting can be read whatever else was asked for, even other
      files of its name: they are given its contents. */
  method GreetingAlways(specs: seq<File>, path: seq<byte>, bufferSize: nat, garbage: seq<byte>)
    returns (whole: bool, status: Status, bytes: seq<byte>)
    requires (forall f | f in specs :: 0 !in f.name) && |garbage| == NAME_CAPACITY
    requires Components(path) == [Codes("hello.txt")] && 0 !in path && bufferSize >= 17
    ensures whole <==> NamesFit(FileList(specs)) && Fits(FileList(specs), RootClusters(FileList(specs)))
    ensures whole ==> status == Success && bytes == Codes("hello fat32 root\n")
  {
    var built;
    ghost var shorts;
    built, whole, status, bytes, shorts := ReadBack(specs, path, bufferSize, garbage);
    if whole {
      FirstGreeting(specs, shorts);
    }
  }

  /** Whoever is seen first under the greeting's name has its contents. */
  lemma FirstGreeting(specs: seq<File>, shorts: seq<Entry>)
    requires |shorts| == |specs| + 1 && DistinctAliases(shorts)
    ensures var i := FirstNamed(SeenNames(FileList(specs), shorts), HELLO_NAME);
            i <= |specs| && FileList(specs)[i].data == HELLO_TEXT
  {
    var files, names := FileList(specs), SeenNames(FileList(specs), shorts);
    assert names[|specs|] == HELLO_NAME;
    FirstFromFinds(names, HELLO_NAME, 0);
    var i := FirstNamed(names, HELLO_NAME);
    if i <= |specs| && files[i].name != HELLO_NAME {
      NotSeenAsGreeting(files[i].name, shorts[i]);
    }
  }

  /** No other file is seen under the greeting's name: a long name is longer when it is cut, and
      an alias does not start with a lower-case letter. */
  lemma GreetingIsNamed(specs: seq<File>, shorts: seq<Entry>)
    requires forall f | f in specs :: f.name != HELLO_NAME
    requires |shorts| == |specs| + 1 && DistinctAliases(shorts)
    ensures FirstNamed(SeenNames(FileList(specs), shorts), HELLO_NAME) == |specs|
  {
    var files, names := FileList(specs), SeenNames(FileList(specs), shorts);
    forall j | 0 <= j < |specs| ensures names[j] != HELLO_NAME {
      assert specs[j] in specs && files[j].name == specs[j].name;
      NotSeenAsGreeting(files[j].name, shorts[j]);
    }
    FirstFromIs(names, HELLO_NAME, 0, |specs|);
  }

  lemma NotSeenAsGreeting(n: Name, short: Entry)
    requires n != HELLO_NAME && ShortOk(short)
    ensures NameSeen(n, short) != HELLO_NAME
  {
    if n == [] {
      assert BeforeSpace(short[..8])[0] == short[0];
      assert ShortName(short)[0] == short[0] && HELLO_NAME[0] == 104;
    } else if |n| >= NAME_CAPACITY {
      assert |Shown(n)| > |HELLO_NAME|;
    } else {
      assert Shown(n) == n;
    }
  }

  /** A last file that is shorter than a sector can be read exactly if the files fit. */
  lemma LastReadableIff(files: seq<File>)
    requires files != [] && 0 < |files[|files| - 1].data| < SECTOR
    ensures InImage(files, FinalLength(files), |files| - 1) <==> Fits(files, RootClusters(files))
  {
    SectorsAscend(0, |files[|files| - 1].data|);
    if Fits(files, RootClusters(files)) {
      FittingLength(files);
      AllRight(files, |files| - 1);
    } else {
      EndsAtLast(files);
    }
  }

  /** Every file is seen under its name, cut to 63 characters; one without a name is seen
      under its alias. */
  ghost predicate SeenAs(files: seq<File>, shorts: seq<Entry>) {
    && |shorts| == |files| && EntriesOk(shorts) && DistinctAliases(shorts)
    && var names := SeenNames(files, shorts);
    forall i | 0 <= i < |files| :: Seeable(names[i]) && (files[i].name != [] ==> names[i] == Shown(files[i].name))
  }

  predicate Seeable(n: Name) { 0 < |n| < NAME_CAPACITY }

  lemma SeenWell(image: seq<byte>, files: seq<File>, shorts: seq<Entry>)
    requires HeadOf(image, files, shorts)
    ensures SeenAs(files, shorts)
  {
    forall i | 0 <= i < |files| ensures Seeable(SeenNames(files, shorts)[i]) {
      assert ShortIs(files, shorts, i);
      ShortNameSeeable(shorts[i]);
    }
  }

  lemma {:induction false} BeforeSpaceLength(s: seq<byte>)
    ensures |BeforeSpace(s)| <= |s|
  {
    if s != [] { BeforeSpaceLength(s[1..]); }
  }

  lemma ShortNameSeeable(e: Entry)
    requires ShortOk(e)
    ensures Seeable(ShortName(e))
  {
    BeforeSpaceLength(e[..8]);
    BeforeSpaceLength(e[8..11]);
    assert BeforeSpace(e[..8])[0] == e[0];
  }

  lemma ListedNames(specs: seq<File>)
    requires (forall f | f in specs :: 0 !in f.name) && NamesFit(FileList(specs))
    ensures NamesOk(FileList(specs))
  {
    forall f | f in FileList(specs) ensures 0 !in f.name {
      var i :| 0 <= i < |FileList(specs)| && FileList(specs)[i] == f;
      assert i < |specs| ==> specs[i] in specs && specs[i].name == f.name;
    }
  }

  /** One file of k clusters. */
  function BigFile(k: nat): seq<File> { [File([97], Zeros(k * CLUSTER))] }

  /** Between 4083 and 4092 clusters of data the table has room for the files and the image has
      not: the builder reports nothing and writes more than 32768 sectors. */
  lemma OverfullList(k: nat)
    requires 4083 <= k <= 4092
    ensures var files := FileList(BigFile(k));
            && NamesOk(files) && HasData(files, |files|)
            && CLUSTER_LIMIT < Needed(files) == k + 4 <= FAT_ENTRIES && !Fits(files, RootClusters(files))
  {
    var files := FileList(BigFile(k));
    assert files[0] == BigFile(k)[0] && files[1] == File(HELLO_NAME, HELLO_TEXT) && |files| == 2;
    assert ChunkCount(files[0].name) == 1 && ChunkCount(files[1].name) == 1;
    assert EntriesBefore(files, 1) == 2;
    assert EntriesBefore(files, 2) == EntriesBefore(files, 1) + 2;
    assert RootClusters(files) == 1;
    assert StartOf(files, 1, 0) == 3 && StartOf(files, 1, 1) == 3 + k && StartOf(files, 1, 2) == 4 + k;
  }

  /** The first file ends one byte beyond the image. */
  function CutOffList(a: seq<byte>, b: seq<byte>, c: seq<byte>): seq<File> {
    [File([97], a), File([98], b), File([99], c)]
  }

  lemma CutOffStarts(a: seq<byte>, b: seq<byte>, c: seq<byte>)
    requires |a| == 4083 * CLUSTER + 1 && |b| == |c| == CLUSTER
    ensures var files := FileList(CutOffList(a, b, c));
            && files == CutOffList(a, b, c) + [File(HELLO_NAME, HELLO_TEXT)]
            && NamesFit(files) && RootFits(files) && RootClusters(files) == 1
            && StartOf(files, 1, 0) == 3 && StartOf(files, 1, 1) == 4087 && StartOf(files, 1, 2) == 4088
            && Needed(files) == 4090
  {
    var files := FileList(CutOffList(a, b, c));
    assert files == CutOffList(a, b, c) + [File(HELLO_NAME, HELLO_TEXT)];
    assert forall i | 0 <= i < 4 :: ChunkCount(files[i].name) == 1;
    assert EntriesBefore(files, 1) == 2;
    assert EntriesBefore(files, 2) == EntriesBefore(files, 1) + 2;
    assert EntriesBefore(files, 3) == EntriesBefore(files, 2) + 2;
    assert EntriesBefore(files, 4) == EntriesBefore(files, 3) + 2;
    assert StartOf(files, 1, 1) == StartOf(files, 1, 0) + 4084;
    assert StartOf(files, 1, 2) == StartOf(files, 1, 1) + 1;
    assert StartOf(files, 1, 3) == StartOf(files, 1, 2) + 1;
    assert StartOf(files, 1, 4) == StartOf(files, 1, 3) + 1;
  }

  lemma CutOffLayout(a: seq<byte>, b: seq<byte>, c: seq<byte>)
    requires |a| == 4083 * CLUSTER + 1 && |b| == |c| == CLUSTER
    ensures var files := FileList(CutOffList(a, b, c));
            && InImage(files, FinalLength(files), 1)
            && BytesRead(files, 1) == [b[CLUSTER - 1]] + c[..CLUSTER - 1] && |files[1].data| == CLUSTER
  {
    var files := FileList(CutOffList(a, b, c));
    CutOffStarts(a, b, c);
    OffsetIs(3);
    OffsetIs(4087);
    assert Length(files, 1, 0) == IMAGE_BYTES;
    assert Length(files, 1, 1) == IMAGE_BYTES + 1;
    assert Displaced(files, 1) && Shift(files, 1) == CLUSTER - 1;
    assert Flat(files, 3) == HELLO_TEXT + Flat(files, 4);
    assert Flat(files, 2) == c + Flat(files, 3);
    assert Flat(files, 1) == b + Flat(files, 2);
    FlatLength(files, 1);
  }

  /** A read that succeeds with the bytes of another file, whatever the contents: the second file
      was put one cluster less a byte before its cluster, so that its path gives its own last byte
      and all but the last byte of the third file. */
  method ReadDisplaced(a: seq<byte>, b: seq<byte>, c: seq<byte>, garbage: seq<byte>)
    returns (status: Status, bytes: seq<byte>)
    requires |a| == 4083 * CLUSTER + 1 && |b| == |c| == CLUSTER && |garbage| == NAME_CAPACITY
    ensures status == Success && bytes == [b[CLUSTER - 1]] + c[..CLUSTER - 1]
  {
    var specs := CutOffList(a, b, c);
    var built, whole;
    ghost var shorts;
    CutOffStarts(a, b, c);
    CutOffLayout(a, b, c);
    built, whole, status, bytes, shorts := ReadBack(specs, [98], CLUSTER, garbage);
    ghost var names := SeenNames(FileList(specs), shorts);
    assert names[0] == [97] && names[1] == [98];
    FirstFromIs(names, [98], 0, 1);
    assert Around([98], [98], 0, 0);
    ComponentsAround([98], [98], 0, 0);
  }

  // ----- Which files can be read at all -----

  function Slashes(n: nat): seq<byte> { seq(n, _ => SLASH) }

  predicate IsComponent(n: seq<byte>) { n != [] && SLASH !in n }

  predicate Around(path: seq<byte>, n: seq<byte>, a: nat, b: nat) { path == Slashes(a) + n + Slashes(b) }

  lemma {:induction false} SlashesOnly(b: nat)
    ensures Components(Slashes(b)) == []
  {
    if b > 0 {
      SlashesOnly(b - 1);
      assert Slashes(b)[1..] == Slashes(b - 1);
    }
  }

  lemma SegmentLengthIs(path: seq<byte>, k: nat)
    requires k <= |path| && (k < |path| ==> path[k] == SLASH) && forall i | 0 <= i < k :: path[i] != SLASH
    ensures SegmentLength(path) == k
  {
  }

  /** A component with slashes around it. */
  lemma {:induction false} ComponentsAround(path: seq<byte>, n: seq<byte>, a: nat, b: nat)
    requires IsComponent(n) && Around(path, n, a, b)
    ensures Components(path) == [n]
    decreases a
  {
    if a > 0 {
      assert path[1..] == Slashes(a - 1) + n + Slashes(b);
      ComponentsAround(path[1..], n, a - 1, b);
    } else {
      assert forall i | 0 <= i < |n| :: path[i] == n[i] && n[i] in n;
      SegmentLengthIs(path, |n|);
      assert path[..|n|] == n && path[|n|..] == Slashes(b);
      SlashesOnly(b);
    }
  }

  /** A path without components is made of slashes. */
  lemma {:induction false} NoComponents(path: seq<byte>)
    requires Components(path) == []
    ensures path == Slashes(|path|)
    decreases |path|
  {
    if path != [] {
      NoComponents(path[1..]);
      assert path == [SLASH] + path[1..];
    }
  }

  lemma {:induction false} AroundComponent(path: seq<byte>, n: seq<byte>) returns (a: nat, b: nat)
    requires Components(path) == [n]
    ensures Around(path, n, a, b)
    decreases |path|
  {
    if path[0] == SLASH {
      var a', b' := AroundComponent(path[1..], n);
      a, b := a' + 1, b';
      assert path == [SLASH] + path[1..] == Slashes(a) + n + Slashes(b);
    } else {
      var k := SegmentLength(path);
      a, b := 0, |path| - k;
      assert Components(path)[0] == path[..k] && Components(path)[1..] == Components(path[k..]);
      NoComponents(path[k..]);
      assert path == Slashes(0) + path[..k] + path[k..];
    }
  }

  lemma {:induction false} PartsAreComponents(path: seq<byte>, n: seq<byte>)
    requires n in Components(path)
    ensures IsComponent(n)
    decreases |path|
  {
    var k := SegmentLength(path);
    if path[0] == SLASH {
      PartsAreComponents(path[1..], n);
    } else if n != path[..k] {
      PartsAreComponents(path[k..], n);
    }
  }

  /** The paths of one component are those with slashes only around it. */
  lemma OneComponentIff(path: seq<byte>, n: seq<byte>)
    ensures Components(path) == [n] <==> IsComponent(n) && exists a: nat, b: nat :: Around(path, n, a, b)
  {
    if Components(path) == [n] {
      PartsAreComponents(path, n);
      var a, b := AroundComponent(path, n);
    }
    if IsComponent(n) && exists a: nat, b: nat :: Around(path, n, a, b) {
      var a: nat, b: nat :| Around(path, n, a, b);
      ComponentsAround(path, n, a, b);
    }
  }

  /** With a buffer that is large enough this path reads file i. */
  predicate Reads(files: seq<File>, names: seq<Name>, path: seq<byte>, i: nat)
    requires i < |files| == |names|
  {
    && Expected(files, names, path, |files[i].data| + 1) == Success
    && FirstNamed(names, Components(path)[0]) == i
  }

  /** What resolve_path can be made to look for. */
  predicate CanBeAsked(n: seq<byte>) { SLASH !in n && n != [DOT] && n != [DOT, DOT] }

  /** A stored file is read by exactly the paths that are its name as the driver sees it, with
      any slashes around it; there are none if that name has a slash in it, is one of the two
      dot names, or is taken by an earlier file. */
  lemma ReadsIff(files: seq<File>, names: seq<Name>, path: seq<byte>, i: nat)
    requires i < |files| == |names| && Seeable(names[i])
    ensures var n := names[i];
            Reads(files, names, path, i) <==>
              CanBeAsked(n) && NotNamedBefore(names, n, i) && exists a: nat, b: nat :: Around(path, n, a, b)
  {
    var n := names[i];
    OneComponentIff(path, n);
    if Components(path) != [] {
      FirstFromFinds(names, Components(path)[0], 0);
    }
    if NotNamedBefore(names, n, i) {
      FirstFromIs(names, n, 0, i);
    }
  }

  /** So a file, whose name the builder has stripped of outer slashes, can be read by its own
      name exactly if it has one, no slash is in it, it is no dot name, it has at most 63
      characters, and the driver does not see an earlier file under it. */
  lemma ReadableByNameIff(files: seq<File>, shorts: seq<Entry>, i: nat)
    requires SeenAs(files, shorts) && i < |files|
    requires files[i].name != [] ==> files[i].name[|files[i].name| - 1] != SLASH
    ensures var n, names := files[i].name, SeenNames(files, shorts);
            Reads(files, names, n, i) <==> CanBeAsked(n) && 0 < |n| < NAME_CAPACITY && NotNamedBefore(names, n, i)
  {
    var n, names := files[i].name, SeenNames(files, shorts);
    ReadsIff(files, names, n, i);
    if n != [] {
      if CanBeAsked(n) && |n| < NAME_CAPACITY && NotNamedBefore(names, n, i) {
        assert Around(n, n, 0, 0);
      }
      if Reads(files, names, n, i) {
        NotLonger(n);
      }
    }
  }

  lemma NotLonger(n: seq<byte>)
    requires n != [] && n[|n| - 1] != SLASH && SLASH !in Shown(n)
    requires exists a: nat, b: nat :: Around(n, Shown(n), a, b)
    ensures Shown(n) == n
  {
    var a: nat, b: nat :| Around(n, Shown(n), a, b);
    assert n == Slashes(a) + Shown(n) + Slashes(b);
    assert Shown(n)[0] in Shown(n) && n[0] == Shown(n)[0];
    assert a == 0;
    assert b == 0;
  }

  const SLASHED_NAME: Name := [97, 47, 98]

  /** The builder strips only outer slashes: a file stored as "a/b" cannot be read by any path. */
  lemma SlashedNameIsLost(files: seq<File>, shorts: seq<Entry>, i: nat, path: seq<byte>)
    requires SeenAs(files, shorts) && i < |files| && files[i].name == SLASHED_NAME
    ensures var names := SeenNames(files, shorts);
            && !Reads(files, names, path, i)
            && (!Named(names, [97]) ==> forall size :: Expected(files, names, SLASHED_NAME, size) == Missing)
  {
    ReadsIff(files, SeenNames(files, shorts), path, i);
    assert SLASHED_NAME[1] == SLASH;
    SegmentLengthIs(SLASHED_NAME, 1);
  }
}
