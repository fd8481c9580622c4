/**
 What stands in an image where the driver looks for a file: the file itself, unless an earlier
 one ended beyond the image with a cluster that is not full, and then bytes of later files.
 */
module FatLayout {
  import opened Bytes
  import opened FatDirectory
  import opened FatImage

  /** The driver reads whole sectors. */
  function SectorBytes(size: nat): nat { (size + SECTOR - 1) / SECTOR * SECTOR }

  lemma SectorsAscend(m: nat, n: nat)
    requires m <= n
    ensures m <= SectorBytes(m) <= SectorBytes(n) < n + SECTOR
    ensures m % SECTOR == 0 ==> SectorBytes(m) == m && (m < n <= m + SECTOR ==> SectorBytes(n) == m + SECTOR)
  {
  }

  /** All sectors of file i are in an image of this length. */
  predicate InImage(files: seq<File>, length: nat, i: nat)
    requires i < |files|
  {
    files[i].data == [] ||
    Offset(StartOf(files, RootClusters(files), i)) + SectorBytes(|files[i].data|) <= length
  }

  /** `size` bytes of b from `at` on, if they are all there. */
  function Cut(b: seq<byte>, at: nat, size: nat): seq<byte> { if at + size <= |b| then b[at..at + size] else [] }

  lemma CutOfRest(b: seq<byte>, from: nat, at: nat, size: nat)
    requires from <= |b|
    ensures Cut(b[from..], at, size) == Cut(b, from + at, size)
  {
  }

  /** What is in the clusters of file i, up to its size. */
  function BytesAt(image: seq<byte>, files: seq<File>, i: nat): seq<byte>
    requires i < |files|
  {
    Cut(image, Offset(StartOf(files, RootClusters(files), i)), |files[i].data|)
  }

  /** The contents of the files from i on, one after the other. */
  function Flat(files: seq<File>, i: nat): seq<byte>
    requires i <= |files|
    decreases |files| - i
  {
    if i == |files| then [] else files[i].data + Flat(files, i + 1)
  }

  /** The image ends before the first cluster of file i when the file is stored. */
  predicate Displaced(files: seq<File>, i: nat)
    requires i <= |files|
  {
    Length(files, RootClusters(files), i) < Offset(StartOf(files, RootClusters(files), i))
  }

  /** Then the file is appended, and so are all later ones. */
  lemma DisplacedNext(files: seq<File>, i: nat)
    requires i < |files| && Displaced(files, i)
    ensures Displaced(files, i + 1)
    ensures Place(files, RootClusters(files), i) == Length(files, RootClusters(files), i)
    ensures Length(files, RootClusters(files), i + 1) == Length(files, RootClusters(files), i) + |files[i].data|
  {
    RoomFor(files, RootClusters(files), i);
  }

  lemma {:induction false} FlatLength(files: seq<File>, i: nat)
    requires i <= |files| && Displaced(files, i)
    ensures Length(files, RootClusters(files), |files|) == Length(files, RootClusters(files), i) + |Flat(files, i)|
    decreases |files| - i
  {
    if i < |files| {
      DisplacedNext(files, i);
      FlatLength(files, i + 1);
    }
  }

  /** From there on the image holds their contents without gaps. */
  lemma {:induction false} FlatInImage(image: seq<byte>, files: seq<File>, i: nat)
    requires i <= |files| && Displaced(files, i) && |image| == Length(files, RootClusters(files), |files|)
    requires forall j | i <= j < |files| :: PlacedAt(image, files, RootClusters(files), j)
    ensures var from := Length(files, RootClusters(files), i); from <= |image| && image[from..] == Flat(files, i)
    decreases |files| - i
  {
    LengthsAscend(files, RootClusters(files), i, |files|);
    if i < |files| {
      DisplacedNext(files, i);
      FlatInImage(image, files, i + 1);
      assert PlacedAt(image, files, RootClusters(files), i);
      var from := Length(files, RootClusters(files), i);
      assert image[from..] == image[from..from + |files[i].data|] + image[from + |files[i].data|..];
    }
  }

  /** How far before its cluster file i was put. */
  function Shift(files: seq<File>, i: nat): nat
    requires i < |files| && Displaced(files, i)
  {
    Offset(StartOf(files, RootClusters(files), i)) - Length(files, RootClusters(files), i)
  }

  /** What the driver finds for file i, said by the files alone. */
  function BytesRead(files: seq<File>, i: nat): seq<byte>
    requires i < |files|
  {
    if files[i].data == [] || !Displaced(files, i) then files[i].data
    else Cut(Flat(files, i), Shift(files, i), |files[i].data|)
  }

  /** In every image that was built, with the directory inside. */
  lemma FoundBytes(image: seq<byte>, files: seq<File>, shorts: seq<Entry>, i: nat)
    requires BuiltAs(image, files, shorts) && RootFits(files) && i < |files|
    ensures BytesAt(image, files, i) == BytesRead(files, i)
  {
    assert PlacedAt(image, files, RootClusters(files), i);
    if files[i].data != [] && Displaced(files, i) {
      FlatInImage(image, files, i);
      CutOfRest(image, Length(files, RootClusters(files), i), Shift(files, i), |files[i].data|);
    }
  }

  /** The files that are displaced, by the sizes alone: those after one that ends beyond the image
      and does not fill its last cluster. */
  lemma {:induction false} DisplacedIff(files: seq<File>, i: nat)
    requires RootFits(files) && i <= |files|
    ensures Displaced(files, i) <==> exists j | 0 <= j < i :: CutsOff(files, j)
  {
    var rc := RootClusters(files);
    if i == 0 {
      RootFitsMeans(files);
    } else {
      DisplacedIff(files, i - 1);
      if Displaced(files, i - 1) { DisplacedNext(files, i - 1); }
      else { InPlaceNext(files, i - 1); }
    }
  }

  predicate CutsOff(files: seq<File>, j: nat)
    requires j < |files|
  {
    StartOf(files, RootClusters(files), j + 1) > CLUSTER_LIMIT && |files[j].data| % CLUSTER != 0
  }

  /** After a file in its place. */
  lemma InPlaceNext(files: seq<File>, i: nat)
    requires i < |files| && !Displaced(files, i)
    ensures Displaced(files, i + 1) <==> CutsOff(files, i)
  {
    var rc, size := RootClusters(files), |files[i].data|;
    LengthBound(files, rc, i);
    OffsetIs(StartOf(files, rc, i));
    OffsetIs(StartOf(files, rc, i + 1));
    assert size % CLUSTER == 0 ==> ClustersFor(size) * CLUSTER == size;
    assert size % CLUSTER != 0 ==> size < ClustersFor(size) * CLUSTER < size + CLUSTER;
  }

  /** The file can be read, and gives its own contents. */
  predicate ReadRight(files: seq<File>, i: nat)
    requires i < |files|
  {
    InImage(files, FinalLength(files), i) && BytesRead(files, i) == files[i].data
  }

  /** Exactly the files all of whose sectors are in the image and that come before every file that
      cuts off, or that happen to find their own contents among those of later files. */
  lemma ReadRightIff(files: seq<File>, i: nat)
    requires RootFits(files) && i < |files|
    ensures ReadRight(files, i) <==>
            && InImage(files, FinalLength(files), i)
            && (|| (forall j | 0 <= j < i :: !CutsOff(files, j))
                || files[i].data == []
                || (Displaced(files, i) && FoundLater(files, i, Shift(files, i))))
  {
    DisplacedIff(files, i);
  }

  /** The contents of file i stand `shift` bytes further on in the contents from i on. */
  predicate FoundLater(files: seq<File>, i: nat, shift: nat)
    requires i < |files|
  {
    Cut(Flat(files, i), shift, |files[i].data|) == files[i].data
  }

  /** If the files fit, all of them are read right. */
  lemma AllRight(files: seq<File>, i: nat)
    requires Fits(files, RootClusters(files)) && i < |files|
    ensures ReadRight(files, i) && InImage(files, IMAGE_BYTES, i)
  {
    var rc, size := RootClusters(files), |files[i].data|;
    FittingLength(files);
    StartsAscend(files, rc, i + 1, |files|);
    PlaceInImage(files, rc, i);
    SectorsAscend(size, size);
    OffsetIs(StartOf(files, rc, i));
  }
}
