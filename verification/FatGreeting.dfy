/**
 The image of a single file, byte by byte: what tools/build_fat32_root_image.py leaves on the
 volume when nothing but a short hello.txt is stored.
 */
module FatGreeting {
  import opened Bytes
  import opened FatNames
  import opened FatDirectory
  import opened FatImage

  function OneFile(text: seq<byte>): seq<File> { [File(Codes("hello.txt"), text)] }

  lemma OneFilePlaces(text: seq<byte>)
    requires 0 < |text| <= 4096
    ensures ChunkCount(Codes("hello.txt")) == 1 && EntriesBefore(OneFile(text), 1) == 2
    ensures RootClusters(OneFile(text)) == 1 && StartOf(OneFile(text), 1, 0) == 3 && StartOf(OneFile(text), 1, 1) == 4
  {
    assert EntriesBefore(OneFile(text), 0) == 0;
  }

  /** Five letters and three. */
  lemma LettersAlias(stem: seq<byte>, ext: seq<byte>, base: seq<byte>, suffix: seq<byte>)
    requires |stem| == |base| == 5 && |ext| == |suffix| == 3 && LowerCase(stem) && LowerCase(ext)
    requires (forall i | 0 <= i < 5 :: base[i] == stem[i] - 32) && forall i | 0 <= i < 3 :: suffix[i] == ext[i] - 32
    ensures Alias(stem + [46] + ext, 1) == base + [126, 49, 32] + suffix
  {
    PlainParts(stem, ext, 1);
    OnlyLetters(stem);
    OnlyLetters(ext);
    assert SanitizedAll(stem) == base && SanitizedAll(ext) == suffix;
    assert Padded(base + [126, 49], 8) == base + [126, 49, 32];
  }

  lemma GreetingParts(name: Name)
    requires name == Codes("hello.txt")
    ensures name == name[..5] + [46] + name[6..] && LowerCase(name[..5]) && LowerCase(name[6..])
    ensures forall i | 0 <= i < 5 :: Codes("HELLO")[i] == name[..5][i] - 32
    ensures forall i | 0 <= i < 3 :: Codes("TXT")[i] == name[6..][i] - 32
    ensures Codes("HELLO~1 TXT") == Codes("HELLO") + [126, 49, 32] + Codes("TXT")
  {
  }

  lemma GreetingAlias(name: Name)
    requires name == Codes("hello.txt")
    ensures Alias(name, 1) == Codes("HELLO~1 TXT")
  {
    GreetingParts(name);
    LettersAlias(name[..5], name[6..], Codes("HELLO"), Codes("TXT"));
  }

  lemma FirstNumber(name: Name, index: nat, alias: seq<byte>)
    requires exists serial :: NextAlias(name, index, serial, {}) && alias == Alias(name, serial)
    ensures alias == Alias(name, index)
  {
    assert Alias(name, index) !in {};
  }

  /** The only file gets number 1. */
  lemma FirstAlias(text: seq<byte>, shorts: seq<Entry>)
    requires AllNumbered(OneFile(text), shorts) && |shorts| == 1
    ensures |shorts[0]| == 32 && shorts[0][..11] == Codes("HELLO~1 TXT")
  {
    var name := OneFile(text)[0].name;
    assert NumberedAt(OneFile(text), shorts, 0);
    FirstNumber(name, 1, shorts[0][..11]);
    GreetingAlias(name);
  }

  /** The long-name entry. */
  predicate LongAt(e: Entry) {
    e == [0x41, 104, 0, 101, 0, 108, 0, 108, 0, 111, 0, 0x0F, 0, 0xED,
          46, 0, 116, 0, 120, 0, 116, 0, 0, 0, 255, 255, 0, 0, 255, 255, 255, 255]
  }

  /** The short entry, for cluster 3. */
  predicate ShortAt(e: Entry, size: nat)
    requires size <= 4096
  {
    e == Codes("HELLO~1 TXT") + [0x20, 0, 0, 0, 0, 0, 0, 0, 0, 0, 0, 0, 0, 0, 0, 3, 0] +
         [size % 256, size / 256, 0, 0]
  }

  lemma LongEntry(e: Entry)
    requires HoldsChunk(e, Codes("hello.txt"), 0, 0xED)
    ensures LongAt(e)
  {
    var n := Codes("hello.txt");
    forall u | 0 <= u < 13 ensures e[UnitStart(u)] == Unit(n, u) % 256 && e[UnitStart(u) + 1] == Unit(n, u) / 256 {
      assert U16(e, UnitStart(u)) == Unit(n, 13 * 0 + u);
    }
    assert UnitStart(0) == 1 && UnitStart(1) == 3 && UnitStart(2) == 5 && UnitStart(3) == 7 && UnitStart(4) == 9;
    assert UnitStart(5) == 14 && UnitStart(6) == 16 && UnitStart(7) == 18 && UnitStart(8) == 20 && UnitStart(9) == 22;
    assert UnitStart(10) == 24 && UnitStart(11) == 28 && UnitStart(12) == 30;
  }

  lemma ShortEntry(e: Entry, size: nat)
    requires size <= 4096 && IsShort(e, Codes("HELLO~1 TXT"), 3, size)
    ensures ShortAt(e, size)
  {
    assert e[..11] == Codes("HELLO~1 TXT");
  }

  lemma TableOfOne(text: seq<byte>, image: seq<byte>, shorts: seq<Entry>)
    requires 0 < |text| <= 4096 && |image| >= DATA && Begins(image, OneFile(text))
    requires BuiltAs(image, OneFile(text), shorts)
    ensures forall c | 0 <= c < 4096 ::
              FatEntry(image[FAT1..FAT2], c) == if c == 0 then 0x0FFF_FFF8 else if c < 4 then 0x0FFF_FFFF else 0
  {
    var fat := image[FAT1..FAT2];
    OneFilePlaces(text);
    assert ChainedAt(fat, OneFile(text), 1, 0);
    assert Linked(fat, 3, 2) && Linked(fat, 4, 3);
  }

  lemma DirectoryOfOne(text: seq<byte>, image: seq<byte>, shorts: seq<Entry>)
    requires 0 < |text| <= 4096 && ImageOf(image, OneFile(text), shorts) && AllNumbered(OneFile(text), shorts)
    ensures |image| == IMAGE_BYTES && LongAt(image[49152..49184]) && ShortAt(image[49184..49216], |text|)
    ensures image[49216] == 0
  {
    var dir := DirIn(image, 1);
    OneFilePlaces(text);
    assert GroupOf(dir, OneFile(text), shorts, 0);
    FirstAlias(text, shorts);
    HelloChecksum();
    assert ChunkAt(dir, 0, Codes("hello.txt"), 0xED, 0);
    LongEntry(dir[0]);
    assert ShortIs(OneFile(text), shorts, 0);
    ShortEntry(dir[1], |text|);
    assert dir[0] == image[49152..49184] && dir[1] == image[49184..49216] && dir[2] == image[49216..49248];
  }

  /** The table, the directory and the data, wherever the driver will look for them. */
  method GreetingImage(text: seq<byte>) returns (image: seq<byte>)
    requires 0 < |text| <= 4096
    ensures |image| == 16777216 && image[16384..32768] == image[32768..49152]
    ensures forall c | 0 <= c < 4096 ::
              FatEntry(image[16384..32768], c) == if c == 0 then 0x0FFF_FFF8 else if c < 4 then 0x0FFF_FFFF else 0
    ensures LongAt(image[49152..49184]) && ShortAt(image[49184..49216], |text|) && image[49216] == 0
    ensures image[53248..53248 + |text|] == text
  {
    var files := OneFile(text);
    OneFilePlaces(text);
    assert NamesFit(files);
    var built;
    ghost var shorts;
    built, shorts := Assemble(files);
    image := built.value;
    WholeIfFits(image, files, shorts);
    TableOfOne(text, image, shorts);
    DirectoryOfOne(text, image, shorts);
    assert StoredAt(image, files, 0);
  }
}
