/**
 Names in a FAT32 directory: the short aliases and long-name entries the image builder makes,
 and how the kernel's driver puts a long name together again.
 */
module FatNames {
  import opened Basics
  import opened Bytes

  /** Character codes, as both programs treat them. */
  type Name = seq<byte>

  const NAME_CAPACITY: nat := 64
  const LFN_UNITS: nat := 13

  const MAX_CHUNKS: nat := 255

  /** Names the builder can write: the order of a chunk is one byte. */
  predicate NameFits(n: Name) { ChunkCount(n) <= MAX_CHUNKS }

  predicate NameOk(n: Name) { NameFits(n) && 0 !in n }

  /** The part of a name that fits in the driver's buffer beside a terminator. */
  function Shown(n: Name): Name { Prefix(n, NAME_CAPACITY - 1) }

  // ----- The checksum of an alias -----

  /** The builder's formula over the first n bytes: rotate right, add. */
  function Checksum(alias: seq<byte>, n: nat): byte
    requires n <= |alias|
  {
    if n == 0 then 0
    else
      var sum := Checksum(alias, n - 1);
      ((sum % 2) * 128 + sum / 2 + alias[n - 1]) % 256
  }

  /** The driver's loop, which tests the low bit instead, computes the same. */
  method DriverChecksum(alias: seq<byte>) returns (sum: byte)
    requires |alias| == 11
    ensures sum == Checksum(alias, 11)
  {
    sum := 0;
    var i := 0;
    while i < 11
      invariant i <= 11 && sum == Checksum(alias, i)
    {
      var high := if sum % 2 == 1 then 128 else 0;
      sum := (high + sum / 2 + alias[i]) % 256;
      i := i + 1;
    }
  }

  lemma RotatedRight(x: bv8)
    ensures x.RotateRight(1) as int == x as int / 2 + 128 * (x as int % 2)
  {
  }

  /** Every byte is added to the sum before it, rotated right by one bit in eight. */
  lemma ChecksumStep(alias: seq<byte>, n: nat, sum: bv8)
    requires n < |alias| && sum as int == Checksum(alias, n)
    ensures Checksum(alias, n + 1) as int == (sum.RotateRight(1) as int + alias[n] as int) % 256
  {
    RotatedRight(sum);
  }

  /** x rotated right k times in eight bits. */
  function Rotated(x: bv8, k: nat): bv8 { if k == 0 then x else Rotated(x, k - 1).RotateRight(1) }

  /** The bytes before position i do not count if they are zero. */
  lemma {:induction false} ZerosFirst(alias: seq<byte>, n: nat)
    requires n <= |alias| && forall j | 0 <= j < n :: alias[j] == 0
    ensures Checksum(alias, n) == 0
  {
    if n > 0 { ZerosFirst(alias, n - 1); }
  }

  lemma FirstByte(alias: seq<byte>, i: nat)
    requires i < |alias| && forall j | 0 <= j < i :: alias[j] == 0
    ensures Checksum(alias, i + 1) == alias[i]
  {
    ZerosFirst(alias, i);
  }

  lemma {:induction false} OneByteSum(alias: seq<byte>, i: nat, n: nat, x: bv8)
    requires i < n <= |alias| && forall j | 0 <= j < n && j != i :: alias[j] == 0
    requires x as int == alias[i]
    ensures Checksum(alias, n) as int == Rotated(x, n - 1 - i) as int
  {
    if n == i + 1 {
      FirstByte(alias, i);
    } else {
      OneByteSum(alias, i, n - 1, x);
      OneMoreZero(alias, n - 1);
      RotatedRight(Rotated(x, n - 2 - i));
    }
  }

  lemma OneMoreZero(alias: seq<byte>, n: nat)
    requires n < |alias| && alias[n] == 0
    ensures Checksum(alias, n + 1) == Checksum(alias, n) / 2 + 128 * (Checksum(alias, n) % 2)
  {
  }

  /** What the byte at position i contributes by itself: it is rotated once for each byte after
      it. */
  lemma OneByteChecksum(alias: seq<byte>, i: nat, x: bv8)
    requires |alias| == 11 && i < 11 && forall j | 0 <= j < 11 && j != i :: alias[j] == 0
    requires x as int == alias[i]
    ensures Checksum(alias, 11) as int == Rotated(x, 10 - i) as int
    ensures i == 0 ==> Checksum(alias, 11) as int == alias[0] / 4 + 64 * (alias[0] % 4)
  {
    OneByteSum(alias, i, 11, x);
    TenTurns(x);
    TwiceRotated(x);
  }

  lemma TwoMore(x: bv8, k: nat)
    ensures Rotated(x, k + 2) == Rotated(x, k).RotateRight(1).RotateRight(1)
  {
    assert Rotated(x, k + 2) == Rotated(x, k + 1).RotateRight(1);
  }

  lemma EightTurns(x: bv8, y: bv8)
    requires y == x.RotateRight(1).RotateRight(1).RotateRight(1).RotateRight(1)
    ensures y.RotateRight(1).RotateRight(1).RotateRight(1).RotateRight(1) == x
    ensures x.RotateRight(1).RotateRight(1) == (x >> 2) | (x << 6)
  {
  }

  lemma TenTurns(x: bv8)
    ensures Rotated(x, 10) == (x >> 2) | (x << 6)
  {
    TwoMore(x, 0);
    TwoMore(x, 2);
    TwoMore(x, 4);
    TwoMore(x, 6);
    TwoMore(x, 8);
    EightTurns(x, Rotated(x, 4));
  }

  lemma TwiceRotated(x: bv8)
    ensures ((x >> 2) | (x << 6)) as int == x as int / 4 + 64 * (x as int % 4)
  {
  }

  const HELLO_ALIAS: seq<byte> := Codes("HELLO~1 TXT")

  /** The checksum of "HELLO~1 TXT". */
  lemma HelloChecksum()
    ensures Checksum(HELLO_ALIAS, 11) == 0xED
  {
    assert Checksum(HELLO_ALIAS, 1) == 0x48;
    assert Checksum(HELLO_ALIAS, 2) == 0x69;
    assert Checksum(HELLO_ALIAS, 3) == 0x00;
    assert Checksum(HELLO_ALIAS, 4) == 0x4C;
    assert Checksum(HELLO_ALIAS, 5) == 0x75;
    assert Checksum(HELLO_ALIAS, 6) == 0x38;
    assert Checksum(HELLO_ALIAS, 7) == 0x4D;
    assert Checksum(HELLO_ALIAS, 8) == 0xC6;
    assert Checksum(HELLO_ALIAS, 9) == 0xB7;
    assert Checksum(HELLO_ALIAS, 10) == 0x33;
  }

  // ----- Aliases -----

  const TILDE: byte := 126
  const SPACE: byte := 32
  const DOT: byte := 46

  /** What an alias is made of: no dots, spaces or lower-case letters. */
  predicate Printable(c: byte) { 33 <= c < 127 && c != DOT && !(97 <= c <= 122) }

  /** sanitize_short_char on codes below 256; upper-casing makes two letters of one only for
      the sharp s. */
  function Sanitized(c: byte): (r: seq<byte>)
    ensures |r| > 0 && forall i | 0 <= i < |r| :: Printable(r[i])
  {
    if 97 <= c <= 122 then [c - 32]
    else if 65 <= c <= 90 || 48 <= c <= 57 then [c]
    else if c in {95, 36, TILDE, 33, 35, 37, 45, 123, 125, 40, 41, 64, 94, 38} then [c]
    else if c == 0xDF then [83, 83]
    else [95]
  }

  /** The sanitized characters other than dots. */
  function SanitizedAll(s: seq<byte>): (r: seq<byte>)
    ensures forall i | 0 <= i < |r| :: Printable(r[i])
  {
    if s == [] then []
    else (if s[0] == DOT then [] else Sanitized(s[0])) + SanitizedAll(s[1..])
  }

  function Prefix(s: seq<byte>, n: nat): (r: seq<byte>)
    ensures |r| <= n && r <= s
  {
    if |s| <= n then s else s[..n]
  }

  function Padded(s: seq<byte>, n: nat): (r: seq<byte>)
    ensures |r| == n
  {
    if |s| >= n then s[..n] else s + seq(n - |s|, _ => SPACE)
  }

  /** Where the last dot is, or -1. */
  function LastDot(s: seq<byte>): (i: int)
    ensures -1 <= i < |s|
  {
    if s == [] then -1 else if s[|s| - 1] == DOT then |s| - 1 else LastDot(s[..|s| - 1])
  }

  function Digits(v: nat): (r: seq<byte>)
    ensures |r| > 0 && forall i | 0 <= i < |r| :: 48 <= r[i] <= 57
  {
    if v < 10 then [48 + v] else Digits(v / 10) + [48 + v % 10]
  }

  function Base(n: Name, serial: nat): (r: seq<byte>)
    ensures r != [] && forall i | 0 <= i < |r| :: Printable(r[i])
  {
    var stem := if LastDot(n) < 0 then n else n[..LastDot(n)];
    var room := if |Digits(serial)| < 6 then 7 - |Digits(serial)| else 1;
    var base := Prefix(SanitizedAll(stem), room);
    if base == [] then [88] else base
  }

  /** make_short_alias. */
  function Alias(n: Name, serial: nat): (r: seq<byte>)
    ensures |r| == 11 && Printable(r[0])
  {
    var suffix := if LastDot(n) < 0 then [] else n[LastDot(n) + 1..];
    assert Padded(Base(n, serial) + [TILDE] + Digits(serial), 8)[0] == Base(n, serial)[0];
    Padded(Base(n, serial) + [TILDE] + Digits(serial), 8) + Padded(Prefix(SanitizedAll(suffix), 3), 3)
  }

  predicate LowerCase(s: seq<byte>) { forall i | 0 <= i < |s| :: 97 <= s[i] <= 122 }

  lemma {:induction false} OnlyLetters(s: seq<byte>)
    requires LowerCase(s)
    ensures |SanitizedAll(s)| == |s| && forall i | 0 <= i < |s| :: SanitizedAll(s)[i] == s[i] - 32
  {
    if s != [] { OnlyLetters(s[1..]); }
  }

  lemma {:induction false} LastDotIs(stem: seq<byte>, ext: seq<byte>)
    requires LowerCase(ext)
    ensures LastDot(stem + [DOT] + ext) == |stem|
  {
    var n := stem + [DOT] + ext;
    if ext != [] {
      LastDotIs(stem, ext[..|ext| - 1]);
      assert n[..|n| - 1] == stem + [DOT] + ext[..|ext| - 1];
    }
  }

  lemma PlainParts(stem: seq<byte>, ext: seq<byte>, serial: nat)
    requires stem != [] && LowerCase(stem) && LowerCase(ext) && serial < 10
    ensures Alias(stem + [46] + ext, serial) ==
            Padded(Prefix(SanitizedAll(stem), 6) + [TILDE, 48 + serial], 8) + Padded(Prefix(SanitizedAll(ext), 3), 3)
  {
    var n := stem + [46] + ext;
    LastDotIs(stem, ext);
    PlainBase(n, stem, serial);
    assert n[|stem| + 1..] == ext;
    assert Base(n, serial) + [TILDE] + Digits(serial) == Base(n, serial) + [TILDE, 48 + serial];
  }

  lemma PlainBase(n: Name, stem: seq<byte>, serial: nat)
    requires stem != [] && LowerCase(stem) && stem < n && LastDot(n) == |stem| && serial < 10
    ensures Base(n, serial) == Prefix(SanitizedAll(stem), 6)
  {
    OnlyLetters(stem);
    assert n[..|stem|] == stem && Digits(serial) == [48 + serial];
  }

  lemma PaddedParts(base: seq<byte>, digit: byte, suffix: seq<byte>, i: nat)
    requires |base| <= 6 && |suffix| <= 3 && i < 11
    ensures (Padded(base + [TILDE, digit], 8) + Padded(suffix, 3))[i] ==
            if i < |base| then base[i]
            else if i == |base| then 126
            else if i == |base| + 1 then digit
            else if 8 <= i < 8 + |suffix| then suffix[i - 8]
            else 32
  {
  }

  /** Letters in capitals: up to six of the stem, the number after a tilde, and up to three of the
      extension, each part filled up with spaces. */
  lemma PlainAlias(stem: seq<byte>, ext: seq<byte>, serial: nat, i: nat)
    requires stem != [] && LowerCase(stem) && LowerCase(ext) && serial < 10 && i < 11
    ensures var shown := if |stem| < 6 then |stem| else 6;
            Alias(stem + [46] + ext, serial)[i] ==
            if i < shown then stem[i] - 32
            else if i == shown then 126
            else if i == shown + 1 then 48 + serial
            else if 8 <= i < 8 + |ext| then ext[i - 8] - 32
            else 32
  {
    PlainParts(stem, ext, serial);
    FirstLetters(stem, 6);
    FirstLetters(ext, 3);
    var base, suffix := Prefix(SanitizedAll(stem), 6), Prefix(SanitizedAll(ext), 3);
    LettersShown(Alias(stem + [46] + ext, serial), stem, ext, base, 48 + serial, suffix, i);
  }

  lemma LettersShown(alias: seq<byte>, stem: seq<byte>, ext: seq<byte>, base: seq<byte>, digit: byte,
                     suffix: seq<byte>, i: nat)
    requires alias == Padded(base + [TILDE, digit], 8) + Padded(suffix, 3) && i < 11
    requires LowerCase(stem) && |base| == (if |stem| < 6 then |stem| else 6)
    requires LowerCase(ext) && |suffix| == (if |ext| < 3 then |ext| else 3)
    requires (forall k | 0 <= k < |base| :: base[k] == stem[k] - 32)
    requires (forall k | 0 <= k < |suffix| :: suffix[k] == ext[k] - 32)
    ensures alias[i] == if i < |base| then stem[i] - 32
                        else if i == |base| then 126
                        else if i == |base| + 1 then digit
                        else if 8 <= i < 8 + |ext| then ext[i - 8] - 32
                        else 32
  {
    PaddedParts(base, digit, suffix, i);
  }

  lemma FirstLetters(s: seq<byte>, n: nat)
    requires LowerCase(s)
    ensures |Prefix(SanitizedAll(s), n)| == if |s| < n then |s| else n
    ensures forall i | 0 <= i < |s| && i < n :: Prefix(SanitizedAll(s), n)[i] == s[i] - 32
  {
    OnlyLetters(s);
  }

  lemma {:induction false} DotsOnly(s: seq<byte>)
    requires forall i | 0 <= i < |s| :: s[i] == DOT
    ensures SanitizedAll(s) == []
  {
    if s != [] { DotsOnly(s[1..]); }
  }

  /** A name with nothing but dots before its last dot gets an X instead. */
  lemma DotsAlias(dots: seq<byte>, ext: seq<byte>, serial: nat)
    requires (forall i | 0 <= i < |dots| :: dots[i] == 46) && LowerCase(ext) && serial < 10
    ensures Alias(dots + [46] + ext, serial)[..8] == [88, 126, 48 + serial, 32, 32, 32, 32, 32]
  {
    var n := dots + [46] + ext;
    LastDotIs(dots, ext);
    DotsBase(n, dots, serial);
    assert Padded([88] + [TILDE] + Digits(serial), 8) == [88, 126, 48 + serial, 32, 32, 32, 32, 32];
  }

  lemma DotsBase(n: Name, dots: seq<byte>, serial: nat)
    requires (forall i | 0 <= i < |dots| :: dots[i] == 46) && dots < n && LastDot(n) == |dots| && serial < 10
    ensures Base(n, serial) == [88] && Digits(serial) == [48 + serial]
  {
    DotsOnly(dots);
    assert n[..|dots|] == dots;
  }

  function Value(s: seq<byte>): int {
    if s == [] then 0 else 10 * Value(s[..|s| - 1]) + s[|s| - 1] - 48
  }

  lemma {:induction false} ValueOfDigits(v: nat)
    ensures Value(Digits(v)) == v
  {
    if v >= 10 {
      ValueOfDigits(v / 10);
      assert Digits(v)[..|Digits(v)| - 1] == Digits(v / 10);
    }
  }

  lemma {:induction false} DigitCount(v: nat, limit: nat, n: nat)
    requires v < limit && limit == Ten(n) && n > 0
    ensures |Digits(v)| <= n
    decreases n
  {
    if v >= 10 {
      assert n > 1;
      DigitCount(v / 10, Ten(n - 1), n - 1);
    }
  }

  function Ten(n: nat): nat { if n == 0 then 1 else 10 * Ten(n - 1) }

  /** In the first eight bytes a tilde at p is followed by the digits ds and then by spaces. */
  predicate Numbered(a: seq<byte>, p: nat, ds: seq<byte>) {
    && p + 1 + |ds| <= 8 <= |a| && a[p] == TILDE
    && (forall i | p < i <= p + |ds| :: a[i] == ds[i - p - 1] && 48 <= a[i] <= 57)
    && (forall i | p + 1 + |ds| <= i < 8 :: a[i] == SPACE)
  }

  /** Nothing after the tilde before the number can be another tilde. */
  lemma OneNumber(a: seq<byte>, p: nat, ds: seq<byte>, q: nat, dt: seq<byte>)
    requires Numbered(a, p, ds) && Numbered(a, q, dt)
    ensures p == q && ds == dt
  {
    assert forall i | p < i < 8 :: a[i] == SPACE || a[i] == ds[i - p - 1];
    assert forall i | q < i < 8 :: a[i] == SPACE || a[i] == dt[i - q - 1];
    assert p == q;
    assert (if p + 1 + |ds| < 8 then a[p + 1 + |ds|] else SPACE) == SPACE;
    assert (if p + 1 + |dt| < 8 then a[p + 1 + |dt|] else SPACE) == SPACE;
    assert ds == a[p + 1..p + 1 + |ds|] && dt == a[p + 1..p + 1 + |dt|];
  }

  lemma PaddedIsNumbered(base: seq<byte>, ds: seq<byte>, ext: seq<byte>)
    requires |base| + 1 + |ds| <= 8 && forall i | 0 <= i < |ds| :: 48 <= ds[i] <= 57
    ensures Numbered(Padded(base + [TILDE] + ds, 8) + ext, |base|, ds)
  {
  }

  lemma AliasIsNumbered(n: Name, serial: nat)
    requires serial < 1000000
    ensures Numbered(Alias(n, serial), |Base(n, serial)|, Digits(serial))
  {
    assert Ten(6) == 1000000 by { assert Ten(3) == 1000; }
    DigitCount(serial, 1000000, 6);
    var suffix := if LastDot(n) < 0 then [] else n[LastDot(n) + 1..];
    PaddedIsNumbered(Base(n, serial), Digits(serial), Padded(Prefix(SanitizedAll(suffix), 3), 3));
  }

  /** Different numbers make different aliases, as long as they have at most six digits. */
  lemma AliasTellsSerial(n: Name, s: nat, t: nat)
    requires s < 1000000 && t < 1000000 && Alias(n, s) == Alias(n, t)
    ensures s == t
  {
    AliasIsNumbered(n, s);
    AliasIsNumbered(n, t);
    OneNumber(Alias(n, s), |Base(n, s)|, Digits(s), |Base(n, t)|, Digits(t));
    ValueOfDigits(s);
    ValueOfDigits(t);
  }

  ghost predicate Injective(f: nat -> seq<byte>) {
    forall s, t | 0 <= s < 1000000 && 0 <= t < 1000000 && f(s) == f(t) :: s == t
  }

  /** The values at the numbers from a up to b. */
  ghost function Tried(f: nat -> seq<byte>, a: nat, b: nat): (r: set<seq<byte>>)
    ensures forall t | a <= t < b :: f(t) in r
  {
    if b <= a then {} else Tried(f, a, b - 1) + {f(b - 1)}
  }

  lemma {:induction false} NotTriedYet(f: nat -> seq<byte>, a: nat, b: nat, s: nat)
    requires b <= s < 1000000 && Injective(f)
    ensures f(s) !in Tried(f, a, b)
  {
    if a < b { NotTriedYet(f, a, b - 1, s); }
  }

  lemma {:induction false} TriedSize(f: nat -> seq<byte>, a: nat, b: nat)
    requires a <= b < 1000000 && Injective(f)
    ensures |Tried(f, a, b)| == b - a
  {
    if a < b {
      TriedSize(f, a, b - 1);
      NotTriedYet(f, a, b - 1, b - 1);
    }
  }

  function AliasesOf(n: Name): nat -> seq<byte> { serial => Alias(n, serial) }

  lemma AliasesDiffer(n: Name)
    ensures Injective(AliasesOf(n))
  {
    var f := AliasesOf(n);
    forall s: nat, t: nat | s < 1000000 && t < 1000000 && f(s) == f(t) ensures s == t {
      AliasTellsSerial(n, s, t);
    }
  }

  /** Counting up from `index`, `serial` is the first whose alias is not in use. */
  ghost predicate NextAlias(n: Name, index: nat, serial: nat, used: set<seq<byte>>) {
    serial >= index && Alias(n, serial) !in used && forall t | index <= t < serial :: Alias(n, t) in used
  }

  lemma FoundNext(n: Name, index: nat, serial: nat, used: set<seq<byte>>)
    requires index <= serial && Tried(AliasesOf(n), index, serial) <= used && Alias(n, serial) !in used
    ensures NextAlias(n, index, serial, used)
  {
    forall t | index <= t < serial ensures Alias(n, t) in used {
      assert AliasesOf(n)(t) in Tried(AliasesOf(n), index, serial);
    }
  }

  /** The builder counts up until the alias is new. */
  method ChooseAlias(n: Name, index: nat, used: set<seq<byte>>) returns (alias: seq<byte>)
    requires index + |used| + 1 < 1000000
    ensures alias !in used && |alias| == 11 && Printable(alias[0])
    ensures exists serial :: NextAlias(n, index, serial, used) && alias == Alias(n, serial)
  {
    var serial, f := index, AliasesOf(n);
    AliasesDiffer(n);
    alias := f(serial);
    while alias in used
      invariant index <= serial <= index + |used| && alias == f(serial) && Tried(f, index, serial) <= used
      decreases index + |used| - serial
    {
      serial := serial + 1;
      TriedSize(f, index, serial);
      Subset(Tried(f, index, serial), used);
      alias := f(serial);
    }
    FoundNext(n, index, serial, used);
  }

  lemma {:induction false} Subset(a: set<seq<byte>>, b: set<seq<byte>>)
    requires a <= b
    ensures |a| <= |b|
  {
    if a != {} {
      var x :| x in a;
      Subset(a - {x}, b - {x});
    }
  }

  // ----- Long-name entries -----

  /** The 16-bit units of a name: its characters, a terminator, and padding. */
  function Unit(n: Name, j: nat): nat {
    if j < |n| then n[j] else if j == |n| then 0 else 0xFFFF
  }

  /** How many entries the name takes. */
  function ChunkCount(n: Name): nat { |n| / LFN_UNITS + 1 }

  /** At which byte of an entry its unit u starts. */
  function UnitStart(u: nat): nat
    requires u < LFN_UNITS
  {
    if u < 5 then 1 + 2 * u else if u < 11 then 14 + 2 * (u - 5) else 28 + 2 * (u - 11)
  }

  /** Bit 6 of an order marks the last chunk. */
  function Marked(order: nat): nat { if order / 64 % 2 == 1 then order else order + 0x40 }

  function Order(n: Name, k: nat): nat { if k + 1 == ChunkCount(n) then Marked(k + 1) else k + 1 }

  /** Entry `e` holds chunk k of name n. */
  predicate HoldsChunk(e: seq<byte>, n: Name, k: nat, checksum: byte) {
    && |e| == 32
    && e[0] as int == Order(n, k)
    && e[11] == 0x0F && e[12] == 0 && e[13] == checksum && U16(e, 26) == 0
    && forall u | 0 <= u < LFN_UNITS :: U16(e, UnitStart(u)) == Unit(n, LFN_UNITS * k + u)
  }

  /** The entries of a name, last chunk first. */
  predicate HoldsName(es: seq<seq<byte>>, n: Name, checksum: byte) {
    && |es| == ChunkCount(n)
    && forall j | 0 <= j < |es| :: HoldsChunk(es[j], n, |es| - 1 - j, checksum)
  }

  method MakeUnits(n: Name) returns (units: seq<nat>)
    ensures |units| == LFN_UNITS * ChunkCount(n)
    ensures forall j | 0 <= j < |units| :: units[j] == Unit(n, j)
  {
    units := seq(|n|, i requires 0 <= i < |n| => n[i] as nat);
    units := units + [0];
    while |units| % LFN_UNITS != 0
      invariant |n| < |units| <= LFN_UNITS * ChunkCount(n)
      invariant forall j | 0 <= j < |units| :: units[j] == Unit(n, j)
      decreases LFN_UNITS * ChunkCount(n) - |units|
    {
      units := units + [0xFFFF];
    }
  }

  method PackUnits(a: array<byte>, start: nat, units: seq<nat>)
    requires start + 2 * |units| <= a.Length && forall i | 0 <= i < |units| :: units[i] < 65536
    modifies a
    ensures forall i | 0 <= i < |units| :: U16(a[..], start + 2 * i) == units[i]
    ensures forall i | 0 <= i < a.Length && !(start <= i < start + 2 * |units|) :: a[i] == old(a[i])
  {
    var i := 0;
    while i < |units|
      invariant i <= |units|
      invariant forall j | 0 <= j < i :: U16(a[..], start + 2 * j) == units[j]
      invariant forall j | 0 <= j < a.Length && !(start <= j < start + 2 * i) :: a[j] == old(a[j])
    {
      a[start + 2 * i] := units[i] % 256;
      a[start + 2 * i + 1] := units[i] / 256;
      i := i + 1;
    }
  }

  method MakeLfnEntry(n: Name, k: nat, checksum: byte, units: seq<nat>) returns (e: seq<byte>)
    requires k < ChunkCount(n) && NameFits(n) && |units| == LFN_UNITS
    requires forall u | 0 <= u < LFN_UNITS :: units[u] == Unit(n, LFN_UNITS * k + u)
    ensures HoldsChunk(e, n, k, checksum)
  {
    var entry := new byte[32](_ => 0);
    var order := k + 1;
    entry[0] := if k + 1 == ChunkCount(n) then Marked(order) else order;
    PackUnits(entry, 1, units[0..5]);
    entry[11] := 0x0F;
    entry[13] := checksum;
    PackUnits(entry, 14, units[5..11]);
    PackUnits(entry, 28, units[11..13]);
    e := entry[..];
    forall u | 0 <= u < LFN_UNITS ensures U16(e, UnitStart(u)) == units[u] {
      if u < 5 {
        assert units[0..5][u] == units[u];
      } else if u < 11 {
        assert units[5..11][u - 5] == units[u];
      } else {
        assert units[11..13][u - 11] == units[u];
      }
    }
  }

  /** The entry of the last chunk is made first; an order that does not fit in its byte ends
      the program. */
  method MakeLfnEntries(n: Name, checksum: byte) returns (r: Option<seq<seq<byte>>>)
    ensures r.Some? <==> NameFits(n)
    ensures r.Some? ==> HoldsName(r.value, n, checksum)
  {
    var units := MakeUnits(n);
    var total := |units| / LFN_UNITS;
    if Marked(total) > 255 {
      return None;
    }
    var entries: seq<seq<byte>> := [];
    while |entries| < total
      invariant |entries| <= total
      invariant forall j | 0 <= j < |entries| :: HoldsChunk(entries[j], n, total - 1 - j, checksum)
    {
      var k := total - 1 - |entries|;
      var e := MakeLfnEntry(n, k, checksum, units[LFN_UNITS * k..LFN_UNITS * k + LFN_UNITS]);
      entries := entries + [e];
    }
    r := Some(entries);
  }

  // ----- Reading a long name back -----

  /** What fat32_lfn_append_chunk leaves in the name buffer. */
  function Appended(buffer: seq<byte>, units: seq<nat>, base: nat): (r: seq<byte>)
    requires |buffer| == NAME_CAPACITY
    ensures |r| == NAME_CAPACITY
    decreases |units|
  {
    if units == [] then buffer
    else if units[0] == 0 then (if base < NAME_CAPACITY then buffer[base := 0] else buffer)
    else if units[0] == 0xFFFF || base >= NAME_CAPACITY then buffer
    else Appended(buffer[base := units[0] % 256], units[1..], base + 1)
  }

  method AppendChunk(buffer: array<byte>, units: seq<nat>, base: nat)
    requires buffer.Length == NAME_CAPACITY
    modifies buffer
    ensures buffer[..] == Appended(old(buffer[..]), units, base)
  {
    var i := 0;
    while i < |units|
      invariant i <= |units|
      invariant Appended(old(buffer[..]), units, base) == Appended(buffer[..], units[i..], base + i)
    {
      ghost var rest := units[i..];
      assert rest[0] == units[i] && rest[1..] == units[i + 1..];
      if units[i] == 0 {
        if base + i < buffer.Length {
          buffer[base + i] := 0;
        }
        return;
      }
      if units[i] == 0xFFFF || base + i >= buffer.Length {
        return;
      }
      ghost var before := buffer[..];
      buffer[base + i] := units[i] % 256;
      assert buffer[..] == before[base + i := units[i] % 256];
      i := i + 1;
    }
  }

  function UnitsOf(e: seq<byte>, from: nat, to: nat): seq<nat>
    requires |e| == 32 && from <= to <= LFN_UNITS
  {
    seq<nat>(to - from, i requires 0 <= i < to - from => U16(e, UnitStart(from + i)))
  }

  /** The buffer after one entry: its three runs of units, at the place its order says. */
  function Collected(buffer: seq<byte>, e: seq<byte>): (r: seq<byte>)
    requires |buffer| == NAME_CAPACITY && |e| == 32
    ensures |r| == NAME_CAPACITY
  {
    var order := e[0] as int % 32;
    if order == 0 then buffer
    else
      var base := (order - 1) * LFN_UNITS;
      var front := Appended(Appended(buffer, UnitsOf(e, 0, 5), base), UnitsOf(e, 5, 11), base + 5);
      Appended(front, UnitsOf(e, 11, 13), base + 11)
  }

  method Collect(buffer: array<byte>, e: seq<byte>)
    requires buffer.Length == NAME_CAPACITY && |e| == 32
    modifies buffer
    ensures buffer[..] == Collected(old(buffer[..]), e)
  {
    var order := e[0] as int % 32;
    if order == 0 {
      return;
    }
    var base := (order - 1) * LFN_UNITS;
    AppendChunk(buffer, UnitsOf(e, 0, 5), base);
    AppendChunk(buffer, UnitsOf(e, 5, 11), base + 5);
    AppendChunk(buffer, UnitsOf(e, 11, 13), base + 11);
  }

  /** The buffer with the part of the terminated name from a up to b written into it. */
  function Overlay(buffer: seq<byte>, n: Name, a: nat, b: nat): (r: seq<byte>)
    requires |buffer| == NAME_CAPACITY
    ensures |r| == NAME_CAPACITY
  {
    seq(NAME_CAPACITY, j requires 0 <= j < NAME_CAPACITY =>
      if a <= j < b && j <= |n| then (if j < |n| then n[j] else 0) else buffer[j])
  }

  /** A run of units of the name lands where the name has them. */
  lemma {:induction false} RunAppended(buffer: seq<byte>, n: Name, units: seq<nat>, a: nat)
    requires |buffer| == NAME_CAPACITY && NameOk(n)
    requires forall i | 0 <= i < |units| :: units[i] == Unit(n, a + i)
    ensures Appended(buffer, units, a) == Overlay(buffer, n, a, a + |units|)
    decreases |units|
  {
    if units != [] && units[0] != 0 && units[0] != 0xFFFF && a < NAME_CAPACITY {
      RunAppended(buffer[a := units[0] % 256], n, units[1..], a + 1);
    }
  }

  lemma OverlayTwice(buffer: seq<byte>, n: Name, a: nat, b: nat, c: nat)
    requires |buffer| == NAME_CAPACITY && a <= b <= c
    ensures Overlay(Overlay(buffer, n, a, b), n, b, c) == Overlay(buffer, n, a, c)
  {
  }

  /** The driver keeps five bits of the order. */
  lemma ChunkCollected(buffer: seq<byte>, e: seq<byte>, n: Name, k: nat, checksum: byte)
    requires |buffer| == NAME_CAPACITY && NameOk(n) && k < 31 && k < ChunkCount(n) && HoldsChunk(e, n, k, checksum)
    ensures Collected(buffer, e) == Overlay(buffer, n, LFN_UNITS * k, LFN_UNITS * k + LFN_UNITS)
  {
    var base := LFN_UNITS * k;
    assert (e[0] as int % 32 - 1) * LFN_UNITS == base;
    var one := Appended(buffer, UnitsOf(e, 0, 5), base);
    RunAppended(buffer, n, UnitsOf(e, 0, 5), base);
    var two := Appended(one, UnitsOf(e, 5, 11), base + 5);
    RunAppended(one, n, UnitsOf(e, 5, 11), base + 5);
    RunAppended(two, n, UnitsOf(e, 11, 13), base + 11);
    OverlayTwice(buffer, n, base, base + 5, base + 11);
    assert two == Overlay(buffer, n, base, base + 11);
    OverlayTwice(buffer, n, base, base + 11, base + 13);
  }

  /** Where the first zero is. */
  function CLength(buffer: seq<byte>): (k: nat)
    ensures k <= |buffer| && 0 !in buffer[..k] && (k < |buffer| ==> buffer[k] == 0)
  {
    if buffer == [] || buffer[0] == 0 then 0
    else
      assert forall k | 0 <= k < |buffer| :: buffer[..k + 1] == [buffer[0]] + buffer[1..][..k];
      1 + CLength(buffer[1..])
  }

  /** The characters before it. */
  function CString(buffer: seq<byte>): seq<byte> { buffer[..CLength(buffer)] }

  lemma CLengthIs(buffer: seq<byte>, k: nat)
    requires k <= |buffer| && forall i | 0 <= i < k :: buffer[i] != 0
    ensures k <= CLength(buffer) && (k < |buffer| && buffer[k] == 0 ==> k == CLength(buffer))
  {
    var length := CLength(buffer);
    assert k < length && k < |buffer| ==> buffer[..length][k] == buffer[k];
  }

  lemma CStringOf(buffer: seq<byte>, n: Name)
    requires 0 !in n && |n| < |buffer| && buffer[..|n|] == n && buffer[|n|] == 0
    ensures CString(buffer) == n
  {
    assert forall i | 0 <= i < |n| :: buffer[i] == n[i];
    CLengthIs(buffer, |n|);
  }

  /** A buffer full of characters. */
  lemma CStringOfAll(buffer: seq<byte>)
    requires forall i | 0 <= i < |buffer| :: buffer[i] != 0
    ensures CString(buffer) == buffer
  {
    CLengthIs(buffer, |buffer|);
  }
}
