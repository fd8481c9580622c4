/**
 Finding the soft-off package \_S5 in the bytes of the DSDT (kernel/acpi/acpi_power.cpp): the
 decoders for package lengths (section 20.2.4 of the ACPI specification) and integers (section
 20.2.3) against their encodings, and the scan.
 */
module Aml {
  import opened Bytes

  /** A number and how many bytes it took. */
  datatype Parsed = Bad | Parsed(value: nat, size: nat)

  /** The bytes s stand at o. */
  predicate At(aml: seq<byte>, o: nat, s: seq<byte>) {
    o + |s| <= |aml| && forall i | 0 <= i < |s| :: aml[o + i] == s[i]
  }

  lemma AtParts(aml: seq<byte>, o: nat, s: seq<byte>, t: seq<byte>)
    requires At(aml, o, s + t)
    ensures At(aml, o, s) && At(aml, o + |s|, t)
  {
    forall i | 0 <= i < |s| ensures aml[o + i] == s[i] {
      assert aml[o + i] == (s + t)[i];
    }
    forall i | 0 <= i < |t| ensures aml[o + |s| + i] == t[i] {
      assert aml[o + (|s| + i)] == (s + t)[|s| + i];
    }
  }

  // ----- Little-endian numbers of any length -----

  function Power(n: nat): (p: nat)
    ensures p > 0
  {
    if n == 0 then 1 else 256 * Power(n - 1)
  }

  /** The number in the n bytes at o. */
  function Value(aml: seq<byte>, o: nat, n: nat): nat
    requires o + n <= |aml|
    decreases n
  {
    if n == 0 then 0 else aml[o] + 256 * Value(aml, o + 1, n - 1)
  }

  function Digits(v: nat, n: nat): (b: seq<byte>)
    ensures |b| == n
  {
    if n == 0 then [] else [v % 256] + Digits(v / 256, n - 1)
  }

  lemma {:induction false} ValueOfDigits(aml: seq<byte>, o: nat, v: nat, n: nat)
    requires v < Power(n) && At(aml, o, Digits(v, n))
    ensures Value(aml, o, n) == v
    decreases n
  {
    if n > 0 {
      AtParts(aml, o, [v % 256], Digits(v / 256, n - 1));
      ValueOfDigits(aml, o + 1, v / 256, n - 1);
      assert aml[o + 0] == Digits(v, n)[0];
    }
  }

  /** Every number of n bytes is the one its digits give. */
  lemma {:induction false} DigitsOfValue(aml: seq<byte>, o: nat, n: nat)
    requires o + n <= |aml|
    ensures Value(aml, o, n) < Power(n) && At(aml, o, Digits(Value(aml, o, n), n))
    decreases n
  {
    if n > 0 {
      DigitsOfValue(aml, o + 1, n - 1);
      var rest := Value(aml, o + 1, n - 1);
      assert Value(aml, o, n) % 256 == aml[o] && Value(aml, o, n) / 256 == rest;
      var digits := Digits(Value(aml, o, n), n);
      forall i | 0 <= i < n ensures aml[o + i] == digits[i] {
        if i > 0 { assert aml[o + 1 + (i - 1)] == Digits(rest, n - 1)[i - 1]; }
      }
    }
  }

  lemma Scaled(b: byte, p: nat)
    ensures b as int * (256 * p) == 256 * (b as int * p)
  {
  }

  lemma {:induction false} ValueGrows(aml: seq<byte>, o: nat, n: nat)
    requires o + n < |aml|
    ensures Value(aml, o, n + 1) == Value(aml, o, n) + aml[o + n] as int * Power(n)
    decreases n
  {
    if n > 0 {
      ValueGrows(aml, o + 1, n - 1);
      Scaled(aml[o + n], Power(n - 1));
    }
  }

  /** The byte loop both decoders contain. Each byte lies above the bits before it, so that
      joining is adding. */
  method ReadValue(aml: seq<byte>, o: nat, n: nat) returns (value: nat)
    requires o + n <= |aml|
    ensures value == Value(aml, o, n)
  {
    value := 0;
    var shift, i := 1, 0;
    while i < n
      invariant i <= n && shift == Power(i) && value == Value(aml, o, i)
    {
      ValueGrows(aml, o, i);
      value := value + aml[o + i] as int * shift;
      shift := shift * 256;
      i := i + 1;
    }
  }

  // ----- Package lengths -----

  /** The length at o, read no further than `end`: six bits of the lead byte, or four bits and
      up to three more bytes. */
  function PackageLength(aml: seq<byte>, o: nat, end: nat): (p: Parsed)
    requires o <= end <= |aml|
    ensures p.Parsed? ==> 0 < p.size <= end - o
  {
    if o == end then Bad
    else
      var following := aml[o] as int / 64;
      if o + following + 1 > end then Bad
      else if following == 0 then Parsed(aml[o] as int % 64, 1)
      else Parsed(aml[o] as int % 16 + 16 * Value(aml, o + 1, following), following + 1)
  }

  method ParsePackageLength(aml: seq<byte>, o: nat, end: nat) returns (p: Parsed)
    requires o <= end <= |aml|
    ensures p == PackageLength(aml, o, end)
  {
    if o == end {
      return Bad;
    }
    var lead := aml[o] as int;
    var following := lead / 64;
    if o + following + 1 > end {
      return Bad;
    }
    var length := if following == 0 then lead % 64 else lead % 16;
    var rest := ReadValue(aml, o + 1, following);
    return Parsed(length + 16 * rest, following + 1);
  }

  /** The length fits in a form with so many bytes after the lead byte, and two spare bits
      in the lead byte of the longer forms. */
  predicate FormHolds(length: nat, following: nat, spare: nat) {
    following <= 3 && spare < 4 && if following == 0 then length < 64 && spare == 0 else length / 16 < Power(following)
  }

  /** A package length in any form, the spare bits set to anything. */
  function LengthForm(length: nat, following: nat, spare: nat): (s: seq<byte>)
    requires FormHolds(length, following, spare)
    ensures |s| == following + 1
  {
    if following == 0 then [length] else [64 * following + 16 * spare + length % 16] + Digits(length / 16, following)
  }

  /** Decoding inverts every form, whatever follows it. */
  lemma FormRoundTrip(aml: seq<byte>, o: nat, end: nat, length: nat, following: nat, spare: nat)
    requires FormHolds(length, following, spare) && At(aml, o, LengthForm(length, following, spare))
    requires o + following + 1 <= end <= |aml|
    ensures PackageLength(aml, o, end) == Parsed(length, following + 1)
  {
    assert aml[o + 0] == LengthForm(length, following, spare)[0];
    if following > 0 {
      AtParts(aml, o, [64 * following + 16 * spare + length % 16], Digits(length / 16, following));
      ValueOfDigits(aml, o + 1, length / 16, following);
    }
  }

  /** Every length that is decoded stands there in some form. */
  lemma FormOf(aml: seq<byte>, o: nat, end: nat) returns (following: nat, spare: nat)
    requires o <= end <= |aml| && PackageLength(aml, o, end).Parsed?
    ensures var p := PackageLength(aml, o, end);
            && p.size == following + 1 && FormHolds(p.value, following, spare)
            && At(aml, o, LengthForm(p.value, following, spare))
  {
    var lead := aml[o] as int;
    following := lead / 64;
    spare := if following == 0 then 0 else lead / 16 % 4;
    if following > 0 {
      DigitsOfValue(aml, o + 1, following);
      var rest := Value(aml, o + 1, following);
      var length := PackageLength(aml, o, end).value;
      assert length / 16 == rest && length % 16 == lead % 16;
      assert lead == 64 * following + 16 * spare + length % 16;
      var form := LengthForm(length, following, spare);
      forall i | 0 <= i < |form| ensures aml[o + i] == form[i] {
        if i > 0 { assert aml[o + 1 + (i - 1)] == Digits(rest, following)[i - 1]; }
      }
    }
  }

  /** How many bytes follow in the shortest form. */
  function ShortestForm(length: nat): nat
    requires length < 0x1000_0000
  {
    if length < 64 then 0 else if length < 0x1000 then 1 else if length < 0x10_0000 then 2 else 3
  }

  lemma ShortestHolds(length: nat)
    requires length < 0x1000_0000
    ensures FormHolds(length, ShortestForm(length), 0)
  {
    assert Power(1) == 256 && Power(2) == 0x10000 && Power(3) == 0x100_0000;
  }

  /** PkgLength of section 20.2.4: the shortest form that holds the length. */
  function EncodedLength(length: nat): (s: seq<byte>)
    requires length < 0x1000_0000
    ensures |s| == ShortestForm(length) + 1
  {
    ShortestHolds(length);
    LengthForm(length, ShortestForm(length), 0)
  }

  /** Decoding inverts the encoding, whatever follows it. */
  lemma LengthRoundTrip(aml: seq<byte>, o: nat, end: nat, length: nat)
    requires length < 0x1000_0000 && At(aml, o, EncodedLength(length)) && o + |EncodedLength(length)| <= end <= |aml|
    ensures PackageLength(aml, o, end) == Parsed(length, |EncodedLength(length)|)
  {
    ShortestHolds(length);
    FormRoundTrip(aml, o, end, length, ShortestForm(length), 0);
  }

  // ----- Integers -----

  /** How many bytes follow the prefix of an integer. */
  function IntegerSize(op: byte): nat {
    if op == 0x0A then 1 else if op == 0x0B then 2 else if op == 0x0C then 4 else if op == 0x0E then 8 else 0
  }

  function Integer(aml: seq<byte>, o: nat, end: nat): (p: Parsed)
    requires o <= end <= |aml|
    ensures p.Parsed? ==> 0 < p.size <= end - o
  {
    if o == end then Bad
    else if aml[o] <= 1 then Parsed(aml[o], 1)
    else
      var size := IntegerSize(aml[o]);
      if size == 0 || end - o < size + 1 then Bad else Parsed(Value(aml, o + 1, size), size + 1)
  }

  method ParseInteger(aml: seq<byte>, o: nat, end: nat) returns (p: Parsed)
    requires o <= end <= |aml|
    ensures p == Integer(aml, o, end)
  {
    if o == end {
      return Bad;
    }
    if aml[o] == 0x00 || aml[o] == 0x01 {
      return Parsed(aml[o], 1);
    }
    var size := 0;
    if aml[o] == 0x0A {
      size := 1;
    } else if aml[o] == 0x0B {
      size := 2;
    } else if aml[o] == 0x0C {
      size := 4;
    } else if aml[o] == 0x0E {
      size := 8;
    } else {
      return Bad;
    }
    if end - o < size + 1 {
      return Bad;
    }
    var value := ReadValue(aml, o + 1, size);
    return Parsed(value, size + 1);
  }

  datatype Width = Constant | Byte | Word | DWord | QWord

  function WidthSize(w: Width): nat {
    match w case Constant => 0 case Byte => 1 case Word => 2 case DWord => 4 case QWord => 8
  }

  function Prefix(w: Width): byte {
    match w case Constant => 0 case Byte => 0x0A case Word => 0x0B case DWord => 0x0C case QWord => 0x0E
  }

  predicate Holds(w: Width, v: nat) { if w == Constant then v < 2 else v < Power(WidthSize(w)) }

  /** ZeroOp, OneOp, and the constants with a prefix, of section 20.2.3. */
  function EncodedInteger(w: Width, v: nat): (s: seq<byte>)
    requires Holds(w, v)
    ensures |s| > 0
  {
    if w == Constant then [v] else [Prefix(w)] + Digits(v, WidthSize(w))
  }

  lemma IntegerRoundTrip(aml: seq<byte>, o: nat, end: nat, w: Width, v: nat)
    requires Holds(w, v) && At(aml, o, EncodedInteger(w, v)) && o + |EncodedInteger(w, v)| <= end <= |aml|
    ensures Integer(aml, o, end) == Parsed(v, |EncodedInteger(w, v)|)
  {
    assert aml[o + 0] == EncodedInteger(w, v)[0];
    if w != Constant {
      AtParts(aml, o, [Prefix(w)], Digits(v, WidthSize(w)));
      ValueOfDigits(aml, o + 1, v, WidthSize(w));
    }
  }

  /** Every integer that is decoded stands there in one of the encodings. */
  lemma IntegerOf(aml: seq<byte>, o: nat, end: nat) returns (w: Width)
    requires o <= end <= |aml| && Integer(aml, o, end).Parsed?
    ensures var p := Integer(aml, o, end);
            Holds(w, p.value) && |EncodedInteger(w, p.value)| == p.size && At(aml, o, EncodedInteger(w, p.value))
  {
    if aml[o] <= 1 {
      w := Constant;
    } else {
      w := if aml[o] == 0x0A then Byte else if aml[o] == 0x0B then Word else if aml[o] == 0x0C then DWord else QWord;
      PrefixedInteger(aml, o, w);
    }
  }

  lemma PrefixedInteger(aml: seq<byte>, o: nat, w: Width)
    requires w != Constant && o + 1 + WidthSize(w) <= |aml| && aml[o] == Prefix(w)
    ensures var v := Value(aml, o + 1, WidthSize(w)); Holds(w, v) && At(aml, o, EncodedInteger(w, v))
  {
    var size := WidthSize(w);
    DigitsOfValue(aml, o + 1, size);
    var digits := Digits(Value(aml, o + 1, size), size);
    var code := EncodedInteger(w, Value(aml, o + 1, size));
    forall i | 0 <= i < |code| ensures aml[o + i] == code[i] {
      if i > 0 { assert aml[o + 1 + (i - 1)] == digits[i - 1]; }
    }
  }

  // ----- The scan -----

  const HEADER: nat := 36
  const ROOT_CHAR: byte := 0x5C
  const PARENT_CHAR: byte := 0x5E

  /** The name segment "_S5_" and the package operator. */
  predicate S5PackageAt(aml: seq<byte>, k: nat)
    requires k + 5 <= |aml|
  {
    aml[k] == 95 && aml[k + 1] == 83 && aml[k + 2] == 53 && aml[k + 3] == 95 && aml[k + 4] == 0x12
  }

  datatype Sleep = NoMatch | Sleep(a: byte, b: byte)

  /** The first byte from k on that is no parent prefix. */
  function AfterParents(aml: seq<byte>, k: nat): (r: nat)
    requires k <= |aml|
    ensures k <= r <= |aml|
    decreases |aml| - k
  {
    if k < |aml| && aml[k] == PARENT_CHAR then AfterParents(aml, k + 1) else k
  }

  function EndOf(aml: seq<byte>, package: nat, length: nat): nat {
    if package + length > |aml| then |aml| else package + length
  }

  /** The first two elements of the package whose length is at `package`, if they are sleep
      types. */
  function PackageAt(aml: seq<byte>, package: nat): Sleep
    requires package <= |aml|
  {
    var p := PackageLength(aml, package, |aml|);
    if p.Bad? then NoMatch
    else
      var body, end := package + p.size, EndOf(aml, package, p.value);
      if body >= end || aml[body] < 2 then NoMatch else ElementsAt(aml, body + 1, end)
  }

  function ElementsAt(aml: seq<byte>, o: nat, end: nat): Sleep
    requires o <= end <= |aml|
  {
    var first := Integer(aml, o, end);
    if first.Bad? then NoMatch
    else
      var second := Integer(aml, o + first.size, end);
      if second.Bad? || first.value > 7 || second.value > 7 then NoMatch else Sleep(first.value, second.value)
  }

  /** A definition of _S5 with a usable package at this offset. */
  function MatchAt(aml: seq<byte>, offset: nat): Sleep
    requires offset + 7 < |aml|
  {
    if aml[offset] != 0x08 then NoMatch
    else
      var name := AfterParents(aml, if aml[offset + 1] == ROOT_CHAR then offset + 2 else offset + 1);
      if name + 5 >= |aml| || !S5PackageAt(aml, name) then NoMatch else PackageAt(aml, name + 5)
  }

  method SkipParents(aml: seq<byte>, k: nat) returns (r: nat)
    requires k <= |aml|
    ensures r == AfterParents(aml, k)
  {
    r := k;
    while r < |aml| && aml[r] == PARENT_CHAR
      invariant k <= r <= |aml| && AfterParents(aml, k) == AfterParents(aml, r)
    {
      r := r + 1;
    }
  }

  method TryPackage(aml: seq<byte>, package: nat) returns (r: Sleep)
    requires package <= |aml|
    ensures r == PackageAt(aml, package)
  {
    var p := ParsePackageLength(aml, package, |aml|);
    if p.Bad? {
      return NoMatch;
    }
    var body, end := package + p.size, EndOf(aml, package, p.value);
    if body >= end || aml[body] < 2 {
      return NoMatch;
    }
    body := body + 1;
    var first := ParseInteger(aml, body, end);
    if first.Bad? {
      return NoMatch;
    }
    var second := ParseInteger(aml, body + first.size, end);
    if second.Bad? || first.value > 7 || second.value > 7 {
      return NoMatch;
    }
    return Sleep(first.value, second.value);
  }

  method TryAt(aml: seq<byte>, offset: nat) returns (r: Sleep)
    requires offset + 7 < |aml|
    ensures r == MatchAt(aml, offset)
  {
    if aml[offset] != 0x08 {
      return NoMatch;
    }
    var name := SkipParents(aml, if aml[offset + 1] == ROOT_CHAR then offset + 2 else offset + 1);
    if name + 5 >= |aml| || !S5PackageAt(aml, name) {
      return NoMatch;
    }
    r := TryPackage(aml, name + 5);
  }

  predicate Silent(aml: seq<byte>, offset: nat) {
    offset + 7 < |aml| ==> MatchAt(aml, offset) == NoMatch
  }

  /** On every table the scan stays inside it and returns the match at the lowest offset, or
      none if there is none. */
  method FindS5(aml: seq<byte>) returns (r: Sleep, at: nat)
    ensures r == NoMatch ==> forall o: nat | HEADER <= o :: Silent(aml, o)
    ensures r != NoMatch ==> && HEADER <= at && at + 7 < |aml| && r == MatchAt(aml, at)
                             && forall o | HEADER <= o < at :: Silent(aml, o)
  {
    at := HEADER;
    while at + 7 < |aml|
      invariant at >= HEADER && forall o | HEADER <= o < at :: Silent(aml, o)
    {
      r := TryAt(aml, at);
      if r != NoMatch {
        return;
      }
      at := at + 1;
    }
    r := NoMatch;
  }

  // ----- What a definition looks like -----

  /** The name operator, prefixes, the name and the package operator, before `package`. */
  predicate NamedAt(aml: seq<byte>, offset: nat, k: nat, parents: nat) {
    && offset + 1 <= k <= offset + 2 && k + parents + 5 < |aml| && offset + 7 < |aml|
    && aml[offset] == 0x08 && (k == offset + 2 ==> aml[offset + 1] == ROOT_CHAR)
    && (forall i | k <= i < k + parents :: aml[i] == PARENT_CHAR)
    && S5PackageAt(aml, k + parents)
  }

  lemma {:induction false} ParentsSkipped(aml: seq<byte>, k: nat, n: nat)
    requires k + n < |aml| && aml[k + n] != PARENT_CHAR && forall i | k <= i < k + n :: aml[i] == PARENT_CHAR
    ensures AfterParents(aml, k) == k + n
    decreases n
  {
    if n > 0 { ParentsSkipped(aml, k + 1, n - 1); }
  }

  lemma NameMatches(aml: seq<byte>, offset: nat, k: nat, parents: nat)
    requires NamedAt(aml, offset, k, parents)
    ensures MatchAt(aml, offset) == PackageAt(aml, k + parents + 5)
  {
    ParentsSkipped(aml, k, parents);
  }

  /** The first two elements of a package, in any encoding. */
  predicate ElementsEncoded(aml: seq<byte>, o: nat, end: nat, wa: Width, a: nat, wb: Width, b: nat) {
    && Holds(wa, a) && Holds(wb, b) && end <= |aml|
    && o + |EncodedInteger(wa, a)| + |EncodedInteger(wb, b)| <= end
    && At(aml, o, EncodedInteger(wa, a)) && At(aml, o + |EncodedInteger(wa, a)|, EncodedInteger(wb, b))
  }

  lemma ElementsMatch(aml: seq<byte>, o: nat, end: nat, wa: Width, a: nat, wb: Width, b: nat)
    requires ElementsEncoded(aml, o, end, wa, a, wb, b) && a <= 7 && b <= 7
    ensures ElementsAt(aml, o, end) == Sleep(a, b)
  {
    IntegerRoundTrip(aml, o, end, wa, a);
    IntegerRoundTrip(aml, o + |EncodedInteger(wa, a)|, end, wb, b);
  }

  /** The length of a package at `package` in some form, a count at `body`, and room for
      elements after it. The end of the table cuts a package that runs over it. */
  predicate PackedAt(aml: seq<byte>, package: nat, length: nat, following: nat, spare: nat) {
    && FormHolds(length, following, spare) && At(aml, package, LengthForm(length, following, spare))
    && package + following + 1 < EndOf(aml, package, length) && aml[package + following + 1] >= 2
  }

  /** How a definition of _S5 is written: where its name starts, its parent prefixes, the form
      of its length, and the encodings of its first two elements. */
  datatype Definition = Definition(
    k: nat, parents: nat, length: nat, following: nat, spare: nat, wa: Width, a: nat, wb: Width, b: nat)

  predicate DefinedAt(aml: seq<byte>, offset: nat, d: Definition) {
    NamedAt(aml, offset, d.k, d.parents) && PackageDefined(aml, d.k + d.parents + 5, d)
  }

  /** Its package stands there. */
  predicate PackageDefined(aml: seq<byte>, package: nat, d: Definition) {
    && PackedAt(aml, package, d.length, d.following, d.spare)
    && ElementsEncoded(aml, package + d.following + 2, EndOf(aml, package, d.length), d.wa, d.a, d.wb, d.b)
    && d.a <= 7 && d.b <= 7
  }

  lemma PackageMatches(aml: seq<byte>, package: nat, length: nat, following: nat, spare: nat)
    requires PackedAt(aml, package, length, following, spare)
    ensures PackageAt(aml, package) == ElementsAt(aml, package + following + 2, EndOf(aml, package, length))
  {
    FormRoundTrip(aml, package, |aml|, length, following, spare);
  }

  lemma PackageDefinedMatches(aml: seq<byte>, package: nat, d: Definition)
    requires PackageDefined(aml, package, d)
    ensures PackageAt(aml, package) == Sleep(d.a, d.b)
  {
    PackageMatches(aml, package, d.length, d.following, d.spare);
    ElementsRead(aml, package, package + d.following + 2, EndOf(aml, package, d.length), d);
  }

  lemma ElementsRead(aml: seq<byte>, package: nat, o: nat, end: nat, d: Definition)
    requires ElementsEncoded(aml, o, end, d.wa, d.a, d.wb, d.b) && d.a <= 7 && d.b <= 7
    requires package <= |aml| && PackageAt(aml, package) == ElementsAt(aml, o, end)
    ensures PackageAt(aml, package) == Sleep(d.a, d.b)
  {
    ElementsMatch(aml, o, end, d.wa, d.a, d.wb, d.b);
  }

  /** Wherever a definition of _S5 stands in the table, with any prefixes and any encoding of
      its numbers, the scan's test accepts it and reads its sleep types. */
  lemma DefinitionMatches(aml: seq<byte>, offset: nat, d: Definition)
    requires DefinedAt(aml, offset, d)
    ensures MatchAt(aml, offset) == Sleep(d.a, d.b)
  {
    NamedAndPacked(aml, offset, d.k, d.parents, d);
  }

  lemma NamedAndPacked(aml: seq<byte>, offset: nat, k: nat, parents: nat, d: Definition)
    requires NamedAt(aml, offset, k, parents) && PackageDefined(aml, k + parents + 5, d)
    ensures MatchAt(aml, offset) == Sleep(d.a, d.b)
  {
    PackageDefinedMatches(aml, k + parents + 5, d);
    NamedPackage(aml, offset, k, parents, Sleep(d.a, d.b));
  }

  lemma NamedPackage(aml: seq<byte>, offset: nat, k: nat, parents: nat, r: Sleep)
    requires NamedAt(aml, offset, k, parents) && PackageAt(aml, k + parents + 5) == r
    ensures MatchAt(aml, offset) == r
  {
    NameMatches(aml, offset, k, parents);
  }

  lemma {:induction false} ParentsAre(aml: seq<byte>, k: nat)
    requires k <= |aml|
    ensures forall i | k <= i < AfterParents(aml, k) :: aml[i] == PARENT_CHAR
    decreases |aml| - k
  {
    if k < |aml| && aml[k] == PARENT_CHAR { ParentsAre(aml, k + 1); }
  }

  /** The elements that were accepted stand there in some encoding. */
  lemma ElementsOf(aml: seq<byte>, o: nat, end: nat) returns (wa: Width, wb: Width)
    requires o <= end <= |aml| && ElementsAt(aml, o, end).Sleep?
    ensures var r := ElementsAt(aml, o, end); r.a <= 7 && r.b <= 7 && ElementsEncoded(aml, o, end, wa, r.a, wb, r.b)
  {
    wa := IntegerOf(aml, o, end);
    wb := IntegerOf(aml, o + Integer(aml, o, end).size, end);
  }

  lemma PackageOf(aml: seq<byte>, package: nat, k: nat, parents: nat) returns (d: Definition)
    requires package <= |aml| && PackageAt(aml, package).Sleep?
    ensures PackageDefined(aml, package, d) && PackageAt(aml, package) == Sleep(d.a, d.b)
    ensures d.k == k && d.parents == parents
  {
    var length, following, spare := PackedForm(aml, package);
    var o, end := package + following + 2, EndOf(aml, package, length);
    var wa, wb := ElementsOf(aml, o, end);
    var r := ElementsAt(aml, o, end);
    d := Definition(k, parents, length, following, spare, wa, r.a, wb, r.b);
  }

  lemma PackedForm(aml: seq<byte>, package: nat) returns (length: nat, following: nat, spare: nat)
    requires package <= |aml| && PackageAt(aml, package).Sleep?
    ensures PackedAt(aml, package, length, following, spare)
    ensures PackageAt(aml, package) == ElementsAt(aml, package + following + 2, EndOf(aml, package, length))
  {
    following, spare := FormOf(aml, package, |aml|);
    length := PackageLength(aml, package, |aml|).value;
  }

  lemma NameOf(aml: seq<byte>, offset: nat) returns (k: nat, parents: nat)
    requires offset + 7 < |aml| && MatchAt(aml, offset).Sleep?
    ensures NamedAt(aml, offset, k, parents) && MatchAt(aml, offset) == PackageAt(aml, k + parents + 5)
  {
    k := if aml[offset + 1] == ROOT_CHAR then offset + 2 else offset + 1;
    parents := AfterParents(aml, k) - k;
    ParentsAre(aml, k);
  }

  /** Everything the scan's test accepts is a definition of _S5, except that its length may be
      in a longer form than needed, with the spare bits set, and may run over the table. */
  lemma MatchIsDefinition(aml: seq<byte>, offset: nat) returns (d: Definition)
    requires offset + 7 < |aml| && MatchAt(aml, offset).Sleep?
    ensures DefinedAt(aml, offset, d) && MatchAt(aml, offset) == Sleep(d.a, d.b)
  {
    var k, parents := NameOf(aml, offset);
    d := NamedDefinition(aml, offset, k, parents);
  }

  lemma NamedDefinition(aml: seq<byte>, offset: nat, k: nat, parents: nat) returns (d: Definition)
    requires NamedAt(aml, offset, k, parents) && PackageAt(aml, k + parents + 5).Sleep?
    ensures DefinedAt(aml, offset, d) && PackageAt(aml, k + parents + 5) == Sleep(d.a, d.b)
  {
    d := PackageOf(aml, k + parents + 5, k, parents);
    DefinedBy(aml, offset, k, parents, d);
  }

  lemma DefinedBy(aml: seq<byte>, offset: nat, k: nat, parents: nat, d: Definition)
    requires NamedAt(aml, offset, k, parents) && PackageDefined(aml, k + parents + 5, d)
    requires d.k == k && d.parents == parents
    ensures DefinedAt(aml, offset, d)
  {
  }

  /** So the test accepts exactly the definitions. */
  lemma MatchesIff(aml: seq<byte>, offset: nat, a: byte, b: byte)
    requires offset + 7 < |aml|
    ensures MatchAt(aml, offset) == Sleep(a, b) <==> exists d :: DefinedAt(aml, offset, d) && d.a == a && d.b == b
  {
    if MatchAt(aml, offset) == Sleep(a, b) {
      var d := MatchIsDefinition(aml, offset);
    }
    if d :| DefinedAt(aml, offset, d) && d.a == a && d.b == b {
      DefinitionMatches(aml, offset, d);
    }
  }

  /** The package is written as section 20.2.4 asks: shortest length, inside the table. */
  predicate Proper(aml: seq<byte>, d: Definition) {
    && d.length < 0x1000_0000 && d.following == ShortestForm(d.length) && d.spare == 0
    && d.k + d.parents + 5 + d.length <= |aml|
  }

  /** Sleep types 5 and 0 in a package that claims 63 bytes. */
  const OVERRUNNING: seq<byte> := [0x08, 95, 83, 53, 95, 0x12, 63, 2, 0x0A, 5, 0x00]

  /** The same with a length of 7 in two bytes, the spare bits set. */
  const LONG_FORM: seq<byte> := [0x08, 95, 83, 53, 95, 0x12, 0x77, 0x00, 2, 0x0A, 5, 0x00]

  function ImproperTable(header: seq<byte>, longForm: bool): seq<byte> {
    header + if longForm then LONG_FORM else OVERRUNNING
  }

  /** How the definition after the header is written. */
  function ImproperDefinition(longForm: bool): Definition {
    if longForm then Definition(HEADER + 1, 0, 7, 1, 3, Byte, 5, Constant, 0)
    else Definition(HEADER + 1, 0, 63, 0, 0, Byte, 5, Constant, 0)
  }

  lemma ImproperMatches(header: seq<byte>, longForm: bool)
    requires |header| == HEADER
    ensures var aml, d := ImproperTable(header, longForm), ImproperDefinition(longForm);
            HEADER + 7 < |aml| && DefinedAt(aml, HEADER, d) && !Proper(aml, d) && MatchAt(aml, HEADER) == Sleep(5, 0)
  {
    ImproperDefined(header, longForm);
    DefinitionMatches(ImproperTable(header, longForm), HEADER, ImproperDefinition(longForm));
  }

  lemma ImproperDefined(header: seq<byte>, longForm: bool)
    requires |header| == HEADER
    ensures DefinedAt(ImproperTable(header, longForm), HEADER, ImproperDefinition(longForm))
  {
    assert Power(1) == 256;
    assert Digits(5, 1) == [5] && Digits(0, 1) == [0];
  }

  /** After any header the scan returns the sleep types of a package that runs over the table,
      and of one whose length is in a longer form than it needs. */
  method ImproperAccepted(header: seq<byte>, longForm: bool) returns (r: Sleep, at: nat)
    requires |header| == HEADER
    ensures r == Sleep(5, 0) && at == HEADER
    ensures !Proper(ImproperTable(header, longForm), ImproperDefinition(longForm))
    ensures DefinedAt(ImproperTable(header, longForm), at, ImproperDefinition(longForm))
  {
    ImproperMatches(header, longForm);
    r, at := FindFirst(ImproperTable(header, longForm));
  }

  /** What stands right after the header is found. */
  method FindFirst(aml: seq<byte>) returns (r: Sleep, at: nat)
    requires HEADER + 7 < |aml| && MatchAt(aml, HEADER).Sleep?
    ensures r == MatchAt(aml, HEADER) && at == HEADER
  {
    assert !Silent(aml, HEADER);
    r, at := FindS5(aml);
  }

  // ----- Definitions in their bytes -----

  /** A small number with the prefix for one, two, four or eight bytes. */
  function NumberBytes(w: Width, v: byte): seq<byte> {
    match w
    case Constant => [v]
    case Byte => [0x0A, v]
    case Word => [0x0B, v, 0]
    case DWord => [0x0C, v, 0, 0, 0]
    case QWord => [0x0E, v, 0, 0, 0, 0, 0, 0, 0]
  }

  /** The name operator, a root prefix or none, parent prefixes, the name and the package
      operator. */
  function NameBytes(root: bool, parents: nat): seq<byte> {
    [0x08] + (if root then [0x5C] else []) + seq(parents, _ => 0x5E) + [0x5F, 0x53, 0x35, 0x5F, 0x12]
  }

  /** A length of one byte, a count, and two elements. */
  function PackageBytes(wa: Width, a: byte, wb: Width, b: byte): seq<byte> {
    [2 + |NumberBytes(wa, a)| + |NumberBytes(wb, b)|, 2] + NumberBytes(wa, a) + NumberBytes(wb, b)
  }

  lemma {:induction false} ZeroDigits(n: nat)
    ensures Digits(0, n) == seq(n, _ => 0)
  {
    if n > 0 { ZeroDigits(n - 1); }
  }

  lemma NumberIs(w: Width, v: byte)
    requires w == Constant ==> v < 2
    ensures Holds(w, v) && EncodedInteger(w, v) == NumberBytes(w, v)
  {
    if w != Constant { SmallDigits(v, WidthSize(w)); }
    assert Power(1) == 256;
  }

  lemma SmallDigits(v: byte, n: nat)
    requires n > 0
    ensures Digits(v, n) == [v] + seq(n - 1, _ => 0) && v < Power(n)
  {
    ZeroDigits(n - 1);
  }

  lemma NamedByBytes(header: seq<byte>, root: bool, parents: nat, rest: seq<byte>)
    requires |header| == HEADER && |rest| >= 3
    ensures NamedAt(header + NameBytes(root, parents) + rest, HEADER, if root then HEADER + 2 else HEADER + 1, parents)
  {
    var aml, k := header + NameBytes(root, parents) + rest, if root then HEADER + 2 else HEADER + 1;
    forall i | k <= i < k + parents ensures aml[i] == PARENT_CHAR {
      assert aml[i] == NameBytes(root, parents)[i - HEADER];
    }
  }

  lemma PackageBytesAre(wa: Width, a: byte, wb: Width, b: byte)
    requires (wa == Constant ==> a < 2) && (wb == Constant ==> b < 2)
    ensures Holds(wa, a) && Holds(wb, b) && |PackageBytes(wa, a, wb, b)| < 64
    ensures PackageBytes(wa, a, wb, b) ==
            [|PackageBytes(wa, a, wb, b)|, 2] + EncodedInteger(wa, a) + EncodedInteger(wb, b)
  {
    NumberIs(wa, a);
    NumberIs(wb, b);
  }

  /** Two parts at the end of the table. */
  lemma PartsStand(aml: seq<byte>, package: nat, length: byte, x: seq<byte>, y: seq<byte>)
    requires package <= |aml| && aml[package..] == [length, 2] + x + y
    ensures At(aml, package, [length]) && package + 1 < |aml| && aml[package + 1] == 2
    ensures At(aml, package + 2, x) && At(aml, package + 2 + |x|, y) && package + 2 + |x| + |y| == |aml|
  {
    var rest := aml[package..];
    forall i | 0 <= i < |rest| ensures aml[package + i] == rest[i] {}
    assert rest == [length] + ([2] + (x + y)) && rest == [length, 2] + (x + y);
    AtParts(aml, package, [length, 2], x + y);
    AtParts(aml, package + 2, x, y);
    AtParts(aml, package, [length], [2] + (x + y));
    assert aml[package + 1] == rest[1];
  }

  lemma ShortPackage(aml: seq<byte>, package: nat, length: byte)
    requires package + 2 < |aml| == package + length && length < 64
    requires At(aml, package, [length]) && aml[package + 1] == 2
    ensures PackageAt(aml, package) == ElementsAt(aml, package + 2, |aml|)
  {
    assert PackedAt(aml, package, length, 0, 0);
    PackageMatches(aml, package, length, 0, 0);
  }

  lemma KnownMatches(header: seq<byte>, root: bool, parents: nat, wa: Width, a: byte, wb: Width, b: byte)
    requires |header| == HEADER && a <= 7 && b <= 7 && (wa == Constant ==> a < 2) && (wb == Constant ==> b < 2)
    ensures var aml := header + NameBytes(root, parents) + PackageBytes(wa, a, wb, b);
            HEADER + 7 < |aml| && MatchAt(aml, HEADER) == Sleep(a, b)
  {
    var rest := PackageBytes(wa, a, wb, b);
    var aml, k := header + NameBytes(root, parents) + rest, if root then HEADER + 2 else HEADER + 1;
    NamedByBytes(header, root, parents, rest);
    assert aml[k + parents + 5..] == rest;
    PackageRead(aml, k + parents + 5, wa, a, wb, b);
    NamedPackage(aml, HEADER, k, parents, Sleep(a, b));
  }

  lemma PackageRead(aml: seq<byte>, package: nat, wa: Width, a: byte, wb: Width, b: byte)
    requires package <= |aml| && aml[package..] == PackageBytes(wa, a, wb, b)
    requires a <= 7 && b <= 7 && (wa == Constant ==> a < 2) && (wb == Constant ==> b < 2)
    ensures PackageAt(aml, package) == Sleep(a, b)
  {
    PackageBytesAre(wa, a, wb, b);
    var x, y := EncodedInteger(wa, a), EncodedInteger(wb, b);
    PartsStand(aml, package, |aml| - package, x, y);
    ShortPackage(aml, package, |aml| - package);
    ElementsMatch(aml, package + 2, |aml|, wa, a, wb, b);
  }

  /** After any header the scan finds such a definition, whatever its prefixes and encodings. */
  method FindKnown(header: seq<byte>, root: bool, parents: nat, wa: Width, a: byte, wb: Width, b: byte)
    returns (r: Sleep, at: nat)
    requires |header| == 36 && a <= 7 && b <= 7 && (wa == Constant ==> a < 2) && (wb == Constant ==> b < 2)
    ensures r == Sleep(a, b) && at == 36
  {
    var aml := header + NameBytes(root, parents) + PackageBytes(wa, a, wb, b);
    KnownMatches(header, root, parents, wa, a, wb, b);
    r, at := FindFirst(aml);
  }
}
