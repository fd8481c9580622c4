/**
 Bytes, little-endian words and writing into a range.
 */
module Bytes {
  type byte = x: int | 0 <= x < 256

  function Code(s: string, i: nat): byte
    requires i < |s| && forall c | c in s :: c <= '~'
  {
    assert s[i] in s;
    s[i] as int
  }

  /** The codes of a text in ASCII. */
  function Codes(s: string): (r: seq<byte>)
    requires forall c | c in s :: c <= '~'
    ensures |r| == |s|
  {
    seq(|s|, i requires 0 <= i < |s| => Code(s, i))
  }

  function U16(b: seq<byte>, o: nat): nat
    requires o + 2 <= |b|
  {
    b[o] as int + 256 * (b[o + 1] as int)
  }

  function U32(b: seq<byte>, o: nat): nat
    requires o + 4 <= |b|
  {
    b[o] as int + 256 * (b[o + 1] as int) + 65536 * (b[o + 2] as int) + 16777216 * (b[o + 3] as int)
  }

  function Le16(v: nat): (r: seq<byte>)
    requires v < 65536
    ensures |r| == 2
  {
    [v % 256, v / 256]
  }

  function Le32(v: nat): (r: seq<byte>)
    requires v < 0x1_0000_0000
    ensures |r| == 4
  {
    [v % 256, v / 256 % 256, v / 65536 % 256, v / 16777216]
  }

  lemma U32Le32(v: nat)
    requires v < 0x1_0000_0000
    ensures U32(Le32(v), 0) == v
  {
    assert v == v % 256 + 256 * (v / 256);
    assert v / 256 == v / 256 % 256 + 256 * (v / 65536);
    assert v / 65536 == v / 65536 % 256 + 256 * (v / 16777216);
  }

  /** A word read from a slice is the word at the same place in the whole. */
  lemma U32InSlice(b: seq<byte>, lo: nat, hi: nat, o: nat)
    requires lo <= hi <= |b| && lo + o + 4 <= hi
    ensures U32(b[lo..hi], o) == U32(b, lo + o)
  {
  }

  lemma SliceOfSlice(b: seq<byte>, lo: nat, hi: nat, i: nat, j: nat)
    requires lo <= hi <= |b| && i <= j <= hi - lo
    ensures b[lo..hi][i..j] == b[lo + i..lo + j]
  {
    var part := b[lo..hi];
    forall k | 0 <= k < j - i ensures part[i..j][k] == b[lo + i..lo + j][k] {
      assert part[i..j][k] == part[i + k];
    }
  }

  /** b with the bytes from `at` on replaced by `chunk`. */
  function Splice(b: seq<byte>, at: nat, chunk: seq<byte>): (r: seq<byte>)
    requires at + |chunk| <= |b|
    ensures |r| == |b|
    ensures forall i | 0 <= i < |b| :: r[i] == if at <= i < at + |chunk| then chunk[i - at] else b[i]
  {
    b[..at] + chunk + b[at + |chunk|..]
  }

  lemma SpliceInside(b: seq<byte>, at: nat, chunk: seq<byte>)
    requires at + |chunk| <= |b|
    ensures Splice(b, at, chunk)[at..at + |chunk|] == chunk
  {
  }

  /** b[start:start + |chunk|] = chunk on a Python bytearray: bounds beyond the end are cut to
      it, so that the array grows by what does not fit. */
  function SliceAssign(b: seq<byte>, start: nat, chunk: seq<byte>): (r: seq<byte>)
    ensures |r| >= |b| && (|r| == |b| <==> start + |chunk| <= |b| || chunk == [])
    ensures start + |chunk| <= |b| ==> r == Splice(b, start, chunk)
    ensures |r| <= |b| || |r| <= start + |chunk|
    ensures start <= |b| ==> r[..start] == b[..start] && |r| >= start + |chunk| && r[start..start + |chunk|] == chunk
    ensures start > |b| ==> r[..|b|] == b
  {
    var from := if start < |b| then start else |b|;
    var to := if start + |chunk| < |b| then start + |chunk| else |b|;
    b[..from] + chunk + b[to..]
  }

  /** Two slice assignments next to each other are one, also beyond the end. */
  lemma SliceAssignTwice(b: seq<byte>, start: nat, first: seq<byte>, second: seq<byte>)
    ensures SliceAssign(SliceAssign(b, start, first), start + |first|, second) == SliceAssign(b, start, first + second)
  {
    if start <= |b| {
      var once := SliceAssign(b, start, first);
      assert once[..start + |first|] == b[..start] + first;
    }
  }

  /** Where the bytes end up, and what stays. */
  lemma SliceAssigned(b: seq<byte>, start: nat, chunk: seq<byte>)
    ensures var r, at := SliceAssign(b, start, chunk), if start < |b| then start else |b|;
            && |r| == (if at + |chunk| < |b| then |b| else at + |chunk|)
            && r[at..at + |chunk|] == chunk && r[..at] == b[..at]
  {
  }

  /** A slice assignment that keeps the length. */
  method WriteAt(a: array<byte>, at: nat, chunk: seq<byte>)
    requires at + |chunk| <= a.Length
    modifies a
    ensures a[..] == Splice(old(a[..]), at, chunk)
  {
    var i := 0;
    while i < |chunk|
      invariant i <= |chunk| && a[..] == Splice(old(a[..]), at, chunk[..i])
    {
      a[at + i] := chunk[i];
      i := i + 1;
    }
    assert chunk[..i] == chunk;
  }
}
