/**
 Scanline reconstruction in tools/png_to_osimg.py against the filters of section 6 of RFC 2083:
 the in-place loop undoes filtering, for every choice of filter on every row.
 */
module Png {
  import opened Bytes

  // ----- Prediction -----

  function Abs(x: int): nat { if x < 0 then -x else x }

  /** The converter: the first of the three values at the smallest distance. */
  function Paeth(left: int, above: int, upperLeft: int): int {
    var estimate := left + above - upperLeft;
    var d := [Abs(estimate - left), Abs(estimate - above), Abs(estimate - upperLeft)];
    var least := if d[0] <= d[1] then (if d[0] <= d[2] then d[0] else d[2]) else (if d[1] <= d[2] then d[1] else d[2]);
    if d[0] == least then left else if d[1] == least then above else upperLeft
  }

  /** PaethPredictor of section 6.6 of RFC 2083, with its order of breaking ties. */
  function PaethPredictor(a: int, b: int, c: int): int {
    var p := a + b - c;
    var pa, pb, pc := Abs(p - a), Abs(p - b), Abs(p - c);
    if pa <= pb && pa <= pc then a else if pb <= pc then b else c
  }

  lemma PaethAgrees(a: int, b: int, c: int)
    ensures Paeth(a, b, c) == PaethPredictor(a, b, c)
  {
  }

  /** The value subtracted by filter type f of section 6 of RFC 2083: none, Sub, Up, Average,
      Paeth. */
  function Prediction(f: int, left: int, above: int, upperLeft: int): int {
    if f == 0 then 0
    else if f == 1 then left
    else if f == 2 then above
    else if f == 3 then (left + above) / 2
    else PaethPredictor(left, above, upperLeft)
  }

  // ----- An image and its filtered form -----

  /** `row` bytes in a scanline, `bpp` bytes in a pixel. */
  datatype Layout = Layout(row: nat, bpp: nat, height: nat)

  function Start(g: Layout, y: nat): nat { y * g.row }

  lemma StartNext(g: Layout, y: nat)
    ensures Start(g, y + 1) == Start(g, y) + g.row
  {
  }

  lemma {:induction false} StartsAscend(g: Layout, y: nat, z: nat)
    requires y <= z
    ensures Start(g, y) <= Start(g, z)
  {
    if y < z {
      StartsAscend(g, y, z - 1);
      StartNext(g, z - 1);
    }
  }

  /** A byte of the image, 0 outside it. */
  function Sample(s: seq<byte>, i: int): int { if 0 <= i < |s| then s[i] else 0 }

  /** The prediction for byte x of row y under filter f. */
  function Predicted(g: Layout, s: seq<byte>, f: int, y: nat, x: nat): int {
    var p := Start(g, y) + x;
    Prediction(f,
               if x >= g.bpp then Sample(s, p - g.bpp) else 0,
               if y > 0 then Sample(s, p - g.row) else 0,
               if y > 0 && x >= g.bpp then Sample(s, p - g.row - g.bpp) else 0)
  }

  /** Byte x of row y after filtering. */
  function FilteredByte(g: Layout, s: seq<byte>, f: int, y: nat, x: nat): byte {
    (Sample(s, Start(g, y) + x) - Predicted(g, s, f, y, x)) % 256
  }

  function FilteredRow(g: Layout, s: seq<byte>, f: byte, y: nat): (r: seq<byte>)
    ensures |r| == g.row + 1
  {
    [f] + seq(g.row, x requires 0 <= x => FilteredByte(g, s, f, y, x))
  }

  /** The first n rows, each filtered as its entry in `filters` says. */
  function Filtered(g: Layout, s: seq<byte>, filters: seq<byte>, n: nat): (r: seq<byte>)
    requires n <= |filters|
  {
    if n == 0 then [] else Filtered(g, s, filters, n - 1) + FilteredRow(g, s, filters[n - 1], n - 1)
  }

  /** Row y of the filtered form starts at this byte, with its filter type. */
  function RawStart(g: Layout, y: nat): nat { Start(g, y) + y }

  // ----- What the reconstruction must satisfy -----

  /** Filtering the byte again gives the byte it came from. */
  predicate ByteOk(g: Layout, raw: seq<byte>, s: seq<byte>, y: nat, x: nat) {
    var o := RawStart(g, y);
    o + 1 + x < |raw| && raw[o + 1 + x] == FilteredByte(g, s, raw[o], y, x)
  }

  predicate RowOk(g: Layout, raw: seq<byte>, s: seq<byte>, y: nat, n: nat) {
    forall x | 0 <= x < n :: ByteOk(g, raw, s, y, x)
  }

  predicate RowsOk(g: Layout, raw: seq<byte>, s: seq<byte>, n: nat) {
    forall y | 0 <= y < n :: RowOk(g, raw, s, y, g.row)
  }

  /** All filter types up to row n are known. */
  predicate FiltersOk(g: Layout, raw: seq<byte>, n: nat) {
    forall y | 0 <= y < n :: FilterOk(g, raw, y)
  }

  predicate FilterOk(g: Layout, raw: seq<byte>, y: nat) {
    RawStart(g, y) < |raw| && raw[RawStart(g, y)] <= 4
  }

  /** Only bytes at or before p matter to the byte at p. */
  lemma ByteKept(g: Layout, raw: seq<byte>, s: seq<byte>, t: seq<byte>, y: nat, x: nat)
    requires ByteOk(g, raw, s, y, x) && Agree(s, t, Start(g, y) + x + 1)
    ensures ByteOk(g, raw, t, y, x)
  {
    SampleSame(s, t, Start(g, y) + x + 1);
  }

  predicate Agree(s: seq<byte>, t: seq<byte>, n: nat) {
    n <= |s| == |t| && forall i | 0 <= i < n :: s[i] == t[i]
  }

  lemma SampleSame(s: seq<byte>, t: seq<byte>, n: nat)
    requires Agree(s, t, n)
    ensures forall i | i < n :: Sample(s, i) == Sample(t, i)
  {
  }

  /** Writing behind the first n rows and x bytes of the next leaves them in order. */
  lemma RowsKept(g: Layout, raw: seq<byte>, s: seq<byte>, t: seq<byte>, n: nat)
    requires RowsOk(g, raw, s, n) && Agree(s, t, Start(g, n))
    ensures RowsOk(g, raw, t, n)
  {
    forall y | 0 <= y < n ensures RowOk(g, raw, t, y, g.row) {
      assert RowOk(g, raw, s, y, g.row);
      StartNext(g, y);
      StartsAscend(g, y + 1, n);
      forall x | 0 <= x < g.row ensures ByteOk(g, raw, t, y, x) {
        assert ByteOk(g, raw, s, y, x);
        ByteKept(g, raw, s, t, y, x);
      }
    }
  }

  lemma RowKept(g: Layout, raw: seq<byte>, s: seq<byte>, t: seq<byte>, y: nat, n: nat)
    requires RowOk(g, raw, s, y, n) && Agree(s, t, Start(g, y) + n)
    ensures RowOk(g, raw, t, y, n)
  {
    forall x | 0 <= x < n ensures ByteOk(g, raw, t, y, x) {
      assert ByteOk(g, raw, s, y, x);
      ByteKept(g, raw, s, t, y, x);
    }
  }

  /** The value the loop stores is the one whose filtered form is in the file. */
  lemma StoredIsRight(g: Layout, raw: seq<byte>, s: seq<byte>, t: seq<byte>, y: nat, x: nat)
    requires g.bpp > 0 && g.row > 0 && Start(g, y) + x < |s| && RawStart(g, y) + 1 + x < |raw|
    requires |t| == |s| && Agree(s, t, Start(g, y) + x)
    requires t[Start(g, y) + x] as int ==
             (raw[RawStart(g, y) + 1 + x] as int + Predicted(g, s, raw[RawStart(g, y)], y, x)) % 256
    ensures ByteOk(g, raw, t, y, x)
  {
    var f, p := raw[RawStart(g, y)], Start(g, y) + x;
    SampleSame(s, t, p);
    assert Predicted(g, t, f, y, x) == Predicted(g, s, f, y, x);
  }

  method PredictorFor(g: Layout, a: array<byte>, f: byte, y: nat, x: nat) returns (predictor: int)
    requires g.bpp > 0 && x < g.row && Start(g, y) + x < a.Length
    ensures predictor == Predicted(g, a[..], f, y, x)
  {
    var row := Start(g, y);
    var left := if x >= g.bpp then a[row + x - g.bpp] else 0;
    var above := 0;
    var upperLeft := 0;
    if y > 0 {
      StartNext(g, y - 1);
      above := a[row + x - g.row];
      upperLeft := if x >= g.bpp then a[row + x - g.row - g.bpp] else 0;
    }
    PaethAgrees(left, above, upperLeft);
    predictor := if f == 0 then 0 else if f == 1 then left else if f == 2 then above
                 else if f == 3 then (left + above) / 2 else Paeth(left, above, upperLeft);
  }

  /** The inner loop, over one row. */
  method ReconstructRow(g: Layout, raw: seq<byte>, a: array<byte>, y: nat)
    requires g.bpp > 0 && y < g.height && a.Length == Start(g, g.height) && |raw| == RawStart(g, g.height)
    requires FilterOk(g, raw, y) && RowsOk(g, raw, a[..], y)
    modifies a
    ensures RowsOk(g, raw, a[..], y + 1)
  {
    StartNext(g, y);
    StartsAscend(g, y + 1, g.height);
    var row, f := Start(g, y), raw[RawStart(g, y)];
    var x := 0;
    while x < g.row
      invariant x <= g.row && Agree(old(a[..]), a[..], row) && RowOk(g, raw, a[..], y, x)
    {
      var predictor := PredictorFor(g, a, f, y, x);
      ghost var before := a[..];
      var value: byte := (raw[RawStart(g, y) + 1 + x] as int + predictor) % 256;
      a[row + x] := value;
      assert a[..] == before[row + x := value];
      StoredIsRight(g, raw, before, a[..], y, x);
      RowKept(g, raw, before, a[..], y, x);
      x := x + 1;
    }
    RowsKept(g, raw, old(a[..]), a[..], y);
    RowsAppend(g, raw, a[..], y);
  }

  lemma RowsAppend(g: Layout, raw: seq<byte>, s: seq<byte>, y: nat)
    requires RowsOk(g, raw, s, y) && RowOk(g, raw, s, y, g.row)
    ensures RowsOk(g, raw, s, y + 1)
  {
  }

  // ----- What each filter type makes of a byte -----

  /** The value nearest to left + above - upperLeft, and of equally near ones the first of the
      three: its distances are those between the other two, and their sum. */
  predicate Nearest(left: int, above: int, upperLeft: int, v: int) {
    var a, b, c := Abs(above - upperLeft), Abs(left - upperLeft), Abs(left + above - 2 * upperLeft);
    v == if a <= b && a <= c then left else if b <= c then above else upperLeft
  }

  /** The byte `value` of the file under filter type f becomes `byte`, next to these three. */
  ghost predicate Becomes(f: int, value: int, left: int, above: int, upperLeft: int, byte: int) {
    && 0 <= byte < 256
    && match f
       case 0 => byte == value
       case 1 => byte == value + left || byte == value + left - 256
       case 2 => byte == value + above || byte == value + above - 256
       case 3 => var mean := (left + above) / 2; byte == value + mean || byte == value + mean - 256
       case _ => exists v :: Nearest(left, above, upperLeft, v) && (byte == value + v || byte == value + v - 256)
  }

  /** Byte x of row y is what its filter type makes of the byte in the file, the byte one pixel to
      the left, the one above, and the one to the left of that; 0 stands for those outside. */
  ghost predicate Recovered(g: Layout, raw: seq<byte>, s: seq<byte>, y: nat, x: nat) {
    var p, o := y * g.row + x, y * g.row + y;
    && p < |s| && o + 1 + x < |raw|
    && Becomes(raw[o], raw[o + 1 + x],
               if x < g.bpp then 0 else Sample(s, p - g.bpp),
               if y == 0 then 0 else Sample(s, p - g.row),
               if x < g.bpp || y == 0 then 0 else Sample(s, p - g.row - g.bpp),
               s[p])
  }

  lemma Undone(value: byte, e: int, b: byte)
    requires 0 <= e < 256 && value == (b as int - e) % 256
    ensures b as int == value as int + e || b as int == value as int + e - 256
  {
  }

  lemma PaethIsNearest(left: int, above: int, upperLeft: int)
    ensures Nearest(left, above, upperLeft, PaethPredictor(left, above, upperLeft))
  {
  }

  lemma PredictionRange(f: int, left: byte, above: byte, upperLeft: byte)
    ensures 0 <= Prediction(f, left, above, upperLeft) < 256
  {
  }

  lemma UndoneBecomes(f: byte, value: byte, left: byte, above: byte, upperLeft: byte, b: byte)
    requires f <= 4 && value == (b - Prediction(f, left, above, upperLeft)) % 256
    ensures Becomes(f, value, left, above, upperLeft, b)
  {
    PredictionRange(f, left, above, upperLeft);
    Undone(value, Prediction(f, left, above, upperLeft), b);
    PaethIsNearest(left, above, upperLeft);
  }

  lemma ByteRecovered(g: Layout, raw: seq<byte>, s: seq<byte>, y: nat, x: nat)
    requires ByteOk(g, raw, s, y, x) && Start(g, y) + x < |s| && raw[RawStart(g, y)] <= 4
    ensures Recovered(g, raw, s, y, x)
  {
    var p, f := Start(g, y) + x, raw[RawStart(g, y)];
    var left := if x >= g.bpp then Sample(s, p - g.bpp) else 0;
    var above := if y > 0 then Sample(s, p - g.row) else 0;
    var upperLeft := if y > 0 && x >= g.bpp then Sample(s, p - g.row - g.bpp) else 0;
    UndoneBecomes(f, raw[RawStart(g, y) + 1 + x], left, above, upperLeft, s[p]);
  }

  lemma AllRecovered(g: Layout, raw: seq<byte>, s: seq<byte>)
    requires RowsOk(g, raw, s, g.height) && FiltersOk(g, raw, g.height) && |s| == Start(g, g.height)
    ensures forall y, x | 0 <= y < g.height && 0 <= x < g.row :: Recovered(g, raw, s, y, x)
  {
    forall y, x | 0 <= y < g.height && 0 <= x < g.row ensures Recovered(g, raw, s, y, x) {
      assert RowOk(g, raw, s, y, g.row) && FilterOk(g, raw, y);
      assert ByteOk(g, raw, s, y, x);
      StartNext(g, y);
      StartsAscend(g, y + 1, g.height);
      ByteRecovered(g, raw, s, y, x);
    }
  }

  /** The whole loop: it fails exactly on an unknown filter type, and otherwise leaves the
      scanlines that filter to what was read. */
  method Reconstruct(g: Layout, raw: seq<byte>, a: array<byte>) returns (ok: bool)
    requires g.bpp > 0 && a.Length == Start(g, g.height) && |raw| == RawStart(g, g.height)
    modifies a
    ensures ok <==> FiltersOk(g, raw, g.height)
    ensures ok ==> RowsOk(g, raw, a[..], g.height)
    ensures ok ==> forall y, x | 0 <= y < g.height && 0 <= x < g.row :: Recovered(g, raw, a[..], y, x)
  {
    var y := 0;
    while y < g.height
      invariant y <= g.height && FiltersOk(g, raw, y) && RowsOk(g, raw, a[..], y)
    {
      StartsAscend(g, y, g.height);
      if raw[RawStart(g, y)] > 4 {
        assert !FilterOk(g, raw, y);
        return false;
      }
      ReconstructRow(g, raw, a, y);
      y := y + 1;
    }
    AllRecovered(g, raw, a[..]);
    return true;
  }

  // ----- Only one image filters to a given form -----

  lemma SameByte(g: Layout, raw: seq<byte>, s: seq<byte>, t: seq<byte>, y: nat, x: nat)
    requires g.bpp > 0 && g.row > 0 && Start(g, y) + x < |s| && Agree(s, t, Start(g, y) + x)
    requires ByteOk(g, raw, s, y, x) && ByteOk(g, raw, t, y, x)
    ensures s[Start(g, y) + x] == t[Start(g, y) + x]
  {
    var f, p := raw[RawStart(g, y)], Start(g, y) + x;
    SampleSame(s, t, p);
    var e := Predicted(g, s, f, y, x);
    assert Predicted(g, t, f, y, x) == e;
    SameModulo(s[p], t[p], e);
  }

  lemma SameModulo(a: byte, b: byte, e: int)
    requires (a as int - e) % 256 == (b as int - e) % 256
    ensures a == b
  {
  }

  lemma {:induction false} SameRow(g: Layout, raw: seq<byte>, s: seq<byte>, t: seq<byte>, y: nat, n: nat)
    requires g.bpp > 0 && n <= g.row && Start(g, y) + g.row <= |s| && Agree(s, t, Start(g, y))
    requires RowOk(g, raw, s, y, g.row) && RowOk(g, raw, t, y, g.row)
    ensures Agree(s, t, Start(g, y) + n)
  {
    if n > 0 {
      SameRow(g, raw, s, t, y, n - 1);
      assert ByteOk(g, raw, s, y, n - 1) && ByteOk(g, raw, t, y, n - 1);
      SameByte(g, raw, s, t, y, n - 1);
    }
  }

  lemma {:induction false} SameRows(g: Layout, raw: seq<byte>, s: seq<byte>, t: seq<byte>, n: nat)
    requires g.bpp > 0 && n <= g.height && |s| == |t| == Start(g, g.height)
    requires RowsOk(g, raw, s, g.height) && RowsOk(g, raw, t, g.height)
    ensures Agree(s, t, Start(g, n))
  {
    if n > 0 {
      SameRows(g, raw, s, t, n - 1);
      StartNext(g, n - 1);
      StartsAscend(g, n, g.height);
      assert RowOk(g, raw, s, n - 1, g.row) && RowOk(g, raw, t, n - 1, g.row);
      SameRow(g, raw, s, t, n - 1, g.row);
    }
  }

  // ----- Filtering gives such a form -----

  lemma {:induction false} FilteredLength(g: Layout, s: seq<byte>, filters: seq<byte>, n: nat)
    requires n <= |filters|
    ensures |Filtered(g, s, filters, n)| == RawStart(g, n)
  {
    if n > 0 {
      FilteredLength(g, s, filters, n - 1);
      StartNext(g, n - 1);
    }
  }

  /** Row y stands where it belongs. */
  lemma {:induction false} FilteredRowAt(g: Layout, s: seq<byte>, filters: seq<byte>, n: nat, y: nat)
    requires y < n <= |filters|
    ensures RawStart(g, y) + g.row + 1 <= |Filtered(g, s, filters, n)|
    ensures Filtered(g, s, filters, n)[RawStart(g, y)..RawStart(g, y) + g.row + 1] == FilteredRow(g, s, filters[y], y)
  {
    var front := Filtered(g, s, filters, n - 1);
    FilteredLength(g, s, filters, n - 1);
    if y < n - 1 {
      FilteredRowAt(g, s, filters, n - 1, y);
      var lo := RawStart(g, y);
      assert Filtered(g, s, filters, n)[lo..lo + g.row + 1] == front[lo..lo + g.row + 1];
    }
  }

  lemma FilteredRowOk(g: Layout, s: seq<byte>, raw: seq<byte>, f: byte, y: nat)
    requires RawStart(g, y) + g.row + 1 <= |raw|
    requires raw[RawStart(g, y)..RawStart(g, y) + g.row + 1] == FilteredRow(g, s, f, y)
    ensures raw[RawStart(g, y)] == f && RowOk(g, raw, s, y, g.row)
  {
    var o, row := RawStart(g, y), FilteredRow(g, s, f, y);
    assert row[0] == raw[o];
    forall x | 0 <= x < g.row ensures ByteOk(g, raw, s, y, x) {
      assert row[1 + x] == raw[o + 1 + x];
    }
  }

  lemma FilteredIsOk(g: Layout, s: seq<byte>, filters: seq<byte>)
    requires |filters| == g.height && forall y | 0 <= y < g.height :: filters[y] <= 4
    ensures var raw := Filtered(g, s, filters, g.height);
            |raw| == RawStart(g, g.height) && FiltersOk(g, raw, g.height) && RowsOk(g, raw, s, g.height)
  {
    var raw := Filtered(g, s, filters, g.height);
    FilteredLength(g, s, filters, g.height);
    forall y | 0 <= y < g.height ensures FilterOk(g, raw, y) && RowOk(g, raw, s, y, g.row) {
      FilteredRowAt(g, s, filters, g.height, y);
      FilteredRowOk(g, s, raw, filters[y], y);
    }
  }

  /** Reconstruction inverts filtering: for every image and any of the five filters on each
      row, the loop recovers the image. */
  method RoundTrip(g: Layout, s: seq<byte>, filters: seq<byte>) returns (ok: bool, image: seq<byte>)
    requires g.bpp > 0 && |s| == Start(g, g.height)
    requires |filters| == g.height && forall y | 0 <= y < g.height :: filters[y] <= 4
    ensures ok && image == s
  {
    var raw := Filtered(g, s, filters, g.height);
    FilteredIsOk(g, s, filters);
    var scanlines := new byte[|s|](_ => 0);
    ok := Reconstruct(g, raw, scanlines);
    image := scanlines[..];
    SameRows(g, raw, image, s, g.height);
  }
}
