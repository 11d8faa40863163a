/** The pixel-by-pixel comparison of two captures. */
module ImageDiff {
  import opened Text
  import CaptureCache
  import ImageHashes
  import ImageSimilarity

  type RgbaImage = CaptureCache.RgbaImage

  // ----- Luma -----

  function Luma(rgba: seq<byte>, pixel: nat): (l: real)
    requires 4 * pixel + 4 <= |rgba|
    ensures l >= 0.0
  {
    0.2126 * rgba[4 * pixel] as real + 0.7152 * rgba[4 * pixel + 1] as real + 0.0722 * rgba[4 * pixel + 2] as real
  }

  /** The brightness of `count` pixels. */
  function LumaPlane(rgba: seq<byte>, count: nat): (plane: seq<real>)
    requires |rgba| == 4 * count
    ensures |plane| == count && ImageSimilarity.NotDark(plane)
  {
    seq(count, pixel requires 0 <= pixel < count => Luma(rgba, pixel))
  }

  // ----- One pixel -----

  function Delta(before: seq<byte>, after: seq<byte>, i: nat): (d: byte)
    requires i < |before| == |after|
    ensures d == 0 <==> before[i] == after[i]
  {
    if before[i] > after[i] then before[i] - after[i] else after[i] - before[i]
  }

  function DeltaOf(before: seq<byte>, after: seq<byte>, pixel: nat, channel: nat): byte
    requires |before| == |after| && 4 * pixel + 4 <= |before| && channel < 4
  {
    Delta(before, after, 4 * pixel + channel)
  }

  predicate Changed(before: seq<byte>, after: seq<byte>, threshold: byte, pixel: nat)
    requires |before| == |after| && 4 * pixel + 4 <= |before|
  {
    exists channel: nat :: channel < 4 && DeltaOf(before, after, pixel, channel) > threshold
  }

  /** The pixels below `count` that count as changed: some channel's difference is past the threshold. */
  function ChangedPixels(before: seq<byte>, after: seq<byte>, threshold: byte, count: nat): (pixels: set<nat>)
    requires |before| == |after| && 4 * count <= |before|
    ensures forall p: nat :: p in pixels <==> p < count && Changed(before, after, threshold, p)
  {
    set p: nat | p < count && Changed(before, after, threshold, p)
  }

  function ChannelSum(before: seq<byte>, after: seq<byte>, channel: nat, count: nat): nat
    requires channel < 4 && |before| == |after| && 4 * count <= |before|
  {
    if count == 0 then 0
    else ChannelSum(before, after, channel, count - 1) + DeltaOf(before, after, count - 1, channel)
  }

  /** What the difference image shows of one byte. */
  function Shown(before: seq<byte>, after: seq<byte>, threshold: byte, i: nat): byte
    requires |before| == |after| && |before| % 4 == 0 && i < |before|
  {
    if !Changed(before, after, threshold, i / 4) then 0
    else if i % 4 == 3 then 255 else Delta(before, after, i)
  }

  // ----- The rectangle -----

  datatype Rect = Rect(minX: int, minY: int, maxX: int, maxY: int)

  function Column(p: nat, width: nat): nat
    requires width > 0
  {
    p % width
  }

  function Row(p: nat, width: nat): nat
    requires width > 0
  {
    p / width
  }

  predicate Inside(r: Rect, width: nat, p: nat)
    requires width > 0
  {
    r.minX <= Column(p, width) <= r.maxX && r.minY <= Row(p, width) <= r.maxY
  }

  /** The smallest rectangle around some pixels: it holds them all and each side touches one. */
  ghost predicate Smallest(r: Rect, width: nat, pixels: set<nat>)
    requires width > 0
  {
    && (forall p <- pixels :: Inside(r, width, p))
    && (exists p :: p in pixels && Column(p, width) == r.minX) && (exists p :: p in pixels && Column(p, width) == r.maxX)
    && (exists p :: p in pixels && Row(p, width) == r.minY) && (exists p :: p in pixels && Row(p, width) == r.maxY)
  }

  /** No rectangle that holds the same pixels is smaller, and there is only one like it. */
  lemma SmallestIsLeast(r: Rect, width: nat, pixels: set<nat>, other: Rect)
    requires width > 0 && Smallest(r, width, pixels) && forall p <- pixels :: Inside(other, width, p)
    ensures other.minX <= r.minX && r.maxX <= other.maxX && other.minY <= r.minY && r.maxY <= other.maxY
    ensures Smallest(other, width, pixels) ==> other == r
  {
  }

  // ----- The whole comparison -----

  datatype DiffError = SizesDiffer | BadDimensions | BadStorage

  /** `minX` and `minY` with the width and the height. */
  datatype Bounds = Bounds(x: int, y: int, width: int, height: int)

  datatype Diff = Diff(
    changedPixels: nat,
    totalPixels: nat,
    sums: seq<nat>,
    maxChannelDelta: byte,
    bounds: Option<Bounds>,
    diffRgba: seq<byte>,
    ssim: real,
    hashBefore: nat,
    hashAfter: nat,
    distance: nat)

  datatype DiffResult = Fine(diff: Diff) | Refused(error: DiffError)

  /** The counts, the sums and the largest difference. */
  ghost predicate ReportsNumbers(d: Diff, before: seq<byte>, after: seq<byte>, threshold: byte, count: nat)
    requires |before| == |after| == 4 * count
  {
    && d.totalPixels == count && d.changedPixels == |ChangedPixels(before, after, threshold, count)|
    && |d.sums| == 4
    && (forall channel: nat :: channel < 4 ==> d.sums[channel] == ChannelSum(before, after, channel, count))
    && (forall i :: 0 <= i < |before| ==> Delta(before, after, i) <= d.maxChannelDelta)
    && (exists i :: 0 <= i < |before| && Delta(before, after, i) == d.maxChannelDelta)
  }

  /** The bounding box and the difference image. */
  ghost predicate ReportsPicture(d: Diff, before: seq<byte>, after: seq<byte>, width: nat, height: nat, threshold: byte,
                                 count: nat)
    requires width > 0 && |before| == |after| == 4 * count
  {
    && BoundsFit(d.bounds, width, height, ChangedPixels(before, after, threshold, count))
    && |d.diffRgba| == |before|
    && (forall i :: 0 <= i < |before| ==> d.diffRgba[i] == Shown(before, after, threshold, i))
  }

  /** No box around no pixels, else the smallest one, and it lies in the image. */
  ghost predicate BoundsFit(bounds: Option<Bounds>, width: nat, height: nat, changed: set<nat>)
    requires width > 0
  {
    && (bounds.None? <==> changed == {})
    && (bounds.Some? ==>
          var b := bounds.value;
          && Smallest(RectOf(b), width, changed)
          && 0 <= b.x && 0 <= b.y && b.width > 0 && b.height > 0 && b.x + b.width <= width && b.y + b.height <= height)
  }

  /** The similarity, the two hashes and their distance. How a plane is hashed is left open. */
  ghost predicate ReportsLikeness(d: Diff, before: seq<byte>, after: seq<byte>, width: nat, height: nat, count: nat,
                                  hash: (seq<real>, nat, nat) -> nat)
    requires |before| == |after| == 4 * count
  {
    && d.ssim == ImageSimilarity.Similarity(LumaPlane(before, count), LumaPlane(after, count), width, height)
    && d.hashBefore == hash(LumaPlane(before, count), width, height)
    && d.hashAfter == hash(LumaPlane(after, count), width, height)
    && d.distance == ImageHashes.Popcount(ImageHashes.Xor(d.hashBefore, d.hashAfter))
  }

  /** What a comparison of two images reports. */
  ghost predicate Reports(d: Diff, before: seq<byte>, after: seq<byte>, width: nat, height: nat, threshold: byte,
                          hash: (seq<real>, nat, nat) -> nat)
    requires width > 0 && height > 0 && |before| == |after| == 4 * (width * height)
  {
    && ReportsNumbers(d, before, after, threshold, width * height)
    && ReportsPicture(d, before, after, width, height, threshold, width * height)
    && ReportsLikeness(d, before, after, width, height, width * height, hash)
  }

  function RectOf(b: Bounds): Rect {
    Rect(b.x, b.y, b.x + b.width - 1, b.y + b.height - 1)
  }

  // ----- The loop -----

  /** The rectangle so far: empty until the first changed pixel. */
  ghost predicate Covers(r: Rect, width: nat, height: nat, pixels: set<nat>)
    requires width > 0
  {
    if pixels == {} then r == Rect(width, height, -1, -1) else Smallest(r, width, pixels)
  }

  function Widened(r: Rect, x: int, y: int): Rect {
    Rect(if x < r.minX then x else r.minX, if y < r.minY then y else r.minY,
         if x > r.maxX then x else r.maxX, if y > r.maxY then y else r.maxY)
  }

  lemma WidensByOne(r: Rect, width: nat, height: nat, pixels: set<nat>, p: nat)
    requires width > 0 && Covers(r, width, height, pixels) && Row(p, width) < height
    ensures Smallest(Widened(r, Column(p, width), Row(p, width)), width, pixels + {p})
  {
    assert Column(p, width) < width;
    hide Row, Column;
    var w := Widened(r, Column(p, width), Row(p, width));
    if pixels != {} {
      var a :| a in pixels && Column(a, width) == r.minX;
      var b :| b in pixels && Column(b, width) == r.maxX;
      var c :| c in pixels && Row(c, width) == r.minY;
      var d :| d in pixels && Row(d, width) == r.maxY;
      assert a in pixels + {p} && b in pixels + {p} && c in pixels + {p} && d in pixels + {p};
    }
    assert p in pixels + {p};
  }

  lemma RowOfPixel(p: nat, width: nat, height: nat)
    requires width > 0 && p < width * height
    ensures Row(p, width) < height && 0 <= Column(p, width) < width
  {
    TimesLess(p / width, width, height);
  }

  lemma TimesLess(a: nat, width: nat, height: nat)
    requires width > 0
    ensures a >= height ==> a * width >= width * height
  {
  }

  lemma OneMorePixel(before: seq<byte>, after: seq<byte>, threshold: byte, p: nat)
    requires |before| == |after| && 4 * (p + 1) <= |before|
    ensures ChangedPixels(before, after, threshold, p + 1)
         == ChangedPixels(before, after, threshold, p) + (if Changed(before, after, threshold, p) then {p} else {})
    ensures p !in ChangedPixels(before, after, threshold, p)
  {
  }

  /** One pixel: its four differences and whether any is over the threshold. */
  method ComparePixel(before: seq<byte>, after: seq<byte>, threshold: byte, p: nat)
    returns (deltas: seq<byte>, changed: bool)
    requires |before| == |after| && 4 * p + 4 <= |before|
    ensures |deltas| == 4 && forall channel: nat :: channel < 4 ==> deltas[channel] == DeltaOf(before, after, p, channel)
    ensures changed <==> Changed(before, after, threshold, p)
  {
    deltas := [];
    changed := false;
    for channel := 0 to 4
      invariant |deltas| == channel && forall c: nat :: c < channel ==> deltas[c] == DeltaOf(before, after, p, c)
      invariant changed <==> exists c: nat :: c < channel && DeltaOf(before, after, p, c) > threshold
    {
      var left, right := before[4 * p + channel], after[4 * p + channel];
      var delta: byte := if left > right then left - right else right - left;
      assert delta == DeltaOf(before, after, p, channel);
      deltas := deltas + [delta];
      changed := changed || delta > threshold;
    }
  }

  function Max(a: byte, b: byte): byte {
    if a < b then b else a
  }

  /** What the loop has gathered over the first `p` pixels. */
  ghost predicate Gathered(before: seq<byte>, after: seq<byte>, threshold: byte, p: nat, count: nat, sums: seq<nat>,
                           maximum: byte)
    requires |before| == |after| && 4 * p <= |before|
  {
    && count == |ChangedPixels(before, after, threshold, p)|
    && |sums| == 4 && (forall channel: nat :: channel < 4 ==> sums[channel] == ChannelSum(before, after, channel, p))
    && (forall i :: 0 <= i < 4 * p ==> Delta(before, after, i) <= maximum)
    && (maximum == 0 || exists i :: 0 <= i < 4 * p && Delta(before, after, i) == maximum)
  }

  lemma GathersOne(before: seq<byte>, after: seq<byte>, threshold: byte, p: nat, count: nat, sums: seq<nat>,
                   maximum: byte, deltas: seq<byte>)
    requires |before| == |after| && 4 * p + 4 <= |before| && Gathered(before, after, threshold, p, count, sums, maximum)
    requires |deltas| == 4 && forall channel: nat :: channel < 4 ==> deltas[channel] == DeltaOf(before, after, p, channel)
    ensures Gathered(before, after, threshold, p + 1,
                     count + (if Changed(before, after, threshold, p) then 1 else 0),
                     [sums[0] + deltas[0], sums[1] + deltas[1], sums[2] + deltas[2], sums[3] + deltas[3]],
                     Max(Max(Max(Max(maximum, deltas[0]), deltas[1]), deltas[2]), deltas[3]))
  {
    hide Changed, Delta;
    OneMorePixel(before, after, threshold, p);
    var more := Max(Max(Max(Max(maximum, deltas[0]), deltas[1]), deltas[2]), deltas[3]);
    forall i | 0 <= i < 4 * (p + 1) ensures Delta(before, after, i) <= more {
      if i >= 4 * p { assert Delta(before, after, i) == DeltaOf(before, after, p, i - 4 * p); }
    }
    if more != maximum {
      var c: nat := if deltas[3] == more then 3 else if deltas[2] == more then 2 else if deltas[1] == more then 1 else 0;
      assert Delta(before, after, 4 * p + c) == more;
    }
  }

  /** The pixels drawn so far. */
  ghost predicate Drawn(before: seq<byte>, after: seq<byte>, threshold: byte, p: nat, drawn: seq<byte>)
    requires |before| == |after| && |before| % 4 == 0 && 4 * p <= |before|
  {
    && |drawn| == |before|
    && (forall i :: 0 <= i < 4 * p ==> drawn[i] == Shown(before, after, threshold, i))
    && (forall i :: 4 * p <= i < |drawn| ==> drawn[i] == 0)
  }

  lemma DrawsOne(before: seq<byte>, after: seq<byte>, threshold: byte, p: nat, drawn: seq<byte>, deltas: seq<byte>)
    requires |before| == |after| && |before| % 4 == 0 && 4 * p + 4 <= |before|
    requires Drawn(before, after, threshold, p, drawn)
    requires |deltas| == 4 && forall channel: nat :: channel < 4 ==> deltas[channel] == DeltaOf(before, after, p, channel)
    ensures !Changed(before, after, threshold, p) ==> Drawn(before, after, threshold, p + 1, drawn)
    ensures Changed(before, after, threshold, p) ==>
              Drawn(before, after, threshold, p + 1,
                    drawn[4 * p := deltas[0]][4 * p + 1 := deltas[1]][4 * p + 2 := deltas[2]][4 * p + 3 := 255])
  {
    hide Changed, Delta;
    forall i | 4 * p <= i < 4 * p + 4 ensures i / 4 == p && i % 4 == i - 4 * p {}
    forall i: nat | i < 4 * p ensures i / 4 < p {}
    assert deltas[0] == Delta(before, after, 4 * p) && deltas[1] == Delta(before, after, 4 * p + 1)
        && deltas[2] == Delta(before, after, 4 * p + 2);
  }

  method DrawPixel(drawn: array<byte>, p: nat, deltas: seq<byte>)
    requires 4 * p + 4 <= drawn.Length && |deltas| == 4
    modifies drawn
    ensures drawn[..]
         == old(drawn[..])[4 * p := deltas[0]][4 * p + 1 := deltas[1]][4 * p + 2 := deltas[2]][4 * p + 3 := 255]
  {
    drawn[4 * p], drawn[4 * p + 1], drawn[4 * p + 2], drawn[4 * p + 3] := deltas[0], deltas[1], deltas[2], 255;
  }

  method ComparePixels(before: seq<byte>, after: seq<byte>, threshold: byte, width: nat, height: nat)
    returns (changedPixels: nat, sums: seq<nat>, maximum: byte, r: Rect, drawn: array<byte>)
    requires width > 0 && height > 0 && |before| == |after| == 4 * (width * height)
    ensures Gathered(before, after, threshold, width * height, changedPixels, sums, maximum)
    ensures Covers(r, width, height, ChangedPixels(before, after, threshold, width * height))
    ensures fresh(drawn) && Drawn(before, after, threshold, width * height, drawn[..])
  {
    var total := width * height;
    drawn := new byte[4 * total](i => 0);
    changedPixels, sums, maximum := 0, [0, 0, 0, 0], 0;
    r := Rect(width, height, -1, -1);
    NothingGathered(before, after, threshold);
    var p := 0;
    while p < total
      invariant p <= total && drawn.Length == 4 * total
      invariant Gathered(before, after, threshold, p, changedPixels, sums, maximum)
      invariant Covers(r, width, height, ChangedPixels(before, after, threshold, p))
      invariant Drawn(before, after, threshold, p, drawn[..])
    {
      hide Gathered, Changed, Covers, Drawn, Smallest, ChangedPixels, Max, Widened, Row, Column;
      var deltas, changed := ComparePixel(before, after, threshold, p);
      GathersOne(before, after, threshold, p, changedPixels, sums, maximum, deltas);
      OneMorePixel(before, after, threshold, p);
      DrawsOne(before, after, threshold, p, drawn[..], deltas);
      HasFourSums(before, after, threshold, p, changedPixels, sums, maximum);
      sums := [sums[0] + deltas[0], sums[1] + deltas[1], sums[2] + deltas[2], sums[3] + deltas[3]];
      maximum := Max(Max(Max(Max(maximum, deltas[0]), deltas[1]), deltas[2]), deltas[3]);
      if changed {
        changedPixels := changedPixels + 1;
        RowOfPixel(p, width, height);
        WidensByOne(r, width, height, ChangedPixels(before, after, threshold, p), p);
        r := Widened(r, Column(p, width), Row(p, width));
        CoversSome(r, width, height, ChangedPixels(before, after, threshold, p), p);
        DrawPixel(drawn, p, deltas);
      } else {
        NoneAdded(ChangedPixels(before, after, threshold, p));
      }
      p := p + 1;
    }
  }

  lemma NothingGathered(before: seq<byte>, after: seq<byte>, threshold: byte)
    requires |before| == |after|
    ensures ChangedPixels(before, after, threshold, 0) == {}
    ensures Gathered(before, after, threshold, 0, 0, [0, 0, 0, 0], 0)
  {
    assert ChangedPixels(before, after, threshold, 0) == {};
  }

  lemma HasFourSums(before: seq<byte>, after: seq<byte>, threshold: byte, p: nat, count: nat, sums: seq<nat>, maximum: byte)
    requires |before| == |after| && 4 * p <= |before| && Gathered(before, after, threshold, p, count, sums, maximum)
    ensures |sums| == 4
  {
  }

  lemma CoversSome(r: Rect, width: nat, height: nat, pixels: set<nat>, p: nat)
    requires width > 0 && Smallest(r, width, pixels + {p})
    ensures Covers(r, width, height, pixels + {p})
  {
    assert p in pixels + {p};
  }

  lemma NoneAdded(pixels: set<nat>)
    ensures pixels + {} == pixels
  {
  }

  /** Compares two captures, or says why they cannot be compared. */
  method DiffRgba(before: RgbaImage, after: RgbaImage, threshold: byte, hash: (seq<real>, nat, nat) -> nat)
    returns (result: DiffResult)
    ensures result == Refused(SizesDiffer) <==> before.width != after.width || before.height != after.height
    ensures result == Refused(BadDimensions) <==>
              before.width == after.width && before.height == after.height
              && CaptureCache.CheckedRgbaSize(before.width, before.height).None?
    ensures result.Fine? <==>
              && before.width == after.width && before.height == after.height
              && CaptureCache.CheckedRgbaSize(before.width, before.height) == Some(|before.rgba|)
              && |after.rgba| == |before.rgba|
    ensures result.Fine? ==>
              && before.width > 0 && before.height > 0 && |before.rgba| == 4 * (before.width * before.height)
              && Reports(result.diff, before.rgba, after.rgba, before.width, before.height, threshold, hash)
  {
    if before.width != after.width || before.height != after.height { return Refused(SizesDiffer); }
    var expected := CaptureCache.CheckedRgbaSize(before.width, before.height);
    if expected.None? { return Refused(BadDimensions); }
    if |before.rgba| != expected.value || |after.rgba| != expected.value { return Refused(BadStorage); }
    var width: nat, height: nat := before.width, before.height;
    var count := width * height;
    var changed, sums, maximum, r, drawn := ComparePixels(before.rgba, after.rgba, threshold, width, height);
    var lumaBefore := LumaPlane(before.rgba, count);
    var hashBefore := hash(lumaBefore, width, height);
    var ssim, hashAfter := 1.0, hashBefore;
    if maximum != 0 {
      var lumaAfter := LumaPlane(after.rgba, count);
      ssim := ImageSimilarity.StructuralSimilarity(lumaBefore, lumaAfter, width, height);
      hashAfter := hash(lumaAfter, width, height);
    } else {
      NoDeltaMeansSame(before.rgba, after.rgba, threshold, count, changed, sums);
    }
    var bounds := if changed > 0 then Some(Bounds(r.minX, r.minY, r.maxX - r.minX + 1, r.maxY - r.minY + 1)) else None;
    var distance := ImageHashes.HammingDistance(hashBefore, hashAfter);
    var diff := Diff(changed, count, sums, maximum, bounds, drawn[..], ssim, hashBefore, hashAfter, distance);
    ReportsAll(diff, before.rgba, after.rgba, width, height, threshold, hash, r);
    result := Fine(diff);
  }

  lemma NoDeltaMeansSame(before: seq<byte>, after: seq<byte>, threshold: byte, count: nat, changed: nat, sums: seq<nat>)
    requires |before| == |after| == 4 * count && Gathered(before, after, threshold, count, changed, sums, 0)
    ensures before == after
  {
    forall i | 0 <= i < |before| ensures before[i] == after[i] { assert Delta(before, after, i) <= 0; }
  }

  lemma ReportsAll(d: Diff, before: seq<byte>, after: seq<byte>, width: nat, height: nat, threshold: byte,
                   hash: (seq<real>, nat, nat) -> nat, r: Rect)
    requires width > 0 && height > 0 && |before| == |after| == 4 * (width * height)
    requires Gathered(before, after, threshold, width * height, d.changedPixels, d.sums, d.maxChannelDelta)
    requires Covers(r, width, height, ChangedPixels(before, after, threshold, width * height))
    requires Drawn(before, after, threshold, width * height, d.diffRgba) && d.totalPixels == width * height
    requires d.bounds == if d.changedPixels > 0 then Some(Bounds(r.minX, r.minY, r.maxX - r.minX + 1, r.maxY - r.minY + 1))
                         else None
    requires d.ssim == ImageSimilarity.Similarity(LumaPlane(before, width * height), LumaPlane(after, width * height),
                                                  width, height)
    requires d.hashBefore == hash(LumaPlane(before, width * height), width, height)
    requires d.hashAfter == hash(LumaPlane(after, width * height), width, height)
    requires d.distance == ImageHashes.Popcount(ImageHashes.Xor(d.hashBefore, d.hashAfter))
    ensures Reports(d, before, after, width, height, threshold, hash)
  {
    hide Changed, Delta, Shown, ImageSimilarity.Similarity, LumaPlane, ChannelSum, ChangedPixels;
    var count := width * height;
    assert count > 0 by { TimesLess(0, width, height); AtLeastOne(width, height); }
    var changed := ChangedPixels(before, after, threshold, count);
    if d.maxChannelDelta == 0 { assert Delta(before, after, 0) == 0; }
    if changed != {} { StaysInside(r, width, height, changed); }
  }

  lemma AtLeastOne(width: nat, height: nat)
    requires width > 0 && height > 0
    ensures width * height > 0
  {
  }

  lemma StaysInside(r: Rect, width: nat, height: nat, pixels: set<nat>)
    requires width > 0 && Smallest(r, width, pixels) && forall p <- pixels :: p < width * height
    ensures 0 <= r.minX <= r.maxX < width && 0 <= r.minY <= r.maxY < height
  {
    hide Row, Column;
    var a :| a in pixels && Column(a, width) == r.minX;
    var b :| b in pixels && Column(b, width) == r.maxX;
    var c :| c in pixels && Row(c, width) == r.minY;
    var d :| d in pixels && Row(d, width) == r.maxY;
    RowOfPixel(a, width, height);
    RowOfPixel(b, width, height);
    RowOfPixel(c, width, height);
    RowOfPixel(d, width, height);
    assert Inside(r, width, a) && Inside(r, width, c);
  }

  // ----- The images the other way round -----

  lemma ChangedSwaps(before: seq<byte>, after: seq<byte>, threshold: byte, pixel: nat)
    requires |before| == |after| && 4 * pixel + 4 <= |before|
    ensures Changed(before, after, threshold, pixel) == Changed(after, before, threshold, pixel)
  {
    forall c: nat | c < 4 ensures DeltaOf(before, after, pixel, c) == DeltaOf(after, before, pixel, c) {}
  }

  lemma {:induction false} SumSwaps(before: seq<byte>, after: seq<byte>, channel: nat, count: nat)
    requires channel < 4 && |before| == |after| && 4 * count <= |before|
    ensures ChannelSum(before, after, channel, count) == ChannelSum(after, before, channel, count)
  {
    if count > 0 { SumSwaps(before, after, channel, count - 1); }
  }

  lemma PixelsSwap(before: seq<byte>, after: seq<byte>, threshold: byte, count: nat)
    requires |before| == |after| && 4 * count <= |before|
    ensures ChangedPixels(before, after, threshold, count) == ChangedPixels(after, before, threshold, count)
  {
    hide Changed;
    forall p: nat | p < count ensures Changed(before, after, threshold, p) == Changed(after, before, threshold, p) {
      ChangedSwaps(before, after, threshold, p);
    }
  }

  /** Everything but which hash comes first is the same the other way round. */
  lemma SwapChangesOnlyTheHashes(d: Diff, e: Diff, before: seq<byte>, after: seq<byte>, width: nat, height: nat,
                                 threshold: byte, hash: (seq<real>, nat, nat) -> nat)
    requires width > 0 && height > 0 && |before| == |after| == 4 * (width * height)
    requires Reports(d, before, after, width, height, threshold, hash)
    requires Reports(e, after, before, width, height, threshold, hash)
    ensures e == d.(hashBefore := d.hashAfter, hashAfter := d.hashBefore)
  {
    hide ImageHashes.Xor, ImageHashes.Popcount, ImageHashes.Power2, ImageSimilarity.Similarity, LumaPlane, ChannelSum,
      Shown, Changed, ChangedPixels, Delta, Smallest;
    var count := width * height;
    PixelsSwap(before, after, threshold, count);
    SumsAgree(d, e, before, after, count);
    MaximaAgree(d, e, before, after);
    DrawingsAgree(d, e, before, after, threshold);
    ImageSimilarity.SimilarityIsSymmetric(LumaPlane(before, count), LumaPlane(after, count), width, height);
    ImageHashes.DistanceIsAMetric(d.hashBefore, d.hashAfter, d.hashBefore);
    BoundsAgree(d, e, width, ChangedPixels(before, after, threshold, count));
  }

  lemma SumsAgree(d: Diff, e: Diff, before: seq<byte>, after: seq<byte>, count: nat)
    requires |before| == |after| == 4 * count && |d.sums| == |e.sums| == 4
    requires forall c: nat :: c < 4 ==> d.sums[c] == ChannelSum(before, after, c, count)
    requires forall c: nat :: c < 4 ==> e.sums[c] == ChannelSum(after, before, c, count)
    ensures d.sums == e.sums
  {
    hide ChannelSum;
    forall c | 0 <= c < 4 ensures d.sums[c] == e.sums[c] { SumSwaps(before, after, c, count); }
  }

  lemma MaximaAgree(d: Diff, e: Diff, before: seq<byte>, after: seq<byte>)
    requires |before| == |after|
    requires forall i :: 0 <= i < |before| ==> Delta(before, after, i) <= d.maxChannelDelta
    requires exists i :: 0 <= i < |before| && Delta(before, after, i) == d.maxChannelDelta
    requires forall i :: 0 <= i < |before| ==> Delta(after, before, i) <= e.maxChannelDelta
    requires exists i :: 0 <= i < |before| && Delta(after, before, i) == e.maxChannelDelta
    ensures d.maxChannelDelta == e.maxChannelDelta
  {
    var i :| 0 <= i < |before| && Delta(before, after, i) == d.maxChannelDelta;
    var j :| 0 <= j < |before| && Delta(after, before, j) == e.maxChannelDelta;
    assert Delta(after, before, i) == d.maxChannelDelta && Delta(before, after, j) == e.maxChannelDelta;
  }

  lemma DrawingsAgree(d: Diff, e: Diff, before: seq<byte>, after: seq<byte>, threshold: byte)
    requires |before| == |after| && |before| % 4 == 0 && |d.diffRgba| == |e.diffRgba| == |before|
    requires forall i :: 0 <= i < |before| ==> d.diffRgba[i] == Shown(before, after, threshold, i)
    requires forall i :: 0 <= i < |before| ==> e.diffRgba[i] == Shown(after, before, threshold, i)
    ensures d.diffRgba == e.diffRgba
  {
    hide Changed;
    forall i | 0 <= i < |before| ensures d.diffRgba[i] == e.diffRgba[i] {
      ChangedSwaps(before, after, threshold, i / 4);
      assert Delta(before, after, i) == Delta(after, before, i);
    }
  }

  lemma BoundsAgree(d: Diff, e: Diff, width: nat, changed: set<nat>)
    requires width > 0 && (d.bounds.None? <==> changed == {}) && (e.bounds.None? <==> changed == {})
    requires d.bounds.Some? ==> Smallest(RectOf(d.bounds.value), width, changed)
    requires e.bounds.Some? ==> Smallest(RectOf(e.bounds.value), width, changed)
    ensures d.bounds == e.bounds
  {
    if d.bounds.Some? { SmallestIsLeast(RectOf(d.bounds.value), width, changed, RectOf(e.bounds.value)); }
  }
}
