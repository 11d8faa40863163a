/** What the similarity and the brightness come to on images one can check by hand. */
module ImageLaws {
  import opened Text
  import opened ImageSimilarity
  import ImageDiff

  // ----- Planes of one brightness -----

  /** A plane of one brightness. */
  predicate Flat(plane: seq<real>, v: real) {
    forall i :: 0 <= i < |plane| ==> plane[i] == v
  }

  function Times(n: nat, x: real): real {
    n as real * x
  }

  /** The sums of `n` pixels of brightness `a` against as many of brightness `b`. */
  function FlatSums(a: real, b: real, n: nat): Sums {
    Sums(Times(n, a), Times(n, b), Times(n, a * a), Times(n, b * b), Times(n, a * b), n)
  }

  lemma AddsFlat(a: real, b: real, n: nat)
    ensures Add(FlatSums(a, b, n), a, b) == FlatSums(a, b, n + 1)
  {
    hide Times;
    OneMore(n, a);
    OneMore(n, b);
    OneMore(n, a * a);
    OneMore(n, b * b);
    OneMore(n, a * b);
  }

  lemma OneMore(n: nat, x: real)
    ensures Times(n, x) + x == Times(n + 1, x)
  {
    assert (n + 1) as real == n as real + 1.0;
  }

  lemma {:induction false} FlatRow(left: seq<real>, right: seq<real>, a: real, b: real, width: nat, y: nat, x: nat, xEnd: nat, n: nat)
    requires Flat(left, a) && Flat(right, b) && |left| == |right| && y * width + xEnd <= |left|
    ensures RowSums(left, right, width, y, x, xEnd, FlatSums(a, b, n)) == FlatSums(a, b, n + if x < xEnd then xEnd - x else 0)
    decreases xEnd - x
  {
    hide FlatSums, Add;
    if x < xEnd {
      assert At(left, y * width + x) == a && At(right, y * width + x) == b;
      AddsFlat(a, b, n);
      FlatRow(left, right, a, b, width, y, x + 1, xEnd, n + 1);
    }
  }

  lemma {:induction false} FlatArea(left: seq<real>, right: seq<real>, a: real, b: real, width: nat, height: nat, y: nat, yEnd: nat,
                                    x: nat, xEnd: nat, n: nat) returns (m: nat)
    requires Flat(left, a) && Flat(right, b) && |left| == |right| == width * height
    requires yEnd <= height && x < xEnd <= width
    ensures AreaSums(left, right, width, y, yEnd, x, xEnd, FlatSums(a, b, n)) == FlatSums(a, b, m)
    ensures m >= n && (y < yEnd ==> m > n)
    decreases yEnd - y
  {
    hide FlatSums, RowSums;
    m := n;
    if y < yEnd {
      InsidePlane(xEnd - 1, y, width, height);
      FlatRow(left, right, a, b, width, y, x, xEnd, n);
      m := FlatArea(left, right, a, b, width, height, y + 1, yEnd, x, xEnd, n + (xEnd - x));
    }
  }

  /** The similarity of two brightnesses. */
  function FlatScore(a: real, b: real): real
    requires a >= 0.0 && b >= 0.0
  {
    NotNegative(a, a);
    NotNegative(b, b);
    (2.0 * a * b + 6.5025) / (a * a + b * b + 6.5025)
  }

  lemma ScoreOfFlat(a: real, b: real, n: nat)
    requires a >= 0.0 && b >= 0.0 && n > 0
    ensures Score(FlatSums(a, b, n)) == FlatScore(a, b)
  {
    hide *;
    var p, q := 2.0 * a * b + 6.5025, a * a + b * b + 6.5025;
    FlatParts(a, b, n);
    NotNegative(a, a);
    NotNegative(b, b);
    Positive(q, 58.5225);
    Scaled(p, q, 58.5225);
    ScoreIs(FlatSums(a, b, n));
    FlatScoreIs(a, b);
  }

  lemma ScoreIs(s: Sums)
    requires s.count > 0
    ensures Denominator(s) > 0.0 ==> Score(s) == Numerator(s) / Denominator(s)
  {
    hide Numerator, Denominator;
  }

  lemma FlatScoreIs(a: real, b: real)
    requires a >= 0.0 && b >= 0.0 && a * a + b * b + 6.5025 > 0.0
    ensures FlatScore(a, b) == (2.0 * a * b + 6.5025) / (a * a + b * b + 6.5025)
  {
  }

  lemma FlatParts(a: real, b: real, n: nat)
    requires n > 0
    ensures var s := FlatSums(a, b, n);
      && s.count == n
      && Numerator(s) == (2.0 * a * b + 6.5025) * 58.5225
      && Denominator(s) == (a * a + b * b + 6.5025) * 58.5225
  {
    hide *;
    FlatMeans(a, b, n);
    FormulaOf(FlatSums(a, b, n), a, b, a * a, b * b, a * b);
    Constants();
    assert 2.0 * (a * b - a * b) + 58.5225 == 58.5225 && (a * a - a * a) + (b * b - b * b) + 58.5225 == 58.5225;
  }

  lemma Constants()
    ensures C1 == 6.5025 && C2 == 58.5225
  {
  }

  lemma FlatMeans(a: real, b: real, n: nat)
    requires n > 0
    ensures var s, k := FlatSums(a, b, n), n as real;
      s.count == n && s.l / k == a && s.r / k == b && s.ll / k == a * a && s.rr / k == b * b && s.lr / k == a * b
  {
    hide Times;
    Cancels(n, a);
    Cancels(n, b);
    Cancels(n, a * a);
    Cancels(n, b * b);
    Cancels(n, a * b);
  }

  /** The formula in the two means, the two mean squares and the mean product. */
  lemma FormulaOf(s: Sums, ml: real, mr: real, ll: real, rr: real, lr: real)
    requires s.count > 0
    requires var n := s.count as real; s.l / n == ml && s.r / n == mr && s.ll / n == ll && s.rr / n == rr && s.lr / n == lr
    ensures Numerator(s) == (2.0 * ml * mr + C1) * (2.0 * (lr - ml * mr) + C2)
    ensures Denominator(s) == (ml * ml + mr * mr + C1) * ((ll - ml * ml) + (rr - mr * mr) + C2)
  {
  }

  lemma Cancels(n: nat, x: real)
    requires n > 0
    ensures Times(n, x) / n as real == x
  {
    Divides(n as real, x);
  }

  lemma Divides(k: real, x: real)
    requires k > 0.0
    ensures k * x / k == x
  {
  }

  lemma Scaled(p: real, q: real, c: real)
    requires q > 0.0 && c > 0.0 && q * c > 0.0
    ensures p * c / (q * c) == p / q
  {
    var r := p / q;
    assert r * q == p;
    assert r * (q * c) == p * c;
    Divides(q * c, r);
  }

  lemma FlatBlock(left: seq<real>, right: seq<real>, a: real, b: real, width: nat, height: nat, top: nat, across: nat)
    requires Flat(left, a) && Flat(right, b) && |left| == |right| == width * height
    requires a >= 0.0 && b >= 0.0 && top < height && across < width
    ensures var s := BlockSums(left, right, width, height, top, across); s.count > 0 && Score(s) == FlatScore(a, b)
  {
    hide FlatSums, AreaSums, Score, FlatScore;
    NoneIsFlat(a, b);
    var n := FlatArea(left, right, a, b, width, height, top, Min(top + BLOCK, height), across, Min(across + BLOCK, width), 0);
    ScoreOfFlat(a, b, n);
    CountIs(a, b, n);
  }

  lemma NoneIsFlat(a: real, b: real)
    ensures FlatSums(a, b, 0) == NOTHING
  {
  }

  lemma CountIs(a: real, b: real, n: nat)
    ensures FlatSums(a, b, n).count == n
  {
  }

  lemma {:induction false} FlatBlocksInRow(left: seq<real>, right: seq<real>, a: real, b: real, width: nat, height: nat, top: nat,
                                           across: nat, t: Tally)
    requires Flat(left, a) && Flat(right, b) && |left| == |right| == width * height && a >= 0.0 && b >= 0.0 && top < height
    requires t.total == Times(t.blocks, FlatScore(a, b))
    ensures var u := BlocksInRow(left, right, width, height, top, across, t);
      u.total == Times(u.blocks, FlatScore(a, b)) && u.blocks >= t.blocks && (across < width ==> u.blocks > t.blocks)
    decreases width - across
  {
    hide BlockSums, Score, FlatScore;
    if across < width {
      FlatBlock(left, right, a, b, width, height, top, across);
      OneMore(t.blocks, FlatScore(a, b));
      FlatBlocksInRow(left, right, a, b, width, height, top, across + BLOCK,
                      Count(t, BlockSums(left, right, width, height, top, across)));
    }
  }

  lemma {:induction false} FlatBlocks(left: seq<real>, right: seq<real>, a: real, b: real, width: nat, height: nat, top: nat, t: Tally)
    requires Flat(left, a) && Flat(right, b) && |left| == |right| == width * height && a >= 0.0 && b >= 0.0 && width > 0
    requires t.total == Times(t.blocks, FlatScore(a, b))
    ensures var u := Blocks(left, right, width, height, top, t);
      u.total == Times(u.blocks, FlatScore(a, b)) && u.blocks >= t.blocks && (top < height ==> u.blocks > t.blocks)
    decreases height - top
  {
    hide BlocksInRow, FlatScore;
    if top < height {
      FlatBlocksInRow(left, right, a, b, width, height, top, 0, t);
      FlatBlocks(left, right, a, b, width, height, top + BLOCK, BlocksInRow(left, right, width, height, top, 0, t));
    }
  }

  /** Two planes of one brightness each, of any size, are as alike as their two brightnesses. */
  lemma FlatPlanes(left: seq<real>, right: seq<real>, a: real, b: real, width: nat, height: nat)
    requires Flat(left, a) && Flat(right, b) && |left| == |right| == width * height
    requires a >= 0.0 && b >= 0.0 && width > 0 && height > 0
    ensures MeanScore(left, right, width, height) == FlatScore(a, b)
  {
    hide Blocks, FlatScore;
    FlatBlocks(left, right, a, b, width, height, 0, Tally(0.0, 0));
    var t := Blocks(left, right, width, height, 0, Tally(0.0, 0));
    Cancels(t.blocks, FlatScore(a, b));
  }

  /** Black against white is one part in ten thousand and one, whatever the size. */
  lemma BlackAgainstWhite(left: seq<real>, right: seq<real>, width: nat, height: nat)
    requires Flat(left, 0.0) && Flat(right, 255.0) && |left| == |right| == width * height && width > 0 && height > 0
    ensures MeanScore(left, right, width, height) * 10001.0 == 1.0
  {
    hide MeanScore;
    FlatPlanes(left, right, 0.0, 255.0, width, height);
  }

  const HALVES := [0.0, 255.0]
  const TURNED := [255.0, 0.0]
  const TURNED_SUMS := Sums(255.0, 255.0, 65025.0, 65025.0, 0.0, 2)

  lemma RowSteps(left: seq<real>, right: seq<real>, width: nat, y: nat, x: nat, xEnd: nat, s: Sums)
    ensures x >= xEnd ==> RowSums(left, right, width, y, x, xEnd, s) == s
    ensures x < xEnd ==>
      var i := y * width + x;
      RowSums(left, right, width, y, x, xEnd, s) == RowSums(left, right, width, y, x + 1, xEnd, Add(s, At(left, i), At(right, i)))
  {
    hide Add, At;
  }

  lemma OneRow(left: seq<real>, right: seq<real>)
    ensures BlockSums(left, right, 2, 1, 0, 0) == RowSums(left, right, 2, 0, 0, 2, NOTHING)
  {
    hide RowSums;
  }

  lemma TurnedPixels()
    ensures At(HALVES, 0) == 0.0 && At(TURNED, 0) == 255.0 && At(HALVES, 1) == 255.0 && At(TURNED, 1) == 0.0
    ensures Add(Add(NOTHING, 0.0, 255.0), 255.0, 0.0) == TURNED_SUMS
  {
  }

  /** Two pixels, black and white, against the same two changed round. */
  lemma SumsOfTurned()
    ensures BlockSums(HALVES, TURNED, 2, 1, 0, 0) == TURNED_SUMS
  {
    hide *;
    TurnedPixels();
    OneRow(HALVES, TURNED);
    var one := Add(NOTHING, 0.0, 255.0);
    RowSteps(HALVES, TURNED, 2, 0, 0, 2, NOTHING);
    RowSteps(HALVES, TURNED, 2, 0, 1, 2, one);
    RowSteps(HALVES, TURNED, 2, 0, 2, 2, TURNED_SUMS);
  }

  /** Nothing about them is alike. */
  lemma ScoreOfTurned()
    ensures Score(TURNED_SUMS) * 2.0036 == -1.9964
  {
    assert Numerator(TURNED_SUMS) == (32512.5 + 6.5025) * (58.5225 - 32512.5);
    assert Denominator(TURNED_SUMS) == (32512.5 + 6.5025) * (32512.5 + 58.5225);
  }

  // ----- Blocks -----

  lemma {:induction false} RowCounts(left: seq<real>, right: seq<real>, width: nat, y: nat, x: nat, xEnd: nat, s: Sums)
    requires x <= xEnd
    ensures RowSums(left, right, width, y, x, xEnd, s).count == s.count + (xEnd - x)
    decreases xEnd - x
  {
    if x < xEnd {
      var i := y * width + x;
      RowCounts(left, right, width, y, x + 1, xEnd, Add(s, At(left, i), At(right, i)));
    }
  }

  lemma {:induction false} AreaCounts(left: seq<real>, right: seq<real>, width: nat, y: nat, yEnd: nat, x: nat, xEnd: nat, s: Sums)
    requires y <= yEnd && x <= xEnd
    ensures AreaSums(left, right, width, y, yEnd, x, xEnd, s).count == s.count + (yEnd - y) * (xEnd - x)
    decreases yEnd - y
  {
    hide RowSums;
    if y < yEnd {
      RowCounts(left, right, width, y, x, xEnd, s);
      AreaCounts(left, right, width, y + 1, yEnd, x, xEnd, RowSums(left, right, width, y, x, xEnd, s));
      assert (yEnd - y) * (xEnd - x) == (yEnd - (y + 1)) * (xEnd - x) + (xEnd - x);
    }
  }

  lemma BlockHolds(left: seq<real>, right: seq<real>, width: nat, height: nat, top: nat, across: nat)
    requires top < height && across < width
    ensures BlockSums(left, right, width, height, top, across).count == Min(8, height - top) * Min(8, width - across) > 0
  {
    hide AreaSums;
    AreaCounts(left, right, width, top, Min(top + BLOCK, height), across, Min(across + BLOCK, width), NOTHING);
  }

  lemma {:induction false} BlocksOfRow(left: seq<real>, right: seq<real>, width: nat, height: nat, top: nat, across: nat, t: Tally)
    requires top < height && across <= width + 7
    ensures BlocksInRow(left, right, width, height, top, across, t).blocks == t.blocks + (width + 7 - across) / 8
    decreases width - across
  {
    hide BlockSums, Score;
    if across < width {
      BlockHolds(left, right, width, height, top, across);
      BlocksOfRow(left, right, width, height, top, across + 8, Count(t, BlockSums(left, right, width, height, top, across)));
    }
  }

  lemma {:induction false} BlocksOfRows(left: seq<real>, right: seq<real>, width: nat, height: nat, top: nat, t: Tally)
    requires top <= height + 7
    ensures Blocks(left, right, width, height, top, t).blocks == t.blocks + (height + 7 - top) / 8 * ((width + 7) / 8)
    decreases height - top
  {
    hide BlocksInRow;
    var n, m := (width + 7) / 8, (height + 7 - top) / 8;
    if top < height {
      BlocksOfRow(left, right, width, height, top, 0, t);
      BlocksOfRows(left, right, width, height, top + 8, BlocksInRow(left, right, width, height, top, 0, t));
      assert (height + 7 - (top + 8)) / 8 == m - 1;
      assert m * n == (m - 1) * n + n;
    } else {
      assert m == 0;
    }
  }

  /** The mean is taken over the blocks of eight by eight pixels it takes to cover the plane, each cut off at the
      edges, so that no pixel is left out or counted twice. */
  lemma BlocksCoverThePlane(left: seq<real>, right: seq<real>, width: nat, height: nat, top: nat, across: nat)
    ensures Blocks(left, right, width, height, 0, Tally(0.0, 0)).blocks == (height + 7) / 8 * ((width + 7) / 8)
    ensures top < height && across < width ==>
      BlockSums(left, right, width, height, top, across).count == Min(8, height - top) * Min(8, width - across)
  {
    hide Blocks, BlockSums;
    BlocksOfRows(left, right, width, height, 0, Tally(0.0, 0));
    if top < height && across < width { BlockHolds(left, right, width, height, top, across); }
  }

  // ----- Brightness -----

  /** The brightness of a pixel lies between its smallest and its largest channel, alpha aside, so a grey pixel has
      the brightness of its channels. */
  lemma LumaIsBetween(rgba: seq<byte>, pixel: nat, low: byte, high: byte)
    requires 4 * pixel + 4 <= |rgba|
    requires low <= rgba[4 * pixel] <= high && low <= rgba[4 * pixel + 1] <= high && low <= rgba[4 * pixel + 2] <= high
    ensures low as real <= ImageDiff.Luma(rgba, pixel) <= high as real
  {
    WeighsBetween(rgba[4 * pixel] as real, rgba[4 * pixel + 1] as real, rgba[4 * pixel + 2] as real, low as real, high as real);
  }

  lemma WeighsBetween(r: real, g: real, b: real, low: real, high: real)
    requires low <= r <= high && low <= g <= high && low <= b <= high
    ensures low <= 0.2126 * r + 0.7152 * g + 0.0722 * b <= high
  {
  }

  /** Pure green is brighter than pure red, and pure red than pure blue, by the weights of Recommendation ITU-R BT.709. */
  lemma LumaOfPrimaries()
    ensures ImageDiff.Luma([255, 0, 0, 255], 0) == 54.213
    ensures ImageDiff.Luma([0, 255, 0, 255], 0) == 182.376
    ensures ImageDiff.Luma([0, 0, 255, 255], 0) == 18.411
  {
  }

  // ----- Thresholds -----

  /** With no threshold exactly the pixels that differ are changed, with the highest none is, and a higher one never
      finds a pixel that a lower one does not. */
  lemma ThresholdsDecide(before: seq<byte>, after: seq<byte>, low: byte, high: byte, p: nat)
    requires |before| == |after| && 4 * p + 4 <= |before| && low <= high
    ensures ImageDiff.Changed(before, after, 0, p) <==> before[4 * p..4 * p + 4] != after[4 * p..4 * p + 4]
    ensures !ImageDiff.Changed(before, after, 255, p)
    ensures ImageDiff.Changed(before, after, high, p) ==> ImageDiff.Changed(before, after, low, p)
  {
    var b, a := before[4 * p..4 * p + 4], after[4 * p..4 * p + 4];
    if b != a {
      var channel: nat :| channel < 4 && b[channel] != a[channel];
      assert ImageDiff.DeltaOf(before, after, p, channel) > 0;
    }
    if ImageDiff.Changed(before, after, 0, p) {
      var channel: nat :| channel < 4 && ImageDiff.DeltaOf(before, after, p, channel) > 0;
      assert b[channel] != a[channel];
    }
  }
}
