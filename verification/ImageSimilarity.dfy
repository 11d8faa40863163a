/** Structural similarity in exact arithmetic. */
module ImageSimilarity {
  import opened Text

  const BLOCK := 8

  // (0.01 * 255)^2 and (0.03 * 255)^2
  const C1 := 6.5025
  const C2 := 58.5225

  /** The running sums of one block of two luma planes. */
  datatype Sums = Sums(l: real, r: real, ll: real, rr: real, lr: real, count: nat)

  const NOTHING := Sums(0.0, 0.0, 0.0, 0.0, 0.0, 0)

  function Add(s: Sums, l: real, r: real): Sums {
    Sums(s.l + l, s.r + r, s.ll + l * l, s.rr + r * r, s.lr + l * r, s.count + 1)
  }

  function Swapped(s: Sums): Sums {
    Sums(s.r, s.l, s.rr, s.ll, s.lr, s.count)
  }

  function Numerator(s: Sums): real
    requires s.count > 0
  {
    var n := s.count as real;
    var ml, mr := s.l / n, s.r / n;
    (2.0 * ml * mr + C1) * (2.0 * (s.lr / n - ml * mr) + C2)
  }

  function Denominator(s: Sums): real
    requires s.count > 0
  {
    var n := s.count as real;
    var ml, mr := s.l / n, s.r / n;
    (ml * ml + mr * mr + C1) * ((s.ll / n - ml * ml) + (s.rr / n - mr * mr) + C2)
  }

  function Score(s: Sums): real
    requires s.count > 0
  {
    if Denominator(s) > 0.0 then Numerator(s) / Denominator(s) else 1.0
  }

  // ----- Sums of squares -----

  /** `squares - 2 x sum + n x^2`, the sum of the squared distances of `n` values from `x`. */
  function Spread(n: nat, sum: real, squares: real, x: real): real {
    squares - 2.0 * x * sum + n as real * x * x
  }

  ghost predicate NeverNegative(n: nat, sum: real, squares: real) {
    forall x: real :: Spread(n, sum, squares, x) >= 0.0
  }

  lemma OneMoreValue(n: nat, sum: real, squares: real, v: real)
    requires NeverNegative(n, sum, squares)
    ensures NeverNegative(n + 1, sum + v, squares + v * v)
  {
    var n', sum', squares' := n + 1, sum + v, squares + v * v;
    forall x: real ensures Spread(n', sum', squares', x) >= 0.0 {
      var d := v - x;
      assert d * d == v * v - 2.0 * x * v + x * x;
      assert Spread(n', sum', squares', x) == Spread(n, sum, squares, x) + d * d;
    }
  }

  /** What holds of the sums of any pixels: no spread is negative, not of either plane, of their
      difference or of their sum; and brightness is never negative. */
  ghost predicate Genuine(s: Sums) {
    && s.l >= 0.0 && s.r >= 0.0
    && NeverNegative(s.count, s.l, s.ll) && NeverNegative(s.count, s.r, s.rr)
    && NeverNegative(s.count, s.l - s.r, s.ll - 2.0 * s.lr + s.rr)
    && NeverNegative(s.count, s.l + s.r, s.ll + 2.0 * s.lr + s.rr)
  }

  lemma NothingIsGenuine()
    ensures Genuine(NOTHING)
  {
  }

  lemma AddKeepsGenuine(s: Sums, l: real, r: real)
    requires Genuine(s) && l >= 0.0 && r >= 0.0
    ensures Genuine(Add(s, l, r))
  {
    hide NeverNegative;
    var t := Add(s, l, r);
    var d, e := l - r, l + r;
    assert d * d == l * l - 2.0 * (l * r) + r * r;
    assert e * e == l * l + 2.0 * (l * r) + r * r;
    OneMoreValue(s.count, s.l, s.ll, l);
    OneMoreValue(s.count, s.r, s.rr, r);
    OneMoreValue(s.count, s.l - s.r, s.ll - 2.0 * s.lr + s.rr, d);
    OneMoreValue(s.count, s.l + s.r, s.ll + 2.0 * s.lr + s.rr, e);
    assert t.l - t.r == s.l - s.r + d && t.l + t.r == s.l + s.r + e;
    assert t.ll - 2.0 * t.lr + t.rr == s.ll - 2.0 * s.lr + s.rr + d * d;
    assert t.ll + 2.0 * t.lr + t.rr == s.ll + 2.0 * s.lr + s.rr + e * e;
  }

  /** A variance that is a spread around the mean is not negative. */
  lemma VarianceIsNotNegative(n: nat, sum: real, squares: real)
    requires n > 0 && NeverNegative(n, sum, squares)
    ensures squares / n as real - (sum / n as real) * (sum / n as real) >= 0.0
  {
    var k := n as real;
    var m := sum / k;
    assert m * k == sum;
    assert Spread(n, sum, squares, m) >= 0.0;
    assert m * sum == k * m * m;
    assert Spread(n, sum, squares, m) == squares - k * m * m;
    var q := squares / k;
    assert q * k == squares;
    assert (q - m * m) * k == squares - k * m * m;
    if q - m * m < 0.0 { NegativeTimes(q - m * m, k); }
  }

  lemma NegativeTimes(a: real, b: real)
    requires a < 0.0 && b > 0.0
    ensures a * b < 0.0
  {
  }

  /** The three bounds a block's score rests on. */
  lemma Bounds(s: Sums)
    requires Genuine(s) && s.count > 0
    ensures var n := s.count as real;
      var ml, mr := s.l / n, s.r / n;
      var vl, vr, cov := s.ll / n - ml * ml, s.rr / n - mr * mr, s.lr / n - ml * mr;
      ml >= 0.0 && mr >= 0.0 && vl >= 0.0 && vr >= 0.0 && -(vl + vr) <= 2.0 * cov <= vl + vr
  {
    var n := s.count as real;
    var ml, mr := s.l / n, s.r / n;
    var a, b, c := s.ll / n, s.rr / n, s.lr / n;
    hide NeverNegative;
    VarianceIsNotNegative(s.count, s.l, s.ll);
    VarianceIsNotNegative(s.count, s.r, s.rr);
    VarianceIsNotNegative(s.count, s.l - s.r, s.ll - 2.0 * s.lr + s.rr);
    VarianceIsNotNegative(s.count, s.l + s.r, s.ll + 2.0 * s.lr + s.rr);
    Means(s.l, s.r, n);
    Parts(s.ll, s.lr, s.rr, n);
    var d, t := ml - mr, ml + mr;
    assert d * d == ml * ml - 2.0 * (ml * mr) + mr * mr;
    assert t * t == ml * ml + 2.0 * (ml * mr) + mr * mr;
  }

  lemma Means(l: real, r: real, n: real)
    requires n > 0.0 && l >= 0.0 && r >= 0.0
    ensures (l - r) / n == l / n - r / n && (l + r) / n == l / n + r / n && l / n >= 0.0 && r / n >= 0.0
  {
  }

  lemma Parts(ll: real, lr: real, rr: real, n: real)
    requires n > 0.0
    ensures (ll - 2.0 * lr + rr) / n == ll / n - 2.0 * (lr / n) + rr / n
    ensures (ll + 2.0 * lr + rr) / n == ll / n + 2.0 * (lr / n) + rr / n
  {
  }

  /** Every block has a positive denominator and a score above -1 and at most 1. */
  lemma ScoreIsBounded(s: Sums)
    requires Genuine(s) && s.count > 0
    ensures Denominator(s) > 0.0
    ensures -1.0 < Score(s) <= 1.0
  {
    hide Genuine;
    var n := s.count as real;
    var ml, mr := s.l / n, s.r / n;
    var vl, vr, cov := s.ll / n - ml * ml, s.rr / n - mr * mr, s.lr / n - ml * mr;
    assert ml >= 0.0 && mr >= 0.0 && vl >= 0.0 && vr >= 0.0 && -(vl + vr) <= 2.0 * cov <= vl + vr by { Bounds(s); }
    var d := ml - mr;
    assert d * d == ml * ml - 2.0 * (ml * mr) + mr * mr >= 0.0;
    var means, both := 2.0 * ml * mr + C1, ml * ml + mr * mr + C1;
    assert 2.0 * ml * mr == 2.0 * (ml * mr);
    assert ml * mr >= 0.0;
    var q := vl + vr;
    Products(means, both, 2.0 * cov + C2, q + C2);
    assert Numerator(s) == means * (2.0 * cov + C2);
    assert Denominator(s) == both * (q + C2);
    Ratio(Numerator(s), Denominator(s));
  }

  lemma Products(a: real, b: real, x: real, y: real)
    requires 0.0 < a <= b && -y < x <= y && 0.0 < y
    ensures b * y > 0.0 && -(b * y) < a * x <= b * y
  {
    Positive(b, y);
    NotNegative(a, y - x);
    NotNegative(b - a, y);
    Positive(a, x + y);
    assert a * (y - x) == a * y - a * x && (b - a) * y == b * y - a * y && a * (x + y) == a * x + a * y;
  }

  lemma Positive(a: real, b: real)
    requires a > 0.0 && b > 0.0
    ensures a * b > 0.0
  {
  }

  lemma NotNegative(a: real, b: real)
    requires a >= 0.0 && b >= 0.0
    ensures a * b >= 0.0
  {
  }

  lemma Ratio(a: real, b: real)
    requires b > 0.0 && -b < a <= b
    ensures -1.0 < a / b <= 1.0
  {
    var q := a / b;
    assert q * b == a;
    Beyond(q, b);
  }

  lemma Beyond(q: real, b: real)
    requires b > 0.0
    ensures q > 1.0 ==> q * b > b
    ensures q <= -1.0 ==> q * b <= -b
  {
    if q > 1.0 {
      Positive(q - 1.0, b);
      assert (q - 1.0) * b == q * b - b;
    } else if q <= -1.0 {
      NotNegative(-1.0 - q, b);
      assert (-1.0 - q) * b == -b - q * b;
    }
  }

  lemma ScoreIsSymmetric(s: Sums)
    requires s.count > 0
    ensures Score(Swapped(s)) == Score(s)
  {
    var n := s.count as real;
    var ml, mr := s.l / n, s.r / n;
    var a, b, c := s.ll / n, s.rr / n, s.lr / n;
    Commutes(ml, mr, a, b, c);
    hide Score;
    assert Numerator(Swapped(s)) == Numerator(s) && Denominator(Swapped(s)) == Denominator(s);
    SameRatio(s, Swapped(s));
  }

  lemma Commutes(ml: real, mr: real, a: real, b: real, c: real)
    ensures (2.0 * ml * mr + C1) * (2.0 * (c - ml * mr) + C2) == (2.0 * mr * ml + C1) * (2.0 * (c - mr * ml) + C2)
    ensures (ml * ml + mr * mr + C1) * ((a - ml * ml) + (b - mr * mr) + C2)
         == (mr * mr + ml * ml + C1) * ((b - mr * mr) + (a - ml * ml) + C2)
  {
    assert ml * mr == mr * ml;
    assert 2.0 * ml * mr == 2.0 * mr * ml;
    assert ml * ml + mr * mr + C1 == mr * mr + ml * ml + C1;
    assert (a - ml * ml) + (b - mr * mr) + C2 == (b - mr * mr) + (a - ml * ml) + C2;
  }

  lemma SameRatio(s: Sums, t: Sums)
    requires s.count > 0 && t.count > 0 && Numerator(s) == Numerator(t) && Denominator(s) == Denominator(t)
    ensures Score(s) == Score(t)
  {
    hide Numerator, Denominator;
  }

  /** A block against itself scores 1. */
  lemma SameScoresOne(s: Sums)
    requires Genuine(s) && s.count > 0 && s.l == s.r && s.ll == s.rr == s.lr
    ensures Score(s) == 1.0
  {
    var n := s.count as real;
    var m := s.l / n;
    hide Genuine;
    ScoreIsBounded(s);
    assert 2.0 * m * m == m * m + m * m;
    assert Numerator(s) == Denominator(s);
    Whole(Denominator(s));
  }

  lemma Whole(a: real)
    requires a > 0.0
    ensures a / a == 1.0
  {
  }

  // ----- Two planes -----

  function At(plane: seq<real>, i: nat): real {
    if i < |plane| then plane[i] else 0.0
  }

  /** The pixels `[x, xEnd)` of row `y` added to the sums. */
  function RowSums(left: seq<real>, right: seq<real>, width: nat, y: nat, x: nat, xEnd: nat, s: Sums): Sums
    decreases xEnd - x
  {
    if x >= xEnd then s
    else
      var index := y * width + x;
      RowSums(left, right, width, y, x + 1, xEnd, Add(s, At(left, index), At(right, index)))
  }

  function AreaSums(left: seq<real>, right: seq<real>, width: nat, y: nat, yEnd: nat, x: nat, xEnd: nat, s: Sums): Sums
    decreases yEnd - y
  {
    if y >= yEnd then s
    else AreaSums(left, right, width, y + 1, yEnd, x, xEnd, RowSums(left, right, width, y, x, xEnd, s))
  }

  /** The sums of the block whose corner is at `(across, top)`, cut off at the edges of the plane. */
  function BlockSums(left: seq<real>, right: seq<real>, width: nat, height: nat, top: nat, across: nat): Sums {
    AreaSums(left, right, width, top, Min(top + BLOCK, height), across, Min(across + BLOCK, width), NOTHING)
  }

  datatype Tally = Tally(total: real, blocks: nat)

  function Count(t: Tally, s: Sums): Tally {
    if s.count == 0 then t else Tally(t.total + Score(s), t.blocks + 1)
  }

  function BlocksInRow(left: seq<real>, right: seq<real>, width: nat, height: nat, top: nat, across: nat, t: Tally): Tally
    decreases width - across
  {
    if across >= width then t
    else BlocksInRow(left, right, width, height, top, across + BLOCK, Count(t, BlockSums(left, right, width, height, top, across)))
  }

  function Blocks(left: seq<real>, right: seq<real>, width: nat, height: nat, top: nat, t: Tally): Tally
    decreases height - top
  {
    if top >= height then t
    else Blocks(left, right, width, height, top + BLOCK, BlocksInRow(left, right, width, height, top, 0, t))
  }

  /** The mean score of all blocks, before any shortcut and any clamp. */
  function MeanScore(left: seq<real>, right: seq<real>, width: nat, height: nat): real {
    var t := Blocks(left, right, width, height, 0, Tally(0.0, 0));
    if t.blocks == 0 then 1.0 else t.total / t.blocks as real
  }

  function Clamped(x: real): real {
    if x < 0.0 then 0.0 else if x > 1.0 then 1.0 else x
  }

  function Similarity(left: seq<real>, right: seq<real>, width: nat, height: nat): real {
    if width == 0 || height == 0 || left == right then 1.0 else Clamped(MeanScore(left, right, width, height))
  }

  method StructuralSimilarity(left: seq<real>, right: seq<real>, width: nat, height: nat) returns (ssim: real)
    requires |left| == |right| == width * height
    ensures ssim == Similarity(left, right, width, height)
  {
    hide RowSums, AreaSums, BlockSums, Score;
    if width == 0 || height == 0 { return 1.0; }
    if left == right { return 1.0; }
    var total: real := 0.0;
    var blocks := 0;
    ghost var goal := Blocks(left, right, width, height, 0, Tally(0.0, 0));
    var top := 0;
    while top < height
      invariant Blocks(left, right, width, height, top, Tally(total, blocks)) == goal
    {
      ghost var row := BlocksInRow(left, right, width, height, top, 0, Tally(total, blocks));
      var across := 0;
      while across < width
        invariant BlocksInRow(left, right, width, height, top, across, Tally(total, blocks)) == row
      {
        var sums := SumBlock(left, right, width, height, top, across);
        if sums.count > 0 {
          total := total + Score(sums);
          blocks := blocks + 1;
        }
        across := across + BLOCK;
      }
      top := top + BLOCK;
    }
    if blocks == 0 { return Clamped(1.0); }
    ssim := Clamped(total / blocks as real);
  }

  method SumBlock(left: seq<real>, right: seq<real>, width: nat, height: nat, top: nat, across: nat) returns (s: Sums)
    requires |left| == |right| == width * height
    ensures s == BlockSums(left, right, width, height, top, across)
  {
    hide Add;
    s := NOTHING;
    var yEnd, xEnd := Min(top + BLOCK, height), Min(across + BLOCK, width);
    var y := top;
    while y < yEnd
      invariant AreaSums(left, right, width, y, yEnd, across, xEnd, s) == BlockSums(left, right, width, height, top, across)
    {
      ghost var row := RowSums(left, right, width, y, across, xEnd, s);
      var x := across;
      while x < xEnd
        invariant RowSums(left, right, width, y, x, xEnd, s) == row
      {
        var index := y * width + x;
        InsidePlane(x, y, width, height);
        s := Add(s, left[index], right[index]);
        x := x + 1;
      }
      y := y + 1;
    }
  }

  lemma InsidePlane(x: nat, y: nat, width: nat, height: nat)
    requires x < width && y < height
    ensures y * width + x < width * height
  {
    assert y * width + width == (y + 1) * width <= height * width;
  }

  // ----- What the whole comes to -----

  predicate NotDark(plane: seq<real>) {
    forall i :: 0 <= i < |plane| ==> plane[i] >= 0.0
  }

  lemma {:induction false} RowIsGenuine(left: seq<real>, right: seq<real>, width: nat, y: nat, x: nat, xEnd: nat, s: Sums)
    requires NotDark(left) && NotDark(right) && Genuine(s)
    ensures var t := RowSums(left, right, width, y, x, xEnd, s);
      Genuine(t) && t.count == s.count + (if x < xEnd then xEnd - x else 0)
    decreases xEnd - x
  {
    hide Genuine;
    if x < xEnd {
      var index := y * width + x;
      AddKeepsGenuine(s, At(left, index), At(right, index));
      RowIsGenuine(left, right, width, y, x + 1, xEnd, Add(s, At(left, index), At(right, index)));
    }
  }

  lemma {:induction false} AreaIsGenuine(left: seq<real>, right: seq<real>, width: nat, y: nat, yEnd: nat, x: nat,
                                         xEnd: nat, s: Sums)
    requires NotDark(left) && NotDark(right) && Genuine(s) && x < xEnd
    ensures var t := AreaSums(left, right, width, y, yEnd, x, xEnd, s);
      Genuine(t) && t.count >= s.count && (y < yEnd ==> t.count > s.count)
    decreases yEnd - y
  {
    hide Genuine, RowSums;
    if y < yEnd {
      RowIsGenuine(left, right, width, y, x, xEnd, s);
      AreaIsGenuine(left, right, width, y + 1, yEnd, x, xEnd, RowSums(left, right, width, y, x, xEnd, s));
    }
  }

  /** Every block holds a pixel and its score is above -1 and at most 1. */
  lemma BlockScore(left: seq<real>, right: seq<real>, width: nat, height: nat, top: nat, across: nat)
    requires NotDark(left) && NotDark(right) && top < height && across < width
    ensures var s := BlockSums(left, right, width, height, top, across);
      s.count > 0 && Denominator(s) > 0.0 && -1.0 < Score(s) <= 1.0
  {
    hide Genuine, AreaSums, Score, Denominator;
    NothingIsGenuine();
    AreaIsGenuine(left, right, width, top, Min(top + BLOCK, height), across, Min(across + BLOCK, width), NOTHING);
    ScoreIsBounded(BlockSums(left, right, width, height, top, across));
  }

  predicate Between(t: Tally) {
    -(t.blocks as real) <= t.total <= t.blocks as real && (t.blocks > 0 ==> -(t.blocks as real) < t.total)
  }

  lemma {:induction false} RowStaysBetween(left: seq<real>, right: seq<real>, width: nat, height: nat, top: nat, across: nat,
                                           t: Tally)
    requires NotDark(left) && NotDark(right) && top < height && Between(t)
    ensures var u := BlocksInRow(left, right, width, height, top, across, t);
      Between(u) && u.blocks >= t.blocks && (across < width ==> u.blocks > t.blocks)
    decreases width - across
  {
    hide BlockSums, Score, Denominator;
    if across < width {
      BlockScore(left, right, width, height, top, across);
      RowStaysBetween(left, right, width, height, top, across + BLOCK, Count(t, BlockSums(left, right, width, height, top, across)));
    }
  }

  lemma {:induction false} AllStayBetween(left: seq<real>, right: seq<real>, width: nat, height: nat, top: nat, t: Tally)
    requires NotDark(left) && NotDark(right) && Between(t) && width > 0
    ensures var u := Blocks(left, right, width, height, top, t);
      Between(u) && u.blocks >= t.blocks && (top < height ==> u.blocks > t.blocks)
    decreases height - top
  {
    hide BlocksInRow, Between;
    if top < height {
      RowStaysBetween(left, right, width, height, top, 0, t);
      AllStayBetween(left, right, width, height, top + BLOCK, BlocksInRow(left, right, width, height, top, 0, t));
    }
  }

  /** The mean is above -1 and at most 1, so the upper clamp never acts. */
  lemma MeanIsBounded(left: seq<real>, right: seq<real>, width: nat, height: nat)
    requires NotDark(left) && NotDark(right)
    ensures -1.0 < MeanScore(left, right, width, height) <= 1.0
    ensures Clamped(MeanScore(left, right, width, height))
         == if MeanScore(left, right, width, height) < 0.0 then 0.0 else MeanScore(left, right, width, height)
  {
    hide Blocks;
    var t := Blocks(left, right, width, height, 0, Tally(0.0, 0));
    if width > 0 && height > 0 {
      AllStayBetween(left, right, width, height, 0, Tally(0.0, 0));
      Ratio(t.total, t.blocks as real);
    } else {
      NoBlocks(left, right, width, height, 0);
    }
  }

  lemma {:induction false} NoBlocks(left: seq<real>, right: seq<real>, width: nat, height: nat, top: nat)
    requires width == 0 || height == 0
    ensures Blocks(left, right, width, height, top, Tally(0.0, 0)) == Tally(0.0, 0)
    decreases height - top
  {
    if top < height { NoBlocks(left, right, width, height, top + BLOCK); }
  }

  // ----- Symmetry -----

  lemma {:induction false} RowSwaps(left: seq<real>, right: seq<real>, width: nat, y: nat, x: nat, xEnd: nat, s: Sums)
    ensures RowSums(right, left, width, y, x, xEnd, Swapped(s)) == Swapped(RowSums(left, right, width, y, x, xEnd, s))
    decreases xEnd - x
  {
    if x < xEnd {
      var index := y * width + x;
      var l, r := At(left, index), At(right, index);
      assert l * r == r * l;
      assert Swapped(Add(s, l, r)) == Add(Swapped(s), r, l);
      RowSwaps(left, right, width, y, x + 1, xEnd, Add(s, l, r));
    }
  }

  lemma {:induction false} AreaSwaps(left: seq<real>, right: seq<real>, width: nat, y: nat, yEnd: nat, x: nat, xEnd: nat,
                                     s: Sums)
    ensures AreaSums(right, left, width, y, yEnd, x, xEnd, Swapped(s))
         == Swapped(AreaSums(left, right, width, y, yEnd, x, xEnd, s))
    decreases yEnd - y
  {
    hide RowSums;
    if y < yEnd {
      RowSwaps(left, right, width, y, x, xEnd, s);
      AreaSwaps(left, right, width, y + 1, yEnd, x, xEnd, RowSums(left, right, width, y, x, xEnd, s));
    }
  }

  lemma {:induction false} RowTallySwaps(left: seq<real>, right: seq<real>, width: nat, height: nat, top: nat, across: nat,
                                         t: Tally)
    ensures BlocksInRow(right, left, width, height, top, across, t) == BlocksInRow(left, right, width, height, top, across, t)
    decreases width - across
  {
    hide AreaSums, Score;
    if across < width {
      AreaSwaps(left, right, width, top, Min(top + BLOCK, height), across, Min(across + BLOCK, width), NOTHING);
      var s := BlockSums(left, right, width, height, top, across);
      if s.count > 0 { ScoreIsSymmetric(s); }
      RowTallySwaps(left, right, width, height, top, across + BLOCK, Count(t, s));
    }
  }

  lemma {:induction false} TallySwaps(left: seq<real>, right: seq<real>, width: nat, height: nat, top: nat, t: Tally)
    ensures Blocks(right, left, width, height, top, t) == Blocks(left, right, width, height, top, t)
    decreases height - top
  {
    hide BlocksInRow;
    if top < height {
      RowTallySwaps(left, right, width, height, top, 0, t);
      TallySwaps(left, right, width, height, top + BLOCK, BlocksInRow(left, right, width, height, top, 0, t));
    }
  }

  lemma SimilarityIsSymmetric(left: seq<real>, right: seq<real>, width: nat, height: nat)
    ensures Similarity(left, right, width, height) == Similarity(right, left, width, height)
  {
    hide Blocks;
    TallySwaps(left, right, width, height, 0, Tally(0.0, 0));
  }

  // ----- A plane against itself -----

  predicate Twins(s: Sums) {
    s.l == s.r && s.ll == s.rr == s.lr
  }

  lemma {:induction false} RowOfTwins(plane: seq<real>, width: nat, y: nat, x: nat, xEnd: nat, s: Sums)
    requires Twins(s)
    ensures Twins(RowSums(plane, plane, width, y, x, xEnd, s))
    decreases xEnd - x
  {
    if x < xEnd {
      var v := At(plane, y * width + x);
      RowOfTwins(plane, width, y, x + 1, xEnd, Add(s, v, v));
    }
  }

  lemma {:induction false} AreaOfTwins(plane: seq<real>, width: nat, y: nat, yEnd: nat, x: nat, xEnd: nat, s: Sums)
    requires Twins(s)
    ensures Twins(AreaSums(plane, plane, width, y, yEnd, x, xEnd, s))
    decreases yEnd - y
  {
    hide RowSums;
    if y < yEnd {
      RowOfTwins(plane, width, y, x, xEnd, s);
      AreaOfTwins(plane, width, y + 1, yEnd, x, xEnd, RowSums(plane, plane, width, y, x, xEnd, s));
    }
  }

  lemma TwinScore(plane: seq<real>, width: nat, height: nat, top: nat, across: nat)
    requires NotDark(plane) && top < height && across < width
    ensures var s := BlockSums(plane, plane, width, height, top, across); s.count > 0 && Score(s) == 1.0
  {
    hide Genuine, AreaSums, Score;
    NothingIsGenuine();
    AreaIsGenuine(plane, plane, width, top, Min(top + BLOCK, height), across, Min(across + BLOCK, width), NOTHING);
    AreaOfTwins(plane, width, top, Min(top + BLOCK, height), across, Min(across + BLOCK, width), NOTHING);
    SameScoresOne(BlockSums(plane, plane, width, height, top, across));
  }

  lemma {:induction false} RowOfOnes(plane: seq<real>, width: nat, height: nat, top: nat, across: nat, t: Tally)
    requires NotDark(plane) && top < height && t.total == t.blocks as real
    ensures var u := BlocksInRow(plane, plane, width, height, top, across, t); u.total == u.blocks as real
    decreases width - across
  {
    hide BlockSums, Score;
    if across < width {
      TwinScore(plane, width, height, top, across);
      RowOfOnes(plane, width, height, top, across + BLOCK, Count(t, BlockSums(plane, plane, width, height, top, across)));
    }
  }

  lemma {:induction false} AllOnes(plane: seq<real>, width: nat, height: nat, top: nat, t: Tally)
    requires NotDark(plane) && t.total == t.blocks as real
    ensures var u := Blocks(plane, plane, width, height, top, t); u.total == u.blocks as real
    decreases height - top
  {
    hide BlocksInRow;
    if top < height {
      RowOfOnes(plane, width, height, top, 0, t);
      AllOnes(plane, width, height, top + BLOCK, BlocksInRow(plane, plane, width, height, top, 0, t));
    }
  }

  /** The shortcut for equal planes says what the general formula would. */
  lemma ShortcutAgrees(plane: seq<real>, width: nat, height: nat)
    requires NotDark(plane)
    ensures Clamped(MeanScore(plane, plane, width, height)) == MeanScore(plane, plane, width, height) == 1.0
  {
    hide Blocks;
    AllOnes(plane, width, height, 0, Tally(0.0, 0));
    var t := Blocks(plane, plane, width, height, 0, Tally(0.0, 0));
    if t.blocks > 0 { Whole(t.total); }
  }
}
