module ImageHashes {
  // The hash of a capture: its bits, the boxes it is made from and the distance between two. The distance is counted
  // by clearing the lowest set bit of the exclusive or until none is left, and is a metric. A bit is set where a
  // value is above the median, so no more than half of them are. The boxes averaged for the small plane are never
  // empty and tile the large one.

  // ----- The distance of two hashes -----

  /** The bitwise operations on unsigned numbers, digit by digit. */
  function And(a: nat, b: nat): nat
    decreases a
  {
    if a == 0 then 0 else (if a % 2 == 1 && b % 2 == 1 then 1 else 0) + 2 * And(a / 2, b / 2)
  }

  function Xor(a: nat, b: nat): nat
    decreases a + b
  {
    if a == 0 && b == 0 then 0 else (a + b) % 2 + 2 * Xor(a / 2, b / 2)
  }

  /** How many bits are set. */
  function Popcount(d: nat): nat {
    if d == 0 then 0 else d % 2 + Popcount(d / 2)
  }

  method HammingDistance(left: nat, right: nat) returns (count: nat)
    ensures count == Popcount(Xor(left, right))
  {
    hide And, Xor;
    var difference := Xor(left, right);
    count := 0;
    while difference != 0
      invariant count + Popcount(difference) == Popcount(Xor(left, right))
      decreases Popcount(difference)
    {
      ClearsOneBit(difference);
      difference := And(difference, difference - 1);
      count := count + 1;
    }
  }

  lemma {:induction false} AndWithItself(d: nat)
    ensures And(d, d) == d
    decreases d
  {
    if d > 0 { AndWithItself(d / 2); }
  }

  /** `d & (d - 1)` is `d` without its lowest bit. */
  lemma {:induction false} ClearsOneBit(d: nat)
    requires d != 0
    ensures Popcount(And(d, d - 1)) == Popcount(d) - 1
    decreases d
  {
    if d % 2 == 1 {
      assert (d - 1) / 2 == d / 2;
      AndWithItself(d / 2);
      assert And(d, d - 1) == 2 * (d / 2);
      Doubled(d / 2);
    } else {
      assert (d - 1) / 2 == d / 2 - 1;
      ClearsOneBit(d / 2);
      Doubled(And(d / 2, d / 2 - 1));
    }
  }

  lemma Doubled(d: nat)
    ensures Popcount(2 * d) == Popcount(d)
  {
    assert 2 * d / 2 == d;
  }

  /** The distance is a metric on hashes, and on 64-bit ones at most 64. */
  lemma DistanceIsAMetric(a: nat, b: nat, c: nat)
    ensures Popcount(Xor(a, b)) == 0 <==> a == b
    ensures Popcount(Xor(a, b)) == Popcount(Xor(b, a))
    ensures Popcount(Xor(a, c)) <= Popcount(Xor(a, b)) + Popcount(Xor(b, c))
    ensures a < Power2(64) && b < Power2(64) ==> Popcount(Xor(a, b)) <= 64
  {
    hide Power2;
    NoBitsAlike(a, b);
    XorSwaps(a, b);
    Triangle(a, b, c);
    if a < Power2(64) && b < Power2(64) { AtMost(a, b, 64); }
  }

  lemma {:induction false} NoBitsAlike(a: nat, b: nat)
    ensures Popcount(Xor(a, b)) == 0 <==> a == b
    decreases a + b
  {
    if a != 0 || b != 0 {
      NoBitsAlike(a / 2, b / 2);
      Unfolds(a, b);
    }
  }

  /** The bits of a difference, the last one and the others. */
  lemma Unfolds(a: nat, b: nat)
    ensures Popcount(Xor(a, b)) == (a + b) % 2 + Popcount(Xor(a / 2, b / 2))
  {
    var rest := Xor(a / 2, b / 2);
    if a != 0 || b != 0 {
      var all := Xor(a, b);
      assert all == (a + b) % 2 + 2 * rest;
      assert all / 2 == rest && all % 2 == (a + b) % 2;
    }
  }

  lemma {:induction false} XorSwaps(a: nat, b: nat)
    ensures Xor(a, b) == Xor(b, a)
    decreases a + b
  {
    if a != 0 || b != 0 { XorSwaps(a / 2, b / 2); }
  }

  lemma {:induction false} Triangle(a: nat, b: nat, c: nat)
    ensures Popcount(Xor(a, c)) <= Popcount(Xor(a, b)) + Popcount(Xor(b, c))
    decreases a + b + c
  {
    Unfolds(a, c);
    Unfolds(a, b);
    Unfolds(b, c);
    hide Xor, Popcount;
    if a + b + c > 0 { Triangle(a / 2, b / 2, c / 2); } else { NoBitsAlike(0, 0); }
  }

  function Power2(k: nat): nat {
    if k == 0 then 1 else 2 * Power2(k - 1)
  }

  lemma {:induction false} AtMost(a: nat, b: nat, k: nat)
    requires a < Power2(k) && b < Power2(k)
    ensures Popcount(Xor(a, b)) <= k
    decreases k
  {
    if k > 0 {
      AtMost(a / 2, b / 2, k - 1);
      Unfolds(a, b);
    }
  }

  // ----- The bits of a hash -----

  /** How many of the first `n` values are above `m`. */
  function CountAbove(values: seq<real>, m: real): nat {
    if values == [] then 0
    else CountAbove(values[..|values| - 1], m) + (if values[|values| - 1] > m then 1 else 0)
  }

  predicate Sorted(values: seq<real>) {
    forall i, j :: 0 <= i < j < |values| ==> values[i] <= values[j]
  }

  lemma {:induction false} CountOfSorted(values: seq<real>, m: real, k: nat)
    requires k <= |values| && forall i :: 0 <= i < k ==> values[i] <= m
    ensures CountAbove(values, m) <= |values| - k
    decreases |values|
  {
    if |values| > k {
      CountOfSorted(values[..|values| - 1], m, k);
    } else if values != [] {
      CountOfSorted(values[..|values| - 1], m, k - 1);
    }
  }

  /** Counting does not depend on the order. */
  lemma {:induction false} CountOfSame(a: seq<real>, b: seq<real>, m: real)
    requires multiset(a) == multiset(b)
    ensures CountAbove(a, m) == CountAbove(b, m)
    decreases |a|
  {
    if a == [] {
      assert |multiset(b)| == 0;
    } else {
      var last := a[|a| - 1];
      var rest := a[..|a| - 1];
      assert a == rest + [last];
      assert last in multiset(b);
      var k :| 0 <= k < |b| && b[k] == last;
      var other := b[..k] + b[k + 1..];
      OneLess(a, b, k);
      CountOfSame(rest, other, m);
      CountOfLess(b, k, m);
    }
  }

  lemma OneLess(a: seq<real>, b: seq<real>, k: nat)
    requires multiset(a) == multiset(b) && a != [] && k < |b| && b[k] == a[|a| - 1]
    ensures multiset(a[..|a| - 1]) == multiset(b[..k] + b[k + 1..])
  {
    var last := a[|a| - 1];
    assert a == a[..|a| - 1] + [last];
    assert b == b[..k] + ([last] + b[k + 1..]);
    assert multiset(a) == multiset(a[..|a| - 1]) + multiset{last};
    assert multiset(b) == multiset(b[..k]) + (multiset{last} + multiset(b[k + 1..]));
    assert multiset(a[..|a| - 1]) == multiset(a) - multiset{last};
    assert multiset(b[..k]) + multiset(b[k + 1..]) == multiset(b) - multiset{last};
  }

  lemma CountOfLess(b: seq<real>, k: nat, m: real)
    requires k < |b|
    ensures CountAbove(b, m) == CountAbove(b[..k] + b[k + 1..], m) + (if b[k] > m then 1 else 0)
  {
    assert b == b[..k] + ([b[k]] + b[k + 1..]);
    CountJoins(b[..k], [b[k]] + b[k + 1..], m);
    CountJoins([b[k]], b[k + 1..], m);
    CountJoins(b[..k], b[k + 1..], m);
    assert [b[k]][..0] == [];
  }

  lemma {:induction false} CountJoins(a: seq<real>, b: seq<real>, m: real)
    ensures CountAbove(a + b, m) == CountAbove(a, m) + CountAbove(b, m)
    decreases |b|
  {
    if b == [] {
      assert a + b == a;
    } else {
      assert (a + b)[..|a + b| - 1] == a + b[..|b| - 1];
      CountJoins(a, b[..|b| - 1], m);
    }
  }

  /** At most half of the 64 coefficients are above the median, so at most 32 bits of a hash are set. */
  lemma AtMostHalfAreAbove(coefficients: seq<real>, sorted: seq<real>)
    requires |coefficients| == 64 && Sorted(sorted) && multiset(sorted) == multiset(coefficients)
    ensures |sorted| == 64 && CountAbove(coefficients, (sorted[31] + sorted[32]) / 2.0) <= 32
  {
    assert |multiset(sorted)| == |multiset(coefficients)|;
    var median := (sorted[31] + sorted[32]) / 2.0;
    CountOfSame(coefficients, sorted, median);
    CountOfSorted(sorted, median, 32);
  }

  // ----- The boxes a plane is averaged over -----

  const SIZE := 32

  function BoxStart(i: nat, length: nat): nat {
    i * length / SIZE
  }

  function BoxEnd(i: nat, length: nat): nat {
    var start, next := BoxStart(i, length), BoxStart(i + 1, length);
    if start + 1 > next then start + 1 else next
  }

  /** No box is empty and none reaches past the plane; on a plane at least as long as there are boxes
      each begins where the one before it ends, the first at 0 and the last at the very end. */
  lemma BoxesTile(i: nat, length: nat)
    requires i < SIZE && length > 0
    ensures BoxStart(i, length) < BoxEnd(i, length) <= length
    ensures length >= SIZE ==> BoxEnd(i, length) == BoxStart(i + 1, length)
    ensures BoxStart(0, length) == 0 && BoxStart(SIZE, length) == length
  {
    var a := i * length;
    assert (i + 1) * length == a + length;
    NoMore(i, SIZE - 1, length);
  }

  lemma NoMore(i: nat, j: nat, length: nat)
    requires i <= j
    ensures i * length <= j * length
  {
  }
}
