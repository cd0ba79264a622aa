/**
 The closed-form JPEG quality estimate of pkg/quality/adaptive.go, over the reals.
 */
module Quality {
  import opened RealArithmetic
  import opened Wrappers
  import opened Validation

  const MIN_QUALITY := 10
  const MAX_QUALITY := 100

  // ---- The square root ----

  function NewtonStep(x: real, z: real): real
    requires z > 0.0
  {
    0.5 * (z + x / z)
  }

  /** k Newton steps from 1. */
  function Newton(x: real, k: nat): (z: real)
    requires x > 0.0
    ensures z > 0.0
  {
    if k == 0 then 1.0
    else
      var z := Newton(x, k - 1);
      assert x / z > 0.0;
      NewtonStep(x, z)
  }

  /** The root the estimator uses: four steps below 1, the argument itself from 1 on. */
  function Root(x: real): real {
    if x <= 0.0 then 0.0 else if x >= 1.0 then x else Newton(x, 4)
  }

  method Sqrt(x: real) returns (z: real)
    ensures z == Root(x)
  {
    if x <= 0.0 {
      return 0.0;
    }
    if x >= 1.0 {
      return x;
    }
    z := 1.0;
    var i := 0;
    while i < 4
      invariant 0 <= i <= 4 && z > 0.0 && z == Newton(x, i)
    {
      assert Newton(x, i + 1) == NewtonStep(x, z);
      z := 0.5 * (z + x / z);
      i := i + 1;
    }
  }

  // ---- The estimate ----

  function Clamp(x: int, min: int, max: int): (r: int)
    requires min <= max
    ensures min <= r <= max
    ensures min <= x <= max ==> r == x
    ensures r == x || (x < min && r == min) || (x > max && r == max)
  {
    if x < min then min else if x > max then max else x
  }

  /** Target bytes over the bytes of a quality-100 image. */
  function Ratio(pixels: int, targetSizeKB: int): real
    requires pixels > 0
  {
    (targetSizeKB * 1024) as real / (pixels as real * 0.18)
  }

  function FineTuning(pixels: int): real {
    if pixels > 20_000_000 then -5.0 else if pixels < 3_000_000 then 5.0 else 0.0
  }

  /** The quality for a given root of the ratio. */
  function Finish(pixels: int, root: real): (q: int)
    ensures MIN_QUALITY <= q <= MAX_QUALITY
  {
    Clamp(Truncated(100.0 * root + FineTuning(pixels)), MIN_QUALITY, MAX_QUALITY)
  }

  function Estimate(pixels: int, targetSizeKB: int): int
    requires pixels > 0
  {
    Finish(pixels, Root(Ratio(pixels, targetSizeKB)))
  }

  method EstimateQualitySinglePass(width: int, height: int, targetSizeKB: int) returns (q: int)
    requires width > 0 && height > 0
    ensures q == Estimate(width * height, targetSizeKB)
  {
    var pixels := width * height;
    var targetBytes := (targetSizeKB * 1024) as real;
    var compressionFactor := 0.18;
    assert pixels as real * compressionFactor > 0.0;
    var ratio := targetBytes / (pixels as real * compressionFactor);
    var root := Sqrt(ratio);
    var quality := 100.0 * root;
    if pixels > 20_000_000 {
      quality := quality - 5.0;
    } else if pixels < 3_000_000 {
      quality := quality + 5.0;
    }
    q := Clamp(Truncated(quality), MIN_QUALITY, MAX_QUALITY);
  }

  // ---- Monotonicity ----

  /** One step stays above the root and comes down. */
  lemma StepDown(x: real, z: real)
    requires x > 0.0 && z > 0.0 && z * z >= x
    ensures var z' := NewtonStep(x, z); 0.0 < z' <= z && z' * z' >= x
  {
    var y := x / z;
    assert y * z == x && y > 0.0;
    if y > z {
      assert y * z > z * z;
    }
    var z', d := NewtonStep(x, z), 0.5 * (z - y);
    assert z' == 0.5 * (z + y);
    assert z' * z' == d * d + y * z;
  }

  /** From above the root, a step is monotone in both arguments. */
  lemma StepMonotone(x: real, z: real, y: real, w: real)
    requires 0.0 < x <= y && 0.0 < z <= w && z * z >= x
    ensures NewtonStep(x, z) <= NewtonStep(y, w)
  {
    var a, b, c := x / z, x / w, y / w;
    assert a * z == x && b * w == x && c * w == y;
    CancelLe(b, c, w);
    Scale(z, w, z);
    CancelLe(b, z, w);
    Cross(a, z, b, w);
    Scale(b, z, w - z);
    CancelLe(a - b, w - z, z);
  }

  lemma {:induction false} NewtonBounds(x: real, k: nat)
    requires 0.0 < x <= 1.0
    ensures var z := Newton(x, k); z <= 1.0 && z * z >= x
  {
    if k > 0 {
      NewtonBounds(x, k - 1);
      StepDown(x, Newton(x, k - 1));
    }
  }

  lemma {:induction false} NewtonMonotone(x: real, y: real, k: nat)
    requires 0.0 < x <= y <= 1.0
    ensures Newton(x, k) <= Newton(y, k)
  {
    if k > 0 {
      NewtonMonotone(x, y, k - 1);
      NewtonBounds(x, k - 1);
      StepMonotone(x, Newton(x, k - 1), y, Newton(y, k - 1));
    }
  }

  /** The root is monotone everywhere, across both seams. */
  lemma RootMonotone(x: real, y: real)
    requires x <= y
    ensures 0.0 <= Root(x) <= Root(y)
  {
    if 0.0 < x < 1.0 {
      NewtonBounds(x, 4);
      if y < 1.0 {
        NewtonMonotone(x, y, 4);
      }
    }
  }

  lemma TruncatedMonotone(r: real, s: real)
    requires r <= s
    ensures Truncated(r) <= Truncated(s)
  {
  }

  lemma FinishMonotone(pixels: int, pixels': int, root: real, root': real)
    requires pixels' <= pixels && root <= root'
    ensures Finish(pixels, root) <= Finish(pixels', root')
  {
    TruncatedMonotone(100.0 * root + FineTuning(pixels), 100.0 * root' + FineTuning(pixels'));
  }

  lemma QuotientMonotone(n: real, n': real, d: real, d': real)
    requires n <= n' && d >= d' > 0.0 && (n >= 0.0 || d == d')
    ensures n / d <= n' / d'
  {
    var q, q' := n / d, n' / d';
    assert q * d == n && q' * d' == n';
    if d != d' {
      CancelLe(0.0, q, d);
      Scale(d', d, q);
    }
    CancelLe(q, q', d');
  }

  /** A larger target never lowers the quality. */
  lemma MonotoneInTarget(pixels: int, target: int, target': int)
    requires pixels > 0 && target <= target'
    ensures Estimate(pixels, target) <= Estimate(pixels, target')
  {
    var d := pixels as real * 0.18;
    QuotientMonotone((target * 1024) as real, (target' * 1024) as real, d, d);
    RootMonotone(Ratio(pixels, target), Ratio(pixels, target'));
    FinishMonotone(pixels, pixels, Root(Ratio(pixels, target)), Root(Ratio(pixels, target')));
  }

  /** More pixels never raise the quality, across the size steps too. */
  lemma MonotoneInPixels(pixels: int, pixels': int, target: int)
    requires 0 < pixels <= pixels'
    ensures Estimate(pixels', target) <= Estimate(pixels, target)
  {
    var n, d, d' := (target * 1024) as real, pixels as real * 0.18, pixels' as real * 0.18;
    var x, x' := Ratio(pixels, target), Ratio(pixels', target);
    if target >= 0 {
      QuotientMonotone(n, n, d', d);
      RootMonotone(x', x);
    } else {
      QuotientMonotone(n, 0.0, d, d);
      QuotientMonotone(n, 0.0, d', d');
      assert Root(x) == 0.0 == Root(x');
    }
    FinishMonotone(pixels', pixels, Root(x'), Root(x));
  }

  // ---- Accuracy ----

  function Pow(b: real, n: nat): real {
    if n == 0 then 1.0 else b * Pow(b, n - 1)
  }

  /** b to the power of 2^k, by squaring. */
  function Squared(b: real, k: nat): real {
    if k == 0 then b else var h := Squared(b, k - 1); h * h
  }

  lemma {:induction false} PowAdds(b: real, m: nat, n: nat)
    ensures Pow(b, m + n) == Pow(b, m) * Pow(b, n)
  {
    if m > 0 {
      PowAdds(b, m - 1, n);
      Regroup(b, Pow(b, m - 1), Pow(b, n));
    }
  }

  lemma SixteenthPower(b: real)
    ensures Pow(b, 16) == Squared(b, 4)
  {
    PowAdds(b, 8, 8);
    PowAdds(b, 4, 4);
    PowAdds(b, 2, 2);
    PowAdds(b, 1, 1);
    assert Pow(b, 1) == b;
    assert Squared(b, 1) == Pow(b, 2);
    assert Squared(b, 2) == Pow(b, 4);
    assert Squared(b, 3) == Pow(b, 8);
  }

  function Square(s: real): (x: real)
    ensures s > 0.0 ==> x > 0.0
    ensures 0.0 < s < 1.0 ==> x < 1.0
    ensures s >= 1.0 ==> x >= s
  {
    Product(s, s)
  }

  /** A Newton step squares both distances to the two roots. */
  lemma StepSquares(x: real, s: real, z: real)
    requires z > 0.0 && x == Square(s)
    ensures 2.0 * z * (NewtonStep(x, z) - s) == (z - s) * (z - s)
    ensures 2.0 * z * (NewtonStep(x, z) + s) == (z + s) * (z + s)
  {
    var y := x / z;
    assert z * y == s * s;
    assert 2.0 * z * NewtonStep(x, z) == z * z + z * y;
  }

  /** z is as far from s, weighted by p, as it is from -s, weighted by q. */
  ghost predicate Balanced(z: real, s: real, p: real, q: real) {
    (z - s) * p == (z + s) * q
  }

  lemma IdentityBase(s: real)
    ensures Balanced(1.0, s, 1.0 + s, 1.0 - s)
  {
  }

  lemma IdentityStep(x: real, s: real, z: real, p: real, q: real)
    requires z > 0.0 && x == Square(s) && Balanced(z, s, p, q)
    ensures Balanced(NewtonStep(x, z), s, p * p, q * q)
  {
    var z' := NewtonStep(x, z);
    StepSquares(x, s, z);
    SquareBoth(z - s, p, z + s, q);
    Regroup(2.0 * z, z' - s, p * p);
    Regroup(2.0 * z, z' + s, q * q);
    CancelEq(2.0 * z, (z' - s) * (p * p), (z' + s) * (q * q));
  }

  lemma {:induction false} IdentityAt(x: real, s: real, k: nat)
    requires 0.0 < x && x == Square(s)
    ensures Balanced(Newton(x, k), s, Squared(1.0 + s, k), Squared(1.0 - s, k))
  {
    if k == 0 {
      IdentityBase(s);
    } else {
      IdentityAt(x, s, k - 1);
      IdentityStep(x, s, Newton(x, k - 1), Squared(1.0 + s, k - 1), Squared(1.0 - s, k - 1));
    }
  }

  /** The exact error of the four steps on a ratio x that is the square of s below 1. */
  lemma NewtonErrorIdentity(x: real, s: real)
    requires 0.0 < s < 1.0 && x == Square(s)
    ensures (Root(x) - s) * Pow(1.0 + s, 16) == (Root(x) + s) * Pow(1.0 - s, 16)
    ensures s <= Root(x) <= 1.0
  {
    IdentityAt(x, s, 4);
    SixteenthPower(1.0 + s);
    SixteenthPower(1.0 - s);
    NewtonBounds(x, 4);
    SquareRoots(s, Newton(x, 4));
  }

  lemma {:induction false} SquaredBound(a: real, b: real, r: real, k: nat)
    requires 0.0 <= a <= r * b && b >= 0.0
    ensures 0.0 <= Squared(a, k) <= Squared(r, k) * Squared(b, k) && Squared(b, k) >= 0.0
  {
    if k > 0 {
      SquaredBound(a, b, r, k - 1);
      var a', b', r' := Squared(a, k - 1), Squared(b, k - 1), Squared(r, k - 1);
      assert a' * a' <= (r' * b') * (r' * b');
      assert (r' * b') * (r' * b') == (r' * r') * (b' * b');
    }
  }

  lemma OneMoreIsPositive(s: real, k: nat)
    requires s >= 0.0
    ensures Squared(1.0 + s, k) >= 1.0
  {
    if k > 0 {
      OneMoreIsPositive(s, k - 1);
      var h := Squared(1.0 + s, k - 1);
      assert h * h >= h;
    }
  }

  lemma BoundError(z: real, s: real, p: real, q: real, r16: real, kappa: real)
    requires z >= s > 0.0 && p >= 1.0 && (z - s) * p == (z + s) * q
    requires q <= r16 * p && r16 <= kappa < 1.0
    ensures (z - s) * (1.0 - kappa) <= 2.0 * s * kappa
  {
    Scale(r16, kappa, p);
    Scale(q, kappa * p, z + s);
    Regroup(z + s, kappa, p);
    assert q * (z + s) == (z + s) * q && (kappa * p) * (z + s) == (z + s) * (kappa * p);
    CancelLe(z - s, (z + s) * kappa, p);
  }

  /** If (1-s)/(1+s) is at most r, the error is at most 2s * r^16 / (1 - r^16). */
  lemma ErrorBound(x: real, s: real, r: real, kappa: real)
    requires 0.0 < s < 1.0 && x == Square(s) && 1.0 - s <= r * (1.0 + s)
    requires Squared(r, 4) <= kappa < 1.0
    ensures (Root(x) - s) * (1.0 - kappa) <= 2.0 * s * kappa
  {
    NewtonErrorIdentity(x, s);
    IdentityAt(x, s, 4);
    SquaredBound(1.0 - s, 1.0 + s, r, 4);
    OneMoreIsPositive(s, 4);
    BoundError(Root(x), s, Squared(1.0 + s, 4), Squared(1.0 - s, 4), Squared(r, 4), kappa);
  }

  lemma PowerTable(r: real)
    ensures var r2 := r * r; var r4 := r2 * r2; var r8 := r4 * r4; Squared(r, 4) == r8 * r8
  {
    assert Squared(r, 1) == r * r;
    assert Squared(r, 2) == Squared(r, 1) * Squared(r, 1);
    assert Squared(r, 3) == Squared(r, 2) * Squared(r, 2);
  }

  lemma PowerTables()
    ensures Squared(0.8182, 4) <= 0.0404
    ensures Squared(0.7938, 4) <= 0.0249
    ensures Squared(0.6807, 4) <= 0.0022
  {
    PowerTable(0.8182);
    PowerTable(0.7938);
    PowerTable(0.6807);
  }

  /** From one tenth on, the estimate of the root is less than one quality point too high. */
  lemma LessThanOnePoint(s: real)
    requires 0.1 <= s < 1.0
    ensures 100.0 * s <= 100.0 * Root(Square(s)) < 100.0 * s + 1.0
  {
    NewtonErrorIdentity(Square(s), s);
    PowerTables();
    if s <= 0.115 {
      ErrorBound(Square(s), s, 0.8182, 0.0404);
    } else if s <= 0.19 {
      ErrorBound(Square(s), s, 0.7938, 0.0249);
    } else {
      ErrorBound(Square(s), s, 0.6807, 0.0022);
    }
  }

  /** The estimate is never below the true quality, and at most one point above it. */
  ghost predicate WithinOne(pixels: int, s: real) {
    Finish(pixels, s) <= Finish(pixels, Root(Square(s))) <= Finish(pixels, s) + 1
  }

  lemma TinyRoot(s: real)
    requires 0.0 < s < 0.1
    ensures Root(Square(s)) < 0.109
  {
    Scale(s, 0.1, s);
    RootMonotone(Square(s), Square(0.1));
    PowerTables();
    ErrorBound(Square(0.1), 0.1, 0.8182, 0.0404);
  }

  lemma TruncatedWithinOne(r: real, r': real)
    requires r <= r' < r + 1.0
    ensures Truncated(r') <= Truncated(r) + 1
  {
  }

  lemma WithinOneBelow(pixels: int, s: real)
    requires 0.0 < s < 1.0 && (s >= 0.1 || pixels >= 3_000_000)
    ensures WithinOne(pixels, s)
  {
    NewtonErrorIdentity(Square(s), s);
    var z := Root(Square(s));
    FinishMonotone(pixels, pixels, s, z);
    if s >= 0.1 {
      LessThanOnePoint(s);
      TruncatedWithinOne(100.0 * s + FineTuning(pixels), 100.0 * z + FineTuning(pixels));
    } else {
      TinyRoot(s);
      TruncatedMonotone(100.0 * z + FineTuning(pixels), 10.9);
    }
  }

  /** A small image with a tiny target: quality 12 where the true root gives 10. */
  lemma SmallImageOff(pixels: int)
    requires pixels < 3_000_000
    ensures Finish(pixels, 0.05) == 10 && Finish(pixels, Root(Square(0.05))) == 12
  {
    var s := 0.05;
    var z := Root(Square(s));
    IdentityAt(Square(s), s, 4);
    PowerTable(1.05);
    PowerTable(0.95);
    assert 1.0 + s == 1.05 && 1.0 - s == 0.95;
    assert 0.07 < z < 0.08;
  }

  /** Below one, the estimate is within one point of the truth for all ratios exactly from 3 MP on. */
  lemma WithinOneIff(pixels: int)
    ensures (forall s :: 0.0 < s < 1.0 ==> WithinOne(pixels, s)) <==> pixels >= 3_000_000
  {
    if pixels >= 3_000_000 {
      forall s | 0.0 < s < 1.0
        ensures WithinOne(pixels, s)
      {
        WithinOneBelow(pixels, s);
      }
    } else {
      SmallImageOff(pixels);
      assert !WithinOne(pixels, 0.05);
    }
  }

  // ---- Small images and small targets ----

  /** The least root that puts a small image's estimate two points above the quality for s. */
  function Limit(s: real): real {
    if s < 0.06 then 0.07 else ((100.0 * s).Floor + 2) as real / 100.0
  }

  /** c is farther from s, weighted by p, than from -s, weighted by q. */
  predicate Favours(c: real, s: real, p: real, q: real) {
    (c + s) * q < (c - s) * p
  }

  /** Under 3 MP and below one tenth, whether the Newton root stays below that limit, in terms of s alone. */
  predicate TinyAccurate(s: real) {
    Favours(Limit(s), s, Pow(1.0 + s, 16), Pow(1.0 - s, 16))
  }

  lemma BelowOneTimes(g: real, h: real, x: real)
    requires 0.0 < g < 1.0 && 0.0 < h < 1.0 && x == g * h
    ensures 0.0 < x < 1.0
  {
    Positive(g, h);
    Positive(1.0 - g, h);
  }

  lemma {:induction false} LessThanOneShrinks(b: real, k: nat)
    requires 0.0 < b < 1.0
    ensures 0.0 < Squared(b, k) < 1.0
  {
    if k > 0 {
      LessThanOneShrinks(b, k - 1);
      BelowOneTimes(Squared(b, k - 1), Squared(b, k - 1), Squared(b, k));
    }
  }

  lemma BelowIff(z: real, s: real, c: real, p: real, q: real)
    requires Balanced(z, s, p, q) && q < p
    ensures z < c <==> Favours(c, s, p, q)
  {
    assert (c - s) * p - (c + s) * q == (c - z) * (p - q);
    if z < c {
      Positive(c - z, p - q);
    } else {
      Scale(c - z, 0.0, p - q);
    }
  }

  /** The two powers that decide, with the identity that ties them to the root. */
  lemma PowersOf(s: real) returns (p: real, q: real)
    requires 0.0 < s < 1.0
    ensures p == Pow(1.0 + s, 16) && q == Pow(1.0 - s, 16) && q < p
    ensures Balanced(Root(Square(s)), s, p, q) && s <= Root(Square(s))
  {
    p, q := Pow(1.0 + s, 16), Pow(1.0 - s, 16);
    NewtonErrorIdentity(Square(s), s);
    SixteenthPower(1.0 + s);
    SixteenthPower(1.0 - s);
    OneMoreIsPositive(s, 4);
    LessThanOneShrinks(1.0 - s, 4);
  }

  lemma TinyWithin(pixels: int, s: real, z: real)
    requires pixels < 3_000_000 && 0.0 < s < 0.1 && s <= z < 0.109
    ensures Finish(pixels, s) <= Finish(pixels, z)
    ensures Finish(pixels, z) <= Finish(pixels, s) + 1 <==> z < Limit(s)
  {
    FinishMonotone(pixels, pixels, s, z);
  }

  lemma TinyFromPowers(pixels: int, s: real, z: real, p: real, q: real)
    requires pixels < 3_000_000 && 0.0 < s < 0.1 && s <= z < 0.109
    requires Balanced(z, s, p, q) && q < p
    ensures Finish(pixels, s) <= Finish(pixels, z)
    ensures Finish(pixels, z) <= Finish(pixels, s) + 1 <==> Favours(Limit(s), s, p, q)
  {
    TinyWithin(pixels, s, z);
    BelowIff(z, s, Limit(s), p, q);
  }

  /** Under 3 MP and below one tenth the estimate is within one point exactly when `TinyAccurate` says so. */
  lemma TinyIff(pixels: int, s: real)
    requires pixels < 3_000_000 && 0.0 < s < 0.1
    ensures WithinOne(pixels, s) <==> TinyAccurate(s)
  {
    var p, q := PowersOf(s);
    TinyRoot(s);
    TinyFromPowers(pixels, s, Root(Square(s)), p, q);
  }

  // ---- The seam at one ----

  /** Returning the ratio itself from 1 on is harmless exactly up to 20 MP. */
  lemma SeamIff(pixels: int)
    ensures (forall s :: s >= 1.0 ==> Finish(pixels, Root(Square(s))) == Finish(pixels, s)) <==> pixels <= 20_000_000
  {
    if pixels <= 20_000_000 {
      forall s | s >= 1.0
        ensures Finish(pixels, Root(Square(s))) == Finish(pixels, s)
      {
        assert s * s >= 1.0;
        TruncatedMonotone(100.0, 100.0 * s + FineTuning(pixels));
        TruncatedMonotone(100.0, 100.0 * (s * s) + FineTuning(pixels));
      }
    } else {
      var s := 1.02;
      assert s * s == 1.0404;
      assert Finish(pixels, Root(Square(s))) == 99 && Finish(pixels, s) == 97;
    }
  }

  /** The percentages of s and of its square, cut to integers, for s from one on. */
  lemma SeamValues(pixels: int, s: real)
    requires pixels > 20_000_000 && s >= 1.0
    ensures Finish(pixels, s) == (if s >= 1.05 then 100 else (100.0 * s).Floor - 5)
    ensures Finish(pixels, Root(Square(s)))
         == (if (100.0 * Square(s)).Floor >= 105 then 100 else (100.0 * Square(s)).Floor - 5)
    ensures (100.0 * s).Floor <= (100.0 * Square(s)).Floor
  {
    assert Square(s) >= s;
  }

  /** Above 20 MP, where from one on the estimate is the true quality, and where it is within a point of it. */
  lemma SeamAbove(pixels: int, s: real)
    requires pixels > 20_000_000 && s >= 1.0
    ensures Finish(pixels, Root(Square(s))) == Finish(pixels, s)
            <==> s >= 1.05 || (100.0 * Square(s)).Floor == (100.0 * s).Floor
    ensures WithinOne(pixels, s) <==> s >= 1.04 || (100.0 * Square(s)).Floor <= (100.0 * s).Floor + 1
  {
    SeamValues(pixels, s);
  }

  /** Between 3 and 20 MP the estimate is the true percentage or one more, whatever the target. */
  lemma AccurateMidRange(pixels: int, s: real)
    requires 3_000_000 <= pixels <= 20_000_000 && s > 0.0
    ensures var ideal := Clamp(Truncated(100.0 * s), 10, 100);
            ideal <= Finish(pixels, Root(Square(s))) <= ideal + 1
  {
    if s < 1.0 {
      WithinOneBelow(pixels, s);
    } else {
      SeamIff(pixels);
    }
  }

  // ---- The size model ----

  /** s is the quality fraction at which the size model, bytes = pixels * s^2 * 0.18, yields the target. */
  ghost predicate MeetsTarget(pixels: int, targetSizeKB: int, s: real) {
    s > 0.0 && pixels as real * 0.18 * Square(s) == (targetSizeKB * 1024) as real
  }

  lemma RatioIsSquare(pixels: int, targetSizeKB: int, s: real)
    requires pixels > 0 && MeetsTarget(pixels, targetSizeKB, s)
    ensures Ratio(pixels, targetSizeKB) == Square(s)
  {
    var d := pixels as real * 0.18;
    var q := Ratio(pixels, targetSizeKB);
    assert d * q == d * Square(s);
    CancelEq(d, q, Square(s));
  }

  /** Whether the estimate is accurate to a point for an image whose target is met at the fraction s. */
  predicate Accurate(pixels: int, s: real) {
    if s >= 1.0 then
      pixels <= 20_000_000 || s >= 1.04 || (100.0 * Square(s)).Floor <= (100.0 * s).Floor + 1
    else
      pixels >= 3_000_000 || s >= 0.1 || TinyAccurate(s)
  }

  lemma AccurateIff(pixels: int, s: real)
    requires s > 0.0
    ensures WithinOne(pixels, s) <==> Accurate(pixels, s)
  {
    if s >= 1.0 {
      if pixels <= 20_000_000 {
        SeamIff(pixels);
      } else {
        SeamAbove(pixels, s);
      }
    } else if pixels >= 3_000_000 || s >= 0.1 {
      WithinOneBelow(pixels, s);
    } else {
      TinyIff(pixels, s);
    }
  }

  /** The quality that the documentation intends for the fraction s: its percentage, five more or less by image size. */
  function Intended(pixels: int, s: real): int {
    var percent := if pixels > 20_000_000 then 100.0 * s - 5.0
                   else if pixels < 3_000_000 then 100.0 * s + 5.0
                   else 100.0 * s;
    if percent < 11.0 then 10 else if percent >= 100.0 then 100 else percent.Floor
  }

  lemma FinishIsIntended(pixels: int, s: real)
    ensures Finish(pixels, s) == Intended(pixels, s)
  {
  }

  /**
   When the estimate inverts the size model: for every image and target it is the intended
   quality for the fraction that meets the target, or one point more, exactly when
   `Accurate` holds.
   */
  lemma EstimateInvertsModel(pixels: int, targetSizeKB: int, s: real)
    requires pixels > 0 && MeetsTarget(pixels, targetSizeKB, s)
    ensures Intended(pixels, s) <= Estimate(pixels, targetSizeKB) <= Intended(pixels, s) + 1 <==> Accurate(pixels, s)
  {
    RatioIsSquare(pixels, targetSizeKB, s);
    AccurateIff(pixels, s);
    FinishIsIntended(pixels, s);
  }

  /** The least root that gives a higher quality than s does. */
  function NextRoot(pixels: int, s: real): real {
    var least := if pixels > 20_000_000 then 0.16 else if pixels < 3_000_000 then 0.06 else 0.11;
    if s < least then least else ((100.0 * s).Floor + 1) as real / 100.0
  }

  /** Whether the estimate is the intended quality itself, in terms of s alone. */
  predicate Exact(pixels: int, s: real) {
    if s >= 1.0 then pixels <= 20_000_000 || s >= 1.05 || (100.0 * Square(s)).Floor == (100.0 * s).Floor
    else (pixels < 3_000_000 && s >= 0.95) || Favours(NextRoot(pixels, s), s, Pow(1.0 + s, 16), Pow(1.0 - s, 16))
  }

  lemma SmallValue(pixels: int, x: real)
    requires pixels < 3_000_000 && 0.0 < x <= 1.0
    ensures Finish(pixels, x) == if x < 0.06 then 10 else if x >= 0.95 then 100 else (100.0 * x).Floor + 5
  {
  }

  lemma MidValue(pixels: int, x: real)
    requires 3_000_000 <= pixels <= 20_000_000 && 0.0 < x <= 1.0
    ensures Finish(pixels, x) == if x < 0.11 then 10 else (100.0 * x).Floor
  {
  }

  lemma LargeValue(pixels: int, x: real)
    requires pixels > 20_000_000 && 0.0 < x <= 1.0
    ensures Finish(pixels, x) == if x < 0.16 then 10 else (100.0 * x).Floor - 5
  {
  }

  lemma FloorsEqual(s: real, z: real)
    requires 0.0 < s <= z
    ensures (100.0 * z).Floor == (100.0 * s).Floor <==> z < ((100.0 * s).Floor + 1) as real / 100.0
    ensures s < ((100.0 * s).Floor + 1) as real / 100.0
  {
  }

  lemma SameQuality(pixels: int, s: real, z: real)
    requires 0.0 < s < 1.0 && s <= z <= 1.0
    ensures Finish(pixels, z) == Finish(pixels, s) <==> (pixels < 3_000_000 && s >= 0.95) || z < NextRoot(pixels, s)
  {
    FloorsEqual(s, z);
    if pixels < 3_000_000 {
      SmallValue(pixels, s);
      SmallValue(pixels, z);
    } else if pixels <= 20_000_000 {
      MidValue(pixels, s);
      MidValue(pixels, z);
    } else {
      LargeValue(pixels, s);
      LargeValue(pixels, z);
    }
  }

  lemma SameFromPowers(pixels: int, s: real, z: real, p: real, q: real)
    requires 0.0 < s < 1.0 && s <= z <= 1.0 && Balanced(z, s, p, q) && q < p
    ensures Finish(pixels, z) == Finish(pixels, s)
            <==> (pixels < 3_000_000 && s >= 0.95) || Favours(NextRoot(pixels, s), s, p, q)
  {
    SameQuality(pixels, s, z);
    BelowIff(z, s, NextRoot(pixels, s), p, q);
  }

  lemma RootAtMostOne(s: real)
    requires 0.0 < s < 1.0
    ensures Root(Square(s)) <= 1.0
  {
    NewtonBounds(Square(s), 4);
  }

  lemma ExactIff(pixels: int, s: real)
    requires s > 0.0
    ensures Finish(pixels, Root(Square(s))) == Finish(pixels, s) <==> Exact(pixels, s)
  {
    if s < 1.0 {
      var p, q := PowersOf(s);
      RootAtMostOne(s);
      SameFromPowers(pixels, s, Root(Square(s)), p, q);
    } else if pixels <= 20_000_000 {
      SeamIff(pixels);
    } else {
      SeamAbove(pixels, s);
    }
  }

  /** For every image and target, exactly when the estimate is the intended quality. */
  lemma EstimateExactIff(pixels: int, targetSizeKB: int, s: real)
    requires pixels > 0 && MeetsTarget(pixels, targetSizeKB, s)
    ensures Estimate(pixels, targetSizeKB) == Intended(pixels, s) <==> Exact(pixels, s)
  {
    RatioIsSquare(pixels, targetSizeKB, s);
    ExactIff(pixels, s);
    FinishIsIntended(pixels, s);
  }

  /** Between 3 and 20 MP that leaves two possibilities: the percentage, or one more. */
  lemma MidRangeExactly(pixels: int, targetSizeKB: int, s: real)
    requires 3_000_000 <= pixels <= 20_000_000 && MeetsTarget(pixels, targetSizeKB, s)
    ensures Estimate(pixels, targetSizeKB)
         == Clamp(Truncated(100.0 * s), 10, 100) + if Exact(pixels, s) then 0 else 1
  {
    RatioIsSquare(pixels, targetSizeKB, s);
    AccurateMidRange(pixels, s);
    EstimateExactIff(pixels, targetSizeKB, s);
  }

  /** An ordinary photograph, 3200 by 3200, and a target of 450 KB, a quarter of its size at quality 100. */
  lemma OrdinaryPhoto(size: Size, targetSizeKB: int)
    requires size == Size(3200, 3200) && targetSizeKB == 450
    ensures ValidateImage(Some(size)) == Valid && MeetsTarget(size.width * size.height, targetSizeKB, 0.5)
    ensures Estimate(size.width * size.height, targetSizeKB) == 50
  {
    assert Square(0.5) == 0.25;
    RatioIsSquare(10_240_000, targetSizeKB, 0.5);
    NewtonErrorIdentity(0.25, 0.5);
    ErrorBound(0.25, 0.5, 0.6807, 0.0022);
    PowerTables();
  }

  /** Targets above the size at quality 100: the estimate is the model's quality itself exactly in these cases. */
  lemma EstimateAtSeam(pixels: int, targetSizeKB: int, s: real)
    requires pixels > 0 && MeetsTarget(pixels, targetSizeKB, s) && s >= 1.0
    ensures Estimate(pixels, targetSizeKB) == Intended(pixels, s)
            <==> pixels <= 20_000_000 || s >= 1.05 || (100.0 * Square(s)).Floor == (100.0 * s).Floor
  {
    FinishIsIntended(pixels, s);
    RatioIsSquare(pixels, targetSizeKB, s);
    if pixels <= 20_000_000 {
      SeamIff(pixels);
    } else {
      SeamAbove(pixels, s);
    }
  }

  /** An accepted image of 128 MP and a target of 23409 KB: quality 99 where the model's own solution gives 97. */
  lemma TwoPointsOffAtSeam(size: Size, targetSizeKB: int, s: real)
    requires size == Size(16000, 8000) && targetSizeKB == 23_409 && s == 1.02
    ensures var pixels := size.width * size.height;
            && ValidateImage(Some(size)) == Valid && MeetsTarget(pixels, targetSizeKB, s)
            && Estimate(pixels, targetSizeKB) == 99 && Intended(pixels, s) == 97
  {
    assert Square(s) == 1.0404;
    RatioIsSquare(128_000_000, targetSizeKB, s);
  }

  /** A product with a known factor bounds the other factor. */
  lemma FactorBelow(a: real, x: real, y: real)
    requires a > 0.0 && a * x < a * y
    ensures x < y
  {
    if x >= y {
      Scale(y, x, a);
    }
  }

  /** The size model's weight of the pixels, at nine hundredths, stays under one kilobyte. */
  lemma WeightBelow(pixels: int)
    requires 0 < pixels <= 702_331
    ensures var a := pixels as real * 0.18; a > 0.0 && a * 0.0081 < 1024.0
  {
  }

  lemma TargetPositive(a: real, x: real, target: int)
    requires a > 0.0 && x > 0.0 && a * x == (target * 1024) as real
    ensures target >= 1 && a * x >= 1024.0
  {
    Positive(a, x);
  }

  lemma FractionAbove(pixels: int, targetSizeKB: int, s: real)
    requires 0 < pixels <= 702_331 && MeetsTarget(pixels, targetSizeKB, s)
    ensures targetSizeKB >= 1 && s > 0.09
  {
    var a := pixels as real * 0.18;
    WeightBelow(pixels);
    TargetPositive(a, Square(s), targetSizeKB);
    FactorBelow(a, 0.0081, Square(s));
    if s <= 0.09 {
      Scale(s, 0.09, s);
      Scale(s, 0.09, 0.09);
    }
  }

  lemma WithinOneFrom009(pixels: int, s: real)
    requires pixels < 3_000_000 && 0.09 <= s < 0.1
    ensures WithinOne(pixels, s)
  {
    var z := Root(Square(s));
    NewtonErrorIdentity(Square(s), s);
    TinyRoot(s);
    FinishMonotone(pixels, pixels, s, z);
    TruncatedMonotone(100.0 * z + 5.0, 15.9);
    TruncatedMonotone(14.0, 100.0 * s + 5.0);
  }

  /** Up to 702331 pixels every target is met to a point: no fraction is below nine hundredths. */
  lemma SmallImagesAccurate(pixels: int, targetSizeKB: int, s: real)
    requires 0 < pixels <= 702_331 && MeetsTarget(pixels, targetSizeKB, s)
    ensures WithinOne(pixels, s) && Accurate(pixels, s)
    ensures Intended(pixels, s) <= Estimate(pixels, targetSizeKB) <= Intended(pixels, s) + 1
  {
    FractionAbove(pixels, targetSizeKB, s);
    RatioIsSquare(pixels, targetSizeKB, s);
    if s < 0.1 {
      WithinOneFrom009(pixels, s);
    }
    AccurateIff(pixels, s);
    FinishIsIntended(pixels, s);
  }

  lemma RootAt0899()
    ensures Root(Square(0.0899)) >= 0.1
  {
    var s := 0.0899;
    IdentityAt(Square(s), s, 4);
    PowerTable(1.0899);
    PowerTable(0.9101);
    assert 1.0 + s == 1.0899 && 1.0 - s == 0.9101;
  }

  /** One pixel more, 284 by 2473, and a target of 1 KB: quality 15 where the model's own solution gives 13. */
  lemma FirstInaccurate(s: real)
    requires MeetsTarget(702_332, 1, s)
    ensures ValidateImage(Some(Size(284, 2473))) == Valid && 284 * 2473 == 702_332
    ensures Estimate(702_332, 1) == 15 && Intended(702_332, s) == 13
  {
    var a := 702_332.0 * 0.18;
    FactorBelow(a, Square(s), 0.0081);
    FactorBelow(a, 0.0899 * 0.0899, Square(s));
    SquareRoots(0.0899, s);
    SquareRoots(s, 0.09);
    RatioIsSquare(702_332, 1, s);
    RootAt0899();
    RootMonotone(Square(0.0899), Square(s));
    TinyRoot(s);
  }

  lemma RootAt0533()
    ensures 0.07 < Root(Square(4.0 / 75.0)) < 0.08
  {
    var s := 4.0 / 75.0;
    IdentityAt(Square(s), s, 4);
    PowerTable(79.0 / 75.0);
    PowerTable(71.0 / 75.0);
    assert 1.0 + s == 79.0 / 75.0 && 1.0 - s == 71.0 / 75.0;
  }

  /** An accepted image of 2 MP and a target of 1 KB: quality 12 where the model's own solution gives 10. */
  lemma TwoPointsOffSmall(size: Size, targetSizeKB: int, s: real)
    requires size == Size(2000, 1000) && targetSizeKB == 1 && s == 4.0 / 75.0
    ensures var pixels := size.width * size.height;
            && ValidateImage(Some(size)) == Valid && MeetsTarget(pixels, targetSizeKB, s)
            && Estimate(pixels, targetSizeKB) == 12 && Intended(pixels, s) == 10
  {
    assert Square(s) == 16.0 / 5625.0;
    RatioIsSquare(2_000_000, targetSizeKB, s);
    RootAt0533();
  }
}
