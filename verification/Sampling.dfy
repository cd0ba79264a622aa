/** The 16.16 fixed-point index arithmetic of the nearest-neighbour scaler. */
module Sampling {

  /** `(src << 16) / dst` */
  function Ratio(src: nat, dst: nat): nat
    requires dst > 0
  {
    src * 65536 / dst
  }

  /** `(x * ratio) >> 16` */
  function Index(x: nat, ratio: nat): nat {
    x * ratio / 65536
  }

  /** The source column (or row) read for destination column (or row) `x`. */
  function Sample(x: nat, src: nat, dst: nat): nat
    requires dst > 0
  {
    Index(x, Ratio(src, dst))
  }

  // ---- Division facts ----

  lemma MulLe(a: nat, b: nat, c: nat)
    requires a <= b
    ensures a * c <= b * c
  {
  }

  lemma DivIs(n: nat, d: nat, q: nat)
    requires d > 0 && q * d <= n < (q + 1) * d
    ensures n / d == q
  {
    var r := n - q * d;
    assert n == q * d + r && 0 <= r < d;
    if n / d < q {
      MulLe(n / d + 1, q, d);
    } else if n / d > q {
      MulLe(q + 1, n / d, d);
    }
  }

  lemma Distribute(a: nat, b: nat, c: nat)
    ensures (a + b) * c == a * c + b * c
  {
  }

  lemma MulCancel(a: nat, b: nat, c: nat)
    requires a * c <= b * c && c > 0
    ensures a <= b
  {
    if b < a {
      MulLe(b + 1, a, c);
    }
  }

  lemma DivLe(m: nat, n: nat, d: nat)
    requires d > 0 && m <= n
    ensures m / d <= n / d
  {
    if n / d < m / d {
      MulLe(n / d + 1, m / d, d);
    }
  }

  lemma Swap(x: nat, r: nat, d: nat)
    ensures x * (r * d) == (x * r) * d
  {
  }

  // ---- Where samples lie ----

  /** Every sample lies inside the source. */
  lemma SampleInside(x: nat, src: nat, dst: nat)
    requires x < dst
    ensures src > 0 ==> Sample(x, src, dst) < src
    ensures src == 0 ==> Sample(x, src, dst) == 0
  {
    var r := Ratio(src, dst);
    assert r * dst <= src * 65536;
    if src > 0 {
      // x * r * dst <= x * src * 65536 < dst * src * 65536
      MulLe(r * dst, src * 65536, x);
      Swap(x, r, dst);
      if src * 65536 <= x * r {
        MulLe(src * 65536, x * r, dst);
        MulLe(x + 1, dst, src * 65536);
        assert false;
      }
    } else {
      assert r == 0;
    }
  }

  lemma SampleZero(src: nat, dst: nat)
    requires dst > 0
    ensures Sample(0, src, dst) == 0
  {
  }

  lemma FloorSum(a: nat, b: nat)
    ensures (a + b) / 65536 == a / 65536 + b / 65536 || (a + b) / 65536 == a / 65536 + b / 65536 + 1
  {
  }

  /** Consecutive samples are apart by the integer part of the ratio, or one more. */
  lemma SampleStep(x: nat, src: nat, dst: nat)
    requires dst > 0
    ensures var d := Sample(x + 1, src, dst) - Sample(x, src, dst);
            d == Ratio(src, dst) / 65536 || d == Ratio(src, dst) / 65536 + 1
  {
    var r := Ratio(src, dst);
    assert (x + 1) * r == x * r + r;
    FloorSum(x * r, r);
  }

  lemma {:induction false} SampleMonotone(x: nat, y: nat, src: nat, dst: nat)
    requires dst > 0 && x <= y
    ensures Sample(x, src, dst) <= Sample(y, src, dst)
    ensures y - x <= Sample(y, src, dst) - Sample(x, src, dst) || Ratio(src, dst) < 65536
    ensures Sample(y, src, dst) - Sample(x, src, dst) <= y - x || Ratio(src, dst) > 65536 || x == y
    decreases y
  {
    if x < y {
      SampleMonotone(x, y - 1, src, dst);
      SampleStep(y - 1, src, dst);
      var r := Ratio(src, dst);
      if r == 65536 {
        assert Sample(y, src, dst) == y && Sample(y - 1, src, dst) == y - 1;
      }
    }
  }

  ghost predicate NeverRepeats(src: nat, dst: nat)
    requires dst > 0
  {
    forall x: nat, y: nat :: x < y < dst ==> Sample(x, src, dst) < Sample(y, src, dst)
  }

  lemma {:induction false} Climb(x: nat, src: nat, dst: nat)
    requires x < dst && NeverRepeats(src, dst)
    ensures Sample(x, src, dst) >= x
  {
    if x > 0 {
      Climb(x - 1, src, dst);
      assert Sample(x - 1, src, dst) < Sample(x, src, dst);
    }
  }

  /** A source column is never read twice exactly when the image does not grow. */
  lemma NeverRepeatsIff(src: nat, dst: nat)
    requires src > 0 && dst > 0
    ensures NeverRepeats(src, dst) <==> src >= dst
  {
    if src >= dst {
      MulLe(dst, src, 65536);
      DivLe(65536 * dst, src * 65536, dst);
      assert 65536 * dst / dst == 65536 by { DivIs(65536 * dst, dst, 65536); }
      forall x: nat, y: nat | x < y < dst
        ensures Sample(x, src, dst) < Sample(y, src, dst)
      {
        SampleMonotone(x, y, src, dst);
      }
    } else if NeverRepeats(src, dst) {
      Climb(dst - 1, src, dst);
      SampleInside(dst - 1, src, dst);
      assert false;
    }
  }

  lemma RatioAtMostOne(src: nat, dst: nat)
    requires dst > 0 && src <= dst
    ensures Ratio(src, dst) <= 65536
  {
    MulLe(src, dst, 65536);
    DivLe(src * 65536, 65536 * dst, dst);
    DivIs(65536 * dst, dst, 65536);
  }

  /** Enlarging reads every source column up to the last one it reaches. */
  lemma {:induction false} NeverSkips(x: nat, src: nat, dst: nat, k: nat) returns (w: nat)
    requires src <= dst && x < dst && k <= Sample(x, src, dst)
    ensures w <= x && Sample(w, src, dst) == k
    decreases x
  {
    w := x;
    if k < Sample(x, src, dst) {
      RatioAtMostOne(src, dst);
      SampleZero(src, dst);
      SampleMonotone(x - 1, x, src, dst);
      w := NeverSkips(x - 1, src, dst, k);
    }
  }

  // ---- Accuracy ----

  /** The ideal nearest-neighbour column: the floor of the real quotient. */
  function Ideal(x: nat, src: nat, dst: nat): nat
    requires dst > 0
  {
    x * src / dst
  }

  lemma LostIdentity(x: nat, src: nat, dst: nat, r: nat, rem: nat, q: nat, m: nat)
    requires src * 65536 == r * dst + rem && x * src == q * dst + m
    ensures (x * r) * dst + x * rem == (q * 65536) * dst + m * 65536
  {
    calc {
      (x * r) * dst + x * rem;
      { Swap(x, r, dst); }
      x * (r * dst) + x * rem;
      x * (r * dst + rem);
      x * (src * 65536);
      (x * src) * 65536;
      (q * dst + m) * 65536;
      (q * dst) * 65536 + m * 65536;
      { Swap(65536, q, dst); }
      (q * 65536) * dst + m * 65536;
    }
  }

  lemma Between(n: nat, a: nat, d: nat, e: nat, m: nat)
    requires n * d == a * d + e && e <= m * 65536 && m < d
    ensures a <= n < a + 65536
  {
    MulCancel(a, n, d);
    Distribute(a, 65536, d);
    if a + 65536 <= n {
      MulLe(a + 65536, n, d);
      assert false;
    }
  }

  lemma Below(n: nat, a: nat, d: nat, e: nat)
    requires n * d + e == a * d && 0 < e <= 65536 * d && d > 0
    ensures a - 65536 <= n < a
  {
    if a <= n {
      MulLe(a, n, d);
      assert false;
    }
    Distribute(n, 65537, d);
    if n + 65536 < a {
      MulLe(n + 65537, a, d);
      assert false;
    }
  }

  lemma FromLoss(n: nat, q: nat, d: nat, lost: nat, m: nat, x: nat, rem: nat)
    requires n * d + lost == (q * 65536) * d + m * 65536
    requires m < d && rem < d && x <= 65536 && lost == x * rem
    ensures n / 65536 == if lost <= m * 65536 then q else q - 1
  {
    if lost <= m * 65536 {
      Between(n, q * 65536, d, m * 65536 - lost, m);
      DivIs(n, 65536, q);
    } else {
      MulLe(x, 65536, rem);
      Below(n, q * 65536, d, lost - m * 65536);
      DivIs(n, 65536, q - 1);
    }
  }

  /** The fixed-point column against the ideal one: equal, or one less, and exactly when. */
  lemma SampleAgainstIdeal(x: nat, src: nat, dst: nat)
    requires x < dst && x <= 65536
    ensures var lost := x * (src * 65536 % dst);
            Sample(x, src, dst)
            == if lost <= (x * src % dst) * 65536 then Ideal(x, src, dst) else Ideal(x, src, dst) - 1
  {
    var r, rem := Ratio(src, dst), src * 65536 % dst;
    var q, m := Ideal(x, src, dst), x * src % dst;
    LostIdentity(x, src, dst, r, rem, q, m);
    FromLoss(x * r, q, dst, x * rem, m, x, rem);
  }

  /** No error at all when the destination size divides the shifted source size. */
  lemma ExactWhenDividing(x: nat, src: nat, dst: nat)
    requires x < dst && x <= 65536 && src * 65536 % dst == 0
    ensures Sample(x, src, dst) == Ideal(x, src, dst)
  {
    SampleAgainstIdeal(x, src, dst);
  }

  /** The error does occur: 16 columns stretched to 100 read column 3 instead of 4. */
  lemma OneOff()
    ensures Sample(25, 16, 100) == 3 && Ideal(25, 16, 100) == 4
  {
  }

  // ---- Luma and chroma ----

  lemma HalfFloor(n: nat)
    ensures 2 * n / 65536 / 2 == n / 65536
  {
  }

  /**
   With even sizes the chroma planes, sampled at half size with their own ratio, are read
   exactly under the luma samples of the even rows and columns.
   */
  lemma Registration(c: nat, src: nat, dst: nat)
    requires src % 2 == 0 && dst % 2 == 0 && dst > 0
    ensures Ratio(src / 2, dst / 2) == Ratio(src, dst)
    ensures Sample(c, src / 2, dst / 2) == Sample(2 * c, src, dst) / 2
  {
    var s, d, r := src / 2, dst / 2, Ratio(src, dst);
    assert src == 2 * s && dst == 2 * d;
    assert r * (2 * d) <= 2 * s * 65536 < (r + 1) * (2 * d);
    assert r * (2 * d) == 2 * (r * d) && (r + 1) * (2 * d) == 2 * ((r + 1) * d);
    DivIs(s * 65536, d, r);
    assert (2 * c) * r == 2 * (c * r);
    HalfFloor(c * r);
  }
  // ---- Odd sizes ----

  /** Half of an even column's sample, rounded down, is the sample of half the column at the same ratio. */
  lemma HalfSample(c: nat, src: nat, dst: nat)
    requires dst > 0
    ensures Sample(2 * c, src, dst) / 2 == Index(c, Ratio(src, dst))
  {
    var r := Ratio(src, dst);
    assert (2 * c) * r == 2 * (c * r);
    HalfFloor(c * r);
  }

  /** Indices at two ratios are apart by the index at the difference, or one more. */
  lemma IndexApart(c: nat, r: nat, r': nat)
    requires r <= r'
    ensures Index(c, r) + Index(c, r' - r) <= Index(c, r') <= Index(c, r) + Index(c, r' - r) + 1
  {
    assert c * r' == c * r + c * (r' - r);
    FloorSum(c * r, c * (r' - r));
  }

  lemma DivBounds(n: nat, d: nat, q: nat)
    requires d > 0 && q == n / d
    ensures q * d <= n < q * d + d
  {
  }

  lemma TwiceAndRest(d: nat, q: nat, n: nat, r: nat)
    requires n == 2 * d + q
    ensures r * n == 2 * (d * r) + q * r
  {
  }

  lemma Commute(a: nat, b: nat)
    ensures a * b == b * a
  {
  }

  /** How far the chroma ratio can lie from the luma ratio, over all d = dst / 2 columns. */
  lemma RatiosApart(src: nat, dst: nat)
    requires dst >= 2
    ensures var (d, r, r') := (dst / 2, Ratio(src, dst), Ratio(src / 2, dst / 2));
            && 2 * (d * r') <= 2 * (d * r) + dst + (dst % 2) * r
            && 2 * (d * r) <= 2 * (d * r') + 65536 + dst
  {
    var (s, d, r, r') := (src / 2, dst / 2, Ratio(src, dst), Ratio(src / 2, dst / 2));
    var (p, q) := (src % 2, dst % 2);
    assert src * 65536 == 2 * (s * 65536) + p * 65536;
    DivBounds(src * 65536, dst, r);
    DivBounds(s * 65536, d, r');
    TwiceAndRest(d, q, dst, r);
    Commute(r', d);
  }

  /** How far the chroma column read can lie beyond the one belonging to the luma. */
  function Drift(src: nat, dst: nat): nat
    requires dst > 0
  {
    1 + (dst + (dst % 2) * Ratio(src, dst)) / 131072
  }

  /** The index at a small difference of ratios, bounded over the first d columns. */
  lemma IndexBelow(c: nat, d: nat, r: nat, r': nat, extra: nat)
    requires c <= d && r <= r' && 2 * (d * r') <= 2 * (d * r) + extra
    ensures Index(c, r' - r) <= extra / 131072
  {
    MulLe(c, d, r' - r);
    assert d * (r' - r) == d * r' - d * r;
    DivLe(2 * (c * (r' - r)), extra, 131072);
  }

  /**
   For all sizes, odd ones as well: the chroma column read is at most one before the column
   belonging to the luma sample, and at most `Drift` after it.
   */
  lemma ChromaDrift(c: nat, src: nat, dst: nat)
    requires 2 <= dst < 65536 && c < dst / 2
    ensures var own, taken := Sample(2 * c, src, dst) / 2, Sample(c, src / 2, dst / 2);
            own - 1 <= taken <= own + Drift(src, dst)
    ensures dst % 2 == 0 ==> Drift(src, dst) == 1
  {
    var (r, r') := (Ratio(src, dst), Ratio(src / 2, dst / 2));
    HalfSample(c, src, dst);
    RatiosApart(src, dst);
    if r <= r' {
      IndexApart(c, r, r');
      IndexBelow(c, dst / 2, r, r', dst + (dst % 2) * r);
    } else {
      IndexApart(c, r', r);
      IndexBelow(c, dst / 2, r', r, 65536 + dst);
    }
  }
}
