/** Conversion to integers, and the few facts on products of reals that the proofs cite one at a time. */
module RealArithmetic {

  /** Go's conversion of a float to an int: the fraction is dropped. */
  function Truncated(r: real): (t: int)
    ensures r >= 0.0 ==> t as real <= r < t as real + 1.0
    ensures r < 0.0 ==> t as real - 1.0 < r <= t as real
  {
    if r >= 0.0 then r.Floor else -((-r).Floor)
  }

  lemma Scale(a: real, b: real, c: real)
    requires a <= b && c >= 0.0
    ensures a * c <= b * c
  {
  }

  lemma CancelLe(a: real, b: real, c: real)
    requires a * c <= b * c && c > 0.0
    ensures a <= b
  {
    assert (a - b) * c <= 0.0;
  }

  lemma CancelEq(t: real, a: real, b: real)
    requires t > 0.0 && t * a == t * b
    ensures a == b
  {
    assert t * (a - b) == 0.0;
  }

  lemma Positive(a: real, b: real)
    requires a > 0.0 && b > 0.0
    ensures a * b > 0.0
  {
  }

  /** A product whose sign is known without looking inside. */
  function Product(a: real, b: real): (r: real)
    ensures a > 0.0 && b > 0.0 ==> r > 0.0
  {
    a * b
  }

  lemma SquareRoots(a: real, b: real)
    requires a * a <= b * b && b >= 0.0
    ensures a <= b
  {
    if a > b {
      assert a * a - b * b == (a - b) * (a + b);
      Positive(a - b, a + b);
    }
  }

  lemma Cross(a: real, z: real, b: real, w: real)
    requires a * z == b * w
    ensures (a - b) * z == b * (w - z)
  {
    assert (a - b) * z == a * z - b * z;
  }

  lemma SquareBoth(a: real, p: real, b: real, q: real)
    requires a * p == b * q
    ensures (a * a) * (p * p) == (b * b) * (q * q)
  {
    assert (a * a) * (p * p) == (a * p) * (a * p);
    assert (b * b) * (q * q) == (b * q) * (b * q);
  }

  lemma Regroup(a: real, b: real, c: real)
    ensures a * (b * c) == (a * b) * c
  {
  }
}
