/** Strided planes of samples, and copying them at another size. */
module Planes {
  import opened Bytes
  import opened Sampling

  /** The position of column x of row y. */
  function At(y: nat, stride: nat, x: nat): nat {
    y * stride + x
  }

  /** A plane of h rows of w samples fits a buffer of the given length. */
  predicate Fits(len: nat, stride: nat, w: nat, h: nat) {
    w <= stride && (h > 0 ==> At(h - 1, stride, w) <= len)
  }

  lemma AtInside(len: nat, stride: nat, w: nat, h: nat, y: nat, x: nat)
    requires Fits(len, stride, w, h) && y < h && x < w
    ensures At(y, stride, x) < len
  {
    MulLe(y, h - 1, stride);
  }

  lemma FitsSmaller(len: nat, stride: nat, w: nat, h: nat, w': nat, h': nat)
    requires Fits(len, stride, w, h) && w' <= w && h' <= h
    ensures Fits(len, stride, w', h')
  {
    if h' > 0 {
      MulLe(h' - 1, h - 1, stride);
    }
  }

  /** Different cells lie at different positions. */
  lemma AtDistinct(stride: nat, y: nat, x: nat, y': nat, x': nat)
    requires x < stride && x' < stride && (y != y' || x != x')
    ensures At(y, stride, x) != At(y', stride, x')
  {
    if y < y' {
      MulLe(y + 1, y', stride);
    } else if y' < y {
      MulLe(y' + 1, y, stride);
    }
  }

  /** A source dimension as far as it is read: a zero chroma size still reads sample zero. */
  function Reach(n: nat): nat {
    if n == 0 then 1 else n
  }

  /** The position read for destination cell (y, x). */
  function SourceAt(y: nat, x: nat, stride: nat, sw: nat, sh: nat, w: nat, h: nat): nat
    requires w > 0 && h > 0
  {
    At(Sample(y, sh, h), stride, Sample(x, sw, w))
  }

  lemma SourceInside(len: nat, stride: nat, sw: nat, sh: nat, w: nat, h: nat, y: nat, x: nat)
    requires Fits(len, stride, Reach(sw), Reach(sh)) && y < h && x < w
    ensures SourceAt(y, x, stride, sw, sh, w, h) < len
  {
    SampleInside(x, sw, w);
    SampleInside(y, sh, h);
    AtInside(len, stride, Reach(sw), Reach(sh), Sample(y, sh, h), Sample(x, sw, w));
  }

  /** The picture to paint: what each destination cell should hold. */
  type Picture = (nat, nat) -> byte

  /** Nearest-neighbour copy of a plane of sw x sh samples onto w x h cells. */
  function Copy(s: seq<byte>, stride: nat, sw: nat, sh: nat, w: nat, h: nat): Picture
    requires w > 0 && h > 0
  {
    (y: nat, x: nat) => var k := SourceAt(y, x, stride, sw, sh, w, h); if k < |s| then s[k] else 0
  }

  ghost predicate CellIs(d: seq<byte>, stride: nat, y: nat, x: nat, v: byte) {
    At(y, stride, x) < |d| && d[At(y, stride, x)] == v
  }

  /** The cells before row y, and those of row y before column x, hold the picture. */
  ghost predicate PaintedTo(d: seq<byte>, stride: nat, w: nat, f: Picture, y: nat, x: nat) {
    forall v: nat, u: nat :: u < w && (v < y || (v == y && u < x)) ==> CellIs(d, stride, v, u, f(v, u))
  }

  /** All w x h cells hold the picture. */
  ghost predicate Painted(d: seq<byte>, stride: nat, w: nat, h: nat, f: Picture) {
    forall y: nat, x: nat :: y < h && x < w ==> CellIs(d, stride, y, x, f(y, x))
  }

  ghost predicate Cell(k: nat, stride: nat, w: nat, h: nat) {
    exists y: nat, x: nat :: y < h && x < w && At(y, stride, x) == k
  }

  /** Nothing but the w x h cells differs. */
  ghost predicate OnlyCells(d: seq<byte>, before: seq<byte>, stride: nat, w: nat, h: nat) {
    |d| == |before| && forall k: nat :: k < |d| && !Cell(k, stride, w, h) ==> d[k] == before[k]
  }

  /** Painting the next cell. */
  lemma PaintCell(d: seq<byte>, d': seq<byte>, orig: seq<byte>, stride: nat, w: nat, h: nat, f: Picture, y: nat, x: nat)
    requires Fits(|d|, stride, w, h) && y < h && x < w && At(y, stride, x) < |d|
    requires d' == d[At(y, stride, x) := f(y, x)]
    requires PaintedTo(d, stride, w, f, y, x) && OnlyCells(d, orig, stride, w, h)
    ensures PaintedTo(d', stride, w, f, y, x + 1) && OnlyCells(d', orig, stride, w, h)
  {
    forall v: nat, u: nat | u < w && (v < y || (v == y && u < x + 1))
      ensures CellIs(d', stride, v, u, f(v, u))
    {
      if v != y || u != x {
        AtDistinct(stride, y, x, v, u);
        assert CellIs(d, stride, v, u, f(v, u));
      }
    }
    assert Cell(At(y, stride, x), stride, w, h);
  }

  lemma NextRow(d: seq<byte>, stride: nat, w: nat, f: Picture, y: nat)
    requires PaintedTo(d, stride, w, f, y, w)
    ensures PaintedTo(d, stride, w, f, y + 1, 0)
  {
  }

  /** The cells that may be written, counted by division: a position with a column below w in a row below h. */
  lemma CellByDivision(k: nat, stride: nat, w: nat, h: nat)
    requires 0 < stride && w <= stride
    ensures Cell(k, stride, w, h) <==> k / stride < h && k % stride < w
  {
    var q, r := k / stride, k % stride;
    assert At(q, stride, r) == k;
    if Cell(k, stride, w, h) {
      var y: nat, x: nat :| y < h && x < w && At(y, stride, x) == k;
      if y != q || x != r {
        AtDistinct(stride, y, x, q, r);
      }
    }
  }
}
