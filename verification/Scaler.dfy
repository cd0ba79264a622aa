/** The scaler of internal/converter/converter.go, writing destination planes in place. */
module Scaler {
  import opened Bytes
  import opened Sampling
  import opened Planes
  import opened ColorConversion
  import RealArithmetic
  import Validation
  import opened Wrappers

  /** Chroma subsampling: none, halved columns, halved rows, or both. */
  datatype Subsampling = R444 | R422 | R440 | R420
  {
    function ChromaWidth(w: nat): nat {
      if R422? || R420? then (w + 1) / 2 else w
    }

    function ChromaHeight(h: nat): nat {
      if R440? || R420? then (h + 1) / 2 else h
    }

    /** Row and column of the chroma sample that belongs to the luma sample at row y, column x. */
    function ChromaOf(y: nat, x: nat): (nat, nat) {
      (if R440? || R420? then y / 2 else y, if R422? || R420? then x / 2 else x)
    }
  }

  lemma TightFits(w: nat, h: nat)
    ensures Fits(w * h, w, w, h)
  {
    if h > 0 {
      assert (h - 1) * w + w == w * h;
    }
  }

  /** A Y'CbCr image whose origin is (0, 0). */
  class YCbCr {
    const Y: array<byte>
    const Cb: array<byte>
    const Cr: array<byte>
    const yStride: nat
    const cStride: nat
    const width: nat
    const height: nat
    const ratio: Subsampling

    /** Halved chroma sizes are rounded up. */
    predicate WellFormed()
    {
      && Fits(Y.Length, yStride, width, height)
      && Fits(Cb.Length, cStride, ratio.ChromaWidth(width), ratio.ChromaHeight(height))
      && Fits(Cr.Length, cStride, ratio.ChromaWidth(width), ratio.ChromaHeight(height))
      && Y != Cb && Y != Cr && Cb != Cr
    }

    ghost function Planes(): set<object> {
      {Y, Cb, Cr}
    }

    /** `image.NewYCbCr` for the 4:2:0 ratio: tight strides, all samples zero. */
    constructor (width: nat, height: nat)
      ensures WellFormed() && this.width == width && this.height == height && ratio == R420
      ensures yStride == width && cStride == (width + 1) / 2
      ensures fresh(Y) && fresh(Cb) && fresh(Cr)
      ensures Y.Length == width * height
      ensures Cb.Length == Cr.Length == ((width + 1) / 2) * ((height + 1) / 2)
      ensures (forall k :: 0 <= k < Y.Length ==> Y[k] == 0)
      ensures (forall k :: 0 <= k < Cb.Length ==> Cb[k] == 0) && forall k :: 0 <= k < Cr.Length ==> Cr[k] == 0
    {
      this.width, this.height, ratio := width, height, R420;
      yStride, cStride := width, (width + 1) / 2;
      TightFits(width, height);
      TightFits((width + 1) / 2, (height + 1) / 2);
      Y := new byte[width * height](_ => 0);
      Cb := new byte[((width + 1) / 2) * ((height + 1) / 2)](_ => 0);
      Cr := new byte[((width + 1) / 2) * ((height + 1) / 2)](_ => 0);
    }
  }

  /** The luma loop. */
  method ScaleLuma(src: array<byte>, srcStride: nat, srcW: nat, srcH: nat,
                   dst: array<byte>, dstStride: nat, dstW: nat, dstH: nat)
    requires src != dst && dstW > 0 && dstH > 0
    requires Fits(src.Length, srcStride, Reach(srcW), Reach(srcH)) && Fits(dst.Length, dstStride, dstW, dstH)
    modifies dst
    ensures Painted(dst[..], dstStride, dstW, dstH, Copy(src[..], srcStride, srcW, srcH, dstW, dstH))
    ensures OnlyCells(dst[..], old(dst[..]), dstStride, dstW, dstH)
  {
    ghost var f := Copy(src[..], srcStride, srcW, srcH, dstW, dstH);
    var xRatio := srcW * 65536 / dstW;
    var yRatio := srcH * 65536 / dstH;
    for y := 0 to dstH
      invariant PaintedTo(dst[..], dstStride, dstW, f, y, 0)
      invariant OnlyCells(dst[..], old(dst[..]), dstStride, dstW, dstH)
    {
      var srcY := y * yRatio / 65536;
      var dstOffset := y * dstStride;
      var srcOffset := srcY * srcStride;
      for x := 0 to dstW
        invariant PaintedTo(dst[..], dstStride, dstW, f, y, x)
        invariant OnlyCells(dst[..], old(dst[..]), dstStride, dstW, dstH)
      {
        var srcX := x * xRatio / 65536;
        AtInside(dst.Length, dstStride, dstW, dstH, y, x);
        SourceInside(src.Length, srcStride, srcW, srcH, dstW, dstH, y, x);
        ghost var before := dst[..];
        dst[dstOffset + x] := src[srcOffset + srcX];
        PaintCell(before, dst[..], old(dst[..]), dstStride, dstW, dstH, f, y, x);
      }
      NextRow(dst[..], dstStride, dstW, f, y);
    }
  }

  /** The chroma loop, writing both planes. */
  method ScaleChroma(srcCb: array<byte>, srcCr: array<byte>, srcStride: nat, cSrcW: nat, cSrcH: nat,
                     dstCb: array<byte>, dstCr: array<byte>, dstStride: nat, cDstW: nat, cDstH: nat)
    requires {srcCb, srcCr} !! {dstCb, dstCr} && dstCb != dstCr && cDstW > 0 && cDstH > 0
    requires Fits(srcCb.Length, srcStride, Reach(cSrcW), Reach(cSrcH))
    requires Fits(srcCr.Length, srcStride, Reach(cSrcW), Reach(cSrcH))
    requires Fits(dstCb.Length, dstStride, cDstW, cDstH) && Fits(dstCr.Length, dstStride, cDstW, cDstH)
    modifies dstCb, dstCr
    ensures Painted(dstCb[..], dstStride, cDstW, cDstH, Copy(srcCb[..], srcStride, cSrcW, cSrcH, cDstW, cDstH))
    ensures Painted(dstCr[..], dstStride, cDstW, cDstH, Copy(srcCr[..], srcStride, cSrcW, cSrcH, cDstW, cDstH))
    ensures OnlyCells(dstCb[..], old(dstCb[..]), dstStride, cDstW, cDstH)
    ensures OnlyCells(dstCr[..], old(dstCr[..]), dstStride, cDstW, cDstH)
  {
    ghost var fb := Copy(srcCb[..], srcStride, cSrcW, cSrcH, cDstW, cDstH);
    ghost var fr := Copy(srcCr[..], srcStride, cSrcW, cSrcH, cDstW, cDstH);
    var cxRatio := cSrcW * 65536 / cDstW;
    var cyRatio := cSrcH * 65536 / cDstH;
    for y := 0 to cDstH
      invariant PaintedTo(dstCb[..], dstStride, cDstW, fb, y, 0) && PaintedTo(dstCr[..], dstStride, cDstW, fr, y, 0)
      invariant OnlyCells(dstCb[..], old(dstCb[..]), dstStride, cDstW, cDstH)
      invariant OnlyCells(dstCr[..], old(dstCr[..]), dstStride, cDstW, cDstH)
    {
      var srcY := y * cyRatio / 65536;
      var dstOffset := y * dstStride;
      var srcOffset := srcY * srcStride;
      for x := 0 to cDstW
        invariant PaintedTo(dstCb[..], dstStride, cDstW, fb, y, x) && PaintedTo(dstCr[..], dstStride, cDstW, fr, y, x)
        invariant OnlyCells(dstCb[..], old(dstCb[..]), dstStride, cDstW, cDstH)
        invariant OnlyCells(dstCr[..], old(dstCr[..]), dstStride, cDstW, cDstH)
      {
        var srcX := x * cxRatio / 65536;
        AtInside(dstCb.Length, dstStride, cDstW, cDstH, y, x);
        AtInside(dstCr.Length, dstStride, cDstW, cDstH, y, x);
        SourceInside(srcCb.Length, srcStride, cSrcW, cSrcH, cDstW, cDstH, y, x);
        SourceInside(srcCr.Length, srcStride, cSrcW, cSrcH, cDstW, cDstH, y, x);
        ghost var beforeCb, beforeCr := dstCb[..], dstCr[..];
        dstCb[dstOffset + x] := srcCb[srcOffset + srcX];
        dstCr[dstOffset + x] := srcCr[srcOffset + srcX];
        PaintCell(beforeCb, dstCb[..], old(dstCb[..]), dstStride, cDstW, cDstH, fb, y, x);
        PaintCell(beforeCr, dstCr[..], old(dstCr[..]), dstStride, cDstW, cDstH, fr, y, x);
      }
      NextRow(dstCb[..], dstStride, cDstW, fb, y);
      NextRow(dstCr[..], dstStride, cDstW, fr, y);
    }
  }

  /** `dst` is `src` scaled plane by plane. */
  ghost predicate PlanesScaled(src: YCbCr, dst: YCbCr)
    requires dst.width >= 2 && dst.height >= 2
    reads src.Planes(), dst.Planes()
  {
    var (w, h) := (dst.width, dst.height);
    var (cw, ch, csw, csh) := (w / 2, h / 2, src.width / 2, src.height / 2);
    && Painted(dst.Y[..], dst.yStride, w, h, Copy(src.Y[..], src.yStride, src.width, src.height, w, h))
    && Painted(dst.Cb[..], dst.cStride, cw, ch, Copy(src.Cb[..], src.cStride, csw, csh, cw, ch))
    && Painted(dst.Cr[..], dst.cStride, cw, ch, Copy(src.Cr[..], src.cStride, csw, csh, cw, ch))
  }

  /** Half the size of an image, which is what the chroma loop reads, fits its chroma planes at any ratio. */
  lemma ChromaFits(img: YCbCr, cW: nat, cH: nat)
    requires img.WellFormed() && img.width > 0 && img.height > 0
    requires cW == img.width / 2 && cH == img.height / 2
    ensures Fits(img.Cb.Length, img.cStride, Reach(cW), Reach(cH)) && Fits(img.Cb.Length, img.cStride, cW, cH)
    ensures Fits(img.Cr.Length, img.cStride, Reach(cW), Reach(cH)) && Fits(img.Cr.Length, img.cStride, cW, cH)
  {
    var w, h := img.ratio.ChromaWidth(img.width), img.ratio.ChromaHeight(img.height);
    FitsSmaller(img.Cb.Length, img.cStride, w, h, Reach(cW), Reach(cH));
    FitsSmaller(img.Cr.Length, img.cStride, w, h, Reach(cW), Reach(cH));
    FitsSmaller(img.Cb.Length, img.cStride, w, h, cW, cH);
    FitsSmaller(img.Cr.Length, img.cStride, w, h, cW, cH);
  }

  method ScaleYCbCrNearest(src: YCbCr, dst: YCbCr, srcW: nat, srcH: nat, dstW: nat, dstH: nat)
    requires src.WellFormed() && dst.WellFormed() && src.Planes() !! dst.Planes()
    requires srcW == src.width > 0 && srcH == src.height > 0
    requires dstW == dst.width >= 2 && dstH == dst.height >= 2
    modifies dst.Planes()
    ensures PlanesScaled(src, dst)
    ensures OnlyCells(dst.Y[..], old(dst.Y[..]), dst.yStride, dstW, dstH)
    ensures OnlyCells(dst.Cb[..], old(dst.Cb[..]), dst.cStride, dstW / 2, dstH / 2)
    ensures OnlyCells(dst.Cr[..], old(dst.Cr[..]), dst.cStride, dstW / 2, dstH / 2)
  {
    assert src.Y in src.Planes() && src.Cb in src.Planes() && src.Cr in src.Planes();
    assert dst.Y in dst.Planes() && dst.Cb in dst.Planes() && dst.Cr in dst.Planes();
    ScaleLuma(src.Y, src.yStride, srcW, srcH, dst.Y, dst.yStride, dstW, dstH);
    var cSrcW, cSrcH := src.width / 2, src.height / 2;
    var cDstW, cDstH := dst.width / 2, dst.height / 2;
    ChromaFits(src, cSrcW, cSrcH);
    ChromaFits(dst, cDstW, cDstH);
    ScaleChroma(src.Cb, src.Cr, src.cStride, cSrcW, cSrcH, dst.Cb, dst.Cr, dst.cStride, cDstW, cDstH);
  }

  /**
   What a scaled image shows: every luma cell is the source sample in the ideal row and
   column, or in the one just before.
   */
  lemma NearestNeighbour(src: YCbCr, dst: YCbCr, y: nat, x: nat) returns (sy: nat, sx: nat)
    requires dst.width >= 2 && dst.height >= 2 && src.WellFormed() && src.width > 0 && src.height > 0
    requires PlanesScaled(src, dst) && y < dst.height && x < dst.width && y <= 65536 && x <= 65536
    ensures Ideal(y, src.height, dst.height) - 1 <= sy <= Ideal(y, src.height, dst.height) && sy < src.height
    ensures Ideal(x, src.width, dst.width) - 1 <= sx <= Ideal(x, src.width, dst.width) && sx < src.width
    ensures At(y, dst.yStride, x) < dst.Y.Length && At(sy, src.yStride, sx) < src.Y.Length
    ensures dst.Y[At(y, dst.yStride, x)] == src.Y[At(sy, src.yStride, sx)]
  {
    sy, sx := Sample(y, src.height, dst.height), Sample(x, src.width, dst.width);
    SampleAgainstIdeal(y, src.height, dst.height);
    SampleAgainstIdeal(x, src.width, dst.width);
    SampleInside(y, src.height, dst.height);
    SampleInside(x, src.width, dst.width);
    SourceInside(src.Y.Length, src.yStride, src.width, src.height, dst.width, dst.height, y, x);
    var f := Copy(src.Y[..], src.yStride, src.width, src.height, dst.width, dst.height);
    assert CellIs(dst.Y[..], dst.yStride, y, x, f(y, x));
  }

  /**
   With even sizes, every chroma cell is the source chroma sample at half the row and half
   the column of the luma sample shown in the top left of its 2x2 block.
   */
  lemma ChromaUnderLuma(src: YCbCr, dst: YCbCr, cy: nat, cx: nat)
    requires dst.width >= 2 && dst.height >= 2 && src.WellFormed() && src.width > 0 && src.height > 0
    requires src.width % 2 == 0 && src.height % 2 == 0 && dst.width % 2 == 0 && dst.height % 2 == 0
    requires PlanesScaled(src, dst) && cy < dst.height / 2 && cx < dst.width / 2
    ensures var (sy, sx) := (Sample(2 * cy, src.height, dst.height), Sample(2 * cx, src.width, dst.width));
            && At(sy, src.yStride, sx) < src.Y.Length
            && CellIs(dst.Y[..], dst.yStride, 2 * cy, 2 * cx, src.Y[At(sy, src.yStride, sx)])
            && At(sy / 2, src.cStride, sx / 2) < src.Cb.Length && At(sy / 2, src.cStride, sx / 2) < src.Cr.Length
            && CellIs(dst.Cb[..], dst.cStride, cy, cx, src.Cb[At(sy / 2, src.cStride, sx / 2)])
            && CellIs(dst.Cr[..], dst.cStride, cy, cx, src.Cr[At(sy / 2, src.cStride, sx / 2)])
  {
    Registration(cy, src.height, dst.height);
    Registration(cx, src.width, dst.width);
    SourceInside(src.Y.Length, src.yStride, src.width, src.height, dst.width, dst.height, 2 * cy, 2 * cx);
    var f := Copy(src.Y[..], src.yStride, src.width, src.height, dst.width, dst.height);
    assert CellIs(dst.Y[..], dst.yStride, 2 * cy, 2 * cx, f(2 * cy, 2 * cx));
    var (sw, sh, w, h) := (src.width / 2, src.height / 2, dst.width / 2, dst.height / 2);
    ChromaFits(src, sw, sh);
    SourceInside(src.Cb.Length, src.cStride, sw, sh, w, h, cy, cx);
    SourceInside(src.Cr.Length, src.cStride, sw, sh, w, h, cy, cx);
    var fb, fr := Copy(src.Cb[..], src.cStride, sw, sh, w, h), Copy(src.Cr[..], src.cStride, sw, sh, w, h);
    assert CellIs(dst.Cb[..], dst.cStride, cy, cx, fb(cy, cx));
    assert CellIs(dst.Cr[..], dst.cStride, cy, cx, fr(cy, cx));
  }

  /** A chroma cell is read at the chroma sample that belongs to the luma sample in the top left of its block. */
  predicate TakesOwn(src: YCbCr, w: nat, h: nat, cy: nat, cx: nat)
    requires w >= 2 && h >= 2
  {
    src.ratio.ChromaOf(Sample(2 * cy, src.height, h), Sample(2 * cx, src.width, w))
    == (Sample(cy, src.height / 2, h / 2), Sample(cx, src.width / 2, w / 2))
  }

  ghost predicate OwnChroma(src: YCbCr, w: nat, h: nat)
    requires w >= 2 && h >= 2
  {
    forall cy: nat, cx: nat :: cy < h / 2 && cx < w / 2 ==> TakesOwn(src, w, h, cy, cx)
  }

  /** The last even column of a destination lies beyond the first source column. */
  lemma LastColumn(src: nat, dst: nat)
    requires src >= 2 && dst % 2 == 0 && 4 <= dst <= 20000
    ensures Sample(dst - 2, src, dst) >= 1
  {
    var r := Ratio(src, dst);
    MulLe(2, src, 65536);
    DivBounds(src * 65536, dst, r);
    if dst == 4 {
      assert r >= 32768;
    } else {
      assert 2 * (r * dst) <= 3 * ((dst - 2) * r) by {
        MulLe(2 * dst, 3 * (dst - 2), r);
      }
    }
  }

  /**
   The loop treats every source as 4:2:0.  With even sizes, the chroma of every cell drawn
   is that of its luma exactly for those.
   */
  lemma ChromaBelongsIff(src: YCbCr, w: nat, h: nat)
    requires src.width >= 2 && src.height >= 2 && src.width % 2 == 0 && src.height % 2 == 0
    requires 4 <= w <= 20000 && 4 <= h <= 20000 && w % 2 == 0 && h % 2 == 0
    ensures OwnChroma(src, w, h) <==> src.ratio == R420
  {
    if src.ratio == R420 {
      forall cy: nat, cx: nat | cy < h / 2 && cx < w / 2
        ensures TakesOwn(src, w, h, cy, cx)
      {
        Registration(cy, src.height, h);
        Registration(cx, src.width, w);
      }
    } else {
      var cy, cx := h / 2 - 1, w / 2 - 1;
      assert 2 * cy == h - 2 && 2 * cx == w - 2;
      LastColumn(src.height, h);
      LastColumn(src.width, w);
      Registration(cy, src.height, h);
      Registration(cx, src.width, w);
      assert !TakesOwn(src, w, h, cy, cx);
    }
  }

  /**
   Whatever the sizes, a chroma cell shows a source chroma sample at most one row and column
   before the one that belongs to the luma of its block, and at most `Drift` after it.
   */
  lemma ChromaNearLuma(src: YCbCr, dst: YCbCr, cy: nat, cx: nat) returns (ky: nat, kx: nat)
    requires 2 <= dst.width < 65536 && 2 <= dst.height < 65536
    requires src.WellFormed() && src.width > 0 && src.height > 0 && src.ratio == R420
    requires PlanesScaled(src, dst) && cy < dst.height / 2 && cx < dst.width / 2
    ensures var (sy, sx) := (Sample(2 * cy, src.height, dst.height), Sample(2 * cx, src.width, dst.width));
            var (oy, ox) := src.ratio.ChromaOf(sy, sx);
            && oy - 1 <= ky <= oy + Drift(src.height, dst.height)
            && ox - 1 <= kx <= ox + Drift(src.width, dst.width)
    ensures At(ky, src.cStride, kx) < src.Cb.Length && At(ky, src.cStride, kx) < src.Cr.Length
    ensures CellIs(dst.Cb[..], dst.cStride, cy, cx, src.Cb[At(ky, src.cStride, kx)])
    ensures CellIs(dst.Cr[..], dst.cStride, cy, cx, src.Cr[At(ky, src.cStride, kx)])
  {
    var (sw, sh, w, h) := (src.width / 2, src.height / 2, dst.width / 2, dst.height / 2);
    ky, kx := Sample(cy, sh, h), Sample(cx, sw, w);
    ChromaDrift(cy, src.height, dst.height);
    ChromaDrift(cx, src.width, dst.width);
    ChromaFits(src, sw, sh);
    SourceInside(src.Cb.Length, src.cStride, sw, sh, w, h, cy, cx);
    SourceInside(src.Cr.Length, src.cStride, sw, sh, w, h, cy, cx);
    var fb, fr := Copy(src.Cb[..], src.cStride, sw, sh, w, h), Copy(src.Cr[..], src.cStride, sw, sh, w, h);
    assert CellIs(dst.Cb[..], dst.cStride, cy, cx, fb(cy, cx));
    assert CellIs(dst.Cr[..], dst.cStride, cy, cx, fr(cy, cx));
  }

  // ---- Other image types ----

  /** Any other image: its bounds, and `At` with the conversion to RGB. */
  datatype Generic = Generic(minX: int, minY: int, width: nat, height: nat, at: (int, int) -> RGB)

  function LumaPicture(src: Generic, w: nat, h: nat): Picture
    requires w > 0 && h > 0
  {
    (y: nat, x: nat) => LumaOf(src.at(Sample(x, src.width, w), Sample(y, src.height, h)))
  }

  /** The colour that a 2x2 block takes its chroma from: that of its top left pixel. */
  function BlockColour(src: Generic, w: nat, h: nat, y: nat, x: nat): RGB
    requires w > 0 && h > 0
  {
    src.at(Sample(2 * x, src.width, w), Sample(2 * y, src.height, h))
  }

  function CbPicture(src: Generic, w: nat, h: nat): Picture
    requires w > 0 && h > 0
  {
    (y: nat, x: nat) => CbOf(BlockColour(src, w, h, y, x))
  }

  function CrPicture(src: Generic, w: nat, h: nat): Picture
    requires w > 0 && h > 0
  {
    (y: nat, x: nat) => CrOf(BlockColour(src, w, h, y, x))
  }

  method ConvertLuma(src: Generic, dst: array<byte>, stride: nat, dstW: nat, dstH: nat)
    requires dstW > 0 && dstH > 0 && Fits(dst.Length, stride, dstW, dstH)
    modifies dst
    ensures Painted(dst[..], stride, dstW, dstH, LumaPicture(src, dstW, dstH))
    ensures OnlyCells(dst[..], old(dst[..]), stride, dstW, dstH)
  {
    ghost var f := LumaPicture(src, dstW, dstH);
    var xRatio := src.width * 65536 / dstW;
    var yRatio := src.height * 65536 / dstH;
    for y := 0 to dstH
      invariant PaintedTo(dst[..], stride, dstW, f, y, 0)
      invariant OnlyCells(dst[..], old(dst[..]), stride, dstW, dstH)
    {
      var srcY := y * yRatio / 65536;
      var dstOffset := y * stride;
      for x := 0 to dstW
        invariant PaintedTo(dst[..], stride, dstW, f, y, x)
        invariant OnlyCells(dst[..], old(dst[..]), stride, dstW, dstH)
      {
        var srcX := x * xRatio / 65536;
        assert srcX == Sample(x, src.width, dstW) && srcY == Sample(y, src.height, dstH);
        AtInside(dst.Length, stride, dstW, dstH, y, x);
        ghost var before := dst[..];
        dst[dstOffset + x] := LumaOf(src.at(srcX, srcY));
        PaintCell(before, dst[..], old(dst[..]), stride, dstW, dstH, f, y, x);
      }
      NextRow(dst[..], stride, dstW, f, y);
    }
  }

  method ConvertChroma(src: Generic, dstCb: array<byte>, dstCr: array<byte>, stride: nat, dstW: nat, dstH: nat)
    requires dstW >= 2 && dstH >= 2 && dstCb != dstCr
    requires Fits(dstCb.Length, stride, dstW / 2, dstH / 2) && Fits(dstCr.Length, stride, dstW / 2, dstH / 2)
    modifies dstCb, dstCr
    ensures Painted(dstCb[..], stride, dstW / 2, dstH / 2, CbPicture(src, dstW, dstH))
    ensures Painted(dstCr[..], stride, dstW / 2, dstH / 2, CrPicture(src, dstW, dstH))
    ensures OnlyCells(dstCb[..], old(dstCb[..]), stride, dstW / 2, dstH / 2)
    ensures OnlyCells(dstCr[..], old(dstCr[..]), stride, dstW / 2, dstH / 2)
  {
    ghost var fb, fr := CbPicture(src, dstW, dstH), CrPicture(src, dstW, dstH);
    var xRatio := src.width * 65536 / dstW;
    var yRatio := src.height * 65536 / dstH;
    var cDstW, cDstH := dstW / 2, dstH / 2;
    for cy := 0 to cDstH
      invariant PaintedTo(dstCb[..], stride, cDstW, fb, cy, 0) && PaintedTo(dstCr[..], stride, cDstW, fr, cy, 0)
      invariant OnlyCells(dstCb[..], old(dstCb[..]), stride, cDstW, cDstH)
      invariant OnlyCells(dstCr[..], old(dstCr[..]), stride, cDstW, cDstH)
    {
      for cx := 0 to cDstW
        invariant PaintedTo(dstCb[..], stride, cDstW, fb, cy, cx) && PaintedTo(dstCr[..], stride, cDstW, fr, cy, cx)
        invariant OnlyCells(dstCb[..], old(dstCb[..]), stride, cDstW, cDstH)
        invariant OnlyCells(dstCr[..], old(dstCr[..]), stride, cDstW, cDstH)
      {
        var srcX := (cx * 2) * xRatio / 65536;
        var srcY := (cy * 2) * yRatio / 65536;
        var p := src.at(srcX, srcY);
        assert p == BlockColour(src, dstW, dstH, cy, cx);
        AtInside(dstCb.Length, stride, cDstW, cDstH, cy, cx);
        AtInside(dstCr.Length, stride, cDstW, cDstH, cy, cx);
        ghost var beforeCb, beforeCr := dstCb[..], dstCr[..];
        dstCb[cy * stride + cx] := CbOf(p);
        dstCr[cy * stride + cx] := CrOf(p);
        PaintCell(beforeCb, dstCb[..], old(dstCb[..]), stride, cDstW, cDstH, fb, cy, cx);
        PaintCell(beforeCr, dstCr[..], old(dstCr[..]), stride, cDstW, cDstH, fr, cy, cx);
      }
      NextRow(dstCb[..], stride, cDstW, fb, cy);
      NextRow(dstCr[..], stride, cDstW, fr, cy);
    }
  }

  ghost predicate PlanesConverted(src: Generic, dst: YCbCr)
    requires dst.width >= 2 && dst.height >= 2
    reads dst.Planes()
  {
    var (w, h) := (dst.width, dst.height);
    && Painted(dst.Y[..], dst.yStride, w, h, LumaPicture(src, w, h))
    && Painted(dst.Cb[..], dst.cStride, w / 2, h / 2, CbPicture(src, w, h))
    && Painted(dst.Cr[..], dst.cStride, w / 2, h / 2, CrPicture(src, w, h))
  }

  method ScaleGenericNearest(src: Generic, dst: YCbCr, dstW: nat, dstH: nat)
    requires dst.WellFormed() && dstW == dst.width >= 2 && dstH == dst.height >= 2
    modifies dst.Planes()
    ensures PlanesConverted(src, dst)
    ensures OnlyCells(dst.Y[..], old(dst.Y[..]), dst.yStride, dstW, dstH)
    ensures OnlyCells(dst.Cb[..], old(dst.Cb[..]), dst.cStride, dstW / 2, dstH / 2)
    ensures OnlyCells(dst.Cr[..], old(dst.Cr[..]), dst.cStride, dstW / 2, dstH / 2)
  {
    ChromaFits(dst, dstW / 2, dstH / 2);
    ConvertLuma(src, dst.Y, dst.yStride, dstW, dstH);
    ConvertChroma(src, dst.Cb, dst.Cr, dst.cStride, dstW, dstH);
  }

  /** The levels of a pixel, 0 to 255, as real numbers. */
  function Levels(p: RGB): (real, real, real) {
    ((p.r / 256) as real, (p.g / 256) as real, (p.b / 256) as real)
  }

  /** An index along one axis is the ideal nearest neighbour's, or the one before. */
  predicate Near(sx: nat, x: nat, src: nat, dst: nat)
    requires dst > 0
  {
    x * src / dst - 1 <= sx <= x * src / dst
  }

  lemma SampleNear(x: nat, src: nat, dst: nat)
    requires x < dst && x <= 65536
    ensures Near(Sample(x, src, dst), x, src, dst)
  {
    SampleAgainstIdeal(x, src, dst);
  }

  /** The luma in row y and column x is that of the pixel, up to rounding. */
  ghost predicate LumaNear(dst: YCbCr, y: nat, x: nat, p: RGB)
    reads dst.Y
  {
    var (r, g, b) := Levels(p);
    && y * dst.yStride + x < dst.Y.Length
    && -0.51 <= dst.Y[y * dst.yStride + x] as real - (0.299 * r + 0.587 * g + 0.114 * b) <= 0.51
  }

  /**
   What a converted image shows: every luma cell is the luma of the pixel in the ideal row
   and column, or in the one just before.
   */
  lemma GenericNearest(src: Generic, dst: YCbCr, y: nat, x: nat) returns (sy: nat, sx: nat)
    requires dst.width >= 2 && dst.height >= 2 && dst.WellFormed()
    requires PlanesConverted(src, dst) && y < dst.height && x < dst.width && y <= 65536 && x <= 65536
    ensures Near(sy, y, src.height, dst.height) && Near(sx, x, src.width, dst.width)
    ensures sy == Sample(y, src.height, dst.height) && sx == Sample(x, src.width, dst.width)
    ensures LumaNear(dst, y, x, src.at(sx, sy))
  {
    sy, sx := Sample(y, src.height, dst.height), Sample(x, src.width, dst.width);
    SampleNear(y, src.height, dst.height);
    SampleNear(x, src.width, dst.width);
    var f := LumaPicture(src, dst.width, dst.height);
    assert CellIs(dst.Y[..], dst.yStride, y, x, f(y, x));
    Accuracy(src.at(sx, sy));
  }

  lemma BlockCells(src: Generic, dst: YCbCr, cy: nat, cx: nat, p: RGB)
    requires dst.width >= 2 && dst.height >= 2 && PlanesConverted(src, dst) && cy < dst.height / 2 && cx < dst.width / 2
    requires p == src.at(Sample(2 * cx, src.width, dst.width), Sample(2 * cy, src.height, dst.height))
    ensures CellIs(dst.Cb[..], dst.cStride, cy, cx, CbOf(p)) && CellIs(dst.Cr[..], dst.cStride, cy, cx, CrOf(p))
  {
    var fb, fr := CbPicture(src, dst.width, dst.height), CrPicture(src, dst.width, dst.height);
    assert CellIs(dst.Cb[..], dst.cStride, cy, cx, fb(cy, cx));
    assert CellIs(dst.Cr[..], dst.cStride, cy, cx, fr(cy, cx));
  }

  /** The chroma of a block is that of the very pixel whose luma its top left cell shows. */
  lemma GenericBlock(src: Generic, dst: YCbCr, cy: nat, cx: nat) returns (sy: nat, sx: nat)
    requires dst.width >= 2 && dst.height >= 2 && dst.WellFormed()
    requires PlanesConverted(src, dst) && cy < dst.height / 2 && cx < dst.width / 2 && cy <= 32768 && cx <= 32768
    ensures Near(sy, 2 * cy, src.height, dst.height) && Near(sx, 2 * cx, src.width, dst.width)
    ensures LumaNear(dst, 2 * cy, 2 * cx, src.at(sx, sy))
    ensures cy * dst.cStride + cx < dst.Cb.Length && cy * dst.cStride + cx < dst.Cr.Length
    ensures var (r, g, b) := Levels(src.at(sx, sy)); var k := cy * dst.cStride + cx;
            && -1.02 <= dst.Cb[k] as real - (0.5 * b - 0.168736 * r - 0.331264 * g + 128.0) <= 0.02
            && -1.02 <= dst.Cr[k] as real - (0.5 * r - 0.418688 * g - 0.081312 * b + 128.0) <= 0.02
  {
    sy, sx := GenericNearest(src, dst, 2 * cy, 2 * cx);
    BlockCells(src, dst, cy, cx, src.at(sx, sy));
    Accuracy(src.at(sx, sy));
  }

  /** Along one axis, every index asked for lies in `[min, min + n)`. */
  ghost predicate AxisInside(min: int, n: nat, w: nat)
    requires w > 0
  {
    forall x: nat :: x < w ==> min <= Sample(x, n, w) < min + n
  }

  lemma AxisInsideIff(min: int, n: nat, w: nat)
    requires w > 0
    ensures AxisInside(min, n, w) <==> min <= 0 && Sample(w - 1, n, w) < min + n
  {
    SampleZero(n, w);
    if AxisInside(min, n, w) {
      assert min <= Sample(0, n, w);
      assert Sample(w - 1, n, w) < min + n;
    }
    if min <= 0 && Sample(w - 1, n, w) < min + n {
      forall x: nat | x < w
        ensures min <= Sample(x, n, w) < min + n
      {
        SampleMonotone(x, w - 1, n, w);
      }
    }
  }

  /** Every pixel that the generic scaler asks for lies within the image. */
  ghost predicate ReadsInside(src: Generic, w: nat, h: nat)
    requires w > 0 && h > 0
  {
    forall y: nat, x: nat :: y < h && x < w ==>
      && src.minX <= Sample(x, src.width, w) < src.minX + src.width
      && src.minY <= Sample(y, src.height, h) < src.minY + src.height
  }

  /**
   The bounds of other images are not added in, so the reads stay inside exactly when
   the image starts at or before the origin on both axes and reaches far enough for the
   last column and row; one that starts at the origin always does.
   */
  lemma GenericReadsInsideIff(src: Generic, w: nat, h: nat)
    requires w > 0 && h > 0 && src.width > 0 && src.height > 0
    ensures ReadsInside(src, w, h) <==>
      && src.minX <= 0 && Sample(w - 1, src.width, w) < src.minX + src.width
      && src.minY <= 0 && Sample(h - 1, src.height, h) < src.minY + src.height
    ensures src.minX == 0 && src.minY == 0 ==> ReadsInside(src, w, h)
  {
    AxisInsideIff(src.minX, src.width, w);
    AxisInsideIff(src.minY, src.height, h);
    SampleInside(w - 1, src.width, w);
    SampleInside(h - 1, src.height, h);
    if ReadsInside(src, w, h) {
      forall x: nat | x < w
        ensures src.minX <= Sample(x, src.width, w) < src.minX + src.width
      {
        assert src.minY <= Sample(0, src.height, h);
      }
      forall y: nat | y < h
        ensures src.minY <= Sample(y, src.height, h) < src.minY + src.height
      {
        assert src.minX <= Sample(0, src.width, w);
      }
    }
  }

  // ---- The whole ----

  datatype Image = Planar(ycc: YCbCr) | Other(img: Generic)
  {
    function Width(): nat {
      if Planar? then ycc.width else img.width
    }

    function Height(): nat {
      if Planar? then ycc.height else img.height
    }
  }

  function AtLeast100(t: real): (d: nat)
    ensures d >= 100
  {
    var d := RealArithmetic.Truncated(t);
    if d < 100 then 100 else d
  }

  /** `int(float64(n) * scale)`, at least 100. */
  function DestSize(n: nat, scale: real): (d: nat)
    ensures d >= 100
  {
    AtLeast100(scale * n as real)
  }

  lemma CutAt100(t: real)
    ensures t < 100.0 ==> AtLeast100(t) == 100
    ensures t >= 100.0 ==> AtLeast100(t) as real <= t < AtLeast100(t) as real + 1.0
  {
  }

  /** The size d of a dimension n: the product with the scale cut to an integer, but 100 where that is less. */
  predicate Resized(n: nat, scale: real, d: nat) {
    if scale * n as real < 100.0 then d == 100 else d as real <= scale * n as real < d as real + 1.0
  }

  /** A destination size is what `Resized` says, and nothing else is. */
  lemma DestSizeExact(n: nat, scale: real)
    ensures forall d: nat :: Resized(n, scale, d) <==> d == DestSize(n, scale)
  {
    CutAt100(scale * n as real);
  }

  /** The cells that the loops leave alone keep the zeros of the new image. */
  ghost predicate ZeroElsewhere(d: seq<byte>, stride: nat, w: nat, h: nat) {
    forall k: nat :: k < |d| && !Cell(k, stride, w, h) ==> d[k] == 0
  }

  predicate Empty(img: Image) {
    match img
    case Planar(ycc) => ycc.width == 0 || ycc.height == 0
    case Other(img) => img.width == 0 || img.height == 0
  }

  method ScaleImage(img: Image, scale: real) returns (out: Image)
    requires img.Planar? ==> img.ycc.WellFormed()
    ensures scale >= 1.0 || Empty(img) ==> out == img
    ensures scale < 1.0 && !Empty(img) ==>
      && out.Planar? && out.ycc.WellFormed() && fresh(out.ycc.Planes())
      && (img.Planar? ==> Resized(img.ycc.width, scale, out.ycc.width))
      && (img.Planar? ==> Resized(img.ycc.height, scale, out.ycc.height))
      && (img.Other? ==> Resized(img.img.width, scale, out.ycc.width))
      && (img.Other? ==> Resized(img.img.height, scale, out.ycc.height))
      && (img.Planar? ==> PlanesScaled(img.ycc, out.ycc))
      && (img.Other? ==> PlanesConverted(img.img, out.ycc))
      && ZeroElsewhere(out.ycc.Cb[..], out.ycc.cStride, out.ycc.width / 2, out.ycc.height / 2)
      && ZeroElsewhere(out.ycc.Cr[..], out.ycc.cStride, out.ycc.width / 2, out.ycc.height / 2)
  {
    if scale >= 1.0 {
      return img;
    }
    var srcW, srcH := img.Width(), img.Height();
    if srcW <= 0 || srcH <= 0 {
      return img;
    }
    var dstW, dstH := DestSize(srcW, scale), DestSize(srcH, scale);
    DestSizeExact(srcW, scale);
    DestSizeExact(srcH, scale);
    var yimg := new YCbCr(dstW, dstH);
    if img.Planar? {
      ScaleYCbCrNearest(img.ycc, yimg, srcW, srcH, dstW, dstH);
    } else {
      ScaleGenericNearest(img.img, yimg, dstW, dstH);
    }
    out := Planar(yimg);
  }

  /** Every sample of a tight cw x ch plane is among the w x h cells that get written. */
  ghost predicate AllCells(cw: nat, ch: nat, w: nat, h: nat) {
    forall k: nat :: k < cw * ch ==> Cell(k, cw, w, h)
  }

  lemma LastRowStart(cw: nat, ch: nat, w: nat, h: nat) returns (k: nat)
    requires 0 < cw && w <= cw && ch == h + 1
    ensures k < cw * ch && !Cell(k, cw, w, h)
  {
    k := h * cw;
    DivIs(k, cw, h);
    CellByDivision(k, cw, w, h);
    Distribute(h, 1, cw);
  }

  lemma RowBelow(k: nat, w: nat, h: nat)
    requires w > 0 && k < w * h
    ensures k / w < h
  {
    if h <= k / w {
      MulLe(h, k / w, w);
      assert false;
    }
  }

  lemma FirstRowEnd(ch: nat, w: nat, h: nat)
    requires w > 0 && ch > 0
    ensures w < (w + 1) * ch && !Cell(w, w + 1, w, h)
  {
    CellByDivision(w, w + 1, w, h);
    MulLe(1, ch, w + 1);
  }

  lemma AllCellsIff(cw: nat, ch: nat, w: nat, h: nat)
    requires w > 0 && h > 0 && w <= cw <= w + 1 && h <= ch <= h + 1
    ensures AllCells(cw, ch, w, h) <==> cw == w && ch == h
  {
    if cw == w && ch == h {
      forall k: nat | k < cw * ch
        ensures Cell(k, cw, w, h)
      {
        CellByDivision(k, cw, cw, ch);
        RowBelow(k, cw, ch);
      }
    } else if cw == w + 1 {
      FirstRowEnd(ch, w, h);
    } else {
      var k := LastRowStart(cw, ch, w, h);
    }
  }

  /** A new image has its chroma written everywhere exactly when both sizes are even. */
  lemma ChromaCompleteIff(w: nat, h: nat)
    requires w >= 2 && h >= 2
    ensures AllCells((w + 1) / 2, (h + 1) / 2, w / 2, h / 2) <==> w % 2 == 0 && h % 2 == 0
  {
    AllCellsIff((w + 1) / 2, (h + 1) / 2, w / 2, h / 2);
  }

  lemma AtLeast100Bounds(t: real, n: nat)
    requires t <= n as real
    ensures AtLeast100(t) <= if n < 100 then 100 else n
  {
  }

  /** Destination sizes never exceed the source's, but for the floor of 100. */
  lemma DestSizeBounds(n: nat, scale: real)
    requires scale < 1.0
    ensures 100 <= DestSize(n, scale) <= if n < 100 then 100 else n
    ensures scale * n as real < 100.0 ==> DestSize(n, scale) == 100
    ensures scale * n as real >= 100.0 ==>
              DestSize(n, scale) as real <= scale * n as real < DestSize(n, scale) as real + 1.0
  {
    RealArithmetic.Scale(scale, 1.0, n as real);
    AtLeast100Bounds(scale * n as real, n);
    CutAt100(scale * n as real);
  }

  /** At scale 0.2 an image of 640 by 480 becomes one of 128 by 100. */
  lemma SizesAtFifth()
    ensures DestSize(640, 0.2) == 128 && DestSize(480, 0.2) == 100
  {
    CutAt100(0.2 * 480.0);
    CutAt100(0.2 * 640.0);
  }

  lemma ProductBelow(x: nat, n: nat, d: nat)
    requires x < d
    ensures x * Ratio(n, d) <= n * 65536
  {
    var r := Ratio(n, d);
    assert r * d <= n * 65536;
    MulLe(x, d, r);
  }

  lemma AreaBound(w: nat, h: nat, dw: nat, dh: nat)
    requires w <= 20000 && h <= 20000 && w * h <= 250_000_000
    requires dw <= (if w < 100 then 100 else w) && dh <= if h < 100 then 100 else h
    ensures dw * dh <= 250_000_000
  {
    if w < 100 {
      MulLe(dw, 100, dh);
    } else if h < 100 {
      MulLe(dh, 100, dw);
    } else {
      MulLe(dw, w, dh);
      MulLe(dh, h, w);
    }
  }

  /**
   On an image that validation accepts, no index computation reaches 2^31, and the
   scaled image stays within the accepted pixel count.
   */
  lemma AcceptedSafe(size: Validation.Size, scale: real, x: nat)
    requires Validation.ValidateImage(Some(size)) == Validation.Valid && scale < 1.0
    requires x < DestSize(size.width, scale) || x < DestSize(size.height, scale)
    ensures size.width * 65536 < 0x8000_0000 && size.height * 65536 < 0x8000_0000
    ensures x < DestSize(size.width, scale) ==> x * Ratio(size.width, DestSize(size.width, scale)) < 0x8000_0000
    ensures x < DestSize(size.height, scale) ==> x * Ratio(size.height, DestSize(size.height, scale)) < 0x8000_0000
    ensures x < 65536
    ensures DestSize(size.width, scale) * DestSize(size.height, scale) <= 250_000_000
  {
    var w: nat, h: nat := size.width, size.height;
    var dw, dh := DestSize(w, scale), DestSize(h, scale);
    DestSizeBounds(w, scale);
    DestSizeBounds(h, scale);
    if x < dw {
      ProductBelow(x, w, dw);
    }
    if x < dh {
      ProductBelow(x, h, dh);
    }
    AreaBound(w, h, dw, dh);
  }

  // ---- Inputs on which it goes wrong ----

  /**
   An accepted image of sixteen columns from -1 on is scaled to 100 columns, and read at
   column 15, which is just past its last one.
   */
  lemma GenericReadsOutside(src: Generic, scale: real)
    requires src.minX == -1 && src.width == 16 && scale < 1.0
    requires Validation.ValidateImage(Some(Validation.Size(src.width, src.height))) == Validation.Valid
    ensures var (w, h) := (DestSize(src.width, scale), DestSize(src.height, scale));
            w == 100 && Sample(w - 1, src.width, w) == src.minX + src.width && !ReadsInside(src, w, h)
  {
    DestSizeBounds(src.width, scale);
    assert Ratio(16, 100) == 10485;
    assert Index(99, 10485) == 15;
    GenericReadsInsideIff(src, 100, DestSize(src.height, scale));
  }

  /**
   A 4:2:0 image of 999 columns scaled to 101: under luma column 98, which shows column 969,
   chroma is taken from column 489 and not from column 484 that belongs to it.
   */
  lemma OddSizesDrift(src: YCbCr, scale: real)
    requires src.width == 999 && src.height >= 16 && src.ratio == R420 && scale == 0.1015
    ensures var (w, h) := (DestSize(src.width, scale), DestSize(src.height, scale));
            && w == 101 && Sample(98, src.width, w) == 969 && src.ratio.ChromaOf(0, 969) == (0, 484)
            && Sample(49, src.width / 2, w / 2) == 489 && Drift(src.width, w) == 5
            && !OwnChroma(src, w, h)
  {
    var h := DestSize(src.height, scale);
    assert 0.1015 * 999.0 == 101.3985;
    assert DestSize(999, scale) == 101;
    assert Ratio(999, 101) == 648222 && Ratio(499, 50) == 654049;
    assert Sample(98, 999, 101) == 969 && Sample(49, 499, 50) == 489;
    SampleZero(src.height, h);
    SampleZero(src.height / 2, h / 2);
    assert !TakesOwn(src, 101, h, 0, 49);
  }
}
