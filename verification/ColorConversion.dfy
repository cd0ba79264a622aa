/** The RGB to Y'CbCr arithmetic of the generic scaler, after section 7 of ITU-T T.871. */
module ColorConversion {
  import opened Bytes

  type Channel = x: int | 0 <= x < 65536

  /** A sample as `color.Color.RGBA` gives it: 16 bits a channel. */
  datatype RGB = RGB(r: Channel, g: Channel, b: Channel)

  function Eight(c: Channel): int {
    c / 256
  }

  function LumaValue(r: int, g: int, b: int): int {
    (19595 * r + 38470 * g + 7471 * b + 32768) / 65536
  }

  /** An arithmetic shift right is a floor division, as Dafny's is for a positive divisor. */
  function CbValue(r: int, g: int, b: int): int {
    (32768 * b - 11056 * r - 21712 * g) / 65536 + 128
  }

  function CrValue(r: int, g: int, b: int): int {
    (32768 * r - 27440 * g - 5328 * b) / 65536 + 128
  }

  /** Go's conversion to uint8 keeps the low eight bits. */
  function ToUint8(v: int): byte {
    (v % 256) as byte
  }

  function LumaOf(p: RGB): byte {
    ToUint8(LumaValue(Eight(p.r), Eight(p.g), Eight(p.b)))
  }

  function CbOf(p: RGB): byte {
    ToUint8(CbValue(Eight(p.r), Eight(p.g), Eight(p.b)))
  }

  function CrOf(p: RGB): byte {
    ToUint8(CrValue(Eight(p.r), Eight(p.g), Eight(p.b)))
  }

  lemma ShiftRange(n: int, lo: int, hi: int)
    requires lo * 65536 <= n <= hi * 65536 + 65535
    ensures lo <= n / 65536 <= hi
  {
  }

  lemma ValueRanges(r: int, g: int, b: int)
    requires 0 <= r < 256 && 0 <= g < 256 && 0 <= b < 256
    ensures 0 <= LumaValue(r, g, b) < 256 && 0 <= CbValue(r, g, b) < 256 && 0 <= CrValue(r, g, b) < 256
  {
    ShiftRange(19595 * r + 38470 * g + 7471 * b + 32768, 0, 255);
    ShiftRange(32768 * b - 11056 * r - 21712 * g, -128, 127);
    ShiftRange(32768 * r - 27440 * g - 5328 * b, -128, 127);
  }

  lemma ByteKept(v: int)
    requires 0 <= v < 256
    ensures ToUint8(v) as int == v
  {
  }

  /** No conversion to uint8 ever wraps. */
  lemma NoWrap(p: RGB)
    ensures var r, g, b := p.r / 256, p.g / 256, p.b / 256;
            && LumaOf(p) as int == (19595 * r + 38470 * g + 7471 * b + 32768) / 65536
            && CbOf(p) as int == (32768 * b - 11056 * r - 21712 * g) / 65536 + 128
            && CrOf(p) as int == (32768 * r - 27440 * g - 5328 * b) / 65536 + 128
  {
    var r, g, b := Eight(p.r), Eight(p.g), Eight(p.b);
    ValueRanges(r, g, b);
    ByteKept(LumaValue(r, g, b));
    ByteKept(CbValue(r, g, b));
    ByteKept(CrValue(r, g, b));
  }

  /** Grey stays grey, at the same level. */
  lemma GreyFixed(v: Channel)
    ensures LumaOf(RGB(v, v, v)) as int == v / 256
    ensures CbOf(RGB(v, v, v)) == 128 && CrOf(RGB(v, v, v)) == 128
  {
  }

  lemma FloorReal(n: int)
    ensures n as real - 65535.0 <= 65536.0 * (n / 65536) as real <= n as real
  {
    var q := n / 65536;
    assert 65536 * q <= n <= 65536 * q + 65535;
    assert (65536 * q) as real == 65536.0 * q as real;
  }

  /**
   Against the real formulas: luma is rounded to the nearest level, chroma is rounded
   down, both up to the 16-bit precision of the coefficients.
   */
  lemma Accuracy(p: RGB)
    ensures var r, g, b := (p.r / 256) as real, (p.g / 256) as real, (p.b / 256) as real;
            && -0.51 <= LumaOf(p) as real - (0.299 * r + 0.587 * g + 0.114 * b) <= 0.51
            && -1.02 <= CbOf(p) as real - (0.5 * b - 0.168736 * r - 0.331264 * g + 128.0) <= 0.02
            && -1.02 <= CrOf(p) as real - (0.5 * r - 0.418688 * g - 0.081312 * b + 128.0) <= 0.02
  {
    NoWrap(p);
    var r, g, b := Eight(p.r), Eight(p.g), Eight(p.b);
    FloorReal(19595 * r + 38470 * g + 7471 * b + 32768);
    FloorReal(32768 * b - 11056 * r - 21712 * g);
    FloorReal(32768 * r - 27440 * g - 5328 * b);
  }
}
