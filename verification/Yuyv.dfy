/** The YUYV to RGB565 conversion of a camera frame, in integers with tables of rounded chroma terms. */
module Yuyv {
  import opened Arith
  import opened Bits

  /** C division: the quotient is rounded toward zero. */
  function Truncated(a: int, d: int): int
    requires d > 0
  {
    if a >= 0 then a / d else -(-a / d)
  }

  function Apart(a: int, b: int): nat {
    if a <= b then b - a else a - b
  }

  /** The nearest value a byte can hold. */
  function Clip(v: int): (c: byte)
    ensures forall d: byte :: Apart(v, c) <= Apart(v, d)
  {
    if v < 0 then 0 else if v > 255 then 255 else v
  }

  /** The four tables, one entry per chroma value. */
  datatype Tables = Tables(rv: seq<int>, gu: seq<int>, gv: seq<int>, bu: seq<int>)

  function TableOf(k: int, coefficient: int): (table: seq<int>)
    ensures |table| == 256
  {
    seq(256, i requires 0 <= i < 256 => Truncated(k * (i - 128) * coefficient, 1000))
  }

  const TABLES: Tables := Tables(TableOf(1, 1402), TableOf(-1, 344), TableOf(-1, 714), TableOf(1, 1772))

  datatype Rgb = Rgb(r: byte, g: byte, b: byte)

  /** The colour of a pixel from its luma and the chroma it shares with its neighbour. */
  function Colour(y: byte, u: byte, v: byte): Rgb {
    Rgb(Clip(y + TABLES.rv[v]), Clip(y + TABLES.gu[u] + TABLES.gv[v]), Clip(y + TABLES.bu[u]))
  }

  /** `((r >> 3) << 11) | ((g >> 2) << 5) | (b >> 3)`, whose three fields do not overlap. */
  function Pack(c: Rgb): (p: nat)
    ensures p < 0x1_0000
  {
    c.r / 8 * 2048 + c.g / 4 * 32 + c.b / 8
  }

  /** The two bytes of a packed pixel, low byte first. */
  function PixelBytes(c: Rgb): (bytes: seq<byte>)
    ensures |bytes| == 2
  {
    [Pack(c) % 0x100, Pack(c) / 0x100]
  }

  /** Red, green and blue as a reader of RGB565 takes them out of two bytes. */
  function Unpacked(low: byte, high: byte): (nat, nat, nat) {
    var p := low + 0x100 * high;
    (p / 2048, p / 32 % 64, p % 32)
  }

  /** A reader finds the top five, six and five bits of the colour. */
  lemma {:induction false} UnpackPack(c: Rgb)
    ensures
      var bytes := PixelBytes(c);
      Unpacked(bytes[0], bytes[1]) == (c.r / 8, c.g / 4, c.b / 8)
  {
    FieldsApart(c.r / 8, c.g / 4, c.b / 8);
  }

  lemma {:induction false} FieldsApart(r: nat, g: nat, b: nat)
    requires g < 64 && b < 32
    ensures
      var p := r * 2048 + g * 32 + b;
      p / 2048 == r && p / 32 % 64 == g && p % 32 == b
  {
    var p := r * 2048 + g * 32 + b;
    Quotient(p, 2048, r);
    Quotient(p, 32, 64 * r + g);
    Quotient(64 * r + g, 64, r);
  }

  /** Truncation is off by less than one, and always toward zero. */
  lemma {:induction false} TruncatedError(a: int, d: int)
    requires d > 0
    ensures -d < d * Truncated(a, d) - a < d
    ensures if a >= 0 then 0 <= d * Truncated(a, d) <= a else a <= d * Truncated(a, d) <= 0
  {
    Divided(if a >= 0 then a else -a, d);
    assert a < 0 ==> d * Truncated(a, d) == -(d * (-a / d));
  }

  lemma Divided(a: nat, d: nat)
    requires d > 0
    ensures 0 <= d * (a / d) <= a < d * (a / d) + d
  {
  }

  /** Each table entry is the exact value in thousandths, cut off toward zero. */
  lemma {:induction false} TablesTruncated(i: byte)
    ensures TowardZero(TABLES.rv[i], 1402 * (i - 128)) && TowardZero(TABLES.bu[i], 1772 * (i - 128))
    ensures TowardZero(TABLES.gu[i], 344 * (128 - i)) && TowardZero(TABLES.gv[i], 714 * (128 - i))
  {
    TruncatedError((i - 128) * 1402, 1000);
    TruncatedError((i - 128) * 1772, 1000);
    TruncatedError(-1 * (i - 128) * 344, 1000);
    TruncatedError(-1 * (i - 128) * 714, 1000);
  }

  /** `q` is the whole part of `e` thousandths. */
  predicate TowardZero(q: int, e: int) {
    if e >= 0 then 0 <= 1000 * q <= e < 1000 * q + 1000 else 1000 * q - 1000 < e <= 1000 * q <= 0
  }

  /** Before clipping, the sums differ from the exact formula in thousandths by less than 1, 2 and 1. */
  lemma {:induction false} ColourError(y: byte, u: byte, v: byte)
    ensures -1000 < 1000 * (y + TABLES.rv[v]) - (1000 * y + 1402 * (v - 128)) < 1000
    ensures -2000 < 1000 * (y + TABLES.gu[u] + TABLES.gv[v]) - (1000 * y - 344 * (u - 128) - 714 * (v - 128)) < 2000
    ensures -1000 < 1000 * (y + TABLES.bu[u]) - (1000 * y + 1772 * (u - 128)) < 1000
  {
    TruncatedError((v - 128) * 1402, 1000);
    TruncatedError(-1 * (u - 128) * 344, 1000);
    TruncatedError(-1 * (v - 128) * 714, 1000);
    TruncatedError((u - 128) * 1772, 1000);
  }

  /** The exact value in thousandths, cut to what a byte can hold. */
  function Cut(e: int): int {
    if e < 0 then 0 else if e > 255_000 then 255_000 else e
  }

  /** The colour of a pixel is the exact colour, cut to bytes, to within less than 1, 2 and 1. */
  lemma {:induction false} ColourNear(y: byte, u: byte, v: byte)
    ensures
      var c := Colour(y, u, v);
      && -1000 < 1000 * (c.r as int) - Cut(1000 * y + 1402 * (v - 128)) < 1000
      && -2000 < 1000 * (c.g as int) - Cut(1000 * y - 344 * (u - 128) - 714 * (v - 128)) < 2000
      && -1000 < 1000 * (c.b as int) - Cut(1000 * y + 1772 * (u - 128)) < 1000
  {
    ColourError(y, u, v);
  }

  /** The pixel bytes of one macropixel: two lumas with shared chroma. */
  function PairBytes(y0: byte, u: byte, y1: byte, v: byte): (bytes: seq<byte>)
    ensures |bytes| == 4
  {
    PixelBytes(Colour(y0, u, v)) + PixelBytes(Colour(y1, u, v))
  }

  /** The first `m` macropixels of `input`, converted. */
  function Converted(input: seq<byte>, m: nat): (output: seq<byte>)
    requires 4 * m <= |input|
    ensures |output| == 4 * m
  {
    if m == 0 then []
    else
      var n := 4 * (m - 1);
      Converted(input, m - 1) + PairBytes(input[n], input[n + 1], input[n + 2], input[n + 3])
  }

  /** The colour of pixel `2 * j + h` of a frame: its own luma, and the chroma of its pair. */
  function ColourAt(input: seq<byte>, j: nat, h: bit): Rgb
    requires 4 * j + 3 < |input|
  {
    Colour(input[4 * j + 2 * (h as int)], input[4 * j + 1], input[4 * j + 3])
  }

  /** A reader of the result sees at pixel `2 * j + h` the top bits of the colour this pixel has in the frame. */
  predicate Shows(output: seq<byte>, input: seq<byte>, j: nat, h: bit)
    requires 4 * j + 3 < |input| && 4 * j + 3 < |output|
  {
    var c := ColourAt(input, j, h);
    Unpacked(output[4 * j + 2 * (h as int)], output[4 * j + 2 * (h as int) + 1]) == (c.r / 8, c.g / 4, c.b / 8)
  }

  lemma {:induction false} PairConverted(input: seq<byte>, m: nat, j: nat)
    requires 4 * m <= |input| && j < m
    ensures Converted(input, m)[4 * j..4 * j + 4]
         == PairBytes(input[4 * j], input[4 * j + 1], input[4 * j + 2], input[4 * j + 3])
    decreases m
  {
    hide PairBytes;
    if j < m - 1 {
      PairConverted(input, m - 1, j);
      assert Converted(input, m)[4 * j..4 * j + 4] == Converted(input, m - 1)[4 * j..4 * j + 4];
    }
  }

  /** Every converted pixel is in its place. */
  lemma {:induction false} PixelsShown(input: seq<byte>, m: nat, j: nat, h: bit)
    requires 4 * m <= |input| && j < m
    ensures Shows(Converted(input, m), input, j, h)
  {
    hide Colour, PixelBytes, Converted, Unpacked;
    PairConverted(input, m, j);
    var frame := Converted(input, m);
    var four := frame[4 * j..4 * j + 4];
    assert four == [frame[4 * j], frame[4 * j + 1], frame[4 * j + 2], frame[4 * j + 3]];
    UnpackPack(ColourAt(input, j, h));
  }

  /**
   What a reader of a frame sees: every pixel in its place with the top bits of its colour, except that the last
   pixel of an odd frame is never written.
   */
  lemma {:induction false} FrameReadsBack(input: seq<byte>, width: nat, height: nat, m: nat)
    requires |input| >= 2 * (width * height) && 2 * m <= width * height < 2 * m + 2
    ensures |Converted(input, m)| == 2 * (width * height) <==> width * height % 2 == 0
    ensures |Converted(input, m)| == 2 * (width * height - 1) <==> width * height % 2 == 1
    ensures forall j: nat, h: bit :: j < m ==> Shows(Converted(input, m), input, j, h)
  {
    hide Shows, Converted;
    forall j: nat, h: bit | j < m ensures Shows(Converted(input, m), input, j, h) {
      PixelsShown(input, m, j, h);
    }
  }

  /**
   A packed pixel is near the exact colour of its luma and chroma: off by no more than the bits that RGB565 leaves out
   and the rounding of the tables.
   */
  predicate Near(p: nat, y: byte, u: byte, v: byte) {
    && -9000 < 8000 * (p / 2048) - Cut(1000 * y + 1402 * (v - 128)) < 1000
    && -6000 < 4000 * (p / 32 % 64) - Cut(1000 * y - 344 * (u - 128) - 714 * (v - 128)) < 2000
    && -9000 < 8000 * (p % 32) - Cut(1000 * y + 1772 * (u - 128)) < 1000
  }

  /** End to end, for every pixel of a frame; `h` is the place of the pixel in its pair. */
  lemma {:induction false} FrameNear(input: seq<byte>, m: nat, j: nat, h: bit)
    requires 4 * m <= |input| && j < m
    ensures
      var at := 4 * j + 2 * (h as int);
      var frame := Converted(input, m);
      Near(frame[at] + 0x100 * (frame[at + 1] as int), input[at], input[4 * j + 1], input[4 * j + 3])
  {
    hide Colour, Converted, Near;
    var at, frame := 4 * j + 2 * (h as int), Converted(input, m);
    PixelsShown(input, m, j, h);
    NearPixel(frame[at], frame[at + 1], input[at], input[4 * j + 1], input[4 * j + 3]);
  }

  lemma {:induction false} NearPixel(low: byte, high: byte, y: byte, u: byte, v: byte)
    requires
      var c := Colour(y, u, v);
      Unpacked(low, high) == (c.r / 8, c.g / 4, c.b / 8)
    ensures Near(low + 0x100 * (high as int), y, u, v)
  {
    hide Colour, Cut;
    var c := Colour(y, u, v);
    ColourNear(y, u, v);
    Divided(c.r, 8);
    Divided(c.g, 4);
    Divided(c.b, 8);
  }

  /** Fills the four tables in one loop. */
  method InitTables(rv: array<int>, gu: array<int>, gv: array<int>, bu: array<int>)
    requires rv.Length == gu.Length == gv.Length == bu.Length == 256
    requires rv != gu && rv != gv && rv != bu && gu != gv && gu != bu && gv != bu
    modifies rv, gu, gv, bu
    ensures Tables(rv[..], gu[..], gv[..], bu[..]) == TABLES
  {
    var i := 0;
    while i < 256
      invariant i <= 256
      invariant rv[..i] == TABLES.rv[..i]
      invariant gu[..i] == TABLES.gu[..i]
      invariant gv[..i] == TABLES.gv[..i]
      invariant bu[..i] == TABLES.bu[..i]
    {
      rv[i] := Truncated((i - 128) * 1402, 1000);
      gu[i] := Truncated((128 - i) * 344, 1000);
      gv[i] := Truncated((128 - i) * 714, 1000);
      bu[i] := Truncated((i - 128) * 1772, 1000);
      i := i + 1;
    }
  }

  /**
   Converts a frame of `need = 2 * width * height` bytes, or does nothing when input or output is too short.
   `input` may be longer than the frame; whatever lies behind the written macropixels keeps its value.
   */
  method Convert(input: seq<byte>, output: array<byte>, width: nat, height: nat)
    modifies output
    ensures
      var pixels := width * height;
      if |input| < 2 * pixels || output.Length < 2 * pixels then output[..] == old(output[..])
      else output[..] == Converted(input, pixels / 2) + old(output[4 * (pixels / 2)..])
  {
    hide Colour, PixelBytes, Converted;
    ghost var pixels := width * height;
    var need := width * height * 2;
    if |input| < need || output.Length < need {
      return;
    }
    var pos, i := 0, 0;
    ghost var m := 0;
    while i + 3 < |input| && pos + 3 < need
      invariant i == pos == 4 * m <= need
      invariant output[..pos] == Converted(input, m)
      invariant output[pos..] == old(output[pos..])
    {
      var y0, u, y1, v := input[i], input[i + 1], input[i + 2], input[i + 3];
      var first, second := PixelBytes(Colour(y0, u, v)), PixelBytes(Colour(y1, u, v));
      ConvertedNext(input, m);
      PutFour(output, pos, first + second);
      i := i + 4;
      pos := pos + 4;
      m := m + 1;
    }
    assert m == pixels / 2;
  }

  /** The four stores of one round of the loop. */
  method PutFour(output: array<byte>, pos: nat, four: seq<byte>)
    requires pos + 4 <= output.Length && |four| == 4
    modifies output
    ensures output[..pos + 4] == old(output[..pos]) + four
    ensures output[pos + 4..] == old(output[pos + 4..])
  {
    output[pos] := four[0];
    output[pos + 1] := four[1];
    output[pos + 2] := four[2];
    output[pos + 3] := four[3];
  }

  lemma {:induction false} ConvertedNext(input: seq<byte>, m: nat)
    requires 4 * m + 3 < |input|
    ensures
      Converted(input, m + 1)
      == Converted(input, m) + PairBytes(input[4 * m], input[4 * m + 1], input[4 * m + 2], input[4 * m + 3])
  {
    hide PairBytes;
  }
}
