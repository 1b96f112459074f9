/** The two downsamplers and the hash on byte buffers: pictures with equal channels, and pictures made brighter. */
module HashBuffers {
  import opened PerceptualHash

  /** Channel ch (0 red, 1 green, 2 blue) of the pixel in row y, column x. */
  function Channel(rgba: seq<Byte>, stride: int, y: int, x: int, ch: int): Byte { At(rgba, y * stride + 4 * x + ch) }

  lemma PixelOfChannels(rgba: seq<Byte>, stride: int, y: int, x: int)
    ensures RgbaPixel(rgba, stride)(y, x) ==
              Luma(Channel(rgba, stride, y, x, 0), Channel(rgba, stride, y, x, 1), Channel(rgba, stride, y, x, 2))
  {
  }

  // ---- Functions that agree on the image ---------------------------------------------------------------

  /** The cells depend only on the pixels of the image. */
  lemma CellsOfImage(f: (int, int) -> Byte, g: (int, int) -> Byte, w: nat, h: nat, cy: nat, cx: nat)
    requires w > 0 && h > 0 && Brightened(f, g, w, h, 0) && cy < 8 && cx < 8
    ensures GreyCell(f, w, h, cy, cx) == GreyCell(g, w, h, cy, cx)
      && RgbaCell(f, w, h, cy, cx) == RgbaCell(g, w, h, cy, cx)
  {
    CellInImage(cy, h);
    CellInImage(cx, w);
    MeanBrighter(f, g, w, h, 0, Start(cy, h), End(cy, h), Start(cx, w), End(cx, w));
    if Start(cy, h) < Start(cy + 1, h) {
      MeanBrighter(f, g, w, h, 0, Start(cy, h), Start(cy + 1, h), Start(cx, w), End(cx, w));
    }
  }

  lemma HashOfImage(f: (int, int) -> Byte, g: (int, int) -> Byte, w: nat, h: nat)
    requires w > 0 && h > 0 && Brightened(f, g, w, h, 0)
    ensures RgbaCells(f, w, h) == RgbaCells(g, w, h)
  {
    forall i | 0 <= i < 64
      ensures RgbaCells(f, w, h)[i] == RgbaCells(g, w, h)[i]
    {
      CellsOfImage(f, g, w, h, i / 8, i % 8);
    }
  }

  // ---- Equal channels ------------------------------------------------------------------------------------

  lemma GreyLuma(v: Byte)
    ensures Luma(v, v, v) == v
  {
  }

  /** The RGBA picture is the grey one, its three channels equal. */
  ghost predicate SamePicture(rgba: seq<Byte>, stride: int, grey: seq<Byte>, greyStride: int, w: nat, h: nat) {
    forall y, x, ch :: 0 <= y < h && 0 <= x < w && 0 <= ch < 3 ==>
      Channel(rgba, stride, y, x, ch) == GreyPixel(grey, greyStride)(y, x)
  }

  lemma SamePixels(rgba: seq<Byte>, stride: int, grey: seq<Byte>, greyStride: int, w: nat, h: nat)
    requires SamePicture(rgba, stride, grey, greyStride, w, h)
    ensures Brightened(RgbaPixel(rgba, stride), GreyPixel(grey, greyStride), w, h, 0)
  {
    forall y, x | 0 <= y < h && 0 <= x < w
      ensures GreyPixel(grey, greyStride)(y, x) == RgbaPixel(rgba, stride)(y, x) + 0
    {
      PixelOfChannels(rgba, stride, y, x);
      GreyLuma(GreyPixel(grey, greyStride)(y, x));
    }
  }

  ghost predicate SameCells64(rgba: seq<Byte>, stride: int, grey: seq<Byte>, greyStride: int, w: nat, h: nat) {
    forall cy: nat, cx: nat :: cy < 8 && cx < 8 ==>
      RgbaCell(RgbaPixel(rgba, stride), w, h, cy, cx) == GreyCell(GreyPixel(grey, greyStride), w, h, cy, cx)
  }

  /** All grey pictures of a size give the same cells as RGBA and as grey buffers. */
  ghost predicate AlwaysAgree(w: nat, h: nat) {
    forall rgba, stride, grey, greyStride ::
      Holds(rgba, stride, 4 * w, h) && Holds(grey, greyStride, w, h)
        && SamePicture(rgba, stride, grey, greyStride, w, h) ==>
        SameCells64(rgba, stride, grey, greyStride, w, h)
  }

  function Filled(v: Byte, n: nat): seq<Byte> { seq(n, i => v) }

  lemma FilledHolds(v: Byte, line: nat, h: nat)
    requires h > 0
    ensures Holds(Filled(v, h * line), line, line, h)
  {
    assert h * line == (h - 1) * line + line;
  }

  lemma FilledAt(v: Byte, line: nat, h: nat, y: nat, b: nat)
    requires y < h && b < line
    ensures At(Filled(v, h * line), y * line + b) == v
  {
    FilledHolds(v, line, h);
    PixelInBounds(Filled(v, h * line), line, line, h, y, b);
  }

  lemma FilledChannels(v: Byte, w: nat, h: nat)
    requires w > 0 && h > 0
    ensures forall y, x, ch :: 0 <= y < h && 0 <= x < w && 0 <= ch < 3 ==>
      Channel(Filled(v, h * (4 * w)), 4 * w, y, x, ch) == v
  {
    forall y, x, ch | 0 <= y < h && 0 <= x < w && 0 <= ch < 3
      ensures Channel(Filled(v, h * (4 * w)), 4 * w, y, x, ch) == v
    {
      FilledAt(v, 4 * w, h, y, 4 * x + ch);
    }
  }

  lemma FilledGrey(v: Byte, w: nat, h: nat)
    requires w > 0 && h > 0
    ensures Brightened(Flat(v), GreyPixel(Filled(v, h * w), w), w, h, 0)
  {
    forall y, x | 0 <= y < h && 0 <= x < w
      ensures GreyPixel(Filled(v, h * w), w)(y, x) == Flat(v)(y, x) + 0
    {
      FilledAt(v, w, h, y, x);
    }
  }

  lemma FilledSame(v: Byte, w: nat, h: nat)
    requires w > 0 && h > 0
    ensures SamePicture(Filled(v, h * (4 * w)), 4 * w, Filled(v, h * w), w, w, h)
  {
    FilledChannels(v, w, h);
    FilledGrey(v, w, h);
  }

  lemma FilledRgba(v: Byte, w: nat, h: nat)
    requires w > 0 && h > 0
    ensures Brightened(Flat(v), RgbaPixel(Filled(v, h * (4 * w)), 4 * w), w, h, 0)
  {
    FilledChannels(v, w, h);
    forall y, x | 0 <= y < h && 0 <= x < w ensures RgbaPixel(Filled(v, h * (4 * w)), 4 * w)(y, x) == Flat(v)(y, x) + 0 {
      PixelOfChannels(Filled(v, h * (4 * w)), 4 * w, y, x);
      GreyLuma(v);
    }
  }

  /** Main result: on buffers with equal channels the two downsamplers agree for every picture of a size exactly when
      it is at least 8 lines high. */
  lemma BuffersAgreeExactly(w: nat, h: nat)
    requires w > 0 && h > 0
    ensures AlwaysAgree(w, h) <==> h >= 8
  {
    if h >= 8 {
      forall rgba, stride, grey, greyStride |
        Holds(rgba, stride, 4 * w, h) && Holds(grey, greyStride, w, h)
          && SamePicture(rgba, stride, grey, greyStride, w, h)
        ensures SameCells64(rgba, stride, grey, greyStride, w, h)
      {
        HighBuffersAgree(rgba, stride, grey, greyStride, w, h);
      }
    } else {
      LowBuffersDiffer(w, h);
    }
  }

  lemma HighBuffersAgree(rgba: seq<Byte>, stride: int, grey: seq<Byte>, greyStride: int, w: nat, h: nat)
    requires w > 0 && h >= 8 && SamePicture(rgba, stride, grey, greyStride, w, h)
    ensures SameCells64(rgba, stride, grey, greyStride, w, h)
  {
    var f, g := RgbaPixel(rgba, stride), GreyPixel(grey, greyStride);
    SamePixels(rgba, stride, grey, greyStride, w, h);
    DownsamplersAgreeExactly(w, h);
    assert Agree(f, w, h);
    forall cy: nat, cx: nat | cy < 8 && cx < 8 ensures RgbaCell(f, w, h, cy, cx) == GreyCell(g, w, h, cy, cx) {
      CellsOfImage(f, g, w, h, cy, cx);
    }
  }

  lemma LowBuffersDiffer(w: nat, h: nat)
    requires w > 0 && 0 < h < 8
    ensures !AlwaysAgree(w, h)
  {
    var rgba, grey := Filled(255, h * (4 * w)), Filled(255, h * w);
    FilledHolds(255, 4 * w, h);
    FilledHolds(255, w, h);
    FilledSame(255, w, h);
    FilledRgba(255, w, h);
    FilledGrey(255, w, h);
    CellsOfImage(Flat(255), RgbaPixel(rgba, 4 * w), w, h, 0, 0);
    CellsOfImage(Flat(255), GreyPixel(grey, w), w, h, 0, 0);
    FlatCells(255, w, h);
    assert !SameCells64(rgba, 4 * w, grey, w, w, h);
  }

  // ---- Brighter channels -----------------------------------------------------------------------------------

  /** b is a with c added to every colour channel of the image, nothing clipped; the alpha bytes are free. */
  ghost predicate Brighter(a: seq<Byte>, b: seq<Byte>, stride: int, w: nat, h: nat, c: int) {
    forall y, x, ch :: 0 <= y < h && 0 <= x < w && 0 <= ch < 3 ==>
      Channel(b, stride, y, x, ch) == Channel(a, stride, y, x, ch) + c
  }

  /** The luma weights add up to one. */
  /** The integer weights are those of ITU-R BT.601, 0.299, 0.587 and 0.114, to within a grey level and a half; brighter
      channels never give a darker luma. */
  lemma LumaIsGrey(r: Byte, g: Byte, b: Byte)
    ensures 299 * r + 587 * g + 114 * b - 1456 <= 1000 * Luma(r, g, b) <= 299 * r + 587 * g + 114 * b + 455
    ensures forall r': Byte, g': Byte, b': Byte :: r <= r' && g <= g' && b <= b' ==> Luma(r, g, b) <= Luma(r', g', b')
  {
    forall r': Byte, g': Byte, b': Byte | r <= r' && g <= g' && b <= b' ensures Luma(r, g, b) <= Luma(r', g', b') {
      Quotients(77 * r + 150 * g + 29 * b, 77 * r' + 150 * g' + 29 * b');
    }
  }

  lemma Quotients(x: int, y: int)
    requires x <= y
    ensures x / 256 <= y / 256
  {
  }

  lemma LumaShifted(r: Byte, g: Byte, b: Byte, c: int)
    requires 0 <= r + c < 256 && 0 <= g + c < 256 && 0 <= b + c < 256
    ensures Luma(r + c, g + c, b + c) == Luma(r, g, b) + c
  {
    assert 77 * (r + c) + 150 * (g + c) + 29 * (b + c) == 77 * r + 150 * g + 29 * b + 256 * c;
  }

  lemma BrighterPixels(a: seq<Byte>, b: seq<Byte>, stride: int, w: nat, h: nat, c: int)
    requires Brighter(a, b, stride, w, h, c)
    ensures Brightened(RgbaPixel(a, stride), RgbaPixel(b, stride), w, h, c)
  {
    forall y, x | 0 <= y < h && 0 <= x < w ensures RgbaPixel(b, stride)(y, x) == RgbaPixel(a, stride)(y, x) + c {
      PixelOfChannels(a, stride, y, x);
      PixelOfChannels(b, stride, y, x);
      LumaShifted(Channel(a, stride, y, x, 0), Channel(a, stride, y, x, 1), Channel(a, stride, y, x, 2), c);
    }
  }

  ghost predicate AlwaysStable(w: nat, h: nat) {
    forall a, b, stride, c ::
      Holds(a, stride, 4 * w, h) && Holds(b, stride, 4 * w, h) && Brighter(a, b, stride, w, h, c) ==>
      Hash(RgbaCells(RgbaPixel(a, stride), w, h)) == Hash(RgbaCells(RgbaPixel(b, stride), w, h))
  }

  /** Main result: adding a constant to every channel of an RGBA crop keeps its hash, for every crop of a size, exactly
      when it is at least 8 lines high. */
  lemma BufferHashStableExactly(w: nat, h: nat)
    requires w > 0 && h > 0
    ensures AlwaysStable(w, h) <==> h >= 8
  {
    if h >= 8 {
      RgbaHashStableExactly(w, h);
      forall a, b, stride, c | Holds(a, stride, 4 * w, h) && Holds(b, stride, 4 * w, h)
        && Brighter(a, b, stride, w, h, c)
        ensures Hash(RgbaCells(RgbaPixel(a, stride), w, h)) == Hash(RgbaCells(RgbaPixel(b, stride), w, h))
      {
        BrighterPixels(a, b, stride, w, h, c);
      }
    } else {
      LowBufferHashes(w, h);
    }
  }

  lemma LowBufferHashes(w: nat, h: nat)
    requires w > 0 && 0 < h < 8
    ensures !AlwaysStable(w, h)
  {
    var black, white := Filled(0, h * (4 * w)), Filled(255, h * (4 * w));
    FilledHolds(0, 4 * w, h);
    FilledHolds(255, 4 * w, h);
    FilledChannels(0, w, h);
    FilledChannels(255, w, h);
    assert Brighter(black, white, 4 * w, w, h, 255);
    FilledRgba(0, w, h);
    FilledRgba(255, w, h);
    HashOfImage(Flat(0), RgbaPixel(black, 4 * w), w, h);
    HashOfImage(Flat(255), RgbaPixel(white, 4 * w), w, h);
    LowImagesDiffer(w, h);
  }
}
