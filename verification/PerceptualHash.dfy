/** The 64-bit average hash of a crop: 8x8 area averages, from RGBA or from grey pixels, and one bit per cell
    that is brighter than the mean. */
module PerceptualHash {
  import opened Arithmetic

  type Byte = x: int | 0 <= x < 256

  // ---- Cells -----------------------------------------------------------------------------------------

  function Start(c: nat, n: nat): nat { c * n / 8 }

  /** The end of a cell that reads at least one line. */
  function End(c: nat, n: nat): nat {
    if Start(c + 1, n) > Start(c, n) then Start(c + 1, n) else Start(c, n) + 1
  }

  lemma StartMonotone(c: nat, n: nat)
    ensures Start(c, n) <= Start(c + 1, n)
    ensures n >= 8 ==> Start(c, n) < Start(c + 1, n)
    ensures c < 8 ==> Start(c + 1, n) <= n
    ensures c < 8 && n > 0 ==> Start(c, n) < n
  {
    assert (c + 1) * n == c * n + n;
    if c < 8 {
      MulMonotone(c + 1, 8, n);
      if n > 0 {
        MulMonotone(c, 7, n);
      }
    }
  }

  /** Every line belongs to exactly one cell, and this is which. */
  lemma LineInCell(x: nat, c: nat, n: nat)
    requires x < n
    ensures Start(c, n) <= x < Start(c + 1, n) <==> c == (8 * x + 7) / n
    ensures (8 * x + 7) / n < 8
  {
    assert Start(c, n) <= x <==> c * n <= 8 * x + 7;
    assert x < Start(c + 1, n) <==> 8 * x + 7 < (c + 1) * n;
    var q := (8 * x + 7) / n;
    assert q * n <= 8 * x + 7 < (q + 1) * n;
    DivInRange(8 * x + 7, 8, n);
    if c * n <= 8 * x + 7 < (c + 1) * n {
      LessByProduct(c, q + 1, n);
      LessByProduct(q, c + 1, n);
    }
  }

  // ---- Sums over rectangles --------------------------------------------------------------------------

  function RowSum(f: (int, int) -> Byte, y: int, x0: int, x1: int): nat
    decreases x1 - x0
  {
    if x1 <= x0 then 0 else RowSum(f, y, x0, x1 - 1) + f(y, x1 - 1)
  }

  function RectSum(f: (int, int) -> Byte, y0: int, y1: int, x0: int, x1: int): nat
    decreases y1 - y0
  {
    if y1 <= y0 then 0 else RectSum(f, y0, y1 - 1, x0, x1) + RowSum(f, y1 - 1, x0, x1)
  }

  lemma {:induction false} RowSumBound(f: (int, int) -> Byte, y: int, x0: int, x1: int)
    requires x0 <= x1
    ensures RowSum(f, y, x0, x1) <= 255 * (x1 - x0)
    decreases x1 - x0
  {
    if x0 < x1 { RowSumBound(f, y, x0, x1 - 1); }
  }

  lemma {:induction false} RectSumBound(f: (int, int) -> Byte, y0: int, y1: int, x0: int, x1: int)
    requires x0 <= x1 && y0 <= y1
    ensures RectSum(f, y0, y1, x0, x1) <= 255 * ((y1 - y0) * (x1 - x0))
    decreases y1 - y0
  {
    if y0 < y1 {
      RectSumBound(f, y0, y1 - 1, x0, x1);
      RowSumBound(f, y1 - 1, x0, x1);
      assert (y1 - y0) * (x1 - x0) == (y1 - 1 - y0) * (x1 - x0) + (x1 - x0);
    }
  }

  /** The rounded-down average of a rectangle, 0 for an empty one. */
  function Mean(f: (int, int) -> Byte, y0: nat, y1: nat, x0: nat, x1: nat): (m: Byte)
    requires y0 <= y1 && x0 <= x1
  {
    var n := (y1 - y0) * (x1 - x0);
    RectSumBound(f, y0, y1, x0, x1);
    if n == 0 then 0
    else
      var s := RectSum(f, y0, y1, x0, x1);
      DivInRange(s, 256, n);
      s / n
  }

  lemma {:induction false} RowSumSplit(f: (int, int) -> Byte, y: int, x0: int, x1: int, x2: int)
    requires x0 <= x1 <= x2
    ensures RowSum(f, y, x0, x2) == RowSum(f, y, x0, x1) + RowSum(f, y, x1, x2)
    decreases x2 - x1
  {
    if x1 < x2 { RowSumSplit(f, y, x0, x1, x2 - 1); }
  }

  lemma {:induction false} RectSumBeside(f: (int, int) -> Byte, y0: int, y1: int, x0: int, x1: int, x2: int)
    requires x0 <= x1 <= x2
    ensures RectSum(f, y0, y1, x0, x2) == RectSum(f, y0, y1, x0, x1) + RectSum(f, y0, y1, x1, x2)
    decreases y1 - y0
  {
    if y0 < y1 {
      RectSumBeside(f, y0, y1 - 1, x0, x1, x2);
      RowSumSplit(f, y1 - 1, x0, x1, x2);
    }
  }

  lemma {:induction false} RectSumBelow(f: (int, int) -> Byte, y0: int, y1: int, y2: int, x0: int, x1: int)
    requires y0 <= y1 <= y2
    ensures RectSum(f, y0, y2, x0, x1) == RectSum(f, y0, y1, x0, x1) + RectSum(f, y1, y2, x0, x1)
    decreases y2 - y1
  {
    if y1 < y2 { RectSumBelow(f, y0, y1, y2 - 1, x0, x1); }
  }

  /** An image of one value. */
  function Flat(v: Byte): (int, int) -> Byte { (y: int, x: int) => v }

  lemma {:induction false} FlatRow(v: Byte, y: int, x0: int, x1: int)
    requires x0 <= x1
    ensures RowSum(Flat(v), y, x0, x1) == v * (x1 - x0)
    decreases x1 - x0
  {
    if x0 < x1 { FlatRow(v, y, x0, x1 - 1); }
  }

  lemma {:induction false} FlatSum(v: Byte, y0: int, y1: int, x0: int, x1: int)
    requires x0 <= x1 && y0 <= y1
    ensures RectSum(Flat(v), y0, y1, x0, x1) == v * ((y1 - y0) * (x1 - x0))
    decreases y1 - y0
  {
    if y0 < y1 {
      FlatSum(v, y0, y1 - 1, x0, x1);
      FlatRow(v, y1 - 1, x0, x1);
      FlatStep(v, y1 - 1 - y0, x1 - x0);
    }
  }

  lemma FlatStep(v: int, a: int, b: int)
    ensures v * ((a + 1) * b) == v * (a * b) + v * b
  {
    assert (a + 1) * b == a * b + b;
  }

  /** The sums of the first c cells of a band of rows; ends says where cells end. */
  function BandCells(f: (int, int) -> Byte, y0: nat, y1: nat, w: nat, ends: nat -> nat, c: nat): nat {
    if c == 0 then 0 else BandCells(f, y0, y1, w, ends, c - 1) + RectSum(f, y0, y1, Start(c - 1, w), ends(c - 1))
  }

  function AllCells(f: (int, int) -> Byte, w: nat, h: nat, colEnds: nat -> nat, rowEnds: nat -> nat, c: nat): nat {
    if c == 0 then 0
    else AllCells(f, w, h, colEnds, rowEnds, c - 1) + BandCells(f, Start(c - 1, h), rowEnds(c - 1), w, colEnds, 8)
  }

  /** Cells that end where the next one starts, and cells that hold at least one line. */
  function Abutting(n: nat): nat -> nat { (c: nat) => Start(c + 1, n) }

  function NonEmpty(n: nat): nat -> nat { (c: nat) => End(c, n) }

  /** The sum over the rectangles the RGBA downsampler reads, and over those the grey one reads. */
  function RgbaTotal(f: (int, int) -> Byte, w: nat, h: nat): nat { AllCells(f, w, h, NonEmpty(w), Abutting(h), 8) }

  function GreyTotal(f: (int, int) -> Byte, w: nat, h: nat): nat { AllCells(f, w, h, NonEmpty(w), NonEmpty(h), 8) }

  ghost predicate Tiles(n: nat, ends: nat -> nat) { forall c: nat :: c < 8 ==> ends(c) == Start(c + 1, n) }

  lemma NonEmptyTiles(n: nat)
    requires n >= 8
    ensures Tiles(n, NonEmpty(n))
  {
    forall c: nat | c < 8 ensures NonEmpty(n)(c) == Start(c + 1, n) { StartMonotone(c, n); }
  }

  lemma {:induction false} BandTiled(f: (int, int) -> Byte, y0: nat, y1: nat, w: nat, ends: nat -> nat, c: nat)
    requires Tiles(w, ends) && c <= 8
    ensures BandCells(f, y0, y1, w, ends, c) == RectSum(f, y0, y1, 0, Start(c, w))
  {
    if c > 0 {
      BandTiled(f, y0, y1, w, ends, c - 1);
      StartMonotone(c - 1, w);
      RectSumBeside(f, y0, y1, 0, Start(c - 1, w), Start(c, w));
    } else {
      NoWidth(f, y0, y1);
    }
  }

  lemma BandWhole(f: (int, int) -> Byte, y0: nat, y1: nat, w: nat, ends: nat -> nat)
    requires Tiles(w, ends)
    ensures BandCells(f, y0, y1, w, ends, 8) == RectSum(f, y0, y1, 0, w)
  {
    BandTiled(f, y0, y1, w, ends, 8);
    WholeStart(w);
  }

  lemma {:induction false} NoWidth(f: (int, int) -> Byte, y0: int, y1: int)
    ensures RectSum(f, y0, y1, 0, 0) == 0
    decreases y1 - y0
  {
    if y0 < y1 { NoWidth(f, y0, y1 - 1); }
  }

  lemma {:induction false} CellsTile(f: (int, int) -> Byte, w: nat, h: nat, colEnds: nat -> nat, rowEnds: nat -> nat,
                                     c: nat)
    requires c <= 8 && Tiles(w, colEnds) && Tiles(h, rowEnds)
    ensures AllCells(f, w, h, colEnds, rowEnds, c) == RectSum(f, 0, Start(c, h), 0, w)
  {
    if c > 0 {
      CellsTile(f, w, h, colEnds, rowEnds, c - 1);
      StartMonotone(c - 1, h);
      BandWhole(f, Start(c - 1, h), Start(c, h), w, colEnds);
      RectSumBelow(f, 0, Start(c - 1, h), Start(c, h), 0, w);
    }
  }

  lemma WholeStart(n: nat)
    ensures Start(8, n) == n
  {
  }

  /** How many lines the first c cells read, lines read twice counted twice. */
  function Lines(n: nat, ends: nat -> nat, c: nat): int {
    if c == 0 then 0 else Lines(n, ends, c - 1) + (ends(c - 1) - Start(c - 1, n))
  }

  lemma {:induction false} LinesTiled(n: nat, ends: nat -> nat, c: nat)
    requires Tiles(n, ends) && c <= 8
    ensures Lines(n, ends, c) == Start(c, n)
  {
    if c > 0 { LinesTiled(n, ends, c - 1); }
  }

  lemma {:induction false} LinesNonEmpty(n: nat, c: nat)
    requires c <= 8
    ensures Lines(n, NonEmpty(n), c) >= c
  {
    if c > 0 { LinesNonEmpty(n, c - 1); }
  }

  /** At least one line per cell: with fewer than eight lines some are read twice. */
  lemma LinesRead(n: nat)
    ensures Lines(n, NonEmpty(n), 8) >= n && (Lines(n, NonEmpty(n), 8) == n <==> n >= 8)
  {
    LinesNonEmpty(n, 8);
    if n >= 8 {
      NonEmptyTiles(n);
      LinesTiled(n, NonEmpty(n), 8);
      WholeStart(n);
    }
  }

  lemma {:induction false} BandOfOnes(y0: nat, y1: nat, w: nat, ends: nat -> nat, c: nat)
    requires y0 <= y1 && forall k: nat :: k < c ==> ends(k) >= Start(k, w)
    ensures BandCells(Flat(1), y0, y1, w, ends, c) == (y1 - y0) * Lines(w, ends, c)
  {
    if c > 0 {
      BandOfOnes(y0, y1, w, ends, c - 1);
      FlatSum(1, y0, y1, Start(c - 1, w), ends(c - 1));
      Spread(y1 - y0, Lines(w, ends, c - 1), ends(c - 1) - Start(c - 1, w));
    }
  }

  lemma Spread(a: int, b: int, c: int)
    ensures a * (b + c) == a * b + a * c
  {
  }

  lemma SpreadLeft(a: int, b: int, c: int)
    ensures (a + b) * c == a * c + b * c
  {
  }

  lemma {:induction false} CellsOfOnes(w: nat, h: nat, colEnds: nat -> nat, rowEnds: nat -> nat, c: nat)
    requires c <= 8 && forall k: nat :: k < 8 ==> colEnds(k) >= Start(k, w) && rowEnds(k) >= Start(k, h)
    ensures AllCells(Flat(1), w, h, colEnds, rowEnds, c) == Lines(h, rowEnds, c) * Lines(w, colEnds, 8)
  {
    if c > 0 {
      CellsOfOnes(w, h, colEnds, rowEnds, c - 1);
      BandOfOnes(Start(c - 1, h), rowEnds(c - 1), w, colEnds, 8);
      SpreadLeft(Lines(h, rowEnds, c - 1), rowEnds(c - 1) - Start(c - 1, h), Lines(w, colEnds, 8));
    }
  }

  lemma EndsAfterStart(n: nat)
    ensures forall k: nat :: k < 8 ==> NonEmpty(n)(k) >= Start(k, n) && Abutting(n)(k) >= Start(k, n)
  {
    forall k: nat | k < 8
      ensures NonEmpty(n)(k) >= Start(k, n) && Abutting(n)(k) >= Start(k, n)
    {
      StartMonotone(k, n);
    }
  }

  lemma MoreThanArea(w: nat, h: nat, a: int, b: int)
    requires w > 0 && h > 0 && a >= w && b >= h
    ensures b * a == h * w <==> a == w && b == h
  {
    var da: nat, db: nat := a - w, b - h;
    Excess(w, h, da, db);
  }

  lemma Excess(w: nat, h: nat, da: nat, db: nat)
    requires w > 0 && h > 0
    ensures (h + db) * (w + da) == h * w + h * da + db * w + db * da
    ensures da > 0 ==> h * da > 0
    ensures db > 0 ==> db * w > 0
  {
    SpreadLeft(h, db, w + da);
    Spread(h, w, da);
    Spread(db, w, da);
  }

  /** The RGBA downsampler reads every pixel of the image exactly once if and only if there are eight columns or more:
      then the sum over its own rectangles is the sum over the image, and otherwise the image of ones shows pixels
      read twice. */
  lemma RgbaReadsOnceExactly(w: nat, h: nat)
    requires w > 0 && h > 0
    ensures (forall f: (int, int) -> Byte :: RgbaTotal(f, w, h) == RectSum(f, 0, h, 0, w)) <==> w >= 8
  {
    WholeStart(h);
    if w >= 8 {
      NonEmptyTiles(w);
      forall f: (int, int) -> Byte ensures RgbaTotal(f, w, h) == RectSum(f, 0, h, 0, w) {
        CellsTile(f, w, h, NonEmpty(w), Abutting(h), 8);
      }
    } else {
      EndsAfterStart(w);
      EndsAfterStart(h);
      CellsOfOnes(w, h, NonEmpty(w), Abutting(h), 8);
      LinesTiled(h, Abutting(h), 8);
      LinesRead(w);
      MoreThanArea(w, h, Lines(w, NonEmpty(w), 8), h);
      FlatSum(1, 0, h, 0, w);
      assert RgbaTotal(Flat(1), w, h) != RectSum(Flat(1), 0, h, 0, w);
    }
  }

  /** The grey downsampler does so if and only if the image is at least 8x8. */
  lemma GreyReadsOnceExactly(w: nat, h: nat)
    requires w > 0 && h > 0
    ensures (forall f: (int, int) -> Byte :: GreyTotal(f, w, h) == RectSum(f, 0, h, 0, w)) <==> w >= 8 && h >= 8
  {
    WholeStart(h);
    if w >= 8 && h >= 8 {
      NonEmptyTiles(w);
      NonEmptyTiles(h);
      forall f: (int, int) -> Byte ensures GreyTotal(f, w, h) == RectSum(f, 0, h, 0, w) {
        CellsTile(f, w, h, NonEmpty(w), NonEmpty(h), 8);
      }
    } else {
      EndsAfterStart(w);
      EndsAfterStart(h);
      CellsOfOnes(w, h, NonEmpty(w), NonEmpty(h), 8);
      LinesRead(w);
      LinesRead(h);
      MoreThanArea(w, h, Lines(w, NonEmpty(w), 8), Lines(h, NonEmpty(h), 8));
      FlatSum(1, 0, h, 0, w);
      assert GreyTotal(Flat(1), w, h) != RectSum(Flat(1), 0, h, 0, w);
    }
  }

  // ---- The two downsamplers --------------------------------------------------------------------------

  function Luma(r: Byte, g: Byte, b: Byte): Byte { (77 * r + 150 * g + 29 * b) / 256 }

  function At(buf: seq<Byte>, i: int): Byte { if 0 <= i < |buf| then buf[i] else 0 }

  function RgbaPixel(buf: seq<Byte>, stride: int): (int, int) -> Byte {
    (y, x) => Luma(At(buf, y * stride + 4 * x), At(buf, y * stride + 4 * x + 1), At(buf, y * stride + 4 * x + 2))
  }

  function GreyPixel(buf: seq<Byte>, stride: int): (int, int) -> Byte { (y, x) => At(buf, y * stride + x) }

  function RgbaCell(f: (int, int) -> Byte, w: nat, h: nat, cy: nat, cx: nat): Byte {
    StartMonotone(cy, h);
    Mean(f, Start(cy, h), Start(cy + 1, h), Start(cx, w), End(cx, w))
  }

  function GreyCell(f: (int, int) -> Byte, w: nat, h: nat, cy: nat, cx: nat): Byte {
    Mean(f, Start(cy, h), End(cy, h), Start(cx, w), End(cx, w))
  }

  /** The buffer holds h lines, `stride` apart, the last one at least `line` bytes long. */
  ghost predicate Holds(buf: seq<Byte>, stride: int, line: int, h: int) {
    stride >= line && (h > 0 ==> |buf| >= (h - 1) * stride + line)
  }

  lemma PixelInBounds(buf: seq<Byte>, stride: int, line: int, h: int, y: nat, b: nat)
    requires Holds(buf, stride, line, h) && y < h && b < line
    ensures 0 <= y * stride + b < |buf|
  {
    MulMonotone(y, h - 1, stride);
  }

  lemma RgbaRead(rgba: seq<Byte>, w: int, h: int, stride: int, y: nat, x: nat)
    requires Holds(rgba, stride, 4 * w, h) && y < h && x < w
    ensures 0 <= y * stride + 4 * x && y * stride + 4 * x + 2 < |rgba|
    ensures var at := y * stride + 4 * x; RgbaPixel(rgba, stride)(y, x) == Luma(rgba[at], rgba[at + 1], rgba[at + 2])
  {
    PixelInBounds(rgba, stride, 4 * w, h, y, 4 * x);
    PixelInBounds(rgba, stride, 4 * w, h, y, 4 * x + 2);
  }

  method ReadLuma(rgba: seq<Byte>, ghost w: int, ghost h: int, stride: int, y: nat, x: nat) returns (luma: Byte)
    requires Holds(rgba, stride, 4 * w, h) && y < h && x < w
    ensures luma == RgbaPixel(rgba, stride)(y, x)
  {
    RgbaRead(rgba, w, h, stride, y, x);
    var at := y * stride + 4 * x;
    luma := Luma(rgba[at], rgba[at + 1], rgba[at + 2]);
  }

  /** What a row adds to a sum and a count after xx of its pixels. */
  ghost predicate RowAdds(f: (int, int) -> Byte, y: nat, x0: nat, xx: nat, sum: nat, count: nat, sum': nat,
                          count': nat) {
    sum' == sum + RowSum(f, y, x0, x0 + xx) && count' == count + xx
  }

  lemma RowGrows(f: (int, int) -> Byte, y: nat, x0: nat, xx: nat, sum: nat, count: nat, sum': nat, count': nat)
    requires RowAdds(f, y, x0, xx, sum, count, sum', count')
    ensures RowAdds(f, y, x0, xx + 1, sum, count, sum' + f(y, x0 + xx), count' + 1)
  {
  }

  method RgbaRow(rgba: seq<Byte>, ghost w: int, ghost h: int, stride: int, y: nat, x0: nat, xw: nat, sum: nat,
                 count: nat)
      returns (sum': nat, count': nat)
    requires Holds(rgba, stride, 4 * w, h) && y < h && x0 + xw <= w
    ensures sum' == sum + RowSum(RgbaPixel(rgba, stride), y, x0, x0 + xw) && count' == count + xw
  {
    ghost var f := RgbaPixel(rgba, stride);
    sum', count' := sum, count;
    for xx := 0 to xw
      invariant RowAdds(f, y, x0, xx, sum, count, sum', count')
    {
      var luma := ReadLuma(rgba, w, h, stride, y, x0 + xx);
      RowGrows(f, y, x0, xx, sum, count, sum', count');
      sum', count' := sum' + luma, count' + 1;
    }
  }

  /** The sum and count over the rows y0..y1 of a cell. */
  ghost predicate Summed(f: (int, int) -> Byte, y0: nat, y1: nat, x0: nat, xw: nat, sum: nat, count: nat)
    requires y0 <= y1
  {
    sum == RectSum(f, y0, y1, x0, x0 + xw) && count == (y1 - y0) * xw
  }

  lemma Started(f: (int, int) -> Byte, y0: nat, x0: nat, xw: nat)
    ensures Summed(f, y0, y0, x0, xw, 0, 0)
  {
  }

  lemma RowAdded(f: (int, int) -> Byte, y0: nat, y1: nat, x0: nat, xw: nat, sum: nat, count: nat)
    requires y0 <= y1 && Summed(f, y0, y1, x0, xw, sum, count)
    ensures Summed(f, y0, y1 + 1, x0, xw, sum + RowSum(f, y1, x0, x0 + xw), count + xw)
  {
    CountStep(y1 - y0, xw);
  }

  lemma CountStep(rows: nat, xw: nat)
    ensures (rows + 1) * xw == rows * xw + xw
  {
  }

  lemma Averaged(f: (int, int) -> Byte, y0: nat, y1: nat, x0: nat, xw: nat, sum: nat, count: nat)
    requires y0 <= y1 && Summed(f, y0, y1, x0, xw, sum, count)
    ensures Mean(f, y0, y1, x0, x0 + xw) == (if count > 0 then sum / count else 0)
  {
  }

  method RgbaCellMean(rgba: seq<Byte>, ghost w: int, ghost h: int, stride: int, y0: nat, y1: nat, x0: nat, xw: nat)
      returns (avg: Byte)
    requires Holds(rgba, stride, 4 * w, h) && y0 <= y1 <= h && x0 + xw <= w
    ensures avg == Mean(RgbaPixel(rgba, stride), y0, y1, x0, x0 + xw)
  {
    ghost var f := RgbaPixel(rgba, stride);
    var sum: nat, count: nat := 0, 0;
    Started(f, y0, x0, xw);
    for yy := y0 to y1
      invariant Summed(f, y0, yy, x0, xw, sum, count)
    {
      RowAdded(f, y0, yy, x0, xw, sum, count);
      sum, count := RgbaRow(rgba, w, h, stride, yy, x0, xw, sum, count);
    }
    Averaged(f, y0, y1, x0, xw, sum, count);
    avg := if count > 0 then sum / count else 0;
  }

  lemma GreyRead(grey: seq<Byte>, w: int, h: int, stride: int, y: nat, x: nat)
    requires Holds(grey, stride, w, h) && y < h && x < w
    ensures 0 <= y * stride + x < |grey| && GreyPixel(grey, stride)(y, x) == grey[y * stride + x]
  {
    PixelInBounds(grey, stride, w, h, y, x);
  }

  method GreyRow(grey: seq<Byte>, ghost w: int, ghost h: int, stride: int, y: nat, x0: nat, xw: nat, sum: nat,
                 count: nat)
      returns (sum': nat, count': nat)
    requires Holds(grey, stride, w, h) && y < h && x0 + xw <= w
    ensures sum' == sum + RowSum(GreyPixel(grey, stride), y, x0, x0 + xw) && count' == count + xw
  {
    ghost var f := GreyPixel(grey, stride);
    sum', count' := sum, count;
    var row := y * stride + x0;
    for xx := 0 to xw
      invariant RowAdds(f, y, x0, xx, sum, count, sum', count')
    {
      GreyRead(grey, w, h, stride, y, x0 + xx);
      RowGrows(f, y, x0, xx, sum, count, sum', count');
      sum' := sum' + grey[row + xx];
      count' := count' + 1;
    }
  }

  method GreyCellMean(grey: seq<Byte>, ghost w: int, ghost h: int, stride: int, y0: nat, y1: nat, x0: nat, xw: nat)
      returns (avg: Byte)
    requires Holds(grey, stride, w, h) && y0 <= y1 <= h && x0 + xw <= w
    ensures avg == Mean(GreyPixel(grey, stride), y0, y1, x0, x0 + xw)
  {
    ghost var f := GreyPixel(grey, stride);
    var sum: nat, count: nat := 0, 0;
    Started(f, y0, x0, xw);
    for yy := y0 to y1
      invariant Summed(f, y0, yy, x0, xw, sum, count)
    {
      RowAdded(f, y0, yy, x0, xw, sum, count);
      sum, count := GreyRow(grey, w, h, stride, yy, x0, xw, sum, count);
    }
    Averaged(f, y0, y1, x0, xw, sum, count);
    avg := if count > 0 then sum / count else 0;
  }

  lemma CellInImage(c: nat, n: nat)
    requires c < 8 && n > 0
    ensures Start(c, n) <= Start(c + 1, n) <= n && Start(c, n) < End(c, n) <= n
  {
    StartMonotone(c, n);
  }

  /** The 64 cells in reading order. */
  function GreyCells(f: (int, int) -> Byte, w: nat, h: nat): (s: seq<Byte>)
    ensures |s| == 64
  {
    seq(64, i requires 0 <= i < 64 => GreyCell(f, w, h, i / 8, i % 8))
  }

  function RgbaCells(f: (int, int) -> Byte, w: nat, h: nat): (s: seq<Byte>)
    ensures |s| == 64
  {
    seq(64, i requires 0 <= i < 64 => RgbaCell(f, w, h, i / 8, i % 8))
  }

  lemma RgbaCellAt(f: (int, int) -> Byte, w: nat, h: nat, cy: nat, cx: nat)
    requires cy < 8 && cx < 8
    ensures RgbaCells(f, w, h)[cy * 8 + cx] == RgbaCell(f, w, h, cy, cx)
  {
    DivModUnique(cy * 8 + cx, cy, 8, cx);
  }

  lemma GreyCellAt(f: (int, int) -> Byte, w: nat, h: nat, cy: nat, cx: nat)
    requires cy < 8 && cx < 8
    ensures GreyCells(f, w, h)[cy * 8 + cx] == GreyCell(f, w, h, cy, cx)
  {
    DivModUnique(cy * 8 + cx, cy, 8, cx);
  }

  method RgbaOneCell(rgba: seq<Byte>, w: nat, h: nat, stride: int, cy: nat, cx: nat) returns (avg: Byte)
    requires Holds(rgba, stride, 4 * w, h) && w > 0 && h > 0 && cy < 8 && cx < 8
    ensures avg == RgbaCell(RgbaPixel(rgba, stride), w, h, cy, cx)
  {
    CellInImage(cy, h);
    CellInImage(cx, w);
    var x0, x1 := Start(cx, w), Start(cx + 1, w);
    var xw := if x1 > x0 then x1 - x0 else 1;
    avg := RgbaCellMean(rgba, w, h, stride, Start(cy, h), Start(cy + 1, h), x0, xw);
  }

  method RgbaCellRow(rgba: seq<Byte>, w: nat, h: nat, stride: int, cy: nat, out: array<Byte>)
    requires out.Length == 64 && Holds(rgba, stride, 4 * w, h) && w > 0 && h > 0 && cy < 8
    modifies out
    ensures forall i :: cy * 8 <= i < cy * 8 + 8 ==> out[i] == RgbaCells(RgbaPixel(rgba, stride), w, h)[i]
    ensures forall i :: 0 <= i < cy * 8 ==> out[i] == old(out[i])
  {
    ghost var cells := RgbaCells(RgbaPixel(rgba, stride), w, h);
    for cx := 0 to 8
      invariant forall i :: cy * 8 <= i < cy * 8 + cx ==> out[i] == cells[i]
      invariant forall i :: 0 <= i < cy * 8 ==> out[i] == old(out[i])
    {
      var avg := RgbaOneCell(rgba, w, h, stride, cy, cx);
      RgbaCellAt(RgbaPixel(rgba, stride), w, h, cy, cx);
      out[cy * 8 + cx] := avg;
    }
  }

  /** Fill an 8x8 buffer from RGBA; an empty image leaves it alone. */
  method DownsampleRgba(rgba: seq<Byte>, w: int, h: int, stride: int, out: array<Byte>)
    requires out.Length == 64 && Holds(rgba, stride, 4 * w, h)
    modifies out
    ensures w <= 0 || h <= 0 ==> out[..] == old(out[..])
    ensures w > 0 && h > 0 ==> out[..] == RgbaCells(RgbaPixel(rgba, stride), w, h)
  {
    if w <= 0 || h <= 0 { return; }
    for cy := 0 to 8
      invariant forall i :: 0 <= i < cy * 8 ==> out[i] == RgbaCells(RgbaPixel(rgba, stride), w, h)[i]
    {
      RgbaCellRow(rgba, w, h, stride, cy, out);
    }
  }

  method GreyOneCell(grey: seq<Byte>, w: nat, h: nat, stride: int, cy: nat, cx: nat) returns (avg: Byte)
    requires Holds(grey, stride, w, h) && w > 0 && h > 0 && cy < 8 && cx < 8
    ensures avg == GreyCell(GreyPixel(grey, stride), w, h, cy, cx)
  {
    CellInImage(cy, h);
    CellInImage(cx, w);
    var x0, x1 := Start(cx, w), Start(cx + 1, w);
    var xw := if x1 > x0 then x1 - x0 else 1;
    var y0, y1 := Start(cy, h), Start(cy + 1, h);
    var yEnd := if y1 > y0 then y1 else y0 + 1;
    avg := GreyCellMean(grey, w, h, stride, y0, yEnd, x0, xw);
  }

  method GreyCellRow(grey: seq<Byte>, w: nat, h: nat, stride: int, cy: nat, out: array<Byte>)
    requires out.Length == 64 && Holds(grey, stride, w, h) && w > 0 && h > 0 && cy < 8
    modifies out
    ensures forall i :: cy * 8 <= i < cy * 8 + 8 ==> out[i] == GreyCells(GreyPixel(grey, stride), w, h)[i]
    ensures forall i :: 0 <= i < cy * 8 ==> out[i] == old(out[i])
  {
    ghost var cells := GreyCells(GreyPixel(grey, stride), w, h);
    for cx := 0 to 8
      invariant forall i :: cy * 8 <= i < cy * 8 + cx ==> out[i] == cells[i]
      invariant forall i :: 0 <= i < cy * 8 ==> out[i] == old(out[i])
    {
      var avg := GreyOneCell(grey, w, h, stride, cy, cx);
      GreyCellAt(GreyPixel(grey, stride), w, h, cy, cx);
      out[cy * 8 + cx] := avg;
    }
  }

  /** Fill an 8x8 buffer from grey pixels; cells of a low image read one line. */
  method DownsampleGrey(grey: seq<Byte>, w: int, h: int, stride: int, out: array<Byte>)
    requires out.Length == 64 && Holds(grey, stride, w, h)
    modifies out
    ensures w <= 0 || h <= 0 ==> out[..] == old(out[..])
    ensures w > 0 && h > 0 ==> out[..] == GreyCells(GreyPixel(grey, stride), w, h)
  {
    if w <= 0 || h <= 0 { return; }
    for cy := 0 to 8
      invariant forall i :: 0 <= i < cy * 8 ==> out[i] == GreyCells(GreyPixel(grey, stride), w, h)[i]
    {
      GreyCellRow(grey, w, h, stride, cy, out);
    }
  }

  predicate Agree(f: (int, int) -> Byte, w: nat, h: nat) {
    forall cy, cx :: 0 <= cy < 8 && 0 <= cx < 8 ==> RgbaCell(f, w, h, cy, cx) == GreyCell(f, w, h, cy, cx)
  }

  /** The two downsamplers agree on the grey pictures of a given size exactly when it is at least 8 lines high. */
  lemma DownsamplersAgreeExactly(w: nat, h: nat)
    requires w > 0 && h > 0
    ensures (forall f: (int, int) -> Byte :: Agree(f, w, h)) <==> h >= 8
  {
    if h >= 8 {
      forall f: (int, int) -> Byte ensures Agree(f, w, h) {
        forall cy: nat, cx: nat | cy < 8 && cx < 8 ensures RgbaCell(f, w, h, cy, cx) == GreyCell(f, w, h, cy, cx) {
          StartMonotone(cy, h);
        }
      }
    } else {
      FlatCells(255, w, h);
      assert RgbaCell(Flat(255), w, h, 0, 0) != GreyCell(Flat(255), w, h, 0, 0);
      assert !Agree(Flat(255), w, h);
    }
  }

  // ---- The hash --------------------------------------------------------------------------------------

  function Sum(s: seq<Byte>): nat { if s == [] then 0 else Sum(s[..|s| - 1]) + s[|s| - 1] }

  /** Bit p of a hash, counted from the right. */
  predicate Bit(h: bv64, p: bv7)
    requires p < 64
  {
    (h >> p) & 1 == 1
  }

  function WithBit(h: bv64, p: bv7): bv64
    requires p < 64
  {
    h | (1 << p)
  }

  lemma SetBit(h: bv64, i: bv7, p: bv7)
    requires i < 64 && p < 64
    ensures Bit(WithBit(h, i), p) <==> p == i || Bit(h, p)
  {
  }

  lemma NoBit(p: bv7)
    requires p < 64
    ensures !Bit(0, p)
  {
  }

  function Down(n: bv7): (m: bv7)
    requires n != 0 && n <= 64
    ensures m < n && m < 64 && m as nat == n as nat - 1
  {
    n - 1
  }

  /** The bits of the first n cells. */
  function HashOf(above: bv7 -> bool, n: bv7): bv64
    requires n <= 64
    decreases n as nat
  {
    if n == 0 then 0
    else
      var i := Down(n);
      if above(i) then WithBit(HashOf(above, i), 63 - i) else HashOf(above, i)
  }

  function Above(luma: seq<Byte>, mean: nat): bv7 -> bool
    requires |luma| == 64
  {
    (i: bv7) => i < 64 && luma[i] > mean
  }

  function Hash(luma: seq<Byte>): bv64
    requires |luma| == 64
  {
    HashOf(Above(luma, Sum(luma) / 64), 64)
  }

  method AverageHash(luma: seq<Byte>) returns (h: bv64)
    requires |luma| == 64
    ensures h == Hash(luma)
  {
    var sum: nat := 0;
    for i := 0 to 64
      invariant sum == Sum(luma[..i])
    {
      assert luma[..i + 1][..i] == luma[..i];
      sum := sum + luma[i];
    }
    assert luma[..64] == luma;
    var mean := sum / 64;
    h := 0;
    var i: bv7 := 0;
    while i < 64
      invariant i <= 64 && h == HashOf(Above(luma, mean), i)
      decreases 64 - i
    {
      assert Down(i + 1) == i;
      if luma[i] > mean { h := WithBit(h, 63 - i); }
      i := i + 1;
    }
  }

  lemma Mirror(n: bv7, i: bv7, p: bv7)
    requires n != 0 && n <= 64 && i == n - 1 && p < 64
    ensures 63 - i < 64 && (p >= 64 - n <==> p == 63 - i || p >= 64 - i)
    ensures p == 63 - i ==> 63 - p == i
  {
  }

  lemma {:induction false} HashOfBit(above: bv7 -> bool, n: bv7, p: bv7)
    requires n <= 64 && p < 64
    ensures Bit(HashOf(above, n), p) <==> p >= 64 - n && above(63 - p)
    decreases n as nat
  {
    if n == 0 {
      NoBit(p);
    } else {
      var i := Down(n);
      HashOfBit(above, i, p);
      SetBit(HashOf(above, i), 63 - i, p);
      Mirror(n, i, p);
    }
  }

  /** Cell i owns bit 63 - i, set exactly when the cell is above the truncated mean. */
  lemma HashBits(luma: seq<Byte>, i: bv7)
    requires |luma| == 64 && i < 64
    ensures Bit(Hash(luma), 63 - i) <==> luma[i] > Sum(luma) / 64
  {
    HashOfBit(Above(luma, Sum(luma) / 64), 64, 63 - i);
    assert 63 - (63 - i) == i;
  }

  lemma {:induction false} SumAbove(s: seq<Byte>, m: nat)
    requires forall i :: 0 <= i < |s| ==> s[i] >= m
    ensures Sum(s) >= |s| * m
  {
    if s != [] {
      SumAbove(s[..|s| - 1], m);
      assert |s| * m == (|s| - 1) * m + m;
    }
  }

  lemma {:induction false} Index(i: nat) returns (p: bv7)
    requires i < 64
    ensures p < 64 && p as nat == i
  {
    p := 0;
    if i > 0 {
      p := Index(i - 1);
      p := p + 1;
    }
  }

  lemma AllBits(p: bv7)
    requires p < 64
    ensures Bit(0xFFFF_FFFF_FFFF_FFFF, p)
  {
  }

  /** Some cell is not above the mean, so no hash is all ones. */
  lemma NeverAllOnes(luma: seq<Byte>)
    requires |luma| == 64
    ensures Hash(luma) != 0xFFFF_FFFF_FFFF_FFFF
  {
    var m := Sum(luma) / 64;
    if i :| 0 <= i < 64 && luma[i] <= m {
      var p := Index(i);
      HashBits(luma, p);
      AllBits(63 - p);
    } else {
      SumAbove(luma, m + 1);
    }
  }

  /** Two readings of the same brightness pattern. */
  lemma {:induction false} SumShifted(s: seq<Byte>, t: seq<Byte>, c: int)
    requires |s| == |t| && forall i :: 0 <= i < |s| ==> t[i] == s[i] + c
    ensures Sum(t) == Sum(s) + |s| * c
  {
    if s != [] {
      var n := |s| - 1;
      SumShifted(s[..n], t[..n], c);
      assert |s| * c == n * c + c;
    }
  }

  lemma {:induction false} HashOfCongruent(a: bv7 -> bool, b: bv7 -> bool, n: bv7)
    requires n <= 64 && forall i :: a(i) <==> b(i)
    ensures HashOf(a, n) == HashOf(b, n)
    decreases n as nat
  {
    if n != 0 { HashOfCongruent(a, b, Down(n)); }
  }

  lemma HashShifted(s: seq<Byte>, t: seq<Byte>, c: int)
    requires |s| == 64 == |t| && forall i :: 0 <= i < 64 ==> t[i] == s[i] + c
    ensures Hash(t) == Hash(s)
  {
    SumShifted(s, t, c);
    assert Sum(t) / 64 == Sum(s) / 64 + c;
    HashOfCongruent(Above(s, Sum(s) / 64), Above(t, Sum(t) / 64), 64);
  }

  // ---- Brightness does not matter ----------------------------------------------------------------------

  /** g is f with c added to every pixel of the image, nothing clipped. */
  ghost predicate Brightened(f: (int, int) -> Byte, g: (int, int) -> Byte, w: nat, h: nat, c: int) {
    forall y, x :: 0 <= y < h && 0 <= x < w ==> g(y, x) == f(y, x) + c
  }

  lemma {:induction false} RowSumBrighter(f: (int, int) -> Byte, g: (int, int) -> Byte, w: nat, h: nat, c: int, y: nat,
                                          x0: nat, x1: nat)
    requires Brightened(f, g, w, h, c) && y < h && x0 <= x1 <= w
    ensures RowSum(g, y, x0, x1) == RowSum(f, y, x0, x1) + (x1 - x0) * c
    decreases x1 - x0
  {
    if x0 < x1 {
      RowSumBrighter(f, g, w, h, c, y, x0, x1 - 1);
      assert (x1 - x0) * c == (x1 - 1 - x0) * c + c;
    }
  }

  lemma {:induction false} RectSumBrighter(f: (int, int) -> Byte, g: (int, int) -> Byte, w: nat, h: nat, c: int,
                                           y0: nat, y1: nat, x0: nat, x1: nat)
    requires Brightened(f, g, w, h, c) && y0 <= y1 <= h && x0 <= x1 <= w
    ensures RectSum(g, y0, y1, x0, x1) == RectSum(f, y0, y1, x0, x1) + (y1 - y0) * (x1 - x0) * c
    decreases y1 - y0
  {
    if y0 < y1 {
      RectSumBrighter(f, g, w, h, c, y0, y1 - 1, x0, x1);
      RowSumBrighter(f, g, w, h, c, y1 - 1, x0, x1);
      Distribute(y1 - 1 - y0, x1 - x0, c);
    }
  }

  lemma Distribute(a: int, b: int, c: int)
    ensures (a + 1) * b * c == a * b * c + b * c
  {
  }

  lemma QuotientShifted(s: nat, n: nat, c: int)
    requires n > 0
    ensures (s + n * c) / n == s / n + c
  {
    var q := s / n;
    assert q * n <= s < (q + 1) * n;
    assert (q + c) * n == q * n + n * c && (q + c + 1) * n == (q + 1) * n + n * c;
    QuotientUnique(s + n * c, n, q + c);
  }

  lemma MeanBrighter(f: (int, int) -> Byte, g: (int, int) -> Byte, w: nat, h: nat, c: int,
                     y0: nat, y1: nat, x0: nat, x1: nat)
    requires Brightened(f, g, w, h, c) && y0 < y1 <= h && x0 < x1 <= w
    ensures Mean(g, y0, y1, x0, x1) == Mean(f, y0, y1, x0, x1) + c
  {
    var n := (y1 - y0) * (x1 - x0);
    MulMonotone(1, y1 - y0, x1 - x0);
    RectSumBrighter(f, g, w, h, c, y0, y1, x0, x1);
    QuotientShifted(RectSum(f, y0, y1, x0, x1), n, c);
  }

  /** A grey picture and a brighter copy of it have the same hash, whatever their size. */
  lemma GreyHashStable(f: (int, int) -> Byte, g: (int, int) -> Byte, w: nat, h: nat, c: int)
    requires w > 0 && h > 0 && Brightened(f, g, w, h, c)
    ensures Hash(GreyCells(f, w, h)) == Hash(GreyCells(g, w, h))
  {
    forall i | 0 <= i < 64 ensures GreyCells(g, w, h)[i] == GreyCells(f, w, h)[i] + c {
      CellInImage(i / 8, h);
      CellInImage(i % 8, w);
      MeanBrighter(f, g, w, h, c, Start(i / 8, h), End(i / 8, h), Start(i % 8, w), End(i % 8, w));
    }
    HashShifted(GreyCells(f, w, h), GreyCells(g, w, h), c);
  }

  ghost predicate Stable(w: nat, h: nat) {
    forall f: (int, int) -> Byte, g: (int, int) -> Byte, c: int ::
      Brightened(f, g, w, h, c) ==> Hash(RgbaCells(f, w, h)) == Hash(RgbaCells(g, w, h))
  }

  /** An RGBA crop's hash ignores brightness exactly when the crop is at least 8 lines high: lower crops have
      empty cells, which stay black. */
  lemma RgbaHashStableExactly(w: nat, h: nat)
    requires w > 0 && h > 0
    ensures Stable(w, h) <==> h >= 8
  {
    if h >= 8 {
      forall f: (int, int) -> Byte, g: (int, int) -> Byte, c: int | Brightened(f, g, w, h, c)
        ensures Hash(RgbaCells(f, w, h)) == Hash(RgbaCells(g, w, h))
      {
        SameCells(f, w, h);
        SameCells(g, w, h);
        GreyHashStable(f, g, w, h, c);
      }
    } else {
      assert Brightened(Flat(0), Flat(255), w, h, 255);
      LowImagesDiffer(w, h);
    }
  }

  lemma SameCells(f: (int, int) -> Byte, w: nat, h: nat)
    requires w > 0 && h >= 8
    ensures RgbaCells(f, w, h) == GreyCells(f, w, h)
  {
    DownsamplersAgreeExactly(w, h);
    assert Agree(f, w, h);
  }

  /** Black and white: no bit is set in the one, but the bottom left bit is in the other, whose top row is empty. */
  lemma LowImagesDiffer(w: nat, h: nat)
    requires w > 0 && 0 < h < 8
    ensures Hash(RgbaCells(Flat(0), w, h)) != Hash(RgbaCells(Flat(255), w, h))
  {
    var black, white := RgbaCells(Flat(0), w, h), RgbaCells(Flat(255), w, h);
    FlatCells(0, w, h);
    FlatCells(255, w, h);
    RgbaCellAt(Flat(0), w, h, 7, 0);
    RgbaCellAt(Flat(255), w, h, 7, 0);
    RgbaCellAt(Flat(255), w, h, 0, 0);
    DarkAndBright(black, white);
  }

  lemma DarkAndBright(black: seq<Byte>, white: seq<Byte>)
    requires |black| == 64 == |white| && black[56] == 0 && white[56] == 255 && white[0] == 0
    ensures Hash(black) != Hash(white)
  {
    SumBelow(white, 255);
    HashBits(black, 56);
    HashBits(white, 56);
  }

  lemma FlatCells(v: Byte, w: nat, h: nat)
    requires w > 0 && 0 < h < 8
    ensures RgbaCell(Flat(v), w, h, 0, 0) == 0 && RgbaCell(Flat(v), w, h, 7, 0) == v
    ensures GreyCell(Flat(v), w, h, 0, 0) == v
  {
    CellInImage(0, w);
    StartMonotone(7, h);
    assert Start(0, h) == Start(1, h) == 0 && Start(0, w) == 0;
    FlatMean(v, Start(7, h), Start(8, h), 0, End(0, w));
    FlatMean(v, 0, 1, 0, End(0, w));
  }

  lemma FlatMean(v: Byte, y0: nat, y1: nat, x0: nat, x1: nat)
    requires y0 < y1 && x0 < x1
    ensures Mean(Flat(v), y0, y1, x0, x1) == v
  {
    var n := (y1 - y0) * (x1 - x0);
    MulMonotone(1, y1 - y0, x1 - x0);
    FlatSum(v, y0, y1, x0, x1);
    DivModUnique(v * n, v, n, 0);
  }

  lemma {:induction false} SumBelow(s: seq<Byte>, m: nat)
    requires s != [] && s[0] < m && forall i :: 0 <= i < |s| ==> s[i] <= m
    ensures Sum(s) < |s| * m
  {
    if |s| > 1 {
      SumBelow(s[..|s| - 1], m);
      assert |s| * m == (|s| - 1) * m + m;
    }
  }
}
