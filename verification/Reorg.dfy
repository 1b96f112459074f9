/** The reorg layer's view/transpose chain on row-major data, against its closed form. The batch index is
    carried along unchanged by every step, so one batch item is modelled. */
module Reorg {
  import opened Arithmetic

  /** transpose(i, i+1).contiguous() of a tensor seen as outer x d1 x d2 x inner: entry (a, i, j, b) moves
      to (a, j, i, b). A view in between only renames the extents. */
  function Transposed<T>(data: seq<T>, outer: nat, d1: nat, d2: nat, inner: nat): (r: seq<T>)
    requires |data| == outer * d1 * d2 * inner
    ensures |r| == |data|
  {
    seq(|data|, n requires 0 <= n < |data| =>
      SourceInRange(outer, d1, d2, inner, n);
      data[Source(d1, d2, inner, n)])
  }

  /** The entry that lands at flat position n of the transposed tensor. */
  function Source(d1: nat, d2: nat, inner: nat, n: nat): int {
    if d1 == 0 || d2 == 0 || inner == 0 then 0
    else
      Flat(Swapped(d1, d2, n / inner), inner, n % inner)
  }

  /** Position m of an outer x d2 x d1 array, in the outer x d1 x d2 array. */
  function Swapped(d1: nat, d2: nat, m: nat): nat
    requires d1 > 0 && d2 > 0
  {
    var i, k := m % d1, m / d1;
    Flat(Flat(k / d2, d1, i), d2, k % d2)
  }

  /** Position of index i in extent d, below position a of the dimensions before it. */
  function Flat(a: nat, d: nat, i: nat): nat { a * d + i }

  lemma FlatInRange(a: nat, n: nat, d: nat, i: nat)
    requires a < n && i < d
    ensures Flat(a, d, i) < n * d
  {
    assert (a + 1) * d <= n * d;
    assert (a + 1) * d == a * d + d;
  }

  lemma SourceInRange(outer: nat, d1: nat, d2: nat, inner: nat, n: nat)
    requires n < outer * d1 * d2 * inner
    ensures 0 <= Source(d1, d2, inner, n) < outer * d1 * d2 * inner
  {
    if d1 == 0 || d2 == 0 || inner == 0 {
    } else {
      var m := n / inner;
      var i, k := m % d1, m / d1;
      var j, a := k % d2, k / d2;
      DivInRange(n, outer * d1 * d2, inner);
      assert outer * d1 * d2 == outer * d2 * d1;
      DivInRange(m, outer * d2, d1);
      DivInRange(k, outer, d2);
      FlatInRange(a, outer, d1, i);
      FlatInRange(Flat(a, d1, i), outer * d1, d2, j);
      FlatInRange(Flat(Flat(a, d1, i), d2, j), outer * d1 * d2, inner, n % inner);
    }
  }

  lemma TransposedAt<T>(data: seq<T>, outer: nat, d1: nat, d2: nat, inner: nat, a: nat, i: nat, j: nat, b: nat)
    requires |data| == outer * d1 * d2 * inner
    requires a < outer && i < d1 && j < d2 && b < inner
    ensures var n := Flat(Flat(Flat(a, d2, j), d1, i), inner, b);
            var m := Flat(Flat(Flat(a, d1, i), d2, j), inner, b);
            n < |data| && m < |data| && Transposed(data, outer, d1, d2, inner)[n] == data[m]
  {
    var x := Flat(a, d2, j);
    var y := Flat(x, d1, i);
    var n := Flat(y, inner, b);
    FlatInRange(a, outer, d2, j);
    FlatInRange(x, outer * d2, d1, i);
    assert outer * d2 * d1 == outer * d1 * d2;
    FlatInRange(y, outer * d1 * d2, inner, b);
    DivModUnique(n, y, inner, b);
    DivModUnique(y, x, d1, i);
    DivModUnique(x, a, d2, j);
    SourceInRange(outer, d1, d2, inner, n);
  }

  /** A c x (H*s) x (W*s) feature map, row-major. */
  ghost predicate IsMap<T>(data: seq<T>, c: nat, h: nat, w: nat) { |data| == c * h * w }

  lemma Extents(c: nat, H: nat, W: nat, s: nat)
    ensures c * (H * s) * (W * s) == (c * H) * s * W * s
    ensures c * (H * s) * (W * s) == c * (H * W) * (s * s) * 1
    ensures c * (H * s) * (W * s) == 1 * c * (s * s) * (H * W)
  {
    var p := c * H;
    assert c * (H * s) == p * s;
    assert p * s * (W * s) == p * s * W * s;
    assert p * s * W * s == p * W * (s * s);
    assert c * (H * W) == p * W;
    assert p * W * (s * s) == c * (s * s) * (H * W);
  }

  /** Reorg.forward with stride s on a map of H*s rows and W*s columns: three transposes, with views. */
  function Forward<T>(data: seq<T>, c: nat, H: nat, W: nat, s: nat): (r: seq<T>)
    requires IsMap(data, c, H * s, W * s)
    ensures |r| == |data|
  {
    Extents(c, H, W, s);
    var t1 := Transposed(data, c * H, s, W, s);
    var t2 := Transposed(t1, c, H * W, s * s, 1);
    Transposed(t2, 1, c, s * s, H * W)
  }

  /** Position of (channel, row, column) in a map with h rows and w columns. */
  function Pos(c: nat, row: nat, col: nat, h: nat, w: nat): nat { Flat(Flat(c, h, row), w, col) }

  /** Splitting off two dimensions one after the other, or both at once. */
  lemma FlatAssoc(a: nat, d: nat, i: nat, e: nat, j: nat)
    ensures Flat(Flat(a, d, i), e, j) == Flat(a, d * e, Flat(i, e, j))
  {
    assert (a * d + i) * e == a * (d * e) + i * e;
  }

  lemma FirstTranspose<T>(data: seq<T>, C: nat, H: nat, W: nat, s: nat, c: nat, y: nat, x: nat, si: nat, sj: nat)
    requires |data| == (C * H) * s * W * s
    requires c < C && y < H && x < W && si < s && sj < s
    ensures var n := Flat(Flat(c, H * W, Flat(y, W, x)), s * s, Flat(si, s, sj));
            var m := Pos(c, Flat(y, s, si), Flat(x, s, sj), H * s, W * s);
            n < |data| && m < |data| && Transposed(data, C * H, s, W, s)[n] == data[m]
  {
    var a := Flat(c, H, y);
    FlatInRange(c, C, H, y);
    TransposedAt(data, C * H, s, W, s, a, si, x, sj);
    FlatAssoc(c, H, y, W, x);
    FlatAssoc(Flat(a, W, x), s, si, s, sj);
    FlatAssoc(c, H, y, s, si);
    FlatAssoc(Flat(a, s, si), W, x, s, sj);
  }

  lemma SecondTranspose<T>(data: seq<T>, C: nat, HW: nat, ss: nat, c: nat, p: nat, k: nat)
    requires |data| == C * HW * ss * 1
    requires c < C && p < HW && k < ss
    ensures var n := Flat(Flat(c, ss, k), HW, p);
            var m := Flat(Flat(c, HW, p), ss, k);
            n < |data| && m < |data| && Transposed(data, C, HW, ss, 1)[n] == data[m]
  {
    TransposedAt(data, C, HW, ss, 1, c, p, k, 0);
  }

  lemma ThirdTranspose<T>(data: seq<T>, C: nat, H: nat, W: nat, ss: nat, k: nat, c: nat, y: nat, x: nat)
    requires |data| == 1 * C * ss * (H * W)
    requires c < C && k < ss && y < H && x < W
    ensures var n := Pos(Flat(k, C, c), y, x, H, W);
            var m := Flat(Flat(c, ss, k), H * W, Flat(y, W, x));
            n < |data| && m < |data| && Transposed(data, 1, C, ss, H * W)[n] == data[m]
  {
    FlatInRange(y, H, W, x);
    TransposedAt(data, 1, C, ss, H * W, 0, c, k, Flat(y, W, x));
    FlatAssoc(Flat(k, C, c), H, y, W, x);
  }

  /** Entry n of out is entry m of data. */
  ghost predicate Moves<T>(out: seq<T>, n: nat, data: seq<T>, m: nat) {
    n < |out| && m < |data| && out[n] == data[m]
  }

  lemma MovesTwice<T>(a: seq<T>, n: nat, b: seq<T>, m: nat, c: seq<T>, l: nat)
    requires Moves(a, n, b, m) && Moves(b, m, c, l)
    ensures Moves(a, n, c, l)
  {
  }

  /** The three steps chained, with k = si*s + sj. */
  lemma Chain<T>(data: seq<T>, C: nat, H: nat, W: nat, s: nat, c: nat, y: nat, x: nat, k: nat, si: nat, sj: nat)
    requires IsMap(data, C, H * s, W * s)
    requires c < C && y < H && x < W && si < s && sj < s && k == Flat(si, s, sj)
    ensures Moves(Forward(data, C, H, W, s), Pos(Flat(k, C, c), y, x, H, W),
                  data, Pos(c, Flat(y, s, si), Flat(x, s, sj), H * s, W * s))
  {
    Extents(C, H, W, s);
    var t1 := Transposed(data, C * H, s, W, s);
    var t2 := Transposed(t1, C, H * W, s * s, 1);
    var p := Flat(y, W, x);
    FlatInRange(y, H, W, x);
    FlatInRange(si, s, s, sj);
    ThirdTranspose(t2, C, H, W, s * s, k, c, y, x);
    SecondTranspose(t1, C, H * W, s * s, c, p, k);
    FirstTranspose(data, C, H, W, s, c, y, x, si, sj);
    var n, m := Pos(Flat(k, C, c), y, x, H, W), Pos(c, Flat(y, s, si), Flat(x, s, sj), H * s, W * s);
    var j, i := Flat(Flat(c, s * s, k), H * W, p), Flat(Flat(c, H * W, p), s * s, k);
    MovesTwice(Forward(data, C, H, W, s), n, t2, j, t1, i);
    MovesTwice(Forward(data, C, H, W, s), n, t1, i, data, m);
  }

  lemma SplitK(k: nat, s: nat)
    requires k < s * s
    ensures s > 0 && k / s < s && k % s < s && Flat(k / s, s, k % s) == k
  {
    DivInRange(k, s, s);
  }

  /** Main result: out[k*C + c, y, x] = in[c, y*s + k/s, x*s + k%s]. */
  lemma ReorgClosedForm<T>(data: seq<T>, C: nat, H: nat, W: nat, s: nat, k: nat, c: nat, y: nat, x: nat)
    requires IsMap(data, C, H * s, W * s) && s > 0
    requires k < s * s && c < C && y < H && x < W
    ensures var n := Pos(Flat(k, C, c), y, x, H, W);
            var m := Pos(c, Flat(y, s, k / s), Flat(x, s, k % s), H * s, W * s);
            n < |data| && m < |data| && Forward(data, C, H, W, s)[n] == data[m]
  {
    SplitK(k, s);
    Chain(data, C, H, W, s, c, y, x, k, k / s, k % s);
  }

  /** Output place (k, y, x) of each channel reads input row and column. */
  ghost predicate Reads(s: nat, k: nat, y: nat, x: nat, row: nat, col: nat)
    requires s > 0
  {
    row == Flat(y, s, k / s) && col == Flat(x, s, k % s)
  }

  lemma ReadsDetermines(s: nat, k: nat, y: nat, x: nat, row: nat, col: nat)
    requires s > 0 && k < s * s && Reads(s, k, y, x, row, col)
    ensures y == row / s && x == col / s && k == Flat(row % s, s, col % s)
  {
    SplitK(k, s);
    DivModUnique(row, y, s, k / s);
    DivModUnique(col, x, s, k % s);
  }

  lemma ReadsExist(H: nat, W: nat, s: nat, row: nat, col: nat) returns (k: nat, y: nat, x: nat)
    requires s > 0 && row < H * s && col < W * s
    ensures k < s * s && y < H && x < W && Reads(s, k, y, x, row, col)
  {
    y, x := row / s, col / s;
    k := Flat(row % s, s, col % s);
    FlatInRange(row % s, s, s, col % s);
    DivInRange(row, H, s);
    DivInRange(col, W, s);
    DivModUnique(k, row % s, s, col % s);
  }

  /** Output entry n is input entry m, by the closed form. */
  ghost predicate Place(C: nat, H: nat, W: nat, s: nat, k: nat, c: nat, y: nat, x: nat, n: nat, m: nat)
    requires s > 0
  {
    && k < s * s && c < C && y < H && x < W
    && n == Pos(Flat(k, C, c), y, x, H, W)
    && m == Pos(c, Flat(y, s, k / s), Flat(x, s, k % s), H * s, W * s)
  }

  ghost predicate MapsTo(C: nat, H: nat, W: nat, s: nat, n: nat, m: nat)
    requires s > 0
  {
    exists k, c, y, x :: Place(C, H, W, s, k, c, y, x, n, m)
  }

  lemma PosUnique(c: nat, row: nat, col: nat, c': nat, row': nat, col': nat, h: nat, w: nat)
    requires row < h && col < w && row' < h && col' < w && Pos(c, row, col, h, w) == Pos(c', row', col', h, w)
    ensures c == c' && row == row' && col == col'
  {
    var p := Pos(c, row, col, h, w);
    DivModUnique(p, Flat(c, h, row), w, col);
    DivModUnique(p, Flat(c', h, row'), w, col');
    DivModUnique(Flat(c, h, row), c, h, row);
    DivModUnique(Flat(c, h, row), c', h, row');
  }

  lemma FlatExists(p: nat, n: nat, d: nat) returns (a: nat, i: nat)
    requires p < n * d && d > 0
    ensures a < n && i < d && p == Flat(a, d, i)
  {
    a, i := p / d, p % d;
    DivInRange(p, n, d);
  }

  lemma PosExists(p: nat, n: nat, h: nat, w: nat) returns (c: nat, row: nat, col: nat)
    requires p < n * h * w && h > 0 && w > 0
    ensures c < n && row < h && col < w && p == Pos(c, row, col, h, w)
  {
    var q;
    q, col := FlatExists(p, n * h, w);
    c, row := FlatExists(q, n, h);
  }

  lemma FlatUnique(a: nat, d: nat, i: nat, a': nat, i': nat)
    requires i < d && i' < d && Flat(a, d, i) == Flat(a', d, i')
    ensures a == a' && i == i'
  {
    DivModUnique(Flat(a, d, i), a, d, i);
    DivModUnique(Flat(a, d, i), a', d, i');
  }

  /** The copy moves data along the map. */
  lemma ReorgMoves<T>(data: seq<T>, C: nat, H: nat, W: nat, s: nat, n: nat, m: nat)
    requires IsMap(data, C, H * s, W * s) && s > 0 && MapsTo(C, H, W, s, n, m)
    ensures n < |data| && m < |data| && Forward(data, C, H, W, s)[n] == data[m]
  {
    var k, c, y, x :| Place(C, H, W, s, k, c, y, x, n, m);
    ReorgClosedForm(data, C, H, W, s, k, c, y, x);
  }

  /** Each input entry goes to exactly one output entry. */
  lemma ReorgOnto(C: nat, H: nat, W: nat, s: nat, m: nat) returns (n: nat)
    requires s > 0 && H > 0 && W > 0 && m < C * (H * s) * (W * s)
    ensures MapsTo(C, H, W, s, n, m)
    ensures forall n': nat :: MapsTo(C, H, W, s, n', m) ==> n' == n
  {
    var c, row, col := PosExists(m, C, H * s, W * s);
    var k, y, x := ReadsExist(H, W, s, row, col);
    n := Pos(Flat(k, C, c), y, x, H, W);
    assert Place(C, H, W, s, k, c, y, x, n, m);
    forall n': nat | MapsTo(C, H, W, s, n', m) ensures n' == n {
      var k', c', y', x' :| Place(C, H, W, s, k', c', y', x', n', m);
      SameInput(C, H, W, s, k, c, y, x, k', c', y', x', n, n', m);
    }
  }

  lemma InRows(k: nat, y: nat, H: nat, s: nat)
    requires s > 0 && k < s && y < H
    ensures Flat(y, s, k) < H * s
  {
    FlatInRange(y, H, s, k);
  }

  lemma PlaceInput(C: nat, H: nat, W: nat, s: nat, k: nat, c: nat, y: nat, x: nat, n: nat, m: nat)
    returns (row: nat, col: nat)
    requires s > 0 && Place(C, H, W, s, k, c, y, x, n, m)
    ensures Reads(s, k, y, x, row, col) && row < H * s && col < W * s && m == Pos(c, row, col, H * s, W * s)
  {
    SplitK(k, s);
    InRows(k / s, y, H, s);
    InRows(k % s, x, W, s);
    row, col := Flat(y, s, k / s), Flat(x, s, k % s);
  }

  lemma SameInput(C: nat, H: nat, W: nat, s: nat, k: nat, c: nat, y: nat, x: nat, k': nat, c': nat, y': nat, x': nat,
                  n: nat, n': nat, m: nat)
    requires s > 0 && Place(C, H, W, s, k, c, y, x, n, m) && Place(C, H, W, s, k', c', y', x', n', m)
    ensures n == n'
  {
    var row, col := PlaceInput(C, H, W, s, k, c, y, x, n, m);
    var row', col' := PlaceInput(C, H, W, s, k', c', y', x', n', m);
    PosUnique(c, row, col, c', row', col', H * s, W * s);
    ReadsDetermines(s, k, y, x, row, col);
    ReadsDetermines(s, k', y', x', row, col);
  }

  lemma SameOutput(C: nat, H: nat, W: nat, s: nat, k: nat, c: nat, y: nat, x: nat, k': nat, c': nat, y': nat, x': nat,
                   n: nat, m: nat, m': nat)
    requires s > 0 && Place(C, H, W, s, k, c, y, x, n, m) && Place(C, H, W, s, k', c', y', x', n, m')
    ensures m == m'
  {
    PosUnique(Flat(k, C, c), y, x, Flat(k', C, c'), y', x', H, W);
    FlatUnique(k, C, c, k', c');
  }

  /** Each output entry comes from exactly one input entry. */
  lemma ReorgInto(C: nat, H: nat, W: nat, s: nat, n: nat) returns (m: nat)
    requires s > 0 && C > 0 && H > 0 && W > 0 && n < (s * s) * C * H * W
    ensures MapsTo(C, H, W, s, n, m)
    ensures forall m': nat :: MapsTo(C, H, W, s, n, m') ==> m' == m
  {
    var q, y, x := PosExists(n, (s * s) * C, H, W);
    var k, c := FlatExists(q, s * s, C);
    SplitK(k, s);
    m := Pos(c, Flat(y, s, k / s), Flat(x, s, k % s), H * s, W * s);
    assert Place(C, H, W, s, k, c, y, x, n, m);
    forall m': nat | MapsTo(C, H, W, s, n, m') ensures m' == m {
      var k', c', y', x' :| Place(C, H, W, s, k', c', y', x', n, m');
      SameOutput(C, H, W, s, k, c, y, x, k', c', y', x', n, m, m');
    }
  }
}
