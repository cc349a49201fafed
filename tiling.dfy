/** The tiled ('wallpaper') branch of the preview: a grid of tiles at half the fit scale laid out
    with Python's `range` over truncated tile sizes, one tile of overscan past the far edges. */
module Tiling {
  import opened Wrappers
  import opened Geometry

  /** Python's `range(start, stop, step)` for a positive step: `start`, `start + step`, ...
      while the value stays below `stop`. */
  function RangeFrom(start: int, stop: int, step: int): seq<int>
    requires step > 0
    decreases stop - start
  {
    if start >= stop then [] else [start] + RangeFrom(start + step, stop, step)
  }

  /** `ceil(n / d)` for non-negative `n` and positive `d`. */
  function CeilDiv(n: int, d: int): int
    requires n >= 0 && d > 0
  {
    (n + d - 1) / d
  }

  lemma {:induction false} RangeLength(start: int, stop: int, step: int)
    requires step > 0
    ensures |RangeFrom(start, stop, step)| == if start >= stop then 0 else CeilDiv(stop - start, step)
    decreases stop - start
  {
    if start < stop {
      RangeLength(start + step, stop, step);
      var n := stop - start;
      if start + step >= stop {
        assert step <= n + step - 1 < 2 * step;
        DivIsOne(n + step - 1, step);
      } else {
        DivShift(n - 1, step);
      }
    }
  }

  lemma DivIsOne(a: int, d: int)
    requires d > 0 && d <= a < 2 * d
    ensures a / d == 1
  {
    DivUnique(a, d, 1, a - d);
  }

  lemma DivShift(a: int, d: int)
    requires d > 0 && a >= 0
    ensures (a + d) / d == a / d + 1
  {
    DivUnique(a + d, d, a / d + 1, a % d);
  }

  /** Division is determined by quotient and remainder. */
  lemma DivUnique(a: int, d: int, q: int, r: int)
    requires d > 0 && 0 <= r < d && a == q * d + r
    ensures a / d == q && a % d == r
  {
    var q', r' := a / d, a % d;
    assert a == q' * d + r';
    assert (q - q') * d == r' - r;
    if q > q' {
      MulAtLeast(q - q', d);
    } else if q < q' {
      MulAtLeast(q' - q, d);
    }
  }

  lemma MulAtLeast(k: int, d: int)
    requires k >= 1 && d > 0
    ensures k * d >= d
  {
  }

  /** `p // d * d` is the multiple of `d` at or just below `p`. */
  lemma RoundDown(p: nat, d: int)
    requires d > 0
    ensures 0 <= p / d * d <= p < p / d * d + d
    ensures (p / d * d) % d == 0
  {
    DivUnique(p, d, p / d, p % d);
    MultipleMod(p / d, d);
  }

  /** The k-th value of the range is `start + k * step`, and it is below `stop`. */
  lemma {:induction false} RangeElement(start: int, stop: int, step: int, k: nat)
    requires step > 0
    requires k < |RangeFrom(start, stop, step)|
    ensures RangeFrom(start, stop, step)[k] == start + k * step < stop
    decreases stop - start
  {
    if k > 0 {
      RangeElement(start + step, stop, step, k - 1);
    }
  }

  /** Every `start + k * step` below `stop` is in the range, at position k. */
  lemma {:induction false} RangeContains(start: int, stop: int, step: int, k: nat)
    requires step > 0
    requires start + k * step < stop
    ensures k < |RangeFrom(start, stop, step)| && RangeFrom(start, stop, step)[k] == start + k * step
    decreases stop - start
  {
    if k > 0 {
      RangeContains(start + step, stop, step, k - 1);
    }
    RangeElement(start, stop, step, k);
  }

  /** `range(0, stop, step)` holds exactly the non-negative multiples of `step` below `stop`. */
  lemma RangeMembership(stop: int, step: int, x: int)
    requires step > 0
    ensures x in RangeFrom(0, stop, step) <==> 0 <= x < stop && x % step == 0
  {
    var r := RangeFrom(0, stop, step);
    if x in r {
      var k :| 0 <= k < |r| && r[k] == x;
      RangeElement(0, stop, step, k);
      assert x == k * step;
      MultipleMod(k, step);
    }
    if 0 <= x < stop && x % step == 0 {
      var k := x / step;
      assert k * step == x;
      RangeContains(0, stop, step, k);
      RangeElement(0, stop, step, k);
    }
  }

  lemma MultipleMod(k: nat, step: int)
    requires step > 0
    ensures (k * step) % step == 0
  {
    DivUnique(k * step, step, k, 0);
  }

  /** One tile painted with its origin at (x, y). */
  function Tile(x: int, y: int, s: real, alpha: real): Instruction
  {
    Instruction(x as real, y as real, s, s, alpha)
  }

  /** The column of tiles painted by the inner loop for one `x`, in the order of `ys`. */
  function Column(x: int, ys: seq<int>, s: real, alpha: real): (r: seq<Instruction>)
  {
    if |ys| == 0 then [] else Column(x, ys[..|ys| - 1], s, alpha) + [Tile(x, ys[|ys| - 1], s, alpha)]
  }

  /** The tiles painted by the two nested loops: one column per `x`, in the order of `xs`. */
  function Grid(xs: seq<int>, ys: seq<int>, s: real, alpha: real): (r: seq<Instruction>)
  {
    if |xs| == 0 then [] else Grid(xs[..|xs| - 1], ys, s, alpha) + Column(xs[|xs| - 1], ys, s, alpha)
  }

  lemma {:induction false} ColumnElement(x: int, ys: seq<int>, s: real, alpha: real, j: nat)
    ensures |Column(x, ys, s, alpha)| == |ys|
    ensures j < |ys| ==> Column(x, ys, s, alpha)[j] == Tile(x, ys[j], s, alpha)
  {
    if |ys| > 0 {
      var n := |ys| - 1;
      ColumnElement(x, ys[..n], s, alpha, if j < n then j else 0);
    }
  }

  lemma {:induction false} GridLength(xs: seq<int>, ys: seq<int>, s: real, alpha: real)
    ensures |Grid(xs, ys, s, alpha)| == |xs| * |ys|
  {
    if |xs| > 0 {
      var n := |xs| - 1;
      GridLength(xs[..n], ys, s, alpha);
      ColumnElement(xs[n], ys, s, alpha, 0);
      MulSucc(n, |ys|);
    }
  }

  lemma MulSucc(n: nat, m: nat)
    ensures n * m + m == (n + 1) * m
  {
  }

  /** The grid is |xs| columns of |ys| tiles; tile (i, j) sits at index i * |ys| + j. */
  lemma {:induction false} GridElement(xs: seq<int>, ys: seq<int>, s: real, alpha: real, i: nat, j: nat)
    ensures |Grid(xs, ys, s, alpha)| == |xs| * |ys|
    ensures i < |xs| && j < |ys| ==> Grid(xs, ys, s, alpha)[i * |ys| + j] == Tile(xs[i], ys[j], s, alpha)
  {
    GridLength(xs, ys, s, alpha);
    if i < |xs| && j < |ys| {
      var n := |xs| - 1;
      var g := Grid(xs[..n], ys, s, alpha);
      GridLength(xs[..n], ys, s, alpha);
      ColumnElement(xs[n], ys, s, alpha, j);
      assert Grid(xs, ys, s, alpha) == g + Column(xs[n], ys, s, alpha);
      if i < n {
        GridElement(xs[..n], ys, s, alpha, i, j);
        LessMul(i, n, j, |ys|);
      } else {
        assert i * |ys| + j == |g| + j;
      }
    }
  }

  lemma LessMul(i: nat, n: nat, j: nat, m: nat)
    requires i < n && j < m
    ensures i * m + j < n * m
  {
    assert (i + 1) * m <= n * m;
  }

  lemma {:induction false} ColumnMembership(x': int, ys: seq<int>, s: real, alpha: real, x: int, y: int)
    ensures Tile(x, y, s, alpha) in Column(x', ys, s, alpha) <==> x == x' && y in ys
  {
    if |ys| > 0 {
      var n := |ys| - 1;
      ColumnMembership(x', ys[..n], s, alpha, x, y);
      assert ys == ys[..n] + [ys[n]];
    }
  }

  /** A tile is in the grid exactly when it is at some x of `xs` and some y of `ys`. */
  lemma {:induction false} GridMembership(xs: seq<int>, ys: seq<int>, s: real, alpha: real, x: int, y: int)
    ensures Tile(x, y, s, alpha) in Grid(xs, ys, s, alpha) <==> x in xs && y in ys
  {
    if |xs| > 0 {
      var n := |xs| - 1;
      GridMembership(xs[..n], ys, s, alpha, x, y);
      ColumnMembership(xs[n], ys, s, alpha, x, y);
      assert xs == xs[..n] + [xs[n]];
    }
  }

  /** Every tile of the grid carries the grid's scale on both axes and its alpha. */
  lemma {:induction false} GridUniform(xs: seq<int>, ys: seq<int>, s: real, alpha: real)
    ensures forall t | t in Grid(xs, ys, s, alpha) :: t.sx == s && t.sy == s && t.alpha == alpha
  {
    if |xs| > 0 {
      GridUniform(xs[..|xs| - 1], ys, s, alpha);
      ColumnUniform(xs[|xs| - 1], ys, s, alpha);
    }
  }

  lemma {:induction false} ColumnUniform(x: int, ys: seq<int>, s: real, alpha: real)
    ensures forall t | t in Column(x, ys, s, alpha) :: t.sx == s && t.sy == s && t.alpha == alpha
  {
    if |ys| > 0 {
      ColumnUniform(x, ys[..|ys| - 1], s, alpha);
    }
  }

  /** The quantities of the tiled branch: the tile scale, the truncated tile sizes that step the
      two ranges, and the truncated range ends. */
  datatype Layout = Layout(scale: real, tileW: real, tileH: real, stepX: int, stepY: int, stopX: int, stopY: int)

  function TileLayout(w: nat, h: nat, iw: nat, ih: nat): (l: Layout)
    requires iw > 0 && ih > 0
    ensures l.scale * 2.0 == FitScale(w, h, iw, ih)
    ensures 0 <= l.stepX && l.stepX as real <= l.tileW < l.stepX as real + 1.0
    ensures 0 <= l.stepY && l.stepY as real <= l.tileH < l.stepY as real + 1.0
    ensures l.stopX == w + l.stepX && l.stopY == h + l.stepY
    ensures l.tileW == iw as real * l.scale && l.tileH == ih as real * l.scale
  {
    var s := TileScale(w, h, iw, ih);
    var tw, th := iw as real * s, ih as real * s;
    FloorShift(w, tw);
    FloorShift(h, th);
    Layout(s, tw, th, tw.Floor, th.Floor, (w as real + tw).Floor, (h as real + th).Floor)
  }

  /** `int(n + t) == n + int(t)` for a whole `n` and non-negative `t`. */
  lemma FloorShift(n: nat, t: real)
    requires t >= 0.0
    ensures (n as real + t).Floor == n + t.Floor
  {
    var f := t.Floor;
    assert f as real <= t < f as real + 1.0;
    assert (n + f) as real <= n as real + t < (n + f) as real + 1.0;
  }

  /** The tiled branch as a value: `range` with a zero step raises before anything is painted;
      otherwise one tile per point of the two ranges, at least one tile in all, at a positive
      scale (so `cr.scale` never refuses a tile). */
  function TiledPlan(w: nat, h: nat, iw: nat, ih: nat, alpha: real): (r: Result<seq<Instruction>, PreviewError>)
    requires iw > 0 && ih > 0
    ensures var l := TileLayout(w, h, iw, ih);
      && (r.Err? <==> l.stepX == 0 || l.stepY == 0)
      && (r.Err? ==> r.error == ZeroRangeStep)
      && (r.Ok? ==> |r.value| == CeilDiv(l.stopX, l.stepX) * CeilDiv(l.stopY, l.stepY) >= 1)
      && (r.Ok? ==> forall t | t in r.value :: t.sx == l.scale && t.sy == l.scale && t.alpha == alpha)
      && (r.Ok? ==> l.scale > 0.0)
  {
    var l := TileLayout(w, h, iw, ih);
    if l.stepX == 0 || l.stepY == 0 then Err(ZeroRangeStep)
    else
      var xs, ys := RangeFrom(0, l.stopX, l.stepX), RangeFrom(0, l.stopY, l.stepY);
      RangeLength(0, l.stopX, l.stepX);
      RangeLength(0, l.stopY, l.stepY);
      GridElement(xs, ys, l.scale, alpha, 0, 0);
      GridUniform(xs, ys, l.scale, alpha);
      CeilPositive(l.stopX, l.stepX);
      CeilPositive(l.stopY, l.stepY);
      Ok(Grid(xs, ys, l.scale, alpha))
  }

  lemma CeilPositive(n: int, d: int)
    requires 0 < n && d > 0
    ensures CeilDiv(n, d) >= 1
  {
  }

  /** A tile sits at (x, y) exactly when x and y are multiples of the truncated tile width and
      height below `int(w + tile_width)` and `int(h + tile_height)`. */
  lemma TiledPositions(w: nat, h: nat, iw: nat, ih: nat, alpha: real, x: int, y: int)
    requires iw > 0 && ih > 0
    requires TiledPlan(w, h, iw, ih, alpha).Ok?
    ensures var l := TileLayout(w, h, iw, ih);
      Tile(x, y, l.scale, alpha) in TiledPlan(w, h, iw, ih, alpha).value
      <==> 0 <= x < l.stopX && x % l.stepX == 0 && 0 <= y < l.stopY && y % l.stepY == 0
  {
    var l := TileLayout(w, h, iw, ih);
    GridMembership(RangeFrom(0, l.stopX, l.stepX), RangeFrom(0, l.stopY, l.stepY), l.scale, alpha, x, y);
    RangeMembership(l.stopX, l.stepX, x);
    RangeMembership(l.stopY, l.stepY, y);
  }

  /** Every point of the closed viewport [0, w] x [0, h] lies under a painted tile: the grid
      runs one tile past the far edges. */
  lemma TilesCoverViewport(w: nat, h: nat, iw: nat, ih: nat, alpha: real, px: real, py: real)
    requires iw > 0 && ih > 0
    requires TiledPlan(w, h, iw, ih, alpha).Ok?
    requires 0.0 <= px <= w as real && 0.0 <= py <= h as real
    ensures var l := TileLayout(w, h, iw, ih);
      var t := Tile(px.Floor / l.stepX * l.stepX, py.Floor / l.stepY * l.stepY, l.scale, alpha);
      && t in TiledPlan(w, h, iw, ih, alpha).value
      && t.tx <= px < Right(t, iw)
      && t.ty <= py < Bottom(t, ih)
  {
    var l := TileLayout(w, h, iw, ih);
    var x, y := px.Floor / l.stepX * l.stepX, py.Floor / l.stepY * l.stepY;
    RoundDown(px.Floor, l.stepX);
    RoundDown(py.Floor, l.stepY);
    TiledPositions(w, h, iw, ih, alpha, x, y);
    TileExtent(w, h, iw, ih, alpha, x, y);
  }

  /** A tile at (x, y) spans the unrounded tile size, which is at least the range step. */
  lemma TileExtent(w: nat, h: nat, iw: nat, ih: nat, alpha: real, x: int, y: int)
    requires iw > 0 && ih > 0
    ensures var l := TileLayout(w, h, iw, ih);
      var t := Tile(x, y, l.scale, alpha);
      && Right(t, iw) == x as real + l.tileW >= (x + l.stepX) as real
      && Bottom(t, ih) == y as real + l.tileH >= (y + l.stepY) as real
  {
  }

  /** One loop iteration consumes the next value of the range. */
  lemma RangeStep(done: seq<int>, x: int, stop: int, step: int)
    requires step > 0 && x < stop
    ensures done + RangeFrom(x, stop, step) == (done + [x]) + RangeFrom(x + step, stop, step)
  {
  }

  lemma ColumnStep(x: int, ys: seq<int>, y: int, s: real, alpha: real)
    ensures Column(x, ys + [y], s, alpha) == Column(x, ys, s, alpha) + [Tile(x, y, s, alpha)]
  {
    assert (ys + [y])[..|ys|] == ys;
  }

  lemma GridStep(xs: seq<int>, x: int, ys: seq<int>, s: real, alpha: real)
    ensures Grid(xs + [x], ys, s, alpha) == Grid(xs, ys, s, alpha) + Column(x, ys, s, alpha)
  {
    assert (xs + [x])[..|xs|] == xs;
  }

  /** The inner loop of the tiled branch: one column of tiles at `x`, top to bottom. */
  method PaintColumn(x: int, stopY: int, stepY: int, s: real, alpha: real) returns (column: seq<Instruction>)
    requires stepY > 0
    ensures column == Column(x, RangeFrom(0, stopY, stepY), s, alpha)
  {
    ghost var ysDone: seq<int> := [];
    column := [];
    var y := 0;
    while y < stopY
      invariant ysDone + RangeFrom(y, stopY, stepY) == RangeFrom(0, stopY, stepY)
      invariant column == Column(x, ysDone, s, alpha)
    {
      RangeStep(ysDone, y, stopY, stepY);
      ColumnStep(x, ysDone, y, s, alpha);
      column := column + [Tile(x, y, s, alpha)];
      ysDone := ysDone + [y];
      y := y + stepY;
    }
    assert ysDone == RangeFrom(0, stopY, stepY);
  }

  /** The nested loops of the tiled branch for given range ends and steps. `raised` says that a
      `range` call raised ValueError for a zero step. The outer range is built first and the
      inner one at the start of every outer iteration, before that iteration paints, so a
      raise always comes before the first tile. */
  method PaintGrid(stopX: int, stepX: int, stopY: int, stepY: int, s: real, alpha: real)
    returns (painted: seq<Instruction>, raised: bool)
    requires stepX >= 0 && stepY >= 0
    ensures raised <==> stepX == 0 || (stepY == 0 && stopX > 0)
    ensures raised ==> painted == []
    ensures !raised && stepY > 0 ==> painted == Grid(RangeFrom(0, stopX, stepX), RangeFrom(0, stopY, stepY), s, alpha)
    ensures !raised && stepY == 0 ==> painted == []
  {
    painted, raised := [], false;
    if stepX == 0 {
      raised := true;
      return;
    }
    ghost var ys := if stepY > 0 then RangeFrom(0, stopY, stepY) else [];
    ghost var xsDone: seq<int> := [];
    var x := 0;
    while x < stopX
      invariant xsDone + RangeFrom(x, stopX, stepX) == RangeFrom(0, stopX, stepX)
      invariant x > 0 ==> stepY > 0
      invariant painted == Grid(xsDone, ys, s, alpha)
    {
      if stepY == 0 {
        raised := true;
        assert xsDone == [];
        return;
      }
      var column := PaintColumn(x, stopY, stepY, s, alpha);
      painted := painted + column;
      RangeStep(xsDone, x, stopX, stepX);
      GridStep(xsDone, x, ys, s, alpha);
      xsDone := xsDone + [x];
      x := x + stepX;
    }
    assert xsDone == RangeFrom(0, stopX, stepX);
  }

  /** The tiled branch: it paints all of `TiledPlan`'s tiles, or raises
      before painting any. */
  method PaintTiled(w: nat, h: nat, iw: nat, ih: nat, alpha: real) returns (painted: seq<Instruction>, raised: bool)
    requires iw > 0 && ih > 0
    ensures TiledPlan(w, h, iw, ih, alpha) == if raised then Err(ZeroRangeStep) else Ok(painted)
    ensures raised ==> painted == []
  {
    var l := TileLayout(w, h, iw, ih);
    painted, raised := PaintGrid(l.stopX, l.stepX, l.stopY, l.stepY, l.scale, alpha);
  }
}
