/**
 * The per-cell kernels of the Gray-Scott engine: the bodies of the Reset, BeginStep,
 * Diffusion and Reaction fragment shaders, as pure functions on a W×H torus of
 * four-channel cells. Shader float arithmetic is idealised as `real`; texture lookups
 * are exact integer indexing with wrap-around.
 */
module Kernels {

  /** One texel: the concentrations a, b of the two species and the change da, db
      accumulated during the current simulation step. */
  datatype Cell = Cell(a: real, b: real, da: real, db: real)

  /** The shaders' vec2. */
  datatype Vec2 = Vec2(x: real, y: real)

  /** The contents of one simulation texture, stored row by row: rows[y][x]. */
  datatype Grid = Grid(width: nat, height: nat, rows: seq<seq<Cell>>) {

    ghost predicate Valid() {
      width > 0 && height > 0 && |rows| == height &&
      forall y | 0 <= y < height :: |rows[y]| == width
    }

    /** A well-formed grid of the given dimensions. */
    ghost predicate Fits(w: nat, h: nat) {
      Valid() && width == w && height == h
    }
  }

  /** A texture allocated without data: every channel of every texel is zero. */
  function Blank(width: nat, height: nat): (r: Grid)
    requires width > 0 && height > 0
    ensures r.Fits(width, height)
    ensures forall y, x | 0 <= y < height && 0 <= x < width :: r.rows[y][x] == Cell(0.0, 0.0, 0.0, 0.0)
  {
    Grid(width, height, seq(height, y => seq(width, x => Cell(0.0, 0.0, 0.0, 0.0))))
  }

  /** Every cell has both concentrations in [0, 1]. */
  ghost predicate InUnitRange(g: Grid)
    requires g.Valid()
  {
    forall y, x | 0 <= y < g.height && 0 <= x < g.width ::
      0.0 <= g.rows[y][x].a <= 1.0 && 0.0 <= g.rows[y][x].b <= 1.0
  }

  /** Every cell has the concentrations (a, b) of the corner cell. */
  ghost predicate UniformConcentrations(g: Grid)
    requires g.Valid()
  {
    forall y, x | 0 <= y < g.height && 0 <= x < g.width ::
      g.rows[y][x].a == g.rows[0][0].a && g.rows[y][x].b == g.rows[0][0].b
  }

  function Abs(x: int): nat { if x < 0 then -x else x }

  /** GLSL `clamp(v, 0.0, 1.0)`: saturates below 0 and above 1. */
  function Clamp01(v: real): (r: real)
    ensures 0.0 <= r <= 1.0
    ensures 0.0 <= v <= 1.0 ==> r == v
    ensures v < 0.0 ==> r == 0.0
    ensures v > 1.0 ==> r == 1.0
  {
    if v < 0.0 then 0.0 else if v > 1.0 then 1.0 else v
  }

  // ---------------------------------------------------------------------------
  // Torus addressing: getUV, valueAt and the REPEAT wrap mode of the textures
  // ---------------------------------------------------------------------------

  /** The texel index on an axis of n texels that pixel coordinate p reaches. */
  function Wrap(p: int, n: int): (r: nat)
    requires n > 0
    ensures r < n
    ensures 0 <= p < n ==> r == p
  {
    p % n
  }

  /** Division with remainder has one answer: if p = k·n + r with 0 <= r < n, then
      r is p mod n. */
  lemma WrapUnique(p: int, n: int, k: int, r: int)
    requires n > 0 && 0 <= r < n && p == k * n + r
    ensures Wrap(p, n) == r
  {
    var q, s := p / n, p % n;
    assert p == q * n + s;
    assert (q - k) * n == r - s;
    ZeroMultiple(q - k, n);
  }

  lemma ZeroMultiple(d: int, n: int)
    requires n > 0 && -n < d * n < n
    ensures d == 0
  {
    if d >= 1 { MulAtLeast(d, n); }
    if d <= -1 { MulAtLeast(-d, n); }
  }

  lemma MulAtLeast(d: int, n: int)
    requires d >= 1 && n > 0
    ensures d * n >= n
  {
  }

  /** The texture coordinate getUV computes for pixel coordinate p on an axis of n
      texels: the centre of the texel, reduced by GLSL mod(_, 1.0) and moved off 0. */
  function TexCoord(p: int, n: int): real
    requires n > 0
  {
    var t := (p as real + 0.5) / n as real;
    var m := t - t.Floor as real;
    if m <= 0.0 then m + 1.0 else m
  }

  /** The texel a lookup with REPEAT wrapping returns at coordinate u, for u at a texel
      centre (as getUV's coordinates are): the NEAREST minification filter selects
      texel floor(u·n) mod n, and the default LINEAR magnification filter, sampling at
      that texel's centre, weighs that texel alone. */
  function Texel(u: real, n: int): nat
    requires n > 0
  {
    Wrap((u * n as real).Floor, n)
  }

  /** getUV followed by the texture lookup reaches exactly the texel p mod n. */
  lemma TexCoordSelectsWrappedTexel(p: int, n: int)
    requires n > 0
    ensures 0.0 < TexCoord(p, n) < 1.0
    ensures Texel(TexCoord(p, n), n) == Wrap(p, n)
  {
    var q, r := p / n, p % n;
    var nr := n as real;
    var v := r as real + 0.5;
    DivideBelow(v, nr);
    var f := v / nr;
    var t := (p as real + 0.5) / nr;
    assert p as real + 0.5 == q as real * nr + v by {
      assert p == q * n + r;
    }
    assert t == q as real + f by {
      assert (q as real * nr + v) / nr == q as real + v / nr;
    }
    FloorIs(t, q);
    assert TexCoord(p, n) == f;
    FloorIs(f * nr, r);
  }

  lemma FloorIs(t: real, k: int)
    requires k as real <= t < k as real + 1.0
    ensures t.Floor == k
  {
  }

  /** Dividing by a larger positive number gives a fraction in (0, 1). */
  lemma DivideBelow(v: real, n: real)
    requires 0.0 < v < n
    ensures 0.0 < v / n < 1.0
    ensures (v / n) * n == v
  {
    var f := v / n;
    assert f * n == v;
    assert (1.0 - f) * n == n - v;
    PositiveFactor(1.0 - f, n);
    PositiveFactor(f, n);
  }

  lemma PositiveFactor(a: real, n: real)
    requires n > 0.0 && a * n > 0.0
    ensures a > 0.0
  {
  }

  /** valueAt: the cell a shader reads at pixel (x, y), wrapping in both axes. */
  function ValueAt(g: Grid, x: int, y: int): Cell
    requires g.Valid()
  {
    g.rows[Wrap(y, g.height)][Wrap(x, g.width)]
  }

  /** Stepping off the left edge reads the rightmost column, in the same row. */
  lemma LeftNeighbourOfEdgeWraps(g: Grid, y: int)
    requires g.Valid() && 0 <= y < g.height
    ensures ValueAt(g, 0 - 1, y) == g.rows[y][g.width - 1]
  {
  }

  /** Neighbour reads are periodic with the grid's dimensions. */
  lemma {:induction false} ValueAtIsPeriodic(g: Grid, x: int, y: int)
    requires g.Valid()
    ensures ValueAt(g, x + g.width, y) == ValueAt(g, x, y)
    ensures ValueAt(g, x, y + g.height) == ValueAt(g, x, y)
  {
    WrapShift(x, g.width);
    WrapShift(y, g.height);
  }

  lemma WrapShift(p: int, n: int)
    requires n > 0
    ensures Wrap(p + n, n) == Wrap(p, n)
  {
    var q, r := p / n, p % n;
    assert p == q * n + r;
    assert p + n == (q + 1) * n + r;
    WrapUnique(p + n, n, q + 1, r);
  }

  // ---------------------------------------------------------------------------
  // Reset: the initial conditions
  // ---------------------------------------------------------------------------

  /** The radius of the diamond-shaped region seeded with species B. */
  const SeedRadius: int := 10

  /** The shader's `x / 4` on an int: GLSL integer division, which truncates toward zero. */
  function QuarterTowardZero(x: int): (q: int)
    ensures 4 * Abs(q) <= Abs(x) < 4 * Abs(q) + 4
    ensures x >= 0 ==> q >= 0
    ensures x < 0 ==> q <= 0
  {
    if x >= 0 then x / 4 else -((-x) / 4)
  }

  /** initialValues' test on the offset (x, y) of a pixel from the grid centre. */
  predicate InSeed(x: int, y: int) {
    Abs(QuarterTowardZero(x) - Abs(y)) + Abs(y) <= SeedRadius
  }

  /** The cell the Reset shader writes for the pixel at offset (x, y) from the centre. */
  function ResetCell(x: int, y: int): Cell {
    Cell(1.0, if InSeed(x, y) then 1.0 else 0.0, 0.0, 1.0)
  }

  /** The Reset pass over a width × height texture; it reads no input. */
  function ResetGrid(width: nat, height: nat): (r: Grid)
    requires width > 0 && height > 0
    ensures r.Fits(width, height)
    ensures forall y, x | 0 <= y < height && 0 <= x < width ::
      r.rows[y][x].a == 1.0 && r.rows[y][x].da == 0.0 && r.rows[y][x].db == 1.0 &&
      (r.rows[y][x].b == 0.0 || r.rows[y][x].b == 1.0)
    ensures forall y, x | 0 <= y < height && 0 <= x < width ::
      r.rows[y][x].b == 1.0 <==> InSeed(x - width / 2, y - height / 2)
  {
    var r := Grid(width, height,
      seq(height, y requires 0 <= y < height =>
        seq(width, x requires 0 <= x < width => ResetCell(x - width / 2, y - height / 2))));
    assert forall y, x | 0 <= y < height && 0 <= x < width ::
      r.rows[y][x] == ResetCell(x - width / 2, y - height / 2);
    r
  }

  /** The seed is the set of offsets whose row lies within the radius and whose
      truncated quarter-column lies between 2|y| - R and R. */
  lemma SeedShape(x: int, y: int)
    ensures InSeed(x, y) <==>
      Abs(y) <= SeedRadius && 2 * Abs(y) - SeedRadius <= QuarterTowardZero(x) <= SeedRadius
  {
  }

  /** The seed is finite: it lies within R rows and 4R + 3 columns of the centre,
      and it covers the whole centre row that far out. */
  lemma {:induction false} SeedIsBounded(x: int, y: int)
    ensures InSeed(x, y) ==> Abs(y) <= SeedRadius && Abs(x) <= 4 * SeedRadius + 3
    ensures Abs(x) <= 4 * SeedRadius + 3 ==> InSeed(x, 0)
  {
    var q := QuarterTowardZero(x);
    if InSeed(x, y) {
      assert Abs(q) <= SeedRadius;
    }
    if Abs(x) <= 4 * SeedRadius + 3 {
      assert Abs(q) <= SeedRadius;
    }
  }

  /** The centre pixel (offset (0, 0)) is seeded with species B. */
  lemma CentreIsSeeded(width: nat, height: nat)
    requires width > 0 && height > 0
    ensures ResetGrid(width, height).rows[height / 2][width / 2] == Cell(1.0, 1.0, 0.0, 1.0)
  {
  }

  // ---------------------------------------------------------------------------
  // BeginStep: carry the concentrations forward, clear the change channels
  // ---------------------------------------------------------------------------

  function BeginStepCell(c: Cell): Cell {
    Cell(c.a, c.b, 0.0, 0.0)
  }

  /** The BeginStep pass: every texel keeps its own (a, b) and has its deltas zeroed. */
  function BeginStepGrid(g: Grid): (r: Grid)
    requires g.Valid()
    ensures r.Fits(g.width, g.height)
    ensures forall y, x | 0 <= y < g.height && 0 <= x < g.width ::
      r.rows[y][x].a == g.rows[y][x].a && r.rows[y][x].b == g.rows[y][x].b &&
      r.rows[y][x].da == 0.0 && r.rows[y][x].db == 0.0
  {
    Grid(g.width, g.height,
      seq(g.height, y requires 0 <= y < g.height =>
        seq(g.width, x requires 0 <= x < g.width => BeginStepCell(ValueAt(g, x, y)))))
  }

  // ---------------------------------------------------------------------------
  // Diffusion: one pass of the weighted 3×3 blur
  // ---------------------------------------------------------------------------

  const OrthogonalWeight: real := 0.25
  const DiagonalWeight: real := 0.125
  /** The sum of the eight neighbour weights. */
  const TotalWeight: real := 1.5
  /** Species A always diffuses at the full rate. */
  const DiffuseRateA: real := 1.0

  function Concentrations(c: Cell): Vec2 { Vec2(c.a, c.b) }

  function Sum4(p: Vec2, q: Vec2, r: Vec2, s: Vec2): Vec2 {
    Vec2(p.x + q.x + r.x + s.x, p.y + q.y + r.y + s.y)
  }

  /** wSum: the weighted sum of the (a, b) of the eight neighbours of (x, y). */
  function NeighbourSum(g: Grid, x: int, y: int): Vec2
    requires g.Valid()
  {
    var orthogonal := Sum4(
      Concentrations(ValueAt(g, x + 1, y)), Concentrations(ValueAt(g, x - 1, y)),
      Concentrations(ValueAt(g, x, y + 1)), Concentrations(ValueAt(g, x, y - 1)));
    var diagonal := Sum4(
      Concentrations(ValueAt(g, x + 1, y + 1)), Concentrations(ValueAt(g, x - 1, y + 1)),
      Concentrations(ValueAt(g, x + 1, y - 1)), Concentrations(ValueAt(g, x - 1, y - 1)));
    Vec2(OrthogonalWeight * orthogonal.x + DiagonalWeight * diagonal.x,
         OrthogonalWeight * orthogonal.y + DiagonalWeight * diagonal.y)
  }

  /** The shader's `diffuse`: the neighbour mean minus the centre, scaled per species. */
  function DiffuseTerm(g: Grid, x: int, y: int, diffuseRateB: real): Vec2
    requires g.Valid()
  {
    var centre := ValueAt(g, x, y);
    var sum := NeighbourSum(g, x, y);
    Vec2((sum.x / TotalWeight - centre.a) * DiffuseRateA,
         (sum.y / TotalWeight - centre.b) * diffuseRateB)
  }

  /** One Diffusion shader invocation: the diffuse term is added to (a, b) and,
      mirrored, to the change channels (da, db). */
  function DiffuseCell(g: Grid, x: int, y: int, diffuseRateB: real): (r: Cell)
    requires g.Valid()
    ensures r.a - ValueAt(g, x, y).a == r.da - ValueAt(g, x, y).da
    ensures r.b - ValueAt(g, x, y).b == r.db - ValueAt(g, x, y).db
  {
    var centre := ValueAt(g, x, y);
    var d := DiffuseTerm(g, x, y, diffuseRateB);
    Cell(centre.a + d.x, centre.b + d.y, centre.da + d.x, centre.db + d.y)
  }

  /** All eight neighbours of (x, y) carry the concentrations of (x, y) itself. */
  ghost predicate FlatAround(g: Grid, x: int, y: int)
    requires g.Valid()
  {
    var c := Concentrations(ValueAt(g, x, y));
    Concentrations(ValueAt(g, x + 1, y)) == c && Concentrations(ValueAt(g, x - 1, y)) == c &&
    Concentrations(ValueAt(g, x, y + 1)) == c && Concentrations(ValueAt(g, x, y - 1)) == c &&
    Concentrations(ValueAt(g, x + 1, y + 1)) == c && Concentrations(ValueAt(g, x - 1, y + 1)) == c &&
    Concentrations(ValueAt(g, x + 1, y - 1)) == c && Concentrations(ValueAt(g, x - 1, y - 1)) == c
  }

  /** If all eight neighbours carry the centre's (a, b), the diffuse term is zero
      and the cell passes through unchanged. */
  lemma FlatNeighbourhoodIsFixed(g: Grid, x: int, y: int, diffuseRateB: real)
    requires g.Valid() && FlatAround(g, x, y)
    ensures DiffuseTerm(g, x, y, diffuseRateB) == Vec2(0.0, 0.0)
    ensures DiffuseCell(g, x, y, diffuseRateB) == ValueAt(g, x, y)
  {
    var c := Concentrations(ValueAt(g, x, y));
    assert NeighbourSum(g, x, y) == Vec2(TotalWeight * c.x, TotalWeight * c.y);
  }

  /** The Diffusion pass over the whole texture. */
  function DiffuseGrid(g: Grid, diffuseRateB: real): (r: Grid)
    requires g.Valid()
    ensures r.Fits(g.width, g.height)
    ensures forall y, x | 0 <= y < g.height && 0 <= x < g.width ::
      r.rows[y][x] == DiffuseCell(g, x, y, diffuseRateB)
  {
    Grid(g.width, g.height,
      seq(g.height, y requires 0 <= y < g.height =>
        seq(g.width, x requires 0 <= x < g.width => DiffuseCell(g, x, y, diffuseRateB))))
  }

  /** A field with uniform concentrations is a fixed point of the Diffusion pass. */
  lemma {:induction false} DiffuseUniformIsFixed(g: Grid, diffuseRateB: real)
    requires g.Valid() && UniformConcentrations(g)
    ensures DiffuseGrid(g, diffuseRateB) == g
  {
    var r := DiffuseGrid(g, diffuseRateB);
    forall y, x | 0 <= y < g.height && 0 <= x < g.width
      ensures r.rows[y][x] == g.rows[y][x]
    {
      assert FlatAround(g, x, y);
      FlatNeighbourhoodIsFixed(g, x, y, diffuseRateB);
    }
    forall y | 0 <= y < g.height ensures r.rows[y] == g.rows[y] {
    }
  }

  /** Discrete maximum principle: with diffuseRateB in [0, 1], a Diffusion pass keeps
      every concentration in [0, 1] (the new a is the neighbour mean; the new b lies
      between the old b and the neighbour mean). */
  lemma {:induction false} DiffusePreservesUnitRange(g: Grid, diffuseRateB: real)
    requires g.Valid() && InUnitRange(g)
    requires 0.0 <= diffuseRateB <= 1.0
    ensures InUnitRange(DiffuseGrid(g, diffuseRateB))
  {
    var r := DiffuseGrid(g, diffuseRateB);
    forall y, x | 0 <= y < g.height && 0 <= x < g.width
      ensures 0.0 <= r.rows[y][x].a <= 1.0 && 0.0 <= r.rows[y][x].b <= 1.0
    {
      DiffuseCellInUnitRange(g, x, y, diffuseRateB);
    }
  }

  lemma DiffuseCellInUnitRange(g: Grid, x: int, y: int, diffuseRateB: real)
    requires g.Valid() && InUnitRange(g)
    requires 0.0 <= diffuseRateB <= 1.0
    ensures 0.0 <= DiffuseCell(g, x, y, diffuseRateB).a <= 1.0
    ensures 0.0 <= DiffuseCell(g, x, y, diffuseRateB).b <= 1.0
  {
    NeighbourSumInRange(g, x, y);
    assert 0.0 <= ValueAt(g, x, y).b <= 1.0 by {
      assert ValueAt(g, x, y) == g.rows[Wrap(y, g.height)][Wrap(x, g.width)];
    }
    DiffuseCellBetween(g, x, y, diffuseRateB);
  }

  /** The range argument cell by cell, from bounds on the centre and the neighbour sums. */
  lemma DiffuseCellBetween(g: Grid, x: int, y: int, diffuseRateB: real)
    requires g.Valid() && 0.0 <= diffuseRateB <= 1.0
    requires 0.0 <= ValueAt(g, x, y).b <= 1.0
    requires 0.0 <= NeighbourSum(g, x, y).x <= TotalWeight
    requires 0.0 <= NeighbourSum(g, x, y).y <= TotalWeight
    ensures 0.0 <= DiffuseCell(g, x, y, diffuseRateB).a <= 1.0
    ensures 0.0 <= DiffuseCell(g, x, y, diffuseRateB).b <= 1.0
  {
    DiffuseCellMovesTowardsMean(g, x, y, diffuseRateB);
    var sum := NeighbourSum(g, x, y);
    MeanInUnitRange(sum.x);
    MeanInUnitRange(sum.y);
    ConvexStep(DiffuseCell(g, x, y, diffuseRateB).b, ValueAt(g, x, y).b, sum.y / TotalWeight, diffuseRateB);
  }

  /** A weighted sum between 0 and the total weight averages to a value in [0, 1]. */
  lemma MeanInUnitRange(s: real)
    requires 0.0 <= s <= TotalWeight
    ensures 0.0 <= s / TotalWeight <= 1.0
  {
  }

  /** The new a is the neighbour mean of a; the new b moves a fraction diffuseRateB
      of the way from b to the neighbour mean of b. */
  lemma DiffuseCellMovesTowardsMean(g: Grid, x: int, y: int, diffuseRateB: real)
    requires g.Valid()
    ensures DiffuseCell(g, x, y, diffuseRateB).a == NeighbourSum(g, x, y).x / TotalWeight
    ensures DiffuseCell(g, x, y, diffuseRateB).b ==
      ValueAt(g, x, y).b + (NeighbourSum(g, x, y).y / TotalWeight - ValueAt(g, x, y).b) * diffuseRateB
  {
  }

  /** Each weighted neighbour sum lies between 0 and the total weight. */
  lemma NeighbourSumInRange(g: Grid, x: int, y: int)
    requires g.Valid() && InUnitRange(g)
    ensures 0.0 <= NeighbourSum(g, x, y).x <= TotalWeight
    ensures 0.0 <= NeighbourSum(g, x, y).y <= TotalWeight
  {
    forall i: int, j: int ensures 0.0 <= ValueAt(g, i, j).a <= 1.0 && 0.0 <= ValueAt(g, i, j).b <= 1.0 {
      assert ValueAt(g, i, j) == g.rows[Wrap(j, g.height)][Wrap(i, g.width)];
    }
  }

  /** Moving v a fraction t of the way towards m keeps it in [0, 1]. */
  lemma ConvexStep(moved: real, v: real, m: real, t: real)
    requires 0.0 <= v <= 1.0 && 0.0 <= m <= 1.0 && 0.0 <= t <= 1.0
    requires moved == v + (m - v) * t
    ensures 0.0 <= moved <= 1.0
  {
    var stay := Scaled(1.0 - t, v);
    var move := Scaled(t, m);
    assert v + (m - v) * t == stay + move;
  }

  /** A fraction v in [0, 1] of a non-negative s lies between 0 and s. */
  lemma Scaled(s: real, v: real) returns (p: real)
    requires 0.0 <= s && 0.0 <= v <= 1.0
    ensures p == s * v && 0.0 <= p <= s
  {
    p := s * v;
    assert s * (1.0 - v) >= 0.0;
  }

  // ---------------------------------------------------------------------------
  // Reaction: one Gray-Scott update
  // ---------------------------------------------------------------------------

  /** The shader's `change`: conversion 2B + A -> 3B, feeding of A, removal of B. */
  function ReactionChange(c: Cell, feedRate: real, removeRate: real): Vec2 {
    var abb := c.a * c.b * c.b;
    Vec2(-abb + feedRate * (1.0 - c.a) - removeRate * 0.0,
         abb - feedRate * c.b - removeRate * c.b)
  }

  /** The Reaction shader's update: concentrations clamped to [0, 1], deltas
      accumulating the unclamped change. */
  function ReactCell(c: Cell, feedRate: real, removeRate: real): (r: Cell)
    ensures 0.0 <= r.a <= 1.0 && 0.0 <= r.b <= 1.0
    ensures r.a == Clamp01(c.a + ReactionChange(c, feedRate, removeRate).x)
    ensures r.b == Clamp01(c.b + ReactionChange(c, feedRate, removeRate).y)
    ensures r.da - c.da == ReactionChange(c, feedRate, removeRate).x
    ensures r.db - c.db == ReactionChange(c, feedRate, removeRate).y
    ensures 0.0 <= c.a + (r.da - c.da) <= 1.0 ==> r.a - c.a == r.da - c.da
    ensures 0.0 <= c.b + (r.db - c.db) <= 1.0 ==> r.b - c.b == r.db - c.db
  {
    var change := ReactionChange(c, feedRate, removeRate);
    Cell(Clamp01(c.a + change.x), Clamp01(c.b + change.y), c.da + change.x, c.db + change.y)
  }

  /** With no reactants at all, the only change is the feed of species A. */
  lemma EmptyCellIsOnlyFed(da: real, db: real, feedRate: real, removeRate: real)
    ensures ReactionChange(Cell(0.0, 0.0, da, db), feedRate, removeRate) == Vec2(feedRate, 0.0)
  {
  }

  /** The cell after n Reaction passes and nothing else. */
  function ReactRepeated(c: Cell, feedRate: real, removeRate: real, n: nat): Cell
  {
    if n == 0 then c else ReactCell(ReactRepeated(c, feedRate, removeRate, n - 1), feedRate, removeRate)
  }

  /** A cell without species B only receives feed: under repeated reaction b stays 0
      and a rises monotonically, never leaving [0, 1]. */
  lemma {:induction false} FeedOnlyIsMonotone(c: Cell, feedRate: real, removeRate: real, n: nat)
    requires c.b == 0.0 && 0.0 <= c.a <= 1.0 && feedRate >= 0.0
    ensures ReactRepeated(c, feedRate, removeRate, n).b == 0.0
    ensures c.a <= ReactRepeated(c, feedRate, removeRate, n).a <= 1.0
    ensures ReactRepeated(c, feedRate, removeRate, n).a <= ReactRepeated(c, feedRate, removeRate, n + 1).a
  {
    if n > 0 {
      FeedOnlyIsMonotone(c, feedRate, removeRate, n - 1);
    }
    FeedOnlyStep(ReactRepeated(c, feedRate, removeRate, n), feedRate, removeRate);
  }

  lemma FeedOnlyStep(p: Cell, feedRate: real, removeRate: real)
    requires p.b == 0.0 && 0.0 <= p.a <= 1.0 && feedRate >= 0.0
    ensures ReactCell(p, feedRate, removeRate).b == 0.0
    ensures p.a <= ReactCell(p, feedRate, removeRate).a <= 1.0
  {
    assert p.a * p.b * p.b == 0.0;
    var fed := Scaled(feedRate, 1.0 - p.a);
    assert ReactionChange(p, feedRate, removeRate) == Vec2(feedRate * (1.0 - p.a), 0.0);
  }

  /** The Reaction pass over the whole texture. */
  function ReactGrid(g: Grid, feedRate: real, removeRate: real): (r: Grid)
    requires g.Valid()
    ensures r.Fits(g.width, g.height)
    ensures forall y, x | 0 <= y < g.height && 0 <= x < g.width ::
      r.rows[y][x] == ReactCell(g.rows[y][x], feedRate, removeRate)
    ensures InUnitRange(r)
  {
    Grid(g.width, g.height,
      seq(g.height, y requires 0 <= y < g.height =>
        seq(g.width, x requires 0 <= x < g.width => ReactCell(ValueAt(g, x, y), feedRate, removeRate))))
  }
}
