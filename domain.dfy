/**
 * The geometry the particle container works in: three-dimensional positions,
 * axis-aligned boxes, the process grid, the hierarchical tiling of the root
 * domain into one box per process, the half-open containment test and the
 * grid walk that routes a position to the process owning it.
 */
module Domain {

  /** F64vec of the three-dimensional build; coordinates are ideal reals. */
  datatype Vec = Vec(x: real, y: real, z: real)
  {
    /** Coordinate on axis k (0 is x, 1 is y, 2 is z), as operator[] reads it. */
    function At(k: Axis): real {
      if k == 0 then x else if k == 1 then y else z
    }
  }

  const DIMENSION: nat := 3

  type Axis = k: nat | k < DIMENSION

  /** F64ort: the box with lower corner low_ and upper corner high_. */
  datatype Box = Box(low: Vec, high: Vec)

  /**
   * The product that determineWhetherParticleIsInDomain folds over the axes,
   * after its first n factors.
   */
  function InsideFirstAxes(pos: Vec, dom: Box, n: nat): bool
    requires n <= DIMENSION
  {
    if n == 0 then true
    else
      InsideFirstAxes(pos, dom, n - 1)
      && dom.low.At(n - 1) <= pos.At(n - 1) && pos.At(n - 1) < dom.high.At(n - 1)
  }

  lemma {:induction false} InsideFirstAxesMeans(pos: Vec, dom: Box, n: nat)
    requires n <= DIMENSION
    ensures InsideFirstAxes(pos, dom, n)
            <==> forall k: Axis :: k < n ==> dom.low.At(k) <= pos.At(k) < dom.high.At(k)
  {
    if n > 0 {
      InsideFirstAxesMeans(pos, dom, n - 1);
    }
  }

  /** determineWhetherParticleIsInDomain: the half-open test low <= pos < high on every axis. */
  function InDomain(pos: Vec, dom: Box): (r: bool)
    ensures r <==> (dom.low.x <= pos.x < dom.high.x
                    && dom.low.y <= pos.y < dom.high.y
                    && dom.low.z <= pos.z < dom.high.z)
  {
    InsideFirstAxesMeans(pos, dom, DIMENSION);
    assert pos.At(0) == pos.x && pos.At(1) == pos.y && pos.At(2) == pos.z;
    InsideFirstAxes(pos, dom, DIMENSION)
  }

  /** n_domain: how many sub-domains the grid has along x, y and z. */
  datatype Grid = Grid(nx: int, ny: int, nz: int)
  {
    predicate Valid() {
      nx >= 1 && ny >= 1 && nz >= 1
    }

    /** Number of processes the grid describes. */
    function Size(): int {
      nx * ny * nz
    }

    /** Position of cell (i, j, k) in the x-major sorted box array: strides ny*nz, nz and 1. */
    function Index(i: int, j: int, k: int): int {
      i * (ny * nz) + j * nz + k
    }
  }

  /**
   * Cut positions of the multisection that builds the boxes: global cuts on x,
   * cuts on y per x slab, cuts on z per (x, y) column.
   */
  datatype Cuts = Cuts(xs: seq<real>, ys: seq<seq<real>>, zs: seq<seq<seq<real>>>)

  /** n + 1 sorted cuts from lo to hi: n consecutive half-open intervals covering [lo, hi). */
  predicate SortedCuts(cs: seq<real>, lo: real, hi: real, n: int) {
    && n >= 1 && |cs| == n + 1
    && cs[0] == lo && cs[n] == hi
    && forall a, b :: 0 <= a <= b <= n ==> cs[a] <= cs[b]
  }

  /**
   * The boxes are the hierarchical tiling of root that the cuts describe, laid
   * out in the x-major order that the grid walk expects.
   */
  ghost predicate Tiling(root: Box, g: Grid, boxes: seq<Box>, c: Cuts) {
    && g.Valid()
    && |boxes| == g.Size()
    && SortedCuts(c.xs, root.low.x, root.high.x, g.nx)
    && |c.ys| == g.nx && |c.zs| == g.nx
    && (forall i :: 0 <= i < g.nx ==>
          SortedCuts(c.ys[i], root.low.y, root.high.y, g.ny) && |c.zs[i]| == g.ny)
    && (forall i, j :: 0 <= i < g.nx && 0 <= j < g.ny ==>
          SortedCuts(c.zs[i][j], root.low.z, root.high.z, g.nz))
    && (forall i, j, k {:trigger g.Index(i, j, k)} :: 0 <= i < g.nx && 0 <= j < g.ny && 0 <= k < g.nz ==>
          && 0 <= g.Index(i, j, k) < |boxes|
          && boxes[g.Index(i, j, k)]
             == Box(Vec(c.xs[i], c.ys[i][j], c.zs[i][j][k]),
                    Vec(c.xs[i + 1], c.ys[i][j + 1], c.zs[i][j][k + 1])))
  }

  /**
   * One while loop of searchWhichDomainParticleGoTo: from idomain, step by
   * stride while the candidate box ends at or below the coordinate on axis.
   * The index guard stands for the source's unchecked read; under a tiling
   * it never decides (see RouteFindsOwner).
   */
  function Walk(pos: Vec, boxes: seq<Box>, idomain: int, axis: Axis, stride: int): (r: int)
    requires 0 <= idomain && stride >= 1
    ensures r >= idomain
    decreases |boxes| - idomain
  {
    if idomain < |boxes| && boxes[idomain].high.At(axis) <= pos.At(axis)
    then Walk(pos, boxes, idomain + stride, axis, stride)
    else idomain
  }

  /** searchWhichDomainParticleGoTo, three-dimensional branch. */
  function Route(pos: Vec, g: Grid, boxes: seq<Box>): (r: int)
    requires g.Valid()
    ensures r >= 0
  {
    var nynz := g.ny * g.nz;
    assert nynz >= 1 by { MulMonotone(1, g.ny, g.nz); }
    var ix := Walk(pos, boxes, 0, 0, nynz);
    var iy := Walk(pos, boxes, ix, 1, g.nz);
    Walk(pos, boxes, iy, 2, 1)
  }

  /**
   * A walk started in slot m0 of a run of boxes whose upper bounds on axis
   * are the cuts cs[1..] lands in the slot m whose interval holds the coordinate.
   */
  lemma {:induction false} WalkLands(pos: Vec, boxes: seq<Box>, base: int, stride: int, axis: Axis,
                                     cs: seq<real>, n: int, m0: int) returns (m: int)
    requires 0 <= base && stride >= 1 && 0 <= m0 < n && |cs| == n + 1
    requires cs[m0] <= pos.At(axis) < cs[n]
    requires forall q :: 0 <= q < n ==>
               && base + q * stride < |boxes|
               && boxes[base + q * stride].high.At(axis) == cs[q + 1]
    ensures m0 <= m < n && cs[m] <= pos.At(axis) < cs[m + 1]
    ensures Walk(pos, boxes, base + m0 * stride, axis, stride) == base + m * stride
    decreases n - m0
  {
    var id := base + m0 * stride;
    assert id < |boxes| && boxes[id].high.At(axis) == cs[m0 + 1];
    if cs[m0 + 1] <= pos.At(axis) {
      assert m0 + 1 < n;
      assert id + stride == base + (m0 + 1) * stride;
      m := WalkLands(pos, boxes, base, stride, axis, cs, n, m0 + 1);
    } else {
      m := m0;
    }
  }

  /** The walk along x visits the boxes (q, 0, 0), whose upper x bound is the cut xs[q + 1]. */
  lemma WalkX(pos: Vec, root: Box, g: Grid, boxes: seq<Box>, c: Cuts) returns (i: int)
    requires Tiling(root, g, boxes, c) && InDomain(pos, root)
    ensures 0 <= i < g.nx && c.xs[i] <= pos.x < c.xs[i + 1]
    ensures g.ny * g.nz >= 1 && Walk(pos, boxes, 0, 0, g.ny * g.nz) == g.Index(i, 0, 0)
  {
    var nynz := g.ny * g.nz;
    MulMonotone(1, g.ny, g.nz);
    forall q | 0 <= q < g.nx
      ensures 0 + q * nynz < |boxes| && boxes[0 + q * nynz].high.At(0) == c.xs[q + 1]
    {
      assert g.Index(q, 0, 0) == q * nynz;
      assert boxes[g.Index(q, 0, 0)].high.x == c.xs[q + 1];
    }
    assert pos.At(0) == pos.x;
    i := WalkLands(pos, boxes, 0, nynz, 0, c.xs, g.nx, 0);
  }

  /** Within slab i the walk along y visits the boxes (i, q, 0). */
  lemma WalkY(pos: Vec, root: Box, g: Grid, boxes: seq<Box>, c: Cuts, i: int) returns (j: int)
    requires Tiling(root, g, boxes, c) && InDomain(pos, root) && 0 <= i < g.nx
    ensures 0 <= j < g.ny && c.ys[i][j] <= pos.y < c.ys[i][j + 1]
    ensures g.Index(i, 0, 0) >= 0
    ensures Walk(pos, boxes, g.Index(i, 0, 0), 1, g.nz) == g.Index(i, j, 0)
  {
    var ix := g.Index(i, 0, 0);
    forall q | 0 <= q < g.ny
      ensures ix + q * g.nz < |boxes| && boxes[ix + q * g.nz].high.At(1) == c.ys[i][q + 1]
    {
      assert g.Index(i, q, 0) == ix + q * g.nz;
      assert boxes[g.Index(i, q, 0)].high.y == c.ys[i][q + 1];
    }
    assert ix == ix + 0 * g.nz;
    assert pos.At(1) == pos.y;
    j := WalkLands(pos, boxes, ix, g.nz, 1, c.ys[i], g.ny, 0);
  }

  /** Within column (i, j) the walk along z visits the boxes (i, j, q). */
  lemma WalkZ(pos: Vec, root: Box, g: Grid, boxes: seq<Box>, c: Cuts, i: int, j: int) returns (k: int)
    requires Tiling(root, g, boxes, c) && InDomain(pos, root) && 0 <= i < g.nx && 0 <= j < g.ny
    ensures 0 <= k < g.nz && c.zs[i][j][k] <= pos.z < c.zs[i][j][k + 1]
    ensures g.Index(i, j, 0) >= 0
    ensures Walk(pos, boxes, g.Index(i, j, 0), 2, 1) == g.Index(i, j, k)
  {
    var iy := g.Index(i, j, 0);
    forall q | 0 <= q < g.nz
      ensures iy + q * 1 < |boxes| && boxes[iy + q * 1].high.At(2) == c.zs[i][j][q + 1]
    {
      assert g.Index(i, j, q) == iy + q * 1;
      assert boxes[g.Index(i, j, q)].high.z == c.zs[i][j][q + 1];
    }
    assert iy == iy + 0 * 1;
    assert pos.At(2) == pos.z;
    k := WalkLands(pos, boxes, iy, 1, 2, c.zs[i][j], g.nz, 0);
  }

  /** For a position in the root, the grid walk stops in the cell of the tiling that holds it. */
  lemma RouteFindsOwner(pos: Vec, root: Box, g: Grid, boxes: seq<Box>, c: Cuts)
    returns (i: int, j: int, k: int)
    requires Tiling(root, g, boxes, c) && InDomain(pos, root)
    ensures 0 <= i < g.nx && 0 <= j < g.ny && 0 <= k < g.nz
    ensures Route(pos, g, boxes) == g.Index(i, j, k)
    ensures c.xs[i] <= pos.x < c.xs[i + 1]
    ensures c.ys[i][j] <= pos.y < c.ys[i][j + 1]
    ensures c.zs[i][j][k] <= pos.z < c.zs[i][j][k + 1]
    ensures 0 <= Route(pos, g, boxes) < |boxes| && InDomain(pos, boxes[Route(pos, g, boxes)])
  {
    i := WalkX(pos, root, g, boxes, c);
    j := WalkY(pos, root, g, boxes, c, i);
    k := WalkZ(pos, root, g, boxes, c, i, j);
    assert boxes[g.Index(i, j, k)]
           == Box(Vec(c.xs[i], c.ys[i][j], c.zs[i][j][k]),
                  Vec(c.xs[i + 1], c.ys[i][j + 1], c.zs[i][j][k + 1]));
  }

  /** Every box index of a valid grid is the index of exactly one cell (i, j, k). */
  lemma Decompose(g: Grid, b: int) returns (i: int, j: int, k: int)
    requires g.Valid() && 0 <= b < g.Size()
    ensures 0 <= i < g.nx && 0 <= j < g.ny && 0 <= k < g.nz
    ensures g.Index(i, j, k) == b
  {
    var nynz := g.ny * g.nz;
    assert nynz >= g.nz by { MulMonotone(1, g.ny, g.nz); }
    i, j, k := DivModSplit(b, nynz, g.nz);
    assert i * nynz <= b < g.nx * nynz;
    MulCancel(i, g.nx, nynz);
    assert j * g.nz < g.ny * g.nz;
    MulCancel(j, g.ny, g.nz);
  }

  lemma MulMonotone(a: int, b: int, m: int)
    requires a <= b && m >= 0
    ensures a * m <= b * m
  {
  }

  lemma MulCancel(a: int, b: int, m: int)
    requires m > 0 && a * m < b * m
    ensures a < b
  {
  }

  /** b split into a quotient by d and the remainder split by e: b == i*d + j*e + k. */
  lemma DivModSplit(b: int, d: int, e: int) returns (i: int, j: int, k: int)
    requires b >= 0 && d >= e >= 1
    ensures i >= 0 && j >= 0 && 0 <= k < e
    ensures b == i * d + j * e + k
    ensures j * e + k < d
  {
    i := b / d;
    var rest := b % d;
    j := rest / e;
    k := rest % e;
  }

  /** Two sorted cut intervals that share a point are the same interval. */
  lemma SameSlot(cs: seq<real>, lo: real, hi: real, n: int, a: int, b: int, v: real)
    requires SortedCuts(cs, lo, hi, n) && 0 <= a < n && 0 <= b < n
    requires cs[a] <= v < cs[a + 1] && cs[b] <= v < cs[b + 1]
    ensures a == b
  {
  }

  /**
   * Router correctness: for a position in the root domain of a hierarchical
   * tiling, box a holds the position exactly when a is the routed index.
   */
  lemma RouteIsUniqueOwner(pos: Vec, root: Box, g: Grid, boxes: seq<Box>, c: Cuts, a: int)
    requires Tiling(root, g, boxes, c) && InDomain(pos, root) && 0 <= a < |boxes|
    ensures InDomain(pos, boxes[a]) <==> a == Route(pos, g, boxes)
  {
    var i, j, k := RouteFindsOwner(pos, root, g, boxes, c);
    if InDomain(pos, boxes[a]) {
      var i', j', k' := Decompose(g, a);
      assert boxes[g.Index(i', j', k')]
             == Box(Vec(c.xs[i'], c.ys[i'][j'], c.zs[i'][j'][k']),
                    Vec(c.xs[i' + 1], c.ys[i'][j' + 1], c.zs[i'][j'][k' + 1]));
      SameSlot(c.xs, root.low.x, root.high.x, g.nx, i, i', pos.x);
      SameSlot(c.ys[i], root.low.y, root.high.y, g.ny, j, j', pos.y);
      SameSlot(c.zs[i][j], root.low.z, root.high.z, g.nz, k, k', pos.z);
    }
  }

  /** Every box of a tiling lies inside the root domain. */
  lemma BoxInsideRoot(pos: Vec, root: Box, g: Grid, boxes: seq<Box>, c: Cuts, a: int)
    requires Tiling(root, g, boxes, c) && 0 <= a < |boxes| && InDomain(pos, boxes[a])
    ensures InDomain(pos, root)
  {
    var i, j, k := Decompose(g, a);
    assert boxes[g.Index(i, j, k)]
           == Box(Vec(c.xs[i], c.ys[i][j], c.zs[i][j][k]),
                  Vec(c.xs[i + 1], c.ys[i][j + 1], c.zs[i][j][k + 1]));
    assert c.xs[0] <= c.xs[i] && c.xs[i + 1] <= c.xs[g.nx];
    assert c.ys[i][0] <= c.ys[i][j] && c.ys[i][j + 1] <= c.ys[i][g.ny];
    assert c.zs[i][j][0] <= c.zs[i][j][k] && c.zs[i][j][k + 1] <= c.zs[i][j][g.nz];
  }
}
