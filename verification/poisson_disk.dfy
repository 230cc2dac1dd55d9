/** The Poisson-disk sampler of src/utils/PoissonDiskSampler.js: points in
    a centred box, filed in a grid of cubic cells keyed by integer cell
    coordinates, with an active list of points that may still spawn
    neighbours. `Math.random` is a stream `rng` of draws in [0, 1) read
    at a cursor, and the cosine and sine of the drawn angle come from a
    `heading` oracle. The cell size `minDistance / Math.sqrt(3)` is
    irrational for rational distances, so it is stored as given and
    `CellOfSize` states the band of sizes the proofs need, which contains
    the exact one. */
module PoissonDisk {
  import opened Util

  datatype Point = Point(x: real, y: real, z: real)

  /** The integer cell coordinates that the source joins into the key
      string `"x,y,z"`; distinct coordinates give distinct keys. */
  datatype Cell = Cell(x: int, y: int, z: int)

  datatype Sampler = Sampler(width: real, height: real, depth: real, minDistance: real, cellSize: real,
                             grid: map<Cell, Point>, active: seq<Point>)

  /** The cosine and sine of a direction in the xy-plane. */
  datatype Heading = Heading(cos: real, sin: real)

  predicate UnitLength(h: Heading)
  {
    Sq(h.cos) + Sq(h.sin) == 1.0
  }

  function Sq(x: real): real
  {
    x * x
  }

  /** `cellSize = minDistance / sqrt(3)` makes a cell's diagonal exactly
      the minimum distance. Every property below needs only that the
      diagonal (`sqrt(3)` cells) is at least the minimum distance and that
      two cells are at least as long, so this is the band
      `3 cellSize² <= minDistance² <= 4 cellSize²`, which holds for the
      exact size and for rational ones such as `cellSize = 1`,
      `minDistance = 2`. */
  predicate CellOfSize(cellSize: real, minDistance: real)
  {
    cellSize > 0.0 && minDistance > 0.0 && 3.0 * Sq(cellSize) <= Sq(minDistance) <= 4.0 * Sq(cellSize)
  }

  /** `new PoissonDiskSampler(width, height, depth, minDistance)`. */
  function Create(width: real, height: real, depth: real, minDistance: real, cellSize: real): (s: Sampler)
    ensures s.grid == map[] && s.active == []
    ensures s.width == width && s.height == height && s.depth == depth
    ensures s.minDistance == minDistance && s.cellSize == cellSize
  {
    Sampler(width, height, depth, minDistance, cellSize, map[], [])
  }

  /** The cell a point is filed under: its offset from the box's low corner,
      in whole cells. */
  function CellOf(s: Sampler, p: Point): (k: Cell)
    requires s.cellSize > 0.0
    ensures k.x as real <= (p.x + s.width / 2.0) / s.cellSize < k.x as real + 1.0
    ensures k.y as real <= (p.y + s.height / 2.0) / s.cellSize < k.y as real + 1.0
    ensures k.z as real <= (p.z + s.depth / 2.0) / s.cellSize < k.z as real + 1.0
  {
    Cell(Floor((p.x + s.width / 2.0) / s.cellSize),
         Floor((p.y + s.height / 2.0) / s.cellSize),
         Floor((p.z + s.depth / 2.0) / s.cellSize))
  }

  /** Squared Euclidean distance; `dist < minDistance` iff this is below
      `minDistance²`, both sides being non-negative. */
  function DistSq(p: Point, q: Point): real
  {
    Sq(p.x - q.x) + Sq(p.y - q.y) + Sq(p.z - q.z)
  }

  predicate InBox(s: Sampler, p: Point)
  {
    AbsR(p.x) <= s.width / 2.0 && AbsR(p.y) <= s.height / 2.0 && AbsR(p.z) <= s.depth / 2.0
  }

  /** Cell `k` lies within `reach` cells of `c` along every axis. */
  predicate Near(k: Cell, c: Cell, reach: nat)
  {
    var r := reach as int;
    -r <= k.x - c.x <= r && -r <= k.y - c.y <= r && -r <= k.z - c.z <= r
  }

  /** No stored point within `reach` cells of `p`'s cell is closer than the
      minimum distance. */
  predicate ClearWithin(s: Sampler, p: Point, reach: nat)
    requires s.cellSize > 0.0
  {
    forall k :: k in s.grid && Near(k, CellOf(s, p), reach) ==>
      DistSq(p, s.grid[k]) >= Sq(s.minDistance)
  }

  /** `isValid` as written: inside the box and clear of the 27 cells around it. */
  predicate IsValidAsWritten(s: Sampler, p: Point)
    requires s.cellSize > 0.0
  {
    InBox(s, p) && ClearWithin(s, p, 1)
  }

  /** The corrected `isValid`: a point closer than `minDistance` may lie up to
      two cells away when a cell is `minDistance / sqrt(3)` wide, so the
      125 cells within reach 2 are examined. */
  predicate IsValid(s: Sampler, p: Point)
    requires s.cellSize > 0.0
  {
    InBox(s, p) && ClearWithin(s, p, 2)
  }

  /** `addPoint`: file the point under its cell, replacing any occupant,
      and make it active. */
  function AddPoint(s: Sampler, p: Point): (r: Sampler)
    requires s.cellSize > 0.0
    ensures r.grid == s.grid[CellOf(s, p) := p]
    ensures r.active == s.active + [p]
    ensures r == s.(grid := r.grid, active := r.active)
  {
    s.(grid := s.grid[CellOf(s, p) := p], active := s.active + [p])
  }

  /** `clear`: both the grid and the active list are emptied. */
  function Clear(s: Sampler): (r: Sampler)
    ensures r.grid == map[] && r.active == []
    ensures r == s.(grid := map[], active := [])
  {
    s.(grid := map[], active := [])
  }

  /** Every stored point sits in the cell it is filed under. */
  ghost predicate Filed(s: Sampler)
    requires s.cellSize > 0.0
  {
    forall k :: k in s.grid ==> CellOf(s, s.grid[k]) == k
  }

  /** Any two points of `grid` are at least `sqrt(minSq)` apart. */
  ghost predicate Apart(grid: map<Cell, Point>, minSq: real)
  {
    forall k1, k2 :: k1 in grid && k2 in grid && k1 != k2 ==> DistSq(grid[k1], grid[k2]) >= minSq
  }

  /** Any two stored points are at least the minimum distance apart. */
  ghost predicate Spaced(s: Sampler)
  {
    Apart(s.grid, Sq(s.minDistance))
  }

  /** `randomPoint`: each coordinate is `(draw - 0.5) * extent`. */
  function RandomPoint(s: Sampler, dx: real, dy: real, dz: real): (p: Point)
    ensures (&& 0.0 <= dx < 1.0 && 0.0 <= dy < 1.0 && 0.0 <= dz < 1.0
             && s.width >= 0.0 && s.height >= 0.0 && s.depth >= 0.0) ==> InBox(s, p)
  {
    var p := Point((dx - 0.5) * s.width, (dy - 0.5) * s.height, (dz - 0.5) * s.depth);
    CentredDraw(dx, s.width);
    CentredDraw(dy, s.height);
    CentredDraw(dz, s.depth);
    p
  }

  lemma CentredDraw(d: real, extent: real)
    ensures 0.0 <= d < 1.0 && extent >= 0.0 ==> AbsR((d - 0.5) * extent) <= extent / 2.0
  {
    if 0.0 <= d < 1.0 && extent >= 0.0 {
      if d >= 0.5 {
        assert (d - 0.5) * extent <= 0.5 * extent;
      } else {
        assert (0.5 - d) * extent <= 0.5 * extent;
      }
    }
  }

  /** `randomAround`: step `minDistance * (1 + radiusDraw)` along `heading`
      in the xy-plane and `(zDraw - 0.5) * minDistance` along z. */
  function RandomAround(s: Sampler, p: Point, heading: Heading, radiusDraw: real, zDraw: real): (q: Point)
  {
    var radius := s.minDistance * (1.0 + radiusDraw);
    Point(p.x + heading.cos * radius, p.y + heading.sin * radius, p.z + (zDraw - 0.5) * s.minDistance)
  }

  /** A candidate lies in the annulus between one and two minimum distances
      in the xy-plane, and within half a minimum distance along z. */
  lemma AroundInAnnulus(s: Sampler, p: Point, heading: Heading, radiusDraw: real, zDraw: real)
    requires UnitLength(heading) && s.minDistance > 0.0
    requires 0.0 <= radiusDraw < 1.0 && 0.0 <= zDraw < 1.0
    ensures var q := RandomAround(s, p, heading, radiusDraw, zDraw);
            var radius := s.minDistance * (1.0 + radiusDraw);
            && s.minDistance <= radius < 2.0 * s.minDistance
            && Sq(q.x - p.x) + Sq(q.y - p.y) == Sq(radius)
            && -s.minDistance / 2.0 <= q.z - p.z < s.minDistance / 2.0
  {
    var d := s.minDistance;
    var radius := d * (1.0 + radiusDraw);
    var q := RandomAround(s, p, heading, radiusDraw, zDraw);
    assert q.x - p.x == heading.cos * radius;
    assert q.y - p.y == heading.sin * radius;
    StepLength(heading, radius);
    MulMonoL(1.0, 1.0 + radiusDraw, d);
    MulStrictL(1.0 + radiusDraw, 2.0, d);
    assert q.z - p.z == (zDraw - 0.5) * d;
    MulMono(-0.5, zDraw - 0.5, d);
    MulStrict(zDraw - 0.5, 0.5, d);
  }

  /** A step of length `radius` along a unit heading. */
  lemma StepLength(h: Heading, radius: real)
    requires UnitLength(h)
    ensures Sq(h.cos * radius) + Sq(h.sin * radius) == Sq(radius)
  {
    assert Sq(h.cos * radius) + Sq(h.sin * radius) == (Sq(h.cos) + Sq(h.sin)) * Sq(radius);
  }

  // ---- Arithmetic: each step is stated in the exact shape the next one uses ----

  lemma MulMono(a: real, b: real, k: real)
    requires a <= b && k >= 0.0
    ensures a * k <= b * k
  {
    assert b * k - a * k == (b - a) * k;
  }

  lemma MulStrict(a: real, b: real, k: real)
    requires a < b && k > 0.0
    ensures a * k < b * k
  {
    assert b * k - a * k == (b - a) * k;
  }

  lemma MulMonoL(a: real, b: real, k: real)
    requires a <= b && k >= 0.0
    ensures k * a <= k * b
  {
    assert k * b - k * a == k * (b - a);
  }

  lemma MulStrictL(a: real, b: real, k: real)
    requires a < b && k > 0.0
    ensures k * a < k * b
  {
    assert k * b - k * a == k * (b - a);
  }

  lemma DivLess(a: real, c: real, b: real)
    requires c > 0.0 && a / c < b
    ensures a < b * c
  {
    MulStrict(a / c, b, c);
  }

  lemma DivAtLeast(a: real, c: real, b: real)
    requires c > 0.0 && b <= a / c
    ensures b * c <= a
  {
    MulMono(b, a / c, c);
  }

  /** Squares are ordered like the non-negative numbers squared. */
  lemma SquareLess(a: real, c: real)
    requires 0.0 <= a < c
    ensures Sq(a) < Sq(c)
  {
    ProductLess(a, c);
  }

  lemma ProductLess(a: real, c: real)
    requires 0.0 <= a < c
    ensures a * a < c * c
  {
    MulStrict(0.0, c - a, c + a);
    assert (c - a) * (c + a) == c * c - a * a;
  }

  lemma SquareOfAbs(u: real)
    ensures Sq(u) == Sq(AbsR(u))
  {
    if u < 0.0 {
      assert u * u == (-u) * (-u);
    }
  }

  lemma SquareNonNeg(v: real)
    ensures Sq(v) >= 0.0
  {
    SquareOfAbs(v);
    if AbsR(v) > 0.0 {
      SquarePositive(AbsR(v));
    }
  }

  /** Three offsets each shorter than `c` make a squared length below `3c²`. */
  lemma ThreeSmall(p: Point, q: Point, c: real)
    requires AbsR(p.x - q.x) < c && AbsR(p.y - q.y) < c && AbsR(p.z - q.z) < c
    ensures DistSq(p, q) < 3.0 * Sq(c)
  {
    var u, v, w := p.x - q.x, p.y - q.y, p.z - q.z;
    SquareOfAbs(u);
    SquareOfAbs(v);
    SquareOfAbs(w);
    SquareLess(AbsR(u), c);
    SquareLess(AbsR(v), c);
    SquareLess(AbsR(w), c);
  }

  /** One offset longer than `2c` makes a squared length above `4c²`. */
  lemma OneBig(p: Point, q: Point, c: real)
    requires c > 0.0
    requires AbsR(p.x - q.x) > 2.0 * c || AbsR(p.y - q.y) > 2.0 * c || AbsR(p.z - q.z) > 2.0 * c
    ensures DistSq(p, q) > 4.0 * Sq(c)
  {
    var u, v, w := p.x - q.x, p.y - q.y, p.z - q.z;
    SquareNonNeg(u);
    SquareNonNeg(v);
    SquareNonNeg(w);
    assert Sq(2.0 * c) == 4.0 * Sq(c);
    if AbsR(u) > 2.0 * c {
      SquareOfAbs(u);
      SquareLess(2.0 * c, AbsR(u));
    } else if AbsR(v) > 2.0 * c {
      SquareOfAbs(v);
      SquareLess(2.0 * c, AbsR(v));
    } else {
      SquareOfAbs(w);
      SquareLess(2.0 * c, AbsR(w));
    }
  }

  /** The cell index of `a` brackets it: `k c <= a < k c + c`. */
  lemma CellBounds(a: real, c: real)
    requires c > 0.0
    ensures Floor(a / c) as real * c <= a < Floor(a / c) as real * c + c
  {
    var k := Floor(a / c) as real;
    DivAtLeast(a, c, k);
    DivLess(a, c, k + 1.0);
    assert (k + 1.0) * c == k * c + c;
  }

  /** `a` and `b` in the same cell are less than a cell apart. */
  lemma SameFloorClose(a: real, b: real, c: real)
    requires c > 0.0 && Floor(a / c) == Floor(b / c)
    ensures -c < a - b < c
  {
    CellBounds(a, c);
    CellBounds(b, c);
  }

  /** Cells three or more apart hold points more than two cells apart. */
  lemma FarFloorsFar(a: real, b: real, c: real)
    requires c > 0.0 && Floor(a / c) - Floor(b / c) >= 3
    ensures a - b > 2.0 * c
  {
    CellBounds(a, c);
    CellBounds(b, c);
    CellGap(Floor(a / c), Floor(b / c), c);
    var lowA, lowB := Floor(a / c) as real * c, Floor(b / c) as real * c;
    GapBelow(a, b, lowA, lowB, c);
  }

  lemma GapBelow(a: real, b: real, lowA: real, lowB: real, c: real)
    requires lowA <= a && b < lowB + c && lowB + 3.0 * c <= lowA
    ensures a - b > 2.0 * c
  {
  }

  /** Cell indices three apart put their low corners three cells apart. */
  lemma CellGap(ka: int, kb: int, c: real)
    requires c > 0.0 && ka - kb >= 3
    ensures kb as real * c + 3.0 * c <= ka as real * c
  {
    MulMono(kb as real + 3.0, ka as real, c);
    assert (kb as real + 3.0) * c == kb as real * c + 3.0 * c;
  }

  /** Along one axis, cells three or more apart mean an offset beyond two cells. */
  lemma FarAxis(pc: real, qc: real, half: real, c: real)
    requires c > 0.0
    requires Floor((pc + half) / c) - Floor((qc + half) / c) >= 3
             || Floor((qc + half) / c) - Floor((pc + half) / c) >= 3
    ensures AbsR(pc - qc) > 2.0 * c
  {
    if Floor((pc + half) / c) - Floor((qc + half) / c) >= 3 {
      FarFloorsFar(pc + half, qc + half, c);
    } else {
      FarFloorsFar(qc + half, pc + half, c);
    }
  }

  /** Along one axis, the same cell means an offset below one cell. */
  lemma SameAxis(pc: real, qc: real, half: real, c: real)
    requires c > 0.0 && Floor((pc + half) / c) == Floor((qc + half) / c)
    ensures AbsR(pc - qc) < c
  {
    SameFloorClose(pc + half, qc + half, c);
  }

  /** Two points of one cell are closer than a cell's diagonal. */
  lemma SameCellClose(s: Sampler, p: Point, q: Point)
    requires CellOfSize(s.cellSize, s.minDistance)
    requires CellOf(s, p) == CellOf(s, q)
    ensures DistSq(p, q) < Sq(s.minDistance)
  {
    var c := s.cellSize;
    SameAxis(p.x, q.x, s.width / 2.0, c);
    SameAxis(p.y, q.y, s.height / 2.0, c);
    SameAxis(p.z, q.z, s.depth / 2.0, c);
    ThreeSmall(p, q, c);
  }

  /** Points whose cells are more than two apart on some axis are farther
      apart than the minimum distance. */
  lemma FarCellsFar(s: Sampler, p: Point, q: Point)
    requires CellOfSize(s.cellSize, s.minDistance)
    requires !Near(CellOf(s, q), CellOf(s, p), 2)
    ensures DistSq(p, q) > Sq(s.minDistance)
  {
    var c, kp, kq := s.cellSize, CellOf(s, p), CellOf(s, q);
    SquarePositive(c);
    if kp.x - kq.x >= 3 || kq.x - kp.x >= 3 {
      FarAxis(p.x, q.x, s.width / 2.0, c);
    } else if kp.y - kq.y >= 3 || kq.y - kp.y >= 3 {
      FarAxis(p.y, q.y, s.height / 2.0, c);
    } else {
      FarAxis(p.z, q.z, s.depth / 2.0, c);
    }
    OneBig(p, q, c);
  }

  lemma DistSymmetric(p: Point, q: Point)
    ensures DistSq(p, q) == DistSq(q, p)
  {
    assert (p.x - q.x) * (p.x - q.x) == (q.x - p.x) * (q.x - p.x);
    assert (p.y - q.y) * (p.y - q.y) == (q.y - p.y) * (q.y - p.y);
    assert (p.z - q.z) * (p.z - q.z) == (q.z - p.z) * (q.z - p.z);
  }

  lemma SquarePositive(c: real)
    requires c > 0.0
    ensures Sq(c) > 0.0
  {
    var h := c / 2.0;
    assert Sq(c) == c * h + c * h;
    PosProduct(c, h);
  }

  lemma PosProduct(a: real, b: real)
    requires a > 0.0 && b > 0.0
    ensures a * b > 0.0
  {
  }

  /** A point accepted by either check never lands in an occupied cell, so
      `addPoint`'s replacement of the occupant never happens. */
  lemma ValidNeverOverwrites(s: Sampler, p: Point)
    requires CellOfSize(s.cellSize, s.minDistance) && Filed(s)
    requires IsValidAsWritten(s, p) || IsValid(s, p)
    ensures CellOf(s, p) !in s.grid
  {
    var k := CellOf(s, p);
    forall q | q in s.grid.Values && CellOf(s, q) == k
      ensures DistSq(p, q) < Sq(s.minDistance)
    {
      SameCellClose(s, p, q);
    }
    assert Near(k, k, 1) && Near(k, k, 2);
  }

  /** A point the corrected check accepts is at least the minimum
      distance from every stored point, however far its cell. */
  lemma ValidFarFromAll(s: Sampler, p: Point)
    requires CellOfSize(s.cellSize, s.minDistance) && Filed(s)
    requires IsValid(s, p)
    ensures forall k :: k in s.grid ==> DistSq(p, s.grid[k]) >= Sq(s.minDistance)
  {
    forall k | k in s.grid
      ensures DistSq(p, s.grid[k]) >= Sq(s.minDistance)
    {
      if !Near(k, CellOf(s, p), 2) {
        assert CellOf(s, s.grid[k]) == k;
        FarCellsFar(s, p, s.grid[k]);
      }
    }
  }

  /** `addPoint` always files the point under its own cell. */
  lemma AddKeepsFiled(s: Sampler, p: Point)
    requires s.cellSize > 0.0 && Filed(s)
    ensures Filed(AddPoint(s, p))
  {
  }

  /** Filing a point that keeps its distance from every stored point
      keeps the grid apart, whether or not it replaces an occupant. */
  lemma InsertKeepsApart(grid: map<Cell, Point>, key: Cell, p: Point, minSq: real)
    requires Apart(grid, minSq)
    requires forall k :: k in grid ==> DistSq(p, grid[k]) >= minSq && DistSq(grid[k], p) >= minSq
    ensures Apart(grid[key := p], minSq)
  {
    var g := grid[key := p];
    forall k1, k2 | k1 in g && k2 in g && k1 != k2
      ensures DistSq(g[k1], g[k2]) >= minSq
    {
      if k1 == key {
        assert g[k2] == grid[k2];
      } else if k2 == key {
        assert g[k1] == grid[k1];
      } else {
        assert g[k1] == grid[k1] && g[k2] == grid[k2];
      }
    }
  }

  /** The corrected check keeps the grid spaced: adding a point it accepts
      leaves every two stored points at least the minimum distance apart. */
  lemma ValidKeepsSpaced(s: Sampler, p: Point)
    requires CellOfSize(s.cellSize, s.minDistance) && Filed(s) && Spaced(s)
    requires IsValid(s, p)
    ensures Filed(AddPoint(s, p)) && Spaced(AddPoint(s, p))
  {
    AddKeepsFiled(s, p);
    ValidFarFromAll(s, p);
    forall k | k in s.grid
      ensures DistSq(s.grid[k], p) >= Sq(s.minDistance)
    {
      DistSymmetric(p, s.grid[k]);
    }
    var m := Sq(s.minDistance);
    InsertKeepsApart(s.grid, CellOf(s, p), p, m);
    var r := AddPoint(s, p);
    assert r.minDistance == s.minDistance;
    assert r.minDistance * r.minDistance == m;
    assert Apart(r.grid, m);
    assert Apart(r.grid, r.minDistance * r.minDistance);
    assert Spaced(r);
  }

  /** The check as written accepts a point two cells from a stored point
      although the two are only one and a half cells apart: with `q` half a
      cell in from the left wall, `p` two cells in, and both on the box's
      mid-lines, `p` passes, lands in its own cell, and the grid is no
      longer spaced. */
  lemma AsWrittenAcceptsTooClose(width: real, height: real, depth: real, minDistance: real, cellSize: real)
    requires CellOfSize(cellSize, minDistance) && width >= 4.0 * cellSize && height >= 0.0 && depth >= 0.0
    ensures var s := AddPoint(Create(width, height, depth, minDistance, cellSize), Point(-width / 2.0 + cellSize / 2.0, 0.0, 0.0));
            var p := Point(-width / 2.0 + 2.0 * cellSize, 0.0, 0.0);
            && IsValidAsWritten(s, p)
            && !IsValid(s, p)
            && DistSq(p, Point(-width / 2.0 + cellSize / 2.0, 0.0, 0.0)) < Sq(minDistance)
            && !Spaced(AddPoint(s, p))
  {
    var c := cellSize;
    var s0 := Create(width, height, depth, minDistance, cellSize);
    var q := Point(-width / 2.0 + c / 2.0, 0.0, 0.0);
    var p := Point(-width / 2.0 + 2.0 * c, 0.0, 0.0);
    var kq, kp := TwoCellsApart(s0, q, p);
    var s := AddPoint(s0, q);
    assert s.grid == map[kq := q];
    assert CellOf(s, p) == kp;
    OneAndAHalfCells(s, p, q);
    assert InBox(s, p);
    assert Near(kq, kp, 2) && !Near(kq, kp, 1);
    var r := AddPoint(s, p);
    assert kp in r.grid && kq in r.grid && r.grid[kp] == p && r.grid[kq] == q;
    assert !Apart(r.grid, Sq(minDistance));
  }

  /** A concrete instance with rational sizes: a 4 x 0 x 0 box with unit
      cells and minimum distance 2. The check as written accepts the origin
      next to a stored point at x = -1.5, one and a half units away. */
  lemma AsWrittenAcceptsOrigin()
    ensures CellOfSize(1.0, 2.0)
    ensures var s := AddPoint(Create(4.0, 0.0, 0.0, 2.0, 1.0), Point(-1.5, 0.0, 0.0));
            && IsValidAsWritten(s, Point(0.0, 0.0, 0.0))
            && !IsValid(s, Point(0.0, 0.0, 0.0))
            && !Spaced(AddPoint(s, Point(0.0, 0.0, 0.0)))
  {
    assert Sq(1.0) == 1.0 && Sq(2.0) == 4.0;
    AsWrittenAcceptsTooClose(4.0, 0.0, 0.0, 2.0, 1.0);
  }

  /** The cells of the two witness points differ by two along x only. */
  lemma TwoCellsApart(s: Sampler, q: Point, p: Point) returns (kq: Cell, kp: Cell)
    requires s.cellSize > 0.0
    requires q == Point(-s.width / 2.0 + s.cellSize / 2.0, 0.0, 0.0)
    requires p == Point(-s.width / 2.0 + 2.0 * s.cellSize, 0.0, 0.0)
    ensures kq == CellOf(s, q) && kp == CellOf(s, p)
    ensures kq.x == 0 && kp.x == 2 && kq.y == kp.y && kq.z == kp.z
  {
    var c := s.cellSize;
    assert q.x + s.width / 2.0 == c / 2.0;
    assert p.x + s.width / 2.0 == 2.0 * c;
    assert (c / 2.0) / c == 0.5 && (2.0 * c) / c == 2.0;
    kq, kp := CellOf(s, q), CellOf(s, p);
  }

  /** The witness points are one and a half cells apart, closer than the
      minimum distance, and both inside a box at least four cells wide. */
  lemma OneAndAHalfCells(s: Sampler, p: Point, q: Point)
    requires CellOfSize(s.cellSize, s.minDistance) && s.width >= 4.0 * s.cellSize && s.height >= 0.0 && s.depth >= 0.0
    requires q == Point(-s.width / 2.0 + s.cellSize / 2.0, 0.0, 0.0)
    requires p == Point(-s.width / 2.0 + 2.0 * s.cellSize, 0.0, 0.0)
    ensures DistSq(p, q) < Sq(s.minDistance)
    ensures InBox(s, p) && InBox(s, q)
  {
    var c := s.cellSize;
    SquarePositive(c);
    assert p.x - q.x == 1.5 * c;
    assert Sq(1.5 * c) == 2.25 * Sq(c);
    assert DistSq(p, q) == 2.25 * Sq(c);
  }

  // ---- Sampling ----

  /** The first point of an empty grid is spaced from nothing. */
  lemma FirstPointSpaced(s: Sampler, p: Point)
    requires s.cellSize > 0.0 && s.grid == map[]
    ensures Filed(AddPoint(s, p)) && Spaced(AddPoint(s, p))
  {
    var r := AddPoint(s, p);
    assert r.grid == map[CellOf(s, p) := p];
  }

  /** Retiring an active point leaves the grid as it was. */
  lemma RetireKeepsSpaced(s: Sampler, r: Sampler)
    requires s.cellSize > 0.0 && Filed(s) && Spaced(s)
    requires r == s.(active := r.active)
    ensures Filed(r) && Spaced(r)
  {
    forall k | k in r.grid
      ensures CellOf(r, r.grid[k]) == k
    {
      assert CellOf(r, r.grid[k]) == CellOf(s, s.grid[k]);
    }
  }

  /** Up to `tries` candidates around `centre`, three draws each; the first
      one that lies in the box and is clear of the stored points within
      `reach` cells, and the cursor after the draws used. Reach 1 is the
      check as shipped (`IsValidAsWritten`), reach 2 the corrected one
      (`IsValid`). */
  function Search(s: Sampler, centre: Point, tries: nat, reach: nat, rng: nat -> real, heading: real -> Heading, n: nat): (r: (Option<Point>, nat))
    requires s.cellSize > 0.0
    ensures r.0.Some? ==> InBox(s, r.0.value) && ClearWithin(s, r.0.value, reach)
    ensures reach == 1 && r.0.Some? ==> IsValidAsWritten(s, r.0.value)
    ensures reach == 2 && r.0.Some? ==> IsValid(s, r.0.value)
    ensures n <= r.1 <= n + 3 * tries
    ensures r.0.None? ==> r.1 == n + 3 * tries
    decreases tries
  {
    if tries == 0 then (None, n)
    else
      var q := RandomAround(s, centre, heading(rng(n)), rng(n + 1), rng(n + 2));
      if InBox(s, q) && ClearWithin(s, q, reach) then (Some(q), n + 3)
      else Search(s, centre, tries - 1, reach, rng, heading, n + 3)
  }

  /** Looking further never accepts more: a point clear within some reach
      is clear within every smaller one. */
  lemma ClearWithinNarrower(s: Sampler, p: Point, reach: nat, smaller: nat)
    requires s.cellSize > 0.0 && smaller <= reach && ClearWithin(s, p, reach)
    ensures ClearWithin(s, p, smaller)
  {
    forall k | k in s.grid && Near(k, CellOf(s, p), smaller)
      ensures DistSq(p, s.grid[k]) >= Sq(s.minDistance)
    {
      assert Near(k, CellOf(s, p), reach);
    }
  }

  /** `Math.floor(Math.random() * length)` is an index of the list. */
  lemma DrawIndex(d: real, length: nat)
    requires 0.0 <= d < 1.0 && length > 0
    ensures 0 <= Floor(d * length as real) < length
  {
    assert d * length as real < 1.0 * length as real;
  }

  /** One round of the main loop: pick an active point with one draw,
      then search around it; a success files the new point, a failure
      retires the picked point from the active list. */
  function Step(cur: Sampler, reach: nat, rng: nat -> real, heading: real -> Heading, n: nat): (r: (Sampler, Option<Point>, nat))
    requires cur.cellSize > 0.0 && |cur.active| > 0
    requires forall i :: 0.0 <= rng(i) < 1.0
    ensures r.1.Some? ==> InBox(cur, r.1.value) && ClearWithin(cur, r.1.value, reach) && r.0 == AddPoint(cur, r.1.value)
    ensures r.1.None? ==> r.0 == cur.(active := r.0.active) && |r.0.active| == |cur.active| - 1
    ensures n < r.2
  {
    DrawIndex(rng(n), |cur.active|);
    var idx := Floor(rng(n) * |cur.active| as real);
    var found := Search(cur, cur.active[idx], 30, reach, rng, heading, n + 1);
    if found.0.Some? then (AddPoint(cur, found.0.value), found.0, found.1)
    else (cur.(active := cur.active[..idx] + cur.active[idx + 1..]), None, found.1)
  }

  /** A round that looks at least two cells out keeps the grid filed and
      spaced when the grid started spaced. */
  lemma StepKeepsSpaced(cur: Sampler, reach: nat, rng: nat -> real, heading: real -> Heading, n: nat)
    requires CellOfSize(cur.cellSize, cur.minDistance) && |cur.active| > 0 && reach >= 2
    requires forall i :: 0.0 <= rng(i) < 1.0
    requires Filed(cur) && Spaced(cur)
    ensures var r := Step(cur, reach, rng, heading, n).0;
            Filed(r) && Spaced(r)
  {
    var r := Step(cur, reach, rng, heading, n);
    if r.1.Some? {
      ClearWithinNarrower(cur, r.1.value, reach, 2);
      ValidKeepsSpaced(cur, r.1.value);
    } else {
      RetireKeepsSpaced(cur, r.0);
    }
  }

  /** `sample(count)`: one unconditional first point, then candidates
      around random active points until `count` points are placed or no
      point is active (a point that yields nothing in 30 tries retires),
      then random padding. Candidates are checked `reach` cells out: 1 as
      shipped, 2 corrected. Exactly `max(count, 1)` points come back, all
      in the box, and with the corrected reach, starting from an empty
      grid, the stored points stay spaced. */
  method Sample(s: Sampler, count: int, reach: nat, rng: nat -> real, heading: real -> Heading) returns (r: Sampler, points: seq<Point>)
    requires s.cellSize > 0.0
    requires forall i :: 0.0 <= rng(i) < 1.0
    ensures |points| == MaxI(count, 1)
    ensures s.width >= 0.0 && s.height >= 0.0 && s.depth >= 0.0 ==> forall i :: 0 <= i < |points| ==> InBox(s, points[i])
    ensures r.width == s.width && r.height == s.height && r.depth == s.depth
    ensures r.minDistance == s.minDistance && r.cellSize == s.cellSize
    ensures CellOfSize(s.cellSize, s.minDistance) && s.grid == map[] && reach >= 2 ==> Filed(r) && Spaced(r)
  {
    var nonNeg := s.width >= 0.0 && s.height >= 0.0 && s.depth >= 0.0;
    var fromEmpty := CellOfSize(s.cellSize, s.minDistance) && s.grid == map[] && reach >= 2;
    var first := RandomPoint(s, rng(0), rng(1), rng(2));
    var n := 3;
    var cur := AddPoint(s, first);
    points := [first];
    if fromEmpty {
      FirstPointSpaced(s, first);
    }
    while |cur.active| > 0 && |points| < count
      invariant 1 <= |points| <= MaxI(count, 1)
      invariant cur == s.(grid := cur.grid, active := cur.active)
      invariant nonNeg ==> forall i :: 0 <= i < |points| ==> InBox(s, points[i])
      invariant fromEmpty ==> Filed(cur) && Spaced(cur)
      decreases 2 * (count - |points|) + |cur.active|
    {
      if fromEmpty {
        StepKeepsSpaced(cur, reach, rng, heading, n);
      }
      var step := Step(cur, reach, rng, heading, n);
      cur, n := step.0, step.2;
      if step.1.Some? {
        points := points + [step.1.value];
      }
    }
    while |points| < count
      invariant 1 <= |points| <= MaxI(count, 1)
      invariant nonNeg ==> forall i :: 0 <= i < |points| ==> InBox(s, points[i])
    {
      points := points + [RandomPoint(s, rng(n), rng(n + 1), rng(n + 2))];
      n := n + 3;
    }
    r := cur;
  }
}
