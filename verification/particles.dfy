/** The particle system of components/Book/Particles.tsx: particles start
    near the spine and drift forward, slightly up and outward; each frame
    moves them by velocity times intensity, respawns any that drift more
    than two book widths forward, and re-rolls a height or depth that
    strays more than one and a half book heights or depths out.
    `Math.random` is a stream `rng` of draws in [0, 1) read at a cursor. */
module Particles {
  import opened Util

  datatype Vec = Vec(x: real, y: real, z: real)

  datatype Particle = Particle(pos: Vec, vel: Vec)

  datatype Dimensions = Dimensions(width: real, height: real, depth: real)

  predicate Draw(d: real)
  {
    0.0 <= d < 1.0
  }

  predicate NonNegative(dims: Dimensions)
  {
    dims.width >= 0.0 && dims.height >= 0.0 && dims.depth >= 0.0
  }

  /** `(Math.random() - 0.5) * extent`: a draw centred on zero. */
  function Centred(d: real, extent: real): (v: real)
    ensures Draw(d) && extent >= 0.0 ==> -extent / 2.0 <= v <= extent / 2.0
    ensures Draw(d) && extent > 0.0 ==> v < extent / 2.0
  {
    CentredBounds(d, extent);
    (d - 0.5) * extent
  }

  lemma CentredBounds(d: real, extent: real)
    ensures Draw(d) && extent >= 0.0 ==> -extent / 2.0 <= (d - 0.5) * extent <= extent / 2.0
    ensures Draw(d) && extent > 0.0 ==> (d - 0.5) * extent < extent / 2.0
  {
    if Draw(d) && extent >= 0.0 {
      assert (0.5 - d) * extent <= 0.5 * extent;
      assert 0.5 * extent - (d - 0.5) * extent == (1.0 - d) * extent;
    }
  }

  /** A spawn position: near the spine along x (half the width), over the
      full height and the spine's depth. */
  function Spawn(dims: Dimensions, dx: real, dy: real, dz: real): (p: Vec)
    ensures Draw(dx) && Draw(dy) && Draw(dz) && NonNegative(dims) ==>
              && -dims.width / 4.0 <= p.x <= dims.width / 4.0
              && -dims.height / 2.0 <= p.y <= dims.height / 2.0
              && -dims.depth / 2.0 <= p.z <= dims.depth / 2.0
    ensures Draw(dx) && dims.width > 0.0 ==> p.x < dims.width / 4.0
    ensures Draw(dy) && dims.height > 0.0 ==> p.y < dims.height / 2.0
    ensures Draw(dz) && dims.depth > 0.0 ==> p.z < dims.depth / 2.0
  {
    assert (dx - 0.5) * dims.width * 0.5 == Centred(dx, dims.width * 0.5);
    Vec(Centred(dx, dims.width * 0.5), Centred(dy, dims.height), Centred(dz, dims.depth))
  }

  /** The initial velocity: forward 0.01 to 0.03, upward up to 0.01, and a
      depth spread within 0.0025 either way. */
  function InitialVelocity(da: real, db: real, dc: real): (v: Vec)
    ensures Draw(da) && Draw(db) && Draw(dc) ==>
              && 0.01 <= v.x < 0.03
              && 0.0 <= v.y < 0.01
              && -0.0025 <= v.z < 0.0025
  {
    Vec(0.01 + da * 0.02, db * 0.01, Centred(dc, 0.005))
  }

  /** Inside the band a frame never leaves a particle outside of. */
  predicate InBand(dims: Dimensions, p: Vec)
  {
    p.x <= dims.width * 2.0 && AbsR(p.y) <= dims.height * 1.5 && AbsR(p.z) <= dims.depth * 1.5
  }

  /** The `useMemo` initialisation: particle `i` takes the six draws from
      `6 i` on, position first. Every particle starts in its spawn box
      with a velocity in the initial ranges, inside the band. */
  method Init(count: nat, dims: Dimensions, rng: nat -> real) returns (ps: seq<Particle>)
    requires forall i :: Draw(rng(i))
    ensures |ps| == count
    ensures forall i :: 0 <= i < count ==>
              ps[i] == Particle(Spawn(dims, rng(6 * i), rng(6 * i + 1), rng(6 * i + 2)),
                                InitialVelocity(rng(6 * i + 3), rng(6 * i + 4), rng(6 * i + 5)))
    ensures forall i :: 0 <= i < count ==> 0.01 <= ps[i].vel.x < 0.03 && 0.0 <= ps[i].vel.y < 0.01
    ensures NonNegative(dims) ==> forall i :: 0 <= i < count ==> InBand(dims, ps[i].pos)
  {
    ps := [];
    while |ps| < count
      invariant |ps| <= count
      invariant forall i :: 0 <= i < |ps| ==>
                  ps[i] == Particle(Spawn(dims, rng(6 * i), rng(6 * i + 1), rng(6 * i + 2)),
                                    InitialVelocity(rng(6 * i + 3), rng(6 * i + 4), rng(6 * i + 5)))
      invariant forall i :: 0 <= i < |ps| ==> 0.01 <= ps[i].vel.x < 0.03 && 0.0 <= ps[i].vel.y < 0.01
      invariant NonNegative(dims) ==> forall i :: 0 <= i < |ps| ==> InBand(dims, ps[i].pos)
    {
      var n := 6 * |ps|;
      var pos := Spawn(dims, rng(n), rng(n + 1), rng(n + 2));
      var vel := InitialVelocity(rng(n + 3), rng(n + 4), rng(n + 5));
      if NonNegative(dims) {
        SpawnInBand(dims, pos, rng(n), rng(n + 1), rng(n + 2));
      }
      ps := ps + [Particle(pos, vel)];
    }
  }

  /** A spawn position lies inside the band. */
  lemma SpawnInBand(dims: Dimensions, p: Vec, dx: real, dy: real, dz: real)
    requires NonNegative(dims) && Draw(dx) && Draw(dy) && Draw(dz)
    requires p == Spawn(dims, dx, dy, dz)
    ensures InBand(dims, p)
  {
  }

  /** The step before any respawn or wrap: velocity times intensity. */
  function Advance(p: Particle, intensity: real): Vec
  {
    Vec(p.pos.x + p.vel.x * intensity, p.pos.y + p.vel.y * intensity, p.pos.z + p.vel.z * intensity)
  }

  /** One particle's frame, reading draws from cursor `n`: advance; respawn
      (three draws) when more than two widths forward; then re-roll y and z
      (one draw each) when beyond one and a half heights or depths. The
      velocity never changes, an advance that stays in the band is kept,
      and the result is in the band. */
  function Move(p: Particle, dims: Dimensions, intensity: real, rng: nat -> real, n: nat): (r: (Particle, nat))
    requires forall i :: Draw(rng(i))
    ensures r.0.vel == p.vel
    ensures n <= r.1 <= n + 5
    ensures var m := Advance(p, intensity);
            && (m.x <= dims.width * 2.0 ==> r.0.pos.x == m.x)
            && (InBand(dims, m) ==> r.0.pos == m && r.1 == n)
    ensures NonNegative(dims) ==> InBand(dims, r.0.pos)
  {
    var m := Advance(p, intensity);
    var (a, n1) := if m.x > dims.width * 2.0 then (Spawn(dims, rng(n), rng(n + 1), rng(n + 2)), n + 3) else (m, n);
    var (y, n2) := if AbsR(a.y) > dims.height * 1.5 then (Centred(rng(n1), dims.height), n1 + 1) else (a.y, n1);
    var (z, n3) := if AbsR(a.z) > dims.depth * 1.5 then (Centred(rng(n2), dims.depth), n2 + 1) else (a.z, n2);
    (Particle(Vec(a.x, y, z), p.vel), n3)
  }

  /** `useFrame`: nothing moves when disabled; otherwise every particle
      moves in order, sharing one stream of draws. */
  method Frame(ps: seq<Particle>, dims: Dimensions, intensity: real, enabled: bool, rng: nat -> real, n: nat)
    returns (r: seq<Particle>, next: nat)
    requires forall i :: Draw(rng(i))
    ensures !enabled ==> r == ps && next == n
    ensures |r| == |ps|
    ensures forall i :: 0 <= i < |ps| ==> r[i].vel == ps[i].vel
    ensures enabled ==> forall i :: 0 <= i < |ps| ==>
              var m := Advance(ps[i], intensity);
              && (m.x <= dims.width * 2.0 ==> r[i].pos.x == m.x)
              && (InBand(dims, m) ==> r[i].pos == m)
    ensures enabled && NonNegative(dims) ==> forall i :: 0 <= i < |ps| ==> InBand(dims, r[i].pos)
  {
    if !enabled {
      return ps, n;
    }
    r, next := [], n;
    while |r| < |ps|
      invariant |r| <= |ps|
      invariant forall i :: 0 <= i < |r| ==> r[i].vel == ps[i].vel
      invariant forall i :: 0 <= i < |r| ==>
                  var m := Advance(ps[i], intensity);
                  && (m.x <= dims.width * 2.0 ==> r[i].pos.x == m.x)
                  && (InBand(dims, m) ==> r[i].pos == m)
      invariant NonNegative(dims) ==> forall i :: 0 <= i < |r| ==> InBand(dims, r[i].pos)
    {
      var moved := Move(ps[|r|], dims, intensity, rng, next);
      r, next := r + [moved.0], moved.1;
    }
  }

  /** A still frame (intensity 0) on particles in the band changes nothing
      and uses no draws. */
  lemma StillFrame(p: Particle, dims: Dimensions, rng: nat -> real, n: nat)
    requires forall i :: Draw(rng(i))
    requires InBand(dims, p.pos)
    ensures Move(p, dims, 0.0, rng, n) == (p, n)
  {
    assert Advance(p, 0.0) == p.pos;
  }

  /** The band is closed under frames: particles that start in it stay in
      it, with their velocities, whatever the intensity and the draws. */
  lemma {:induction false} FramesKeepBand(ps: seq<Particle>, dims: Dimensions, intensity: real, rng: nat -> real, n: nat, frames: nat)
    requires forall i :: Draw(rng(i))
    requires NonNegative(dims)
    requires forall i :: 0 <= i < |ps| ==> InBand(dims, ps[i].pos)
    ensures var r := Frames(ps, dims, intensity, rng, n, frames);
            && |r| == |ps|
            && (forall i :: 0 <= i < |r| ==> InBand(dims, r[i].pos))
            && (forall i :: 0 <= i < |r| ==> r[i].vel == ps[i].vel)
    decreases frames
  {
    if frames > 0 {
      var step := MoveAll(ps, dims, intensity, rng, n);
      FramesKeepBand(step.0, dims, intensity, rng, step.1, frames - 1);
      assert Frames(ps, dims, intensity, rng, n, frames) == Frames(step.0, dims, intensity, rng, step.1, frames - 1);
    }
  }

  /** The functional form of one enabled frame. */
  function MoveAll(ps: seq<Particle>, dims: Dimensions, intensity: real, rng: nat -> real, n: nat): (r: (seq<Particle>, nat))
    requires forall i :: Draw(rng(i))
    ensures |r.0| == |ps|
    ensures NonNegative(dims) ==> forall i :: 0 <= i < |ps| ==> InBand(dims, r.0[i].pos)
    ensures forall i :: 0 <= i < |ps| ==> r.0[i].vel == ps[i].vel
    ensures forall i :: 0 <= i < |ps| ==>
              var m := Advance(ps[i], intensity);
              && (m.x <= dims.width * 2.0 ==> r.0[i].pos.x == m.x)
              && (InBand(dims, m) ==> r.0[i].pos == m)
    ensures n <= r.1
    decreases |ps|
  {
    if ps == [] then ([], n)
    else
      var first := Move(ps[0], dims, intensity, rng, n);
      var rest := MoveAll(ps[1..], dims, intensity, rng, first.1);
      ([first.0] + rest.0, rest.1)
  }

  /** `frames` enabled frames in a row. */
  function Frames(ps: seq<Particle>, dims: Dimensions, intensity: real, rng: nat -> real, n: nat, frames: nat): seq<Particle>
    requires forall i :: Draw(rng(i))
    decreases frames
  {
    if frames == 0 then ps
    else
      var step := MoveAll(ps, dims, intensity, rng, n);
      Frames(step.0, dims, intensity, rng, step.1, frames - 1)
  }

  /** What is rendered: nothing when disabled; otherwise points of size
      `0.05 * e` and opacity `e` with `e = max(0.05, intensity)`. */
  datatype Look = Look(size: real, opacity: real)

  function Render(enabled: bool, intensity: real): (r: Option<Look>)
    ensures r.Some? <==> enabled
    ensures r.Some? ==> r.value.opacity >= 0.05 && r.value.size == 0.05 * r.value.opacity
    ensures r.Some? && intensity >= 0.05 ==> r.value.opacity == intensity
    ensures r.Some? && intensity < 0.05 ==> r.value.opacity == 0.05
  {
    if enabled then
      var e := MaxR(0.05, intensity);
      Some(Look(0.05 * e, e))
    else None
  }
}
