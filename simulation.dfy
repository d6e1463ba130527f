/** The simulation state of app.js as one object: the `boids` and `hawks` arrays, the `settings` fields
    the core reads and writes, `spatialHash` and `neighborOffsets`, together with the operations that
    change them: `setBoidCount`, `setHawkCount`, `setSandboxSize`, `buildSpatialHash`, `updateBoids`
    and `updateHawk`. The functions below the class are the specifications those methods meet. */
module Simulation {
  import opened Wrappers
  import opened Config
  import opened Vectors
  import opened Containment
  import opened Grid
  import opened Neighbors
  import opened Scans
  import opened Agents

  /** `halfSize`: the box reaches this far from the origin on every axis. */
  function HalfSize(size: real): real {
    size * 0.5
  }

  /** The boids' positions, in index order. */
  function Positions(bs: seq<Boid>): seq<Vec3> {
    seq(|bs|, k requires 0 <= k < |bs| => bs[k].position)
  }

  /** The boids' velocities, in index order. */
  function Velocities(bs: seq<Boid>): seq<Vec3> {
    seq(|bs|, k requires 0 <= k < |bs| => bs[k].velocity)
  }

  /** The hawks' positions, in index order. */
  function HawkPositions(hs: seq<Hawk>): seq<Vec3> {
    seq(|hs|, k requires 0 <= k < |hs| => hs[k].position)
  }

  /** `Math.max(10, Math.min(MAX_BIRDS, target))`. */
  function DesiredBoids(target: int): (n: int)
    ensures MinBirds <= n <= MaxBirds
    ensures n == target <==> MinBirds <= target <= MaxBirds
    ensures target < MinBirds ==> n == MinBirds
    ensures target > MaxBirds ==> n == MaxBirds
  {
    MaxInt(MinBirds, MinInt(MaxBirds, target))
  }

  /** `Math.max(0, Math.min(MAX_HAWKS, target))`. */
  function DesiredHawks(target: int): (n: int)
    ensures 0 <= n <= MaxHawks
    ensures n == target <==> 0 <= target <= MaxHawks
    ensures target < 0 ==> n == 0
    ensures target > MaxHawks ==> n == MaxHawks
  {
    MaxInt(0, MinInt(MaxHawks, target))
  }

  /** `Math.max(MIN_WORLD_SIZE, Math.min(MAX_WORLD_SIZE, target))`. */
  function DesiredSize(target: real): (s: real)
    ensures MinWorldSize <= s <= MaxWorldSize
    ensures s == target <==> MinWorldSize <= target <= MaxWorldSize
    ensures target < MinWorldSize ==> s == MinWorldSize
    ensures target > MaxWorldSize ==> s == MaxWorldSize
  {
    MaxReal(MinWorldSize, MinReal(MaxWorldSize, target))
  }

  /** The steering terms of the first pass of `updateBoids` that need square roots, sines or noise:
      separation, alignment, cohesion and fear forces and the curvature term, from the boid, its
      neighbour sums, the position of the hawk that frightens it (if any) and the simulation time. */
  type Steer = (Boid, Accum, Option<Vec3>, real) -> Vec3

  /** The position of the hawk that frightens a boid at `p`, as the fear gate picks it: there is one
      exactly when some hawk is inside the fear radius and none is within `1e-8`, and it is then the
      first nearest hawk. */
  function ThreatOf(p: Vec3, hs: seq<Hawk>): (t: Option<Vec3>)
    ensures t.Some? <==>
      (exists m :: 0 <= m < |hs| && DistSq(p, hs[m].position) < FearSq) &&
      (forall m :: 0 <= m < |hs| ==> DistSq(p, hs[m].position) > Eps)
    ensures t.Some? ==> exists k: nat :: FirstNearest(FearDistances(p, HawkPositions(hs)), None, k) && t == Some(hs[k].position)
  {
    var ds := FearDistances(p, HawkPositions(hs));
    assert forall m :: 0 <= m < |hs| ==> ds[m] == DistSq(p, hs[m].position);
    ThreatSpec(ds);
    NearestSpec(ds, None);
    match Threat(ds)
    case None => None
    case Some(k) => Some(hs[k].position)
  }

  /** The acceleration the first pass writes for boid `i`, read off the pre-tick state: the old
      acceleration blended with the steering terms plus the boundary turn-back terms. */
  function Steered(bs: seq<Boid>, hs: seq<Hawk>, i: nat, half: real, simTime: real,
                   invSqrt: real -> real, steer: Steer): Vec3
    requires i < |bs|
  {
    var b := bs[i];
    var acc := Tally(Positions(bs), Velocities(bs), i, Range(|bs|), invSqrt);
    LowPass(b.acceleration, Add(steer(b, acc, ThreatOf(b.position, hs), simTime),
                                TurnBackVec(b.position, half, BoidMargin, BoidTurn)))
  }

  /** The boids after the first pass of `updateBoids`. */
  function SteerPass(bs: seq<Boid>, hs: seq<Hawk>, half: real, simTime: real,
                     invSqrt: real -> real, steer: Steer): (r: seq<Boid>)
    ensures |r| == |bs|
  {
    seq(|bs|, k requires 0 <= k < |bs| => bs[k].(acceleration := Steered(bs, hs, k, half, simTime, invSqrt, steer)))
  }

  /** The boids after the second pass of `updateBoids`. */
  function MovePass(bs: seq<Boid>, dt: real, half: real, limitSpeed: Vec3 -> Vec3): (r: seq<Boid>)
    requires half > 0.0
    ensures |r| == |bs|
  {
    seq(|bs|, k requires 0 <= k < |bs| => IntegrateBoid(bs[k], dt, half, limitSpeed))
  }

  /** The position of the boid a hawk at `h` chases, if its chase scan picks one. */
  function TargetOf(h: Vec3, ps: seq<Vec3>): Option<Vec3> {
    match Nearest(ChaseDistances(ps, h), Some(ChaseSq))
    case None => None
    case Some(i) => Some(ps[i])
  }

  /** Hawk `k` after its step towards its own target, with the `k`-th wander draw. */
  function Chased(hs: seq<Hawk>, ps: seq<Vec3>, k: nat, dt: real, half: real, wander: nat -> WanderDraw,
                  pursuit: (Hawk, Vec3) -> Vec3, limitSpeed: Vec3 -> Vec3): Hawk
    requires half > 0.0 && k < |hs|
  {
    HawkStep(hs[k], TargetOf(hs[k].position, ps), wander(k), dt, half, pursuit, limitSpeed)
  }

  /** The hawks after `updateHawk`: unchanged without hawks or without boids, otherwise each hawk takes
      its step towards its own target, with the `k`-th wander draw. */
  function HawkPass(hs: seq<Hawk>, ps: seq<Vec3>, dt: real, half: real, wander: nat -> WanderDraw,
                    pursuit: (Hawk, Vec3) -> Vec3, limitSpeed: Vec3 -> Vec3): (r: seq<Hawk>)
    requires half > 0.0
    ensures |r| == |hs|
  {
    if |hs| == 0 || |ps| == 0 then hs
    else seq(|hs|, k requires 0 <= k < |hs| => Chased(hs, ps, k, dt, half, wander, pursuit, limitSpeed))
  }

  /** The first pass writes accelerations only: every position, velocity and arc parameter is the pre-tick
      one, so each boid's steering reads the same snapshot whatever order the boids are visited in. */
  lemma SteerPassKeepsMotion(bs: seq<Boid>, hs: seq<Hawk>, half: real, simTime: real,
                             invSqrt: real -> real, steer: Steer)
    ensures var r := SteerPass(bs, hs, half, simTime, invSqrt, steer);
      Positions(r) == Positions(bs) && Velocities(r) == Velocities(bs) &&
      forall k :: 0 <= k < |bs| ==> r[k] == bs[k].(acceleration := r[k].acceleration)
  {
    var r := SteerPass(bs, hs, half, simTime, invSqrt, steer);
    assert Positions(r) == Positions(bs);
    assert Velocities(r) == Velocities(bs);
  }

  /** After the second pass every boid is inside the box, the acceleration is a quarter of what the first
      pass wrote, and a velocity component is bounced exactly where the move reached a face. */
  lemma MovePassContains(bs: seq<Boid>, dt: real, half: real, limitSpeed: Vec3 -> Vec3, k: nat)
    requires half > 0.0 && k < |bs|
    ensures var r := MovePass(bs, dt, half, limitSpeed);
      var v := limitSpeed(Add(bs[k].velocity, Scale(bs[k].acceleration, dt)));
      InBox(r[k].position, half) && r[k].acceleration == Decay(bs[k].acceleration) &&
      BouncedAll(r[k].velocity, v, Advanced(bs[k].position, v, dt), half, BoidBounce)
  {
  }

  /** Over one whole tick a boid's acceleration follows the blend-then-decay recurrence of `Carried`,
      with the steering sum of that tick. */
  lemma TickCarries(bs: seq<Boid>, hs: seq<Hawk>, half: real, simTime: real, dt: real,
                    invSqrt: real -> real, steer: Steer, limitSpeed: Vec3 -> Vec3, k: nat)
    requires half > 0.0 && k < |bs|
    ensures var b := bs[k];
      var acc := Tally(Positions(bs), Velocities(bs), k, Range(|bs|), invSqrt);
      var sum := Add(steer(b, acc, ThreatOf(b.position, hs), simTime), TurnBackVec(b.position, half, BoidMargin, BoidTurn));
      MovePass(SteerPass(bs, hs, half, simTime, invSqrt, steer), dt, half, limitSpeed)[k].acceleration ==
        Carried(b.acceleration, [sum])
  {
    var b := bs[k];
    var acc := Tally(Positions(bs), Velocities(bs), k, Range(|bs|), invSqrt);
    var sum := Add(steer(b, acc, ThreatOf(b.position, hs), simTime), TurnBackVec(b.position, half, BoidMargin, BoidTurn));
    assert [sum][..0] == [];
  }

  /** A hawk step for every hawk, and the hawks stay in the box with no acceleration carried over. */
  lemma HawkPassContains(hs: seq<Hawk>, ps: seq<Vec3>, dt: real, half: real, wander: nat -> WanderDraw,
                         pursuit: (Hawk, Vec3) -> Vec3, limitSpeed: Vec3 -> Vec3, k: nat)
    requires half > 0.0 && k < |hs| && |ps| > 0
    ensures var r := HawkPass(hs, ps, dt, half, wander, pursuit, limitSpeed);
      InBox(r[k].position, half) && r[k].acceleration == Zero &&
      r[k] == HawkStep(hs[k], TargetOf(hs[k].position, ps), wander(k), dt, half, pursuit, limitSpeed)
  {
    var r := HawkPass(hs, ps, dt, half, wander, pursuit, limitSpeed);
    assert r[k] == HawkStep(hs[k], TargetOf(hs[k].position, ps), wander(k), dt, half, pursuit, limitSpeed);
  }

  /** A hawk chases the first nearest boid strictly inside the chase radius, and wanders when there is none. */
  lemma TargetIsNearestInside(h: Vec3, ps: seq<Vec3>)
    ensures TargetOf(h, ps).None? <==> forall i :: 0 <= i < |ps| ==> DistSq(ps[i], h) >= ChaseSq
    ensures TargetOf(h, ps).Some? ==> exists i: nat :: FirstNearest(ChaseDistances(ps, h), Some(ChaseSq), i) && TargetOf(h, ps) == Some(ps[i])
  {
    var ds := ChaseDistances(ps, h);
    NearestSpec(ds, Some(ChaseSq));
    assert forall i :: 0 <= i < |ps| ==> ds[i] == DistSq(ps[i], h);
  }

  class World {
    var boids: seq<Boid>
    var hawks: seq<Hawk>
    /** `settings.sandboxSize`, `settings.boidCount` and `settings.hawkCount`. */
    var sandboxSize: real
    var boidCount: int
    var hawkCount: int
    var spatialHash: map<Cell, seq<nat>>
    var neighborOffsets: seq<Cell>

    /** What holds between operations: the offset table is built, the world size and the populations are
        within their limits, every agent is inside the box and no hawk carries acceleration. */
    predicate Valid()
      reads this`neighborOffsets, this`sandboxSize, this`boids, this`hawks
    {
      SettingsValid() && BoidsInside() && HawksInside()
    }

    /** The offset table is built and the world size is within its limits. */
    predicate SettingsValid()
      reads this`neighborOffsets, this`sandboxSize
    {
      IsOffsetTable(neighborOffsets) && MinWorldSize <= sandboxSize <= MaxWorldSize
    }

    /** At most `MAX_BIRDS` boids, every one inside the box. */
    predicate BoidsInside()
      reads this`sandboxSize, this`boids
    {
      |boids| <= MaxBirds && forall k :: 0 <= k < |boids| ==> InBox(boids[k].position, HalfSize(sandboxSize))
    }

    /** At most `MAX_HAWKS` hawks, every one inside the box and carrying no acceleration. */
    predicate HawksInside()
      reads this`sandboxSize, this`hawks
    {
      |hawks| <= MaxHawks &&
      (forall k :: 0 <= k < |hawks| ==> InBox(hawks[k].position, HalfSize(sandboxSize))) &&
      (forall k :: 0 <= k < |hawks| ==> hawks[k].acceleration == Zero)
    }

    /** The module-level state before the start-up calls: no agents, the default settings and the
        27-entry `neighborOffsets` table. */
    constructor ()
      ensures Valid()
      ensures boids == [] && hawks == [] && spatialHash == map[]
      ensures sandboxSize == DefaultSandboxSize && boidCount == DefaultBoidCount && hawkCount == DefaultHawkCount
    {
      boids := [];
      hawks := [];
      sandboxSize := DefaultSandboxSize;
      boidCount := DefaultBoidCount;
      hawkCount := DefaultHawkCount;
      spatialHash := map[];
      var offsets := BuildNeighborOffsets();
      neighborOffsets := offsets;
    }

    /** `setBoidCount(target)`: the new count is the clamped target; boids are created at the tail while
        there are too few and popped from the tail while there are too many. The `k`-th boid, if new, is
        made from `draws(k)`. */
    method SetBoidCount(target: int, draws: nat -> BoidDraw)
      requires Valid()
      modifies this`boids, this`boidCount
      ensures Valid()
      ensures boidCount == DesiredBoids(target) && |boids| == boidCount
      ensures forall k :: 0 <= k < |boids| && k < |old(boids)| ==> boids[k] == old(boids)[k]
      ensures forall k :: |old(boids)| <= k < |boids| ==> boids[k] == CreateBoid(draws(k), sandboxSize)
    {
      var desired := MaxInt(MinBirds, MinInt(MaxBirds, target));
      while |boids| < desired
        invariant Valid()
        invariant |boids| == |old(boids)| || |boids| <= desired
        invariant forall k :: 0 <= k < |boids| ==>
          boids[k] == if k < |old(boids)| then old(boids)[k] else CreateBoid(draws(k), sandboxSize)
        decreases desired - |boids|
      {
        var boid := CreateBoid(draws(|boids|), sandboxSize);
        boids := boids + [boid];
      }
      while |boids| > desired
        invariant Valid()
        invariant |boids| >= desired
        invariant forall k :: 0 <= k < |boids| ==>
          boids[k] == if k < |old(boids)| then old(boids)[k] else CreateBoid(draws(k), sandboxSize)
        decreases |boids|
      {
        boids := boids[..|boids| - 1];
      }
      boidCount := desired;
    }

    /** `setHawkCount(target)`, the same shape with the limits 0 and 100. */
    method SetHawkCount(target: int, draws: nat -> HawkDraw)
      requires Valid()
      modifies this`hawks, this`hawkCount
      ensures Valid()
      ensures hawkCount == DesiredHawks(target) && |hawks| == hawkCount
      ensures forall k :: 0 <= k < |hawks| && k < |old(hawks)| ==> hawks[k] == old(hawks)[k]
      ensures forall k :: |old(hawks)| <= k < |hawks| ==> hawks[k] == CreateHawk(draws(k), sandboxSize)
    {
      var desired := MaxInt(0, MinInt(MaxHawks, target));
      while |hawks| < desired
        invariant Valid()
        invariant |hawks| == |old(hawks)| || |hawks| <= desired
        invariant forall k :: 0 <= k < |hawks| ==>
          hawks[k] == if k < |old(hawks)| then old(hawks)[k] else CreateHawk(draws(k), sandboxSize)
        decreases desired - |hawks|
      {
        hawks := hawks + [CreateHawk(draws(|hawks|), sandboxSize)];
      }
      while |hawks| > desired
        invariant Valid()
        invariant |hawks| >= desired
        invariant forall k :: 0 <= k < |hawks| ==>
          hawks[k] == if k < |old(hawks)| then old(hawks)[k] else CreateHawk(draws(k), sandboxSize)
        decreases |hawks|
      {
        hawks := hawks[..|hawks| - 1];
      }
      hawkCount := desired;
    }

    /** `setSandboxSize(target)`, its clamping part: the size is the clamped target and every agent's
        position is clamped into the new box; velocities and everything else are untouched, and growing
        the world moves nobody. */
    method SetSandboxSize(target: real)
      requires Valid()
      modifies this`sandboxSize, this`boids, this`hawks
      ensures Valid()
      ensures sandboxSize == DesiredSize(target)
      ensures |boids| == |old(boids)| && forall k :: 0 <= k < |boids| ==>
        boids[k] == old(boids)[k].(position := ClampBox(old(boids)[k].position, HalfSize(sandboxSize)))
      ensures |hawks| == |old(hawks)| && forall k :: 0 <= k < |hawks| ==>
        hawks[k] == old(hawks)[k].(position := ClampBox(old(hawks)[k].position, HalfSize(sandboxSize)))
      ensures sandboxSize >= old(sandboxSize) ==> boids == old(boids) && hawks == old(hawks)
    {
      var desired := MaxReal(MinWorldSize, MinReal(MaxWorldSize, target));
      sandboxSize := desired;
      var halfWorld := HalfSize(desired);
      ClampBoids(halfWorld);
      ClampHawks(halfWorld);
      if desired >= old(sandboxSize) {
        forall k | 0 <= k < |boids| ensures boids[k] == old(boids)[k] {
          ClampBoxNested(old(boids)[k].position, old(sandboxSize) * 0.5, halfWorld);
        }
        forall k | 0 <= k < |hawks| ensures hawks[k] == old(hawks)[k] {
          ClampBoxNested(old(hawks)[k].position, old(sandboxSize) * 0.5, halfWorld);
        }
      }
    }

    /** The boid loop of `setSandboxSize`: `boids[i].position.clamp(box.min, box.max)` for every boid. */
    method ClampBoids(halfWorld: real)
      requires halfWorld >= 0.0
      modifies this`boids
      ensures |boids| == |old(boids)| && forall k :: 0 <= k < |boids| ==>
        boids[k] == old(boids)[k].(position := ClampBox(old(boids)[k].position, halfWorld))
    {
      for i := 0 to |boids|
        invariant |boids| == |old(boids)|
        invariant forall k :: 0 <= k < |boids| ==>
          boids[k] == if k < i then old(boids)[k].(position := ClampBox(old(boids)[k].position, halfWorld)) else old(boids)[k]
      {
        boids := boids[i := boids[i].(position := ClampBox(boids[i].position, halfWorld))];
      }
    }

    /** The hawk loop of `setSandboxSize`. */
    method ClampHawks(halfWorld: real)
      requires halfWorld >= 0.0
      modifies this`hawks
      ensures |hawks| == |old(hawks)| && forall k :: 0 <= k < |hawks| ==>
        hawks[k] == old(hawks)[k].(position := ClampBox(old(hawks)[k].position, halfWorld))
    {
      for i := 0 to |hawks|
        invariant |hawks| == |old(hawks)|
        invariant forall k :: 0 <= k < |hawks| ==>
          hawks[k] == if k < i then old(hawks)[k].(position := ClampBox(old(hawks)[k].position, halfWorld)) else old(hawks)[k]
      {
        hawks := hawks[i := hawks[i].(position := ClampBox(hawks[i].position, halfWorld))];
      }
    }

    /** `buildSpatialHash(cellSize)`: the hash is cleared, then each boid index is appended to the list of
        its cell, a new list being made for a cell met for the first time. */
    method BuildSpatialHash(cellSize: real)
      requires cellSize > 0.0
      modifies this`spatialHash
      ensures IsSpatialHash(spatialHash, Positions(boids), cellSize)
    {
      ghost var ps := Positions(boids);
      spatialHash := map[];
      for i := 0 to |boids|
        invariant IsSpatialHash(spatialHash, ps[..i], cellSize)
      {
        var key := CellOf(boids[i].position, cellSize);
        var cell := if key in spatialHash then spatialHash[key] else [];
        ghost var before := spatialHash;
        spatialHash := spatialHash[key := cell + [i]];
        HashStep(before, ps, cellSize, i);
      }
      assert ps[..|boids|] == ps;
    }

    /** The neighbour-gather loop of `updateBoids` for boid `i`: every list of the 27 cells around it is
        walked, and the sums it leaves are those of the brute-force pass over all boids. */
    method GatherNeighbors(i: nat, invSqrt: real -> real) returns (acc: Accum)
      requires i < |boids| && IsOffsetTable(neighborOffsets)
      requires IsSpatialHash(spatialHash, Positions(boids), CohesionDistance)
      ensures acc == Tally(Positions(boids), Velocities(boids), i, Range(|boids|), invSqrt)
    {
      var ps, vs := Positions(boids), Velocities(boids);
      var home := CellOf(boids[i].position, CohesionDistance);
      acc := Empty;
      for n := 0 to |neighborOffsets|
        invariant acc == Tally(ps, vs, i, Walk(ps, CohesionDistance, home, neighborOffsets[..n]), invSqrt)
      {
        var key := Shift(home, neighborOffsets[n]);
        var cell := if key in spatialHash then spatialHash[key] else [];
        HashLookup(spatialHash, ps, CohesionDistance, key);
        acc := AddCell(acc, ps, vs, i, cell, invSqrt);
        WalkAppend(ps, vs, i, home, neighborOffsets, n, invSqrt);
      }
      assert neighborOffsets[..|neighborOffsets|] == neighborOffsets;
      GatherComplete(ps, vs, neighborOffsets, i, invSqrt);
    }

    /** The loop of the first pass: for each boid in turn, the neighbour sums, the fear scan and the new
        blended acceleration, written into that boid at once. Later boids read the earlier ones' new
        accelerations in place, which changes nothing they steer by (`SteeredReadsSnapshot`). */
    method SteerAll(halfWorld: real, simTime: real, invSqrt: real -> real, steer: Steer)
      requires IsOffsetTable(neighborOffsets) && IsSpatialHash(spatialHash, Positions(boids), CohesionDistance)
      modifies this`boids
      ensures boids == SteerPass(old(boids), hawks, halfWorld, simTime, invSqrt, steer)
    {
      ghost var pre := boids;
      for i := 0 to |boids|
        invariant |boids| == |pre|
        invariant Positions(boids) == Positions(pre) && Velocities(boids) == Velocities(pre)
        invariant IsSpatialHash(spatialHash, Positions(boids), CohesionDistance)
        invariant forall k :: 0 <= k < |boids| ==>
          boids[k] == if k < i then pre[k].(acceleration := Steered(pre, hawks, k, halfWorld, simTime, invSqrt, steer))
                      else pre[k]
      {
        var a := SteerOne(i, halfWorld, simTime, invSqrt, steer);
        SteeredReadsSnapshot(boids, pre, hawks, i, halfWorld, simTime, invSqrt, steer);
        ghost var before := boids;
        boids := boids[i := boids[i].(acceleration := a)];
        AccelerationWriteKeeps(before, i, a);
      }
    }

    /** The body of the first pass for boid `i`: the neighbour gather, the fear scan and the blend of the
        steering terms and turn-back terms into the old acceleration. */
    method SteerOne(i: nat, halfWorld: real, simTime: real, invSqrt: real -> real, steer: Steer) returns (a: Vec3)
      requires i < |boids| && IsOffsetTable(neighborOffsets)
      requires IsSpatialHash(spatialHash, Positions(boids), CohesionDistance)
      ensures a == Steered(boids, hawks, i, halfWorld, simTime, invSqrt, steer)
    {
      var acc := GatherNeighbors(i, invSqrt);
      var threat := FearScan(boids[i].position, HawkPositions(hawks));
      var nearest := if threat.Some? then Some(hawks[threat.value].position) else None;
      var b := boids[i];
      a := LowPass(b.acceleration, Add(steer(b, acc, nearest, simTime),
                                       TurnBackVec(b.position, halfWorld, BoidMargin, BoidTurn)));
    }

    /** `updateBoids(deltaSeconds, simTime)`: the steering pass over the pre-tick state, then the
        integration pass. */
    method UpdateBoids(dt: real, simTime: real, invSqrt: real -> real, steer: Steer, limitSpeed: Vec3 -> Vec3)
      requires Valid()
      modifies this`boids, this`spatialHash
      ensures Valid()
      ensures IsSpatialHash(spatialHash, Positions(old(boids)), CohesionDistance)
      ensures boids == MovePass(SteerPass(old(boids), hawks, HalfSize(sandboxSize), simTime, invSqrt, steer),
                                dt, HalfSize(sandboxSize), limitSpeed)
    {
      var halfWorld := HalfSize(sandboxSize);
      BuildSpatialHash(CohesionDistance);
      SteerAll(halfWorld, simTime, invSqrt, steer);
      var moved := MoveAll(boids, dt, halfWorld, limitSpeed);
      forall k | 0 <= k < |moved| ensures InBox(moved[k].position, halfWorld) {
        MovePassContains(boids, dt, halfWorld, limitSpeed, k);
      }
      boids := moved;
    }

    /** `updateHawk(deltaSeconds)`: nothing without hawks or boids; otherwise each hawk in turn scans the
        boids for its target and takes its step, with the `h`-th wander draw. */
    method UpdateHawk(dt: real, wander: nat -> WanderDraw, pursuit: (Hawk, Vec3) -> Vec3, limitSpeed: Vec3 -> Vec3)
      requires Valid()
      modifies this`hawks
      ensures Valid()
      ensures hawks == HawkPass(old(hawks), Positions(boids), dt, HalfSize(sandboxSize), wander, pursuit, limitSpeed)
    {
      if |hawks| == 0 || |boids| == 0 {
        return;
      }
      var halfWorld := HalfSize(sandboxSize);
      var ps := Positions(boids);
      hawks := StepHawks(hawks, ps, dt, halfWorld, wander, pursuit, limitSpeed);
      forall k | 0 <= k < |hawks| ensures InBox(hawks[k].position, halfWorld) && hawks[k].acceleration == Zero {
        HawkPassContains(old(hawks), ps, dt, halfWorld, wander, pursuit, limitSpeed, k);
      }
    }
  }

  /** The loop of `updateHawk` once there are hawks and boids: each hawk in turn scans the boids for its
      target and takes its step, with the `h`-th wander draw. */
  method StepHawks(hs: seq<Hawk>, ps: seq<Vec3>, dt: real, half: real, wander: nat -> WanderDraw,
                   pursuit: (Hawk, Vec3) -> Vec3, limitSpeed: Vec3 -> Vec3) returns (r: seq<Hawk>)
    requires half > 0.0 && |hs| > 0 && |ps| > 0
    ensures r == HawkPass(hs, ps, dt, half, wander, pursuit, limitSpeed)
  {
    r := hs;
    for h := 0 to |r|
      invariant |r| == |hs|
      invariant forall k :: 0 <= k < |r| ==> r[k] == if k < h then Chased(hs, ps, k, dt, half, wander, pursuit, limitSpeed) else hs[k]
    {
      var hawk := r[h];
      var nearest := ChaseScan(ps, hawk.position);
      var target := if nearest.Some? then Some(ps[nearest.value]) else None;
      r := r[h := HawkStep(hawk, target, wander(h), dt, half, pursuit, limitSpeed)];
    }
  }

  /** The loop of the second pass: each boid in turn integrated, clamped, bounced and decayed. */
  method MoveAll(bs: seq<Boid>, dt: real, half: real, limitSpeed: Vec3 -> Vec3) returns (r: seq<Boid>)
    requires half > 0.0
    ensures r == MovePass(bs, dt, half, limitSpeed)
  {
    r := bs;
    for i := 0 to |r|
      invariant |r| == |bs|
      invariant forall k :: 0 <= k < |r| ==> r[k] == if k < i then IntegrateBoid(bs[k], dt, half, limitSpeed) else bs[k]
    {
      r := r[i := IntegrateBoid(r[i], dt, half, limitSpeed)];
    }
  }

  /** The inner loop of the gather: boid `i`'s sums after the candidates of one cell list. */
  method AddCell(acc0: Accum, ps: seq<Vec3>, vs: seq<Vec3>, i: nat, cell: seq<nat>, invSqrt: real -> real) returns (acc: Accum)
    ensures acc == Plus(acc0, Tally(ps, vs, i, cell, invSqrt))
  {
    acc := acc0;
    for c := 0 to |cell|
      invariant acc == Plus(acc0, Tally(ps, vs, i, cell[..c], invSqrt))
    {
      var j := cell[c];
      TallyStep(ps, vs, i, cell, c, invSqrt);
      PlusAssoc(acc0, Tally(ps, vs, i, cell[..c], invSqrt), Contrib(ps, vs, i, j, invSqrt));
      acc := Plus(acc, Contrib(ps, vs, i, j, invSqrt));
    }
    assert cell[..|cell|] == cell;
  }

  /** Looking a cell up in an exact hash gives its members, a missing cell none. */
  lemma HashLookup(m: map<Cell, seq<nat>>, ps: seq<Vec3>, cellSize: real, key: Cell)
    requires cellSize > 0.0 && IsSpatialHash(m, ps, cellSize)
    ensures (if key in m then m[key] else []) == CellMembers(ps, cellSize, key)
  {
  }

  /** One more cell of the walk adds that cell's tally. */
  lemma WalkAppend(ps: seq<Vec3>, vs: seq<Vec3>, i: nat, home: Cell, offsets: seq<Cell>, n: nat, invSqrt: real -> real)
    requires n < |offsets|
    ensures Tally(ps, vs, i, Walk(ps, CohesionDistance, home, offsets[..n + 1]), invSqrt) ==
      Plus(Tally(ps, vs, i, Walk(ps, CohesionDistance, home, offsets[..n]), invSqrt),
           Tally(ps, vs, i, CellMembers(ps, CohesionDistance, Shift(home, offsets[n])), invSqrt))
  {
    assert offsets[..n + 1][..n] == offsets[..n];
    FoldAppend(Gain(ps, vs, i, invSqrt), Walk(ps, CohesionDistance, home, offsets[..n]),
               CellMembers(ps, CohesionDistance, Shift(home, offsets[n])));
  }

  /** One append of `buildSpatialHash` keeps the hash exact for the indices seen so far. */
  lemma HashStep(m: map<Cell, seq<nat>>, ps: seq<Vec3>, cellSize: real, i: nat)
    requires cellSize > 0.0 && i < |ps| && IsSpatialHash(m, ps[..i], cellSize)
    ensures var key := CellOf(ps[i], cellSize);
      IsSpatialHash(m[key := (if key in m then m[key] else []) + [i]], ps[..i + 1], cellSize)
  {
    var key := CellOf(ps[i], cellSize);
    var m' := m[key := (if key in m then m[key] else []) + [i]];
    assert ps[..i + 1][..i] == ps[..i];
    forall c ensures (c in m' <==> CellMembers(ps[..i + 1], cellSize, c) != []) &&
                     (c in m' ==> m'[c] == CellMembers(ps[..i + 1], cellSize, c)) {
      assert CellMembers(ps[..i + 1], cellSize, c) ==
        CellMembers(ps[..i], cellSize, c) + (if key == c then [i] else []);
    }
  }

  /** Adding one more candidate to a tally. */
  lemma TallyStep(ps: seq<Vec3>, vs: seq<Vec3>, i: nat, cell: seq<nat>, c: nat, invSqrt: real -> real)
    requires c < |cell|
    ensures Tally(ps, vs, i, cell[..c + 1], invSqrt) == Plus(Tally(ps, vs, i, cell[..c], invSqrt), Contrib(ps, vs, i, cell[c], invSqrt))
  {
    assert cell[..c + 1][..c] == cell[..c];
  }

  /** Writing one boid's acceleration leaves every position and velocity as it was. */
  lemma AccelerationWriteKeeps(bs: seq<Boid>, i: nat, a: Vec3)
    requires i < |bs|
    ensures Positions(bs[i := bs[i].(acceleration := a)]) == Positions(bs)
    ensures Velocities(bs[i := bs[i].(acceleration := a)]) == Velocities(bs)
  {
  }

  /** What the first pass writes for boid `i` depends only on positions, velocities and boid `i` itself. */
  lemma SteeredReadsSnapshot(bs: seq<Boid>, cs: seq<Boid>, hs: seq<Hawk>, i: nat, half: real, simTime: real,
                             invSqrt: real -> real, steer: Steer)
    requires i < |bs| == |cs| && bs[i] == cs[i]
    requires Positions(bs) == Positions(cs) && Velocities(bs) == Velocities(cs)
    ensures Steered(bs, hs, i, half, simTime, invSqrt, steer) == Steered(cs, hs, i, half, simTime, invSqrt, steer)
  {
  }
}
