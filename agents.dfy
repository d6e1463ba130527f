/** Boids and hawks as values, how `createBoidData` and `createHawkData` (app.js:540-629) make them,
    and the per-agent steps of `updateBoids` (app.js:922-937) and `updateHawk` (app.js:957-1007). */
module Agents {
  import opened Wrappers
  import opened Config
  import opened Vectors
  import opened Containment

  /** A `Math.random()` draw. */
  type Unit = u: real | 0.0 <= u < 1.0

  /** `Math.PI` to the digits the source's double carries. */
  const Pi: real := 3.141592653589793

  /** The fields of a boid record that the simulation reads or writes; `baseSizeFactor` and `color`
      only feed the renderer. */
  datatype Boid = Boid(position: Vec3, velocity: Vec3, acceleration: Vec3, arcPhase: real, arcRate: real, arcSeed: real)

  datatype Hawk = Hawk(position: Vec3, velocity: Vec3, acceleration: Vec3)

  /** `THREE.MathUtils.randFloatSpread(range)`: `range * (0.5 - Math.random())`. */
  function RandFloatSpread(range: real, u: Unit): (r: real)
    requires range >= 0.0
    ensures -range / 2.0 <= r <= range / 2.0
  {
    SpreadBounds(range, 0.5 - u);
    range * (0.5 - u)
  }

  lemma SpreadBounds(range: real, t: real)
    requires range >= 0.0 && -0.5 <= t <= 0.5
    ensures -range / 2.0 <= range * t <= range / 2.0
  {
    assert range * (0.5 - t) >= 0.0 && range * (t + 0.5) >= 0.0;
  }

  /** `THREE.MathUtils.randFloat(low, high)`: `low + Math.random() * (high - low)`. */
  function RandFloat(low: real, high: real, u: Unit): (r: real)
    requires low <= high
    ensures low <= r && (low < high ==> r < high)
  {
    var w := high - low;
    ProductSigns(u, w);
    ProductSigns(1.0 - u, w);
    assert u * w == w - (1.0 - u) * w;
    low + u * w
  }

  lemma ProductSigns(a: real, b: real)
    requires a >= 0.0 && b >= 0.0
    ensures a * b >= 0.0 && (a > 0.0 && b > 0.0 ==> a * b > 0.0)
  {
  }

  /** The random draws one new boid consumes. The velocity is drawn whole: its direction is a normalised
      spread vector, which needs a square root. */
  datatype BoidDraw = BoidDraw(x: Unit, y: Unit, z: Unit, velocity: Vec3, phase: Unit, rate: Unit, seed: Unit)

  /** The draws one new hawk consumes, its velocity drawn whole for the same reason. */
  datatype HawkDraw = HawkDraw(x: Unit, y: Unit, z: Unit, velocity: Vec3)

  /** `createBoidData()`: a boid spread over the inner 45% of a world `size` across, at rest in acceleration. */
  function CreateBoid(d: BoidDraw, size: real): (b: Boid)
    requires size >= 0.0
    ensures InBox(b.position, size * 0.225) && InBox(b.position, size * 0.5)
    ensures b.acceleration == Zero && b.velocity == d.velocity
    ensures 0.0 <= b.arcPhase < 2.0 * Pi && 0.7 <= b.arcRate < 1.35 && 0.0 <= b.arcSeed < 1000.0
  {
    var spread := size * 0.45;
    Boid(Vec3(RandFloatSpread(spread, d.x), RandFloatSpread(spread, d.y), RandFloatSpread(spread, d.z)),
         d.velocity, Zero, d.phase * Pi * 2.0, RandFloat(0.7, 1.35, d.rate), d.seed * 1000.0)
  }

  /** `createHawkData()`: a hawk spread over the inner 25% of the world, at rest in acceleration. */
  function CreateHawk(d: HawkDraw, size: real): (h: Hawk)
    requires size >= 0.0
    ensures InBox(h.position, size * 0.125) && InBox(h.position, size * 0.5)
    ensures h.acceleration == Zero && h.velocity == d.velocity
  {
    var spread := size * 0.25;
    Hawk(Vec3(RandFloatSpread(spread, d.x), RandFloatSpread(spread, d.y), RandFloatSpread(spread, d.z)),
         d.velocity, Zero)
  }

  /** Where an agent would be after moving with velocity `v` for `dt`, before the clamp. */
  function Advanced(p: Vec3, v: Vec3, dt: real): Vec3 {
    Add(p, Scale(v, dt))
  }

  /** One axis of the bounce rule, stated on the unclamped coordinate: the velocity component is damped and
      reversed exactly when the move reached or crossed a face. */
  predicate Bounced(after: real, before: real, unclamped: real, half: real, k: real) {
    after == (if unclamped <= -half || unclamped >= half then before * k else before)
  }

  predicate BouncedAll(after: Vec3, before: Vec3, unclamped: Vec3, half: real, k: real) {
    Bounced(after.x, before.x, unclamped.x, half, k) &&
    Bounced(after.y, before.y, unclamped.y, half, k) &&
    Bounced(after.z, before.z, unclamped.z, half, k)
  }

  /** The second pass of `updateBoids` for one boid: velocity += acceleration * dt, the speed limits
      (through `limitSpeed`), position += velocity * dt, the clamp into the box, the -0.7 bounce on each
      face reached and the acceleration decay. */
  function IntegrateBoid(b: Boid, dt: real, half: real, limitSpeed: Vec3 -> Vec3): (r: Boid)
    requires half > 0.0
    ensures InBox(r.position, half)
    ensures var v := limitSpeed(Add(b.velocity, Scale(b.acceleration, dt)));
      var u := Advanced(b.position, v, dt);
      r.position == ClampBox(u, half) && (InBox(u, half) <==> r.position == u) && BouncedAll(r.velocity, v, u, half, BoidBounce)
    ensures r.acceleration == Scale(b.acceleration, 0.25)
    ensures r.arcPhase == b.arcPhase && r.arcRate == b.arcRate && r.arcSeed == b.arcSeed
  {
    var v := limitSpeed(Add(b.velocity, Scale(b.acceleration, dt)));
    var p := ClampBox(Advanced(b.position, v, dt), half);
    b.(position := p, velocity := Reflect(v, p, half, BoidBounce), acceleration := Decay(b.acceleration))
  }

  /** The wander impulse of a hawk with no target: `randFloatSpread(0.8)` (0.6 vertically) times
      `hawkMaxForce * 0.7` on each axis. */
  datatype WanderDraw = WanderDraw(x: Unit, y: Unit, z: Unit)

  function Wander(w: WanderDraw): (r: Vec3)
    ensures Abs(r.x) <= 2.24 && Abs(r.y) <= 1.68 && Abs(r.z) <= 2.24
  {
    Vec3(RandFloatSpread(0.8, w.x) * HawkMaxForce * 0.7,
         RandFloatSpread(0.6, w.y) * HawkMaxForce * 0.7,
         RandFloatSpread(0.8, w.z) * HawkMaxForce * 0.7)
  }

  /** The impulse `updateHawk` adds before the turn-back terms: the pursuit force towards the chosen boid
      (through `pursuit`, which normalises and clamps) when `Math.hypot` of the offset is positive, that
      is when its square is, nothing when that boid sits on the hawk, and a
      wander impulse when no boid was chosen. */
  function HawkImpulse(h: Hawk, target: Option<Vec3>, w: WanderDraw, pursuit: (Hawk, Vec3) -> Vec3): (r: Vec3)
    ensures target.None? ==> r == Wander(w)
    ensures target == Some(h.position) ==> r == Zero
    ensures target.Some? && DistSq(target.value, h.position) > 0.0 ==> r == pursuit(h, Sub(target.value, h.position))
  {
    match target
    case None => Wander(w)
    case Some(t) =>
      DistSqSelf(h.position);
      if DistSq(t, h.position) > 0.0 then pursuit(h, Sub(t, h.position)) else Zero
  }

  lemma DistSqSelf(p: Vec3)
    ensures DistSq(p, p) == 0.0
  {
    var d := p.x - p.x;
    assert d == 0.0 && d * d == 0.0;
  }

  /** One hawk of `updateHawk` once its target is known: the impulse and the turn-back terms are added to
      the acceleration, then velocity, speed limits, position, clamp, the -0.65 bounce and the reset of the
      acceleration to zero. */
  function HawkStep(h: Hawk, target: Option<Vec3>, w: WanderDraw, dt: real, half: real,
                    pursuit: (Hawk, Vec3) -> Vec3, limitSpeed: Vec3 -> Vec3): (r: Hawk)
    requires half > 0.0
    ensures InBox(r.position, half)
    ensures r.acceleration == Zero
    ensures var a := Add(Add(h.acceleration, HawkImpulse(h, target, w, pursuit)),
                         TurnBackVec(h.position, half, HawkMargin, HawkTurn));
      var v := limitSpeed(Add(h.velocity, Scale(a, dt)));
      var u := Advanced(h.position, v, dt);
      r.position == ClampBox(u, half) && (InBox(u, half) <==> r.position == u) && BouncedAll(r.velocity, v, u, half, HawkBounce)
  {
    var a := Add(Add(h.acceleration, HawkImpulse(h, target, w, pursuit)),
                 TurnBackVec(h.position, half, HawkMargin, HawkTurn));
    var v := limitSpeed(Add(h.velocity, Scale(a, dt)));
    var p := ClampBox(Advanced(h.position, v, dt), half);
    Hawk(p, Reflect(v, p, half, HawkBounce), Zero)
  }

  /** A bounce off a face the agent was moving into sends it back: the component changes sign. */
  lemma BounceTurnsInward(after: real, before: real, unclamped: real, half: real, k: real)
    requires half > 0.0 && k < 0.0 && Bounced(after, before, unclamped, half, k)
    requires (unclamped >= half && before > 0.0) || (unclamped <= -half && before < 0.0)
    ensures after * before < 0.0
  {
    assert after == before * k;
    assert after * before == (before * before) * k;
  }
}
