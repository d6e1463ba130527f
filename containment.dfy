/** Per-axis containment arithmetic shared by `updateBoids`, `updateHawk` and `setSandboxSize`:
    the boundary turn-back term, the acceleration low-pass and decay, the clamp into the
    cube `[-half, half]^3` and the damped reflection on exact face contact. */
module Containment {
  import opened Config
  import opened Vectors

  /** `Math.max(min, Math.min(max, x))` with `min = -half` and `max = half`, one axis of `Vector3.clamp`. */
  function ClampAxis(x: real, half: real): (r: real)
    requires half >= 0.0
    ensures -half <= r <= half
    ensures r == x <==> -half <= x <= half
    ensures half > 0.0 ==> (r == half <==> x >= half)
    ensures half > 0.0 ==> (r == -half <==> x <= -half)
  {
    MaxReal(-half, MinReal(half, x))
  }

  predicate InBox(p: Vec3, half: real) {
    -half <= p.x <= half && -half <= p.y <= half && -half <= p.z <= half
  }

  /** `position.clamp(box.min, box.max)`. */
  function ClampBox(p: Vec3, half: real): (r: Vec3)
    requires half >= 0.0
    ensures InBox(r, half)
    ensures r == p <==> InBox(p, half)
  {
    Vec3(ClampAxis(p.x, half), ClampAxis(p.y, half), ClampAxis(p.z, half))
  }

  /** Clamping twice is clamping once, and clamping into a box after clamping into a smaller one changes nothing. */
  lemma ClampBoxNested(p: Vec3, small: real, large: real)
    requires 0.0 <= small <= large
    ensures ClampBox(ClampBox(p, small), large) == ClampBox(p, small)
    ensures ClampBox(ClampBox(p, small), small) == ClampBox(p, small)
  {
  }

  /** `if (p.x === box.min.x || p.x === box.max.x) v.x *= k`: one axis of the face reflection. */
  function ReflectAxis(v: real, x: real, half: real, k: real): real {
    if x == -half || x == half then v * k else v
  }

  function Reflect(v: Vec3, p: Vec3, half: real, k: real): Vec3 {
    Vec3(ReflectAxis(v.x, p.x, half, k), ReflectAxis(v.y, p.y, half, k), ReflectAxis(v.z, p.z, half, k))
  }

  /** One axis of the turn-back rule (app.js:909-914, 988-993): `-turn` past `half - margin`,
      `+turn` below `-half + margin`. */
  function TurnBack(x: real, half: real, margin: real, turn: real): real {
    (if x > half - margin then -turn else 0.0) + (if x < -half + margin then turn else 0.0)
  }

  function TurnBackVec(p: Vec3, half: real, margin: real, turn: real): Vec3 {
    Vec3(TurnBack(p.x, half, margin, turn), TurnBack(p.y, half, margin, turn), TurnBack(p.z, half, margin, turn))
  }

  /** The turn-back term points towards the centre, is exactly `turn` in size inside either margin band
      and vanishes in the interior, whenever the margin fits in the half-extent. */
  lemma TurnBackRestores(x: real, half: real, margin: real, turn: real)
    requires 0.0 <= margin <= half && turn >= 0.0
    ensures TurnBack(x, half, margin, turn) * x <= 0.0
    ensures x > half - margin ==> TurnBack(x, half, margin, turn) == -turn
    ensures x < -half + margin ==> TurnBack(x, half, margin, turn) == turn
    ensures -half + margin <= x <= half - margin ==> TurnBack(x, half, margin, turn) == 0.0
  {
  }

  /** `b.acceleration.x * 0.4 + ax * 0.6`, all three axes (app.js:917-919). */
  function LowPass(previous: Vec3, steer: Vec3): Vec3 {
    Add(Scale(previous, 0.4), Scale(steer, 0.6))
  }

  /** `b.acceleration.multiplyScalar(0.25)` (app.js:937). */
  function Decay(a: Vec3): Vec3 { Scale(a, 0.25) }

  predicate Bounded(a: Vec3, bound: real) {
    Abs(a.x) <= bound && Abs(a.y) <= bound && Abs(a.z) <= bound
  }

  /** The acceleration a boid carries into the next tick, after `k` ticks whose steering sums were `steers`. */
  function Carried(a: Vec3, steers: seq<Vec3>): Vec3
    decreases |steers|
  {
    if |steers| == 0 then a else Decay(LowPass(Carried(a, steers[..|steers| - 1]), steers[|steers| - 1]))
  }

  /** Blend then decay keep an acceleration within a sixth of a bound the steering never exceeds:
      the carried acceleration cannot run away, however many ticks pass. */
  lemma {:induction false} CarriedBounded(a: Vec3, steers: seq<Vec3>, bound: real)
    requires Bounded(a, bound / 6.0)
    requires forall k :: 0 <= k < |steers| ==> Bounded(steers[k], bound)
    ensures Bounded(Carried(a, steers), bound / 6.0)
    decreases |steers|
  {
    if |steers| > 0 {
      var init := steers[..|steers| - 1];
      assert forall k :: 0 <= k < |init| ==> init[k] == steers[k];
      CarriedBounded(a, init, bound);
      var c := Carried(a, init);
      var s := steers[|steers| - 1];
      DecayLowPassBounded(c.x, s.x, bound);
      DecayLowPassBounded(c.y, s.y, bound);
      DecayLowPassBounded(c.z, s.z, bound);
    }
  }

  lemma DecayLowPassBounded(c: real, s: real, bound: real)
    requires Abs(c) <= bound / 6.0 && Abs(s) <= bound
    ensures Abs((c * 0.4 + s * 0.6) * 0.25) <= bound / 6.0
  {
  }
}
