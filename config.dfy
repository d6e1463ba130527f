/** Constants of app.js: world bounds, population limits, share-state layout and
    the fixed simulation settings that the flock update reads. */
module Config {
  const MinWorldSize: real := 100.0
  const MaxWorldSize: real := 10000.0
  const MaxBirds: int := 5000
  const MinBirds: int := 10
  const MaxHawks: int := 100
  const ShareStateVersion: int := 1
  const ShareStateBytes: int := 37

  // Default settings (app.js:14-39); the UI never changes the radii or forces.
  const SeparationDistance: real := 6.0
  const AlignmentDistance: real := 24.0
  const CohesionDistance: real := 36.0
  const MaxForce: real := 6.0
  const HawkFearDistance: real := 45.0
  const HawkMaxForce: real := 8.0
  const HawkChaseDistance: real := 120.0
  const DefaultSandboxSize: real := 1000.0
  const DefaultBoidCount: int := 150
  const DefaultHawkCount: int := 0

  /** Squared distance below which a pair is treated as coincident. */
  const Eps: real := 1.0e-8

  // Boundary turn-back constants of updateBoids (app.js:728-729) and updateHawk (app.js:948-949).
  const BoidMargin: real := 20.0
  const BoidTurn: real := MaxForce * 2.5
  const HawkMargin: real := 40.0
  const HawkTurn: real := HawkMaxForce * 3.2

  // Velocity damping on face contact (app.js:933-935, 1003-1005).
  const BoidBounce: real := -0.7
  const HawkBounce: real := -0.65

  function MinInt(a: int, b: int): int { if a <= b then a else b }
  function MaxInt(a: int, b: int): int { if a >= b then a else b }
  function MinReal(a: real, b: real): real { if a <= b then a else b }
  function MaxReal(a: real, b: real): real { if a >= b then a else b }
  function Abs(x: real): real { if x < 0.0 then -x else x }
}
