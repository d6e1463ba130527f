# Boids sandbox core, modelled in Dafny

`app.js` is a browser flocking sandbox. Boids steer by separation, alignment and cohesion, flee hawks that
chase them, and are kept inside a cubic world of side `sandboxSize`. The scene can be shared as a hex string.
This project models the parts of that file that have crisp promises:

- the hex codec `bytesToHex` / `hexToBytes`, and the 37-byte share record written by
  `encodeSceneStateToHex` and read by `decodeSceneStateFromHex`, with `clampInteger` and `clampFinite`;
- the 27-offset `neighborOffsets` table, `cellKey`, and the uniform-grid `spatialHash` built by `buildSpatialHash`;
- the neighbour gather of `updateBoids`, proved equal to a scan over every boid, and its three neighbour counts;
- the two nearest-target scans: a hawk's chase scan over the boids, and a boid's scan for the nearest hawk
  with its fear gate;
- the containment steps: boundary turn-back, acceleration low-pass and decay, the clamp into the box, the damped
  bounce on a face, and the hawk's acceleration reset;
- the two-pass shape of `updateBoids`, and `updateHawk`;
- the population and world-size setters `setBoidCount`, `setHawkCount` and `setSandboxSize`.

Positions, velocities and accelerations are vectors of mathematical reals (`Vectors.Vec3`). The module-level
state of `app.js` is one object, `Simulation.World`. It holds:

- `boids` and `hawks` as sequences of value records;
- the settings the core reads and writes;
- `spatialHash`, a map from grid cell to the list of boid indices in it;
- `neighborOffsets`.

Each in-place loop of the source is a method with its loop invariants. Each method is proved equal to a
specification function on sequences, for example `Simulation.SteerPass`, `Simulation.MovePass` or `Simulation.HawkPass`.
The lemmas are stated about those functions.

Parts that need square roots, sines, noise or randomness are parameters:

- `invSqrt` for `1 / Math.sqrt`;
- `steer` for the separation, alignment, cohesion and fear forces and the curvature term;
- `limitSpeed` for the speed limits;
- `pursuit` for the hawk's seek force;
- `Unit` draws in `[0, 1)` for `Math.random()`.

Modules, one per file:

| module | file | covers |
|---|---|---|
| `Config` | config.dfy | constants |
| `Vectors` | vectors.dfy | the vector type |
| `Wrappers` | wrappers.dfy | `Option` |
| `Hex` | hex.dfy | hex codec |
| `ShareState` | share_state.dfy | share record |
| `Grid` | grid.dfy | grid cells, offset table and cell lists |
| `CellKeys` | cell_key.dfy | the string cell key |
| `Neighbors` | neighbors.dfy | the neighbour sums |
| `Scans` | scans.dfy | the two nearest scans |
| `Containment` | containment.dfy | per-axis containment arithmetic |
| `Agents` | agents.dfy | boid and hawk records and their per-agent steps |
| `Simulation` | simulation.dfy | the `World` object and its operations |

## Model

| member | source | states |
|---|---|---|
| Hex.HexDigit | app.js:313-315 | A nibble becomes one lower-case hex character whose value is that nibble |
| Hex.HexValue | app.js:323 | One hex digit of either case parses to a value in `[0, 16)` |
| Hex.ToLowerHex | app.js:320 | The case-insensitive comparison form: every hex digit keeps its `parseInt` value and comes out in `[0-9a-f]`, and no character other than `A`-`F` changes |
| Hex.ByteToHexNibbles | app.js:313-315 | `toString(16).padStart(2, "0")` of a byte is its high nibble's digit followed by its low nibble's digit |
| Hex.EncodeHexShape | app.js:311-317 | `bytesToHex` emits exactly two characters per byte, the high then the low nibble of that byte |
| Hex.EncodeHexIsLowerHex | app.js:311-317 | Every character `bytesToHex` emits is in `[0-9a-f]` |
| Hex.EncodeHexWellFormed | app.js:311-326 | The encoding of a non-empty byte string passes every guard of `hexToBytes` |
| Hex.EncodeHexLength | app.js:311-317 | The encoding has twice as many characters as there are bytes |
| Hex.RoundTrip | app.js:311-326 | `hexToBytes(bytesToHex(b)) == b` for every non-empty `b` |
| Hex.DigitOfValue | app.js:313-323 | Parsing a hex digit and printing it again gives its lower-case form |
| Hex.DecodeThenEncode | app.js:311-326 | Re-encoding what `hexToBytes` accepted gives the input lower-cased, so the decoder loses nothing but case |
| Hex.DecodeHexRejects | app.js:319-326 | `hexToBytes` returns null exactly for empty input, odd length or a character outside `[0-9a-fA-F]`; otherwise it returns `length / 2` bytes |
| Hex.BytesToHex | app.js:311-317 | The accumulating loop returns the encoding of the bytes |
| Hex.HexToBytes | app.js:319-326 | The guarded array-filling loop returns the decoding, null included |
| ShareState.JsRound | app.js:303 | `Math.round` lands within half a unit of its argument, halves rounding up |
| ShareState.RoundInteger | app.js:303 | Rounding an integer gives that integer |
| ShareState.ClampInteger | app.js:301-304 | A non-finite value gives the fallback; a finite one ends in `[min, max]`; an integer already in range comes back unchanged; otherwise the rounded value is kept when in range and replaced by the nearer limit when not (a decoded 6000 boids becomes 5000) |
| ShareState.ClampFinite | app.js:306-309 | A non-finite value gives the fallback; a finite one ends in `[min, max]`; a value already in range comes back unchanged, and one out of range becomes the nearer limit |
| ShareState.DecodeRecord | app.js:366-412 | A decoded record has its four header fields in `[10,5000]`, `[100,10000]`, `[50,300]` and `[0,100]`, and each camera coordinate either equals the fallback or lies in `[-500000, 500000]` |
| ShareState.DecodeRejects | app.js:366-398 | Decoding returns null exactly when the hex is malformed, the length is not 37, the version byte is not 1, or the quaternion is unusable |
| ShareState.Uint16RoundTrip | app.js:336-380 | A uint16 written little-endian at any offset reads back as the same value for every `v` in `[0, 65536)` |
| ShareState.HeaderLayout | app.js:333-347 | The header is 9 bytes: version 1 at offset 0, then the four clamped fields as uint16 LE at offsets 1, 3, 5 and 7 |
| ShareState.HeaderBytes | app.js:333-347 | Any four values in `[0, 65536)` written after the version byte read back unchanged at offsets 1, 3, 5 and 7 |
| ShareState.CameraLayout | app.js:349-361 | The camera part is 28 bytes, with the seven float32 slots at offsets 0, 4, ..., 24 |
| ShareState.ReadsInParts | app.js:376-388 | A read inside either part of a concatenated record sees that part alone |
| ShareState.SceneRecordLayout | app.js:328-364 | The whole record is 37 bytes: the header fields at 1, 3, 5 and 7 and the camera slots at 9, 13, ..., 33 |
| ShareState.DecodeEncodeRoundTrip | app.js:328-412 | Decoding what encode wrote gives back the four clamped header fields exactly, the camera position as `clampFinite` leaves it, and the quaternion unchanged, whenever that quaternion is usable |
| ShareState.HeaderFieldReadsBack | app.js:400-404 | A header field already in its range passes decode's `clampInteger` unchanged |
| ShareState.WritePrefix | app.js:331-361 | Writing a chunk at `offset` keeps the bytes already written before it and appends the chunk |
| ShareState.SetUint16 | app.js:336-347 | `setUint16(offset, v, true)` replaces bytes `offset` and `offset + 1` with `v mod 65536` little-endian and leaves every other byte alone |
| ShareState.SetFloat32 | app.js:349-361 | `setFloat32` replaces four bytes with the slot's bit pattern and leaves every other byte alone |
| ShareState.EncodeSceneStateToHex | app.js:328-364 | The offset-driven writes produce the hex encoding of the record that `SceneRecordLayout` describes |
| ShareState.WriteHeader | app.js:331-347 | The five header writes (one `setUint8`, four `setUint16`) fill bytes 0-8 with the header and do not touch the rest |
| ShareState.WriteCamera | app.js:349-361 | The seven float32 writes fill bytes 9-36 with the camera slots and keep the header |
| ShareState.WriteSlot | app.js:349-361 | One float32 write extends the written prefix by that slot's four bytes |
| Grid.OffsetAt | app.js:502-509 | The `n`-th table entry lies in the 3x3x3 block, and its position in x-slowest, z-fastest order is `n` |
| Grid.OffsetTableCoversBlock | app.js:502-509 | Every cell of the block is exactly one entry of the table |
| Grid.BuildNeighborOffsets | app.js:502-509 | The triple loop builds the 27 offsets: x varies slowest, z fastest |
| Grid.FloorsAdjacent | app.js:755-757 | Two coordinates closer than one cell side fall in the same cell or in adjacent cells |
| Grid.QuotientBelowOne | app.js:518-520 | Arithmetic helper for `Grid.FloorsAdjacent`, applied to the divisions by `cellSize` here: a value strictly inside `(-c, c)`, divided by `c > 0`, lies strictly inside `(-1, 1)` |
| Grid.SquareBelow | app.js:768-771 | Arithmetic helper for `Grid.NeighbourInBlock`, applied to the coordinate differences computed here: a difference whose square is below `c * c` is below `c` in size |
| Grid.NeighbourInBlock | app.js:734-762 | With `cellSize = r`, a boid within distance `r` lies in the 3x3x3 block of cells around the querying boid's cell |
| Grid.CellMembersSpec | app.js:515-530 | A cell list holds exactly the indices whose position falls in that cell, in strictly ascending order |
| Grid.CellMembersCount | app.js:515-530 | Each index occurs once in its own cell's list and in no other list |
| Grid.SpatialHashPartition | app.js:515-530 | Every index `0..n-1` is in its cell's list; no list holds an index of another cell or an index `>= n`; every list is strictly ascending |
| Grid.WalkCount | app.js:759-797 | The walk over the first `k` table entries meets an index exactly once if its cell lies at one of those offsets, and never otherwise |
| Grid.WalkStep | app.js:759-764 | Each further offset adds the members of that cell to the walk |
| Grid.BlockStep | app.js:502-509 | Extending the table prefix by one entry adds exactly the cell at that offset |
| Grid.WalkMeetsOnce | app.js:734-797 | With `cellSize` the cohesion radius, the 27-cell walk meets every boid within that radius of the querying boid exactly once |
| Grid.WalkInRange | app.js:759-797 | The walk never meets an index beyond the last boid |
| CellKeys.DigitChar | app.js:511-513 | A decimal digit becomes one character from `'0'` to `'9'` carrying that value |
| CellKeys.NatToString | app.js:511-513 | A non-negative integer prints as a non-empty string of decimal digits |
| CellKeys.IntToString | app.js:511-513 | An integer prints with a leading minus exactly when it is negative, and never with a comma |
| CellKeys.FirstComma | app.js:511-513 | The position of the first comma: no comma comes before it, a comma stands there when it is inside the string, and it is the length when there is no comma |
| CellKeys.NatStringRoundTrip | app.js:511-513 | Reading back the printed digits gives the number written |
| CellKeys.IntStringRoundTrip | app.js:511-513 | Printing an integer and reading it back gives that integer |
| CellKeys.FirstCommaAfter | app.js:511-513 | The first comma after a comma-free head sits right after that head |
| CellKeys.SplitAtComma | app.js:511-513 | A comma-free head followed by a comma is recovered from the whole string |
| CellKeys.KeyInjective | app.js:511-513 | Two cells have the same `cellKey` string exactly when they are the same cell, so the string-keyed Map groups boids as the cell-keyed one does |
| Neighbors.FoldAppend | app.js:759-797 | Summing over two candidate lists one after the other is summing over each and adding the results |
| Neighbors.PlusAssoc | app.js:771-795 | Adding accumulators is associative |
| Neighbors.FoldRemove | app.js:759-797 | Removing one candidate takes exactly its contribution out of the sums |
| Neighbors.FoldPermutation | app.js:759-797 | The sums do not depend on the order the candidates are visited in |
| Neighbors.FilterCount | app.js:765-773 | A filter keeps each admitted candidate as often as the list holds it, and no other candidate |
| Neighbors.FoldFilter | app.js:765-773 | Dropping candidates that contribute nothing leaves the sums unchanged |
| Neighbors.FoldCountsOrdered | app.js:775-795 | If every single contribution has `sep <= ali <= coh <= 1` counts, the summed counts keep that order and are at most the number of candidates |
| Neighbors.ContribCounts | app.js:765-795 | One neighbour adds one to each count whose radius it lies within. A boid that is the querying boid itself, coincident with it (`d^2 < 1e-8`) or outside the cohesion radius adds nothing |
| Neighbors.ContribFacts | app.js:765-795 | A non-neighbour contributes nothing, and each contribution has ordered counts of at most one |
| Neighbors.RangeCount | app.js:759-797 | Every index below `n` occurs in the brute-force list exactly once |
| Neighbors.SameNeighbours | app.js:734-797 | The 27-cell walk and the brute-force list hold the same neighbours, with the same multiplicities |
| Neighbors.FilterSame | app.js:765-773 | Two lists that agree on how often they hold each kept candidate keep the same candidates |
| Neighbors.GatherComplete | app.js:734-797 | With `cellSize` the cohesion radius, the 27-cell walk yields exactly the separation, alignment and cohesion sums and counts of a scan over all boids |
| Neighbors.WithinStep | app.js:759-797 | Extending the boid range by one index adds one to the neighbour set exactly when that boid is a neighbour |
| Neighbors.CountsAreNeighbourSets | app.js:765-795 | `sepCount`, `aliCount` and `cohCount` each equal the number of other boids `j` with `1e-8 <= d^2` below their radius squared, each counted once |
| Neighbors.CountsOrdered | app.js:775-795 | With the default radii 6, 24 and 36, `sepCount <= aliCount <= cohCount`, and the cohesion count is at most the number of candidates |
| Neighbors.IsolatedGathersNothing | app.js:765-797 | A boid with no non-coincident boid inside the cohesion radius gathers all-zero sums and counts |
| Scans.ChaseDistances | app.js:958-961 | One squared distance per boid |
| Scans.FearDistances | app.js:853-856 | One squared distance per hawk |
| Scans.Nearest | app.js:957-966 | The scan's choice, if any, is a valid index; the nearest-hawk scan of app.js:851-863 has the same shape |
| Scans.NearestSpec | app.js:957-966 | The scan chooses an index inside the bound that no candidate beats, the lowest among equally near ones. It chooses nothing exactly when no candidate is strictly inside the bound, even if some candidate is nearest overall |
| Scans.FirstNearestUnique | app.js:962-965 | At most one index is the first nearest one, so strict `<` fixes the tie-break |
| Scans.NearestChooses | app.js:957-966 | The scan chooses `k` exactly when `k` is the first nearest index inside the bound |
| Scans.Threat | app.js:865 | The fear gate passes only the nearest hawk |
| Scans.ThreatSpec | app.js:851-865 | A boid is frightened exactly when some hawk is inside the fear radius and every hawk's squared distance exceeds `1e-8`. A hawk sitting on the boid hides all the others |
| Scans.ChaseScan | app.js:957-966 | The hawk's loop with its running minimum and strict `<` ends with the first nearest boid strictly inside the chase radius |
| Scans.FearScan | app.js:851-865 | The boid's loop over the hawks, followed by the gate, ends with the frightening hawk exactly as `Threat` picks it |
| Containment.ClampAxis | app.js:930-931 | One axis of `clamp` lies in `[-half, half]`. It keeps the coordinate exactly when that is already inside, and lands on a face exactly when the coordinate reached or passed it; the hawks clamp the same way at app.js:1001 |
| Containment.ClampBox | app.js:676-686 | `position.clamp(box.min, box.max)` lies in the box and changes the position exactly when it was outside |
| Containment.ClampBoxNested | app.js:676-685 | Clamping into a box after clamping into a box no larger changes nothing, and clamping is idempotent |
| Containment.TurnBackRestores | app.js:909-914 | The turn-back term points towards the centre. It is exactly `turn` in size inside either margin band and zero in the interior; the hawks' terms at app.js:988-993 are the same rule |
| Containment.CarriedBounded | app.js:917-937 | Blend followed by decay keeps an acceleration within a sixth of any bound the steering sums never exceed, over any number of ticks |
| Containment.DecayLowPassBounded | app.js:917-937 | One blend and decay of one axis stays within that sixth |
| Agents.RandFloatSpread | app.js:541-545 | `randFloatSpread(range)` lies in `[-range/2, range/2]` |
| Agents.SpreadBounds | app.js:541-545 | Arithmetic helper for `Agents.RandFloatSpread`: a factor in `[-1/2, 1/2]` keeps `range * t` in `[-range/2, range/2]` |
| Agents.RandFloat | app.js:578 | `randFloat(low, high)` lies in `[low, high)`. The model draws `arcRate` with it here; the other calls, at app.js:551 and 626, scale the velocity, which is drawn whole |
| Agents.ProductSigns | app.js:578 | Arithmetic helper for `Agents.RandFloat`'s bound on the `arcRate` draw: a product of non-negative numbers is non-negative, and positive when both factors are |
| Agents.CreateBoid | app.js:540-581 | A new boid lies within 22.5% of the size on each axis, hence inside the box. It has zero acceleration, the drawn velocity, `arcPhase` in `[0, 2*pi)`, `arcRate` in `[0.7, 1.35)` and `arcSeed` in `[0, 1000)` |
| Agents.CreateHawk | app.js:615-629 | A new hawk lies within 12.5% of the size on each axis, hence inside the box, with zero acceleration and the drawn velocity |
| Agents.IntegrateBoid | app.js:922-937 | After the second pass a boid is inside the box. Its position is the advanced one clamped into the box, so it is the advanced one exactly when that was inside. Each velocity component is multiplied by -0.7 exactly when the move reached or crossed that face. The acceleration is a quarter of its old value, and the arc parameters are unchanged |
| Agents.Wander | app.js:983-985 | Each axis of the wander impulse is at most `0.4 * 8 * 0.7` in size, `0.3 * 8 * 0.7` vertically |
| Agents.HawkImpulse | app.js:968-986 | With no target the hawk wanders. At a positive distance from its target it takes the pursuit force. A target on the hawk itself adds nothing |
| Agents.DistSqSelf | app.js:969-972 | A point has squared distance zero from itself |
| Agents.HawkStep | app.js:968-1007 | After its step a hawk is inside the box with zero acceleration. Its position is the advanced one clamped into the box, so it is the advanced one exactly when that was inside. Each velocity component is multiplied by -0.65 exactly when the move reached or crossed that face |
| Agents.BounceTurnsInward | app.js:933-935 | A bounce off a face the agent was moving into reverses that velocity component, for boids and for the hawks at app.js:1003-1005 |
| Simulation.DesiredBoids | app.js:592 | The clamped target lies in `[10, 5000]`, equals the target exactly when that is in range, and is the nearer limit otherwise |
| Simulation.DesiredHawks | app.js:640 | The clamped target lies in `[0, 100]`, equals the target exactly when that is in range, and is the nearer limit otherwise |
| Simulation.DesiredSize | app.js:659 | The clamped size lies in `[100, 10000]`, equals the target exactly when that is in range, and is the nearer limit otherwise |
| Simulation.ThreatOf | app.js:851-865 | A boid at `p` sees a threatening hawk exactly when some hawk's squared distance is below the fear radius squared and every hawk's is above `1e-8`. The position it then sees is that of a first nearest hawk: no hawk is nearer, and none at the same distance has a lower index |
| Simulation.SteerPass | app.js:737-920 | The first pass keeps the number of boids |
| Simulation.MovePass | app.js:922-939 | The second pass keeps the number of boids |
| Simulation.HawkPass | app.js:944-1010 | `updateHawk` keeps the number of hawks |
| Simulation.SteerPassKeepsMotion | app.js:737-920 | The first pass writes accelerations only; positions, velocities and arc parameters are the pre-tick ones |
| Simulation.SteeredReadsSnapshot | app.js:737-920 | The acceleration the first pass writes for boid `i` depends only on all positions and velocities and on boid `i` itself. `SteerAll` calls it at every step, so writing the accelerations in place, as the source does, gives the same result as reading the pre-tick state |
| Simulation.AccelerationWriteKeeps | app.js:917-919 | Writing one boid's acceleration leaves every position and velocity as it was |
| Simulation.MovePassContains | app.js:922-939 | After the second pass every boid is inside the box, its acceleration is a quarter of what the first pass wrote, and it bounced exactly on the faces it reached |
| Simulation.TickCarries | app.js:917-937 | Over one tick a boid's acceleration becomes `(0.4 * old + 0.6 * steering sum) * 0.25` |
| Simulation.HawkPassContains | app.js:952-1007 | Each hawk takes its own step towards its own target, ends inside the box and carries no acceleration |
| Simulation.TargetIsNearestInside | app.js:957-986 | A hawk has no target exactly when every boid is at or beyond the chase radius; otherwise its target is the first nearest boid strictly inside it |
| Simulation.World.constructor | app.js:14-39 | The initial state: no agents, the default settings, an empty hash and the 27-entry offset table of app.js:502-509 |
| Simulation.World.SetBoidCount | app.js:591-613 | `boidCount` and the length become `max(10, min(5000, t))`. The surviving prefix is unchanged, and new boids are created at the tail. Every boid stays inside the box |
| Simulation.World.SetHawkCount | app.js:639-656 | `hawkCount` and the length become `max(0, min(100, t))`. The surviving prefix is unchanged, and new hawks are created at the tail. Every hawk stays inside the box with zero acceleration |
| Simulation.World.SetSandboxSize | app.js:658-689 | The size becomes the clamped target. Every position is clamped into the new box, and velocities and all other fields are untouched. Growing the world moves nobody |
| Simulation.World.ClampBoids | app.js:676-680 | Each boid's position is clamped into the box and nothing else changes |
| Simulation.World.ClampHawks | app.js:682-686 | Each hawk's position is clamped into the box and nothing else changes |
| Simulation.World.BuildSpatialHash | app.js:515-530 | After clearing and appending, the hash maps each non-empty cell to exactly its members in ascending order and holds no empty cell |
| Simulation.World.GatherNeighbors | app.js:755-797 | The 27-cell loop over the hash leaves boid `i`'s sums equal to those of a scan over all boids |
| Simulation.World.SteerAll | app.js:737-920 | The first-pass loop writes each boid's new acceleration in place, and the boids end as the first pass of the pre-tick state: later boids steer by positions and velocities that the earlier writes left unchanged |
| Simulation.World.SteerOne | app.js:737-919 | One iteration of the first pass computes boid `i`'s blended acceleration from the gathered sums, the fear scan and the turn-back terms |
| Simulation.World.UpdateBoids | app.js:718-942 | A tick moves the boids to the second pass applied to the first pass of the pre-tick state, and keeps every boid inside the box. The spatial hash is left holding the cell lists of the pre-tick positions |
| Simulation.World.UpdateHawk | app.js:944-1010 | The hawks become `HawkPass` of the old hawks over the boids' positions. Every hawk stays inside the box with no acceleration, and nothing changes without hawks or boids |
| Simulation.StepHawks | app.js:952-1008 | The hawk loop gives every hawk its chase-scan target and step |
| Simulation.MoveAll | app.js:922-939 | The second-pass loop integrates, clamps, bounces and decays every boid |
| Simulation.AddCell | app.js:764-796 | The loop over one cell list adds that list's sums to the accumulators |
| Simulation.HashLookup | app.js:760-762 | Looking a cell up in the hash gives its members, and a missing cell gives none |
| Simulation.WalkAppend | app.js:759-762 | One more offset of the loop adds that cell's sums |
| Simulation.HashStep | app.js:524-528 | One append of `buildSpatialHash` keeps the hash exact for the indices seen so far |
| Simulation.TallyStep | app.js:764-796 | One more candidate adds its contribution |

## Left out

- Square roots, `Math.hypot`, `Math.sin` and `ImprovedNoise` are left out because Dafny's reals have none of them. They sit behind the parameters `invSqrt`, `steer`, `limitSpeed` and `pursuit`. These cover:
  - `clampSteer` (app.js:709-716);
  - the seek-force normalisation of separation, alignment, cohesion and fear (app.js:799-879);
  - the curvature term (app.js:881-907);
  - the boid and hawk speed limits (app.js:926-928, 996-998);
  - the hawk's pursuit force (app.js:968-981).
- Agents.HawkImpulse: the source tests `Math.hypot(dx, dy, dz) > 0`. The model tests the squared distance `> 0`, which is the same condition over the reals.
- Floating point is not modelled. Arithmetic is exact over the reals, not IEEE double precision. The camera slots of the share record are opaque four-byte patterns: `setFloat32`'s rounding and `getFloat32`'s reading are left out, and that reading is the parameter `toNumber`.
- ShareState.QuaternionUsable: computes the squared length of the quaternion exactly, not in double precision.
- Randomness comes in as `Unit` draws. `createBoidData` and `createHawkData` take their initial velocity whole, in `BoidDraw` and `HawkDraw`, because it is a normalised random vector.
- `baseSizeFactor` and `color` of a new boid come from noise and only feed the renderer, so they are not modelled.
- Rendering is not modelled: the Three.js scene, meshes, instance matrices, floor and grid placement in `setSandboxSize`, `applyBoidInstance` and `applyHawkInstance`.
- `setBirdSize` is not modelled: the multiplier it sets (app.js:693) reaches the share record only as the free input `ShareState.SceneSettings.birdSizeMultiplier`; otherwise it only redraws. `getBirdVisualScale` and `getHawkVisualScale` only change what is drawn.
- The UI is not modelled: DOM panel, sliders, labels, pointer lock, keyboard and mouse camera control, auto-orbit and window resize.
- Persistence is not modelled: `savePersistedSettings`, `localStorage`, and reading and writing the share URL and `history`.
- The frame loop is not modelled, nor the start-up sequence that calls the setters. The model's constructor is the state before those calls.
- Simulation.World.SetBoidCount, Simulation.World.SetHawkCount and Simulation.World.SetSandboxSize take the slider target as an integer or real. The source receives whatever number the UI passes.
- The spatial hash is keyed by the cell triple, not by the `cellKey` string. `CellKeys.KeyInjective` shows that the two keys tell cells apart alike.
- CellKeys.IntToString: prints every integer in positional decimal. JavaScript would switch to exponent notation at `1e21` and beyond, which grid cells of this world never reach.
- Concurrency does not arise: the source is single-threaded.
