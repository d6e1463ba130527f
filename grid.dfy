/** The uniform grid behind the spatial hash (app.js:501-530, 755-797): cells of side
    `cellSize`, the 27-offset neighbourhood, and the cell lists `buildSpatialHash` produces. */
module Grid {
  import opened Vectors

  /** A grid cell `(cx, cy, cz)`; `cellKey` turns it into the string the source's Map is keyed by. */
  datatype Cell = Cell(x: int, y: int, z: int)

  function Shift(c: Cell, d: Cell): Cell { Cell(c.x + d.x, c.y + d.y, c.z + d.z) }
  function Diff(c: Cell, d: Cell): Cell { Cell(c.x - d.x, c.y - d.y, c.z - d.z) }

  /** `Math.floor(p / cellSize)` on each axis. */
  function CellOf(p: Vec3, cellSize: real): Cell
    requires cellSize > 0.0
  {
    Cell((p.x / cellSize).Floor, (p.y / cellSize).Floor, (p.z / cellSize).Floor)
  }

  /** A cell of the 3x3x3 block around the origin cell. */
  predicate InBlock(d: Cell) {
    -1 <= d.x <= 1 && -1 <= d.y <= 1 && -1 <= d.z <= 1
  }

  /** The `n`-th entry of `neighborOffsets`: x varies slowest, z fastest, each over -1, 0, 1. */
  function OffsetAt(n: int): (d: Cell)
    requires 0 <= n < 27
    ensures InBlock(d) && BlockIndex(d) == n
  {
    Cell(n / 9 - 1, (n / 3) % 3 - 1, n % 3 - 1)
  }

  /** The position of an offset in `neighborOffsets`. */
  function BlockIndex(d: Cell): int {
    9 * (d.x + 1) + 3 * (d.y + 1) + (d.z + 1)
  }

  /** Every cell of the block is exactly one entry of the table. */
  lemma OffsetTableCoversBlock(d: Cell)
    requires InBlock(d)
    ensures 0 <= BlockIndex(d) < 27 && OffsetAt(BlockIndex(d)) == d
    ensures forall n :: 0 <= n < 27 && OffsetAt(n) == d ==> n == BlockIndex(d)
  {
    var n := BlockIndex(d);
    assert n / 9 == d.x + 1;
    assert (n / 3) % 3 == d.y + 1;
    assert n % 3 == d.z + 1;
  }

  /** The module-level loops that fill `neighborOffsets` (app.js:502-509). */
  method BuildNeighborOffsets() returns (offsets: seq<Cell>)
    ensures IsOffsetTable(offsets)
  {
    offsets := [];
    var x := -1;
    while x <= 1
      invariant -1 <= x <= 2
      invariant |offsets| == 9 * (x + 1)
      invariant forall n :: 0 <= n < |offsets| ==> offsets[n] == OffsetAt(n)
    {
      var y := -1;
      while y <= 1
        invariant -1 <= y <= 2
        invariant |offsets| == 9 * (x + 1) + 3 * (y + 1)
        invariant forall n :: 0 <= n < |offsets| ==> offsets[n] == OffsetAt(n)
      {
        var z := -1;
        while z <= 1
          invariant -1 <= z <= 2
          invariant |offsets| == 9 * (x + 1) + 3 * (y + 1) + (z + 1)
          invariant forall n :: 0 <= n < |offsets| ==> offsets[n] == OffsetAt(n)
        {
          OffsetTableCoversBlock(Cell(x, y, z));
          offsets := offsets + [Cell(x, y, z)];
          z := z + 1;
        }
        y := y + 1;
      }
      x := x + 1;
    }
  }

  /** Two coordinates closer than one cell side fall into the same or adjacent cells. */
  lemma FloorsAdjacent(a: real, b: real, c: real)
    requires c > 0.0 && -c < a - b < c
    ensures -1 <= (a / c).Floor - (b / c).Floor <= 1
  {
    var u, w := a / c, b / c;
    assert u - w == (a - b) / c;
    QuotientBelowOne(a - b, c);
    var d := u.Floor - w.Floor;
    assert d as real < 2.0 && d as real > -2.0;
  }

  lemma QuotientBelowOne(x: real, c: real)
    requires c > 0.0 && -c < x < c
    ensures -1.0 < x / c < 1.0
  {
    var q := x / c;
    assert q * c == x;
    assert (1.0 - q) * c == c - x;
    assert (1.0 + q) * c == c + x;
    PositiveFactor(1.0 - q, c);
    PositiveFactor(1.0 + q, c);
  }

  lemma PositiveFactor(x: real, c: real)
    requires c > 0.0 && x * c > 0.0
    ensures x > 0.0
  {
  }

  lemma PositiveSummands(x: real, y: real)
    requires x * y > 0.0 && x + y > 0.0
    ensures x > 0.0 && y > 0.0
  {
  }

  /** A square below `c * c` has its root strictly between `-c` and `c`. */
  lemma SquareBelow(t: real, c: real)
    requires c > 0.0 && t * t < c * c
    ensures -c < t < c
  {
    assert (c - t) * (c + t) == c * c - t * t;
    PositiveSummands(c - t, c + t);
  }

  /** Completeness of the 27-cell query: with `cellSize = r`, a boid within distance `r` lies in
      the 3x3x3 block around the querying boid's cell. */
  lemma NeighbourInBlock(p: Vec3, o: Vec3, r: real)
    requires r > 0.0 && DistSq(p, o) < r * r
    ensures InBlock(Diff(CellOf(o, r), CellOf(p, r)))
  {
    var dx, dy, dz := p.x - o.x, p.y - o.y, p.z - o.z;
    assert dx * dx >= 0.0 && dy * dy >= 0.0 && dz * dz >= 0.0;
    SquareBelow(dx, r);
    SquareBelow(dy, r);
    SquareBelow(dz, r);
    FloorsAdjacent(o.x, p.x, r);
    FloorsAdjacent(o.y, p.y, r);
    FloorsAdjacent(o.z, p.z, r);
  }

  /** The list `buildSpatialHash` leaves under one cell: the indices whose position falls in it, ascending. */
  function CellMembers(ps: seq<Vec3>, cellSize: real, c: Cell): seq<nat>
    requires cellSize > 0.0
    decreases |ps|
  {
    if |ps| == 0 then []
    else CellMembers(ps[..|ps| - 1], cellSize, c) + (if CellOf(ps[|ps| - 1], cellSize) == c then [|ps| - 1] else [])
  }

  /** A cell list holds exactly the indices of that cell, each below `|ps|`, in strictly ascending order. */
  lemma {:induction false} CellMembersSpec(ps: seq<Vec3>, cellSize: real, c: Cell)
    requires cellSize > 0.0
    ensures forall j: nat :: j in CellMembers(ps, cellSize, c) <==> j < |ps| && CellOf(ps[j], cellSize) == c
    ensures forall a, b :: 0 <= a < b < |CellMembers(ps, cellSize, c)| ==>
      CellMembers(ps, cellSize, c)[a] < CellMembers(ps, cellSize, c)[b]
    decreases |ps|
  {
    if |ps| > 0 {
      var init := ps[..|ps| - 1];
      CellMembersSpec(init, cellSize, c);
      assert forall j :: 0 <= j < |init| ==> init[j] == ps[j];
      var m := CellMembers(init, cellSize, c);
      forall a | 0 <= a < |m| ensures m[a] < |init| {
        assert m[a] in m;
      }
    }
  }

  /** Each index occurs once in the list of its own cell and nowhere else. */
  lemma {:induction false} CellMembersCount(ps: seq<Vec3>, cellSize: real, c: Cell, j: nat)
    requires cellSize > 0.0
    ensures multiset(CellMembers(ps, cellSize, c))[j] == if j < |ps| && CellOf(ps[j], cellSize) == c then 1 else 0
    decreases |ps|
  {
    if |ps| > 0 {
      var init := ps[..|ps| - 1];
      CellMembersCount(init, cellSize, c, j);
      if j < |init| {
        assert init[j] == ps[j];
      }
    }
  }

  /** The state `buildSpatialHash` leaves in `spatialHash`: a list under every non-empty cell, none under an empty one. */
  ghost predicate IsSpatialHash(m: map<Cell, seq<nat>>, ps: seq<Vec3>, cellSize: real)
    requires cellSize > 0.0
  {
    (forall c :: c in m <==> CellMembers(ps, cellSize, c) != []) &&
    (forall c :: c in m ==> m[c] == CellMembers(ps, cellSize, c))
  }

  /** The partition property: every index `0..n-1` lies in the list of its cell, in no other list,
      each list is strictly ascending, and no list holds anything else. */
  lemma SpatialHashPartition(m: map<Cell, seq<nat>>, ps: seq<Vec3>, cellSize: real)
    requires cellSize > 0.0 && IsSpatialHash(m, ps, cellSize)
    ensures forall j :: 0 <= j < |ps| ==> CellOf(ps[j], cellSize) in m && j in m[CellOf(ps[j], cellSize)]
    ensures forall c, j :: c in m && j in m[c] ==> j < |ps| && c == CellOf(ps[j], cellSize)
    ensures forall c, a, b :: c in m && 0 <= a < b < |m[c]| ==> m[c][a] < m[c][b]
  {
    forall c {
      CellMembersSpec(ps, cellSize, c);
    }
    forall j | 0 <= j < |ps| ensures CellOf(ps[j], cellSize) in m && j in m[CellOf(ps[j], cellSize)] {
      CellMembersSpec(ps, cellSize, CellOf(ps[j], cellSize));
    }
  }

  /** What `neighborOffsets` holds once built: the 27 offsets in the order of `OffsetAt`. */
  predicate IsOffsetTable(offsets: seq<Cell>) {
    |offsets| == 27 && forall n :: 0 <= n < 27 ==> offsets[n] == OffsetAt(n)
  }

  /** The indices the cell loop of `updateBoids` walks through for a boid in cell `home`, over the
      offsets `offsets`, one cell list after another. */
  function Walk(ps: seq<Vec3>, cellSize: real, home: Cell, offsets: seq<Cell>): seq<nat>
    requires cellSize > 0.0
    decreases |offsets|
  {
    if |offsets| == 0 then []
    else Walk(ps, cellSize, home, offsets[..|offsets| - 1]) + CellMembers(ps, cellSize, Shift(home, offsets[|offsets| - 1]))
  }

  /** How often the walk over the first `k` entries of the table meets index `j`: once if `j`'s cell is in
      the block and its offset is among those `k`, never otherwise. */
  lemma {:induction false} WalkCount(ps: seq<Vec3>, cellSize: real, home: Cell, offsets: seq<Cell>, k: nat, j: nat)
    requires cellSize > 0.0 && IsOffsetTable(offsets) && k <= |offsets|
    ensures multiset(Walk(ps, cellSize, home, offsets[..k]))[j] == if j < |ps| && InBlockBefore(Diff(CellOf(ps[j], cellSize), home), k) then 1 else 0
    decreases k
  {
    if k > 0 {
      WalkCount(ps, cellSize, home, offsets, k - 1, j);
      WalkStep(ps, cellSize, home, offsets, k);
      var c := Shift(home, offsets[k - 1]);
      CellMembersCount(ps, cellSize, c, j);
      if j < |ps| {
        BlockStep(CellOf(ps[j], cellSize), home, k);
      }
    }
  }

  /** `d` is a block offset listed among the first `k` entries of the table. */
  predicate InBlockBefore(d: Cell, k: nat) {
    InBlock(d) && BlockIndex(d) < k
  }

  lemma WalkStep(ps: seq<Vec3>, cellSize: real, home: Cell, offsets: seq<Cell>, k: nat)
    requires cellSize > 0.0 && 0 < k <= |offsets|
    ensures multiset(Walk(ps, cellSize, home, offsets[..k])) ==
      multiset(Walk(ps, cellSize, home, offsets[..k - 1])) + multiset(CellMembers(ps, cellSize, Shift(home, offsets[k - 1])))
  {
    assert offsets[..k][..k - 1] == offsets[..k - 1];
  }

  /** Growing the table prefix by entry `k - 1` adds exactly the cell at that offset. */
  lemma BlockStep(cj: Cell, home: Cell, k: nat)
    requires 0 < k <= 27
    ensures InBlockBefore(Diff(cj, home), k) <==> InBlockBefore(Diff(cj, home), k - 1) || cj == Shift(home, OffsetAt(k - 1))
    ensures !(InBlockBefore(Diff(cj, home), k - 1) && cj == Shift(home, OffsetAt(k - 1)))
  {
    var d := Diff(cj, home);
    if InBlock(d) {
      OffsetTableCoversBlock(d);
    }
    assert cj == Shift(home, OffsetAt(k - 1)) <==> d == OffsetAt(k - 1);
  }

  /** Headline completeness: with `cellSize` equal to the cohesion radius, every boid `j` within that
      radius of boid `i` is met exactly once by the walk over the whole table. */
  lemma WalkMeetsOnce(ps: seq<Vec3>, cellSize: real, offsets: seq<Cell>, i: nat, j: nat)
    requires cellSize > 0.0 && IsOffsetTable(offsets) && i < |ps| && j < |ps|
    requires DistSq(ps[i], ps[j]) < cellSize * cellSize
    ensures multiset(Walk(ps, cellSize, CellOf(ps[i], cellSize), offsets))[j] == 1
  {
    var home := CellOf(ps[i], cellSize);
    NeighbourInBlock(ps[i], ps[j], cellSize);
    OffsetTableCoversBlock(Diff(CellOf(ps[j], cellSize), home));
    WalkCount(ps, cellSize, home, offsets, |offsets|, j);
    assert offsets[..|offsets|] == offsets;
  }

  /** Nothing outside the boids is ever met. */
  lemma WalkInRange(ps: seq<Vec3>, cellSize: real, offsets: seq<Cell>, home: Cell, j: nat)
    requires cellSize > 0.0 && IsOffsetTable(offsets) && j >= |ps|
    ensures multiset(Walk(ps, cellSize, home, offsets))[j] == 0
  {
    WalkCount(ps, cellSize, home, offsets, |offsets|, j);
    assert offsets[..|offsets|] == offsets;
  }
}
