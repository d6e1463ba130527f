/** The two nearest-target scans: a hawk's chase scan over the boids (app.js:957-966) and a boid's
    scan for the nearest hawk with its fear gate (app.js:851-865). Both keep the first index of
    strictly smallest squared distance; the chase scan also passes over anything at or beyond the
    chase radius. */
module Scans {
  import opened Wrappers
  import opened Config
  import opened Vectors

  const ChaseSq: real := HawkChaseDistance * HawkChaseDistance
  const FearSq: real := HawkFearDistance * HawkFearDistance

  /** The squared distance of each boid from the hawk, `boids[i].position - hawk.position`. */
  function ChaseDistances(boids: seq<Vec3>, hawk: Vec3): (ds: seq<real>)
    ensures |ds| == |boids|
  {
    seq(|boids|, k requires 0 <= k < |boids| => DistSq(boids[k], hawk))
  }

  /** The squared distance of a boid at `p` from each hawk, `p - hawks[h].position`. */
  function FearDistances(p: Vec3, hawks: seq<Vec3>): (ds: seq<real>)
    ensures |ds| == |hawks|
  {
    seq(|hawks|, k requires 0 <= k < |hawks| => DistSq(p, hawks[k]))
  }

  /** What both scan loops leave in `nearest`, visiting `ds` in order: a candidate replaces the one held
      when it is strictly closer (the first holder faces `Infinity`) and, with a `bound`, strictly inside it. */
  function Nearest(ds: seq<real>, bound: Option<real>): (r: Option<nat>)
    ensures r.Some? ==> r.value < |ds|
    decreases |ds|
  {
    if |ds| == 0 then None
    else
      var prev := Nearest(ds[..|ds| - 1], bound);
      var d := ds[|ds| - 1];
      if (prev.None? || d < ds[prev.value]) && (bound.None? || d < bound.value) then Some(|ds| - 1) else prev
  }

  /** The index a nearest scan should choose, stated on its own: inside the bound, no farther than any
      candidate, and the lowest index among the candidates as near as it. */
  predicate FirstNearest(ds: seq<real>, bound: Option<real>, k: nat) {
    k < |ds| && (bound.None? || ds[k] < bound.value) &&
    (forall j :: 0 <= j < |ds| ==> ds[k] <= ds[j]) &&
    (forall j :: 0 <= j < |ds| && ds[j] == ds[k] ==> k <= j)
  }

  /** No candidate lies strictly inside the bound; with no bound, there is no candidate at all. */
  predicate NoneInside(ds: seq<real>, bound: Option<real>) {
    forall j :: 0 <= j < |ds| ==> bound.Some? && ds[j] >= bound.value
  }

  /** The scan's choice is a first nearest index, and it chooses nothing exactly when nothing is inside the bound. */
  lemma {:induction false} NearestSpec(ds: seq<real>, bound: Option<real>)
    ensures Nearest(ds, bound).Some? ==> FirstNearest(ds, bound, Nearest(ds, bound).value)
    ensures Nearest(ds, bound).None? <==> NoneInside(ds, bound)
    decreases |ds|
  {
    if |ds| > 0 {
      var init := ds[..|ds| - 1];
      NearestSpec(init, bound);
      assert forall j :: 0 <= j < |init| ==> init[j] == ds[j];
    }
  }

  /** At most one index is a first nearest one. */
  lemma FirstNearestUnique(ds: seq<real>, bound: Option<real>, k: nat, m: nat)
    requires FirstNearest(ds, bound, k) && FirstNearest(ds, bound, m)
    ensures k == m
  {
    assert ds[k] == ds[m];
  }

  /** The scan chooses `k` exactly when `k` is the first nearest index inside the bound. */
  lemma NearestChooses(ds: seq<real>, bound: Option<real>, k: nat)
    ensures Nearest(ds, bound) == Some(k) <==> FirstNearest(ds, bound, k)
  {
    NearestSpec(ds, bound);
    if FirstNearest(ds, bound, k) {
      assert !NoneInside(ds, bound) by {
        assert !(bound.Some? && ds[k] >= bound.value);
      }
      FirstNearestUnique(ds, bound, k, Nearest(ds, bound).value);
    }
  }

  /** The hawk that frightens a boid (app.js:865): the nearest hawk, and only when its squared distance lies
      strictly between `1e-8` and the fear radius squared. */
  function Threat(ds: seq<real>): (r: Option<nat>)
    ensures r.Some? ==> r == Nearest(ds, None)
  {
    var n := Nearest(ds, None);
    if n.Some? && Eps < ds[n.value] < FearSq then n else None
  }

  /** A boid is frightened exactly when some hawk is inside the fear radius and no hawk is within `1e-8`:
      a hawk sitting on the boid hides every other hawk from it. */
  lemma ThreatSpec(ds: seq<real>)
    ensures Threat(ds).Some? <==>
      (exists m :: 0 <= m < |ds| && ds[m] < FearSq) && (forall m :: 0 <= m < |ds| ==> ds[m] > Eps)
  {
    NearestSpec(ds, None);
    var n := Nearest(ds, None);
    if n.Some? {
      var k := n.value;
      if (exists m :: 0 <= m < |ds| && ds[m] < FearSq) && (forall m :: 0 <= m < |ds| ==> ds[m] > Eps) {
        var m :| 0 <= m < |ds| && ds[m] < FearSq;
        assert ds[k] <= ds[m];
      }
    }
  }

  /** The chase scan of `updateHawk`, over the boids' positions. */
  method ChaseScan(boids: seq<Vec3>, hawk: Vec3) returns (nearest: Option<nat>)
    ensures nearest == Nearest(ChaseDistances(boids, hawk), Some(ChaseSq))
  {
    ghost var ds := ChaseDistances(boids, hawk);
    nearest := None;
    var nearestDistanceSq: Option<real> := None;  // None stands for `Infinity`
    var i := 0;
    while i < |boids|
      invariant 0 <= i <= |boids|
      invariant nearest == Nearest(ds[..i], Some(ChaseSq))
      invariant nearest.None? <==> nearestDistanceSq.None?
      invariant nearest.Some? ==> nearest.value < i && nearestDistanceSq == Some(ds[nearest.value])
    {
      var distSq := DistSq(boids[i], hawk);
      assert ds[..i + 1][..i] == ds[..i];
      if (nearestDistanceSq.None? || distSq < nearestDistanceSq.value) && distSq < ChaseSq {
        nearestDistanceSq := Some(distSq);
        nearest := Some(i);
      }
      i := i + 1;
    }
    assert ds[..|boids|] == ds;
  }

  /** The nearest-hawk scan of `updateBoids` together with its fear gate. */
  method FearScan(p: Vec3, hawks: seq<Vec3>) returns (threat: Option<nat>)
    ensures threat == Threat(FearDistances(p, hawks))
  {
    ghost var ds := FearDistances(p, hawks);
    threat := None;
    if |hawks| > 0 {
      var nearest: Option<nat> := None;
      var nearestDistSq: Option<real> := None;  // None stands for `Infinity`
      var h := 0;
      while h < |hawks|
        invariant 0 <= h <= |hawks|
        invariant nearest == Nearest(ds[..h], None)
        invariant nearest.None? <==> nearestDistSq.None?
        invariant nearest.Some? ==> nearest.value < h && nearestDistSq == Some(ds[nearest.value])
      {
        var d2 := DistSq(p, hawks[h]);
        assert ds[..h + 1][..h] == ds[..h];
        if nearestDistSq.None? || d2 < nearestDistSq.value {
          nearestDistSq := Some(d2);
          nearest := Some(h);
        }
        h := h + 1;
      }
      assert ds[..|hawks|] == ds;
      if nearest.Some? && Eps < nearestDistSq.value < FearSq {
        threat := nearest;
      }
    }
  }
}
