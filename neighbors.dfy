/** The neighbour sums of `updateBoids` (app.js:737-797): for boid `i`, the separation, alignment
    and cohesion accumulators and their counts. `Tally` folds the per-neighbour contribution over a
    list of candidate indices; the gather loop walks the 27 cells of the spatial hash, and the lemmas
    here show that this equals the brute-force fold over every index. */
module Neighbors {
  import opened Config
  import opened Vectors
  import opened Grid

  /** The twelve accumulators `sepX..sepZ`, `aliX..aliZ`, `cohX..cohZ`, `sepCount`, `aliCount`, `cohCount`. */
  datatype Accum = Accum(sepCount: nat, aliCount: nat, cohCount: nat, sep: Vec3, ali: Vec3, coh: Vec3)

  const Empty: Accum := Accum(0, 0, 0, Zero, Zero, Zero)

  const SepSq: real := SeparationDistance * SeparationDistance
  const AliSq: real := AlignmentDistance * AlignmentDistance
  const CohSq: real := CohesionDistance * CohesionDistance

  function Plus(a: Accum, b: Accum): Accum {
    Accum(a.sepCount + b.sepCount, a.aliCount + b.aliCount, a.cohCount + b.cohCount,
          Add(a.sep, b.sep), Add(a.ali, b.ali), Add(a.coh, b.coh))
  }

  // ---- Folding contributions over a candidate list, for any contribution function ----

  /** The sums after adding `c(j)` for every candidate `j` of `js`, in order. */
  function Fold(c: nat -> Accum, js: seq<nat>): Accum
    decreases |js|
  {
    if |js| == 0 then Empty else Plus(Fold(c, js[..|js| - 1]), c(js[|js| - 1]))
  }

  lemma {:induction false} FoldAppend(c: nat -> Accum, a: seq<nat>, b: seq<nat>)
    ensures Fold(c, a + b) == Plus(Fold(c, a), Fold(c, b))
    decreases |b|
  {
    if |b| > 0 {
      var binit, x := b[..|b| - 1], b[|b| - 1];
      var ab := a + b;
      assert ab[..|ab| - 1] == a + binit && ab[|ab| - 1] == x;
      FoldAppend(c, a, binit);
      var fa, fb := Fold(c, a), Fold(c, binit);
      assert Fold(c, ab) == Plus(Fold(c, a + binit), c(x));
      assert Fold(c, b) == Plus(fb, c(x));
      PlusAssoc(fa, fb, c(x));
    } else {
      assert a + b == a;
      assert Fold(c, b) == Empty;
    }
  }

  lemma PlusEmpty(a: Accum)
    ensures Plus(a, Empty) == a
  {
  }

  lemma EmptyPlus(a: Accum)
    ensures Plus(Empty, a) == a
  {
  }

  lemma PlusAssoc(a: Accum, b: Accum, c: Accum)
    ensures Plus(Plus(a, b), c) == Plus(a, Plus(b, c))
  {
  }

  /** Removing one candidate takes exactly its contribution out of the sums. */
  lemma {:induction false} FoldRemove(c: nat -> Accum, js: seq<nat>, k: nat)
    requires k < |js|
    ensures Fold(c, js) == Plus(Fold(c, js[..k] + js[k + 1..]), c(js[k]))
  {
    var p, x, q := js[..k], js[k], js[k + 1..];
    var px := p + [x];
    assert js == px + q;
    FoldAppend(c, px, q);
    FoldAppend(c, p, [x]);
    FoldAppend(c, p, q);
    FoldSingle(c, x);
    var fp, fq := Fold(c, p), Fold(c, q);
    assert Fold(c, js) == Plus(Plus(fp, c(x)), fq);
    PlusSwap(fp, c(x), fq);
  }

  lemma FoldSingle(c: nat -> Accum, x: nat)
    ensures Fold(c, [x]) == c(x)
  {
    assert [x][..0] == [];
    EmptyPlus(c(x));
  }

  lemma PlusSwap(a: Accum, b: Accum, c: Accum)
    ensures Plus(Plus(a, b), c) == Plus(Plus(a, c), b)
  {
  }

  /** Over the reals the sums do not depend on the order the candidates are visited in. */
  lemma {:induction false} FoldPermutation(c: nat -> Accum, a: seq<nat>, b: seq<nat>)
    requires multiset(a) == multiset(b)
    ensures Fold(c, a) == Fold(c, b)
    decreases |b|
  {
    if |b| == 0 {
      assert |a| == |multiset(a)| == 0;
    } else {
      var binit := b[..|b| - 1];
      var x := b[|b| - 1];
      assert b == binit + [x];
      assert x in multiset(a);
      var k :| 0 <= k < |a| && a[k] == x;
      var rest := a[..k] + a[k + 1..];
      assert a == a[..k] + [x] + a[k + 1..];
      assert multiset(a) == multiset(rest) + multiset{x};
      assert multiset(b) == multiset(binit) + multiset{x};
      assert multiset(rest) == multiset(a) - multiset{x};
      assert multiset(binit) == multiset(b) - multiset{x};
      assert multiset(rest) == multiset(binit);
      FoldRemove(c, a, k);
      FoldPermutation(c, rest, binit);
    }
  }

  /** The candidates of `js` that `keep` admits, in order. */
  function Filter(keep: nat -> bool, js: seq<nat>): seq<nat>
    decreases |js|
  {
    if |js| == 0 then []
    else Filter(keep, js[..|js| - 1]) + (if keep(js[|js| - 1]) then [js[|js| - 1]] else [])
  }

  lemma {:induction false} FilterCount(keep: nat -> bool, js: seq<nat>, j: nat)
    ensures multiset(Filter(keep, js))[j] == if keep(j) then multiset(js)[j] else 0
    decreases |js|
  {
    if |js| > 0 {
      var init := js[..|js| - 1];
      FilterCount(keep, init, j);
      assert js == init + [js[|js| - 1]];
    }
  }

  /** Dropping candidates that contribute nothing leaves the sums unchanged. */
  lemma {:induction false} FoldFilter(c: nat -> Accum, keep: nat -> bool, js: seq<nat>)
    requires forall j :: !keep(j) ==> c(j) == Empty
    ensures Fold(c, js) == Fold(c, Filter(keep, js))
    decreases |js|
  {
    if |js| > 0 {
      var init := js[..|js| - 1];
      var x := js[|js| - 1];
      FoldFilter(c, keep, init);
      var k := Filter(keep, init);
      if keep(x) {
        var kx := k + [x];
        assert Filter(keep, js) == kx;
        assert kx[..|kx| - 1] == k && kx[|kx| - 1] == x;
      } else {
        assert Filter(keep, js) == k + [];
        assert k + [] == k;
        PlusEmpty(Fold(c, init));
      }
    }
  }

  /** Counts that are ordered for every single contribution stay ordered in the sums. */
  lemma {:induction false} FoldCountsOrdered(c: nat -> Accum, js: seq<nat>)
    requires forall j :: c(j).sepCount <= c(j).aliCount <= c(j).cohCount <= 1
    ensures Fold(c, js).sepCount <= Fold(c, js).aliCount <= Fold(c, js).cohCount <= |js|
    decreases |js|
  {
    if |js| > 0 {
      FoldCountsOrdered(c, js[..|js| - 1]);
    }
  }

  // ---- The contribution of one neighbour in updateBoids ----

  /** What neighbour `j` adds to boid `i`'s sums: nothing for `i` itself or a coincident boid; otherwise
      the unit offset (through the injected `invSqrt`) inside the separation radius, the neighbour's
      velocity inside the alignment radius and its position inside the cohesion radius. */
  function Contrib(ps: seq<Vec3>, vs: seq<Vec3>, i: nat, j: nat, invSqrt: real -> real): Accum {
    if i >= |ps| || j >= |ps| || j >= |vs| || j == i then Empty
    else
      var d2 := DistSq(ps[i], ps[j]);
      if d2 < Eps then Empty
      else
        var s := d2 < SepSq;
        var a := d2 < AliSq;
        var c := d2 < CohSq;
        Accum(if s then 1 else 0, if a then 1 else 0, if c then 1 else 0,
              if s then Scale(Sub(ps[i], ps[j]), invSqrt(d2)) else Zero,
              if a then vs[j] else Zero,
              if c then ps[j] else Zero)
  }

  function Gain(ps: seq<Vec3>, vs: seq<Vec3>, i: nat, invSqrt: real -> real): nat -> Accum {
    (j: nat) => Contrib(ps, vs, i, j, invSqrt)
  }

  /** Boid `i`'s sums after visiting the candidates `js` in order. */
  function Tally(ps: seq<Vec3>, vs: seq<Vec3>, i: nat, js: seq<nat>, invSqrt: real -> real): Accum {
    Fold(Gain(ps, vs, i, invSqrt), js)
  }

  /** A neighbour inside the radius `rSq`: another boid, not coincident, at squared distance below `rSq`. */
  predicate Near(ps: seq<Vec3>, i: nat, j: nat, rSq: real) {
    i < |ps| && j < |ps| && j != i && Eps <= DistSq(ps[i], ps[j]) < rSq
  }

  function NearTo(ps: seq<Vec3>, i: nat): nat -> bool {
    (j: nat) => Near(ps, i, j, CohSq)
  }

  /** One neighbour is counted by each radius it lies within, and only a cohesion neighbour counts at all. */
  lemma ContribCounts(ps: seq<Vec3>, vs: seq<Vec3>, i: nat, j: nat, invSqrt: real -> real)
    requires |ps| == |vs|
    ensures Contrib(ps, vs, i, j, invSqrt).sepCount == if Near(ps, i, j, SepSq) then 1 else 0
    ensures Contrib(ps, vs, i, j, invSqrt).aliCount == if Near(ps, i, j, AliSq) then 1 else 0
    ensures Contrib(ps, vs, i, j, invSqrt).cohCount == if Near(ps, i, j, CohSq) then 1 else 0
    ensures !Near(ps, i, j, CohSq) ==> Contrib(ps, vs, i, j, invSqrt) == Empty
  {
  }

  lemma ContribFacts(ps: seq<Vec3>, vs: seq<Vec3>, i: nat, invSqrt: real -> real)
    requires |ps| == |vs|
    ensures forall j :: !NearTo(ps, i)(j) ==> Gain(ps, vs, i, invSqrt)(j) == Empty
    ensures forall j :: (Gain(ps, vs, i, invSqrt)(j).sepCount <= Gain(ps, vs, i, invSqrt)(j).aliCount
      <= Gain(ps, vs, i, invSqrt)(j).cohCount <= 1)
  {
    forall j ensures !NearTo(ps, i)(j) ==> Gain(ps, vs, i, invSqrt)(j) == Empty
      ensures Gain(ps, vs, i, invSqrt)(j).sepCount <= Gain(ps, vs, i, invSqrt)(j).aliCount
        <= Gain(ps, vs, i, invSqrt)(j).cohCount <= 1
    {
      ContribCounts(ps, vs, i, j, invSqrt);
    }
  }

  /** Every index `0..n-1`, ascending: the candidate list of a brute-force scan. */
  function Range(n: nat): seq<nat> {
    seq(n, k requires 0 <= k < n => k as nat)
  }

  lemma {:induction false} RangeCount(n: nat, j: nat)
    ensures multiset(Range(n))[j] == if j < n then 1 else 0
    decreases n
  {
    if n > 0 {
      assert Range(n) == Range(n - 1) + [n - 1];
      RangeCount(n - 1, j);
    }
  }

  /** The candidates that matter are the same, with the same multiplicities, in both walks. */
  lemma SameNeighbours(ps: seq<Vec3>, offsets: seq<Cell>, i: nat)
    requires IsOffsetTable(offsets) && i < |ps|
    ensures multiset(Filter(NearTo(ps, i), Walk(ps, CohesionDistance, CellOf(ps[i], CohesionDistance), offsets))) ==
            multiset(Filter(NearTo(ps, i), Range(|ps|)))
  {
    forall j: nat | NearTo(ps, i)(j)
      ensures multiset(Walk(ps, CohesionDistance, CellOf(ps[i], CohesionDistance), offsets))[j] == multiset(Range(|ps|))[j]
    {
      WalkMeetsOnce(ps, CohesionDistance, offsets, i, j);
      RangeCount(|ps|, j);
    }
    FilterSame(NearTo(ps, i), Walk(ps, CohesionDistance, CellOf(ps[i], CohesionDistance), offsets), Range(|ps|));
  }

  /** Two lists that agree on the multiplicity of every kept candidate keep the same candidates. */
  lemma FilterSame(keep: nat -> bool, s: seq<nat>, t: seq<nat>)
    requires forall j: nat :: keep(j) ==> multiset(s)[j] == multiset(t)[j]
    ensures multiset(Filter(keep, s)) == multiset(Filter(keep, t))
  {
    var ms, mt := multiset(Filter(keep, s)), multiset(Filter(keep, t));
    forall j: nat ensures ms[j] == mt[j] {
      FilterCount(keep, s, j);
      FilterCount(keep, t, j);
    }
    assert ms == mt;
  }

  /** Headline: with `cellSize` the cohesion radius (app.js:734), the 27-cell walk of the spatial hash
      produces exactly the sums the brute-force scan over all boids would. */
  lemma GatherComplete(ps: seq<Vec3>, vs: seq<Vec3>, offsets: seq<Cell>, i: nat, invSqrt: real -> real)
    requires |ps| == |vs| && IsOffsetTable(offsets) && i < |ps|
    ensures Tally(ps, vs, i, Walk(ps, CohesionDistance, CellOf(ps[i], CohesionDistance), offsets), invSqrt) ==
            Tally(ps, vs, i, Range(|ps|), invSqrt)
  {
    var visited := Walk(ps, CohesionDistance, CellOf(ps[i], CohesionDistance), offsets);
    var all := Range(|ps|);
    var keep, c := NearTo(ps, i), Gain(ps, vs, i, invSqrt);
    SameNeighbours(ps, offsets, i);
    ContribFacts(ps, vs, i, invSqrt);
    FoldFilter(c, keep, visited);
    FoldFilter(c, keep, all);
    FoldPermutation(c, Filter(keep, visited), Filter(keep, all));
  }

  /** The set of neighbours among the first `n` boids that the radius `rSq` admits. */
  ghost function Within(ps: seq<Vec3>, i: nat, n: nat, rSq: real): set<nat> {
    set j: nat | j < n && Near(ps, i, j, rSq)
  }

  lemma WithinStep(ps: seq<Vec3>, i: nat, n: nat, rSq: real)
    requires 0 < n
    ensures |Within(ps, i, n, rSq)| == |Within(ps, i, n - 1, rSq)| + (if Near(ps, i, n - 1, rSq) then 1 else 0)
  {
    var prev := Within(ps, i, n - 1, rSq);
    if Near(ps, i, n - 1, rSq) {
      assert Within(ps, i, n, rSq) == prev + {n - 1};
    } else {
      assert Within(ps, i, n, rSq) == prev;
    }
  }

  /** Each count of the brute-force scan is the number of boids inside its radius (app.js:781-795):
      `cohCount` is the number of `j != i` with `1e-8 <= d^2 < 36^2`, each counted once. */
  lemma {:induction false} CountsAreNeighbourSets(ps: seq<Vec3>, vs: seq<Vec3>, i: nat, n: nat, invSqrt: real -> real)
    requires |ps| == |vs|
    ensures Tally(ps, vs, i, Range(n), invSqrt).sepCount == |Within(ps, i, n, SepSq)|
    ensures Tally(ps, vs, i, Range(n), invSqrt).aliCount == |Within(ps, i, n, AliSq)|
    ensures Tally(ps, vs, i, Range(n), invSqrt).cohCount == |Within(ps, i, n, CohSq)|
    decreases n
  {
    if n > 0 {
      CountsAreNeighbourSets(ps, vs, i, n - 1, invSqrt);
      assert Range(n)[..n - 1] == Range(n - 1);
      ContribCounts(ps, vs, i, n - 1, invSqrt);
      WithinStep(ps, i, n, SepSq);
      WithinStep(ps, i, n, AliSq);
      WithinStep(ps, i, n, CohSq);
    }
  }

  /** With the default radii 6 <= 24 <= 36 (app.js:15-17) the counts come out ordered on any candidate list. */
  lemma CountsOrdered(ps: seq<Vec3>, vs: seq<Vec3>, i: nat, js: seq<nat>, invSqrt: real -> real)
    requires |ps| == |vs|
    ensures Tally(ps, vs, i, js, invSqrt).sepCount <= Tally(ps, vs, i, js, invSqrt).aliCount
      <= Tally(ps, vs, i, js, invSqrt).cohCount <= |js|
  {
    ContribFacts(ps, vs, i, invSqrt);
    FoldCountsOrdered(Gain(ps, vs, i, invSqrt), js);
  }

  /** A boid with no other boid inside the cohesion radius, other than coincident ones, gathers nothing. */
  lemma IsolatedGathersNothing(ps: seq<Vec3>, vs: seq<Vec3>, i: nat, invSqrt: real -> real)
    requires |ps| == |vs| && i < |ps|
    requires forall j :: 0 <= j < |ps| && j != i ==> DistSq(ps[i], ps[j]) < Eps || DistSq(ps[i], ps[j]) >= CohSq
    ensures Tally(ps, vs, i, Range(|ps|), invSqrt) == Empty
  {
    var all := Range(|ps|);
    var keep := NearTo(ps, i);
    ContribFacts(ps, vs, i, invSqrt);
    FoldFilter(Gain(ps, vs, i, invSqrt), keep, all);
    var m := multiset(Filter(keep, all));
    forall j: nat ensures m[j] == 0 {
      FilterCount(keep, all, j);
    }
    assert m == multiset{};
  }
}
