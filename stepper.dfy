/** One simulation step over the whole particle collection, as a function of
    the collection: reset every force, resolve every pair i < j in
    lexicographic order, then integrate and collide every particle. The class
    in module State performs the same step in place on an array. */
module Stepper {

  import opened Utils
  import opened Particles
  import opened Laws
  import opened Container

  /** `update_state` subdivides each frame into this many steps. */
  const SubSteps: nat := 20

  /** The length of each sub-step: the frame's time divided by 20. */
  function SubStepLength(frameDt: real): real {
    frameDt / 20.0
  }

  // ------------------------------------------------------------ force reset

  /** Every particle with its force accumulator cleared. */
  function ResetForces(ps: seq<Particle>): (qs: seq<Particle>)
    ensures |qs| == |ps|
    ensures forall k :: 0 <= k < |ps| ==> qs[k] == ps[k].(force := Zero)
  {
    seq(|ps|, k requires 0 <= k < |ps| => ps[k].(force := Zero))
  }

  // ------------------------------------------------------------ the pairs

  /** The pairs (i, lo), (i, lo + 1), ..., (i, hi − 1): one row of the inner loop. */
  function Row(i: nat, lo: nat, hi: nat): seq<(nat, nat)>
    decreases hi
  {
    if hi <= lo then [] else Row(i, lo, hi - 1) + [(i, hi - 1)]
  }

  /** The inner loop's next pair extends the pairs done so far by one. */
  lemma ExtendRow(done: seq<(nat, nat)>, i: nat, j: nat)
    requires i < j
    ensures done + Row(i, i + 1, j + 1) == done + Row(i, i + 1, j) + [(i, j)]
  {
    assert Row(i, i + 1, j + 1) == Row(i, i + 1, j) + [(i, j)];
  }

  /** The pairs of the first `i` rows of the nested loop over `n` particles. */
  function PairsUpTo(i: nat, n: nat): seq<(nat, nat)> {
    if i == 0 then [] else PairsUpTo(i - 1, n) + Row(i - 1, i, n)
  }

  /** Every pair the nested loop visits, in the order it visits them. */
  function Pairs(n: nat): seq<(nat, nat)> {
    PairsUpTo(n, n)
  }

  predicate LexLess(a: (nat, nat), b: (nat, nat)) {
    a.0 < b.0 || (a.0 == b.0 && a.1 < b.1)
  }

  predicate StrictlyIncreasing(s: seq<(nat, nat)>) {
    forall a, b :: 0 <= a < b < |s| ==> LexLess(s[a], s[b])
  }

  lemma {:induction false} RowFacts(i: nat, lo: nat, hi: nat)
    ensures lo <= hi ==> |Row(i, lo, hi)| == hi - lo
    ensures forall x :: x in Row(i, lo, hi) <==> x.0 == i && lo <= x.1 < hi
    ensures StrictlyIncreasing(Row(i, lo, hi))
    decreases hi
  {
    if lo < hi {
      RowFacts(i, lo, hi - 1);
      var r := Row(i, lo, hi - 1);
      var s := Row(i, lo, hi);
      assert s == r + [(i, hi - 1)];
      forall a, b | 0 <= a < b < |s|
        ensures LexLess(s[a], s[b])
      {
        if b == |r| {
          assert s[a] == r[a] && r[a] in r;
        } else {
          assert s[a] == r[a] && s[b] == r[b];
        }
      }
    }
  }

  lemma CountStep(i: int, n: int)
    ensures 2 * (i - 1) * n - (i - 1) * i + 2 * (n - i) == 2 * i * n - i * (i + 1)
  {
  }

  lemma {:induction false} PairsUpToCount(i: nat, n: nat)
    requires i <= n
    ensures 2 * |PairsUpTo(i, n)| == 2 * i * n - i * (i + 1)
  {
    if i > 0 {
      PairsUpToCount(i - 1, n);
      RowFacts(i - 1, i, n);
      CountStep(i, n);
    }
  }

  lemma {:induction false} PairsUpToMembers(i: nat, n: nat)
    ensures forall x :: x in PairsUpTo(i, n) <==> x.0 < i && x.0 < x.1 < n
  {
    if i > 0 {
      PairsUpToMembers(i - 1, n);
      RowFacts(i - 1, i, n);
      var p, r := PairsUpTo(i - 1, n), Row(i - 1, i, n);
      assert PairsUpTo(i, n) == p + r;
      forall x: (nat, nat)
        ensures x in p + r <==> x.0 < i && x.0 < x.1 < n
      {
        assert x in p + r <==> x in p || x in r;
      }
    }
  }

  lemma {:induction false} PairsUpToOrdered(i: nat, n: nat)
    ensures StrictlyIncreasing(PairsUpTo(i, n))
  {
    if i > 0 {
      PairsUpToOrdered(i - 1, n);
      PairsUpToMembers(i - 1, n);
      RowFacts(i - 1, i, n);
      var p, r := PairsUpTo(i - 1, n), Row(i - 1, i, n);
      var s := PairsUpTo(i, n);
      assert s == p + r;
      forall a, b | 0 <= a < b < |s|
        ensures LexLess(s[a], s[b])
      {
        if b < |p| {
          assert s[a] == p[a] && s[b] == p[b];
        } else if a < |p| {
          assert s[a] == p[a] && p[a] in p;
          assert s[b] == r[b - |p|] && r[b - |p|] in r;
        } else {
          assert s[a] == r[a - |p|] && s[b] == r[b - |p|];
        }
      }
    }
  }

  /** The inner loop runs n(n−1)/2 times in all, once for each pair i < j < n,
      in lexicographic order. */
  lemma PairsAreAllOrderedPairs(n: nat)
    ensures 2 * |Pairs(n)| == n * (n - 1)
    ensures forall x :: x in Pairs(n) <==> x.0 < x.1 < n
    ensures StrictlyIncreasing(Pairs(n))
  {
    PairsUpToCount(n, n);
    PairsUpToMembers(n, n);
    PairsUpToOrdered(n, n);
  }

  // ------------------------------------------------------------ the pair pass

  /** A pair the law can be applied to: two distinct indices in order, and no
      division by zero for the two particles. */
  predicate Resolvable(law: InteractionLaw, sqrt: real -> real, ps: seq<Particle>, pair: (nat, nat)) {
    pair.0 < pair.1 < |ps| && PairDefined(law, sqrt, ps[pair.0], ps[pair.1])
  }

  /** A valid law under an exact root can be applied to every ordered pair. */
  lemma ResolvableWhenExact(law: InteractionLaw, sqrt: real -> real, ps: seq<Particle>, pair: (nat, nat))
    requires ValidLaw(law) && ExactSqrt(sqrt) && pair.0 < pair.1 < |ps|
    ensures Resolvable(law, sqrt, ps, pair)
  {
    ValidLawDefined(law, sqrt, ps[pair.0], ps[pair.1]);
  }

  /** `law.resolve(&mut ps[i], &mut ps[j])`, on a copy of the collection. A pair
      that is not resolvable is left as it is; under an exact root there is none. */
  function ResolveAt(law: InteractionLaw, sqrt: real -> real, ps: seq<Particle>, pair: (nat, nat)): (qs: seq<Particle>)
    ensures |qs| == |ps|
  {
    if Resolvable(law, sqrt, ps, pair) then
      var r := Resolve(law, sqrt, ps[pair.0], ps[pair.1]);
      ps[pair.0 := r.first][pair.1 := r.second]
    else ps
  }

  /** The collection after resolving the given pairs, in order. */
  function ApplyPairs(law: InteractionLaw, sqrt: real -> real, ps: seq<Particle>, pairs: seq<(nat, nat)>): (qs: seq<Particle>)
    ensures |qs| == |ps|
    decreases |pairs|
  {
    if pairs == [] then ps
    else ResolveAt(law, sqrt, ApplyPairs(law, sqrt, ps, pairs[..|pairs| - 1]), pairs[|pairs| - 1])
  }

  lemma ApplyPairsSnoc(law: InteractionLaw, sqrt: real -> real, ps: seq<Particle>, pairs: seq<(nat, nat)>, x: (nat, nat))
    ensures ApplyPairs(law, sqrt, ps, pairs + [x]) == ResolveAt(law, sqrt, ApplyPairs(law, sqrt, ps, pairs), x)
  {
    assert (pairs + [x])[..|pairs|] == pairs;
  }

  // ------------------------------------------------------------ totals

  /** The three quantities a resolution keeps summed over the pair. */
  datatype Quantity = Positions | Velocities | Forces

  function Of(q: Quantity, p: Particle): Vec2 {
    match q
    case Positions => p.position
    case Velocities => p.velocity
    case Forces => p.force
  }

  /** The sum of one quantity over the collection. */
  function Total(q: Quantity, ps: seq<Particle>): Vec2
    decreases |ps|
  {
    if ps == [] then Zero else Add(Of(q, ps[0]), Total(q, ps[1..]))
  }

  /** Replacing one particle changes the total by the difference. */
  lemma {:induction false} TotalUpdate(q: Quantity, ps: seq<Particle>, i: nat, a: Particle)
    requires i < |ps|
    ensures Total(q, ps[i := a]) == Add(Sub(Total(q, ps), Of(q, ps[i])), Of(q, a))
    decreases |ps|
  {
    if i > 0 {
      TotalUpdate(q, ps[1..], i - 1, a);
      assert ps[i := a][1..] == ps[1..][i - 1 := a];
    } else {
      assert ps[i := a][1..] == ps[1..];
    }
  }

  /** Resolving one pair keeps every total. */
  lemma ResolveAtKeepsTotals(law: InteractionLaw, sqrt: real -> real, ps: seq<Particle>, pair: (nat, nat), q: Quantity)
    ensures Total(q, ResolveAt(law, sqrt, ps, pair)) == Total(q, ps)
  {
    if Resolvable(law, sqrt, ps, pair) {
      var r := Resolve(law, sqrt, ps[pair.0], ps[pair.1]);
      TotalUpdate(q, ps, pair.0, r.first);
      TotalUpdate(q, ps[pair.0 := r.first], pair.1, r.second);
    }
  }

  /** Resolving one pair keeps every radius. */
  lemma ResolveAtKeepsRadii(law: InteractionLaw, sqrt: real -> real, ps: seq<Particle>, pair: (nat, nat))
    ensures forall k :: 0 <= k < |ps| ==> ResolveAt(law, sqrt, ps, pair)[k].radius == ps[k].radius
  {
    if Resolvable(law, sqrt, ps, pair) {
    }
  }

  /** Any sequence of pair resolutions keeps the count, every radius and the
      sums of positions, velocities and forces: each resolution is equal and
      opposite. */
  lemma {:induction false} ApplyPairsKeeps(law: InteractionLaw, sqrt: real -> real, ps: seq<Particle>, pairs: seq<(nat, nat)>)
    ensures |ApplyPairs(law, sqrt, ps, pairs)| == |ps|
    ensures forall k :: 0 <= k < |ps| ==> ApplyPairs(law, sqrt, ps, pairs)[k].radius == ps[k].radius
    ensures forall q :: Total(q, ApplyPairs(law, sqrt, ps, pairs)) == Total(q, ps)
    decreases |pairs|
  {
    if pairs != [] {
      var init := pairs[..|pairs| - 1];
      ApplyPairsKeeps(law, sqrt, ps, init);
      var mid := ApplyPairs(law, sqrt, ps, init);
      ResolveAtKeepsRadii(law, sqrt, mid, pairs[|pairs| - 1]);
      forall q {
        ResolveAtKeepsTotals(law, sqrt, mid, pairs[|pairs| - 1], q);
      }
    }
  }

  lemma {:induction false} TotalOfReset(ps: seq<Particle>)
    ensures Total(Forces, ResetForces(ps)) == Zero
    decreases |ps|
  {
    if ps != [] {
      TotalOfReset(ps[1..]);
      assert ResetForces(ps)[1..] == ResetForces(ps[1..]);
    }
  }

  /** The pass over all pairs that follows the force reset. */
  function PairPass(law: InteractionLaw, sqrt: real -> real, ps: seq<Particle>): (qs: seq<Particle>)
    ensures |qs| == |ps|
  {
    ApplyPairs(law, sqrt, ResetForces(ps), Pairs(|ps|))
  }

  /** After the reset and the pair pass the forces sum to zero: every force
      was added to one particle and taken from another. For the impulse law the
      sums of velocities and of positions come through the pass unchanged. */
  lemma PairPassBalancesForces(law: InteractionLaw, sqrt: real -> real, ps: seq<Particle>)
    ensures Total(Forces, PairPass(law, sqrt, ps)) == Zero
    ensures Total(Velocities, PairPass(law, sqrt, ps)) == Total(Velocities, ps)
    ensures Total(Positions, PairPass(law, sqrt, ps)) == Total(Positions, ps)
  {
    ApplyPairsKeeps(law, sqrt, ResetForces(ps), Pairs(|ps|));
    TotalOfReset(ps);
    TotalOfResetOthers(ps, Velocities);
    TotalOfResetOthers(ps, Positions);
  }

  lemma {:induction false} TotalOfResetOthers(ps: seq<Particle>, q: Quantity)
    requires q != Forces
    ensures Total(q, ResetForces(ps)) == Total(q, ps)
    decreases |ps|
  {
    if ps != [] {
      TotalOfResetOthers(ps[1..], q);
      assert ResetForces(ps)[1..] == ResetForces(ps[1..]);
    }
  }

  // ------------------------------------------------------------ a whole step

  /** `particle.update(dt)` followed by `container.collision(particle)`. */
  function Advance(c: ParticleContainer, sqrt: real -> real, dt: real, p: Particle): Particle {
    Collided(c, sqrt, Integrated(p, dt))
  }

  /** `compute_single_interaction(dt)`: reset, then all pairs, then every
      particle advanced in index order. */
  function Step(kind: InteractionLawType, c: ParticleContainer, sqrt: real -> real, dt: real, ps: seq<Particle>): (qs: seq<Particle>)
    ensures |qs| == |ps|
  {
    AdvanceAll(c, sqrt, dt, PairPass(BuildInteractionLaw(kind), sqrt, ps))
  }

  /** Every particle advanced, each on its own. */
  function AdvanceAll(c: ParticleContainer, sqrt: real -> real, dt: real, ps: seq<Particle>): (qs: seq<Particle>)
    ensures |qs| == |ps|
  {
    seq(|ps|, k requires 0 <= k < |ps| => Advance(c, sqrt, dt, ps[k]))
  }

  /** `n` steps of the same length. */
  function Steps(n: nat, kind: InteractionLawType, c: ParticleContainer, sqrt: real -> real, dt: real, ps: seq<Particle>): (qs: seq<Particle>)
    ensures |qs| == |ps|
  {
    if n == 0 then ps else Step(kind, c, sqrt, dt, Steps(n - 1, kind, c, sqrt, dt, ps))
  }

  /** The radii of a collection, in order. */
  function Radii(ps: seq<Particle>): (rs: seq<real>)
    ensures |rs| == |ps| && forall k :: 0 <= k < |ps| ==> rs[k] == ps[k].radius
  {
    seq(|ps|, k requires 0 <= k < |ps| => ps[k].radius)
  }

  /** Advancing every particle keeps every radius. */
  lemma AdvanceAllKeepsRadii(c: ParticleContainer, sqrt: real -> real, dt: real, ps: seq<Particle>)
    ensures Radii(AdvanceAll(c, sqrt, dt, ps)) == Radii(ps)
  {
    var next := AdvanceAll(c, sqrt, dt, ps);
    forall k | 0 <= k < |ps|
      ensures next[k].radius == ps[k].radius
    {
      IntegratedKeepsForceAndRadius(ps[k], dt);
      CollidedKeepsSpeedForceRadius(c, sqrt, Integrated(ps[k], dt));
    }
  }

  /** The force reset and the pair pass keep every radius. */
  lemma PairPassKeepsRadii(law: InteractionLaw, sqrt: real -> real, ps: seq<Particle>)
    ensures Radii(PairPass(law, sqrt, ps)) == Radii(ps)
  {
    var reset := ResetForces(ps);
    ApplyPairsKeeps(law, sqrt, reset, Pairs(|ps|));
    assert Radii(reset) == Radii(ps);
  }

  /** A step keeps the number of particles and every radius. */
  lemma StepKeepsRadii(kind: InteractionLawType, c: ParticleContainer, sqrt: real -> real, dt: real, ps: seq<Particle>)
    ensures Radii(Step(kind, c, sqrt, dt, ps)) == Radii(ps)
  {
    var mid := PairPass(BuildInteractionLaw(kind), sqrt, ps);
    PairPassKeepsRadii(BuildInteractionLaw(kind), sqrt, ps);
    AdvanceAllKeepsRadii(c, sqrt, dt, mid);
  }

  lemma StepsUnfold(n: nat, kind: InteractionLawType, c: ParticleContainer, sqrt: real -> real, dt: real, ps: seq<Particle>)
    requires n > 0
    ensures Steps(n, kind, c, sqrt, dt, ps) == Step(kind, c, sqrt, dt, Steps(n - 1, kind, c, sqrt, dt, ps))
  {
  }

  // ------------------------------------------------------------ energy

  /** The kinetic energies summed over the collection, front to back. */
  function KineticEnergySum(ps: seq<Particle>): real
    decreases |ps|
  {
    if ps == [] then 0.0 else KineticEnergySum(ps[..|ps| - 1]) + KineticEnergy(ps[|ps| - 1])
  }

  /** The sum is non-negative, and zero exactly when every particle is at rest. */
  lemma {:induction false} KineticEnergySumSign(ps: seq<Particle>)
    ensures KineticEnergySum(ps) >= 0.0
    ensures KineticEnergySum(ps) == 0.0 <==> forall k :: 0 <= k < |ps| ==> ps[k].velocity == Zero
    decreases |ps|
  {
    if ps != [] {
      var init := ps[..|ps| - 1];
      KineticEnergySumSign(init);
      assert forall k :: 0 <= k < |init| ==> init[k] == ps[k];
    }
  }
}
