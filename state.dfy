/** The simulation state the window owns: the particle collection, the box,
    the kind of interaction law, the slider value and the pause flag. Its
    methods run the step of module Stepper in place on the particle array. */
module State {

  import opened Utils
  import opened Particles
  import opened Laws
  import opened Container
  import opened Stepper

  /** The slider's value when the simulation starts. */
  const InitialSliderValue: real := 50.0

  class MainState {
    var particles: array<Particle>
    var container: ParticleContainer
    var law: InteractionLawType
    var sliderValue: real
    var paused: bool

    /** `MainState::new`: a box from the origin to the window's width and
        height, the demon not looking, the slider at 50, running. The randomly
        drawn particles are given. */
    constructor (initial: seq<Particle>, screenWidth: real, screenHeight: real, kind: InteractionLawType)
      ensures fresh(particles) && particles[..] == initial
      ensures container == NewContainer(Boundaries(0.0, 0.0, screenHeight, screenWidth))
      ensures law == kind && sliderValue == InitialSliderValue && !paused
    {
      particles := new Particle[|initial|](k requires 0 <= k < |initial| => initial[k]);
      container := NewContainer(Boundaries(0.0, 0.0, screenHeight, screenWidth));
      law := kind;
      sliderValue := InitialSliderValue;
      paused := false;
    }

    /** `pause_play`: flip the pause flag and nothing else; flipping twice
        restores it. */
    method PausePlay()
      modifies this`paused
      ensures paused == !old(paused)
    {
      paused := !paused;
    }

    /** `compute_single_interaction`: clear every force, resolve every pair
        i < j in lexicographic order through the law, then integrate and
        collide each particle in index order. The array ends up holding
        `Step` of what it held. */
    method ComputeSingleInteraction(sqrt: real -> real, dt: real)
      requires ExactSqrt(sqrt)
      modifies particles
      ensures particles[..] == Step(law, container, sqrt, dt, old(particles[..]))
    {
      var active := BuildInteractionLaw(law);
      ResetForces();
      ResolveAllPairs(active, sqrt);
      AdvanceAll(sqrt, dt);
    }

    /** The first loop: `particle.reset_force()` for every particle. */
    method ResetForces()
      modifies particles
      ensures particles[..] == Stepper.ResetForces(old(particles[..]))
    {
      var k := 0;
      while k < particles.Length
        invariant 0 <= k <= particles.Length
        invariant forall m :: 0 <= m < k ==> particles[m] == old(particles[m]).(force := Zero)
        invariant forall m :: k <= m < particles.Length ==> particles[m] == old(particles[m])
      {
        var p := ResetForce(particles[k]);
        particles[k] := p;
        k := k + 1;
      }
    }

    /** The nested loop: every pair i < j, in lexicographic order, resolved in
        place through the law. */
    method ResolveAllPairs(active: InteractionLaw, sqrt: real -> real)
      requires ValidLaw(active) && ExactSqrt(sqrt)
      modifies particles
      ensures particles[..] == ApplyPairs(active, sqrt, old(particles[..]), Pairs(particles.Length))
    {
      ghost var start := particles[..];
      var n := particles.Length;
      var i := 0;
      while i < n
        invariant 0 <= i <= n
        invariant particles[..] == ApplyPairs(active, sqrt, start, PairsUpTo(i, n))
      {
        ResolveRow(active, sqrt, i, PairsUpTo(i, n), start);
        assert PairsUpTo(i + 1, n) == PairsUpTo(i, n) + Row(i, i + 1, n);
        i := i + 1;
      }
    }

    /** The inner loop for one `i`: the pairs (i, j) for j from i + 1 up. */
    method ResolveRow(active: InteractionLaw, sqrt: real -> real, i: nat,
                      ghost done: seq<(nat, nat)>, ghost start: seq<Particle>)
      requires ValidLaw(active) && ExactSqrt(sqrt) && i < particles.Length
      requires particles[..] == ApplyPairs(active, sqrt, start, done)
      modifies particles
      ensures particles[..] == ApplyPairs(active, sqrt, start, done + Row(i, i + 1, particles.Length))
    {
      var n := particles.Length;
      var j := i + 1;
      assert done + Row(i, i + 1, j) == done;
      while j < n
        invariant i + 1 <= j <= n
        invariant particles[..] == ApplyPairs(active, sqrt, start, done + Row(i, i + 1, j))
      {
        ResolvePairInPlace(active, sqrt, i, j, done + Row(i, i + 1, j), start);
        ExtendRow(done, i, j);
        j := j + 1;
      }
    }

    /** The last loop: `particle.update(dt)` then `container.collision(particle)`
        for each particle in index order. */
    method AdvanceAll(sqrt: real -> real, dt: real)
      modifies particles
      ensures particles[..] == Stepper.AdvanceAll(container, sqrt, dt, old(particles[..]))
    {
      var k := 0;
      while k < particles.Length
        invariant 0 <= k <= particles.Length
        invariant forall m :: 0 <= m < k ==> particles[m] == Advance(container, sqrt, dt, old(particles[m]))
        invariant forall m :: k <= m < particles.Length ==> particles[m] == old(particles[m])
      {
        var p := Update(particles[k], dt);
        p := Collision(container, sqrt, p);
        particles[k] := p;
        k := k + 1;
      }
    }

    /** One pass of the inner loop: `law.resolve(&mut left[i], &mut right[0])`
        on the two array cells, extending the pairs done by (i, j). */
    method ResolvePairInPlace(active: InteractionLaw, sqrt: real -> real, i: nat, j: nat,
                              ghost done: seq<(nat, nat)>, ghost start: seq<Particle>)
      requires ValidLaw(active) && ExactSqrt(sqrt) && i < j < particles.Length
      requires particles[..] == ApplyPairs(active, sqrt, start, done)
      modifies particles
      ensures particles[..] == ApplyPairs(active, sqrt, start, done + [(i, j)])
    {
      ResolvableWhenExact(active, sqrt, particles[..], (i, j));
      ApplyPairsSnoc(active, sqrt, start, done, (i, j));
      var applied, q1, q2 := ResolvePair(active, sqrt, particles[i], particles[j]);
      particles[i] := q1;
      particles[j] := q2;
    }

    /** `update_state`: the frame's time divided by 20, and that many steps of
        that length. The number of particles and every radius are kept. */
    method UpdateState(sqrt: real -> real, frameDt: real)
      requires ExactSqrt(sqrt)
      modifies particles
      ensures particles[..] == Steps(SubSteps, law, container, sqrt, SubStepLength(frameDt), old(particles[..]))
      ensures Radii(particles[..]) == Radii(old(particles[..]))
    {
      var newDt := SubStepLength(frameDt);
      var i := 0;
      while i < 20
        invariant 0 <= i <= 20
        invariant particles[..] == Steps(i, law, container, sqrt, newDt, old(particles[..]))
        invariant Radii(particles[..]) == Radii(old(particles[..]))
      {
        StepsUnfold(i + 1, law, container, sqrt, newDt, old(particles[..]));
        StepKeepsRadii(law, container, sqrt, newDt, particles[..]);
        ComputeSingleInteraction(sqrt, newDt);
        i := i + 1;
      }
    }

    /** `average_kinetic_energy`: the kinetic energies added up front to back
        and divided by the number of particles. With no particles the source
        divides zero by zero; the model reports no value. */
    method AverageKineticEnergy() returns (avg: Option<real>)
      ensures particles.Length == 0 <==> avg == None
      ensures avg.Some? ==> avg.value == KineticEnergySum(particles[..]) / particles.Length as real
      ensures avg.Some? ==> avg.value >= 0.0
    {
      var total := particles.Length as real;
      var totalKe := 0.0;
      var k := 0;
      while k < particles.Length
        invariant 0 <= k <= particles.Length
        invariant totalKe == KineticEnergySum(particles[..k])
      {
        assert particles[..k + 1][..k] == particles[..k];
        totalKe := totalKe + KineticEnergy(particles[k]);
        k := k + 1;
      }
      assert particles[..k] == particles[..];
      if particles.Length == 0 {
        return None;
      }
      KineticEnergySumSign(particles[..]);
      DivNonNegative(totalKe, total);
      avg := Some(totalKe / total);
    }
  }
}
