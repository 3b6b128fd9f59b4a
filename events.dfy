/** What the window's event handlers do to the simulation state, without the
    drawing: the paused frame update, the two-region temperature read-out of
    the sidebar, the slider and gate clicks, and the keys. The frame's time and
    whether a click falls inside the slider are given by the window. */
module Events {

  import opened Utils
  import opened Particles
  import opened Container
  import opened Stepper
  import opened State

  /** The sidebar drawn right of the simulation region. */
  const SidebarWidth: real := 150.0

  /** The slider's left edge is this far into the sidebar, and it is narrower
      than the sidebar by twice that. */
  const SliderInset: real := 10.0

  const SliderWidth: real := SidebarWidth - 2.0 * SliderInset

  datatype MouseButton = Left | Right | Middle | OtherButton(code: nat)

  datatype KeyCode = Space | ArrowRight | OtherKey(code: nat)

  /** `update`: nothing while paused, otherwise a whole frame of sub-steps. */
  method Update(s: MainState, sqrt: real -> real, frameDt: real)
    requires ExactSqrt(sqrt)
    modifies s.particles
    ensures s.paused ==> s.particles[..] == old(s.particles[..])
    ensures !s.paused ==>
              s.particles[..] == Steps(SubSteps, s.law, s.container, sqrt, SubStepLength(frameDt), old(s.particles[..]))
  {
    if s.paused {
      return;
    }
    s.UpdateState(sqrt, frameDt);
  }

  // ------------------------------------------------------------ temperature

  /** Where the sidebar read-out splits the particles: half the width of the
      simulation region, which excludes the sidebar. */
  function SplitX(c: ParticleContainer): real {
    (c.boundaries.w - SidebarWidth) / 2.0
  }

  /** The particles of one region, in order: left of the split, or not. */
  function Region(ps: seq<Particle>, split: real, left: bool): (rs: seq<Particle>)
    ensures |rs| <= |ps|
    ensures forall p :: p in rs <==> p in ps && (p.position.x < split) == left
    decreases |ps|
  {
    if ps == [] then []
    else
      var init := Region(ps[..|ps| - 1], split, left);
      var last := ps[|ps| - 1];
      assert forall p :: p in ps <==> p in ps[..|ps| - 1] || p == last;
      if (last.position.x < split) == left then init + [last] else init
  }

  /** Taking one more particle of the collection adds it to the end of its
      own region and leaves the other region as it was. */
  lemma RegionExtend(ps: seq<Particle>, k: nat, split: real)
    requires k < |ps|
    ensures Region(ps[..k + 1], split, ps[k].position.x < split) == Region(ps[..k], split, ps[k].position.x < split) + [ps[k]]
    ensures Region(ps[..k + 1], split, !(ps[k].position.x < split)) == Region(ps[..k], split, !(ps[k].position.x < split))
    ensures KineticEnergySum(Region(ps[..k], split, ps[k].position.x < split) + [ps[k]])
            == KineticEnergySum(Region(ps[..k], split, ps[k].position.x < split)) + KineticEnergy(ps[k])
  {
    var pre := ps[..k + 1];
    assert pre[..|pre| - 1] == ps[..k];
    var r := Region(ps[..k], split, ps[k].position.x < split) + [ps[k]];
    assert r[..|r| - 1] == Region(ps[..k], split, ps[k].position.x < split);
  }

  /** Each particle falls in exactly one region: together the two regions
      hold the collection, multiplicities included. */
  lemma {:induction false} RegionsPartition(ps: seq<Particle>, split: real)
    ensures multiset(Region(ps, split, true)) + multiset(Region(ps, split, false)) == multiset(ps)
    ensures |Region(ps, split, true)| + |Region(ps, split, false)| == |ps|
    decreases |ps|
  {
    if ps != [] {
      var init := ps[..|ps| - 1];
      RegionsPartition(init, split);
      assert ps == init + [ps[|ps| - 1]];
    }
  }

  /** A region's temperature: its mean kinetic energy, 0 when it is empty. */
  function Temperature(ps: seq<Particle>): (t: real)
    ensures t >= 0.0
    ensures ps == [] ==> t == 0.0
  {
    KineticEnergySumSign(ps);
    if |ps| > 0 then
      DivNonNegative(KineticEnergySum(ps), |ps| as real);
      KineticEnergySum(ps) / |ps| as real
    else 0.0
  }

  /** The loop of `draw` that sums kinetic energies and counts particles on
      each side of the split, then divides each sum by its count (0 for an
      empty side). */
  method Temperatures(s: MainState) returns (leftTemp: real, rightTemp: real)
    ensures leftTemp == Temperature(Region(s.particles[..], SplitX(s.container), true))
    ensures rightTemp == Temperature(Region(s.particles[..], SplitX(s.container), false))
    ensures leftTemp >= 0.0 && rightTemp >= 0.0
  {
    var ps := s.particles;
    var middleX := (s.container.boundaries.w - SidebarWidth) / 2.0;
    assert middleX == SplitX(s.container);
    var leftSum, leftCount, rightSum, rightCount := 0.0, 0, 0.0, 0;
    var k := 0;
    while k < ps.Length
      invariant 0 <= k <= ps.Length
      invariant leftSum == KineticEnergySum(Region(ps[..k], middleX, true)) && leftCount == |Region(ps[..k], middleX, true)|
      invariant rightSum == KineticEnergySum(Region(ps[..k], middleX, false)) && rightCount == |Region(ps[..k], middleX, false)|
    {
      var p := ps[k];
      RegionExtend(ps[..], k, middleX);
      // `draw` writes out 0.5·(vx² + vy²), which is the particle's kinetic energy.
      var ke := KineticEnergy(p);
      if p.position.x < middleX {
        leftSum := leftSum + ke;
        leftCount := leftCount + 1;
      } else {
        rightSum := rightSum + ke;
        rightCount := rightCount + 1;
      }
      k := k + 1;
    }
    assert ps[..k] == ps[..];
    leftTemp := if leftCount > 0 then leftSum / leftCount as real else 0.0;
    rightTemp := if rightCount > 0 then rightSum / rightCount as real else 0.0;
  }

  /** The sidebar's split is not the gate's midline (w − x)/2: the two agree
      only when the left wall is at 150. */
  lemma SplitIsNotGate(c: ParticleContainer)
    ensures SplitX(c) == Container.Middle(c) <==> c.boundaries.x == SidebarWidth
  {
  }

  // ------------------------------------------------------------ mouse and keys

  /** `f32::clamp`: below the range gives its low end, above gives its high end. */
  function Clamp(x: real, lo: real, hi: real): (r: real)
    requires lo <= hi
    ensures lo <= r <= hi
    ensures lo <= x <= hi ==> r == x
    ensures x < lo ==> r == lo
    ensures x > hi ==> r == hi
  {
    if x < lo then lo else if x > hi then hi else x
  }

  /** The slider's left edge: ten units into the sidebar. */
  function SliderX(c: ParticleContainer): real {
    c.boundaries.w - SidebarWidth + SliderInset
  }

  /** The slider reading for a click at `x`: the fraction of the slider's
      width, as a percentage, kept within 0..100. */
  function SliderReading(c: ParticleContainer, x: real): (v: real)
    ensures 0.0 <= v <= 100.0
  {
    Clamp((x - SliderX(c)) / SliderWidth * 100.0, 0.0, 100.0)
  }

  /** The left end of the slider reads 0 and the right end reads 100. */
  lemma SliderEnds(c: ParticleContainer)
    ensures SliderReading(c, SliderX(c)) == 0.0
    ensures SliderReading(c, SliderX(c) + SliderWidth) == 100.0
  {
  }

  /** `mouse_button_down_event`: a click inside the slider sets the slider and
      nothing else; outside it, the left button sends the demon away and the
      right button calls it, any other button does nothing. */
  method MouseButtonDown(s: MainState, button: MouseButton, x: real, insideSlider: bool)
    modifies s`sliderValue, s`container
    ensures insideSlider ==> s.sliderValue == SliderReading(old(s.container), x) && s.container == old(s.container)
    ensures !insideSlider ==> s.sliderValue == old(s.sliderValue) && s.container.boundaries == old(s.container.boundaries)
    ensures !insideSlider && button == Left ==> !s.container.demonLooking
    ensures !insideSlider && button == Right ==> s.container.demonLooking
    ensures !insideSlider && !button.Left? && !button.Right? ==> s.container == old(s.container)
  {
    var sliderX := s.container.boundaries.w - SidebarWidth + SliderInset;
    var sliderWidth := SidebarWidth - 2.0 * SliderInset;
    if insideSlider {
      s.sliderValue := Clamp((x - sliderX) / sliderWidth * 100.0, 0.0, 100.0);
    } else {
      if button == Left {
        s.container := s.container.(demonLooking := false);
      } else if button == Right {
        s.container := s.container.(demonLooking := true);
      }
    }
  }

  /** `key_down_event`: space pauses or resumes, the right arrow runs a whole
      frame of sub-steps whether paused or not, other keys do nothing. */
  method KeyDown(s: MainState, key: KeyCode, sqrt: real -> real, frameDt: real)
    requires ExactSqrt(sqrt)
    modifies s`paused, s.particles
    ensures key == Space ==> s.paused == !old(s.paused) && s.particles[..] == old(s.particles[..])
    ensures key == ArrowRight ==>
              s.paused == old(s.paused) &&
              s.particles[..] == Steps(SubSteps, s.law, s.container, sqrt, SubStepLength(frameDt), old(s.particles[..]))
    ensures key.OtherKey? ==> s.paused == old(s.paused) && s.particles[..] == old(s.particles[..])
  {
    match key
    case Space => s.PausePlay();
    case ArrowRight => s.UpdateState(sqrt, frameDt);
    case OtherKey(_) =>
  }
}
