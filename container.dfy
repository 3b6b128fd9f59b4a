/** The box around the gas: four walls that clamp and reflect a particle, and
    the demon's gate on the vertical midline, which reflects a particle or lets
    it through depending on its direction and speed. */
module Container {

  import opened Utils
  import opened Particles

  /** The four wall coordinates: `x` the left wall, `y` the ceiling, `z` the
      ground and `w` the right wall (screen y grows downwards). */
  datatype Boundaries = Boundaries(x: real, y: real, z: real, w: real)

  datatype ParticleContainer = ParticleContainer(boundaries: Boundaries, demonLooking: bool)

  /** `ParticleContainer::new`: the given walls, with the demon not looking. */
  function NewContainer(b: Boundaries): (c: ParticleContainer)
    ensures c.boundaries == b && !c.demonLooking
  {
    ParticleContainer(b, false)
  }

  /** The gate's coordinate: half the distance between the side walls. */
  function Middle(c: ParticleContainer): real {
    (c.boundaries.w - c.boundaries.x) / 2.0
  }

  // ------------------------------------------------------------ the walls

  predicate HitsLeft(c: ParticleContainer, p: Particle) {
    p.radius >= Abs(c.boundaries.x - p.position.x)
  }

  predicate HitsRight(c: ParticleContainer, p: Particle) {
    p.radius >= Abs(c.boundaries.w - p.position.x)
  }

  predicate HitsCeiling(c: ParticleContainer, p: Particle) {
    p.radius >= Abs(c.boundaries.y - p.position.y)
  }

  predicate HitsGround(c: ParticleContainer, p: Particle) {
    p.radius >= Abs(c.boundaries.z - p.position.y)
  }

  /** A particle touching the left wall is put at x = radius and its horizontal
      velocity is reversed. */
  function LeftWall(c: ParticleContainer, p: Particle): Particle {
    if HitsLeft(c, p) then
      p.(position := p.position.(x := p.radius), velocity := p.velocity.(x := -p.velocity.x))
    else p
  }

  /** A particle touching the right wall is put at x = w − radius. */
  function RightWall(c: ParticleContainer, p: Particle): Particle {
    if HitsRight(c, p) then
      p.(position := p.position.(x := c.boundaries.w - p.radius), velocity := p.velocity.(x := -p.velocity.x))
    else p
  }

  /** A particle touching the ceiling is put at y = radius and its vertical
      velocity is reversed. */
  function Ceiling(c: ParticleContainer, p: Particle): Particle {
    if HitsCeiling(c, p) then
      p.(position := p.position.(y := p.radius), velocity := p.velocity.(y := -p.velocity.y))
    else p
  }

  /** A particle touching the ground is put at y = z − radius. */
  function Ground(c: ParticleContainer, p: Particle): Particle {
    if HitsGround(c, p) then
      p.(position := p.position.(y := c.boundaries.z - p.radius), velocity := p.velocity.(y := -p.velocity.y))
    else p
  }

  /** The four walls in the order the source tests them; each sees the
      position the previous one left. */
  function Walls(c: ParticleContainer, p: Particle): Particle {
    Ground(c, Ceiling(c, RightWall(c, LeftWall(c, p))))
  }

  // ------------------------------------------------------------ the gate

  /** What the gate does to a particle. */
  datatype GateOutcome =
    | Idle              // the demon is not looking, or the particle is away from the midline
    | BlockedLeftward   // moving left (or not at all) and slower than 140: pushed back right
    | BlockedRightward  // moving right (or not at all) and faster than 10: pushed back left
    | Passed            // at the midline, but allowed through

  const SlowLimit: real := 140.0
  const FastLimit: real := 10.0

  predicate AtGate(c: ParticleContainer, p: Particle) {
    p.radius >= Abs(Middle(c) - p.position.x)
  }

  /** The gate's decision, in the source's branch order. */
  function GateDecision(c: ParticleContainer, sqrt: real -> real, p: Particle): GateOutcome {
    if !(AtGate(c, p) && c.demonLooking) then Idle
    else if p.velocity.x <= 0.0 && Speed(sqrt, p) < SlowLimit then BlockedLeftward
    else if p.velocity.x >= 0.0 && Speed(sqrt, p) > FastLimit then BlockedRightward
    else Passed
  }

  function Gate(c: ParticleContainer, sqrt: real -> real, p: Particle): Particle {
    match GateDecision(c, sqrt, p)
    case BlockedLeftward =>
      p.(position := p.position.(x := p.position.x + p.radius), velocity := p.velocity.(x := -p.velocity.x))
    case BlockedRightward =>
      p.(position := p.position.(x := p.position.x - p.radius), velocity := p.velocity.(x := -p.velocity.x))
    case _ => p
  }

  /** What `collision` leaves: the four walls, then the gate. */
  function Collided(c: ParticleContainer, sqrt: real -> real, p: Particle): Particle {
    Gate(c, sqrt, Walls(c, p))
  }

  /** `ParticleContainer::collision`: five tests in sequence, each overwriting
      the particle's position and velocity. */
  method Collision(c: ParticleContainer, sqrt: real -> real, p: Particle) returns (q: Particle)
    ensures q == Collided(c, sqrt, p)
  {
    var middle := (c.boundaries.w - c.boundaries.x) / 2.0;
    q := p;
    if q.radius >= Abs(c.boundaries.x - q.position.x) {
      q := q.(position := q.position.(x := q.radius));
      q := q.(velocity := q.velocity.(x := q.velocity.x * -1.0));
    }
    ghost var l := LeftWall(c, p);
    assert q == l;
    if q.radius >= Abs(c.boundaries.w - q.position.x) {
      q := q.(position := q.position.(x := c.boundaries.w - q.radius));
      q := q.(velocity := q.velocity.(x := q.velocity.x * -1.0));
    }
    ghost var r := RightWall(c, l);
    assert q == r;
    if q.radius >= Abs(c.boundaries.y - q.position.y) {
      q := q.(position := q.position.(y := q.radius));
      q := q.(velocity := q.velocity.(y := q.velocity.y * -1.0));
    }
    ghost var t := Ceiling(c, r);
    assert q == t;
    if q.radius >= Abs(c.boundaries.z - q.position.y) {
      q := q.(position := q.position.(y := c.boundaries.z - q.radius));
      q := q.(velocity := q.velocity.(y := q.velocity.y * -1.0));
    }
    assert q == Ground(c, t);
    q := GateCollision(c, sqrt, middle, q);
  }

  /** The last of the five tests: the demon's gate, on the particle the walls
      left behind. */
  method GateCollision(c: ParticleContainer, sqrt: real -> real, middle: real, p: Particle) returns (q: Particle)
    requires middle == Middle(c)
    ensures q == Gate(c, sqrt, p)
  {
    q := p;
    if q.radius >= Abs(middle - q.position.x) && c.demonLooking {
      var sq := q.velocity.x * q.velocity.x + q.velocity.y * q.velocity.y;
      assert sq == SpeedSq(p);
      var speed := sqrt(sq);
      assert speed == Speed(sqrt, p);
      if q.velocity.x <= 0.0 && speed < 140.0 {
        q := q.(position := q.position.(x := q.position.x + q.radius));
        q := q.(velocity := q.velocity.(x := q.velocity.x * -1.0));
      } else if q.velocity.x >= 0.0 && speed > 10.0 {
        q := q.(position := q.position.(x := q.position.x - q.radius));
        q := q.(velocity := q.velocity.(x := q.velocity.x * -1.0));
      }
    }
  }

  // ------------------------------------------------------------ lemmas

  lemma NegationKeepsSquare(a: real)
    ensures (-a) * (-a) == a * a
  {
  }

  /** A wall hit sets the clamped coordinate and reverses exactly the
      perpendicular velocity component; the parallel one is kept. */
  lemma WallsReflect(c: ParticleContainer, p: Particle)
    ensures HitsLeft(c, p) ==>
              LeftWall(c, p).position == Vec2(p.radius, p.position.y) &&
              LeftWall(c, p).velocity == Vec2(-p.velocity.x, p.velocity.y)
    ensures HitsRight(c, p) ==>
              RightWall(c, p).position == Vec2(c.boundaries.w - p.radius, p.position.y) &&
              RightWall(c, p).velocity == Vec2(-p.velocity.x, p.velocity.y)
    ensures HitsCeiling(c, p) ==>
              Ceiling(c, p).position == Vec2(p.position.x, p.radius) &&
              Ceiling(c, p).velocity == Vec2(p.velocity.x, -p.velocity.y)
    ensures HitsGround(c, p) ==>
              Ground(c, p).position == Vec2(p.position.x, c.boundaries.z - p.radius) &&
              Ground(c, p).velocity == Vec2(p.velocity.x, -p.velocity.y)
  {
  }

  /** Each wall and the gate keep the squared speed, the force and the radius. */
  lemma StagesKeepSpeedForceRadius(c: ParticleContainer, sqrt: real -> real, p: Particle)
    ensures var l := LeftWall(c, p); SpeedSq(l) == SpeedSq(p) && l.force == p.force && l.radius == p.radius
    ensures var r := RightWall(c, p); SpeedSq(r) == SpeedSq(p) && r.force == p.force && r.radius == p.radius
    ensures var t := Ceiling(c, p); SpeedSq(t) == SpeedSq(p) && t.force == p.force && t.radius == p.radius
    ensures var g := Ground(c, p); SpeedSq(g) == SpeedSq(p) && g.force == p.force && g.radius == p.radius
    ensures var d := Gate(c, sqrt, p); SpeedSq(d) == SpeedSq(p) && d.force == p.force && d.radius == p.radius
  {
    NegationKeepsSquare(p.velocity.x);
    NegationKeepsSquare(p.velocity.y);
  }

  /** No wall and no gate changes the squared speed, the force or the radius. */
  lemma CollidedKeepsSpeedForceRadius(c: ParticleContainer, sqrt: real -> real, p: Particle)
    ensures SpeedSq(Collided(c, sqrt, p)) == SpeedSq(p)
    ensures Collided(c, sqrt, p).force == p.force && Collided(c, sqrt, p).radius == p.radius
  {
    var l := LeftWall(c, p);
    var r := RightWall(c, l);
    var t := Ceiling(c, r);
    var g := Ground(c, t);
    StagesKeepSpeedForceRadius(c, sqrt, p);
    StagesKeepSpeedForceRadius(c, sqrt, l);
    StagesKeepSpeedForceRadius(c, sqrt, r);
    StagesKeepSpeedForceRadius(c, sqrt, t);
    StagesKeepSpeedForceRadius(c, sqrt, g);
  }

  /** With the left wall and the ceiling at 0, as the simulation builds its box,
      a particle that hits a wall is left exactly one radius away from it. */
  lemma ClampsAreFlush(c: ParticleContainer, p: Particle)
    requires c.boundaries.x == 0.0 && c.boundaries.y == 0.0
    ensures HitsLeft(c, p) ==> LeftWall(c, p).position.x - c.boundaries.x == p.radius
    ensures HitsRight(c, p) ==> c.boundaries.w - RightWall(c, p).position.x == p.radius
    ensures HitsCeiling(c, p) ==> Ceiling(c, p).position.y - c.boundaries.y == p.radius
    ensures HitsGround(c, p) ==> c.boundaries.z - Ground(c, p).position.y == p.radius
  {
  }

  /** The left wall clamps to `radius`, not to `x_min + radius`, and the
      ceiling to `radius`, not to `y_min + radius`: with that wall elsewhere
      than 0 the clamped particle is not flush with it. */
  lemma NearClampsIgnoreWallPosition(c: ParticleContainer, p: Particle)
    ensures HitsLeft(c, p) && c.boundaries.x != 0.0 ==> LeftWall(c, p).position.x - c.boundaries.x != p.radius
    ensures HitsCeiling(c, p) && c.boundaries.y != 0.0 ==> Ceiling(c, p).position.y - c.boundaries.y != p.radius
  {
  }

  /** Detection uses the absolute distance, so a particle more than a radius
      beyond a wall is not reflected by it. */
  lemma FarBeyondWallsIgnored(c: ParticleContainer, p: Particle)
    ensures p.position.x < c.boundaries.x - p.radius ==> LeftWall(c, p) == p
    ensures p.position.x > c.boundaries.w + p.radius ==> RightWall(c, p) == p
    ensures p.position.y < c.boundaries.y - p.radius ==> Ceiling(c, p) == p
    ensures p.position.y > c.boundaries.z + p.radius ==> Ground(c, p) == p
  {
  }

  /** The gate does nothing while the demon is not looking
      or the particle is away from the midline. */
  lemma GateIdle(c: ParticleContainer, sqrt: real -> real, p: Particle)
    ensures GateDecision(c, sqrt, p) == Idle <==> !c.demonLooking || !AtGate(c, p)
    ensures !c.demonLooking ==> Collided(c, sqrt, p) == Walls(c, p)
  {
  }

  /** A freshly built container never gates: collision is just the four walls. */
  lemma NewContainerNeverGates(b: Boundaries, sqrt: real -> real, p: Particle)
    ensures Collided(NewContainer(b), sqrt, p) == Walls(NewContainer(b), p)
  {
  }

  /** At the midline with the demon looking, a particle passes exactly when it
      moves left at speed 140 or more, or right at speed 10 or less. */
  lemma GatePassesIff(c: ParticleContainer, sqrt: real -> real, p: Particle)
    requires c.demonLooking && AtGate(c, p)
    ensures GateDecision(c, sqrt, p) == Passed <==>
              (p.velocity.x < 0.0 && Speed(sqrt, p) >= SlowLimit) ||
              (p.velocity.x > 0.0 && Speed(sqrt, p) <= FastLimit)
    ensures GateDecision(c, sqrt, p) == Passed ==> Gate(c, sqrt, p) == p
  {
  }

  /** A particle at rest horizontally is never let through. */
  lemma GateReflectsVerticalMotion(c: ParticleContainer, sqrt: real -> real, p: Particle)
    requires c.demonLooking && AtGate(c, p) && p.velocity.x == 0.0
    ensures GateDecision(c, sqrt, p) == BlockedLeftward || GateDecision(c, sqrt, p) == BlockedRightward
  {
  }

  /** A blocked particle is pushed back by its radius against its motion, with
      its horizontal velocity reversed. */
  lemma GateBlockedMoves(c: ParticleContainer, sqrt: real -> real, p: Particle)
    ensures GateDecision(c, sqrt, p) == BlockedLeftward ==>
              Gate(c, sqrt, p).position == Vec2(p.position.x + p.radius, p.position.y) &&
              Gate(c, sqrt, p).velocity == Vec2(-p.velocity.x, p.velocity.y) &&
              p.velocity.x <= 0.0
    ensures GateDecision(c, sqrt, p) == BlockedRightward ==>
              Gate(c, sqrt, p).position == Vec2(p.position.x - p.radius, p.position.y) &&
              Gate(c, sqrt, p).velocity == Vec2(-p.velocity.x, p.velocity.y) &&
              p.velocity.x >= 0.0
  {
  }

  /** With an exact root, the gate's speed tests are tests on the squared speed. */
  lemma GateBySquares(sqrt: real -> real, p: Particle)
    requires IsRoot(sqrt, SpeedSq(p))
    ensures Speed(sqrt, p) < SlowLimit <==> SpeedSq(p) < SlowLimit * SlowLimit
    ensures Speed(sqrt, p) > FastLimit <==> SpeedSq(p) > FastLimit * FastLimit
  {
    RootComparison(SpeedSq(p), Speed(sqrt, p), SlowLimit);
    RootComparison(SpeedSq(p), Speed(sqrt, p), FastLimit);
  }

  /** The box the simulation builds for an 800 by 600 window, with the demon looking. */
  const DemoBox: ParticleContainer := ParticleContainer(Boundaries(0.0, 0.0, 600.0, 800.0), true)

  /** Half a unit inside the left wall and moving left at 3: put at x = 5 and
      sent right at 3, with nothing else changed. */
  lemma LeftWallBounce(sqrt: real -> real, p: Particle)
    requires p == Particle(Vec2(4.5, 300.0), Vec2(-3.0, 0.0), Zero, 5.0)
    ensures Collided(DemoBox, sqrt, p) == p.(position := Vec2(5.0, 300.0), velocity := Vec2(3.0, 0.0))
  {
    assert HitsLeft(DemoBox, p);
    var l := LeftWall(DemoBox, p);
    assert l == p.(position := Vec2(5.0, 300.0), velocity := Vec2(3.0, 0.0));
    assert Walls(DemoBox, p) == l;
    assert !AtGate(DemoBox, l);
  }

  /** On the midline and moving left at speed 150, a particle passes unchanged. */
  lemma FastLeftwardPasses(sqrt: real -> real, p: Particle)
    requires sqrt(22500.0) == 150.0
    requires p == Particle(Vec2(400.0, 300.0), Vec2(-150.0, 0.0), Zero, 5.0)
    ensures Collided(DemoBox, sqrt, p) == p
  {
    assert Walls(DemoBox, p) == p;
    assert SpeedSq(p) == 22500.0;
    assert GateDecision(DemoBox, sqrt, p) == Passed;
  }

  /** Moving right at speed 5 it passes; at speed 50 it is pushed back left by its
      radius with its horizontal velocity reversed. */
  lemma RightwardByGateSpeed(sqrt: real -> real, slow: Particle, fast: Particle)
    requires sqrt(25.0) == 5.0 && sqrt(2500.0) == 50.0
    requires slow == Particle(Vec2(400.0, 300.0), Vec2(5.0, 0.0), Zero, 5.0)
    requires fast == Particle(Vec2(400.0, 300.0), Vec2(50.0, 0.0), Zero, 5.0)
    ensures Collided(DemoBox, sqrt, slow) == slow
    ensures Collided(DemoBox, sqrt, fast) == fast.(position := Vec2(395.0, 300.0), velocity := Vec2(-50.0, 0.0))
  {
    assert Walls(DemoBox, slow) == slow;
    assert SpeedSq(slow) == 25.0;
    assert GateDecision(DemoBox, sqrt, slow) == Passed;
    assert Walls(DemoBox, fast) == fast;
    assert SpeedSq(fast) == 2500.0;
    assert GateDecision(DemoBox, sqrt, fast) == BlockedRightward;
  }
}
