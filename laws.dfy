/** The two pairwise interaction laws. Each resolves a pair of particles in
    place and reports whether it applied: a softened, cut-off Coulomb force
    that accumulates equal and opposite forces, and an equal-mass impulse
    collision that exchanges the normal velocity components and pushes the
    pair apart. `sqrt` is the platform square root, taken as a parameter. */
module Laws {

  import opened Utils
  import opened Particles

  /** The charge both particles carry; the Coulomb law hard-codes it. */
  const Charge: real := 0.001234

  datatype CoulombLaw = CoulombLaw(k: real, softening: real, cutoff: real)

  /** The three parameters are stored but never read by the impulse law. */
  datatype ImpulseCollision = ImpulseCollision(restitution: real, correctionFactor: real, penetrationSlop: real)

  /** A built law: the boxed trait object, one variant per implementation. */
  datatype InteractionLaw = Coulomb(coulomb: CoulombLaw) | Impulse(impulse: ImpulseCollision)

  /** The tag the simulation state stores and rebuilds a law from. */
  datatype InteractionLawType = CoulombLawType | ImpulseCollisionType

  /** The boolean `resolve` returns, and the two particles it leaves behind. */
  datatype Resolution = Resolution(applied: bool, first: Particle, second: Particle)

  function Kind(law: InteractionLaw): InteractionLawType {
    match law
    case Coulomb(_) => CoulombLawType
    case Impulse(_) => ImpulseCollisionType
  }

  /** A positive Coulomb constant, a non-zero softening and a non-negative cutoff. */
  predicate ValidLaw(law: InteractionLaw) {
    match law
    case Coulomb(c) => c.k > 0.0 && c.softening != 0.0 && c.cutoff >= 0.0
    case Impulse(_) => true
  }

  /** `build_interaction_law`: fixed parameters for each kind of law. */
  function BuildInteractionLaw(kind: InteractionLawType): (law: InteractionLaw)
    ensures Kind(law) == kind
    ensures ValidLaw(law)
  {
    match kind
    case CoulombLawType => Coulomb(CoulombLaw(8987551792.3, 0.001, 2000.0))
    case ImpulseCollisionType => Impulse(ImpulseCollision(1.0, 0.8, 0.01))
  }

  // ---------------------------------------------------------------- geometry

  /** The vector from the first particle's centre to the second's. */
  function Displacement(p1: Particle, p2: Particle): Vec2 {
    Sub(p2.position, p1.position)
  }

  /** Squared centre distance dx² + dy². */
  function DistSq(p1: Particle, p2: Particle): (r: real)
    ensures r >= 0.0
    ensures r == 0.0 <==> p1.position == p2.position
  {
    var d := Displacement(p1, p2);
    SumOfSquares(d.x, d.y);
    d.x * d.x + d.y * d.y
  }

  // ------------------------------------------------------------ Coulomb law

  /** The squared distance with the softening term added. */
  function SoftenedDistSq(law: CoulombLaw, p1: Particle, p2: Particle): (r: real)
    ensures r >= DistSq(p1, p2)
    ensures law.softening != 0.0 || p1.position != p2.position ==> r > 0.0
  {
    SquareSign(law.softening);
    DistSq(p1, p2) + law.softening * law.softening
  }

  /** The softened distance, through the platform square root. */
  function CoulombDistance(law: CoulombLaw, sqrt: real -> real, p1: Particle, p2: Particle): real {
    sqrt(SoftenedDistSq(law, p1, p2))
  }

  /** The denominator of the magnitude: the softened squared distance, raised to
      a tenth of the first particle's radius when it is smaller. */
  function FlooredDistSq(law: CoulombLaw, p1: Particle, p2: Particle): (r: real)
    ensures r >= SoftenedDistSq(law, p1, p2) && r >= p1.radius * 0.1
    ensures r == SoftenedDistSq(law, p1, p2) || r == p1.radius * 0.1
  {
    var dsq := SoftenedDistSq(law, p1, p2);
    if dsq < p1.radius * 0.1 then p1.radius * 0.1 else dsq
  }

  /** The law divides only by non-zero numbers: the pair is beyond the cutoff,
      or both the distance and the floored squared distance are non-zero. */
  predicate CoulombDefined(law: CoulombLaw, sqrt: real -> real, p1: Particle, p2: Particle) {
    CoulombDistance(law, sqrt, p1, p2) > law.cutoff
    || (CoulombDistance(law, sqrt, p1, p2) != 0.0 && FlooredDistSq(law, p1, p2) != 0.0)
  }

  /** k·q1·q2 over the floored squared distance. */
  function CoulombMagnitude(law: CoulombLaw, p1: Particle, p2: Particle): real
    requires FlooredDistSq(law, p1, p2) != 0.0
  {
    law.k * (Charge * Charge) / FlooredDistSq(law, p1, p2)
  }

  /** The force added to the second particle and taken from the first: the
      magnitude times the displacement over the (unfloored) distance. */
  function CoulombPush(law: CoulombLaw, sqrt: real -> real, p1: Particle, p2: Particle): Vec2
    requires CoulombDistance(law, sqrt, p1, p2) != 0.0 && FlooredDistSq(law, p1, p2) != 0.0
  {
    var d := Displacement(p1, p2);
    var m := CoulombMagnitude(law, p1, p2);
    var dist := CoulombDistance(law, sqrt, p1, p2);
    Vec2(m * d.x / dist, m * d.y / dist)
  }

  /** What `CoulombLaw::resolve` leaves behind. It always reports true and only
      ever touches the two forces, by equal and opposite amounts. */
  function CoulombResolve(law: CoulombLaw, sqrt: real -> real, p1: Particle, p2: Particle): (r: Resolution)
    requires CoulombDefined(law, sqrt, p1, p2)
    ensures r.applied
    ensures r.first.position == p1.position && r.first.velocity == p1.velocity && r.first.radius == p1.radius
    ensures r.second.position == p2.position && r.second.velocity == p2.velocity && r.second.radius == p2.radius
    ensures Add(r.first.force, r.second.force) == Add(p1.force, p2.force)
    ensures CoulombDistance(law, sqrt, p1, p2) > law.cutoff ==> r.first == p1 && r.second == p2
    ensures CoulombDistance(law, sqrt, p1, p2) <= law.cutoff ==>
              Sub(r.second.force, p2.force) == CoulombPush(law, sqrt, p1, p2) &&
              Sub(p1.force, r.first.force) == CoulombPush(law, sqrt, p1, p2)
  {
    if CoulombDistance(law, sqrt, p1, p2) > law.cutoff then
      Resolution(true, p1, p2)
    else
      var push := CoulombPush(law, sqrt, p1, p2);
      Resolution(true, p1.(force := Sub(p1.force, push)), p2.(force := Add(p2.force, push)))
  }

  /** `CoulombLaw::resolve`, step by step on the two records. */
  method ResolveCoulomb(law: CoulombLaw, sqrt: real -> real, p1: Particle, p2: Particle)
    returns (applied: bool, q1: Particle, q2: Particle)
    requires CoulombDefined(law, sqrt, p1, p2)
    ensures Resolution(applied, q1, q2) == CoulombResolve(law, sqrt, p1, p2)
  {
    var p1Charge := Charge;
    var p2Charge := Charge;
    q1, q2 := p1, p2;
    var dx := q2.position.x - q1.position.x;
    var dy := q2.position.y - q1.position.y;
    var distanceSq := dx * dx + dy * dy;
    distanceSq := distanceSq + law.softening * law.softening;
    assert distanceSq == SoftenedDistSq(law, p1, p2);
    var distance := sqrt(distanceSq);
    assert distance == CoulombDistance(law, sqrt, p1, p2);
    if distance > law.cutoff {
      return true, q1, q2;
    }
    if distanceSq < q1.radius * 0.1 {
      distanceSq := q1.radius * 0.1;
    }
    assert distanceSq == FlooredDistSq(law, p1, p2);
    var forceMagnitude := law.k * (p1Charge * p2Charge) / distanceSq;
    assert forceMagnitude == CoulombMagnitude(law, p1, p2);
    var pushX, pushY := forceMagnitude * dx / distance, forceMagnitude * dy / distance;
    assert Vec2(pushX, pushY) == CoulombPush(law, sqrt, p1, p2);
    q1, q2 := ApplyPush(q1, q2, pushX, pushY);
    applied := true;
  }

  /** The four force updates of `CoulombLaw::resolve`: the first particle loses
      the push, the second gains it. */
  method ApplyPush(p1: Particle, p2: Particle, pushX: real, pushY: real) returns (q1: Particle, q2: Particle)
    ensures q1.force == Sub(p1.force, Vec2(pushX, pushY))
    ensures q2.force == Add(p2.force, Vec2(pushX, pushY))
    ensures q1.position == p1.position && q1.velocity == p1.velocity && q1.radius == p1.radius
    ensures q2.position == p2.position && q2.velocity == p2.velocity && q2.radius == p2.radius
  {
    q1, q2 := p1, p2;
    q1 := q1.(force := q1.force.(x := q1.force.x - pushX));
    q1 := q1.(force := q1.force.(y := q1.force.y - pushY));
    q2 := q2.(force := q2.force.(x := q2.force.x + pushX));
    q2 := q2.(force := q2.force.(y := q2.force.y + pushY));
  }

  /** With an exact root and a non-negative cutoff, the cutoff test on the
      distance is the same test on the squared softened distance. */
  lemma CoulombCutoffBySquares(law: CoulombLaw, sqrt: real -> real, p1: Particle, p2: Particle)
    requires IsRoot(sqrt, SoftenedDistSq(law, p1, p2)) && law.cutoff >= 0.0
    ensures CoulombDistance(law, sqrt, p1, p2) > law.cutoff <==>
            SoftenedDistSq(law, p1, p2) > law.cutoff * law.cutoff
  {
    var dsq := SoftenedDistSq(law, p1, p2);
    RootComparison(dsq, sqrt(dsq), law.cutoff);
  }

  /** A non-zero softening and an exact root rule out every division by zero. */
  lemma CoulombDefinedWhenSoftened(law: CoulombLaw, sqrt: real -> real, p1: Particle, p2: Particle)
    requires law.softening != 0.0 && IsRoot(sqrt, SoftenedDistSq(law, p1, p2))
    ensures CoulombDefined(law, sqrt, p1, p2)
  {
    RootPositive(sqrt, SoftenedDistSq(law, p1, p2));
  }

  /** The direction of the push uses the distance before the floor: the push is
      the displacement scaled by magnitude / distance. */
  lemma CoulombPushAlongDisplacement(law: CoulombLaw, sqrt: real -> real, p1: Particle, p2: Particle)
    requires CoulombDistance(law, sqrt, p1, p2) != 0.0 && FlooredDistSq(law, p1, p2) != 0.0
    ensures CoulombPush(law, sqrt, p1, p2) ==
            Scale(CoulombMagnitude(law, p1, p2) / CoulombDistance(law, sqrt, p1, p2), Displacement(p1, p2))
  {
    var d := Displacement(p1, p2);
    var m := CoulombMagnitude(law, p1, p2);
    var dist := CoulombDistance(law, sqrt, p1, p2);
    DivAssoc(m, d.x, dist);
    DivAssoc(m, d.y, dist);
  }

  /** Like charges repel: with a positive constant, an exact root and a non-zero
      softening, the push on the second particle points away from the first
      (and the first is pushed the other way), strictly when the centres differ. */
  lemma CoulombRepels(law: CoulombLaw, sqrt: real -> real, p1: Particle, p2: Particle)
    requires law.k > 0.0 && law.softening != 0.0 && IsRoot(sqrt, SoftenedDistSq(law, p1, p2))
    ensures CoulombDistance(law, sqrt, p1, p2) != 0.0 && FlooredDistSq(law, p1, p2) != 0.0
    ensures Dot(CoulombPush(law, sqrt, p1, p2), Displacement(p1, p2)) >= 0.0
    ensures p1.position != p2.position ==> Dot(CoulombPush(law, sqrt, p1, p2), Displacement(p1, p2)) > 0.0
  {
    RootPositive(sqrt, SoftenedDistSq(law, p1, p2));
    var d := Displacement(p1, p2);
    var dist := CoulombDistance(law, sqrt, p1, p2);
    var floored := FlooredDistSq(law, p1, p2);
    MulPositive(law.k, Charge * Charge);
    DivPositive(law.k * (Charge * Charge), floored);
    var m := CoulombMagnitude(law, p1, p2);
    DivPositive(m, dist);
    var c := m / dist;
    CoulombPushAlongDisplacement(law, sqrt, p1, p2);
    SumOfSquares(d.x, d.y);
    assert Dot(Scale(c, d), d) == Mul(c, Mul(d.x, d.x) + Mul(d.y, d.y));
    if p1.position != p2.position {
      MulPositive(c, Mul(d.x, d.x) + Mul(d.y, d.y));
    } else {
      assert d == Zero;
    }
  }

  /** The floor caps the magnitude: never more than k·q² over a tenth of the
      first radius, nor more than k·q² over the softened squared distance. */
  lemma CoulombMagnitudeCapped(law: CoulombLaw, p1: Particle, p2: Particle)
    requires law.k >= 0.0 && p1.radius > 0.0
    ensures FlooredDistSq(law, p1, p2) > 0.0
    ensures CoulombMagnitude(law, p1, p2) <= law.k * (Charge * Charge) / (p1.radius * 0.1)
    ensures SoftenedDistSq(law, p1, p2) > 0.0 ==>
              CoulombMagnitude(law, p1, p2) <= law.k * (Charge * Charge) / SoftenedDistSq(law, p1, p2)
  {
    var kq := law.k * (Charge * Charge);
    var floored := FlooredDistSq(law, p1, p2);
    var dsq := SoftenedDistSq(law, p1, p2);
    assert kq >= 0.0 by {
      if law.k > 0.0 {
        MulPositive(law.k, Charge * Charge);
      }
    }
    DivAntitone(kq, p1.radius * 0.1, floored);
    if dsq > 0.0 {
      DivAntitone(kq, dsq, floored);
    }
  }

  /** Two particles at rest 3000 apart under the built Coulomb law, whose
      cutoff is 2000: `resolve` reports true and changes neither of them. */
  lemma FarPairUntouched(sqrt: real -> real, a: Particle, b: Particle)
    requires a == Particle(Vec2(0.0, 0.0), Zero, Zero, 5.0)
    requires b == Particle(Vec2(3000.0, 0.0), Zero, Zero, 5.0)
    requires IsRoot(sqrt, SoftenedDistSq(BuildInteractionLaw(CoulombLawType).coulomb, a, b))
    ensures CoulombDefined(BuildInteractionLaw(CoulombLawType).coulomb, sqrt, a, b)
    ensures CoulombResolve(BuildInteractionLaw(CoulombLawType).coulomb, sqrt, a, b) == Resolution(true, a, b)
  {
    var law := BuildInteractionLaw(CoulombLawType).coulomb;
    assert law == CoulombLaw(8987551792.3, 0.001, 2000.0);
    FarPairSquares(law, a, b);
    CoulombCutoffBySquares(law, sqrt, a, b);
  }

  lemma FarPairSquares(law: CoulombLaw, a: Particle, b: Particle)
    requires law == CoulombLaw(8987551792.3, 0.001, 2000.0)
    requires a == Particle(Vec2(0.0, 0.0), Zero, Zero, 5.0)
    requires b == Particle(Vec2(3000.0, 0.0), Zero, Zero, 5.0)
    ensures SoftenedDistSq(law, a, b) > law.cutoff * law.cutoff
  {
    assert Displacement(a, b) == Vec2(3000.0, 0.0);
    assert DistSq(a, b) == 9000000.0;
    assert law.softening * law.softening == 0.000001;
    assert law.cutoff * law.cutoff == 4000000.0;
  }

  // ------------------------------------------------------ impulse collision

  function RadiusSum(p1: Particle, p2: Particle): real {
    p1.radius + p2.radius
  }

  /** The distance from the platform square root. */
  function ImpulseDistance(sqrt: real -> real, p1: Particle, p2: Particle): real {
    sqrt(DistSq(p1, p2))
  }

  /** The unit normal from the first centre to the second. */
  function Normal(sqrt: real -> real, p1: Particle, p2: Particle): Vec2
    requires ImpulseDistance(sqrt, p1, p2) != 0.0
  {
    var d := Displacement(p1, p2);
    var dist := ImpulseDistance(sqrt, p1, p2);
    Vec2(d.x / dist, d.y / dist)
  }

  /** (v1 − v2)·n, the relative velocity along the normal; also the impulse. */
  function NormalSpeed(sqrt: real -> real, p1: Particle, p2: Particle): real
    requires ImpulseDistance(sqrt, p1, p2) != 0.0
  {
    Dot(Sub(p1.velocity, p2.velocity), Normal(sqrt, p1, p2))
  }

  /** Half the depth by which the discs overlap; each centre moves this far. */
  function Overlap(sqrt: real -> real, p1: Particle, p2: Particle): real {
    0.5 * (RadiusSum(p1, p2) - ImpulseDistance(sqrt, p1, p2))
  }

  /** The four ways the impulse law can go. `Approaching` is the case the law
      skips: a positive (v1 − v2)·n. */
  datatype Contact = Apart | Coincident | Approaching | Exchanged

  function ImpulseContact(sqrt: real -> real, p1: Particle, p2: Particle): Contact {
    if !(DistSq(p1, p2) < RadiusSum(p1, p2) * RadiusSum(p1, p2)) then Apart
    else if ImpulseDistance(sqrt, p1, p2) == 0.0 then Coincident
    else if NormalSpeed(sqrt, p1, p2) > 0.0 then Approaching
    else Exchanged
  }

  /** What `ImpulseCollision::resolve` leaves behind. It applies exactly when the
      discs overlap; only the `Exchanged` case changes anything, and then the
      sum of the velocities (momentum, unit masses) and the sum of the positions
      (the midpoint) are kept, as are forces and radii. */
  function ImpulseResolve(law: ImpulseCollision, sqrt: real -> real, p1: Particle, p2: Particle): (r: Resolution)
    ensures r.applied <==> DistSq(p1, p2) < RadiusSum(p1, p2) * RadiusSum(p1, p2)
    ensures ImpulseContact(sqrt, p1, p2) != Exchanged ==> r.first == p1 && r.second == p2
    ensures r.first.force == p1.force && r.first.radius == p1.radius
    ensures r.second.force == p2.force && r.second.radius == p2.radius
    ensures Add(r.first.velocity, r.second.velocity) == Add(p1.velocity, p2.velocity)
    ensures Add(r.first.position, r.second.position) == Add(p1.position, p2.position)
  {
    match ImpulseContact(sqrt, p1, p2)
    case Apart => Resolution(false, p1, p2)
    case Coincident => Resolution(true, p1, p2)
    case Approaching => Resolution(true, p1, p2)
    case Exchanged =>
      var n := Normal(sqrt, p1, p2);
      var impulse := NormalSpeed(sqrt, p1, p2);
      var overlap := Overlap(sqrt, p1, p2);
      Resolution(true,
        p1.(velocity := Sub(p1.velocity, Scale(impulse, n)), position := Sub(p1.position, Scale(overlap, n))),
        p2.(velocity := Add(p2.velocity, Scale(impulse, n)), position := Add(p2.position, Scale(overlap, n))))
  }

  /** The velocity and position updates of an impulse exchange, one field at a
      time: the impulse along the normal moves the velocities, the overlap
      along the normal moves the centres, in opposite directions. */
  method Exchange(p1: Particle, p2: Particle, n: Vec2, impulse: real, overlap: real)
    returns (q1: Particle, q2: Particle)
    ensures q1.velocity == Sub(p1.velocity, Scale(impulse, n)) && q1.position == Sub(p1.position, Scale(overlap, n))
    ensures q1.force == p1.force && q1.radius == p1.radius
    ensures q2.velocity == Add(p2.velocity, Scale(impulse, n)) && q2.position == Add(p2.position, Scale(overlap, n))
    ensures q2.force == p2.force && q2.radius == p2.radius
  {
    q1, q2 := p1, p2;
    q1 := q1.(velocity := q1.velocity.(x := q1.velocity.x - impulse * n.x));
    q1 := q1.(velocity := q1.velocity.(y := q1.velocity.y - impulse * n.y));
    q2 := q2.(velocity := q2.velocity.(x := q2.velocity.x + impulse * n.x));
    q2 := q2.(velocity := q2.velocity.(y := q2.velocity.y + impulse * n.y));
    q1 := q1.(position := q1.position.(x := q1.position.x - overlap * n.x));
    q1 := q1.(position := q1.position.(y := q1.position.y - overlap * n.y));
    q2 := q2.(position := q2.position.(x := q2.position.x + overlap * n.x));
    q2 := q2.(position := q2.position.(y := q2.position.y + overlap * n.y));
  }

  /** `ImpulseCollision::resolve`, step by step on the two records. */
  method ResolveImpulse(law: ImpulseCollision, sqrt: real -> real, p1: Particle, p2: Particle)
    returns (applied: bool, q1: Particle, q2: Particle)
    ensures Resolution(applied, q1, q2) == ImpulseResolve(law, sqrt, p1, p2)
  {
    q1, q2 := p1, p2;
    var dx := q2.position.x - q1.position.x;
    var dy := q2.position.y - q1.position.y;
    var distanceSq := dx * dx + dy * dy;
    assert distanceSq == DistSq(p1, p2);
    var radiusSum := q1.radius + q2.radius;
    if distanceSq < radiusSum * radiusSum {
      var distance := sqrt(distanceSq);
      if distance == 0.0 {
        return true, q1, q2;
      }
      var nx := dx / distance;
      var ny := dy / distance;
      assert Vec2(nx, ny) == Normal(sqrt, p1, p2);
      var rvx := q1.velocity.x - q2.velocity.x;
      var rvy := q1.velocity.y - q2.velocity.y;
      var relVelDotNorm := rvx * nx + rvy * ny;
      assert relVelDotNorm == NormalSpeed(sqrt, p1, p2);
      if relVelDotNorm > 0.0 {
        return true, q1, q2;
      }
      assert ImpulseContact(sqrt, p1, p2) == Exchanged;
      var impulse := relVelDotNorm;
      var overlap := 0.5 * (radiusSum - distance);
      q1, q2 := Exchange(q1, q2, Vec2(nx, ny), impulse, overlap);
      return true, q1, q2;
    }
    return false, q1, q2;
  }

  /** The restitution, correction factor and penetration slop play no part. */
  lemma ImpulseIgnoresParameters(law1: ImpulseCollision, law2: ImpulseCollision, sqrt: real -> real, p1: Particle, p2: Particle)
    ensures ImpulseResolve(law1, sqrt, p1, p2) == ImpulseResolve(law2, sqrt, p1, p2)
  {
  }

  /** With an exact root the normal has unit length. */
  lemma NormalIsUnit(sqrt: real -> real, p1: Particle, p2: Particle)
    requires IsRoot(sqrt, DistSq(p1, p2)) && ImpulseDistance(sqrt, p1, p2) != 0.0
    ensures Dot(Normal(sqrt, p1, p2), Normal(sqrt, p1, p2)) == 1.0
  {
    var d := Displacement(p1, p2);
    UnitQuotient(d.x, d.y, ImpulseDistance(sqrt, p1, p2));
  }

  lemma SubScaleSquared(v: Vec2, j: real, n: Vec2)
    ensures Dot(Sub(v, Scale(j, n)), Sub(v, Scale(j, n))) == Dot(v, v) - 2.0 * j * Dot(v, n) + j * j * Dot(n, n)
  {
  }

  lemma AddScaleSquared(v: Vec2, j: real, n: Vec2)
    ensures Dot(Add(v, Scale(j, n)), Add(v, Scale(j, n))) == Dot(v, v) + 2.0 * j * Dot(v, n) + j * j * Dot(n, n)
  {
  }

  lemma DotSubLeft(a: Vec2, b: Vec2, n: Vec2)
    ensures Dot(Sub(a, b), n) == Dot(a, n) - Dot(b, n)
  {
  }

  lemma ExchangeAlgebra(e1: real, e2: real, a: real, b: real, nn: real)
    requires nn == 1.0
    ensures (e1 - 2.0 * (a - b) * a + (a - b) * (a - b) * nn) + (e2 + 2.0 * (a - b) * b + (a - b) * (a - b) * nn) == e1 + e2
  {
  }

  /** Moving the two velocities by ∓((v1 − v2)·n)·n along a unit normal keeps
      |v1|² + |v2|². */
  lemma ExchangeKeepsSquares(v1: Vec2, v2: Vec2, n: Vec2)
    requires Dot(n, n) == 1.0
    ensures var j := Dot(Sub(v1, v2), n);
            Dot(Sub(v1, Scale(j, n)), Sub(v1, Scale(j, n))) + Dot(Add(v2, Scale(j, n)), Add(v2, Scale(j, n)))
            == Dot(v1, v1) + Dot(v2, v2)
  {
    var j := Dot(Sub(v1, v2), n);
    SubScaleSquared(v1, j, n);
    AddScaleSquared(v2, j, n);
    DotSubLeft(v1, v2, n);
    ExchangeAlgebra(Dot(v1, v1), Dot(v2, v2), Dot(v1, n), Dot(v2, n), Dot(n, n));
  }

  /** The collision is perfectly elastic: with an exact root the total kinetic
      energy of the pair is unchanged, whichever case applies. */
  lemma ImpulseConservesEnergy(law: ImpulseCollision, sqrt: real -> real, p1: Particle, p2: Particle)
    requires IsRoot(sqrt, DistSq(p1, p2))
    ensures var r := ImpulseResolve(law, sqrt, p1, p2);
            KineticEnergy(r.first) + KineticEnergy(r.second) == KineticEnergy(p1) + KineticEnergy(p2)
  {
    var r := ImpulseResolve(law, sqrt, p1, p2);
    if ImpulseContact(sqrt, p1, p2) == Exchanged {
      NormalIsUnit(sqrt, p1, p2);
      ExchangeKeepsSquares(p1.velocity, p2.velocity, Normal(sqrt, p1, p2));
      assert SpeedSq(r.first) + SpeedSq(r.second) == SpeedSq(p1) + SpeedSq(p2);
    }
  }

  lemma SeparationAlgebra(d: Vec2, n: Vec2, dist: real, radii: real)
    requires Mul(n.x, dist) == d.x && Mul(n.y, dist) == d.y
    ensures Sub(Add(d, Scale(0.5 * (radii - dist), n)), Scale(-(0.5 * (radii - dist)), n)) == Vec2(Mul(radii, n.x), Mul(radii, n.y))
  {
  }

  /** After an exchange the discs just touch: with an exact root the new centre
      distance squared is (r1 + r2)². */
  lemma ImpulseSeparates(law: ImpulseCollision, sqrt: real -> real, p1: Particle, p2: Particle)
    requires IsRoot(sqrt, DistSq(p1, p2)) && ImpulseContact(sqrt, p1, p2) == Exchanged
    ensures var r := ImpulseResolve(law, sqrt, p1, p2);
            DistSq(r.first, r.second) == RadiusSum(p1, p2) * RadiusSum(p1, p2)
  {
    var r := ImpulseResolve(law, sqrt, p1, p2);
    var d := Displacement(p1, p2);
    var dist := ImpulseDistance(sqrt, p1, p2);
    var n := Normal(sqrt, p1, p2);
    var radii := RadiusSum(p1, p2);
    var overlap := 0.5 * (radii - dist);
    DivTimes(d.x, dist);
    DivTimes(d.y, dist);
    SeparationAlgebra(d, n, dist, radii);
    assert Displacement(r.first, r.second) == Sub(Add(d, Scale(overlap, n)), Scale(-overlap, n));
    NormalIsUnit(sqrt, p1, p2);
    FactorSquares(n.x, n.y, radii);
    MulCommutes(n.x, radii);
    MulCommutes(n.y, radii);
    assert DistSq(r.first, r.second) == Mul(Mul(n.x, n.x) + Mul(n.y, n.y), Mul(radii, radii));
  }

  lemma RelativeAfterExchange(v1: Vec2, v2: Vec2, j: real, n: Vec2)
    ensures Sub(Sub(v1, Scale(j, n)), Add(v2, Scale(j, n))) == Sub(Sub(v1, v2), Scale(2.0 * j, n))
  {
  }

  lemma DotSubScale(w: Vec2, k: real, n: Vec2)
    ensures Dot(Sub(w, Scale(k, n)), n) == Dot(w, n) - k * Dot(n, n)
  {
  }

  lemma ReversalAlgebra(j: real, nn: real)
    requires nn == 1.0
    ensures j - 2.0 * j * nn == -j
  {
  }

  /** The exchange reverses the relative velocity along the normal. */
  lemma ImpulseReversesNormalSpeed(law: ImpulseCollision, sqrt: real -> real, p1: Particle, p2: Particle)
    requires IsRoot(sqrt, DistSq(p1, p2)) && ImpulseContact(sqrt, p1, p2) == Exchanged
    ensures var r := ImpulseResolve(law, sqrt, p1, p2);
            Dot(Sub(r.first.velocity, r.second.velocity), Normal(sqrt, p1, p2)) == -NormalSpeed(sqrt, p1, p2)
  {
    var n := Normal(sqrt, p1, p2);
    var j := NormalSpeed(sqrt, p1, p2);
    ExchangedResult(law, sqrt, p1, p2);
    NormalIsUnit(sqrt, p1, p2);
    RelativeAfterExchange(p1.velocity, p2.velocity, j, n);
    DotSubScale(Sub(p1.velocity, p2.velocity), 2.0 * j, n);
    ReversalAlgebra(j, Dot(n, n));
  }

  /** The case the law skips is the one where the centres are closing in: with
      an exact root and distinct centres, (v1 − v2)·n > 0 holds exactly when the
      displacement and the relative velocity v2 − v1 point against each other,
      that is, when the distance is decreasing. */
  lemma SkippedPairsApproach(sqrt: real -> real, p1: Particle, p2: Particle)
    requires IsRoot(sqrt, DistSq(p1, p2)) && p1.position != p2.position
    ensures ImpulseDistance(sqrt, p1, p2) != 0.0
    ensures NormalSpeed(sqrt, p1, p2) > 0.0 <==> Dot(Displacement(p1, p2), Sub(p2.velocity, p1.velocity)) < 0.0
  {
    RootPositive(sqrt, DistSq(p1, p2));
    var d := Displacement(p1, p2);
    var dist := ImpulseDistance(sqrt, p1, p2);
    var rv := Sub(p1.velocity, p2.velocity);
    var closing := Dot(rv, d);
    DivAssoc(1.0, d.x, dist);
    DivAssoc(1.0, d.y, dist);
    assert NormalSpeed(sqrt, p1, p2) == closing / dist;
    assert Dot(d, Sub(p2.velocity, p1.velocity)) == -closing;
    if closing > 0.0 {
      DivPositive(closing, dist);
    } else if closing < 0.0 {
      DivPositive(-closing, dist);
    }
  }

  /** The result in the exchange case, written out. */
  lemma ExchangedResult(law: ImpulseCollision, sqrt: real -> real, p1: Particle, p2: Particle)
    requires ImpulseContact(sqrt, p1, p2) == Exchanged
    ensures var n, j, o := Normal(sqrt, p1, p2), NormalSpeed(sqrt, p1, p2), Overlap(sqrt, p1, p2);
            ImpulseResolve(law, sqrt, p1, p2) ==
              Resolution(true,
                p1.(velocity := Sub(p1.velocity, Scale(j, n)), position := Sub(p1.position, Scale(o, n))),
                p2.(velocity := Add(p2.velocity, Scale(j, n)), position := Add(p2.position, Scale(o, n))))
  {
  }

  /** A pair on a horizontal line, the second centre a distance `l` to the right
      of the first: the normal is the unit x vector. */
  lemma NormalOnAxis(sqrt: real -> real, p1: Particle, p2: Particle, l: real)
    requires Displacement(p1, p2) == Vec2(l, 0.0) && l != 0.0 && ImpulseDistance(sqrt, p1, p2) == l
    ensures Normal(sqrt, p1, p2) == Vec2(1.0, 0.0)
    ensures NormalSpeed(sqrt, p1, p2) == p1.velocity.x - p2.velocity.x
  {
  }

  /** Two discs of radius 5 whose centres are eight units apart on a line,
      moving head-on at speed 5: they overlap, yet the law skips them. */
  lemma HeadOnPairIsSkipped(law: ImpulseCollision, sqrt: real -> real, a: Particle, b: Particle)
    requires sqrt(64.0) == 8.0
    requires a == Particle(Vec2(0.0, 0.0), Vec2(5.0, 0.0), Zero, 5.0)
    requires b == Particle(Vec2(8.0, 0.0), Vec2(-5.0, 0.0), Zero, 5.0)
    ensures ImpulseContact(sqrt, a, b) == Approaching
    ensures ImpulseResolve(law, sqrt, a, b) == Resolution(true, a, b)
  {
    assert Displacement(a, b) == Vec2(8.0, 0.0);
    assert DistSq(a, b) == 64.0;
    NormalOnAxis(sqrt, a, b, 8.0);
  }

  /** The same discs moving apart: the law exchanges their velocities (so they
      now approach) and pushes the centres to ten units apart. */
  lemma HeadOnSeparatingPairIsExchanged(law: ImpulseCollision, sqrt: real -> real, a: Particle, b: Particle)
    requires sqrt(64.0) == 8.0
    requires a == Particle(Vec2(0.0, 0.0), Vec2(-5.0, 0.0), Zero, 5.0)
    requires b == Particle(Vec2(8.0, 0.0), Vec2(5.0, 0.0), Zero, 5.0)
    ensures ImpulseContact(sqrt, a, b) == Exchanged
    ensures ImpulseResolve(law, sqrt, a, b) ==
              Resolution(true, a.(position := Vec2(-1.0, 0.0), velocity := Vec2(5.0, 0.0)),
                               b.(position := Vec2(9.0, 0.0), velocity := Vec2(-5.0, 0.0)))
  {
    assert Displacement(a, b) == Vec2(8.0, 0.0);
    assert DistSq(a, b) == 64.0;
    NormalOnAxis(sqrt, a, b, 8.0);
    assert Overlap(sqrt, a, b) == 1.0;
    ExchangedResult(law, sqrt, a, b);
  }

  // --------------------------------------------------------------- dispatch

  /** The law can be applied to the pair without dividing by zero. */
  predicate PairDefined(law: InteractionLaw, sqrt: real -> real, p1: Particle, p2: Particle) {
    match law
    case Coulomb(c) => CoulombDefined(c, sqrt, p1, p2)
    case Impulse(_) => true
  }

  /** Either law keeps the radii and the three sums over the pair: positions,
      velocities and forces. */
  function Resolve(law: InteractionLaw, sqrt: real -> real, p1: Particle, p2: Particle): (r: Resolution)
    requires PairDefined(law, sqrt, p1, p2)
    ensures r.first.radius == p1.radius && r.second.radius == p2.radius
    ensures Add(r.first.position, r.second.position) == Add(p1.position, p2.position)
    ensures Add(r.first.velocity, r.second.velocity) == Add(p1.velocity, p2.velocity)
    ensures Add(r.first.force, r.second.force) == Add(p1.force, p2.force)
  {
    match law
    case Coulomb(c) => CoulombResolve(c, sqrt, p1, p2)
    case Impulse(i) => ImpulseResolve(i, sqrt, p1, p2)
  }

  /** `law.resolve(p1, p2)` through the trait object. */
  method ResolvePair(law: InteractionLaw, sqrt: real -> real, p1: Particle, p2: Particle)
    returns (applied: bool, q1: Particle, q2: Particle)
    requires PairDefined(law, sqrt, p1, p2)
    ensures Resolution(applied, q1, q2) == Resolve(law, sqrt, p1, p2)
  {
    match law
    case Coulomb(c) =>
      applied, q1, q2 := ResolveCoulomb(c, sqrt, p1, p2);
    case Impulse(i) =>
      applied, q1, q2 := ResolveImpulse(i, sqrt, p1, p2);
  }

  /** A valid law under an exact root can be applied to any pair. */
  lemma ValidLawDefined(law: InteractionLaw, sqrt: real -> real, p1: Particle, p2: Particle)
    requires ValidLaw(law) && ExactSqrt(sqrt)
    ensures PairDefined(law, sqrt, p1, p2)
  {
    if law.Coulomb? {
      assert IsRoot(sqrt, SoftenedDistSq(law.coulomb, p1, p2));
      CoulombDefinedWhenSoftened(law.coulomb, sqrt, p1, p2);
    }
  }
}
