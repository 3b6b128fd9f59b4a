/** The particle record and its integration: unit mass, a force accumulator,
    semi-implicit Euler with a fixed downward gravity term. */
module Particles {

  import opened Utils

  datatype Vec2 = Vec2(x: real, y: real)

  const Zero: Vec2 := Vec2(0.0, 0.0)

  function Add(a: Vec2, b: Vec2): Vec2 {
    Vec2(a.x + b.x, a.y + b.y)
  }

  function Sub(a: Vec2, b: Vec2): Vec2 {
    Vec2(a.x - b.x, a.y - b.y)
  }

  function Scale(k: real, a: Vec2): Vec2 {
    Vec2(k * a.x, k * a.y)
  }

  function Dot(a: Vec2, b: Vec2): real {
    a.x * b.x + a.y * b.y
  }

  /** A body of the gas: `force` is reset before each interaction pass and
      accumulated by the Coulomb law; `radius` never changes. */
  datatype Particle = Particle(position: Vec2, velocity: Vec2, force: Vec2, radius: real)

  /** Downward acceleration added on every integration (screen y grows downwards). */
  const Gravity: real := 9.81

  /** `reset_force`: clear the force accumulator, nothing else. */
  method ResetForce(p: Particle) returns (q: Particle)
    ensures q.force == Zero
    ensures q.position == p.position && q.velocity == p.velocity && q.radius == p.radius
  {
    q := p.(force := Zero);
  }

  /** `update_velocity`: gravity first, then the accumulated force, each times `dt`. */
  method UpdateVelocity(p: Particle, dt: real) returns (q: Particle)
    ensures q.velocity.x == p.velocity.x + p.force.x * dt
    ensures q.velocity.y == p.velocity.y + Gravity * dt + p.force.y * dt
    ensures q.position == p.position && q.force == p.force && q.radius == p.radius
  {
    q := p;
    q := q.(velocity := q.velocity.(y := q.velocity.y + Gravity * dt));
    q := q.(velocity := q.velocity.(y := q.velocity.y + q.force.y * dt));
    q := q.(velocity := q.velocity.(x := q.velocity.x + q.force.x * dt));
  }

  /** `update_position`: advance the position by the current velocity times `dt`. */
  method UpdatePosition(p: Particle, dt: real) returns (q: Particle)
    ensures q.position.x == p.position.x + p.velocity.x * dt
    ensures q.position.y == p.position.y + p.velocity.y * dt
    ensures q.velocity == p.velocity && q.force == p.force && q.radius == p.radius
  {
    q := p;
    q := q.(position := q.position.(x := q.position.x + q.velocity.x * dt));
    q := q.(position := q.position.(y := q.position.y + q.velocity.y * dt));
  }

  /** The acceleration of a unit mass: gravity plus the accumulated force. */
  function Acceleration(p: Particle): Vec2 {
    Add(Vec2(0.0, Gravity), p.force)
  }

  /** One semi-implicit Euler step: the velocity gains acceleration·dt, and the
      position then moves with the NEW velocity. */
  function Integrated(p: Particle, dt: real): Particle {
    var v := Add(p.velocity, Scale(dt, Acceleration(p)));
    p.(velocity := v, position := Add(p.position, Scale(dt, v)))
  }

  lemma StepAlgebra(v: real, g: real, f: real, dt: real)
    ensures v + g * dt + f * dt == v + dt * (g + f)
  {
  }

  lemma MoveAlgebra(x: real, v: real, dt: real)
    ensures x + v * dt == x + dt * v
  {
  }

  /** `update`: velocity first, then position; this is the step `Integrated` describes. */
  method Update(p: Particle, dt: real) returns (q: Particle)
    ensures q == Integrated(p, dt)
  {
    q := UpdateVelocity(p, dt);
    StepAlgebra(p.velocity.x, 0.0, p.force.x, dt);
    StepAlgebra(p.velocity.y, Gravity, p.force.y, dt);
    var v := q.velocity;
    assert v == Integrated(p, dt).velocity;
    q := UpdatePosition(q, dt);
    MoveAlgebra(p.position.x, v.x, dt);
    MoveAlgebra(p.position.y, v.y, dt);
    assert q.position == Integrated(p, dt).position;
  }

  /** Integration changes neither the force nor the radius. */
  lemma IntegratedKeepsForceAndRadius(p: Particle, dt: real)
    ensures Integrated(p, dt).force == p.force && Integrated(p, dt).radius == p.radius
  {
  }

  /** The position is not the explicit-Euler one: it carries the extra
      acceleration·dt² term of the velocity already updated. */
  lemma IntegratedIsSemiImplicit(p: Particle, dt: real)
    ensures Integrated(p, dt).position ==
            Add(Add(p.position, Scale(dt, p.velocity)), Scale(dt * dt, Acceleration(p)))
  {
    var a := Acceleration(p);
    var q := Integrated(p, dt);
    SemiImplicitAlgebra(p.position.x, p.velocity.x, a.x, dt);
    SemiImplicitAlgebra(p.position.y, p.velocity.y, a.y, dt);
  }

  lemma SemiImplicitAlgebra(x: real, v: real, a: real, dt: real)
    ensures x + dt * (v + dt * a) == (x + dt * v) + (dt * dt) * a
  {
  }

  /** A zero time step leaves the particle as it was. */
  lemma IntegratedZeroStep(p: Particle)
    ensures Integrated(p, 0.0) == p
  {
  }

  /** The squared speed vx² + vy²; `speed` is its square root. */
  function SpeedSq(p: Particle): real {
    p.velocity.x * p.velocity.x + p.velocity.y * p.velocity.y
  }

  /** `speed`, through the platform square root. */
  function Speed(sqrt: real -> real, p: Particle): (s: real)
    ensures IsRoot(sqrt, SpeedSq(p)) ==> s >= 0.0 && s * s == SpeedSq(p)
  {
    sqrt(SpeedSq(p))
  }

  /** `kinetic_energy`: half the squared speed (unit mass). */
  function KineticEnergy(p: Particle): (e: real)
    ensures e >= 0.0
    ensures e == 0.0 <==> p.velocity == Zero
  {
    SumOfSquares(p.velocity.x, p.velocity.y);
    0.5 * SpeedSq(p)
  }

  /** The source squares the square root of vx² + vy²; with an exact root that is
      the squared speed itself. */
  lemma KineticEnergyFromSpeed(sqrt: real -> real, p: Particle)
    requires 0.0 <= Speed(sqrt, p) && Speed(sqrt, p) * Speed(sqrt, p) == SpeedSq(p)
    ensures 0.5 * (Speed(sqrt, p) * Speed(sqrt, p)) == KineticEnergy(p)
  {
  }
}
