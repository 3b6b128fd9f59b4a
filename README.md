# Maxwell's demon gas: a Dafny model of the physics engine

This project models the physics core of a 2D "Maxwell's demon" particle gas.
Unit-mass discs move inside a rectangular box. They interact pairwise through
one of two laws:

- a softened, cut-off Coulomb force, which accumulates into each particle's force buffer;
- an equal-mass impulse collision, which exchanges velocity along the contact normal and pushes overlapping discs apart.

They are integrated by semi-implicit Euler with a fixed downward gravity of
9.81. They bounce off the four walls. While the demon is looking, a gate on
the vertical midline blocks slow particles moving left and fast particles
moving right.

The model also covers the state around that engine:

- the frame update, which runs 20 sub-steps;
- the pause flag;
- the average kinetic energy;
- the sidebar's two-region "temperature";
- the slider click, the gate click and the keys.

Arithmetic is over `real`, not `f32`. The platform square root is a parameter
`sqrt: real -> real`. `Utils.IsRoot` / `Utils.ExactSqrt` state where the
model relies on it being exact: the unit normal, energy conservation,
separation, and the absence of divisions by zero.

Modules, one per source file:

- `Utils` (`src/physics/utils.rs`, plus the arithmetic facts used throughout);
- `Particles` (`src/physics/particles.rs`);
- `Laws` (`src/physics/laws.rs`);
- `Container` (`src/physics/container.rs`);
- `Stepper`: one step as a function of the particle sequence, the specification that the in-place methods meet;
- `State` (`src/rendering/state.rs`): a class over an array of particle records;
- `Events` (`src/rendering/events.rs`).

Particles are values (`datatype Particle`). Rust updates them through
`&mut Particle` inside the `Vec`. The model's methods take a record and
return the updated one, field by field, and the `State` class writes it back
into its array cell.

The model follows the code as written, including these behaviours:

- The impulse law skips a pair when `(v1 − v2)·n > 0`, with `n` pointing from the
  first centre to the second. That is the case where the discs are closing in
  (`Laws.SkippedPairsApproach`). So a head-on pair with velocities
  (5,0) and (−5,0) is skipped (`Laws.HeadOnPairIsSkipped`). The same pair moving
  apart is the one that gets exchanged (`Laws.HeadOnSeparatingPairIsExchanged`).
- The left wall clamps to `radius`, not to `x_min + radius`, and the ceiling to
  `radius`, not to `y_min + radius` (`Container.NearClampsIgnoreWallPosition`). They are flush only because the
  simulation builds its box at the origin (`Container.ClampsAreFlush`).
- The average kinetic energy of zero particles is 0/0 in the code. The model
  returns `None` there.
- `reset_force` is called but not defined in `src/physics/particles.rs`. It is
  modelled as clearing the force accumulator and nothing else.

## Model

| member | source | states |
|---|---|---|
| `Utils.Abs` | src/physics/utils.rs:5-11 | `mod_f32` is non-negative and is `x` or `−x` |
| `Utils.AbsCases` | src/physics/utils.rs:6-10 | it is `x` for `x ≥ 0` and `−x` for `x < 0` |
| `Utils.AbsSymmetric` | src/physics/utils.rs:5-11 | `mod_f32(−x) == mod_f32(x)` |
| `Utils.AbsIdempotent` | src/physics/utils.rs:5-11 | applying `mod_f32` twice is applying it once |
| `Particles.ResetForce` | src/rendering/state.rs:65-67 | the force becomes (0,0); position, velocity and radius are kept |
| `Particles.UpdateVelocity` | src/physics/particles.rs:40-45 | `vx' = vx + fx·dt`, `vy' = vy + 9.81·dt + fy·dt`; position, force and radius kept |
| `Particles.UpdatePosition` | src/physics/particles.rs:35-38 | position advances by velocity·dt; velocity, force and radius kept |
| `Particles.Update` | src/physics/particles.rs:47-50 | velocity first, then position with the new velocity: the semi-implicit Euler step `Integrated` |
| `Particles.IntegratedIsSemiImplicit` | src/physics/particles.rs:47-50 | the new position is `p + v·dt + a·dt²`, where `a` is gravity plus force: the updated velocity is used |
| `Particles.IntegratedKeepsForceAndRadius` | src/physics/particles.rs:35-50 | integration never changes the force or the radius |
| `Particles.IntegratedZeroStep` | src/physics/particles.rs:35-50 | with `dt = 0` the particle is unchanged |
| `Particles.Speed` | src/physics/particles.rs:52-55 | with an exact root, the speed is the non-negative number whose square is `vx²+vy²` |
| `Particles.KineticEnergy` | src/physics/particles.rs:57-61 | `½(vx²+vy²)` is ≥ 0, and 0 exactly when the velocity is (0,0) |
| `Particles.KineticEnergyFromSpeed` | src/physics/particles.rs:52-61 | with an exact root, `0.5·speed²` is the half squared speed |
| `Laws.BuildInteractionLaw` | src/physics/laws.rs:258-268 | builds a law of the requested kind, with a positive constant, non-zero softening and non-negative cutoff |
| `Laws.FlooredDistSq` | src/physics/laws.rs:134-136 | the denominator is the softened squared distance raised to at least `radius·0.1` |
| `Laws.CoulombResolve` | src/physics/laws.rs:115-151 | always true; positions, velocities and radii untouched; `f1+f2` preserved; beyond the cutoff nothing changes; otherwise p2 gains exactly the push that p1 loses |
| `Laws.ResolveCoulomb` | src/physics/laws.rs:115-151 | the step-by-step resolve produces `CoulombResolve` |
| `Laws.ApplyPush` | src/physics/laws.rs:144-148 | the first force loses the push, the second gains it, nothing else changes |
| `Laws.CoulombCutoffBySquares` | src/physics/laws.rs:126-132 | with an exact root, `distance > cutoff` iff `dx²+dy²+s² > cutoff²` |
| `Laws.CoulombDefinedWhenSoftened` | src/physics/laws.rs:124-127 | a non-zero softening rules out every division by zero |
| `Laws.CoulombPushAlongDisplacement` | src/physics/laws.rs:140-148 | the push is the displacement times magnitude / unfloored distance; the floor only enters the magnitude |
| `Laws.CoulombRepels` | src/physics/laws.rs:138-148 | like charges repel: the push on p2 points away from p1 |
| `Laws.CoulombMagnitudeCapped` | src/physics/laws.rs:134-140 | the floor bounds the magnitude by `k·q²/(radius·0.1)` |
| `Laws.FarPairUntouched` | src/physics/laws.rs:126-132 | two particles 3000 apart under the built law (cutoff 2000) are returned unchanged, with true |
| `Laws.ImpulseResolve` | src/physics/laws.rs:183-228 | true iff the discs overlap; unchanged unless overlapping, apart, and not skipped; forces and radii kept; `v1+v2` and `p1+p2` preserved |
| `Laws.ResolveImpulse` | src/physics/laws.rs:183-228 | the step-by-step resolve produces `ImpulseResolve` |
| `Laws.Exchange` | src/physics/laws.rs:212-224 | velocities move by ∓impulse·n and positions by ∓overlap·n; forces and radii kept |
| `Laws.ImpulseIgnoresParameters` | src/physics/laws.rs:156-228 | restitution, correction factor and slop do not affect the result |
| `Laws.NormalIsUnit` | src/physics/laws.rs:196-197 | with an exact root the normal has length 1 |
| `Laws.ImpulseConservesEnergy` | src/physics/laws.rs:210-217 | the pair's total kinetic energy is unchanged: the collision is perfectly elastic |
| `Laws.ImpulseSeparates` | src/physics/laws.rs:219-224 | after an exchange the new centre distance is `r1+r2` |
| `Laws.ImpulseReversesNormalSpeed` | src/physics/laws.rs:212-217 | the relative normal velocity is reversed |
| `Laws.SkippedPairsApproach` | src/physics/laws.rs:205-208 | the skip test `(v1−v2)·n > 0` holds exactly when the centres are closing in |
| `Laws.HeadOnPairIsSkipped` | src/physics/laws.rs:183-208 | overlapping radius-5 discs 8 apart at velocities (5,0),(−5,0) are left unchanged, with true |
| `Laws.HeadOnSeparatingPairIsExchanged` | src/physics/laws.rs:183-225 | the same discs moving apart swap velocities and end 10 apart |
| `Laws.Resolve` | src/physics/laws.rs:31-43 | either law keeps radii and the sums of positions, velocities and forces over the pair |
| `Laws.ResolvePair` | src/physics/laws.rs:31-43 | dispatch through the trait object produces `Resolve` |
| `Laws.ValidLawDefined` | src/physics/laws.rs:258-268 | a built law under an exact root can resolve any pair |
| `Container.NewContainer` | src/physics/container.rs:11-13 | the given walls, with the demon not looking |
| `Container.Collision` | src/physics/container.rs:15-58 | the five sequential tests produce the walls-then-gate function `Collided` |
| `Container.GateCollision` | src/physics/container.rs:43-57 | the gate block produces `Gate` on the particle the walls left |
| `Container.WallsReflect` | src/physics/container.rs:19-40 | left: `px := r`; right: `px := w−r`; ceiling: `py := r`; ground: `py := z−r`; each negates only the perpendicular velocity component |
| `Container.CollidedKeepsSpeedForceRadius` | src/physics/container.rs:15-58 | a collision keeps `vx²+vy²`, the force and the radius |
| `Container.ClampsAreFlush` | src/physics/container.rs:19-40 | with the box at the origin, a clamped particle is exactly one radius from the wall |
| `Container.NearClampsIgnoreWallPosition` | src/physics/container.rs:19-34 | with the left wall (the ceiling) away from 0, a particle clamped by it is not one radius from it |
| `Container.FarBeyondWallsIgnored` | src/physics/container.rs:19-40 | a particle more than a radius beyond a wall is not reflected by it |
| `Container.GateIdle` | src/physics/container.rs:43 | the gate acts only when the demon is looking and the particle reaches the midline |
| `Container.NewContainerNeverGates` | src/physics/container.rs:11-13 | a new container applies only the four walls |
| `Container.GatePassesIff` | src/physics/container.rs:48-56 | at the midline a particle passes unchanged iff (vx<0 and speed≥140) or (vx>0 and speed≤10) |
| `Container.GateReflectsVerticalMotion` | src/physics/container.rs:48-56 | vx = 0 is always reflected |
| `Container.GateBlockedMoves` | src/physics/container.rs:48-56 | blocked leftward: `px += r`; blocked rightward: `px −= r`; vx negated |
| `Container.GateBySquares` | src/physics/container.rs:44-53 | the speed tests are the same tests on the squared speed |
| `Container.LeftWallBounce` | src/physics/container.rs:19-22 | x = 4.5, r = 5, vx = −3 becomes x = 5, vx = 3 |
| `Container.FastLeftwardPasses` | src/physics/container.rs:48-56 | at the midline, leftward at speed 150 passes unchanged |
| `Container.RightwardByGateSpeed` | src/physics/container.rs:53-56 | rightward at speed 5 passes; at speed 50 it is pushed back by its radius and reversed |
| `Stepper.ResetForces` | src/rendering/state.rs:65-67 | every force is (0,0), everything else kept, before any pair is resolved |
| `Stepper.PairsAreAllOrderedPairs` | src/rendering/state.rs:70-79 | the nested loop visits `n(n−1)/2` pairs, exactly the pairs `i<j<n`, in strictly increasing lexicographic order |
| `Stepper.ApplyPairsKeeps` | src/rendering/state.rs:70-79 | any run of pair resolutions keeps the count, every radius and the sums of positions, velocities and forces |
| `Stepper.PairPassBalancesForces` | src/rendering/state.rs:65-79 | after reset and pair pass the forces sum to (0,0); velocity and position sums are unchanged |
| `Stepper.StepKeepsRadii` | src/rendering/state.rs:61-86 | a step keeps the number of particles and every radius |
| `Stepper.AdvanceAllKeepsRadii` | src/rendering/state.rs:82-85 | integrating and colliding every particle keeps every radius |
| `Stepper.KineticEnergySumSign` | src/rendering/state.rs:52-59 | the summed kinetic energy is ≥ 0, and 0 iff every particle is at rest |
| `State.MainState.constructor` | src/rendering/state.rs:18-34 | box from the origin to width × height, demon not looking, slider 50, not paused, the given particles |
| `State.MainState.PausePlay` | src/rendering/state.rs:36-38 | `paused` is negated, nothing else changes |
| `State.MainState.ComputeSingleInteraction` | src/rendering/state.rs:61-86 | the array becomes `Step` of its old contents: reset, every pair `i<j` in order, then update and collision of each particle |
| `State.MainState.ResetForces` | src/rendering/state.rs:65-67 | the first loop produces `Stepper.ResetForces` of the array |
| `State.MainState.ResolveAllPairs` | src/rendering/state.rs:70-79 | the nested loop applies exactly `Pairs(n)`, in order |
| `State.MainState.ResolveRow` | src/rendering/state.rs:73-78 | the inner loop applies the pairs (i, i+1) … (i, n−1) |
| `State.MainState.ResolvePairInPlace` | src/rendering/state.rs:74-77 | resolving one pair in place extends the pairs done by (i, j) |
| `State.MainState.AdvanceAll` | src/rendering/state.rs:82-85 | each particle in index order is integrated, then collided |
| `State.MainState.UpdateState` | src/rendering/state.rs:40-50 | exactly 20 steps of length `dt/20`; count and radii kept |
| `State.MainState.AverageKineticEnergy` | src/rendering/state.rs:52-59 | the sum of kinetic energies over the count, ≥ 0; no value for zero particles |
| `Events.Update` | src/rendering/events.rs:38-43 | nothing changes while paused; otherwise a whole frame of 20 sub-steps |
| `Events.Region` | src/rendering/events.rs:92-101 | a region holds exactly the particles on its side of the split |
| `Events.RegionsPartition` | src/rendering/events.rs:92-101 | each particle is in exactly one region: the two regions together are the collection, so `left_count + right_count == N` |
| `Events.Temperature` | src/rendering/events.rs:102-103 | a region's temperature is ≥ 0, and 0 for an empty region |
| `Events.Temperatures` | src/rendering/events.rs:86-103 | the loop yields each region's mean kinetic energy (0 when empty), split at `(w−150)/2` |
| `Events.SplitIsNotGate` | src/rendering/events.rs:86 | the split `(w−150)/2` equals the gate's midline `(w−x)/2` only when `x = 150` |
| `Events.Clamp` | src/rendering/events.rs:160 | the result lies in the range, and is `x` when `x` does |
| `Events.SliderReading` | src/rendering/events.rs:149-160 | a slider reading is always in 0..100 |
| `Events.SliderEnds` | src/rendering/events.rs:151-160 | the slider's left end reads 0 and its right end reads 100 |
| `Events.MouseButtonDown` | src/rendering/events.rs:147-169 | inside the slider: slider set, gate kept; outside: left button sets the demon not looking, right button sets it looking, others change nothing |
| `Events.KeyDown` | src/rendering/events.rs:171-177 | space toggles pause; right arrow runs a frame whether paused or not; other keys change nothing |

## Left out

- `f32` semantics (rounding, NaN, infinities, overflow): all arithmetic is over `real`; `powf(2.0)`/`powi(2)` are products.
- `sqrt` is not computed: it is a parameter, and the methods that run the step require it to be an exact root (`Utils.ExactSqrt`), which rules out the divisions by zero the code can otherwise reach.
- `Particles.KineticEnergy`: the code squares the root of `vx²+vy²`; the model takes `½(vx²+vy²)` directly, with no `sqrt` parameter, so every kinetic energy (including `State.MainState.AverageKineticEnergy` and `Events.Temperatures`, which require no exact root) is computed as if the root were exact. `Particles.KineticEnergyFromSpeed` shows the two forms agree under an exact root.
- `Particle::new` and `random_vector` (thread-local random numbers and trigonometry): the constructor of `MainState` takes the initial particles as given.
- `Particle::color`, `draw_slider` and all drawing in `draw`: rendering only.
- The window and event loop: the frame's `dt` (`timer::delta`) is a parameter, and whether a click lies inside the slider (`Rect::contains`) is a boolean parameter.
- `src/rendering/simulation.rs`, `src/rendering/example.rs` and `src/main.rs` are not part of this model.
- `State.MainState.AverageKineticEnergy`: for zero particles the code yields 0/0 (NaN); the model returns `None` instead of a number.
- Aliasing: particles are records copied in and out of the array cells, which is what `split_at_mut` guarantees (the two particles of a pair are distinct cells).
