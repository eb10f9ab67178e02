# Bouncing balls: one simulation tick, modelled in Dafny

The program simulates a few discs in an 800 × 600 arena. Each disc has its own worker thread. Each worker
repeatedly takes the global mutex and runs one tick for its ball. A tick adds gravity, moves
the ball, clamps it against the four walls, and resolves elastic collisions against every
other ball. This project models that tick as one atomic, sequential step on the shared ball
collection. It also models the ball-attribute rules of `initializeBalls` and the stop-flag loop
of `cleanupBalls`.

- `balls.dfy` (module `Balls`): the `Ball` record, the arena constants (width 800,
  height 600, gravity −0.03, bounce 1), the wall invariant `InArena`, and sums over the
  collection (`Total`).
- `collision.dfy` (module `Collision`): `handleCollision` as the function `Collide` and as
  the in-place method `HandleCollision` on the ball array.
- `tick.dfy` (module `Tick`): the locked body of `updateBall`. It is specified by the functions
  `Integrate`, `WallPhase`, `SweepUpTo` and `Tick`, and implemented by the in-place methods
  `UpdateBall` and `CollideWithOthers`.
- `lifecycle.dfy` (module `Lifecycle`): `initializeBalls` and `cleanupBalls`.

The global `std::vector<Ball> balls` is an `array<Ball>` that the methods take as a
parameter. Its length never changes after creation. A write through the `Ball&` reference
`ball` is a write to one array element, `balls[i] := balls[i].(vy := ...)`.
Floats are `real`.

`sqrt` has no counterpart over the reals. So the collision rule is written over the squared
distance `d2 = dx*dx + dy*dy`:
- The overlap test becomes `0 < r1 + r2 && d2 < (r1 + r2)^2`. This is exactly `sqrt(d2) < r1 + r2`.
- The separating test becomes `dot > 0`, where `dot` is the relative velocity dotted with
  `(dx, dy)`. `dot` is `velocity_along_normal * distance`.
- `impulse * nx` becomes `scale * dx`, where `scale = (-(1 + bounce) * (dot / d2)) / 2`.

`SqrtFreeOverlap` and `SqrtFreeImpulse` prove that this matches the code's formulas for
every `distance` with `distance * distance == d2`.

Three behaviours of the code differ from what a reader might expect. The model follows the code:
- Coincident centres are not guarded against. When two overlapping balls share a centre,
  `dx / distance` divides by zero. So `Collide`, `HandleCollision` and the tick require
  `NormalDefined`: if two balls overlap, their centres differ.
- Initial positions are not kept clear of the walls by the radius. The code draws `x` from
  0..799 and `y` from 0..599 whatever the radius. `NewBallMayStartOutside` exhibits such a
  ball. The first tick clamps it.
- A comment gives the velocity range as −1.00 to 1.00. The code gives −1.00 to 0.99.

The collision loop of `updateBall` is written inline in the code. Here it is a separate method,
`CollideWithOthers`, which `UpdateBall` calls last.

## Model

| member | source | states |
|---|---|---|
| `Collision.Collide` | main.cpp:23-56 | Only `vx`/`vy` of the two balls change. The pair's velocity sum is kept in both components. Balls that do not overlap are returned unchanged, and so are separating balls. |
| `Collision.CollideReversesNormalVelocity` | main.cpp:46-54 | When the impulse is applied with bounce 1, the relative velocity along the centre line is exactly negated. |
| `Collision.CollideKeepsEnergy` | main.cpp:46-54 | With bounce 1, the pair's sum of squared speeds is the same after the call, whatever the input ("no energy lost"). |
| `Collision.SqrtFreeOverlap` | main.cpp:25-30 | For any non-negative `distance` whose square is `d2`, the sqrt-free overlap test holds iff `distance < r1 + r2`. |
| `Collision.SqrtFreeImpulse` | main.cpp:32-54 | For overlapping balls and any such `distance`: `distance > 0`. The balls separate iff `velocity_along_normal > 0`, computed with `nx = dx/distance`. Otherwise the four new velocity components are the source's `v -= impulse*n` and `v += impulse*n`. |
| `Collision.HeadOnSwap` | main.cpp:46-54 | A at x=100 with vx=+1 and B at x=140 with vx=−1, both of radius 25, end with vx=−1 and vx=+1. |
| `Collision.MovingApartUnchanged` | main.cpp:36-43 | The same pair moving apart is left unchanged. |
| `Collision.HandleCollision` | main.cpp:23-56 | In place on the array: only elements `i` and `j` change, and they become the two results of `Collide`. |
| `Collision.SameGeometry` | main.cpp:25-30 | Whether two balls overlap, and their squared distance, do not depend on their velocities. |
| `Tick.Integrate` | main.cpp:70-75 | `vy' = vy + gravity`, then `x' = x + vx` and `y' = y + vy'`. No other field changes. |
| `Tick.WallPhase` | main.cpp:77-93 | Only position and velocity change. A ball already inside the arena is unchanged. With radius ≤ 300, the result is inside the arena. Per axis, a clamp that fires puts the coordinate exactly on that edge and negates that velocity component; otherwise both stay. If the ball is wider than the arena, the high-edge clamp wins, because the low edge is tested first. |
| `Tick.SweepUpTo` | main.cpp:95-100 | The sweep keeps the collection's length. It changes only velocities, so every position, radius, colour and flag is kept. Balls not yet visited are unchanged. |
| `Tick.SweepConserves` | main.cpp:95-100 | The sweep keeps the whole collection's total `vx`, total `vy` and total sum of squared speeds. |
| `Tick.SweepWithoutContact` | main.cpp:95-100 | If ball `i` overlaps no other ball, the sweep changes nothing. |
| `Tick.TickKeepsArena` | main.cpp:70-100 | If ball `i` has radius in (0, 300], it ends inside the arena after its tick. Every other ball keeps its position, radius, colour and flag. So a collection inside the arena stays inside it. |
| `Tick.FreeFlight` | main.cpp:70-100 | Away from walls and other balls, a tick changes only ball `i`: `vy' = vy − 0.03`, `x' = x + vx`, `y' = y + vy'`. |
| `Tick.UpdateBall` | main.cpp:70-100 | In place, the array becomes `Tick` of its old contents: gravity, move, four clamps, then the sweep. |
| `Tick.CollideWithOthers` | main.cpp:95-100 | In place, the loop applies `handleCollision(balls[i], balls[j])` for every `j != i` in vector order, which is `SweepUpTo` over the whole array. |
| `Lifecycle.SpeedFrom` | main.cpp:112-113 | A velocity component from one `rand()` result lies in [−1.00, 0.99] and is a whole number of hundredths. |
| `Lifecycle.NewBall` | main.cpp:108-127 | `x` is a whole number in [0, 800) and `y` a whole number in [0, 600). Both velocity components are in [−1.00, 0.99]. The radius is 25, 50 or 75. `running` is true. The colour is red, green or blue as `i % 3` is 0, 1 or 2. |
| `Lifecycle.NewBallSize` | main.cpp:114 | Every created ball has 0 < radius ≤ 300, the bound under which the wall invariant holds. |
| `Lifecycle.NewBallMayStartOutside` | main.cpp:110-114 | A ball created from all-zero `rand()` results is not inside the arena. |
| `Lifecycle.InitializeBalls` | main.cpp:106-129 | Returns a fresh array of `max(numBalls, 0)` balls, ball `k` built by `NewBall` from the five `rand()` results `5k .. 5k+4`. |
| `Lifecycle.CleanupBalls` | main.cpp:138-140 | Every ball's `running` becomes false and nothing else changes. |

## Left out

- Threads, the mutex, `sleep_for`, the `while (ball.running)` worker loop, thread start-up and
  `join` (main.cpp:63-68, 131-134, 141-143). They are concurrency and scheduling. One tick is
  modelled as an atomic sequential step, which is what the mutex provides.
- `drawBall` and `main` (main.cpp:147-209). They are OpenGL/GLFW window set-up, rendering and
  event polling.
- `srand`, `rand` and `time` (main.cpp:107-114). The `rand()` results are a parameter of
  `InitializeBalls`.
- IEEE single-precision rounding and NaN. Arithmetic is over `real`, so momentum and energy
  are conserved exactly here, but only approximately in floats.
- `std::sqrt`. It is replaced by the squared-distance form, proved equivalent by
  `SqrtFreeOverlap` and `SqrtFreeImpulse`.
- `Collide`: the division by zero when two overlapping balls share a centre gives NaN
  velocities in the code. `NormalDefined` excludes it instead of modelling it.
