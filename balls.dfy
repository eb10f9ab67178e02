/** The ball record shared by every component, the arena constants, and sums over
    the whole ball collection. Floats are modelled as `real`. */
module Balls {

  /** One entry of the shared `balls` vector: position, velocity, radius, colour and
      the worker's stop flag. The per-ball thread handle is not modelled. */
  datatype Ball = Ball(
    x: real, y: real,
    vx: real, vy: real,
    radius: real,
    r: real, g: real, b: real,
    running: bool)

  const Width: real := 800.0
  const Height: real := 600.0
  /** Added to `vy` once per tick. */
  const Gravity: real := -0.03
  /** Coefficient of restitution used by the collision rule (1 = no energy lost). */
  const Bounce: real := 1.0

  /** `a` is `b` with at most its velocity changed. */
  predicate OnlyVelocityDiffers(a: Ball, b: Ball) {
    a == b.(vx := a.vx, vy := a.vy)
  }

  /** The wall invariant: the whole disc lies inside the 800 x 600 arena. */
  predicate InArena(ball: Ball) {
    && ball.radius <= ball.x <= Width - ball.radius
    && ball.radius <= ball.y <= Height - ball.radius
  }

  function Vx(ball: Ball): real { ball.vx }

  function Vy(ball: Ball): real { ball.vy }

  /** Sum of squared speed components; with unit masses this is twice the kinetic energy. */
  function Energy(ball: Ball): real { ball.vx * ball.vx + ball.vy * ball.vy }

  /** The sum of `f` over every ball of the collection. */
  function Total(s: seq<Ball>, f: Ball -> real): real {
    if s == [] then 0.0 else f(s[0]) + Total(s[1..], f)
  }

  /** Replacing one ball changes a total by exactly that ball's contribution. */
  lemma {:induction false} TotalUpdate(s: seq<Ball>, k: nat, ball: Ball, f: Ball -> real)
    requires k < |s|
    ensures Total(s[k := ball], f) == Total(s, f) - f(s[k]) + f(ball)
  {
    if k == 0 {
      assert s[k := ball][1..] == s[1..];
    } else {
      assert s[k := ball][1..] == s[1..][k - 1 := ball];
      TotalUpdate(s[1..], k - 1, ball, f);
    }
  }

  /** Replacing two distinct balls by a pair with the same combined contribution keeps a total. */
  lemma TotalUpdatePair(s: seq<Ball>, i: nat, j: nat, a: Ball, c: Ball, f: Ball -> real)
    requires i < |s| && j < |s| && i != j
    requires f(a) + f(c) == f(s[i]) + f(s[j])
    ensures Total(s[i := a][j := c], f) == Total(s, f)
  {
    TotalUpdate(s, i, a, f);
    TotalUpdate(s[i := a], j, c, f);
  }
}
