/** Creation of the ball collection (`initializeBalls`) and the stop-flag loop of
    `cleanupBalls`. The results of `rand()` are passed in as a stream of naturals. */
module Lifecycle {
  import opened Balls

  /** Number of `rand()` results one ball consumes: x, y, vx, vy and radius, in that order. */
  const DrawsPerBall: nat := 5

  /** Velocity component from one `rand()` result: `((r % 200) - 100) / 100`. */
  function SpeedFrom(draw: nat): (v: real)
    ensures -1.0 <= v <= 0.99
    ensures v * 100.0 == (v * 100.0).Floor as real
  {
    var k: int := (draw % 200) - 100;
    assert (k as real / 100.0) * 100.0 == k as real;
    k as real / 100.0
  }

  /** Ball number `i` built from its five `rand()` results. */
  function NewBall(i: nat, draws: seq<nat>): (ball: Ball)
    requires |draws| == DrawsPerBall
    ensures 0.0 <= ball.x < Width && 0.0 <= ball.y < Height
    ensures ball.x == (ball.x.Floor) as real && ball.y == (ball.y.Floor) as real
    ensures -1.0 <= ball.vx <= 0.99 && -1.0 <= ball.vy <= 0.99
    ensures ball.radius == 25.0 || ball.radius == 50.0 || ball.radius == 75.0
    ensures ball.running
    // One channel is lit, chosen by the creation index: red, green, blue, red, ...
    ensures ball.r == (if i % 3 == 0 then 1.0 else 0.0)
    ensures ball.g == (if i % 3 == 1 then 1.0 else 0.0)
    ensures ball.b == (if i % 3 == 2 then 1.0 else 0.0)
  {
    var x := (draws[0] % 800) as real;
    var y := (draws[1] % 600) as real;
    var radius := ((draws[4] % 3 + 1) * 25) as real;
    var (r, g, b) :=
      if i % 3 == 0 then (1.0, 0.0, 0.0)
      else if i % 3 == 1 then (0.0, 1.0, 0.0)
      else (0.0, 0.0, 1.0);
    Ball(x, y, SpeedFrom(draws[2]), SpeedFrom(draws[3]), radius, r, g, b, true)
  }

  /** A freshly created ball fits the arena's size bound used by the wall invariant, but its
      position is drawn without regard to its radius, so it may start across a wall. */
  lemma NewBallSize(i: nat, draws: seq<nat>)
    requires |draws| == DrawsPerBall
    ensures 0.0 < NewBall(i, draws).radius <= Height / 2.0
  {
  }

  /** Ball 0 drawn from all-zero `rand()` results sits at the origin, overlapping two walls. */
  lemma NewBallMayStartOutside()
    ensures !InArena(NewBall(0, [0, 0, 0, 0, 0]))
  {
  }

  /** `initializeBalls(numBalls)`: `numBalls` balls pushed in index order, ball `k` built from
      the `rand()` results `rands[5k .. 5k+5]`. A negative count creates no ball. */
  method InitializeBalls(numBalls: int, rands: seq<nat>) returns (balls: array<Ball>)
    requires DrawsPerBall * numBalls <= |rands|
    ensures fresh(balls)
    ensures balls.Length == if numBalls < 0 then 0 else numBalls
    ensures forall k :: 0 <= k < balls.Length ==>
              balls[k] == NewBall(k, rands[DrawsPerBall * k .. DrawsPerBall * (k + 1)])
  {
    var created: seq<Ball> := [];
    var i := 0;
    while i < numBalls
      invariant 0 <= i && (numBalls < 0 ==> i == 0) && (0 <= numBalls ==> i <= numBalls)
      invariant |created| == i
      invariant forall k :: 0 <= k < i ==>
                  created[k] == NewBall(k, rands[DrawsPerBall * k .. DrawsPerBall * (k + 1)])
    {
      var draws := rands[DrawsPerBall * i .. DrawsPerBall * (i + 1)];
      var x := (draws[0] % 800) as real;
      var y := (draws[1] % 600) as real;
      var vx := ((draws[2] % 200) as int - 100) as real / 100.0;
      var vy := ((draws[3] % 200) as int - 100) as real / 100.0;
      var radius := ((draws[4] % 3 + 1) * 25) as real;
      var r, g, b;
      if i % 3 == 0 {
        r, g, b := 1.0, 0.0, 0.0;
      } else if i % 3 == 1 {
        r, g, b := 0.0, 1.0, 0.0;
      } else {
        r, g, b := 0.0, 0.0, 1.0;
      }
      var ball := Ball(x, y, vx, vy, radius, r, g, b, true);
      created := created + [ball];
      i := i + 1;
    }
    balls := new Ball[|created|](k requires 0 <= k < |created| => created[k]);
  }

  /** The flag loop of `cleanupBalls`: every ball's `running` becomes false and nothing
      else changes. Joining the worker threads is not modelled. */
  method CleanupBalls(balls: array<Ball>)
    modifies balls
    ensures forall k :: 0 <= k < balls.Length ==> balls[k] == old(balls[k]).(running := false)
  {
    for k := 0 to balls.Length
      invariant forall m :: 0 <= m < k ==> balls[m] == old(balls[m]).(running := false)
      invariant forall m :: k <= m < balls.Length ==> balls[m] == old(balls[m])
    {
      balls[k] := balls[k].(running := false);
    }
  }
}
