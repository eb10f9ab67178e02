/** One tick of `updateBall` for ball `i`, as run while the mutex is held: gravity,
    integration, the four wall clamps, then the collision sweep over every other ball. */
module Tick {
  import opened Balls
  import opened Collision

  /** Gravity is added to `vy`, then the position moves by the new velocity. */
  function Integrate(ball: Ball): (moved: Ball)
    ensures moved.vy - ball.vy == Gravity
    ensures moved.x - ball.x == ball.vx && moved.y - ball.y == moved.vy
    ensures moved == ball.(x := moved.x, y := moved.y, vy := moved.vy)
  {
    var fallen := ball.(vy := ball.vy + Gravity);
    fallen.(x := fallen.x + fallen.vx, y := fallen.y + fallen.vy)
  }

  /** The four wall clamps, left, right, bottom, top, each placing the ball on the edge and
      reflecting that velocity component. */
  function WallPhase(ball: Ball): (bounced: Ball)
    ensures bounced == ball.(x := bounced.x, y := bounced.y, vx := bounced.vx, vy := bounced.vy)
    ensures InArena(ball) ==> bounced == ball
    ensures ball.radius <= Width / 2.0 && ball.radius <= Height / 2.0 ==> InArena(bounced)
    ensures ball.radius <= Width / 2.0 ==>
      if ball.x - ball.radius < 0.0 then bounced.x == ball.radius && bounced.vx == -ball.vx
      else if ball.x + ball.radius > Width then bounced.x == Width - ball.radius && bounced.vx == -ball.vx
      else bounced.x == ball.x && bounced.vx == ball.vx
    ensures ball.radius <= Height / 2.0 ==>
      if ball.y - ball.radius < 0.0 then bounced.y == ball.radius && bounced.vy == -ball.vy
      else if ball.y + ball.radius > Height then bounced.y == Height - ball.radius && bounced.vy == -ball.vy
      else bounced.y == ball.y && bounced.vy == ball.vy
    // A ball wider than the arena ends on the right or top edge: the low edge is tested first.
    ensures Width < 2.0 * ball.radius ==> bounced.x == Width - ball.radius
    ensures Height < 2.0 * ball.radius ==> bounced.y == Height - ball.radius
  {
    var left := if ball.x - ball.radius < 0.0 then ball.(x := ball.radius, vx := -ball.vx) else ball;
    var right := if left.x + left.radius > Width then left.(x := Width - left.radius, vx := -left.vx) else left;
    var bottom := if right.y - right.radius < 0.0 then right.(y := right.radius, vy := -right.vy) else right;
    if bottom.y + bottom.radius > Height then bottom.(y := Height - bottom.radius, vy := -bottom.vy) else bottom
  }

  /** Every collision of ball `i` with another ball of `s` is defined. Positions and radii are
      all this depends on, and the sweep does not change them. */
  predicate ContactsDefined(s: seq<Ball>, i: nat)
    requires i < |s|
  {
    forall j :: 0 <= j < |s| && j != i ==> NormalDefined(s[i], s[j])
  }

  /** The state after the collision sweep has visited indices `0 .. n-1`: each visit of
      `j != i` is `handleCollision(balls[i], balls[j])`. */
  function SweepUpTo(s: seq<Ball>, i: nat, n: nat): (swept: seq<Ball>)
    requires i < |s| && n <= |s| && ContactsDefined(s, i)
    ensures |swept| == |s|
    ensures forall k :: 0 <= k < |s| ==> OnlyVelocityDiffers(swept[k], s[k])
    ensures forall k :: n <= k < |s| && k != i ==> swept[k] == s[k]
    decreases n
  {
    if n == 0 then s
    else
      var t := SweepUpTo(s, i, n - 1);
      if n - 1 == i then t
      else
        assert NormalDefined(s[i], s[n - 1]);
        var pair := Collide(t[i], t[n - 1]);
        t[i := pair.0][n - 1 := pair.1]
  }

  /** The moved and wall-corrected ball `i` does not share its centre with a ball it overlaps. */
  predicate TickDefined(s: seq<Ball>, i: nat) {
    i < |s| && ContactsDefined(s[i := WallPhase(Integrate(s[i]))], i)
  }

  /** The whole collection after ball `i`'s tick. */
  function Tick(s: seq<Ball>, i: nat): seq<Ball>
    requires TickDefined(s, i)
  {
    SweepUpTo(s[i := WallPhase(Integrate(s[i]))], i, |s|)
  }

  /** The sweep keeps the collection's total velocity (each call keeps its pair's sum) and,
      with `Bounce == 1`, its total sum of squared speeds. */
  lemma {:induction false} SweepConserves(s: seq<Ball>, i: nat, n: nat)
    requires i < |s| && n <= |s| && ContactsDefined(s, i)
    ensures Total(SweepUpTo(s, i, n), Vx) == Total(s, Vx)
    ensures Total(SweepUpTo(s, i, n), Vy) == Total(s, Vy)
    ensures Total(SweepUpTo(s, i, n), Energy) == Total(s, Energy)
  {
    if n > 0 {
      SweepConserves(s, i, n - 1);
      var t := SweepUpTo(s, i, n - 1);
      if n - 1 != i {
        var pair := Collide(t[i], t[n - 1]);
        CollideKeepsEnergy(t[i], t[n - 1]);
        TotalUpdatePair(t, i, n - 1, pair.0, pair.1, Vx);
        TotalUpdatePair(t, i, n - 1, pair.0, pair.1, Vy);
        TotalUpdatePair(t, i, n - 1, pair.0, pair.1, Energy);
      }
    }
  }

  /** A sweep in which ball `i` overlaps no other ball changes nothing. */
  lemma {:induction false} SweepWithoutContact(s: seq<Ball>, i: nat, n: nat)
    requires i < |s| && n <= |s|
    requires forall j :: 0 <= j < |s| && j != i ==> !Overlapping(s[i], s[j])
    ensures ContactsDefined(s, i) && SweepUpTo(s, i, n) == s
  {
    if n > 0 {
      SweepWithoutContact(s, i, n - 1);
    }
  }

  /** The wall invariant: after its tick, ball `i` lies inside the arena, and every other
      ball has kept its position, radius, colour and flag. So a collection that is inside
      the arena stays inside it. */
  lemma TickKeepsArena(s: seq<Ball>, i: nat)
    requires TickDefined(s, i)
    requires 0.0 < s[i].radius <= Height / 2.0
    ensures |Tick(s, i)| == |s|
    ensures InArena(Tick(s, i)[i])
    ensures forall k :: 0 <= k < |s| && k != i ==> OnlyVelocityDiffers(Tick(s, i)[k], s[k])
    ensures (forall k :: 0 <= k < |s| && k != i ==> InArena(s[k])) ==>
              forall k :: 0 <= k < |s| ==> InArena(Tick(s, i)[k])
  {
    var moved := s[i := WallPhase(Integrate(s[i]))];
    assert InArena(moved[i]);
    assert InArena(Tick(s, i)[i]) by {
      assert OnlyVelocityDiffers(Tick(s, i)[i], moved[i]);
    }
  }

  /** A tick far from the walls and from every other ball is pure free flight:
      `vy' = vy + gravity`, `x' = x + vx`, `y' = y + vy'`, and nothing else changes. */
  lemma FreeFlight(s: seq<Ball>, i: nat)
    requires i < |s|
    requires InArena(Integrate(s[i]))
    requires forall j :: 0 <= j < |s| && j != i ==> !Overlapping(Integrate(s[i]), s[j])
    ensures TickDefined(s, i)
    ensures Tick(s, i) == s[i := Integrate(s[i])]
    ensures Tick(s, i)[i].vy == s[i].vy + Gravity
    ensures Tick(s, i)[i].x == s[i].x + s[i].vx
    ensures Tick(s, i)[i].y == s[i].y + s[i].vy + Gravity
  {
    var moved := s[i := Integrate(s[i])];
    assert WallPhase(Integrate(s[i])) == Integrate(s[i]);
    SweepWithoutContact(moved, i, |s|);
  }

  /** One tick of `updateBall(balls[i])`, in place. */
  method UpdateBall(balls: array<Ball>, i: nat)
    requires i < balls.Length && TickDefined(balls[..], i)
    modifies balls
    ensures balls[..] == Tick(old(balls[..]), i)
  {
    // Apply gravity, then move.
    balls[i] := balls[i].(vy := balls[i].vy + Gravity);
    balls[i] := balls[i].(x := balls[i].x + balls[i].vx);
    balls[i] := balls[i].(y := balls[i].y + balls[i].vy);
    assert balls[i] == Integrate(old(balls[i]));

    // Bounce off the window boundaries.
    if balls[i].x - balls[i].radius < 0.0 {
      balls[i] := balls[i].(x := balls[i].radius);
      balls[i] := balls[i].(vx := -balls[i].vx);
    }
    if balls[i].x + balls[i].radius > Width {
      balls[i] := balls[i].(x := Width - balls[i].radius);
      balls[i] := balls[i].(vx := -balls[i].vx);
    }
    if balls[i].y - balls[i].radius < 0.0 {
      balls[i] := balls[i].(y := balls[i].radius);
      balls[i] := balls[i].(vy := -balls[i].vy);
    }
    if balls[i].y + balls[i].radius > Height {
      balls[i] := balls[i].(y := Height - balls[i].radius);
      balls[i] := balls[i].(vy := -balls[i].vy);
    }

    assert balls[i] == WallPhase(Integrate(old(balls[i])));
    assert balls[..] == old(balls[..])[i := WallPhase(Integrate(old(balls[i])))];

    CollideWithOthers(balls, i);
  }

  /** The loop `for (auto& other : balls) if (&ball != &other) handleCollision(ball, other);`
      of `updateBall`, for `ball == balls[i]`. */
  method CollideWithOthers(balls: array<Ball>, i: nat)
    requires i < balls.Length && ContactsDefined(balls[..], i)
    modifies balls
    ensures balls[..] == SweepUpTo(old(balls[..]), i, balls.Length)
  {
    ghost var start := balls[..];
    for j := 0 to balls.Length
      invariant balls[..] == SweepUpTo(start, i, j)
    {
      if j != i {
        ghost var t := balls[..];
        assert NormalDefined(start[i], start[j]);
        SameGeometry(start[i], start[j], t[i], t[j]);
        HandleCollision(balls, i, j);
        assert balls[..] == t[i := Collide(t[i], t[j]).0][j := Collide(t[i], t[j]).1];
      }
    }
  }
}
