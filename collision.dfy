/** The pairwise elastic collision rule `handleCollision`.

    The source normalises the centre line with `sqrt`. Reals have no square root, so the
    rule is written over the squared distance d2 = dx*dx + dy*dy instead:
    - `distance < r1 + r2` becomes `0 < r1 + r2 && d2 < (r1 + r2)^2`;
    - `velocity_along_normal > 0` becomes `dot > 0`, where dot = (relative velocity) . (dx, dy)
      is `velocity_along_normal * distance`;
    - `impulse * nx` becomes `scale * dx` with scale = -(1 + Bounce) * dot / (2 * d2).
    `SqrtFreeOverlap` and `SqrtFreeImpulse` prove that these agree with the source's formulas for any distance
    whose square is d2. */
module Collision {
  import opened Balls

  function Dx(ball1: Ball, ball2: Ball): real { ball2.x - ball1.x }

  function Dy(ball1: Ball, ball2: Ball): real { ball2.y - ball1.y }

  /** Square of the centre-to-centre distance. */
  function SqDist(ball1: Ball, ball2: Ball): real {
    Dx(ball1, ball2) * Dx(ball1, ball2) + Dy(ball1, ball2) * Dy(ball1, ball2)
  }

  /** The source's test `distance < ball1.radius + ball2.radius`, without the square root. */
  predicate Overlapping(ball1: Ball, ball2: Ball) {
    var reach := ball1.radius + ball2.radius;
    0.0 < reach && SqDist(ball1, ball2) < reach * reach
  }

  /** Velocities play no part in whether two balls overlap. */
  lemma SameGeometry(a: Ball, c: Ball, a2: Ball, c2: Ball)
    requires OnlyVelocityDiffers(a2, a) && OnlyVelocityDiffers(c2, c)
    ensures SqDist(a2, c2) == SqDist(a, c)
    ensures Overlapping(a2, c2) == Overlapping(a, c)
  {
    assert Dx(a2, c2) == Dx(a, c) && Dy(a2, c2) == Dy(a, c);
  }

  /** The source divides by the distance exactly when the balls overlap; it has no guard
      for coincident centres, so that case is excluded here. */
  predicate NormalDefined(ball1: Ball, ball2: Ball) {
    Overlapping(ball1, ball2) ==> 0.0 < SqDist(ball1, ball2)
  }

  /** Relative velocity of `ball2` with respect to `ball1`, projected on the (unnormalised)
      centre line; it has the sign of the source's `velocity_along_normal`. */
  function NormalDot(ball1: Ball, ball2: Ball): real {
    (ball2.vx - ball1.vx) * Dx(ball1, ball2) + (ball2.vy - ball1.vy) * Dy(ball1, ball2)
  }

  /** The balls are moving apart, so the source returns without an impulse. */
  predicate Separating(ball1: Ball, ball2: Ball) {
    NormalDot(ball1, ball2) > 0.0
  }

  /** `impulse / distance` of the source, so that `impulse * nx == ImpulseScale * dx`. */
  function ImpulseScale(ball1: Ball, ball2: Ball): real
    requires 0.0 < SqDist(ball1, ball2)
  {
    (-(1.0 + Bounce) * (NormalDot(ball1, ball2) / SqDist(ball1, ball2))) / 2.0
  }

  /** The new states of the two balls after `handleCollision(ball1, ball2)`. */
  function Collide(ball1: Ball, ball2: Ball): (pair: (Ball, Ball))
    requires NormalDefined(ball1, ball2)
    ensures OnlyVelocityDiffers(pair.0, ball1) && OnlyVelocityDiffers(pair.1, ball2)
    ensures pair.0.vx + pair.1.vx == ball1.vx + ball2.vx
    ensures pair.0.vy + pair.1.vy == ball1.vy + ball2.vy
    ensures !Overlapping(ball1, ball2) ==> pair == (ball1, ball2)
    ensures Separating(ball1, ball2) ==> pair == (ball1, ball2)
  {
    if !Overlapping(ball1, ball2) || Separating(ball1, ball2) then
      (ball1, ball2)
    else
      var scale := ImpulseScale(ball1, ball2);
      var ix, iy := scale * Dx(ball1, ball2), scale * Dy(ball1, ball2);
      (ball1.(vx := ball1.vx - ix, vy := ball1.vy - iy),
       ball2.(vx := ball2.vx + ix, vy := ball2.vy + iy))
  }

  /** With `Bounce == 1` the relative velocity along the normal is reversed. */
  lemma CollideReversesNormalVelocity(ball1: Ball, ball2: Ball)
    requires NormalDefined(ball1, ball2)
    requires Overlapping(ball1, ball2) && !Separating(ball1, ball2)
    ensures NormalDot(Collide(ball1, ball2).0, Collide(ball1, ball2).1) == -NormalDot(ball1, ball2)
  {
    var (a, c) := Collide(ball1, ball2);
    var dx, dy := Dx(ball1, ball2), Dy(ball1, ball2);
    var d2, dot, s := SqDist(ball1, ball2), NormalDot(ball1, ball2), ImpulseScale(ball1, ball2);
    assert Dx(a, c) == dx && Dy(a, c) == dy;
    assert s * d2 == -dot;
    calc {
      NormalDot(a, c);
      (ball2.vx - ball1.vx + 2.0 * s * dx) * dx + (ball2.vy - ball1.vy + 2.0 * s * dy) * dy;
      dot + 2.0 * s * d2;
    }
  }

  /** With `Bounce == 1` no energy is lost: the pair's sum of squared speeds is kept,
      whether or not the impulse is applied. */
  lemma CollideKeepsEnergy(ball1: Ball, ball2: Ball)
    requires NormalDefined(ball1, ball2)
    ensures Energy(Collide(ball1, ball2).0) + Energy(Collide(ball1, ball2).1)
         == Energy(ball1) + Energy(ball2)
  {
    if Overlapping(ball1, ball2) && !Separating(ball1, ball2) {
      var (a, c) := Collide(ball1, ball2);
      var dx, dy := Dx(ball1, ball2), Dy(ball1, ball2);
      var d2, dot, s := SqDist(ball1, ball2), NormalDot(ball1, ball2), ImpulseScale(ball1, ball2);
      var p1 := ball1.vx * dx + ball1.vy * dy;
      var p2 := ball2.vx * dx + ball2.vy * dy;
      assert s * d2 == -dot;
      assert dot == p2 - p1;
      assert Energy(a) == Energy(ball1) - 2.0 * s * p1 + s * s * d2;
      assert Energy(c) == Energy(ball2) + 2.0 * s * p2 + s * s * d2;
      assert 2.0 * s * (p2 - p1) + 2.0 * s * (s * d2) == 0.0;
    }
  }

  /** The overlap test without the square root is the source's `distance < r1 + r2`, for
      any `distance` whose square is d2. */
  lemma SqrtFreeOverlap(ball1: Ball, ball2: Ball, distance: real)
    requires 0.0 <= distance && distance * distance == SqDist(ball1, ball2)
    ensures Overlapping(ball1, ball2) <==> distance < ball1.radius + ball2.radius
  {
    SqrtCompare(SqDist(ball1, ball2), distance, ball1.radius + ball2.radius);
  }

  /** For overlapping balls, the separating test and the velocity updates the source computes
      through `nx = dx / distance`, `velocity_along_normal` and `impulse` are those of
      `Collide`, for any positive `distance` whose square is d2. */
  lemma SqrtFreeImpulse(ball1: Ball, ball2: Ball, distance: real)
    requires NormalDefined(ball1, ball2) && Overlapping(ball1, ball2)
    requires 0.0 <= distance && distance * distance == SqDist(ball1, ball2)
    ensures 0.0 < distance
    ensures
      var nx, ny := Dx(ball1, ball2) / distance, Dy(ball1, ball2) / distance;
      var alongNormal := (ball2.vx - ball1.vx) * nx + (ball2.vy - ball1.vy) * ny;
      var impulse := (-(1.0 + Bounce) * alongNormal) / 2.0;
      && (Separating(ball1, ball2) <==> alongNormal > 0.0)
      && (alongNormal <= 0.0 ==>
            && Collide(ball1, ball2).0.vx == ball1.vx - impulse * nx
            && Collide(ball1, ball2).0.vy == ball1.vy - impulse * ny
            && Collide(ball1, ball2).1.vx == ball2.vx + impulse * nx
            && Collide(ball1, ball2).1.vy == ball2.vy + impulse * ny)
  {
    var sq := SqDist(ball1, ball2);
    var dx, dy := Dx(ball1, ball2), Dy(ball1, ball2);
    var rvx, rvy := ball2.vx - ball1.vx, ball2.vy - ball1.vy;
    PositiveRoot(distance, sq);
    DivMul(dx, distance);
    DivMul(dy, distance);
    var nx, ny := dx / distance, dy / distance;
    var alongNormal := rvx * nx + rvy * ny;
    Projection(rvx, rvy, nx, ny, dx, dy, distance);
    SameSign(alongNormal, distance);
    assert NormalDot(ball1, ball2) == alongNormal * distance;
    assert Separating(ball1, ball2) <==> alongNormal > 0.0;
    ImpulseComponent(-(1.0 + Bounce), alongNormal, nx, NormalDot(ball1, ball2), dx, distance, sq);
    ImpulseComponent(-(1.0 + Bounce), alongNormal, ny, NormalDot(ball1, ball2), dy, distance, sq);
    var impulse := (-(1.0 + Bounce) * alongNormal) / 2.0;
    assert impulse * nx == ImpulseScale(ball1, ball2) * dx;
    assert impulse * ny == ImpulseScale(ball1, ball2) * dy;
  }

  // Real-arithmetic steps of SqrtFreeOverlap and SqrtFreeImpulse, each kept small for the solver.

  lemma SqrtCompare(sq: real, distance: real, reach: real)
    requires 0.0 <= distance && distance * distance == sq
    ensures distance < reach <==> 0.0 < reach && sq < reach * reach
  {
    if distance < reach {
      calc { sq; == distance * distance; <= distance * reach; < reach * reach; }
    } else if 0.0 < reach {
      calc { sq; == distance * distance; >= distance * reach; >= reach * reach; }
    }
  }

  lemma PositiveRoot(distance: real, sq: real)
    requires 0.0 <= distance && distance * distance == sq && 0.0 < sq
    ensures 0.0 < distance
  {
    assert distance == 0.0 ==> distance * distance == 0.0;
  }

  lemma DivMul(a: real, b: real)
    requires 0.0 < b
    ensures (a / b) * b == a
  {
  }

  lemma CancelPositive(a: real, b: real, c: real)
    requires 0.0 < c && a * c == b * c
    ensures a == b
  {
  }

  lemma SameSign(a: real, b: real)
    requires 0.0 < b
    ensures a > 0.0 <==> a * b > 0.0
  {
  }

  lemma Projection(rvx: real, rvy: real, nx: real, ny: real, dx: real, dy: real, distance: real)
    requires nx * distance == dx && ny * distance == dy
    ensures (rvx * nx + rvy * ny) * distance == rvx * dx + rvy * dy
  {
  }

  lemma ProductOfRatios(along: real, n: real, dot: real, d: real, distance: real, sq: real)
    requires 0.0 < sq && sq == distance * distance
    requires along * distance == dot && n * distance == d
    ensures along * n == (dot / sq) * d
  {
    DivMul(dot, sq);
    calc {
      (along * n) * sq;
      (along * distance) * (n * distance);
      dot * d;
      ((dot / sq) * sq) * d;
      ((dot / sq) * d) * sq;
    }
    CancelPositive(along * n, (dot / sq) * d, sq);
  }

  lemma ImpulseComponent(c: real, along: real, n: real, dot: real, d: real, distance: real, sq: real)
    requires 0.0 < sq && sq == distance * distance
    requires along * distance == dot && n * distance == d
    ensures ((c * along) / 2.0) * n == ((c * (dot / sq)) / 2.0) * d
  {
    ProductOfRatios(along, n, dot, d, distance, sq);
    calc {
      ((c * along) / 2.0) * n;
      (c / 2.0) * (along * n);
      (c / 2.0) * ((dot / sq) * d);
      ((c * (dot / sq)) / 2.0) * d;
    }
  }

  /** The head-on example: A at x=100 moving right, B at x=140 moving left, both of radius 25,
      swap their velocities. */
  lemma HeadOnSwap()
    ensures
      var a := Ball(100.0, 300.0, 1.0, 0.0, 25.0, 1.0, 0.0, 0.0, true);
      var c := Ball(140.0, 300.0, -1.0, 0.0, 25.0, 0.0, 1.0, 0.0, true);
      Collide(a, c) == (a.(vx := -1.0), c.(vx := 1.0))
  {
  }

  /** The same pair moving apart is left alone. */
  lemma MovingApartUnchanged()
    ensures
      var a := Ball(100.0, 300.0, -1.0, 0.0, 25.0, 1.0, 0.0, 0.0, true);
      var c := Ball(140.0, 300.0, 1.0, 0.0, 25.0, 0.0, 1.0, 0.0, true);
      Collide(a, c) == (a, c)
  {
  }

  /** `handleCollision(balls[i], balls[j])`: updates the two velocities in place. */
  method HandleCollision(balls: array<Ball>, i: nat, j: nat)
    requires i < balls.Length && j < balls.Length && i != j
    requires NormalDefined(balls[i], balls[j])
    modifies balls
    ensures balls[..] == old(balls[..])[i := Collide(old(balls[i]), old(balls[j])).0]
                                       [j := Collide(old(balls[i]), old(balls[j])).1]
  {
    var ball1, ball2 := balls[i], balls[j];
    var dx := ball2.x - ball1.x;
    var dy := ball2.y - ball1.y;
    var sqDistance := dx * dx + dy * dy;
    var reach := ball1.radius + ball2.radius;
    assert sqDistance == SqDist(ball1, ball2);

    if 0.0 < reach && sqDistance < reach * reach {
      var vxRelative := ball2.vx - ball1.vx;
      var vyRelative := ball2.vy - ball1.vy;
      // velocity_along_normal times the distance
      var alongNormal := vxRelative * dx + vyRelative * dy;
      assert alongNormal == NormalDot(ball1, ball2);
      if alongNormal > 0.0 {
        return;
      }
      var scale := (-(1.0 + Bounce) * (alongNormal / sqDistance)) / 2.0;
      assert scale == ImpulseScale(ball1, ball2);
      balls[i] := balls[i].(vx := balls[i].vx - scale * dx);
      balls[i] := balls[i].(vy := balls[i].vy - scale * dy);
      balls[j] := balls[j].(vx := balls[j].vx + scale * dx);
      balls[j] := balls[j].(vy := balls[j].vy + scale * dy);
      assert balls[i] == Collide(ball1, ball2).0;
      assert balls[j] == Collide(ball1, ball2).1;
    }
  }
}
