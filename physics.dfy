/** The jump arc: each animation frame lowers the velocity by the gravity
    (by only 40% of it while the jump key is held below 250) and adds the
    velocity to the position. */
module Physics {

  const BASE_GRAVITY: real := 0.2
  const JUMP_VELOCITY: real := 9.0
  const GROUND_LEVEL: real := 0.0
  const MAX_JUMP_HEIGHT: real := 250.0
  const HOLD_FACTOR: real := 0.4
  const BASE_SPEED: real := 11.0

  /** The gravity scales with the speed: 0.2 at the starting speed 11. */
  function Gravity(speed: real): real { BASE_GRAVITY * (speed / BASE_SPEED) }

  /** The animation's local `position` and `velocity`. */
  datatype Arc = Arc(position: real, velocity: real)

  /** One frame before the landing test: `holding` is the hold-jump flag
      read in that frame. */
  function Step(a: Arc, g: real, holding: bool): Arc {
    var v := if holding && a.position < MAX_JUMP_HEIGHT then a.velocity - g * HOLD_FACTOR else a.velocity - g;
    Arc(a.position + v, v)
  }

  /** The arc after one frame per hold flag in `holds`, from the ground with
      the initial velocity 9. */
  function Fly(g: real, holds: seq<bool>): Arc
    decreases |holds|
  {
    if holds == [] then Arc(GROUND_LEVEL, JUMP_VELOCITY)
    else Step(Fly(g, holds[..|holds| - 1]), g, holds[|holds| - 1])
  }

  /** The body of one animation frame: the velocity loses the gravity (only
      40% of it while the key is held below 250), the position gains the
      velocity, and a position at or below the ground is clamped to it and
      ends the jump. */
  method Frame(position: real, velocity: real, g: real, holding: bool)
    returns (newPosition: real, newVelocity: real, landed: bool)
    ensures var a := Step(Arc(position, velocity), g, holding);
      && newVelocity == a.velocity
      && (landed <==> a.position <= GROUND_LEVEL)
      && newPosition == (if landed then GROUND_LEVEL else a.position)
  {
    newVelocity := velocity;
    if holding && position < MAX_JUMP_HEIGHT {
      newVelocity := newVelocity - g * HOLD_FACTOR;
    } else {
      newVelocity := newVelocity - g;
    }
    newPosition := position + newVelocity;
    landed := false;
    if newPosition <= GROUND_LEVEL {
      newPosition := GROUND_LEVEL;
      landed := true;
    }
  }

  /** One more frame extends the arc by one `Step`. */
  lemma FlyStep(g: real, holds: seq<bool>, holding: bool)
    ensures Fly(g, holds + [holding]) == Step(Fly(g, holds), g, holding)
  {
    assert (holds + [holding])[..|holds|] == holds;
  }

  /** `n` frames with the jump key released. */
  function Released(n: nat): seq<bool> { seq(n, _ => false) }

  /** With the key released, after `n` frames the velocity is `9 - g n` and
      the position `9 n - g n (n + 1) / 2`. */
  lemma {:induction false} ReleasedClosedForm(g: real, n: nat)
    ensures Fly(g, Released(n)) == Arc(9.0 * n as real - g * (n * (n + 1)) as real / 2.0, 9.0 - g * n as real)
  {
    if n > 0 {
      ReleasedClosedForm(g, n - 1);
      assert Released(n)[..n - 1] == Released(n - 1);
      var m := (n - 1) as real;
      assert (n * (n + 1)) as real == ((n - 1) * n) as real + 2.0 * n as real;
      assert g * (n * (n + 1)) as real / 2.0 == g * ((n - 1) * n) as real / 2.0 + g * n as real;
    }
  }

  /** At the starting speed 11 and with the key released, the character is
      in the air for frames 1 to 88 and touches the ground at frame 89. */
  lemma DefaultJumpLandsAtFrame89(n: nat)
    requires 1 <= n <= 89
    ensures Gravity(BASE_SPEED) == 0.2
    ensures n < 89 ==> Fly(Gravity(BASE_SPEED), Released(n)).position > 0.0
    ensures n == 89 ==> Fly(Gravity(BASE_SPEED), Released(n)).position == 0.0
  {
    ReleasedClosedForm(0.2, n);
    var r := n as real;
    var pos := Fly(0.2, Released(n)).position;
    assert pos == 9.0 * r - 0.2 * (n * (n + 1)) as real / 2.0;
    ProductAsReal(n, n + 1);
    assert pos == r * (9.0 - 0.1 * (r + 1.0));
    if n < 89 {
      PositiveProduct(r, 9.0 - 0.1 * (r + 1.0));
    }
  }

  lemma PositiveProduct(a: real, b: real)
    requires a > 0.0 && b > 0.0
    ensures a * b > 0.0
  {
  }

  lemma ProductAsReal(a: int, b: int)
    ensures (a * b) as real == a as real * b as real
  {
  }

  /** Per frame the velocity drops by at least `0.4 g` and at most `g`, so
      after `n` frames it lies between `9 - g n` and `9 - 0.4 g n`. */
  lemma {:induction false} VelocityBounds(g: real, holds: seq<bool>)
    requires g >= 0.0
    ensures JUMP_VELOCITY - g * |holds| as real <= Fly(g, holds).velocity
    ensures Fly(g, holds).velocity <= JUMP_VELOCITY - HOLD_FACTOR * g * |holds| as real
    decreases |holds|
  {
    if holds != [] {
      VelocityBounds(g, holds[..|holds| - 1]);
    }
  }

  /** Holding the key never makes the arc lower: whatever the hold flags,
      velocity and position are at least those of the released jump. */
  lemma {:induction false} HoldNeverLower(g: real, holds: seq<bool>)
    requires g >= 0.0
    ensures Fly(g, holds).velocity >= Fly(g, Released(|holds|)).velocity
    ensures Fly(g, holds).position >= Fly(g, Released(|holds|)).position
    decreases |holds|
  {
    if holds != [] {
      var n := |holds|;
      HoldNeverLower(g, holds[..n - 1]);
      assert Released(n)[..n - 1] == Released(n - 1);
    }
  }
}
