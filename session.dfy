/** The `JumpGame` component as a state machine: the session's state fields
    and the step methods that the timer, the animation frames, the render
    effects and the keyboard run on it. */
module JumpGame {
  import opened Obstacles
  import opened World
  import opened Physics
  import opened Collision

  const START_SPEED: real := 11.0
  const MILESTONE_EVERY: int := 20
  const MILESTONE_SPEED_UP: real := 2.0

  /** The keys the handlers look at; every other key is ignored. */
  datatype Key = Space | Enter | OtherKey

  /** The speed and `lastMilestoneRef` after a milestone check. */
  datatype Pace = Pace(speed: real, lastMilestone: int)

  /** The milestone effect's condition. */
  predicate MilestoneDue(score: int, speed: real, lastMilestone: int) {
    score > 0 && score % MILESTONE_EVERY == 0 && score != lastMilestone && speed < MAX_SPEED
  }

  /** The milestone effect: a due milestone raises the speed by 2, capped at
      20, and records the score; otherwise nothing changes. */
  function Milestone(score: int, speed: real, lastMilestone: int): (r: Pace)
    ensures speed <= r.speed
    ensures speed <= MAX_SPEED ==> r.speed <= MAX_SPEED
    ensures r.speed > speed <==> MilestoneDue(score, speed, lastMilestone)
    ensures r.speed <= speed + MILESTONE_SPEED_UP
    ensures MilestoneDue(score, speed, lastMilestone) && speed + MILESTONE_SPEED_UP <= MAX_SPEED ==>
      r.speed == speed + MILESTONE_SPEED_UP
    ensures MilestoneDue(score, speed, lastMilestone) && speed + MILESTONE_SPEED_UP > MAX_SPEED ==>
      r.speed == MAX_SPEED
    ensures r.lastMilestone == (if MilestoneDue(score, speed, lastMilestone) then score else lastMilestone)
  {
    if MilestoneDue(score, speed, lastMilestone)
    then Pace(Min(speed + MILESTONE_SPEED_UP, MAX_SPEED), score)
    else Pace(speed, lastMilestone)
  }

  /** A second check at the same score changes nothing: each multiple of 20
      raises the speed at most once. */
  lemma MilestoneIdempotent(score: int, speed: real, lastMilestone: int)
    ensures var r := Milestone(score, speed, lastMilestone);
      Milestone(score, r.speed, r.lastMilestone) == r
  {
  }

  /** A restart keeps `lastMilestoneRef`: a multiple of 20 equal to the kept
      value earns no speed-up, where a cleared reference would give one. */
  lemma RestartSkipsRepeatedMilestone(m: int, speed: real)
    requires m > 0 && m % MILESTONE_EVERY == 0
    requires START_SPEED <= speed < MAX_SPEED
    ensures Milestone(m, speed, m) == Pace(speed, m)
    ensures Milestone(m, speed, 0).speed > speed
  {
  }

  /** What the persistent store held under "highScore": nothing, a string that is
      not a number, or a number. */
  datatype Stored = Absent | NotANumber | Number(value: int)

  /** The `useState` initialiser of the high score: the stored value read as a
      number, falling back to 0 when it is absent or not a number. */
  function InitialHighScore(stored: Stored): (r: int)
    ensures !stored.Number? ==> r == 0
    ensures stored.Number? ==> r == stored.value
  {
    match stored
    case Absent => 0
    case NotANumber => 0
    case Number(v) => v
  }

  class Session {
    var characterBottom: real
    var isJumping: bool
    var obstacles: seq<Obstacle>
    var score: int
    var highScore: int
    var isNewHighScore: bool
    var obstacleSpeed: real
    var hasStarted: bool
    var isGameOver: bool
    var lastMilestone: int
    var isHoldingJump: bool
    // what the persistent store holds under "highScore"
    var store: Stored
    // the speed that the installed key handlers (and the `jump` they call) captured
    var handlerSpeed: real
    // the locals of the running animation: its captured speed, position and velocity
    var jumpSpeed: real
    var position: real
    var velocity: real
    // the hold flags the frames of the current jump have read
    ghost var holds: seq<bool>

    ghost predicate Valid()
      reads this
    {
      && START_SPEED <= obstacleSpeed <= MAX_SPEED
      && START_SPEED <= handlerSpeed <= MAX_SPEED
      && START_SPEED <= jumpSpeed <= MAX_SPEED
      && score >= 0
      && characterBottom >= 0.0 && position >= 0.0
      && (!isJumping ==> characterBottom == GROUND_LEVEL)
      && (!hasStarted ==> !isGameOver && !isJumping && obstacles == [] && score == 0)
      && (isJumping ==> Arc(position, velocity) == Fly(Gravity(jumpSpeed), holds))
      && WellPlaced(obstacles)
      && InitialHighScore(store) == highScore
    }

    /** The world timer runs exactly in this state. */
    predicate Playing()
      reads this
    {
      hasStarted && !isGameOver
    }

    /** The entry guard of `jump`. */
    predicate CanJump()
      reads this
    {
      !isJumping && !isGameOver && characterBottom == GROUND_LEVEL && hasStarted
    }

    /** The component's first render; `stored` is what the persistent store
        held under "highScore". */
    constructor (stored: Stored)
      ensures Valid() && !hasStarted && !isGameOver && !isJumping && !isNewHighScore && !isHoldingJump
      ensures characterBottom == GROUND_LEVEL && obstacles == [] && score == 0
      ensures store == stored && highScore == InitialHighScore(stored)
      ensures obstacleSpeed == START_SPEED && lastMilestone == 0
    {
      characterBottom := GROUND_LEVEL;
      isJumping := false;
      obstacles := [];
      isGameOver := false;
      score := 0;
      store := stored;
      highScore := InitialHighScore(stored);
      isNewHighScore := false;
      obstacleSpeed := START_SPEED;
      hasStarted := false;
      lastMilestone := 0;
      isHoldingJump := false;
      handlerSpeed := START_SPEED;
      jumpSpeed := START_SPEED;
      position := GROUND_LEVEL;
      velocity := JUMP_VELOCITY;
      holds := [];
    }

    /** One firing of the 30 ms world timer; `p` holds the draws and clock
        reading of the refill, if there is one. */
    method Tick(p: SpawnPlan)
      requires Valid() && Playing()
      modifies this`obstacles, this`score, this`obstacleSpeed
      ensures Valid() && Playing()
      ensures obstacles == TickObstacles(old(obstacles), old(obstacleSpeed), p)
      ensures score == old(score) + CLEAR_BONUS * |NewlyCleared(Shift(old(obstacles), old(obstacleSpeed)))|
      ensures obstacleSpeed == Bump(old(obstacleSpeed), |NewlyCleared(Shift(old(obstacles), old(obstacleSpeed)))|)
      ensures old(obstacleSpeed) <= obstacleSpeed <= MAX_SPEED
    {
      var updated, clears := UpdateObstacles(obstacles, obstacleSpeed, p);
      TickWellPlaced(obstacles, obstacleSpeed, p);
      assert WellPlaced(updated);
      BumpClosedForm(obstacleSpeed, clears);
      score := score + CLEAR_BONUS * clears;
      obstacles := updated;
      obstacleSpeed := Bump(obstacleSpeed, clears);
    }

    /** The milestone effect, run after a render that changed the score or
        the speed. */
    method MilestoneCheck()
      requires Valid()
      modifies this`obstacleSpeed, this`lastMilestone
      ensures Valid()
      ensures Pace(obstacleSpeed, lastMilestone) == Milestone(score, old(obstacleSpeed), old(lastMilestone))
    {
      if MilestoneDue(score, obstacleSpeed, lastMilestone) {
        obstacleSpeed := Min(obstacleSpeed + MILESTONE_SPEED_UP, MAX_SPEED);
        lastMilestone := score;
      }
    }

    /** The collision effect: the first hit while playing ends the game and
        settles the high score. */
    method CheckCollision()
      requires Valid()
      modifies this`isGameOver, this`highScore, this`isNewHighScore, this`handlerSpeed, this`store
      ensures Valid()
      ensures highScore >= old(highScore)
      ensures if AnyCollision(obstacles, characterBottom) && old(Playing()) then
          && isGameOver
          && Record(highScore, isNewHighScore) == GameOverRecord(score, old(highScore))
          && store == (if isNewHighScore then Number(score) else old(store))
          && handlerSpeed == obstacleSpeed
        else
          && isGameOver == old(isGameOver) && highScore == old(highScore)
          && isNewHighScore == old(isNewHighScore) && handlerSpeed == old(handlerSpeed)
          && store == old(store)
    {
      if AnyCollision(obstacles, characterBottom) && !isGameOver && hasStarted {
        isGameOver := true;
        if score > highScore {
          store := Number(score);
          highScore := score;
          isNewHighScore := true;
        } else {
          isNewHighScore := false;
        }
        handlerSpeed := obstacleSpeed;
      }
    }

    /** `jump()`: past the entry guard it lifts off with velocity 9 and the
        gravity of the speed its handler captured. */
    method Jump()
      requires Valid()
      modifies this`isJumping, this`jumpSpeed, this`position, this`velocity, this`holds, this`handlerSpeed
      ensures Valid()
      ensures old(CanJump()) ==>
        && isJumping && jumpSpeed == old(handlerSpeed) && handlerSpeed == obstacleSpeed
        && position == GROUND_LEVEL && velocity == JUMP_VELOCITY && holds == []
      ensures !old(CanJump()) ==> unchanged(this)
    {
      if !isJumping && !isGameOver && characterBottom == GROUND_LEVEL && hasStarted {
        isJumping := true;
        velocity := JUMP_VELOCITY;
        position := characterBottom;
        jumpSpeed := handlerSpeed;
        holds := [];
        handlerSpeed := obstacleSpeed;
      }
    }

    /** One animation frame of the running jump. */
    method JumpFrame()
      requires Valid() && isJumping
      modifies this`position, this`velocity, this`holds, this`characterBottom, this`isJumping, this`handlerSpeed
      ensures Valid()
      ensures var a := Step(Arc(old(position), old(velocity)), Gravity(jumpSpeed), isHoldingJump);
        && velocity == a.velocity
        && if a.position <= GROUND_LEVEL then
             && position == GROUND_LEVEL && characterBottom == GROUND_LEVEL && !isJumping
             && handlerSpeed == obstacleSpeed
           else
             && position == a.position && characterBottom == a.position && isJumping
             && handlerSpeed == old(handlerSpeed) && holds == old(holds) + [isHoldingJump]
    {
      var newPosition, newVelocity, landed := Frame(position, velocity, Gravity(jumpSpeed), isHoldingJump);
      FlyStep(Gravity(jumpSpeed), holds, isHoldingJump);
      holds := holds + [isHoldingJump];
      position, velocity := newPosition, newVelocity;
      characterBottom := position;
      if landed {
        isJumping := false;
        handlerSpeed := obstacleSpeed;
      }
    }

    /** `resetGame()`: it leaves `lastMilestone`, the jump and the high score
        as they are. */
    method ResetGame(p: SpawnPlan)
      requires Valid() && hasStarted
      modifies this`characterBottom, this`obstacles, this`isGameOver, this`score, this`obstacleSpeed
      ensures Valid()
      ensures characterBottom == GROUND_LEVEL && obstacles == Spawn(p, 0.0) && !isGameOver
      ensures score == 0 && obstacleSpeed == START_SPEED
    {
      characterBottom := GROUND_LEVEL;
      obstacles := SpawnObstacles(p, 0.0);
      SpawnFacts(p, 0.0);
      isGameOver := false;
      score := 0;
      obstacleSpeed := START_SPEED;
    }

    /** `handleKeyDown`: Space sets the hold flag and, when not jumping, calls
        `jump()`. */
    method KeyDown(key: Key)
      requires Valid()
      modifies this`isHoldingJump, this`isJumping, this`jumpSpeed, this`position, this`velocity, this`holds, this`handlerSpeed
      ensures Valid()
      ensures key == Space ==> isHoldingJump
      ensures key == Space && old(CanJump()) ==>
        && isJumping && jumpSpeed == old(handlerSpeed) && handlerSpeed == obstacleSpeed
        && position == GROUND_LEVEL && velocity == JUMP_VELOCITY
      ensures key == Space && !old(CanJump()) ==>
        && isJumping == old(isJumping) && jumpSpeed == old(jumpSpeed) && handlerSpeed == old(handlerSpeed)
        && position == old(position) && velocity == old(velocity)
      ensures key != Space ==> unchanged(this)
    {
      if key == Space {
        isHoldingJump := true;
        if !isJumping {
          Jump();
        }
      }
    }

    /** `handleKeyUp`: Space clears the hold flag; Enter starts the game with
        a fresh batch, or restarts it after a game over, and otherwise does
        nothing. */
    method KeyUp(key: Key, p: SpawnPlan)
      requires Valid()
      modifies this`isHoldingJump, this`hasStarted, this`obstacles, this`characterBottom,
               this`isGameOver, this`score, this`obstacleSpeed, this`handlerSpeed
      ensures Valid()
      ensures key == Space ==>
        && !isHoldingJump && hasStarted == old(hasStarted) && obstacles == old(obstacles)
        && characterBottom == old(characterBottom) && isGameOver == old(isGameOver)
        && score == old(score) && obstacleSpeed == old(obstacleSpeed) && handlerSpeed == old(handlerSpeed)
      ensures key == Enter && !old(hasStarted) ==>
        && hasStarted && obstacles == Spawn(p, 0.0) && handlerSpeed == obstacleSpeed
        && characterBottom == old(characterBottom) && isGameOver == old(isGameOver)
        && score == old(score) && obstacleSpeed == old(obstacleSpeed) && isHoldingJump == old(isHoldingJump)
      ensures key == Enter && old(hasStarted) && old(isGameOver) ==>
        && hasStarted && obstacles == Spawn(p, 0.0) && !isGameOver
        && characterBottom == GROUND_LEVEL && score == 0 && obstacleSpeed == START_SPEED
        && handlerSpeed == START_SPEED && isHoldingJump == old(isHoldingJump)
      ensures key == Enter && old(Playing()) ==> unchanged(this)
      ensures key == OtherKey ==> unchanged(this)
    {
      if key == Space {
        isHoldingJump := false;
      }
      if key == Enter {
        if !hasStarted {
          hasStarted := true;
          obstacles := SpawnObstacles(p, 0.0);
          SpawnFacts(p, 0.0);
          handlerSpeed := obstacleSpeed;
        } else if isGameOver {
          ResetGame(p);
          handlerSpeed := obstacleSpeed;
        }
      }
    }
  }
}
