/** The obstacle generator: obstacles, their sprites, and the batch that one
    call of `spawnObstacles` produces from its random draws and clock reading. */
module Obstacles {

  /** The five obstacle images, in the order of the image table. */
  datatype Sprite = CoffeeMaker | Obs2 | Obs3 | Obs4 | Obs5

  const IMAGES: seq<Sprite> := [CoffeeMaker, Obs2, Obs3, Obs4, Obs5]

  const SPAWN_X: real := 1100.0
  const OBSTACLE_GAP: int := 60
  const GROUP_SPACING: int := 500
  const MIN_HEIGHT: int := 70
  const HEIGHT_RANGE: int := 60
  const MAX_GROUPS: int := 3
  const MAX_GROUP_SIZE: int := 3

  /** One obstacle: horizontal position, height, sprite, group tag and the
      flag telling whether it has scrolled past the character. */
  datatype Obstacle = Obstacle(left: real, height: int, img: Sprite, groupId: int, passed: bool)

  /** A uniform draw from 0 to 59, the random part of a height. */
  type HeightDraw = k: int | 0 <= k < HEIGHT_RANGE

  /** A uniform draw from 0 to 4, an index into the image table. */
  type SpriteIndex = i: int | 0 <= i < |IMAGES|

  /** The random draws for one obstacle. */
  datatype Draw = Draw(height: HeightDraw, sprite: SpriteIndex)

  /** Everything one spawn call takes from outside: the draws of every
      group (their number and sizes are random draws too) and `Date.now()`. */
  datatype SpawnPlan = SpawnPlan(groups: seq<seq<Draw>>, now: int)

  /** What the random source guarantees: 1 to 3 groups of 1 to 3 obstacles. */
  predicate WellFormed(p: SpawnPlan) {
    && 1 <= |p.groups| <= MAX_GROUPS
    && forall g :: 0 <= g < |p.groups| ==> 1 <= |p.groups[g]| <= MAX_GROUP_SIZE
  }

  /** The obstacle built from draw `d` at position `left` in group `groupId`. */
  function Placed(d: Draw, left: real, groupId: int): (r: Obstacle)
    ensures MIN_HEIGHT <= r.height < MIN_HEIGHT + HEIGHT_RANGE
    ensures r.left == left && r.groupId == groupId && !r.passed
  {
    Obstacle(left, MIN_HEIGHT + d.height, IMAGES[d.sprite], groupId, false)
  }

  /** The obstacles of group `g`, in the order they are pushed. */
  function GroupAt(p: SpawnPlan, offset: real, g: nat): seq<Obstacle>
    requires g < |p.groups|
  {
    seq(|p.groups[g]|, i requires 0 <= i < |p.groups[g]| =>
      Placed(p.groups[g][i], SPAWN_X + offset + (GROUP_SPACING * g + OBSTACLE_GAP * i) as real, p.now + g))
  }

  /** The obstacles of the first `n` groups, in the order they are pushed. */
  function SpawnPrefix(p: SpawnPlan, offset: real, n: nat): seq<Obstacle>
    requires n <= |p.groups|
  {
    if n == 0 then [] else SpawnPrefix(p, offset, n - 1) + GroupAt(p, offset, n - 1)
  }

  /** The batch one spawn call returns. */
  function Spawn(p: SpawnPlan, offset: real): seq<Obstacle> {
    SpawnPrefix(p, offset, |p.groups|)
  }

  /** The index in the batch at which group `g` begins. */
  function GroupStart(p: SpawnPlan, g: nat): nat
    requires g <= |p.groups|
  {
    if g == 0 then 0 else GroupStart(p, g - 1) + |p.groups[g - 1]|
  }

  /** `spawnObstacles(offset)`: nested loops that push each group's
      obstacles and advance the group's start position. */
  method SpawnObstacles(p: SpawnPlan, offset: real) returns (newObstacles: seq<Obstacle>)
    ensures newObstacles == Spawn(p, offset)
  {
    var numGroups := |p.groups|;
    newObstacles := [];
    var currentX := SPAWN_X + offset;
    var groupIdCounter := p.now;
    for g := 0 to numGroups
      invariant newObstacles == SpawnPrefix(p, offset, g)
      invariant currentX == SPAWN_X + offset + (GROUP_SPACING * g) as real
    {
      var groupSize := |p.groups[g]|;
      for i := 0 to groupSize
        invariant newObstacles == SpawnPrefix(p, offset, g) + GroupAt(p, offset, g)[..i]
      {
        var d := p.groups[g][i];
        newObstacles := newObstacles + [Obstacle(currentX + (i * OBSTACLE_GAP) as real,
                                                 MIN_HEIGHT + d.height, IMAGES[d.sprite],
                                                 groupIdCounter + g, false)];
        assert GroupAt(p, offset, g)[..i + 1] == GroupAt(p, offset, g)[..i] + [GroupAt(p, offset, g)[i]];
      }
      assert GroupAt(p, offset, g)[..groupSize] == GroupAt(p, offset, g);
      currentX := currentX + GROUP_SPACING as real;
    }
  }

  lemma {:induction false} PrefixLength(p: SpawnPlan, offset: real, n: nat)
    requires n <= |p.groups|
    ensures |SpawnPrefix(p, offset, n)| == GroupStart(p, n)
  {
    if n > 0 {
      PrefixLength(p, offset, n - 1);
    }
  }

  lemma {:induction false} PrefixGroups(p: SpawnPlan, offset: real, n: nat, g: nat)
    requires g < n <= |p.groups|
    ensures GroupStart(p, g) <= GroupStart(p, g + 1) <= |SpawnPrefix(p, offset, n)|
    ensures SpawnPrefix(p, offset, n)[GroupStart(p, g)..GroupStart(p, g + 1)] == GroupAt(p, offset, g)
  {
    PrefixLength(p, offset, n);
    PrefixLength(p, offset, n - 1);
    if g < n - 1 {
      GroupStartMonotone(p, g + 1, n - 1);
      PrefixGroups(p, offset, n - 1, g);
    }
  }

  lemma {:induction false} GroupStartMonotone(p: SpawnPlan, a: nat, b: nat)
    requires a <= b <= |p.groups|
    ensures GroupStart(p, a) <= GroupStart(p, b)
  {
    if a < b {
      GroupStartMonotone(p, a, b - 1);
    }
  }

  /** The batch is the concatenation of its groups: group `g` occupies the
      indices from `GroupStart(p, g)` up to `GroupStart(p, g + 1)`. */
  lemma SpawnGroups(p: SpawnPlan, offset: real, g: nat)
    requires g < |p.groups|
    ensures GroupStart(p, g) <= GroupStart(p, g + 1) <= |Spawn(p, offset)| == GroupStart(p, |p.groups|)
    ensures Spawn(p, offset)[GroupStart(p, g)..GroupStart(p, g + 1)] == GroupAt(p, offset, g)
  {
    PrefixGroups(p, offset, |p.groups|, g);
    PrefixLength(p, offset, |p.groups|);
  }

  /** Obstacle `i` of group `g` sits at `1100 + offset + 500 g + 60 i`, has
      height `70 + k` for its height draw `k`, the drawn sprite, group id
      `now + g`, and is not yet passed. */
  lemma SpawnedObstacle(p: SpawnPlan, offset: real, g: nat, i: nat)
    requires g < |p.groups| && i < |p.groups[g]|
    ensures GroupStart(p, g) + i < |Spawn(p, offset)|
    ensures Spawn(p, offset)[GroupStart(p, g) + i]
         == Obstacle(SPAWN_X + offset + (500 * g + 60 * i) as real,
                     70 + p.groups[g][i].height, IMAGES[p.groups[g][i].sprite], p.now + g, false)
  {
    SpawnGroups(p, offset, g);
    var s := Spawn(p, offset);
    assert s[GroupStart(p, g)..GroupStart(p, g + 1)][i] == GroupAt(p, offset, g)[i];
  }

  /** Within a group consecutive obstacles are 60 apart, and the first
      obstacles of consecutive groups are 500 apart. */
  lemma SpawnSpacing(p: SpawnPlan, offset: real, g: nat, i: nat)
    requires g < |p.groups| && i < |p.groups[g]|
    ensures i + 1 < |p.groups[g]| ==>
      GroupStart(p, g) + i + 1 < |Spawn(p, offset)| &&
      Spawn(p, offset)[GroupStart(p, g) + i + 1].left == Spawn(p, offset)[GroupStart(p, g) + i].left + 60.0
    ensures g + 1 < |p.groups| && p.groups[g + 1] != [] ==>
      GroupStart(p, g + 1) < |Spawn(p, offset)| &&
      Spawn(p, offset)[GroupStart(p, g + 1)].left == Spawn(p, offset)[GroupStart(p, g)].left + 500.0
  {
    SpawnedObstacle(p, offset, g, i);
    SpawnedObstacle(p, offset, g, 0);
    if i + 1 < |p.groups[g]| {
      SpawnedObstacle(p, offset, g, i + 1);
    }
    if g + 1 < |p.groups| && p.groups[g + 1] != [] {
      SpawnedObstacle(p, offset, g + 1, 0);
      assert GroupStart(p, g + 1) + 0 == GroupStart(p, g + 1);
    }
  }

  lemma {:induction false} PrefixFacts(p: SpawnPlan, offset: real, n: nat)
    requires n <= |p.groups|
    ensures forall o :: o in SpawnPrefix(p, offset, n) ==>
      && MIN_HEIGHT <= o.height < MIN_HEIGHT + HEIGHT_RANGE
      && !o.passed
      && o.left >= SPAWN_X + offset
      && p.now <= o.groupId < p.now + n
  {
    if n > 0 {
      PrefixFacts(p, offset, n - 1);
    }
  }

  /** Every spawned obstacle has a height in [70, 129], is not passed, lies
      at or right of `1100 + offset`, and carries a group id in
      `[now, now + number of groups)`. */
  lemma SpawnFacts(p: SpawnPlan, offset: real)
    ensures forall o :: o in Spawn(p, offset) ==>
      && 70 <= o.height <= 129
      && !o.passed
      && o.left >= SPAWN_X + offset
      && p.now <= o.groupId < p.now + |p.groups|
  {
    PrefixFacts(p, offset, |p.groups|);
  }

  lemma {:induction false} GroupStartBounds(p: SpawnPlan, n: nat)
    requires WellFormed(p) && n <= |p.groups|
    ensures n <= GroupStart(p, n) <= MAX_GROUP_SIZE * n
  {
    if n > 0 {
      GroupStartBounds(p, n - 1);
    }
  }

  /** A batch from a well-formed plan holds 1 to 9 obstacles in 1 to 3 groups. */
  lemma SpawnSize(p: SpawnPlan, offset: real)
    requires WellFormed(p)
    ensures 1 <= |Spawn(p, offset)| <= 9
  {
    PrefixLength(p, offset, |p.groups|);
    GroupStartBounds(p, |p.groups|);
  }
}
