/** The world advancer: one timer tick moves the obstacles left, marks the
    ones the character has passed in list order, scores each group the
    tick completes, prunes what has left the screen and refills the field. */
module World {
  import opened Obstacles

  const CHARACTER_X: real := 50.0
  const OBSTACLE_WIDTH: real := 60.0
  const PRUNE_LEFT: real := -60.0
  const REFILL_BELOW: real := 400.0
  const MAX_SPEED: real := 20.0
  const CLEAR_BONUS: int := 2
  const CLEAR_SPEED_UP: real := 0.05

  function Min(a: real, b: real): real { if a <= b then a else b }
  function Max(a: real, b: real): real { if a >= b then a else b }

  /** One obstacle moved left by `speed`. */
  function Move(o: Obstacle, speed: real): Obstacle { o.(left := o.left - speed) }

  /** Every obstacle moves left by the current speed. */
  function Shift(s: seq<Obstacle>, speed: real): seq<Obstacle> {
    seq(|s|, i requires 0 <= i < |s| => Move(s[i], speed))
  }

  /** The obstacle's trailing edge is left of the character. */
  predicate Behind(o: Obstacle) { o.left + OBSTACLE_WIDTH < CHARACTER_X }

  /** The marking loop's test at index `i`: behind and not yet passed. */
  predicate Fresh(s: seq<Obstacle>, i: int)
    requires 0 <= i < |s|
  {
    Behind(s[i]) && !s[i].passed
  }

  /** An obstacle after the marking loop has visited it. */
  function Mark(o: Obstacle): (r: Obstacle)
    ensures r.passed <==> o.passed || Behind(o)
    ensures r.(passed := o.passed) == o
  {
    if Behind(o) then o.(passed := true) else o
  }

  /** The list after the marking loop has visited every obstacle. */
  function MarkAll(s: seq<Obstacle>): seq<Obstacle> {
    seq(|s|, i requires 0 <= i < |s| => Mark(s[i]))
  }

  /** The list after the marking loop has visited the first `n` obstacles. */
  function MarkPrefix(s: seq<Obstacle>, n: nat): seq<Obstacle>
    requires n <= |s|
  {
    seq(|s|, j requires 0 <= j < |s| => if j < n then Mark(s[j]) else s[j])
  }

  /** Every obstacle of group `id` is already passed. */
  predicate GroupPassed(s: seq<Obstacle>, id: int) {
    forall j :: 0 <= j < |s| && s[j].groupId == id ==> s[j].passed
  }

  /** The marking loop awards a clear at index `i`: it marks that obstacle
      and, right after, every member of its group is passed. */
  predicate ClearsAt(s: seq<Obstacle>, i: int)
    requires 0 <= i < |s|
  {
    Fresh(s, i) && GroupPassed(MarkPrefix(s, i + 1), s[i].groupId)
  }

  /** The number of clears the marking loop awards on the first `n` indices. */
  function ClearEvents(s: seq<Obstacle>, n: nat): nat
    requires n <= |s|
  {
    if n == 0 then 0 else ClearEvents(s, n - 1) + (if ClearsAt(s, n - 1) then 1 else 0)
  }

  /** The groups this tick completes: some member is marked in this tick and
      afterwards every member is passed. */
  function NewlyCleared(s: seq<Obstacle>): set<int> {
    set i | 0 <= i < |s| && Fresh(s, i) && GroupPassed(MarkAll(s), s[i].groupId) :: s[i].groupId
  }

  /** The `forEach` of the tick: marks obstacles in list order, in place,
      and counts the marks after which the obstacle's group is all passed. */
  method MarkPassedInOrder(prev: seq<Obstacle>) returns (updated: seq<Obstacle>, clears: nat)
    ensures updated == MarkAll(prev)
    ensures clears == |NewlyCleared(prev)|
  {
    updated := prev;
    clears := 0;
    for i := 0 to |prev|
      invariant updated == MarkPrefix(prev, i)
      invariant clears == ClearEvents(prev, i)
    {
      var obs := updated[i];
      if obs.left + OBSTACLE_WIDTH < CHARACTER_X && !obs.passed {
        updated := updated[i := obs.(passed := true)];
        assert updated == MarkPrefix(prev, i + 1);
        if GroupPassed(updated, obs.groupId) {
          clears := clears + 1;
        }
      } else {
        assert updated == MarkPrefix(prev, i + 1);
      }
    }
    assert updated == MarkAll(prev);
    ScoresOncePerGroup(prev);
  }

  /** A clear is awarded at `i` exactly when `i` is the last obstacle of its
      group marked in this tick and the whole group is passed afterwards. */
  lemma ClearsAtLast(s: seq<Obstacle>, i: int)
    requires 0 <= i < |s|
    ensures ClearsAt(s, i) <==>
      && Fresh(s, i)
      && GroupPassed(MarkAll(s), s[i].groupId)
      && forall j :: i < j < |s| && s[j].groupId == s[i].groupId ==> !Fresh(s, j)
  {
    var g := s[i].groupId;
    var pre, all := MarkPrefix(s, i + 1), MarkAll(s);
    if ClearsAt(s, i) {
      forall j | 0 <= j < |s| && s[j].groupId == g
        ensures all[j].passed && (i < j ==> !Fresh(s, j))
      {
        assert pre[j].passed;
      }
    }
    if Fresh(s, i) && GroupPassed(all, g) && forall j :: i < j < |s| && s[j].groupId == g ==> !Fresh(s, j) {
      forall j | 0 <= j < |s| && pre[j].groupId == g
        ensures pre[j].passed
      {
        assert all[j].passed;
      }
    }
  }

  /** Every obstacle marked in a tick has a last marked member of its group
      at or after it. */
  lemma {:induction false} LastFresh(s: seq<Obstacle>, i: int)
    requires 0 <= i < |s| && Fresh(s, i)
    ensures exists k :: i <= k < |s| && s[k].groupId == s[i].groupId && Fresh(s, k) &&
                        (forall j :: k < j < |s| && s[j].groupId == s[i].groupId ==> !Fresh(s, j))
    decreases |s| - i
  {
    if exists j :: i < j < |s| && s[j].groupId == s[i].groupId && Fresh(s, j) {
      var j :| i < j < |s| && s[j].groupId == s[i].groupId && Fresh(s, j);
      LastFresh(s, j);
    }
  }

  /** The groups of the clears awarded on the first `n` indices. */
  function ClearedBefore(s: seq<Obstacle>, n: nat): set<int>
    requires n <= |s|
  {
    set i | 0 <= i < n && ClearsAt(s, i) :: s[i].groupId
  }

  /** No group earns two clears in one tick. */
  lemma {:induction false} ClearEventsDistinct(s: seq<Obstacle>, n: nat)
    requires n <= |s|
    ensures ClearEvents(s, n) == |ClearedBefore(s, n)|
  {
    if n > 0 {
      ClearEventsDistinct(s, n - 1);
      var g := s[n - 1].groupId;
      if ClearsAt(s, n - 1) {
        forall i | 0 <= i < n - 1 && ClearsAt(s, i)
          ensures s[i].groupId != g
        {
          ClearsAtLast(s, i);
        }
        assert ClearedBefore(s, n) == ClearedBefore(s, n - 1) + {g};
      } else {
        assert ClearedBefore(s, n) == ClearedBefore(s, n - 1);
      }
    }
  }

  /** One tick awards exactly one clear per group it completes: a group with
      a member left unpassed gets none, and a completed group gets one, at its
      last member to be marked. */
  lemma ScoresOncePerGroup(s: seq<Obstacle>)
    ensures ClearEvents(s, |s|) == |NewlyCleared(s)|
  {
    ClearEventsDistinct(s, |s|);
    forall g | g in ClearedBefore(s, |s|)
      ensures g in NewlyCleared(s)
    {
      var i :| 0 <= i < |s| && ClearsAt(s, i) && s[i].groupId == g;
      ClearsAtLast(s, i);
    }
    forall g | g in NewlyCleared(s)
      ensures g in ClearedBefore(s, |s|)
    {
      var i :| 0 <= i < |s| && Fresh(s, i) && GroupPassed(MarkAll(s), s[i].groupId) && s[i].groupId == g;
      LastFresh(s, i);
      var k :| i <= k < |s| && s[k].groupId == g && Fresh(s, k) &&
        forall j :: k < j < |s| && s[j].groupId == g ==> !Fresh(s, j);
      ClearsAtLast(s, k);
    }
    assert ClearedBefore(s, |s|) == NewlyCleared(s);
  }

  /** A group that still has a member in front of the character scores
      nothing in this tick. */
  lemma UnfinishedGroupNotScored(s: seq<Obstacle>, j: int)
    requires 0 <= j < |s| && !s[j].passed && !Behind(s[j])
    ensures s[j].groupId !in NewlyCleared(s)
  {
    assert !MarkAll(s)[j].passed;
  }

  /** Only the obstacles whose left edge is still right of -60 stay. */
  function Prune(s: seq<Obstacle>): (r: seq<Obstacle>)
    ensures |r| <= |s|
    ensures forall o :: o in r <==> o in s && o.left > PRUNE_LEFT
  {
    if s == [] then [] else (if s[0].left > PRUNE_LEFT then [s[0]] else []) + Prune(s[1..])
  }

  /** Pruning keeps the relative order: it distributes over concatenation. */
  lemma {:induction false} PruneConcat(a: seq<Obstacle>, b: seq<Obstacle>)
    ensures Prune(a + b) == Prune(a) + Prune(b)
  {
    if a == [] {
      assert a + b == b;
    } else {
      assert (a + b)[1..] == a[1..] + b;
      PruneConcat(a[1..], b);
    }
  }

  /** The largest left edge, or 0 when that is larger or the field is empty. */
  function Rightmost(s: seq<Obstacle>): (r: real)
    ensures r >= 0.0
    ensures forall o :: o in s ==> o.left <= r
    ensures r == 0.0 || exists o :: o in s && o.left == r
  {
    if s == [] then 0.0 else Max(s[0].left, Rightmost(s[1..]))
  }

  /** The obstacles that survive a tick, moved and marked, in their old order. */
  function Survivors(prev: seq<Obstacle>, speed: real): seq<Obstacle> {
    Prune(MarkAll(Shift(prev, speed)))
  }

  /** The obstacle list after one tick with plan `p` for a possible refill. */
  function TickObstacles(prev: seq<Obstacle>, speed: real, p: SpawnPlan): seq<Obstacle> {
    var kept := Survivors(prev, speed);
    if Rightmost(kept) < REFILL_BELOW then kept + Spawn(p, 0.0) else kept
  }

  /** The obstacle updater of one tick: move every obstacle, mark the passed
      ones in order while counting the groups this completes, prune, and
      append a batch drawn from `p` when the field runs short. */
  method UpdateObstacles(prev: seq<Obstacle>, speed: real, p: SpawnPlan) returns (next: seq<Obstacle>, clears: nat)
    ensures next == TickObstacles(prev, speed, p)
    ensures clears == |NewlyCleared(Shift(prev, speed))|
  {
    var updated := Shift(prev, speed);
    updated, clears := MarkPassedInOrder(updated);
    updated := Prune(updated);
    if Rightmost(updated) < REFILL_BELOW {
      var batch := SpawnObstacles(p, 0.0);
      updated := updated + batch;
    }
    next := updated;
  }

  /** One queued clear update: 0.05 faster, capped at the maximum speed. */
  function ClearSpeed(speed: real): (r: real)
    ensures speed <= MAX_SPEED ==> speed < r <= MAX_SPEED || r == speed == MAX_SPEED
    ensures r < MAX_SPEED ==> r == speed + CLEAR_SPEED_UP
    ensures r <= speed + CLEAR_SPEED_UP
  {
    Min(speed + CLEAR_SPEED_UP, MAX_SPEED)
  }

  /** The speed after `k` queued clear updates. */
  function Bump(speed: real, k: nat): (r: real)
    ensures speed <= MAX_SPEED ==> speed <= r <= MAX_SPEED
    decreases k
  {
    if k == 0 then speed else Bump(ClearSpeed(speed), k - 1)
  }

  /** `k` clears raise a speed of at most 20 by `0.05 k`, capped at 20. */
  lemma {:induction false} BumpClosedForm(speed: real, k: nat)
    requires speed <= MAX_SPEED
    decreases k
    ensures Bump(speed, k) == Min(speed + CLEAR_SPEED_UP * k as real, MAX_SPEED)
  {
    if k > 0 {
      BumpClosedForm(ClearSpeed(speed), k - 1);
    }
  }

  /** In one tick every obstacle moves left by the speed and keeps its height,
      sprite and group; its passed flag only goes from false to true, exactly
      when its trailing edge is left of the character; it survives exactly
      when its new `left` is above -60. */
  lemma TickMovesObstacle(prev: seq<Obstacle>, speed: real, j: int)
    requires 0 <= j < |prev|
    ensures var m := MarkAll(Shift(prev, speed))[j];
      && m.left == prev[j].left - speed
      && m.height == prev[j].height && m.img == prev[j].img && m.groupId == prev[j].groupId
      && m.passed == (prev[j].passed || m.left + 60.0 < 50.0)
      && (m in Survivors(prev, speed) <==> m.left > -60.0)
  {
  }

  /** Every survivor is some old obstacle, moved and marked. */
  lemma SurvivorOrigin(prev: seq<Obstacle>, speed: real, o: Obstacle)
    requires o in Survivors(prev, speed)
    ensures o.left > PRUNE_LEFT
    ensures exists j :: 0 <= j < |prev| && o == Mark(Move(prev[j], speed))
  {
    var j :| 0 <= j < |prev| && MarkAll(Shift(prev, speed))[j] == o;
  }

  /** Survivors keep the old order: survivors of a concatenation are the
      survivors of each part, concatenated. */
  lemma SurvivorsConcat(a: seq<Obstacle>, b: seq<Obstacle>, speed: real)
    ensures Survivors(a + b, speed) == Survivors(a, speed) + Survivors(b, speed)
  {
    assert MarkAll(Shift(a + b, speed)) == MarkAll(Shift(a, speed)) + MarkAll(Shift(b, speed));
    PruneConcat(MarkAll(Shift(a, speed)), MarkAll(Shift(b, speed)));
  }

  /** The survivors come first, unchanged; a batch follows exactly when the
      rightmost survivor is left of 400 (in particular when none survive). */
  lemma TickRefill(prev: seq<Obstacle>, speed: real, p: SpawnPlan)
    requires WellFormed(p)
    ensures var kept := Survivors(prev, speed); var next := TickObstacles(prev, speed, p);
      && |kept| <= |next|
      && next[..|kept|] == kept
      && (|next| > |kept| <==> Rightmost(kept) < REFILL_BELOW)
      && (Rightmost(kept) < REFILL_BELOW ==> next[|kept|..] == Spawn(p, 0.0))
      && (kept == [] ==> next == Spawn(p, 0.0))
  {
    SpawnSize(p, 0.0);
    var kept := Survivors(prev, speed);
    if Rightmost(kept) < REFILL_BELOW {
      assert (kept + Spawn(p, 0.0))[..|kept|] == kept;
      assert (kept + Spawn(p, 0.0))[|kept|..] == Spawn(p, 0.0);
    }
  }

  /** After a tick the field is never empty and its rightmost obstacle is at
      or beyond 400. */
  lemma TickFillsField(prev: seq<Obstacle>, speed: real, p: SpawnPlan)
    requires WellFormed(p)
    ensures TickObstacles(prev, speed, p) != []
    ensures Rightmost(TickObstacles(prev, speed, p)) >= REFILL_BELOW
  {
    var kept := Survivors(prev, speed);
    var next := TickObstacles(prev, speed, p);
    if Rightmost(kept) < REFILL_BELOW {
      var batch := Spawn(p, 0.0);
      assert next == kept + batch;
      SpawnSize(p, 0.0);
      SpawnFacts(p, 0.0);
      assert batch[0] in batch;
      assert next[|kept|] == batch[0];
      assert batch[0] in next;
    } else {
      assert next == kept;
      var o :| o in kept && o.left == Rightmost(kept);
    }
  }

  /** A group completed in a tick is all passed after it (the fresh batch,
      spawned at a later clock reading, does not reuse its id). */
  lemma ScoredGroupIsDone(prev: seq<Obstacle>, speed: real, p: SpawnPlan, g: int)
    requires g in NewlyCleared(Shift(prev, speed))
    requires g < p.now
    ensures GroupPassed(TickObstacles(prev, speed, p), g)
  {
    var marked := MarkAll(Shift(prev, speed));
    assert GroupPassed(marked, g);
    SpawnFacts(p, 0.0);
    var next := TickObstacles(prev, speed, p);
    forall j | 0 <= j < |next| && next[j].groupId == g
      ensures next[j].passed
    {
      assert next[j] in next;
      if next[j] in Prune(marked) {
        assert next[j] in marked;
      }
    }
  }

  /** A group with every member passed before a tick scores nothing in the
      tick and is still all passed after it. */
  lemma DoneGroupStaysDone(prev: seq<Obstacle>, speed: real, p: SpawnPlan, g: int)
    requires GroupPassed(prev, g)
    requires g < p.now
    ensures g !in NewlyCleared(Shift(prev, speed))
    ensures GroupPassed(TickObstacles(prev, speed, p), g)
  {
    var marked := MarkAll(Shift(prev, speed));
    SpawnFacts(p, 0.0);
    var next := TickObstacles(prev, speed, p);
    forall j | 0 <= j < |next| && next[j].groupId == g
      ensures next[j].passed
    {
      assert next[j] in next;
      if next[j] in Prune(marked) {
        assert next[j] in marked;
      }
    }
  }

  /** The obstacle list after a run of ticks, the `k`-th at speed
      `speeds[k]` with refill plan `plans[k]`. */
  function After(prev: seq<Obstacle>, speeds: seq<real>, plans: seq<SpawnPlan>): seq<Obstacle>
    requires |speeds| == |plans|
    decreases |speeds|
  {
    if speeds == [] then prev
    else
      var n := |speeds| - 1;
      TickObstacles(After(prev, speeds[..n], plans[..n]), speeds[n], plans[n])
  }

  /** Once every member of a group is passed, it stays so through a run of
      ticks if the clock has moved past its id at every refill. */
  lemma {:induction false} DoneGroupStaysDoneInRun(prev: seq<Obstacle>, speeds: seq<real>, plans: seq<SpawnPlan>, g: int)
    requires |speeds| == |plans|
    requires GroupPassed(prev, g)
    requires forall k :: 0 <= k < |plans| ==> g < plans[k].now
    ensures GroupPassed(After(prev, speeds, plans), g)
    decreases |speeds|
  {
    if speeds != [] {
      var n := |speeds| - 1;
      DoneGroupStaysDoneInRun(prev, speeds[..n], plans[..n], g);
      DoneGroupStaysDone(After(prev, speeds[..n], plans[..n]), speeds[n], plans[n], g);
    }
  }

  /** Once every member of a group is passed, the `k`-th later tick does
      not score it, as long as the clock has moved past its id at every
      refill. */
  lemma DoneGroupNeverScores(prev: seq<Obstacle>, speeds: seq<real>, plans: seq<SpawnPlan>, g: int, k: nat)
    requires |speeds| == |plans| && k < |speeds|
    requires GroupPassed(prev, g)
    requires forall j :: 0 <= j < |plans| ==> g < plans[j].now
    ensures g !in NewlyCleared(Shift(After(prev, speeds[..k], plans[..k]), speeds[k]))
  {
    DoneGroupStaysDoneInRun(prev, speeds[..k], plans[..k], g);
    DoneGroupStaysDone(After(prev, speeds[..k], plans[..k]), speeds[k], plans[k], g);
  }

  /** A group scores in exactly one tick: after the tick that completes it,
      the `k`-th following tick does not score it again. */
  lemma ScoredExactlyOnce(prev: seq<Obstacle>, speed: real, p: SpawnPlan,
                          speeds: seq<real>, plans: seq<SpawnPlan>, g: int, k: nat)
    requires g in NewlyCleared(Shift(prev, speed))
    requires |speeds| == |plans| && k < |speeds|
    requires g < p.now && forall j :: 0 <= j < |plans| ==> g < plans[j].now
    ensures g !in NewlyCleared(Shift(After(TickObstacles(prev, speed, p), speeds[..k], plans[..k]), speeds[k]))
  {
    ScoredGroupIsDone(prev, speed, p, g);
    DoneGroupNeverScores(TickObstacles(prev, speed, p), speeds, plans, g, k);
  }

  /** Obstacles have heights in [70, 129] and are marked passed exactly when
      they are behind the character. */
  predicate WellPlaced(s: seq<Obstacle>) {
    forall o :: o in s ==> 70 <= o.height <= 129 && (o.passed <==> Behind(o))
  }

  /** A tick at a non-negative speed keeps the list well placed. */
  lemma TickWellPlaced(prev: seq<Obstacle>, speed: real, p: SpawnPlan)
    requires WellPlaced(prev) && speed >= 0.0
    ensures WellPlaced(TickObstacles(prev, speed, p))
  {
    var marked := MarkAll(Shift(prev, speed));
    forall o | o in marked
      ensures 70 <= o.height <= 129 && (o.passed <==> Behind(o))
    {
      var j :| 0 <= j < |marked| && marked[j] == o;
      assert prev[j] in prev;
    }
    SpawnFacts(p, 0.0);
  }
}
