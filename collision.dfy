/** The collision test and the high-score update of a game over. */
module Collision {
  import opened Obstacles

  const HIT_LEFT: real := 20.0
  const HIT_RIGHT: real := 80.0
  const HIT_MARGIN: int := 50

  /** The hit test: the obstacle is strictly inside
      the band (20, 80) and the character is below its height plus 50. */
  predicate Collides(obsLeft: real, obsHeight: int, bottom: real) {
    obsLeft < HIT_RIGHT && obsLeft > HIT_LEFT && bottom < (obsHeight + HIT_MARGIN) as real
  }

  /** Some obstacle of the field hits the character. */
  predicate AnyCollision(s: seq<Obstacle>, bottom: real) {
    exists i :: 0 <= i < |s| && Collides(s[i].left, s[i].height, bottom)
  }

  /** The band is open: an obstacle exactly at 20 or at 80 never hits. */
  lemma BandIsOpen(obsHeight: int, bottom: real)
    ensures !Collides(HIT_LEFT, obsHeight, bottom)
    ensures !Collides(HIT_RIGHT, obsHeight, bottom)
  {
  }

  /** A grounded character is hit by any obstacle of a spawnable height
      inside the band; a character at or above 179 is never hit. */
  lemma HitByHeight(obsLeft: real, obsHeight: int, bottom: real)
    requires 70 <= obsHeight <= 129 && bottom >= 0.0
    ensures HIT_LEFT < obsLeft < HIT_RIGHT && bottom == 0.0 ==> Collides(obsLeft, obsHeight, bottom)
    ensures bottom >= 179.0 ==> !Collides(obsLeft, obsHeight, bottom)
  {
  }

  /** Jumping lower never avoids a hit that a higher position takes. */
  lemma CollisionMonotone(obsLeft: real, obsHeight: int, low: real, high: real)
    requires low <= high && Collides(obsLeft, obsHeight, high)
    ensures Collides(obsLeft, obsHeight, low)
  {
  }

  /** The new high score and new-high-score flag of a game over. */
  datatype Record = Record(highScore: int, isNew: bool)

  /** A game over keeps the larger of score and high score, and flags a new
      high score exactly when the score beats the old one. */
  function GameOverRecord(score: int, highScore: int): (r: Record)
    ensures r.highScore >= highScore && r.highScore >= score
    ensures r.highScore == highScore || r.highScore == score
    ensures r.isNew <==> score > highScore
  {
    if score > highScore then Record(score, true) else Record(highScore, false)
  }
}
