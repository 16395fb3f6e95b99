/**
 * The arithmetic of Game.score, Game.changeMultiplier and Game.changeLevel,
 * and the tuple (score, multiplier, level, timer delay) that one scoring
 * event updates.
 */
module Scoring {

  /** Points per level: `level = score / 1000`. */
  const LevelPoints := 1000
  /** Initial countdown, in milliseconds (`timerDelay = 12_000`). */
  const InitialDelay := 12000
  /** Countdown reduction per level. */
  const DelayStep := 500
  /** Shortest countdown. */
  const MinDelay := 2500

  /** Points for one placement: lines * blocks * 10 * multiplier. */
  function ScoreGain(lines: nat, blocks: nat, multiplier: int): (g: int)
    requires multiplier >= 1
    ensures g >= 0
    ensures g == 0 <==> lines == 0 || blocks == 0
  {
    assert lines > 0 && blocks > 0 ==> lines * blocks > 0;
    assert lines * blocks > 0 ==> lines * blocks * 10 * multiplier > 0;
    lines * blocks * 10 * multiplier
  }

  /** changeMultiplier: one more after a clearing placement, back to 1 otherwise. */
  function NextMultiplier(multiplier: int, linesCleared: bool): (m: int)
    ensures m == 1 || m == multiplier + 1
    ensures multiplier >= 1 ==> m >= 1 && (linesCleared <==> m > 1)
  {
    if linesCleared then multiplier + 1 else 1
  }

  /** The level a score reaches: how many whole thousands it holds. */
  function LevelFor(score: int): (l: int)
    requires score >= 0
    ensures l >= 0 && l * LevelPoints <= score < (l + 1) * LevelPoints
  {
    score / LevelPoints
  }

  /** The countdown at a level: `Math.max(12_000 - 500 * level, 2_500)`. */
  function DelayFor(level: int): (d: int)
    requires level >= 0
    ensures MinDelay <= d <= InitialDelay
    ensures level <= 19 ==> d == InitialDelay - DelayStep * level
    ensures level >= 19 ==> d == MinDelay
  {
    if InitialDelay - DelayStep * level >= MinDelay then InitialDelay - DelayStep * level else MinDelay
  }

  lemma LevelMonotone(s1: int, s2: int)
    requires 0 <= s1 <= s2
    ensures LevelFor(s1) <= LevelFor(s2)
  {
  }

  lemma DelayMonotone(l1: int, l2: int)
    requires 0 <= l1 <= l2
    ensures DelayFor(l1) >= DelayFor(l2)
  {
  }

  /** The scoring state of the engine. */
  datatype Stats = Stats(score: int, multiplier: int, level: int, delay: int)

  /** The state a fresh game starts in. */
  const Initial := Stats(0, 1, 0, InitialDelay)

  /**
   * What the engine keeps between operations: the level is the score's
   * thousands, the countdown is the level's, the multiplier is positive.
   */
  predicate Consistent(s: Stats)
  {
    s.score >= 0 && s.multiplier >= 1 && s.level == LevelFor(s.score) && s.delay == DelayFor(s.level)
  }

  /**
   * One scoring event, as afterPiece runs it: add the points with the
   * current multiplier, then update the multiplier, then recompute the level
   * and, only if the level changed, the countdown.
   */
  function Scored(s: Stats, lines: nat, blocks: nat): (t: Stats)
    requires s.score >= 0 && s.multiplier >= 1
    ensures t.score >= s.score && t.multiplier >= 1
    ensures t.level == LevelFor(t.score)
    ensures lines == 0 ==> t.score == s.score && t.multiplier == 1
  {
    var score := s.score + ScoreGain(lines, blocks, s.multiplier);
    var multiplier := NextMultiplier(s.multiplier, lines > 0);
    var level := LevelFor(score);
    if level == s.level then Stats(score, multiplier, s.level, s.delay)
    else Stats(score, multiplier, level, DelayFor(level))
  }

  /** The laws one scoring event obeys. */
  lemma ScoredLaws(s: Stats, lines: nat, blocks: nat)
    requires Consistent(s)
    ensures var t := Scored(s, lines, blocks);
      && Consistent(t)
      && t.score == s.score + lines * blocks * 10 * s.multiplier
      && t.score >= s.score
      && (lines == 0 ==> t.score == s.score)
      && t.multiplier == (if lines > 0 then s.multiplier + 1 else 1)
      && t.level == t.score / LevelPoints
      && t.level >= s.level
      && MinDelay <= t.delay <= s.delay
  {
    var t := Scored(s, lines, blocks);
    LevelMonotone(s.score, t.score);
    DelayMonotone(s.level, t.level);
  }
}
