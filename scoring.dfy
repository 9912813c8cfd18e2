/** The point table and the level and gravity-speed progression. */
module Scoring {

  /** The POINTS table. */
  const SINGLE: nat := 100
  const DOUBLE: nat := 300
  const TRIPLE: nat := 500
  const TETRIS: nat := 800
  const SOFT_DROP: nat := 1
  const HARD_DROP: nat := 2

  /** Gravity starts at one row per second and never gets faster than ten per second. */
  const START_INTERVAL: int := 1000
  const MIN_INTERVAL: int := 100
  const INTERVAL_STEP: int := 50

  /** Points for clearing `cleared` rows at once, before the level multiplier;
      any other count falls through the table and scores nothing. Clearing
      several rows at once is worth more than clearing them one at a time. */
  function LinePoints(cleared: int): (points: nat)
    ensures points > 0 <==> 1 <= cleared <= 4
    ensures points <= TETRIS
    ensures 2 <= cleared <= 4 ==> points > SINGLE * cleared
  {
    if cleared == 1 then SINGLE
    else if cleared == 2 then DOUBLE
    else if cleared == 3 then TRIPLE
    else if cleared == 4 then TETRIS
    else 0
  }

  /** Points for clearing `cleared` rows at once at `level`: the table value
      times the level. */
  function Award(cleared: int, level: nat): (points: nat)
    ensures !(1 <= cleared <= 4) ==> points == 0
    ensures 1 <= cleared <= 4 && level >= 1 ==> points >= SINGLE
  {
    LinePoints(cleared) * level
  }

  /** The level reached after `lines` cleared rows: one more every ten rows. */
  function LevelFor(lines: nat): (level: nat)
    ensures level >= 1
    ensures lines < 10 * level <= lines + 10
  {
    lines / 10 + 1
  }

  /** Milliseconds between gravity steps at `level`. */
  function IntervalFor(level: int): (ms: int)
    ensures MIN_INTERVAL <= ms
    ensures level >= 1 ==> ms <= START_INTERVAL
  {
    var slower := START_INTERVAL - (level - 1) * INTERVAL_STEP;
    if slower > MIN_INTERVAL then slower else MIN_INTERVAL
  }

  /** More cleared rows never mean a lower level. */
  lemma LevelMonotone(a: nat, b: nat)
    requires a <= b
    ensures LevelFor(a) <= LevelFor(b)
  {
  }

  /** A higher level never means a slower drop. */
  lemma IntervalMonotone(l1: int, l2: int)
    requires l1 <= l2
    ensures IntervalFor(l2) <= IntervalFor(l1)
  {
  }

  /** The speed bottoms out at level 19 and stays there. */
  lemma IntervalFloor(level: int)
    requires level >= 19
    ensures IntervalFor(level) == MIN_INTERVAL
  {
  }

  /** Worked cases: a four-row clear at level 1, a one-row clear at level 3,
      the first level-up, the interval after 100 rows and the first
      clamped interval (level 19, after 180 rows). */
  lemma ScoringExamples()
    ensures LinePoints(4) * 1 == 800
    ensures LinePoints(1) * 3 == 300
    ensures LevelFor(10) == 2 && IntervalFor(LevelFor(10)) == 950
    ensures IntervalFor(LevelFor(100)) == 500
    ensures IntervalFor(LevelFor(170)) == 150 && IntervalFor(LevelFor(180)) == 100
  {
  }
}
