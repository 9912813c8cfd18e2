/** The game session: the settled grid, the falling and the next piece, the
    score, level, line count, gravity interval and the started, paused and
    game-over flags. Each operation the player or the game loop can trigger
    is a transition function on a `State` value, and the `Game` class, whose
    fields the operations update in place, is proved to follow it. */
module Session {
  import opened Tetromino
  import opened Board
  import opened Lines
  import opened Scoring

  datatype Option<T> = None | Some(value: T)

  /** The wall-kick offsets (dx, dy) tried, in order, when a rotation does not fit in place. */
  const KICKS: seq<(int, int)> := [(-1, 0), (1, 0), (-2, 0), (2, 0), (0, -1)]

  /** The number of placements a rotation tries. */
  const TRIALS: nat := |KICKS| + 1

  /** The offset of placement `k`: in place first, then the kicks in order. */
  function Trial(k: nat): (int, int)
    requires k < TRIALS
  {
    if k == 0 then (0, 0) else KICKS[k - 1]
  }

  /** The shape `s` collides when placed at trial offset `k` from the piece's position. */
  ghost predicate TrialCollides(b: Grid, p: Piece, s: Matrix, k: nat)
    requires IsGrid(b) && k < TRIALS
  {
    Collides(b, p.x + Trial(k).0, p.y + Trial(k).1, s)
  }

  /** The first trial from `k` on at which the shape fits, or TRIALS when none does. */
  ghost function FirstFitFrom(b: Grid, p: Piece, s: Matrix, k: nat): (j: nat)
    requires IsGrid(b) && k <= TRIALS
    ensures k <= j <= TRIALS
    decreases TRIALS - k
  {
    if k == TRIALS || !TrialCollides(b, p, s, k) then k
    else FirstFitFrom(b, p, s, k + 1)
  }

  /** The trial found fits. */
  lemma {:induction false} FirstFitFits(b: Grid, p: Piece, s: Matrix, k: nat)
    requires IsGrid(b) && k <= TRIALS
    ensures FirstFitFrom(b, p, s, k) < TRIALS ==> !TrialCollides(b, p, s, FirstFitFrom(b, p, s, k))
    decreases TRIALS - k
  {
    if k < TRIALS && TrialCollides(b, p, s, k) {
      FirstFitFits(b, p, s, k + 1);
    }
  }

  /** Every trial before the one found collides. */
  lemma {:induction false} FirstFitIsFirst(b: Grid, p: Piece, s: Matrix, k: nat)
    requires IsGrid(b) && k <= TRIALS
    ensures forall i :: k <= i < FirstFitFrom(b, p, s, k) ==> TrialCollides(b, p, s, i)
    decreases TRIALS - k
  {
    if k < TRIALS && TrialCollides(b, p, s, k) {
      FirstFitIsFirst(b, p, s, k + 1);
    }
  }

  /** Every field of a session, as a value. */
  datatype State = State(
    board: Grid,
    current: Option<Piece>,
    next: Option<Piece>,
    score: nat,
    highScore: nat,
    level: nat,
    lines: nat,
    gameOver: bool,
    isPaused: bool,
    isGameStarted: bool,
    dropInterval: int)

  /** The session invariant: the grid keeps its size and holds no full row
      between operations; a falling piece always has a next piece beside it,
      and both are 4x4 shapes with an occupied cell; a piece still in play
      does not collide; a finished game has recorded its score as the best
      one if it was higher; the level and the gravity interval follow from
      the line count. A valid session is at level 1 or above, and its
      gravity interval lies between the fastest and the starting speed. */
  ghost predicate ValidState(s: State)
    ensures ValidState(s) ==> s.level >= 1 && MIN_INTERVAL <= s.dropInterval <= START_INTERVAL
  {
    && IsGrid(s.board)
    && NoFullRow(s.board)
    && (s.current.Some? <==> s.next.Some?)
    && (s.current.Some? ==> WellShaped(s.current.value) && WellShaped(s.next.value))
    && (s.current.Some? && !s.gameOver ==>
          s.isGameStarted && !Collides(s.board, s.current.value.x, s.current.value.y, s.current.value.shape))
    && (s.gameOver ==> !s.isGameStarted && s.highScore >= s.score)
    && s.level == LevelFor(s.lines)
    && s.dropInterval == IntervalFor(s.level)
  }

  /** Moves, drops and rotations act only on a piece of a running, unpaused game. */
  predicate Playing(s: State) {
    s.current.Some? && !s.isPaused && !s.gameOver
  }

  /** The game is over: the flags say so and the best score is raised to the
      final score if that is higher. */
  function Ended(s: State): (t: State)
    ensures t.gameOver && !t.isGameStarted
    ensures t.highScore >= s.score && t.highScore >= s.highScore
    ensures t.highScore == s.score || t.highScore == s.highScore
  {
    s.(gameOver := true, isGameStarted := false,
       highScore := if s.score > s.highScore then s.score else s.highScore)
  }

  /** Pausing: a started game that is not over flips its paused flag; in
      any other state nothing changes. */
  function Toggled(s: State): (t: State)
    ensures t == s.(isPaused := t.isPaused)
    ensures t.isPaused != s.isPaused <==> s.isGameStarted && !s.gameOver
  {
    if s.isGameStarted && !s.gameOver then s.(isPaused := !s.isPaused) else s
  }

  /** Pausing keeps the invariant, and pausing twice changes nothing. */
  lemma ToggleTwice(s: State)
    requires ValidState(s)
    ensures ValidState(Toggled(s)) && Toggled(Toggled(s)) == s
  {
  }

  /** The next piece is promoted, a piece of kind `kind` becomes the next one,
      and the game ends if the promoted piece collides where it spawns. */
  ghost function Spawned(s: State, kind: Kind): (t: State)
    requires IsGrid(s.board) && s.next.Some?
    ensures t.board == s.board && t.score == s.score && t.lines == s.lines
    ensures t.level == s.level && t.dropInterval == s.dropInterval && t.highScore >= s.highScore
    ensures t.current == s.next && t.next == Some(CreatePiece(kind))
    ensures var p := s.next.value; t.gameOver <==> s.gameOver || Collides(s.board, p.x, p.y, p.shape)
  {
    var p := s.next.value;
    var t := s.(current := s.next, next := Some(CreatePiece(kind)));
    if Collides(s.board, p.x, p.y, p.shape) then Ended(t) else t
  }

  /** `cleared` rows are counted and scored at the level before the clear;
      the level and the gravity speed rise when the new line count reaches a
      higher level. */
  function Scored(s: State, cleared: nat): (t: State)
    ensures t.lines == s.lines + cleared && t.score == s.score + Award(cleared, s.level)
    ensures t.level >= s.level
    ensures t.board == s.board && t.current == s.current && t.next == s.next
  {
    var lines := s.lines + cleared;
    var newLevel := LevelFor(lines);
    var t := s.(lines := lines, score := s.score + Award(cleared, s.level));
    if newLevel > s.level then t.(level := newLevel, dropInterval := IntervalFor(newLevel)) else t
  }

  /** The falling piece is written into the grid, the full rows are cleared
      and, if there were any, scored. */
  function Cleared(s: State): (t: State)
    requires IsGrid(s.board) && s.current.Some?
    ensures IsGrid(t.board) && NoFullRow(t.board)
    ensures t.lines == s.lines + CountFull(Merge(s.board, s.current.value)) && t.score >= s.score
    ensures t.current == s.current && t.next == s.next && t.highScore == s.highScore
  {
    var merged := Merge(s.board, s.current.value);
    var cleared := CountFull(merged);
    var t := s.(board := Compact(merged));
    if cleared > 0 then Scored(t, cleared) else t
  }

  /** Locking the falling piece: clear and score, then spawn a piece of kind `kind`. */
  ghost function Locked(s: State, kind: Kind): (t: State)
    requires IsGrid(s.board) && s.current.Some? && s.next.Some?
    ensures IsGrid(t.board) && NoFullRow(t.board)
    ensures t.lines >= s.lines && t.score >= s.score && t.highScore >= s.highScore
    ensures t.current == s.next && t.next == Some(CreatePiece(kind))
  {
    Spawned(Cleared(s), kind)
  }

  /** A new game: the grid and counters are reset, a piece of kind `first` is
      made the next piece and promoted, with one of kind `following` behind it. */
  ghost function Started(s: State, first: Kind, following: Kind): (t: State)
    ensures t.board == EmptyBoard() && t.score == 0 && t.lines == 0 && t.level == 1
    ensures t.highScore == s.highScore && !t.isPaused
    ensures t.current == Some(CreatePiece(first)) && t.next == Some(CreatePiece(following))
  {
    var reset := s.(board := EmptyBoard(), score := 0, level := 1, lines := 0,
                    gameOver := false, isPaused := false, isGameStarted := true,
                    dropInterval := START_INTERVAL, next := Some(CreatePiece(first)));
    Spawned(reset, following)
  }

  /** A sideways move by `dx` columns, taken only when the piece fits there. */
  ghost function Shifted(s: State, dx: int): (t: State)
    requires IsGrid(s.board)
    ensures t == s.(current := t.current) && (t.current.Some? <==> s.current.Some?)
    ensures t != s ==> Playing(s) && t.current.value == s.current.value.(x := s.current.value.x + dx)
    ensures t != s ==> !Collides(s.board, t.current.value.x, t.current.value.y, t.current.value.shape)
    ensures Playing(s) && !Collides(s.board, s.current.value.x + dx, s.current.value.y, s.current.value.shape) ==>
      t == s.(current := Some(s.current.value.(x := s.current.value.x + dx)))
  {
    if !Playing(s) then s
    else
      var p := s.current.value;
      if Collides(s.board, p.x + dx, p.y, p.shape) then s
      else s.(current := Some(p.(x := p.x + dx)))
  }

  /** One step down: one row and one point when the row below is free, and
      otherwise the piece locks. */
  ghost function Descended(s: State, kind: Kind): (t: State)
    requires ValidState(s)
    ensures t.score >= s.score && t.lines >= s.lines && t.highScore >= s.highScore
    ensures !Playing(s) ==> t == s
  {
    if !Playing(s) then s
    else
      var p := s.current.value;
      if Collides(s.board, p.x, p.y + 1, p.shape) then Locked(s, kind)
      else s.(current := Some(p.(y := p.y + 1)), score := s.score + SOFT_DROP)
  }

  /** The piece moved straight down to its landing row, two points per row travelled. */
  ghost function HardDropped(s: State): (t: State)
    requires IsGrid(s.board) && s.current.Some? && HasBlock(s.current.value.shape)
    ensures t == s.(current := t.current, score := t.score)
    ensures t.current.Some? && t.current.value == s.current.value.(y := t.current.value.y)
    ensures t.current.value.y >= s.current.value.y && t.score >= s.score
  {
    var p := s.current.value;
    var landing := DropRow(s.board, p.x, p.y, p.shape);
    var distance: nat := landing - p.y;
    s.(current := Some(p.(y := landing)), score := s.score + distance * HARD_DROP)
  }

  /** The hard drop: the piece falls to its landing row and locks there. */
  ghost function Dropped(s: State, kind: Kind): (t: State)
    requires ValidState(s)
    ensures t.score >= s.score && t.lines >= s.lines && t.highScore >= s.highScore
    ensures !Playing(s) ==> t == s
  {
    if !Playing(s) then s else Locked(HardDropped(s), kind)
  }

  /** The piece turned a clockwise quarter and placed at the first trial
      where it fits, or None when it fits at none. A placement it returns
      is a 4x4 shape with an occupied cell that does not collide. */
  ghost function TurnedPiece(b: Grid, p: Piece): (r: Option<Piece>)
    requires IsGrid(b) && WellShaped(p)
    ensures r.Some? ==> WellShaped(r.value) && !Collides(b, r.value.x, r.value.y, r.value.shape)
  {
    var turned := Rotated(p.shape);
    var j := FirstFitFrom(b, p, turned, 0);
    if j == TRIALS then None
    else
      RotatedHasBlock(p.shape);
      FirstFitFits(b, p, turned, 0);
      var q := p.(x := p.x + Trial(j).0, y := p.y + Trial(j).1, shape := turned);
      assert !TrialCollides(b, p, turned, j);
      assert WellShaped(q);
      Some(q)
  }

  /** A rotation: the turned placement when there is one, otherwise no change. */
  ghost function Turned(s: State): (t: State)
    requires ValidState(s)
    ensures t == s.(current := t.current) && (t.current.Some? <==> s.current.Some?)
    ensures t != s ==> Playing(s) && t.current.value.shape == Rotated(s.current.value.shape)
    ensures t != s ==> WellShaped(t.current.value)
    ensures t != s ==> !Collides(s.board, t.current.value.x, t.current.value.y, t.current.value.shape)
  {
    if !Playing(s) then s
    else
      match TurnedPiece(s.board, s.current.value)
      case None => s
      case Some(q) => s.(current := Some(q))
  }

  /** Locking a piece of a running game keeps the invariant: the cleared grid
      has no full row, the promoted piece is in play unless it collides, in
      which case the game is over, and the level catches up with the lines. */
  lemma LockKeepsValid(s: State, kind: Kind)
    requires ValidState(s) && s.current.Some? && !s.gameOver
    ensures ValidState(Locked(s, kind))
  {
    ClearedSettles(s);
    SpawnKeepsValid(Cleared(s), kind);
  }

  /** The state between locking a piece and promoting the next one: a grid
      of the right size without full rows, a well-shaped next piece, a
      running game, and the level and speed that follow from the lines. */
  ghost predicate Settled(s: State) {
    && IsGrid(s.board)
    && NoFullRow(s.board)
    && s.next.Some? && WellShaped(s.next.value)
    && s.isGameStarted && !s.gameOver
    && s.level == LevelFor(s.lines)
    && s.dropInterval == IntervalFor(s.level)
  }

  /** Merging and clearing leave a settled state behind. */
  lemma ClearedSettles(s: State)
    requires ValidState(s) && s.current.Some? && !s.gameOver
    ensures Settled(Cleared(s))
  {
    var t := s.(board := Compact(Merge(s.board, s.current.value)));
    assert Settled(t);
    ScoredKeepsLevel(t, CountFull(Merge(s.board, s.current.value)));
  }

  /** Scoring keeps the level and the speed in step with the line count. */
  lemma ScoredKeepsLevel(s: State, cleared: nat)
    requires s.level == LevelFor(s.lines) && s.dropInterval == IntervalFor(s.level)
    ensures var t := Scored(s, cleared);
      && t.level == LevelFor(t.lines) && t.dropInterval == IntervalFor(t.level)
      && t.level >= s.level && MIN_INTERVAL <= t.dropInterval <= START_INTERVAL
      && t.lines == s.lines + cleared && t.score == s.score + Award(cleared, s.level)
  {
    LevelMonotone(s.lines, s.lines + cleared);
  }

  /** A spawn ends the game exactly when the promoted piece collides where it appears. */
  lemma SpawnEndsOnCollision(s: State, kind: Kind)
    requires IsGrid(s.board) && s.next.Some? && !s.gameOver
    ensures var p := s.next.value;
      Spawned(s, kind).gameOver <==> Collides(s.board, p.x, p.y, p.shape)
  {
  }

  /** Promoting the next piece of a settled state restores the invariant. */
  lemma SpawnKeepsValid(s: State, kind: Kind)
    requires Settled(s)
    ensures ValidState(Spawned(s, kind))
  {
  }

  /** One lock clears at most four rows: a piece's frame spans four rows and
      the grid had no full row before. */
  lemma LockClearsAtMostFour(s: State, kind: Kind)
    requires ValidState(s) && s.current.Some?
    ensures s.lines <= Locked(s, kind).lines <= s.lines + 4
  {
    MergeCompletesAtMostShapeRows(s.board, s.current.value);
  }

  /** A new game is running with the chosen pieces, an empty grid, no score,
      and the best score kept. */
  lemma StartedPlays(s: State, first: Kind, following: Kind)
    ensures var t := Started(s, first, following);
      && ValidState(t) && Playing(t)
      && t.current == Some(CreatePiece(first)) && t.next == Some(CreatePiece(following))
      && t.board == EmptyBoard() && t.score == 0 && t.highScore == s.highScore
  {
    SpawnFits(first);
    EmptyBoardHasNoFullRow();
  }

  /** A sideways move keeps the invariant. */
  lemma ShiftKeepsValid(s: State, dx: int)
    requires ValidState(s)
    ensures ValidState(Shifted(s, dx))
  {
  }

  /** A move one column left that was taken is undone by a move one column right. */
  lemma ShiftBack(s: State)
    requires ValidState(s) && Playing(s)
    requires Shifted(s, -1) != s
    ensures Shifted(Shifted(s, -1), 1) == s
  {
    var p := s.current.value;
    assert p.(x := p.x - 1).(x := p.x - 1 + 1) == p;
  }

  /** A soft drop or gravity step keeps the invariant. */
  lemma DescendKeepsValid(s: State, kind: Kind)
    requires ValidState(s)
    ensures ValidState(Descended(s, kind))
  {
    if Playing(s) {
      var p := s.current.value;
      if Collides(s.board, p.x, p.y + 1, p.shape) {
        DescendLocks(s, kind);
        LockKeepsValid(s, kind);
      } else {
        DescendSteps(s, kind);
      }
    }
  }

  /** A piece that can move down moves one row and scores one point. */
  lemma DescendSteps(s: State, kind: Kind)
    requires ValidState(s) && Playing(s)
    requires !Collides(s.board, s.current.value.x, s.current.value.y + 1, s.current.value.shape)
    ensures var p := s.current.value;
      var t := s.(current := Some(p.(y := p.y + 1)), score := s.score + SOFT_DROP);
      Descended(s, kind) == t && ValidState(t)
  {
    var p := s.current.value;
    var q := p.(y := p.y + 1);
    assert WellShaped(q) && !Collides(s.board, q.x, q.y, q.shape);
    assert Descended(s, kind) == s.(current := Some(q), score := s.score + SOFT_DROP);
  }

  /** A piece that cannot move down locks where it is. */
  lemma DescendLocks(s: State, kind: Kind)
    requires ValidState(s) && Playing(s)
    requires Collides(s.board, s.current.value.x, s.current.value.y + 1, s.current.value.shape)
    ensures Descended(s, kind) == Locked(s, kind)
  {
  }

  /** A piece of a running game that cannot move down locks where it is: the
      grid becomes the cleared grid with the piece written in, the lines grow
      by the rows it completed, at most four, those rows are scored at the
      current level, the next piece takes over, and the session stays valid. */
  lemma SoftDropLocks(s: State, kind: Kind)
    requires ValidState(s) && Playing(s)
    requires Collides(s.board, s.current.value.x, s.current.value.y + 1, s.current.value.shape)
    ensures var merged := Merge(s.board, s.current.value);
      var t := Descended(s, kind);
      && t.board == Compact(merged)
      && t.lines == s.lines + CountFull(merged) && CountFull(merged) <= 4
      && t.score == s.score + Award(CountFull(merged), s.level)
      && t.current == s.next && t.next == Some(CreatePiece(kind))
      && ValidState(t)
  {
    var merged := Merge(s.board, s.current.value);
    DescendLocks(s, kind);
    MergeCompletesAtMostShapeRows(s.board, s.current.value);
    LockKeepsValid(s, kind);
    var c := Cleared(s);
    assert c.board == Compact(merged);
    assert c.score == s.score + Award(CountFull(merged), s.level);
  }

  /** The hard drop lands the piece on the row `k` below which it cannot
      move: every row it passes on the way down is free, it moves only
      down, and the score gains two points per row. */
  lemma HardDropLands(s: State)
    requires IsGrid(s.board) && s.current.Some? && HasBlock(s.current.value.shape)
    ensures var p := s.current.value;
      var t := HardDropped(s);
      var k := t.current.value.y;
      && t.current == Some(p.(y := k)) && p.y <= k
      && (forall j :: p.y < j <= k ==> !Collides(s.board, p.x, j, p.shape))
      && Collides(s.board, p.x, k + 1, p.shape)
      && t.score == s.score + HARD_DROP * (k - p.y)
      && t.board == s.board && t.next == s.next && t.lines == s.lines
  {
    var p := s.current.value;
    DropRowPassesFreely(s.board, p.x, p.y, p.shape);
  }

  /** The hard drop moves the piece down by its drop distance and scores
      two points per row. */
  lemma HardDroppedIs(s: State, distance: int)
    requires IsGrid(s.board) && s.current.Some? && HasBlock(s.current.value.shape)
    requires var p := s.current.value; distance == DropRow(s.board, p.x, p.y, p.shape) - p.y
    ensures var p := s.current.value;
      HardDropped(s) == s.(current := Some(p.(y := p.y + distance)), score := s.score + distance * HARD_DROP)
  {
  }

  /** A hard drop always ends in a lock, even when the piece did not move:
      the piece is written into the grid on its landing row `k`, the full
      rows are cleared and counted, the score gains two points per row
      fallen plus the award for the cleared rows at the current level, and
      the next piece takes over. */
  lemma HardDropLocks(s: State, kind: Kind)
    requires ValidState(s) && Playing(s)
    ensures var p := s.current.value;
      var k := DropRow(s.board, p.x, p.y, p.shape);
      var merged := Merge(s.board, p.(y := k));
      var t := Dropped(s, kind);
      && t.board == Compact(merged)
      && t.lines == s.lines + CountFull(merged)
      && t.score == s.score + HARD_DROP * (k - p.y) + Award(CountFull(merged), s.level)
      && t.current == s.next && t.next == Some(CreatePiece(kind))
  {
    var p := s.current.value;
    var k := DropRow(s.board, p.x, p.y, p.shape);
    var h := HardDropped(s);
    assert h.current.value == p.(y := k);
    var c := Cleared(h);
    assert c.board == Compact(Merge(s.board, p.(y := k)));
    assert c.score == h.score + Award(CountFull(Merge(s.board, p.(y := k))), h.level);
  }

  /** The piece reaches its landing row without colliding there. */
  lemma HardDroppedValid(s: State)
    requires ValidState(s) && Playing(s)
    ensures ValidState(HardDropped(s)) && Playing(HardDropped(s))
  {
    var p := s.current.value;
    DropRowPassesFreely(s.board, p.x, p.y, p.shape);
  }

  /** A hard drop keeps the invariant. */
  lemma DropKeepsValid(s: State, kind: Kind)
    requires ValidState(s)
    ensures ValidState(Dropped(s, kind))
  {
    if Playing(s) {
      HardDroppedValid(s);
      LockKeepsValid(HardDropped(s), kind);
    }
  }

  /** Putting the falling piece anywhere it fits keeps the invariant, as
      long as it keeps a 4x4 shape with an occupied cell. */
  lemma MoveKeepsValid(s: State, q: Piece)
    requires ValidState(s) && Playing(s)
    requires WellShaped(q) && !Collides(s.board, q.x, q.y, q.shape)
    ensures ValidState(s.(current := Some(q)))
  {
  }

  /** A rotation keeps the invariant: the turned shape is still a 4x4 shape
      with an occupied cell, and it is placed only where it fits. */
  lemma TurnKeepsValid(s: State)
    requires ValidState(s)
    ensures ValidState(Turned(s))
  {
    if Playing(s) && TurnedPiece(s.board, s.current.value).Some? {
      MoveKeepsValid(s, TurnedPiece(s.board, s.current.value).value);
    }
  }

  /** Trials that all collide are skipped over. */
  lemma {:induction false} FirstFitSkips(b: Grid, p: Piece, s: Matrix, k: nat)
    requires IsGrid(b) && k <= TRIALS
    requires forall j :: 0 <= j < k ==> TrialCollides(b, p, s, j)
    ensures FirstFitFrom(b, p, s, 0) == FirstFitFrom(b, p, s, k)
  {
    if k > 0 {
      FirstFitSkips(b, p, s, k - 1);
    }
  }

  /** When trial `k` is the first where the turned shape fits, the rotation
      places it there. */
  lemma TurnAt(s: State, k: nat)
    requires ValidState(s) && Playing(s) && k < TRIALS
    requires var p := s.current.value;
      && (forall j :: 0 <= j < k ==> TrialCollides(s.board, p, Rotated(p.shape), j))
      && !TrialCollides(s.board, p, Rotated(p.shape), k)
    ensures var p := s.current.value;
      Turned(s) == s.(current := Some(p.(x := p.x + Trial(k).0, y := p.y + Trial(k).1, shape := Rotated(p.shape))))
  {
    var p := s.current.value;
    FirstFitSkips(s.board, p, Rotated(p.shape), k);
  }

  /** When the turned shape fits at no trial, the rotation changes nothing. */
  lemma TurnBlocked(s: State)
    requires ValidState(s) && Playing(s)
    requires var p := s.current.value;
      forall j :: 0 <= j < TRIALS ==> TrialCollides(s.board, p, Rotated(p.shape), j)
    ensures Turned(s) == s
  {
    var p := s.current.value;
    FirstFitSkips(s.board, p, Rotated(p.shape), TRIALS);
  }

  class Game {
    var board: Grid
    var current: Option<Piece>
    var next: Option<Piece>
    var score: nat
    var highScore: nat
    var level: nat
    var lines: nat
    var gameOver: bool
    var isPaused: bool
    var isGameStarted: bool
    var dropInterval: int

    /** The session's fields as a value. */
    ghost function St(): State
      reads this
    {
      State(board, current, next, score, highScore, level, lines, gameOver, isPaused, isGameStarted, dropInterval)
    }

    ghost predicate Valid()
      reads this
    {
      ValidState(St())
    }

    /** The state before the first game: an empty grid, no pieces, and the
        best score read from storage. */
    constructor (savedHighScore: nat)
      ensures Valid()
      ensures St() == State(EmptyBoard(), None, None, 0, savedHighScore, 1, 0, false, false, false, START_INTERVAL)
    {
      board := EmptyBoard();
      current := None;
      next := None;
      score := 0;
      highScore := savedHighScore;
      level := 1;
      lines := 0;
      gameOver := false;
      isPaused := false;
      isGameStarted := false;
      dropInterval := START_INTERVAL;
      EmptyBoardHasNoFullRow();
    }

    /** Starts a game unless one is running. */
    method StartGame(first: Kind, following: Kind)
      requires Valid()
      modifies this
      ensures Valid()
      ensures St() == if old(isGameStarted && !gameOver) then old(St()) else Started(old(St()), first, following)
    {
      if isGameStarted && !gameOver {
        return;
      }
      ghost var s0 := St();
      board := EmptyBoard();
      score := 0;
      level := 1;
      lines := 0;
      gameOver := false;
      isPaused := false;
      isGameStarted := true;
      dropInterval := START_INTERVAL;
      next := Some(CreatePiece(first));
      ghost var s1 := St();
      assert s1 == s0.(board := EmptyBoard(), score := 0, level := 1, lines := 0,
                       gameOver := false, isPaused := false, isGameStarted := true,
                       dropInterval := START_INTERVAL, next := Some(CreatePiece(first)));
      SpawnPiece(following);
      assert St() == Spawned(s1, following);
      StartedPlays(s0, first, following);
    }

    /** Promotes the next piece, makes a piece of kind `kind` the next one, and
        ends the game when the promoted piece collides where it spawns. */
    method SpawnPiece(kind: Kind)
      requires IsGrid(board) && next.Some?
      modifies this`current, this`next, this`gameOver, this`isGameStarted, this`highScore
      ensures St() == Spawned(old(St()), kind)
    {
      current := next;
      next := Some(CreatePiece(kind));
      var spawned := current.value;
      var hit := CheckCollision(board, spawned.x, spawned.y, spawned.shape);
      if hit {
        EndGame();
      }
    }

    /** Ends the game and raises the best score to the final score if it is higher. */
    method EndGame()
      modifies this`gameOver, this`isGameStarted, this`highScore
      ensures St() == Ended(old(St()))
    {
      gameOver := true;
      isGameStarted := false;
      if score > highScore {
        highScore := score;
      }
    }

    /** Pauses a running game or resumes a paused one; otherwise does nothing. */
    method TogglePause()
      requires Valid()
      modifies this`isPaused
      ensures Valid()
      ensures St() == Toggled(old(St()))
    {
      if !isGameStarted || gameOver {
        return;
      }
      isPaused := !isPaused;
    }

    /** Shifts the piece one column left if it fits there. */
    method MoveLeft()
      requires Valid()
      modifies this`current
      ensures Valid()
      ensures St() == Shifted(old(St()), -1)
    {
      ShiftKeepsValid(St(), -1);
      if current.None? || isPaused || gameOver {
        return;
      }
      var p := current.value;
      var hit := CheckCollision(board, p.x - 1, p.y, p.shape);
      if !hit {
        current := Some(p.(x := p.x - 1));
      }
    }

    /** Shifts the piece one column right if it fits there. */
    method MoveRight()
      requires Valid()
      modifies this`current
      ensures Valid()
      ensures St() == Shifted(old(St()), 1)
    {
      ShiftKeepsValid(St(), 1);
      if current.None? || isPaused || gameOver {
        return;
      }
      var p := current.value;
      var hit := CheckCollision(board, p.x + 1, p.y, p.shape);
      if !hit {
        current := Some(p.(x := p.x + 1));
      }
    }

    /** The soft drop, also the gravity step: moves the piece one row down
        for one point if it fits there, and otherwise locks it. */
    method MoveDown(kind: Kind)
      requires Valid()
      modifies this
      ensures Valid()
      ensures St() == Descended(old(St()), kind)
    {
      if current.None? || isPaused || gameOver {
        return;
      }
      ghost var s0 := St();
      var p := current.value;
      var hit := CheckCollision(board, p.x, p.y + 1, p.shape);
      if !hit {
        current := Some(p.(y := p.y + 1));
        score := score + SOFT_DROP;
        DescendSteps(s0, kind);
        assert St() == s0.(current := Some(p.(y := p.y + 1)), score := s0.score + SOFT_DROP);
      } else {
        LockPiece(kind);
        DescendLocks(s0, kind);
      }
    }

    /** The hard drop: moves the piece down while the row below is free,
        scores two points per row travelled, and then locks it, even when it
        did not move. */
    method HardDrop(kind: Kind)
      requires Valid()
      modifies this
      ensures Valid()
      ensures St() == Dropped(old(St()), kind)
    {
      if current.None? || isPaused || gameOver {
        return;
      }
      ghost var s0 := St();
      DropToLanding();
      HardDroppedValid(s0);
      ghost var s1 := St();
      LockPiece(kind);
      assert St() == Locked(s1, kind);
    }

    /** Moves the piece to its landing row and scores the rows it fell. */
    method DropToLanding()
      requires IsGrid(board) && current.Some? && HasBlock(current.value.shape)
      modifies this`current, this`score
      ensures St() == HardDropped(old(St()))
    {
      ghost var s0 := St();
      var dropDistance := Fall();
      score := score + dropDistance * HARD_DROP;
      HardDroppedIs(s0, dropDistance);
    }

    /** The loop of the hard drop: moves the piece down one row at a time
        while the row below is free, and counts the rows. */
    method Fall() returns (dropDistance: nat)
      requires IsGrid(board) && current.Some? && HasBlock(current.value.shape)
      modifies this`current
      ensures var p := old(current).value;
        && dropDistance == DropRow(board, p.x, p.y, p.shape) - p.y
        && current == Some(p.(y := p.y + dropDistance))
    {
      var p := current.value;
      var y := p.y;
      dropDistance := 0;
      var blocked := CheckCollision(board, p.x, y + 1, p.shape);
      while !blocked
        invariant y == p.y + dropDistance
        invariant blocked == Collides(board, p.x, y + 1, p.shape)
        invariant DropRow(board, p.x, y, p.shape) == DropRow(board, p.x, p.y, p.shape)
        decreases ROWS - y
      {
        FloorStops(board, p.x, y + 1, p.shape);
        y := y + 1;
        dropDistance := dropDistance + 1;
        blocked := CheckCollision(board, p.x, y + 1, p.shape);
      }
      current := Some(p.(y := y));
    }

    /** Rotates the piece clockwise at the first placement in TRIALS where
        the turned shape fits, or leaves it as it is when none does. */
    method Rotate()
      requires Valid()
      modifies this`current
      ensures Valid()
      ensures St() == Turned(old(St()))
    {
      if current.None? || isPaused || gameOver {
        return;
      }
      ghost var s0 := St();
      var placed := TurnPiece(current.value);
      if placed.Some? {
        current := placed;
      }
      assert St() == Turned(s0);
      TurnKeepsValid(s0);
    }

    /** The piece turned a quarter clockwise and placed at the first trial
        where it fits, or None when it fits at none. */
    method TurnPiece(p: Piece) returns (placed: Option<Piece>)
      requires IsGrid(board) && WellShaped(p)
      ensures placed == TurnedPiece(board, p)
    {
      var rotated := RotateMatrix(p.shape);
      var k := FirstFit(p, rotated);
      if k < TRIALS {
        var offset := Trial(k);
        placed := Some(p.(x := p.x + offset.0, y := p.y + offset.1, shape := rotated));
      } else {
        placed := None;
      }
    }

    /** The first trial placement of `p` with shape `turned` that fits: in
        place, then each kick in turn; TRIALS when none fits. */
    method FirstFit(p: Piece, turned: Matrix) returns (k: nat)
      requires IsGrid(board)
      ensures k == FirstFitFrom(board, p, turned, 0)
    {
      var hit := CheckCollision(board, p.x, p.y, turned);
      if !hit {
        return 0;
      }
      for i := 0 to |KICKS|
        invariant forall j :: 0 <= j <= i ==> TrialCollides(board, p, turned, j)
      {
        var kick := KICKS[i];
        hit := CheckCollision(board, p.x + kick.0, p.y + kick.1, turned);
        if !hit {
          FirstFitSkips(board, p, turned, i + 1);
          return i + 1;
        }
      }
      FirstFitSkips(board, p, turned, TRIALS);
      return TRIALS;
    }

    /** The row the piece would land on if dropped straight down. */
    method GhostPosition() returns (ghostY: int)
      requires Valid() && current.Some?
      ensures ghostY == DropRow(board, current.value.x, current.value.y, current.value.shape)
    {
      var p := current.value;
      ghostY := p.y;
      var blocked := CheckCollision(board, p.x, ghostY + 1, p.shape);
      while !blocked
        invariant p.y <= ghostY
        invariant blocked == Collides(board, p.x, ghostY + 1, p.shape)
        invariant DropRow(board, p.x, ghostY, p.shape) == DropRow(board, p.x, p.y, p.shape)
        decreases ROWS - ghostY
      {
        FloorStops(board, p.x, ghostY + 1, p.shape);
        ghostY := ghostY + 1;
        blocked := CheckCollision(board, p.x, ghostY + 1, p.shape);
      }
    }

    /** Locks the piece: merges it into the grid, clears full rows, scores
        them, and promotes the next piece. */
    method LockPiece(kind: Kind)
      requires Valid() && current.Some? && !gameOver
      modifies this
      ensures Valid()
      ensures St() == Locked(old(St()), kind)
    {
      ghost var s0 := St();
      ghost var merged := Merge(s0.board, s0.current.value);
      MergeCurrent();
      var cleared := ClearLines();
      assert St() == s0.(board := Compact(merged));
      if cleared > 0 {
        UpdateScore(cleared);
      }
      assert St() == Cleared(s0);
      SpawnPiece(kind);
      LockKeepsValid(s0, kind);
    }

    /** Writes the piece's colour into every covered cell that is on the
        board; cells above the top row are dropped. */
    method MergeCurrent()
      requires IsGrid(board) && current.Some?
      requires !Collides(board, current.value.x, current.value.y, current.value.shape)
      modifies this`board
      ensures board == Merge(old(board), current.value)
    {
      var p := current.value;
      ghost var before := board;
      for row := 0 to |p.shape|
        invariant IsGrid(board)
        invariant forall y, x :: 0 <= y < ROWS && 0 <= x < COLS ==>
          board[y][x] == if Covers(p, x, y) && y - p.y < row then Filled(p.color) else before[y][x]
      {
        MergeRow(p, row, before);
      }
      var merged := Merge(before, p);
      forall y | 0 <= y < ROWS
        ensures board[y] == merged[y]
      {
      }
    }

    /** Writes the colour of row `row` of the piece's shape into the grid. */
    method MergeRow(p: Piece, row: nat, ghost before: Grid)
      requires IsGrid(board) && IsGrid(before) && row < |p.shape|
      requires !Collides(before, p.x, p.y, p.shape)
      requires forall y, x :: 0 <= y < ROWS && 0 <= x < COLS ==>
        board[y][x] == if Covers(p, x, y) && y - p.y < row then Filled(p.color) else before[y][x]
      modifies this`board
      ensures IsGrid(board)
      ensures forall y, x :: 0 <= y < ROWS && 0 <= x < COLS ==>
        board[y][x] == if Covers(p, x, y) && y - p.y <= row then Filled(p.color) else before[y][x]
    {
      var cells := p.shape[row];
      for col := 0 to |cells|
        invariant IsGrid(board)
        invariant forall y, x :: 0 <= y < ROWS && 0 <= x < COLS ==>
          board[y][x] ==
            if Covers(p, x, y) && (y - p.y < row || (y - p.y == row && x - p.x < col))
            then Filled(p.color) else before[y][x]
      {
        if cells[col] != 0 {
          var boardY := p.y + row;
          var boardX := p.x + col;
          if boardY >= 0 {
            assert !Blocked(before, boardX, boardY);
            ghost var prev := board;
            board := board[boardY := board[boardY][boardX := Filled(p.color)]];
            assert forall y, x :: 0 <= y < ROWS && 0 <= x < COLS && (y != boardY || x != boardX) ==>
              board[y][x] == prev[y][x];
          }
        }
      }
    }

    /** Scans the rows bottom-up; each full row is cut out, an empty row is
        put on top, and the same index is examined again. Returns the number
        of rows cleared. */
    method ClearLines() returns (cleared: nat)
      requires IsGrid(board)
      modifies this`board
      ensures board == Compact(old(board))
      ensures cleared == CountFull(old(board))
    {
      ghost var before := board;
      // before[..unseen] are the rows of the original grid not yet examined
      ghost var unseen: nat := ROWS;
      ClearingStarts(before);
      cleared := 0;
      var row: int := ROWS - 1;
      while row >= 0
        invariant -1 <= row < ROWS
        invariant unseen <= ROWS
        invariant unseen == row + 1 - cleared || (unseen == 0 && row < cleared)
        invariant cleared == CountFull(before[unseen..])
        invariant board == Clearing(before, cleared, unseen)
        decreases row + 1 + unseen
      {
        var full;
        full, unseen := ScanRow(before, cleared, unseen, row);
        if full {
          cleared := cleared + 1;
        } else {
          row := row - 1;
        }
      }
      assert before[0..] == before;
      ClearingEnds(before);
    }

    /** Examines row `row` of the scan: a full row is cut out and an empty
        row goes on top, and the same row is examined next; any other row
        stays, and the scan moves one row up. */
    method ScanRow(ghost before: Grid, cleared: nat, ghost unseen: nat, row: nat)
      returns (full: bool, ghost unseen': nat)
      requires IsGrid(before) && unseen <= ROWS && row < ROWS
      requires unseen == row + 1 - cleared || (unseen == 0 && row < cleared)
      requires cleared == CountFull(before[unseen..])
      requires board == Clearing(before, cleared, unseen)
      modifies this`board
      ensures unseen' <= unseen
      ensures full ==> unseen' + 1 == unseen && cleared + 1 == CountFull(before[unseen'..])
      ensures full ==> board == Clearing(before, cleared + 1, unseen')
      ensures !full ==> board == old(board) && cleared == CountFull(before[unseen'..])
      ensures !full ==> board == Clearing(before, cleared, unseen')
      ensures !full ==> unseen' == row - cleared || (unseen' == 0 && row < cleared + 1)
    {
      if row >= cleared {
        ClearingRow(before, cleared, unseen);
      } else {
        ClearingTop(before, cleared, unseen, row);
      }
      full := IsFull(board[row]);
      if full {
        SpliceRow(before, cleared, unseen, row);
        unseen' := unseen - 1;
      } else if row >= cleared {
        ClearingKeepsRow(before, cleared, unseen);
        unseen' := unseen - 1;
      } else {
        unseen' := unseen;
      }
    }

    /** Cuts the full row `row` out of the grid and puts an empty row on top. */
    method SpliceRow(ghost before: Grid, cleared: nat, ghost unseen: nat, row: nat)
      requires 0 < unseen <= |before| && row == cleared + unseen - 1
      requires board == Clearing(before, cleared, unseen) && IsFull(before[unseen - 1])
      modifies this`board
      ensures board == Clearing(before, cleared + 1, unseen - 1)
    {
      ClearingDropsFull(before, cleared, unseen);
      board := [EmptyRow()] + (board[..row] + board[row + 1..]);
    }

    /** Adds `cleared` to the line count, scores the clear at the current
        level, and raises the level and the gravity speed when the line count
        crosses a multiple of ten. */
    method UpdateScore(cleared: nat)
      modifies this`lines, this`score, this`level, this`dropInterval
      ensures St() == Scored(old(St()), cleared)
    {
      lines := lines + cleared;
      var points := LinePoints(cleared);
      score := score + points * level;
      var newLevel := LevelFor(lines);
      if newLevel > level {
        level := newLevel;
        dropInterval := IntervalFor(level);
      }
    }
  }
}
