/** The game session of game/TetrisGame.tsx: the state held in its hooks and the handlers that update it.
    Each random createPiece call is replaced by a Draw argument; timers, sound and rendering are not modelled. */
module Session {
  import opened Grid
  import opened Catalogue
  import opened Lines
  import opened Moves
  import opened Scoring

  /** The outcome of createPiece's two random choices: an index into the weighted kind list and a colour. */
  datatype Draw = Draw(roll: nat, color: Color)

  /** The column the hold handler puts both pieces at: Math.floor(BOARD_WIDTH / 2) - 1. */
  const HOLD_X: int := BOARD_WIDTH / 2 - 1

  /** A piece moved to the hold position; its bitmap, and so its rotation state, is kept. */
  function Stashed(p: Piece): (q: Piece)
    ensures q.kind == p.kind && q.color == p.color && q.shape == p.shape
    ensures q.x == 4 && q.y == 0
  {
    p.(x := HOLD_X, y := 0)
  }

  /** The session's own combo bonus (a local function shadowing the engine's): ten points per combo step, unclamped. */
  function SessionComboBonus(comboCount: int): (bonus: int)
    ensures comboCount >= 0 ==> bonus >= 0
    ensures 0 <= comboCount <= MAX_COMBO ==> bonus == CalculateComboBonus(comboCount)
  {
    comboCount * 10
  }

  /** Score, cleared-line total and combo counter. */
  datatype Stats = Stats(score: int, lines: int, combo: int)

  /** What a lock does to the statistics when the merged board had linesCleared full rows:
      a clear raises the combo by one up to seven and scores the lines plus the new combo's bonus;
      a lock that clears nothing resets the combo. */
  function AfterLock(s: Stats, level: int, linesCleared: nat): Stats {
    if linesCleared > 0 then
      var newCombo := if s.combo + 1 < MAX_COMBO then s.combo + 1 else MAX_COMBO;
      Stats(s.score + CalculateScore(linesCleared, level) + SessionComboBonus(newCombo), s.lines + linesCleared, newCombo)
    else
      Stats(s.score, s.lines, 0)
  }

  /** The session's lock arithmetic agrees with the engine's updateCombo and calculateComboBonus,
      keeps the combo in range and never lowers the score or the line total. */
  lemma AfterLockAgreesWithEngine(s: Stats, level: int, linesCleared: nat)
    requires 0 <= s.combo <= MAX_COMBO && level >= 0
    ensures AfterLock(s, level, linesCleared).combo == UpdateCombo(s.combo, linesCleared)
    ensures AfterLock(s, level, linesCleared).score ==
      s.score + CalculateScore(linesCleared, level) + (if linesCleared > 0 then CalculateComboBonus(UpdateCombo(s.combo, linesCleared)) else 0)
    ensures AfterLock(s, level, linesCleared).lines == s.lines + linesCleared
    ensures 0 <= AfterLock(s, level, linesCleared).combo <= MAX_COMBO
    ensures AfterLock(s, level, linesCleared).score >= s.score
  {
  }

  /** The first clearing lock at level 1 with combo 0 scores 100 per line plus 10; a second scores plus 20. */
  lemma AfterLockExample()
    ensures AfterLock(Stats(0, 0, 0), 1, 1) == Stats(110, 1, 1)
    ensures AfterLock(Stats(110, 1, 1), 1, 4) == Stats(530, 5, 2)
    ensures AfterLock(Stats(530, 5, 2), 1, 0) == Stats(530, 5, 0)
  {
  }

  /** The game loop's gravity period in milliseconds: 1000 at level 1, 100 less per level. */
  function DropInterval(level: int): (ms: int)
    ensures ms == 1000 <==> level == 1
    ensures 1 <= level <= 10 ==> 100 <= ms <= 1000
  {
    1000 - (level - 1) * 100
  }

  /** The piece slots a spawn or a lock touches. */
  datatype Slots = Slots(current: Option<Piece>, next: Option<Piece>, rotation: nat, canHold: bool, gameOver: bool)

  /** spawnNewPiece's effect: if the next piece collides with the tested board the game is over and the slots stay;
      otherwise the next piece becomes current, a freshly drawn piece becomes next, the rotation resets and hold is re-enabled. */
  function SpawnOutcome(s: Slots, checkBoard: Board, draw: Draw): Slots
    requires WellFormed(checkBoard) && s.next.Some? && draw.roll < TOTAL_WEIGHT
  {
    if Collides(s.next.value, checkBoard, 0, 0) then s.(gameOver := true)
    else s.(current := s.next, next := Some(Created(draw.roll, draw.color)), rotation := 0, canHold := true)
  }

  /** A spawn either ends the game or places a piece that is free on the tested board; it never ends a game
      whose next piece fits, and it never changes the pieces when it ends the game. */
  lemma SpawnOutcomeRules(s: Slots, checkBoard: Board, draw: Draw)
    requires WellFormed(checkBoard) && s.next.Some? && draw.roll < TOTAL_WEIGHT
    ensures var t := SpawnOutcome(s, checkBoard, draw);
      && (t.gameOver <==> s.gameOver || Collides(s.next.value, checkBoard, 0, 0))
      && (!t.gameOver ==> t.current == s.next && !Collides(t.current.value, checkBoard, 0, 0) && t.rotation == 0 && t.canHold)
      && (Collides(s.next.value, checkBoard, 0, 0) ==> t.current == s.current && t.next == s.next)
      && t.next.Some? && t.current.Some? == (s.current.Some? || !Collides(s.next.value, checkBoard, 0, 0))
  {
  }

  /** The spawn test runs against the board as it was before the lock: a square block locked at the spawn
      position of an empty board is not seen, so the next square block spawns on top of it without ending the game. */
  lemma StaleSpawnCheck(color: Color, draw: Draw)
    requires draw.roll < TOTAL_WEIGHT
    ensures var locked := Spawn(SquareBlock, color);
      var before := CreateEmptyBoard();
      var after := Cleared(Overlay(before, locked));
      var t := SpawnOutcome(Slots(Some(locked), Some(locked), 0, false, false), before, draw);
      && !t.gameOver && t.current == Some(locked)
      && WellFormed(after) && Collides(locked, after, 0, 0)
  {
    var locked := Spawn(SquareBlock, color);
    var before := CreateEmptyBoard();
    var merged := Overlay(before, locked);
    SpawnFitsEmptyBoard(SquareBlock, color);
    forall i | 0 <= i < |merged|
      ensures !IsFull(merged[i])
    {
      assert !Covers(locked, i, 0);
      assert !merged[i][0].filled;
    }
    ClearNothing(merged);
    assert Occupied(locked.shape, 0, 0);
    MergedPieceCollides(before, locked, 0, 0);
  }

  /** Holding resets the rotation index to 0 but keeps the bitmap, so the next rotation of a swapped-in piece
      always goes to rotation state 1, whichever state the piece was held in. */
  lemma HoldThenRotate(p: Piece, board: Board)
    requires WellFormed(board)
    ensures Rotated(Stashed(p), 0).shape == Shapes(p.kind)[1 % |Shapes(p.kind)|]
    ensures Rotate(Stashed(p), 0, board).Some? ==> Rotate(Stashed(p), 0, board).value.rotation == 1 % |Shapes(p.kind)|
  {
  }

  /** A present piece has an occupied sub-cell, so it can be hard-dropped. */
  ghost predicate SlotOk(slot: Option<Piece>) {
    slot.Some? ==> HasCell(slot.value.shape)
  }

  /** The TetrisGame component's game state. */
  class TetrisGame {
    var score: int
    var level: int
    var lines: int
    var combo: int
    var gameOver: bool
    var isPaused: bool
    var gameStarted: bool
    var board: Board
    var currentPiece: Option<Piece>
    var nextPiece: Option<Piece>
    var heldPiece: Option<Piece>
    var canHold: bool
    var rotation: nat

    /** The state every handler keeps: a 24 x 10 board, level 1 (nothing changes it), a combo within 0..7,
        non-negative score and line total, a next piece whenever there is a current one, and pieces with an occupied sub-cell. */
    ghost predicate Valid()
      reads this
    {
      && WellFormed(board)
      && level == 1
      && 0 <= combo <= MAX_COMBO
      && 0 <= score && 0 <= lines
      && (currentPiece.Some? ==> nextPiece.Some?)
      && SlotOk(currentPiece) && SlotOk(nextPiece) && SlotOk(heldPiece)
    }

    function CurrentStats(): Stats
      reads this
    {
      Stats(score, lines, combo)
    }

    function CurrentSlots(): Slots
      reads this
    {
      Slots(currentPiece, nextPiece, rotation, canHold, gameOver)
    }

    /** A handler may act: there is a current piece and the game is neither paused nor over. */
    predicate CanAct()
      reads this
    {
      currentPiece.Some? && !isPaused && !gameOver
    }

    /** The fields a lock leaves alone. */
    twostate predicate KeepsSettings()
      reads this
    {
      level == old(level) && heldPiece == old(heldPiece) && isPaused == old(isPaused) && gameStarted == old(gameStarted)
    }

    /** The initial hook values. */
    constructor ()
      ensures Valid()
      ensures score == 0 && level == 1 && lines == 0 && combo == 0
      ensures !gameOver && !isPaused && !gameStarted
      ensures board == CreateEmptyBoard()
      ensures currentPiece == None && nextPiece == None && heldPiece == None
      ensures canHold && rotation == 0
    {
      score := 0;
      level := 1;
      lines := 0;
      combo := 0;
      gameOver := false;
      isPaused := false;
      gameStarted := false;
      board := CreateEmptyBoard();
      currentPiece := None;
      nextPiece := None;
      heldPiece := None;
      canHold := true;
      rotation := 0;
    }

    /** startGame: an empty board, zeroed statistics at level 1, an empty hold slot and two draw pieces. */
    method StartGame(first: Draw, second: Draw)
      requires first.roll < TOTAL_WEIGHT && second.roll < TOTAL_WEIGHT
      modifies this
      ensures Valid()
      ensures board == CreateEmptyBoard() && score == 0 && lines == 0 && level == 1 && combo == 0
      ensures !gameOver && !isPaused && gameStarted
      ensures heldPiece == None && canHold && rotation == 0
      ensures currentPiece == Some(Created(first.roll, first.color)) && nextPiece == Some(Created(second.roll, second.color))
    {
      board := CreateEmptyBoard();
      score := 0;
      lines := 0;
      level := 1;
      combo := 0;
      gameOver := false;
      isPaused := false;
      gameStarted := true;
      heldPiece := None;
      canHold := true;
      var firstPiece := CreatePiece(first.roll, first.color);
      var secondPiece := CreatePiece(second.roll, second.color);
      currentPiece := Some(firstPiece);
      nextPiece := Some(secondPiece);
      rotation := 0;
    }

    /** spawnNewPiece, with the board it tests against passed in: callers pass the board as it was
        before their own setBoard took effect. */
    method SpawnNewPiece(checkBoard: Board, draw: Draw)
      requires Valid() && WellFormed(checkBoard) && nextPiece.Some? && draw.roll < TOTAL_WEIGHT
      modifies this
      ensures Valid()
      ensures CurrentSlots() == SpawnOutcome(old(CurrentSlots()), checkBoard, draw)
      ensures board == old(board) && CurrentStats() == old(CurrentStats()) && KeepsSettings()
    {
      var piece := nextPiece.value;
      var hit := CheckCollision(piece, checkBoard, 0, 0);
      if hit {
        gameOver := true;
        return;
      }
      currentPiece := Some(piece);
      var nextOne := CreatePiece(draw.roll, draw.color);
      nextPiece := Some(nextOne);
      rotation := 0;
      canHold := true;
    }

    /** The lock shared by moveDown and the hard-drop callback: merge the piece into the board as it was,
        clear lines, update the statistics, then spawn, testing the next piece against the pre-merge board. */
    method LockPiece(piece: Piece, draw: Draw)
      requires Valid() && nextPiece.Some? && draw.roll < TOTAL_WEIGHT
      modifies this
      ensures Valid()
      ensures board == Cleared(Overlay(old(board), piece))
      ensures CurrentStats() == AfterLock(old(CurrentStats()), old(level), FullCount(Overlay(old(board), piece)))
      ensures CurrentSlots() == SpawnOutcome(old(CurrentSlots()), old(board), draw)
      ensures KeepsSettings()
    {
      var staleBoard := board;
      var mergedBoard := MergePiece(piece, board);
      var newBoard, linesCleared := ClearLines(mergedBoard);
      ClearedShape(mergedBoard);
      board := newBoard;
      ScoreClear(linesCleared);
      SpawnNewPiece(staleBoard, draw);
    }

    /** The statistics step of a lock: a clear raises the combo and adds the lines and the score,
        a lock without a clear resets the combo. */
    method ScoreClear(linesCleared: nat)
      requires Valid()
      modifies this
      ensures Valid()
      ensures CurrentStats() == AfterLock(old(CurrentStats()), old(level), linesCleared)
      ensures board == old(board) && CurrentSlots() == old(CurrentSlots()) && KeepsSettings()
    {
      AfterLockAgreesWithEngine(CurrentStats(), level, linesCleared);
      if linesCleared > 0 {
        var newCombo := if combo + 1 < MAX_COMBO then combo + 1 else MAX_COMBO;
        combo := newCombo;
        var baseScore := CalculateScore(linesCleared, level);
        var comboBonus := SessionComboBonus(newCombo);
        lines := lines + linesCleared;
        score := score + (baseScore + comboBonus);
      } else {
        combo := 0;
      }
    }

    /** moveDown: one row down if that is free, otherwise lock the piece where it is. */
    method MoveDown(draw: Draw)
      requires Valid() && draw.roll < TOTAL_WEIGHT
      modifies this
      ensures Valid()
      ensures !old(CanAct()) ==> unchanged(this)
      ensures old(CanAct()) && Move(old(currentPiece).value, old(board), Down).Some? ==>
        && currentPiece == Move(old(currentPiece).value, old(board), Down)
        && board == old(board) && CurrentStats() == old(CurrentStats())
        && CurrentSlots() == old(CurrentSlots()).(current := currentPiece) && KeepsSettings()
      ensures old(CanAct()) && Move(old(currentPiece).value, old(board), Down).None? ==>
        var piece := old(currentPiece).value;
        && board == Cleared(Overlay(old(board), piece))
        && CurrentStats() == AfterLock(old(CurrentStats()), old(level), FullCount(Overlay(old(board), piece)))
        && CurrentSlots() == SpawnOutcome(old(CurrentSlots()), old(board), draw)
        && KeepsSettings()
    {
      if currentPiece.None? || isPaused || gameOver {
        return;
      }
      var movedPiece := Move(currentPiece.value, board, Down);
      if movedPiece.Some? {
        currentPiece := movedPiece;
      } else {
        LockPiece(currentPiece.value, draw);
      }
    }

    /** handleMoveDown: the soft-drop button runs moveDown under the same guard. */
    method HandleMoveDown(draw: Draw)
      requires Valid() && draw.roll < TOTAL_WEIGHT
      modifies this
      ensures Valid()
      ensures !old(CanAct()) ==> unchanged(this)
      ensures old(CanAct()) && Move(old(currentPiece).value, old(board), Down).Some? ==>
        && currentPiece == Move(old(currentPiece).value, old(board), Down)
        && board == old(board) && CurrentStats() == old(CurrentStats())
        && CurrentSlots() == old(CurrentSlots()).(current := currentPiece) && KeepsSettings()
      ensures old(CanAct()) && Move(old(currentPiece).value, old(board), Down).None? ==>
        var piece := old(currentPiece).value;
        && board == Cleared(Overlay(old(board), piece))
        && CurrentStats() == AfterLock(old(CurrentStats()), old(level), FullCount(Overlay(old(board), piece)))
        && CurrentSlots() == SpawnOutcome(old(CurrentSlots()), old(board), draw)
        && KeepsSettings()
    {
      if currentPiece.None? || isPaused || gameOver {
        return;
      }
      MoveDown(draw);
    }

    /** handleMoveLeft: one column left if that is free; nothing changes otherwise. */
    method HandleMoveLeft()
      requires Valid()
      modifies this
      ensures Valid()
      ensures !old(CanAct()) || Move(old(currentPiece).value, old(board), Left).None? ==> unchanged(this)
      ensures old(CanAct()) && Move(old(currentPiece).value, old(board), Left).Some? ==>
        && currentPiece == Some(old(currentPiece).value.(x := old(currentPiece).value.x - 1))
        && !Collides(currentPiece.value, board, 0, 0)
        && board == old(board) && CurrentStats() == old(CurrentStats())
        && CurrentSlots() == old(CurrentSlots()).(current := currentPiece) && KeepsSettings()
    {
      if currentPiece.None? || isPaused || gameOver {
        return;
      }
      var movedPiece := Move(currentPiece.value, board, Left);
      if movedPiece.Some? {
        currentPiece := movedPiece;
      }
    }

    /** handleMoveRight: one column right if that is free; nothing changes otherwise. */
    method HandleMoveRight()
      requires Valid()
      modifies this
      ensures Valid()
      ensures !old(CanAct()) || Move(old(currentPiece).value, old(board), Right).None? ==> unchanged(this)
      ensures old(CanAct()) && Move(old(currentPiece).value, old(board), Right).Some? ==>
        && currentPiece == Some(old(currentPiece).value.(x := old(currentPiece).value.x + 1))
        && !Collides(currentPiece.value, board, 0, 0)
        && board == old(board) && CurrentStats() == old(CurrentStats())
        && CurrentSlots() == old(CurrentSlots()).(current := currentPiece) && KeepsSettings()
    {
      if currentPiece.None? || isPaused || gameOver {
        return;
      }
      var movedPiece := Move(currentPiece.value, board, Right);
      if movedPiece.Some? {
        currentPiece := movedPiece;
      }
    }

    /** handleRotate: rotate with kicks; on success the piece and the rotation index change together,
        the piece's bitmap is the state the index names, and it is free on the board. */
    method HandleRotate()
      requires Valid()
      modifies this
      ensures Valid()
      ensures !old(CanAct()) || Rotate(old(currentPiece).value, old(rotation), old(board)).None? ==> unchanged(this)
      ensures old(CanAct()) && Rotate(old(currentPiece).value, old(rotation), old(board)).Some? ==>
        var r := Rotate(old(currentPiece).value, old(rotation), old(board)).value;
        && currentPiece == Some(r.piece) && rotation == r.rotation
        && currentPiece.value.shape == Shapes(currentPiece.value.kind)[rotation]
        && !Collides(currentPiece.value, board, 0, 0)
        && board == old(board) && CurrentStats() == old(CurrentStats())
        && nextPiece == old(nextPiece) && canHold == old(canHold) && gameOver == old(gameOver) && KeepsSettings()
    {
      if currentPiece.None? || isPaused || gameOver {
        return;
      }
      var result := RotatePiece(currentPiece.value, rotation, board);
      if result.Some? {
        RotateFirstFit(currentPiece.value, rotation, board);
        RotateState(currentPiece.value, rotation, board);
        var r := result.value;
        assert 0 <= r.rotation < |Shapes(r.piece.kind)| && Shapes(r.piece.kind)[r.rotation] == r.piece.shape;
        CataloguePieceHasCell(r.piece);
        currentPiece := Some(r.piece);
        rotation := r.rotation;
      }
    }

    /** handleHardDrop: the current piece is set to its landed position, then the deferred callback locks it
        into the board as it was when the handler ran. */
    method HandleHardDrop(draw: Draw)
      requires Valid() && draw.roll < TOTAL_WEIGHT
      modifies this
      ensures Valid()
      ensures !old(CanAct()) ==> unchanged(this)
      ensures old(CanAct()) ==>
        var dropped := HardDropped(old(currentPiece).value, old(board));
        && board == Cleared(Overlay(old(board), dropped))
        && CurrentStats() == AfterLock(old(CurrentStats()), old(level), FullCount(Overlay(old(board), dropped)))
        && CurrentSlots() == SpawnOutcome(old(CurrentSlots()).(current := Some(dropped)), old(board), draw)
        && KeepsSettings()
    {
      if currentPiece.None? || isPaused || gameOver {
        return;
      }
      var droppedPiece := HardDrop(currentPiece.value, board);
      HardDropLands(currentPiece.value, board);
      currentPiece := Some(droppedPiece);
      LockPiece(droppedPiece, draw);
    }

    /** handleHold: once per spawn, stash the current piece at the hold position. With a piece already held the two
        swap, both placed at the hold position; otherwise the next piece comes in and a draw one becomes next.
        The rotation index goes back to 0 while the pieces keep the bitmaps they had. */
    method HandleHold(draw: Draw)
      requires Valid() && draw.roll < TOTAL_WEIGHT
      modifies this
      ensures Valid()
      ensures !(old(CanAct()) && old(canHold)) ==> unchanged(this)
      ensures old(CanAct()) && old(canHold) ==> heldPiece == Some(Stashed(old(currentPiece).value)) && rotation == 0 && !canHold
      ensures old(CanAct()) && old(canHold) && old(heldPiece).Some? ==>
        currentPiece == Some(Stashed(old(heldPiece).value)) && nextPiece == old(nextPiece)
      ensures old(CanAct()) && old(canHold) && old(heldPiece).None? ==>
        currentPiece == old(nextPiece) && nextPiece == Some(Created(draw.roll, draw.color))
      ensures board == old(board) && CurrentStats() == old(CurrentStats()) && gameOver == old(gameOver)
      ensures level == old(level) && isPaused == old(isPaused) && gameStarted == old(gameStarted)
    {
      if currentPiece.None? || !canHold || isPaused || gameOver {
        return;
      }
      var stashed := Stashed(currentPiece.value);
      if heldPiece.Some? {
        var swapped := Stashed(heldPiece.value);
        heldPiece := Some(stashed);
        currentPiece := Some(swapped);
        rotation := 0;
        canHold := false;
      } else {
        heldPiece := Some(stashed);
        var piece := nextPiece.value;
        currentPiece := Some(piece);
        var nextOne := CreatePiece(draw.roll, draw.color);
        nextPiece := Some(nextOne);
        rotation := 0;
        canHold := false;
      }
    }

    /** handlePauseToggle: flips the pause flag and nothing else. */
    method HandlePauseToggle()
      requires Valid()
      modifies this
      ensures Valid()
      ensures isPaused == !old(isPaused)
      ensures board == old(board) && CurrentStats() == old(CurrentStats()) && CurrentSlots() == old(CurrentSlots())
      ensures level == old(level) && heldPiece == old(heldPiece) && gameStarted == old(gameStarted)
    {
      isPaused := !isPaused;
    }
  }
}
