/** Line clearing (clearLines of game/engine.tsx) and the cell counts it conserves. */
module Lines {
  import opened Grid

  /** A row is full when every cell in it is filled. */
  predicate IsFull(row: Row) {
    forall c :: 0 <= c < |row| ==> row[c].filled
  }

  /** The rows that survive a clear: the non-full rows, in their original order. */
  function Kept(board: Board): Board {
    if board == [] then []
    else Kept(board[..|board| - 1]) + (if IsFull(board[|board| - 1]) then [] else [board[|board| - 1]])
  }

  /** The number of full rows. */
  function FullCount(board: Board): nat {
    if board == [] then 0
    else FullCount(board[..|board| - 1]) + (if IsFull(board[|board| - 1]) then 1 else 0)
  }

  function EmptyRows(n: nat): Board {
    seq(n, _ => EmptyRow())
  }

  /** The board after a clear: the kept rows, padded on top with empty rows up to the board height. */
  function Cleared(board: Board): Board {
    EmptyRows(if |Kept(board)| < BOARD_HEIGHT then BOARD_HEIGHT - |Kept(board)| else 0) + Kept(board)
  }

  /** clearLines: filter out the full rows while counting them, then unshift empty rows until the height is restored. */
  method ClearLines(board: Board) returns (newBoard: Board, linesCleared: nat)
    ensures linesCleared == FullCount(board)
    ensures newBoard == Cleared(board)
  {
    linesCleared := 0;
    newBoard := [];
    for i := 0 to |board|
      invariant linesCleared == FullCount(board[..i])
      invariant newBoard == Kept(board[..i])
    {
      assert board[..i + 1][..i] == board[..i];
      if IsFull(board[i]) {
        linesCleared := linesCleared + 1;
      } else {
        newBoard := newBoard + [board[i]];
      }
    }
    assert board[..|board|] == board;
    ghost var kept := newBoard;
    while |newBoard| < BOARD_HEIGHT
      invariant |kept| <= |newBoard|
      invariant |newBoard| <= if |kept| < BOARD_HEIGHT then BOARD_HEIGHT else |kept|
      invariant newBoard == EmptyRows(|newBoard| - |kept|) + kept
      decreases BOARD_HEIGHT - |newBoard|
    {
      PadStep(|newBoard| - |kept|, kept);
      newBoard := [EmptyRow()] + newBoard;
    }
    assert kept == Kept(board);
    assert |newBoard| - |kept| == if |kept| < BOARD_HEIGHT then BOARD_HEIGHT - |kept| else 0;
  }

  lemma PadStep(n: nat, kept: Board)
    ensures [EmptyRow()] + (EmptyRows(n) + kept) == EmptyRows(n + 1) + kept
  {
    assert [EmptyRow()] + EmptyRows(n) == EmptyRows(n + 1);
  }

  /** The number of filled cells in a row. */
  function RowFilled(row: Row): nat {
    if row == [] then 0 else RowFilled(row[..|row| - 1]) + (if row[|row| - 1].filled then 1 else 0)
  }

  /** The number of filled cells on a board. */
  function FilledCount(board: Board): nat {
    if board == [] then 0 else FilledCount(board[..|board| - 1]) + RowFilled(board[|board| - 1])
  }

  /** Every row has BOARD_WIDTH cells. */
  ghost predicate RowsOfWidth(board: Board) {
    forall i :: 0 <= i < |board| ==> |board[i]| == BOARD_WIDTH
  }

  lemma {:induction false} FullRowFilled(row: Row)
    requires IsFull(row)
    ensures RowFilled(row) == |row|
  {
    if row != [] {
      FullRowFilled(row[..|row| - 1]);
    }
  }

  lemma {:induction false} EmptyRowFilled(n: nat)
    requires n <= BOARD_WIDTH
    ensures RowFilled(EmptyRow()[..n]) == 0
  {
    if n > 0 {
      assert EmptyRow()[..n][..n - 1] == EmptyRow()[..n - 1];
      EmptyRowFilled(n - 1);
    }
  }

  lemma {:induction false} EmptyRowsFilled(n: nat)
    ensures FilledCount(EmptyRows(n)) == 0
  {
    if n > 0 {
      assert EmptyRows(n)[..n - 1] == EmptyRows(n - 1);
      EmptyRowsFilled(n - 1);
      EmptyRowFilled(BOARD_WIDTH);
      assert EmptyRow()[..BOARD_WIDTH] == EmptyRow();
    }
  }

  lemma {:induction false} FilledCountAppend(a: Board, b: Board)
    ensures FilledCount(a + b) == FilledCount(a) + FilledCount(b)
  {
    if b == [] {
      assert a + b == a;
    } else {
      assert (a + b)[..|a + b| - 1] == a + b[..|b| - 1];
      assert (a + b)[|a + b| - 1] == b[|b| - 1];
      FilledCountAppend(a, b[..|b| - 1]);
    }
  }

  /** Every full row of a board of 10-wide rows holds 10 filled cells, and the kept rows hold the rest. */
  lemma {:induction false} KeptFilled(board: Board)
    requires RowsOfWidth(board)
    ensures FilledCount(board) == FilledCount(Kept(board)) + BOARD_WIDTH * FullCount(board)
  {
    if board != [] {
      var init, last := board[..|board| - 1], board[|board| - 1];
      KeptFilled(init);
      if IsFull(last) {
        FullRowFilled(last);
        assert FilledCount(board) == FilledCount(init) + BOARD_WIDTH;
        assert FullCount(board) == FullCount(init) + 1;
        assert Kept(board) == Kept(init);
        assert BOARD_WIDTH * FullCount(board) == BOARD_WIDTH * FullCount(init) + BOARD_WIDTH;
      } else {
        FilledCountAppend(Kept(init), [last]);
        assert [last][..0] == [];
      }
    }
  }

  /** Line-clear conservation: the filled-cell count drops by exactly ten per cleared line. */
  lemma ClearedFilledCount(board: Board)
    requires RowsOfWidth(board)
    ensures FilledCount(Cleared(board)) == FilledCount(board) - BOARD_WIDTH * FullCount(board)
  {
    var kept := Kept(board);
    FilledCountAppend(EmptyRows(if |kept| < BOARD_HEIGHT then BOARD_HEIGHT - |kept| else 0), kept);
    EmptyRowsFilled(if |kept| < BOARD_HEIGHT then BOARD_HEIGHT - |kept| else 0);
    KeptFilled(board);
  }

  /** Kept rows and full rows together account for every row. */
  lemma {:induction false} KeptCount(board: Board)
    ensures |Kept(board)| + FullCount(board) == |board|
  {
    if board != [] {
      KeptCount(board[..|board| - 1]);
    }
  }

  /** Each kept row is a non-full row of the input, and every non-full input row is kept. */
  lemma {:induction false} KeptRows(board: Board)
    ensures forall row :: row in Kept(board) <==> row in board && !IsFull(row)
  {
    if board != [] {
      var init := board[..|board| - 1];
      KeptRows(init);
      assert board == init + [board[|board| - 1]];
    }
  }

  lemma {:induction false} KeptRowWidths(board: Board)
    requires RowsOfWidth(board)
    ensures RowsOfWidth(Kept(board))
  {
    KeptRows(board);
    forall i | 0 <= i < |Kept(board)|
      ensures |Kept(board)[i]| == BOARD_WIDTH
    {
      assert Kept(board)[i] in Kept(board);
    }
  }

  /** For a 24-row board: the result has 24 rows of 10 cells, FullCount empty rows on top, then the kept rows. */
  lemma ClearedShape(board: Board)
    requires WellFormed(board)
    ensures |Kept(board)| + FullCount(board) == BOARD_HEIGHT
    ensures WellFormed(Cleared(board))
    ensures Cleared(board)[..FullCount(board)] == EmptyRows(FullCount(board))
    ensures Cleared(board)[FullCount(board)..] == Kept(board)
  {
    KeptCount(board);
    KeptRowWidths(board);
  }

  lemma {:induction false} KeptAppend(a: Board, b: Board)
    ensures Kept(a + b) == Kept(a) + Kept(b)
    ensures FullCount(a + b) == FullCount(a) + FullCount(b)
  {
    if b == [] {
      assert a + b == a;
    } else {
      assert (a + b)[..|a + b| - 1] == a + b[..|b| - 1];
      assert (a + b)[|a + b| - 1] == b[|b| - 1];
      KeptAppend(a, b[..|b| - 1]);
    }
  }

  lemma {:induction false} KeptEmptyRows(n: nat)
    ensures Kept(EmptyRows(n)) == EmptyRows(n) && FullCount(EmptyRows(n)) == 0
  {
    if n > 0 {
      assert EmptyRows(n)[..n - 1] == EmptyRows(n - 1);
      KeptEmptyRows(n - 1);
      assert !EmptyRow()[0].filled;
      assert EmptyRows(n - 1) + [EmptyRow()] == EmptyRows(n);
    }
  }

  lemma {:induction false} KeptKept(board: Board)
    ensures Kept(Kept(board)) == Kept(board) && FullCount(Kept(board)) == 0
  {
    if board != [] {
      var init, last := board[..|board| - 1], board[|board| - 1];
      KeptKept(init);
      KeptAppend(Kept(init), if IsFull(last) then [] else [last]);
      assert [last][..0] == [];
    }
  }

  /** A cleared board has no full row left, so clearing it again changes nothing. */
  lemma ClearedIdempotent(board: Board)
    requires WellFormed(board)
    ensures FullCount(Cleared(board)) == 0
    ensures Cleared(Cleared(board)) == Cleared(board)
  {
    var kept := Kept(board);
    var pad := if |kept| < BOARD_HEIGHT then BOARD_HEIGHT - |kept| else 0;
    KeptAppend(EmptyRows(pad), kept);
    KeptEmptyRows(pad);
    KeptKept(board);
    KeptCount(board);
  }

  /** A board without a full row is kept whole. */
  lemma {:induction false} NoFullRows(board: Board)
    requires forall i :: 0 <= i < |board| ==> !IsFull(board[i])
    ensures FullCount(board) == 0 && Kept(board) == board
  {
    if board != [] {
      NoFullRows(board[..|board| - 1]);
      assert board == board[..|board| - 1] + [board[|board| - 1]];
    }
  }

  /** Clearing a well-formed board without a full row leaves it as it is. */
  lemma ClearNothing(board: Board)
    requires WellFormed(board)
    requires forall i :: 0 <= i < |board| ==> !IsFull(board[i])
    ensures Cleared(board) == board
  {
    NoFullRows(board);
  }
}
