/** Board cells, pieces, the placement test and the piece overlay of game/engine.tsx. */
module Grid {

  datatype Option<T> = None | Some(value: T)

  /** A block colour name (BlockColor); it is cosmetic and never inspected. */
  type Color = string

  const BOARD_WIDTH: int := 10
  const BOARD_HEIGHT: int := 24

  /** A board cell: filled or not, with the colour of the block that filled it. */
  datatype Cell = Cell(filled: bool, color: Option<Color>)

  const EMPTY_CELL: Cell := Cell(false, None)

  type Row = seq<Cell>
  type Board = seq<Row>

  /** A rotation-state bitmap; an entry is an occupied sub-cell iff it is non-zero. */
  type Shape = seq<seq<int>>

  /** The ten piece kinds, in the order of the weight table. */
  datatype PieceType =
    | StraightBlock | SquareBlock | ShortTBlock | ZigBlock | ReverseZigBlock
    | ShortLBlock | ReverseShortLBlock | LBlock | ReverseLBlock | CrossBlock

  /** A piece instance: its kind, colour, current bitmap and the board offset of the bitmap's top-left corner. */
  datatype Piece = Piece(kind: PieceType, color: Color, shape: Shape, x: int, y: int)

  /** Every board the game builds has 24 rows of 10 cells. */
  predicate WellFormed(board: Board) {
    |board| == BOARD_HEIGHT && forall row :: 0 <= row < |board| ==> |board[row]| == BOARD_WIDTH
  }

  function EmptyRow(): Row {
    seq(BOARD_WIDTH, _ => EMPTY_CELL)
  }

  /** createEmptyBoard: 24 rows of 10 unfilled cells. */
  function CreateEmptyBoard(): (board: Board)
    ensures WellFormed(board)
    ensures forall row, col :: 0 <= row < BOARD_HEIGHT && 0 <= col < BOARD_WIDTH ==>
      !board[row][col].filled && board[row][col].color == None
  {
    seq(BOARD_HEIGHT, _ => EmptyRow())
  }

  /** Sub-cell (r, c) of the bitmap is occupied. */
  ghost predicate Occupied(shape: Shape, r: int, c: int) {
    0 <= r < |shape| && 0 <= c < |shape[r]| && shape[r][c] != 0
  }

  ghost predicate HasCell(shape: Shape) {
    exists r, c :: Occupied(shape, r, c)
  }

  /** Board position (col, row) cannot take a block: outside the side walls, below the floor,
      or a filled cell on the board. Rows above the top are never read. */
  predicate Blocked(board: Board, col: int, row: int)
    requires WellFormed(board)
  {
    col < 0 || col >= BOARD_WIDTH || row >= BOARD_HEIGHT || (row >= 0 && board[row][col].filled)
  }

  /** checkCollision as a property: some occupied sub-cell, shifted by (dx, dy), lands on a blocked position. */
  predicate Collides(p: Piece, board: Board, dx: int, dy: int)
    requires WellFormed(board)
  {
    exists r, c | 0 <= r < |p.shape| && 0 <= c < |p.shape[r]| :: CellBlocked(p, board, dx, dy, r, c)
  }

  /** Occupied sub-cell (r, c) of the piece, shifted by (dx, dy), lands on a blocked position. */
  predicate CellBlocked(p: Piece, board: Board, dx: int, dy: int, r: int, c: int)
    requires WellFormed(board)
  {
    0 <= r < |p.shape| && 0 <= c < |p.shape[r]| && p.shape[r][c] != 0 && Blocked(board, p.x + c + dx, p.y + r + dy)
  }

  /** Testing a piece at an offset is testing the shifted piece in place. */
  lemma CollidesShifted(p: Piece, board: Board, dx: int, dy: int)
    requires WellFormed(board)
    ensures Collides(p, board, dx, dy) <==> Collides(p.(x := p.x + dx, y := p.y + dy), board, 0, 0)
  {
    var q := p.(x := p.x + dx, y := p.y + dy);
    if Collides(p, board, dx, dy) {
      var r, c :| 0 <= r < |p.shape| && 0 <= c < |p.shape[r]| && CellBlocked(p, board, dx, dy, r, c);
      assert CellBlocked(q, board, 0, 0, r, c);
    }
    if Collides(q, board, 0, 0) {
      var r, c :| 0 <= r < |q.shape| && 0 <= c < |q.shape[r]| && CellBlocked(q, board, 0, 0, r, c);
      assert CellBlocked(p, board, dx, dy, r, c);
    }
  }

  /** A piece with an occupied sub-cell collides whenever that sub-cell would sit on or below the floor. */
  lemma FloorCollides(p: Piece, board: Board, r: int, c: int, dy: int)
    requires WellFormed(board)
    requires Occupied(p.shape, r, c)
    requires p.y + r + dy >= BOARD_HEIGHT
    ensures Collides(p, board, 0, dy)
  {
    assert CellBlocked(p, board, 0, dy, r, c);
  }

  /** checkCollision: the nested scan over the bitmap with an early exit on the first blocked sub-cell. */
  method CheckCollision(p: Piece, board: Board, dx: int, dy: int) returns (hit: bool)
    requires WellFormed(board)
    ensures hit <==> Collides(p, board, dx, dy)
  {
    var r := 0;
    while r < |p.shape|
      invariant 0 <= r <= |p.shape|
      invariant forall i, j :: 0 <= i < r && 0 <= j < |p.shape[i]| && p.shape[i][j] != 0 ==>
        !Blocked(board, p.x + j + dx, p.y + i + dy)
    {
      var c := 0;
      while c < |p.shape[r]|
        invariant 0 <= c <= |p.shape[r]|
        invariant forall i, j :: 0 <= i < r && 0 <= j < |p.shape[i]| && p.shape[i][j] != 0 ==>
          !Blocked(board, p.x + j + dx, p.y + i + dy)
        invariant forall j :: 0 <= j < c && p.shape[r][j] != 0 ==> !Blocked(board, p.x + j + dx, p.y + r + dy)
      {
        if p.shape[r][c] != 0 {
          var newX := p.x + c + dx;
          var newY := p.y + r + dy;
          if newX < 0 || newX >= BOARD_WIDTH || newY >= BOARD_HEIGHT {
            assert CellBlocked(p, board, dx, dy, r, c);
            return true;
          }
          if newY >= 0 && board[newY][newX].filled {
            assert CellBlocked(p, board, dx, dy, r, c);
            return true;
          }
        }
        c := c + 1;
      }
      r := r + 1;
    }
    return false;
  }

  /** Board position (col, row) lies under an occupied sub-cell of the piece. */
  predicate Covers(p: Piece, row: int, col: int) {
    0 <= row - p.y < |p.shape| && 0 <= col - p.x < |p.shape[row - p.y]| && p.shape[row - p.y][col - p.x] != 0
  }

  /** The board with the piece drawn on it: covered on-board cells become filled in the piece's colour. */
  function Overlay(board: Board, p: Piece): (result: Board)
    requires WellFormed(board)
    ensures WellFormed(result)
  {
    seq(BOARD_HEIGHT, row requires 0 <= row < BOARD_HEIGHT =>
      seq(BOARD_WIDTH, col requires 0 <= col < BOARD_WIDTH =>
        if Covers(p, row, col) then Cell(true, Some(p.color)) else board[row][col]))
  }

  /** What a merge does cell by cell: exactly the covered on-board cells change, to the piece's colour. */
  lemma OverlayCells(board: Board, p: Piece, row: int, col: int)
    requires WellFormed(board)
    requires 0 <= row < BOARD_HEIGHT && 0 <= col < BOARD_WIDTH
    ensures Covers(p, row, col) ==> Overlay(board, p)[row][col] == Cell(true, Some(p.color))
    ensures !Covers(p, row, col) ==> Overlay(board, p)[row][col] == board[row][col]
  {
  }

  /** Merging never empties a cell. */
  lemma OverlayKeepsFilled(board: Board, p: Piece, row: int, col: int)
    requires WellFormed(board)
    requires 0 <= row < BOARD_HEIGHT && 0 <= col < BOARD_WIDTH && board[row][col].filled
    ensures Overlay(board, p)[row][col].filled
  {
  }

  /** After a merge the merged piece is blocked where it stands, as long as one of its sub-cells is on the board. */
  lemma {:induction false} MergedPieceCollides(board: Board, p: Piece, r: int, c: int)
    requires WellFormed(board)
    requires Occupied(p.shape, r, c)
    requires 0 <= p.y + r < BOARD_HEIGHT && 0 <= p.x + c < BOARD_WIDTH
    ensures Collides(p, Overlay(board, p), 0, 0)
  {
    var merged: Board := Overlay(board, p);
    assert Covers(p, p.y + r, p.x + c);
    assert merged[p.y + r][p.x + c].filled;
    assert CellBlocked(p, merged, 0, 0, r, c);
  }

  /** mergePiece: copy the board, then write the piece's on-board sub-cells into the copy row by row. */
  method MergePiece(p: Piece, board: Board) returns (merged: Board)
    requires WellFormed(board)
    ensures merged == Overlay(board, p)
  {
    merged := board;
    var y := 0;
    while y < |p.shape|
      invariant 0 <= y <= |p.shape|
      invariant WellFormed(merged)
      invariant forall row, col :: 0 <= row < BOARD_HEIGHT && 0 <= col < BOARD_WIDTH ==>
        merged[row][col] == if Covers(p, row, col) && row - p.y < y then Cell(true, Some(p.color)) else board[row][col]
    {
      var x := 0;
      while x < |p.shape[y]|
        invariant 0 <= x <= |p.shape[y]|
        invariant WellFormed(merged)
        invariant forall row, col :: 0 <= row < BOARD_HEIGHT && 0 <= col < BOARD_WIDTH ==>
          merged[row][col] ==
            if Covers(p, row, col) && (row - p.y < y || (row - p.y == y && col - p.x < x))
            then Cell(true, Some(p.color)) else board[row][col]
      {
        if p.shape[y][x] != 0 {
          var boardY := p.y + y;
          var boardX := p.x + x;
          if boardY >= 0 && boardY < BOARD_HEIGHT && boardX >= 0 && boardX < BOARD_WIDTH {
            merged := merged[boardY := merged[boardY][boardX := Cell(true, Some(p.color))]];
          }
        }
        x := x + 1;
      }
      y := y + 1;
    }
    SameBoard(merged, Overlay(board, p));
  }

  /** Two well-formed boards that agree on every cell are equal. */
  lemma SameBoard(a: Board, b: Board)
    requires WellFormed(a) && WellFormed(b)
    requires forall row, col :: 0 <= row < BOARD_HEIGHT && 0 <= col < BOARD_WIDTH ==> a[row][col] == b[row][col]
    ensures a == b
  {
    forall row | 0 <= row < BOARD_HEIGHT
      ensures a[row] == b[row]
    {
      assert forall col :: 0 <= col < BOARD_WIDTH ==> a[row][col] == b[row][col];
    }
  }

  /** renderBoardWithPiece: the display grid, a copy of the board with the current piece (if any) drawn on it. */
  method RenderBoardWithPiece(board: Board, piece: Option<Piece>) returns (display: Board)
    requires WellFormed(board)
    ensures piece.None? ==> display == board
    ensures piece.Some? ==> display == Overlay(board, piece.value)
  {
    if piece.Some? {
      display := MergePiece(piece.value, board);
    } else {
      display := board;
    }
  }
}
