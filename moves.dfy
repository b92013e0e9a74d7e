/** The piece transitions of game/engine.tsx: movePiece, rotatePiece with its kick order, and hardDrop. */
module Moves {
  import opened Grid
  import opened Catalogue

  datatype Direction = Left | Right | Down

  /** The offsets table of movePiece. */
  function OffsetX(direction: Direction): int {
    match direction
    case Left => -1
    case Right => 1
    case Down => 0
  }

  function OffsetY(direction: Direction): int {
    match direction
    case Left => 0
    case Right => 0
    case Down => 1
  }

  /** movePiece: the piece shifted one step, or None when that step collides.
      An accepted move never produces a colliding piece. */
  function Move(p: Piece, board: Board, direction: Direction): (moved: Option<Piece>)
    requires WellFormed(board)
    ensures moved.Some? <==> !Collides(p, board, OffsetX(direction), OffsetY(direction))
    ensures moved.Some? ==>
      && moved.value == p.(x := p.x + OffsetX(direction), y := p.y + OffsetY(direction))
      && !Collides(moved.value, board, 0, 0)
  {
    CollidesShifted(p, board, OffsetX(direction), OffsetY(direction));
    if !Collides(p, board, OffsetX(direction), OffsetY(direction)) then
      Some(p.(x := p.x + OffsetX(direction), y := p.y + OffsetY(direction)))
    else
      None
  }

  /** The successful result of rotatePiece: the placed piece and its new rotation index. */
  datatype Rotation = Rotation(piece: Piece, rotation: nat)

  /** The candidate offsets of rotatePiece, in the order they are tried:
      in place, the wall kicks +1, -1, +2, -2, then the floor kicks one and two rows up. */
  const KICKS: seq<(int, int)> := [(0, 0), (1, 0), (-1, 0), (2, 0), (-2, 0), (0, -1), (0, -2)]

  /** The first offset in the list at which the piece does not collide. */
  function FirstFree(q: Piece, board: Board, kicks: seq<(int, int)>): Option<(int, int)>
    requires WellFormed(board)
  {
    if kicks == [] then None
    else if !Collides(q, board, kicks[0].0, kicks[0].1) then Some(kicks[0])
    else FirstFree(q, board, kicks[1..])
  }

  /** The next rotation index, wrapping around the kind's rotation states. */
  function NextRotation(kind: PieceType, rotation: nat): nat {
    (rotation + 1) % |Shapes(kind)|
  }

  /** The piece with the bitmap of the next rotation state, still at its old position. */
  function Rotated(p: Piece, rotation: nat): Piece {
    p.(shape := Shapes(p.kind)[NextRotation(p.kind, rotation)])
  }

  /** rotatePiece: the rotated piece at the first collision-free kick offset, or None. */
  function Rotate(p: Piece, rotation: nat, board: Board): Option<Rotation>
    requires WellFormed(board)
  {
    var rotated := Rotated(p, rotation);
    match FirstFree(rotated, board, KICKS)
    case None => None
    case Some(kick) =>
      Some(Rotation(rotated.(x := rotated.x + kick.0, y := rotated.y + kick.1), NextRotation(p.kind, rotation)))
  }

  /** FirstFree finds the earliest free offset, and finds none exactly when every offset collides. */
  lemma {:induction false} FirstFreeIsFirst(q: Piece, board: Board, kicks: seq<(int, int)>)
    requires WellFormed(board)
    ensures FirstFree(q, board, kicks).None? <==> forall k :: 0 <= k < |kicks| ==> Collides(q, board, kicks[k].0, kicks[k].1)
    ensures FirstFree(q, board, kicks).Some? ==>
      (exists k :: 0 <= k < |kicks| && FirstEarliest(q, board, kicks, k) && FirstFree(q, board, kicks).value == kicks[k])
  {
    if kicks != [] {
      FirstFreeIsFirst(q, board, kicks[1..]);
      if Collides(q, board, kicks[0].0, kicks[0].1) {
        if FirstFree(q, board, kicks[1..]).Some? {
          var k :| 0 <= k < |kicks[1..]| && FirstEarliest(q, board, kicks[1..], k) &&
            FirstFree(q, board, kicks[1..]).value == kicks[1..][k];
          assert FirstEarliest(q, board, kicks, k + 1);
        }
        assert forall k :: 1 <= k < |kicks| ==> kicks[k] == kicks[1..][k - 1];
      } else {
        assert FirstEarliest(q, board, kicks, 0);
      }
    }
  }

  /** Offset k of the list is free and every earlier offset collides. */
  ghost predicate FirstEarliest(q: Piece, board: Board, kicks: seq<(int, int)>, k: int)
    requires WellFormed(board)
    requires 0 <= k < |kicks|
  {
    !Collides(q, board, kicks[k].0, kicks[k].1) &&
    forall j :: 0 <= j < k ==> Collides(q, board, kicks[j].0, kicks[j].1)
  }

  /** The piece placed at the first free kick offset, or None when every offset collides. */
  function KickPlaced(q: Piece, board: Board): Option<Piece>
    requires WellFormed(board)
  {
    match FirstFree(q, board, KICKS)
    case None => None
    case Some(kick) => Some(q.(x := q.x + kick.0, y := q.y + kick.1))
  }

  /** The kick search fails exactly when every candidate collides; where it succeeds, the placed piece
      does not collide and sits at the first free candidate offset. */
  lemma KickPlacedFirstFit(q: Piece, board: Board)
    requires WellFormed(board)
    ensures KickPlaced(q, board).None? <==> forall k :: 0 <= k < |KICKS| ==> Collides(q, board, KICKS[k].0, KICKS[k].1)
    ensures KickPlaced(q, board).Some? ==>
      var placed := KickPlaced(q, board).value;
      && !Collides(placed, board, 0, 0)
      && (exists k :: 0 <= k < |KICKS| && FirstEarliest(q, board, KICKS, k) &&
            placed == q.(x := q.x + KICKS[k].0, y := q.y + KICKS[k].1))
  {
    FirstFreeIsFirst(q, board, KICKS);
    if FirstFree(q, board, KICKS).Some? {
      var kick := FirstFree(q, board, KICKS).value;
      CollidesShifted(q, board, kick.0, kick.1);
    }
  }

  /** Where rotation lands: it fails exactly when all seven candidate placements of the rotated bitmap collide;
      otherwise the piece does not collide and sits at the first free candidate offset from its old position. */
  lemma RotateFirstFit(p: Piece, rotation: nat, board: Board)
    requires WellFormed(board)
    ensures Rotate(p, rotation, board).None? <==>
      forall k :: 0 <= k < |KICKS| ==> Collides(Rotated(p, rotation), board, KICKS[k].0, KICKS[k].1)
    ensures Rotate(p, rotation, board).Some? ==>
      var r := Rotate(p, rotation, board).value;
      && !Collides(r.piece, board, 0, 0)
      && (exists k :: 0 <= k < |KICKS| && FirstEarliest(Rotated(p, rotation), board, KICKS, k) &&
            r.piece.x == p.x + KICKS[k].0 && r.piece.y == p.y + KICKS[k].1)
  {
    var rotated := Rotated(p, rotation);
    KickPlacedFirstFit(rotated, board);
    assert Rotate(p, rotation, board).None? <==> KickPlaced(rotated, board).None?;
    if Rotate(p, rotation, board).Some? {
      assert Rotate(p, rotation, board).value.piece == KickPlaced(rotated, board).value;
    }
  }

  /** What rotation does to the state: the index advances by one modulo the number of rotation states,
      the bitmap is that state's, and kind and colour are kept. */
  lemma RotateState(p: Piece, rotation: nat, board: Board)
    requires WellFormed(board)
    ensures Rotate(p, rotation, board).Some? ==>
      var r := Rotate(p, rotation, board).value;
      && r.rotation == (rotation + 1) % |Shapes(p.kind)|
      && r.piece.shape == Shapes(p.kind)[r.rotation]
      && r.piece.kind == p.kind && r.piece.color == p.color
  {
  }

  /** rotatePiece as written: the rotated bitmap is taken from the catalogue, then the kick search places it. */
  method RotatePiece(p: Piece, rotation: nat, board: Board) returns (result: Option<Rotation>)
    requires WellFormed(board)
    ensures result == Rotate(p, rotation, board)
  {
    var shapes := Shapes(p.kind);
    var nextRotation := (rotation + 1) % |shapes|;
    var rotatedPiece := p.(shape := shapes[nextRotation]);
    assert rotatedPiece == Rotated(p, rotation) && nextRotation == NextRotation(p.kind, rotation);
    var kick := FindKick(rotatedPiece, board);
    if kick.None? {
      return None;
    }
    return Some(Rotation(rotatedPiece.(x := rotatedPiece.x + kick.value.0, y := rotatedPiece.y + kick.value.1), nextRotation));
  }

  /** The body of rotatePiece after the rotation: the in-place test, then a loop over the wall kicks,
      then a loop over the floor kicks; it returns the first free candidate offset. */
  method FindKick(q: Piece, board: Board) returns (kick: Option<(int, int)>)
    requires WellFormed(board)
    ensures kick == FirstFree(q, board, KICKS)
  {
    var hit := CheckCollision(q, board, 0, 0);
    if !hit {
      KickTaken(q, board, 0);
      return Some((0, 0));
    }

    var wallKickOffsets := [1, -1, 2, -2];
    for k := 0 to |wallKickOffsets|
      invariant KicksBlocked(q, board, k + 1)
    {
      var offset := wallKickOffsets[k];
      assert KICKS[k + 1] == (offset, 0);
      hit := CheckCollision(q, board, offset, 0);
      if !hit {
        KickTaken(q, board, k + 1);
        return Some((offset, 0));
      }
    }

    for i := 1 to 3
      invariant KicksBlocked(q, board, i + 4)
    {
      assert KICKS[i + 4] == (0, -i);
      hit := CheckCollision(q, board, 0, -i);
      if !hit {
        KickTaken(q, board, i + 4);
        return Some((0, -i));
      }
    }
    KicksBlockedAll(q, board, |KICKS|);
    FirstFreeIsFirst(q, board, KICKS);
    return None;
  }

  /** The first n candidate placements all collide. */
  predicate KicksBlocked(q: Piece, board: Board, n: nat)
    requires WellFormed(board) && n <= |KICKS|
  {
    n == 0 || (KicksBlocked(q, board, n - 1) && Collides(q, board, KICKS[n - 1].0, KICKS[n - 1].1))
  }

  lemma {:induction false} KicksBlockedAll(q: Piece, board: Board, n: nat)
    requires WellFormed(board) && n <= |KICKS|
    requires KicksBlocked(q, board, n)
    ensures forall j :: 0 <= j < n ==> Collides(q, board, KICKS[j].0, KICKS[j].1)
  {
    if n > 0 {
      KicksBlockedAll(q, board, n - 1);
    }
  }

  /** When candidate k is free and every earlier one collides, the search picks candidate k. */
  lemma KickTaken(q: Piece, board: Board, k: nat)
    requires WellFormed(board) && k < |KICKS|
    requires !Collides(q, board, KICKS[k].0, KICKS[k].1)
    requires KicksBlocked(q, board, k)
    ensures FirstFree(q, board, KICKS) == Some(KICKS[k])
  {
    KicksBlockedAll(q, board, k);
    FirstFreeIsFirst(q, board, KICKS);
  }

  /** If the piece can drop d + 1 rows without colliding, its occupied sub-cells are still above the floor. */
  lemma DropBound(p: Piece, board: Board, d: int)
    requires WellFormed(board) && HasCell(p.shape)
    requires !Collides(p, board, 0, d + 1)
    ensures p.y + d + 1 < BOARD_HEIGHT
  {
    var r, c :| Occupied(p.shape, r, c);
    if p.y + r + d + 1 >= BOARD_HEIGHT {
      FloorCollides(p, board, r, c, d + 1);
    }
  }

  /** The drop distance found by counting up from d while the next row down is still free. */
  function DropDistance(p: Piece, board: Board, d: nat): nat
    requires WellFormed(board) && HasCell(p.shape)
    decreases BOARD_HEIGHT - p.y - d
  {
    if Collides(p, board, 0, d + 1) then d
    else
      DropBound(p, board, d);
      DropDistance(p, board, d + 1)
  }

  /** hardDrop's result: the piece moved down by its drop distance. */
  function HardDropped(p: Piece, board: Board): Piece
    requires WellFormed(board) && HasCell(p.shape)
  {
    p.(y := p.y + DropDistance(p, board, 0))
  }

  lemma {:induction false} DropDistanceLands(p: Piece, board: Board, d: nat)
    requires WellFormed(board) && HasCell(p.shape)
    requires forall k :: 1 <= k <= d ==> !Collides(p, board, 0, k)
    ensures DropDistance(p, board, d) >= d
    ensures forall k :: 1 <= k <= DropDistance(p, board, d) ==> !Collides(p, board, 0, k)
    ensures Collides(p, board, 0, DropDistance(p, board, d) + 1)
    decreases BOARD_HEIGHT - p.y - d
  {
    if !Collides(p, board, 0, d + 1) {
      DropBound(p, board, d);
      DropDistanceLands(p, board, d + 1);
    }
  }

  /** hardDrop lands the piece: it keeps its kind, colour, bitmap and column, moves down by some d >= 0 rows,
      every offset from 1 to d is free, offset d + 1 collides, so the landed piece cannot move down;
      a piece that did not collide before the drop does not collide after it. */
  lemma HardDropLands(p: Piece, board: Board)
    requires WellFormed(board) && HasCell(p.shape)
    ensures var q := HardDropped(p, board);
      && q.y >= p.y && q == p.(y := q.y)
      && (forall k :: 1 <= k <= q.y - p.y ==> !Collides(p, board, 0, k))
      && Collides(p, board, 0, q.y - p.y + 1)
      && Move(q, board, Down).None?
      && (!Collides(p, board, 0, 0) ==> !Collides(q, board, 0, 0))
  {
    var d := DropDistance(p, board, 0);
    DropDistanceLands(p, board, 0);
    CollidesShifted(p, board, 0, d);
    CollidesShifted(p, board, 0, d + 1);
    var q := HardDropped(p, board);
    CollidesShifted(q, board, 0, 1);
    assert q.(x := q.x + 0, y := q.y + 1) == p.(x := p.x + 0, y := p.y + (d + 1));
    assert q == p.(x := p.x + 0, y := p.y + d);
  }

  /** hardDrop: count the drop distance up while the next row down is free. */
  method HardDrop(p: Piece, board: Board) returns (dropped: Piece)
    requires WellFormed(board) && HasCell(p.shape)
    ensures dropped == HardDropped(p, board)
  {
    var dropDistance := 0;
    var hit := CheckCollision(p, board, 0, dropDistance + 1);
    while !hit
      invariant DropDistance(p, board, dropDistance) == DropDistance(p, board, 0)
      invariant hit <==> Collides(p, board, 0, dropDistance + 1)
      decreases BOARD_HEIGHT - p.y - dropDistance
    {
      DropBound(p, board, dropDistance);
      dropDistance := dropDistance + 1;
      hit := CheckCollision(p, board, 0, dropDistance + 1);
    }
    dropped := p.(y := p.y + dropDistance);
  }
}
