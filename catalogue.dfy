/** The static shape catalogue, the weighted piece table and spawn placement of game/engine.tsx. */
module Catalogue {
  import opened Grid

  /** SHAPES: the rotation states of each piece kind, in rotation order. */
  function Shapes(kind: PieceType): (states: seq<Shape>)
    ensures |states| >= 1
    ensures forall i :: 0 <= i < |states| ==> |states[i]| >= 1 && |states[i][0]| >= 1
  {
    match kind
    case StraightBlock => [
      [[0, 0, 0, 0],
       [1, 1, 1, 1],
       [0, 0, 0, 0],
       [0, 0, 0, 0]],
      [[0, 0, 1, 0],
       [0, 0, 1, 0],
       [0, 0, 1, 0],
       [0, 0, 1, 0]]]
    case SquareBlock => [
      [[1, 1],
       [1, 1]]]
    case ShortTBlock => [
      [[0, 1, 0],
       [1, 1, 1],
       [0, 0, 0]],
      [[0, 1, 0],
       [0, 1, 1],
       [0, 1, 0]],
      [[0, 0, 0],
       [1, 1, 1],
       [0, 1, 0]],
      [[0, 1, 0],
       [1, 1, 0],
       [0, 1, 0]]]
    case ZigBlock => [
      [[0, 1, 1],
       [1, 1, 0],
       [0, 0, 0]],
      [[0, 1, 0],
       [0, 1, 1],
       [0, 0, 1]]]
    case ReverseZigBlock => [
      [[1, 1, 0],
       [0, 1, 1],
       [0, 0, 0]],
      [[0, 0, 1],
       [0, 1, 1],
       [0, 1, 0]]]
    case CrossBlock => [
      [[0, 1, 0],
       [1, 1, 1],
       [0, 1, 0]]]
    case ShortLBlock => [
      [[1, 0, 0],
       [1, 1, 1],
       [0, 0, 0]],
      [[0, 1, 1],
       [0, 1, 0],
       [0, 1, 0]],
      [[0, 0, 0],
       [1, 1, 1],
       [0, 0, 1]],
      [[0, 1, 0],
       [0, 1, 0],
       [1, 1, 0]]]
    case ReverseShortLBlock => [
      [[0, 0, 1],
       [1, 1, 1],
       [0, 0, 0]],
      [[1, 1, 0],
       [0, 1, 0],
       [0, 1, 0]],
      [[0, 0, 0],
       [1, 1, 1],
       [1, 0, 0]],
      [[0, 1, 0],
       [0, 1, 0],
       [0, 1, 1]]]
    case LBlock => [
      [[0, 0, 1],
       [1, 1, 1],
       [0, 0, 0]],
      [[0, 1, 0],
       [0, 1, 0],
       [0, 1, 1]],
      [[0, 0, 0],
       [1, 1, 1],
       [1, 0, 0]],
      [[1, 1, 0],
       [0, 1, 0],
       [0, 1, 0]]]
    case ReverseLBlock => [
      [[1, 0, 0],
       [1, 1, 1],
       [0, 0, 0]],
      [[0, 1, 1],
       [0, 1, 0],
       [0, 1, 0]],
      [[0, 0, 0],
       [1, 1, 1],
       [0, 0, 1]],
      [[0, 1, 0],
       [0, 1, 0],
       [1, 1, 0]]]
  }

  /** A square bitmap of side 2, 3 or 4. */
  ghost predicate SquareShape(shape: Shape) {
    2 <= |shape| <= 4 && forall r :: 0 <= r < |shape| ==> |shape[r]| == |shape|
  }

  /** The piece's bitmap is one of its kind's rotation states. */
  ghost predicate CataloguePiece(p: Piece) {
    exists i :: 0 <= i < |Shapes(p.kind)| && Shapes(p.kind)[i] == p.shape
  }

  /** Every catalogue bitmap is square, of side 2 to 4, and has an occupied sub-cell. */
  lemma CatalogueShapes(kind: PieceType, i: int)
    requires 0 <= i < |Shapes(kind)|
    ensures SquareShape(Shapes(kind)[i]) && HasCell(Shapes(kind)[i])
  {
    var s := Shapes(kind)[i];
    if kind == StraightBlock && i == 1 {
      assert Occupied(s, 1, 2);
    } else {
      assert Occupied(s, 1, 1);
    }
  }

  /** A catalogue piece, whatever its rotation, has an occupied sub-cell. */
  lemma CataloguePieceHasCell(p: Piece)
    requires CataloguePiece(p)
    ensures HasCell(p.shape)
  {
    var i :| 0 <= i < |Shapes(p.kind)| && Shapes(p.kind)[i] == p.shape;
    CatalogueShapes(p.kind, i);
  }

  /** PIECE_PROBABILITY: the selection weight of each kind, in declaration order. */
  const PIECE_PROBABILITY: seq<(PieceType, nat)> := [
    (StraightBlock, 10),
    (SquareBlock, 10),
    (ShortTBlock, 10),
    (ZigBlock, 10),
    (ReverseZigBlock, 10),
    (ShortLBlock, 10),
    (ReverseShortLBlock, 10),
    (LBlock, 10),
    (ReverseLBlock, 10),
    (CrossBlock, 2)
  ]

  /** The length of the weighted list, the range of the random index. */
  const TOTAL_WEIGHT: nat := 92

  function Repeat(kind: PieceType, n: nat): seq<PieceType> {
    seq(n, _ => kind)
  }

  /** The weighted list: each entry's kind repeated weight times, entries in order. */
  function Expand(entries: seq<(PieceType, nat)>): seq<PieceType> {
    if entries == [] then []
    else Expand(entries[..|entries| - 1]) + Repeat(entries[|entries| - 1].0, entries[|entries| - 1].1)
  }

  /** The total weight that a table gives a kind. */
  function WeightOf(entries: seq<(PieceType, nat)>, kind: PieceType): nat {
    if entries == [] then 0
    else WeightOf(entries[..|entries| - 1], kind) + (if entries[|entries| - 1].0 == kind then entries[|entries| - 1].1 else 0)
  }

  function TotalOf(entries: seq<(PieceType, nat)>): nat {
    if entries == [] then 0 else TotalOf(entries[..|entries| - 1]) + entries[|entries| - 1].1
  }

  lemma {:induction false} RepeatCount(kind: PieceType, n: nat, other: PieceType)
    ensures multiset(Repeat(kind, n))[other] == if other == kind then n else 0
  {
    if n > 0 {
      RepeatCount(kind, n - 1, other);
      assert Repeat(kind, n) == Repeat(kind, n - 1) + [kind];
    }
  }

  /** The weighted list holds each kind exactly as often as the table weighs it. */
  lemma {:induction false} ExpandCounts(entries: seq<(PieceType, nat)>, kind: PieceType)
    ensures multiset(Expand(entries))[kind] == WeightOf(entries, kind)
    ensures |Expand(entries)| == TotalOf(entries)
  {
    if entries != [] {
      var last := entries[|entries| - 1];
      ExpandCounts(entries[..|entries| - 1], kind);
      RepeatCount(last.0, last.1, kind);
    }
  }

  /** The position of a kind in the weight table. */
  function TableIndex(kind: PieceType): nat {
    match kind
    case StraightBlock => 0
    case SquareBlock => 1
    case ShortTBlock => 2
    case ZigBlock => 3
    case ReverseZigBlock => 4
    case ShortLBlock => 5
    case ReverseShortLBlock => 6
    case LBlock => 7
    case ReverseLBlock => 8
    case CrossBlock => 9
  }

  /** The weight table lists every kind once, at its TableIndex, with weight 10 except cross_block's 2. */
  lemma TableEntries()
    ensures |PIECE_PROBABILITY| == 10
    ensures forall i :: 0 <= i < 10 ==> TableIndex(PIECE_PROBABILITY[i].0) == i
    ensures forall i :: 0 <= i < 10 ==> PIECE_PROBABILITY[i].1 == if i == 9 then 2 else 10
  {
  }

  /** The first n entries of the table weigh a kind by its weight when its index is below n, and 0 otherwise. */
  lemma {:induction false} PrefixWeights(n: nat, kind: PieceType)
    requires n <= 10
    ensures WeightOf(PIECE_PROBABILITY[..n], kind) ==
      if TableIndex(kind) < n then (if kind == CrossBlock then 2 else 10) else 0
  {
    TableEntries();
    if n > 0 {
      PrefixWeights(n - 1, kind);
      assert PIECE_PROBABILITY[..n][..n - 1] == PIECE_PROBABILITY[..n - 1];
      assert PIECE_PROBABILITY[..n][n - 1] == PIECE_PROBABILITY[n - 1];
      assert PIECE_PROBABILITY[n - 1].0 == kind <==> TableIndex(kind) == n - 1;
    }
  }

  /** The first n entries of the table weigh 10 each, except that all ten weigh 92. */
  lemma {:induction false} PrefixTotals(n: nat)
    requires n <= 10
    ensures TotalOf(PIECE_PROBABILITY[..n]) == if n == 10 then 92 else 10 * n
  {
    TableEntries();
    if n > 0 {
      PrefixTotals(n - 1);
      assert PIECE_PROBABILITY[..n][..n - 1] == PIECE_PROBABILITY[..n - 1];
      assert PIECE_PROBABILITY[..n][n - 1] == PIECE_PROBABILITY[n - 1];
    }
  }

  /** The weighted list of createPiece has 92 entries: 10 of each common kind and 2 of cross_block. */
  lemma WeightedTypesCounts(kind: PieceType)
    ensures |Expand(PIECE_PROBABILITY)| == TOTAL_WEIGHT
    ensures multiset(Expand(PIECE_PROBABILITY))[kind] == if kind == CrossBlock then 2 else 10
  {
    ExpandCounts(PIECE_PROBABILITY, kind);
    PrefixWeights(10, kind);
    PrefixTotals(10);
    assert PIECE_PROBABILITY[..10] == PIECE_PROBABILITY;
  }

  /** The loop of createPiece that pushes each kind weight times into the weighted list. */
  method WeightedTypes() returns (weightedTypes: seq<PieceType>)
    ensures weightedTypes == Expand(PIECE_PROBABILITY)
  {
    weightedTypes := [];
    for e := 0 to |PIECE_PROBABILITY|
      invariant weightedTypes == Expand(PIECE_PROBABILITY[..e])
    {
      var (kind, weight) := PIECE_PROBABILITY[e];
      for i := 0 to weight
        invariant weightedTypes == Expand(PIECE_PROBABILITY[..e]) + Repeat(kind, i)
      {
        assert Repeat(kind, i + 1) == Repeat(kind, i) + [kind];
        weightedTypes := weightedTypes + [kind];
      }
      assert PIECE_PROBABILITY[..e + 1][..e] == PIECE_PROBABILITY[..e];
    }
    assert PIECE_PROBABILITY[..|PIECE_PROBABILITY|] == PIECE_PROBABILITY;
  }

  /** A fresh piece of the given kind: rotation state 0, row 0, horizontally centred on the board. */
  function Spawn(kind: PieceType, color: Color): Piece {
    Piece(kind, color, Shapes(kind)[0], BOARD_WIDTH / 2 - |Shapes(kind)[0][0]| / 2, 0)
  }

  /** A spawned piece carries a catalogue bitmap with an occupied sub-cell. */
  lemma SpawnIsCatalogue(kind: PieceType, color: Color)
    ensures CataloguePiece(Spawn(kind, color)) && HasCell(Spawn(kind, color).shape)
  {
    assert Shapes(kind)[0] == Spawn(kind, color).shape;
    CatalogueShapes(kind, 0);
  }

  /** Spawn columns: the 4-wide straight block starts at column 3, every other kind at column 4. */
  lemma SpawnPosition(kind: PieceType, color: Color)
    ensures Spawn(kind, color).y == 0 && Spawn(kind, color).shape == Shapes(kind)[0]
    ensures Spawn(kind, color).x == if kind == StraightBlock then 3 else 4
  {
  }

  /** Every freshly spawned piece fits on the empty board. */
  lemma SpawnFitsEmptyBoard(kind: PieceType, color: Color)
    ensures !Collides(Spawn(kind, color), CreateEmptyBoard(), 0, 0)
  {
    var p := Spawn(kind, color);
    var board := CreateEmptyBoard();
    CatalogueShapes(kind, 0);
    var n := |p.shape|;
    assert p.x == BOARD_WIDTH / 2 - n / 2;
    forall r, c | 0 <= r < |p.shape| && 0 <= c < |p.shape[r]| && p.shape[r][c] != 0
      ensures !Blocked(board, p.x + c + 0, p.y + r + 0)
    {
      assert 0 <= p.x + c < BOARD_WIDTH;
    }
  }

  /** The piece createPiece builds from a roll of the weighted list and a colour. */
  function Created(roll: nat, color: Color): (p: Piece)
    requires roll < TOTAL_WEIGHT
    ensures HasCell(p.shape)
    ensures p.y == 0 && p.shape == Shapes(p.kind)[0]
  {
    WeightedTypesCounts(StraightBlock);
    SpawnIsCatalogue(Expand(PIECE_PROBABILITY)[roll], color);
    Spawn(Expand(PIECE_PROBABILITY)[roll], color)
  }

  /** createPiece: the kind is the roll-th entry of the weighted list, the colour is given,
      and the piece is placed as Spawn places it. */
  method CreatePiece(roll: nat, color: Color) returns (p: Piece)
    requires roll < TOTAL_WEIGHT
    ensures p == Created(roll, color)
  {
    var weightedTypes := WeightedTypes();
    WeightedTypesCounts(StraightBlock);
    var kind := weightedTypes[roll];
    p := Spawn(kind, color);
  }
}
