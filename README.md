# Tetris engine and game session, modelled in Dafny

This project models the game engine of a React Native falling-block puzzle game (a Tetris variant with ten piece
kinds, including a rare plus-shaped "cross" piece, a hold slot and a combo counter), the game-session component
that drives it, and the version comparison used by the update check.

- `grid.dfy` (module `Grid`): board cells, pieces, the empty board, `checkCollision`, `mergePiece` and
  `renderBoardWithPiece` from `game/engine.tsx`. A board is a sequence of rows; the placement test is the
  predicate `Collides`, and the merge is specified by the cell-by-cell function `Overlay`.
- `catalogue.dfy` (module `Catalogue`): the `SHAPES` table with every rotation state, the `PIECE_PROBABILITY`
  weights, the weighted list `createPiece` builds, and `createPiece` itself.
- `lines.dfy` (module `Lines`): `clearLines`, specified by `Kept` (the non-full rows in order) and `Cleared`
  (empty rows on top, then the kept rows), with the cell-count and idempotence properties.
- `moves.dfy` (module `Moves`): `movePiece`, `rotatePiece` with its seven candidate placements (in place, wall kicks
  +1, -1, +2, -2, floor kicks one and two rows up) and `hardDrop`.
- `scoring.dfy` (module `Scoring`): `calculateScore`, `calculateComboBonus` and `updateCombo`.
- `session.dfy` (module `Session`): the class `TetrisGame` with the state held in the component's hooks and the
  handlers `startGame`, `spawnNewPiece`, `moveDown`, `handleMoveDown/Left/Right`, `handleRotate`,
  `handleHardDrop`, `handleHold` and `handlePauseToggle`. The lock sequence that `moveDown` and the hard-drop
  callback share is the method `LockPiece`.
- `versions.dfy` (module `Versions`): `compareVersions`, which appears twice with identical bodies, in
  `app/components/BurgerMenu.tsx` and in `game/menu.tsx`.

Each loop of the source (collision scan, merge, line filter and padding, weighted-list build, kick loops, drop
count, version comparison) is a method whose `ensures` ties its result to a specification function. The lemmas
prove the properties of those functions.

Randomness is a parameter. Each `createPiece()` call of the session is replaced by a `Draw(roll, color)` argument,
where `roll < 92` picks the entry of the weighted kind list.

The session reproduces these behaviours of the code as written:

- `spawnNewPiece` tests the next piece against the board from before the lock, not the board just written with
  `setBoard` (`game/TetrisGame.tsx:133`, `:176`). `LockPiece` passes the pre-merge board to `SpawnNewPiece`.
  `Session.StaleSpawnCheck` shows that a piece overlapping the cells just filled can spawn without ending the game.
- `handleHold` resets the rotation index to 0 but keeps the bitmap of the rotation state the piece was in.
  `Session.HoldThenRotate` shows that the next rotation always goes to state 1.
- Hold puts the stashed piece, and a piece taken out of the hold slot, at column `floor(10 / 2) - 1 = 4`
  (`game/TetrisGame.tsx:303-325`), while `createPiece` puts the straight block at column 3. With an empty hold slot
  the promoted next piece keeps its spawn column. The piece that comes in is not tested for collision.
- The session computes its combo bonus with its own local `calculateComboBonus` (`combo * 10`), not the engine's.
  `Session.AfterLockAgreesWithEngine` proves the two agree, because the combo never leaves 0..7.
- The level is set to 1 by `startGame` and never changed: `setLevel` is only ever called with 1
  (`game/TetrisGame.tsx:52`, `:199`). The Help screen promises that the level rises with cleared lines
  (`app/Help.tsx:68`); the code never changes it, and the model follows the code: `TetrisGame.Valid` keeps `level == 1`. The drop interval also follows the code
  (`1000 - (level - 1) * 100`, with no lower bound of 100 ms).
- The Help screen says to clear several lines at once for combo bonuses (`app/Help.tsx:56-57`). The code's combo
  instead counts consecutive locks that clear at least one line, and a multi-line clear earns no extra bonus:
  `Scoring.ScoreIsLinear` proves that clearing a + b lines at once scores the same as clearing a and b separately.

## Model

| member | source | states |
|---|---|---|
| Grid.CreateEmptyBoard | game/engine.tsx:212-220 | the board has 24 rows of 10 cells, and every cell is unfilled with no colour |
| Grid.CollidesShifted | game/engine.tsx:243-268 | testing a piece at an offset (dx, dy) is the same as testing the piece moved by (dx, dy) at offset zero |
| Grid.FloorCollides | game/engine.tsx:253-258 | a piece collides whenever one of its occupied sub-cells would sit on or below the floor |
| Grid.CheckCollision | game/engine.tsx:243-268 | the nested scan returns true exactly when some occupied sub-cell, shifted by the offset, is off the side walls, below the floor, or on a filled cell; rows above the top are never blocked |
| Grid.OverlayCells | game/engine.tsx:270-297 | after a merge, exactly the on-board cells under the piece's occupied sub-cells become filled in the piece's colour, and every other cell keeps its value |
| Grid.OverlayKeepsFilled | game/engine.tsx:270-297 | merging never empties a filled cell |
| Grid.MergedPieceCollides | game/engine.tsx:270-297 | once merged, a piece with an on-board sub-cell collides with the merged board where it stands |
| Grid.MergePiece | game/engine.tsx:270-297 | the copy-then-write loop returns the board overlaid with the piece, which is again 24 x 10 |
| Grid.RenderBoardWithPiece | game/engine.tsx:391-420 | with no piece the display is the board; with a piece it is the board overlaid with that piece |
| Catalogue.Shapes | game/engine.tsx:17-189 | every kind has at least one rotation state, and every state has a non-empty first row |
| Catalogue.CatalogueShapes | game/engine.tsx:17-189 | every rotation state of every kind is a square bitmap of side 2 to 4 with an occupied sub-cell |
| Catalogue.CataloguePieceHasCell | game/engine.tsx:17-189 | a piece carrying one of its kind's bitmaps has an occupied sub-cell |
| Catalogue.RepeatCount | game/engine.tsx:226-228 | the inner push loop adds the kind n times and no other kind |
| Catalogue.ExpandCounts | game/engine.tsx:224-229 | in the weighted list, each kind occurs as often as the sum of its weights, and the list length is the total weight |
| Catalogue.WeightedTypesCounts | game/engine.tsx:192-203 | the weighted list has 92 entries: 10 of each of the nine common kinds and 2 cross blocks |
| Catalogue.WeightedTypes | game/engine.tsx:223-229 | the nested push loops build exactly the expanded weight table, in declaration order |
| Catalogue.SpawnIsCatalogue | game/engine.tsx:234-240 | a fresh piece carries its kind's rotation state 0, which has an occupied sub-cell |
| Catalogue.SpawnPosition | game/engine.tsx:234-240 | a fresh piece starts at row 0 in rotation state 0, at column 3 for the straight block and column 4 for every other kind |
| Catalogue.SpawnFitsEmptyBoard | game/engine.tsx:234-240 | every fresh piece fits on the empty board |
| Catalogue.PrefixWeights | game/engine.tsx:192-203 | the first n table entries weigh each kind 10, or 2 for the cross block, when the kind is among them, and 0 otherwise |
| Catalogue.PrefixTotals | game/engine.tsx:192-203 | the first n table entries weigh 10 n in total, and all ten weigh 92 |
| Catalogue.Created | game/engine.tsx:231-240 | a created piece starts at row 0 in its kind's rotation state 0, which has an occupied sub-cell |
| Catalogue.CreatePiece | game/engine.tsx:222-241 | the weighted-list build followed by the pick at the roll returns the created piece for that roll and colour |
| Lines.ClearLines | game/engine.tsx:299-322 | the reported count is the number of full rows, and the new board is the non-full rows in order, padded on top with empty rows |
| Lines.KeptRows | game/engine.tsx:303-310 | a row survives the filter exactly when it was on the board and is not full |
| Lines.KeptCount | game/engine.tsx:303-310 | the surviving rows and the cleared rows together account for every row |
| Lines.KeptFilled | game/engine.tsx:303-310 | the filled cells of a board of 10-wide rows are those of the kept rows plus ten per full row |
| Lines.ClearedFilledCount | game/engine.tsx:299-322 | a clear removes exactly ten filled cells per cleared line |
| Lines.ClearedShape | game/engine.tsx:312-319 | the cleared board is again 24 x 10: as many empty rows as lines were cleared, then the kept rows |
| Lines.ClearedIdempotent | game/engine.tsx:299-322 | a cleared board has no full row, so clearing it again changes nothing |
| Lines.NoFullRows | game/engine.tsx:303-310 | a board without a full row loses no row and reports no cleared line |
| Lines.ClearNothing | game/engine.tsx:299-322 | clearing a board without a full row returns it unchanged |
| Moves.Move | game/engine.tsx:362-380 | a move is accepted exactly when the one-step offset does not collide; the accepted piece is the input shifted by that step and does not collide |
| Moves.FirstFreeIsFirst | game/engine.tsx:340-357 | the kick search returns nothing exactly when every candidate offset collides, and otherwise returns the earliest free candidate |
| Moves.KickPlacedFirstFit | game/engine.tsx:333-357 | the kick search fails exactly when every candidate collides; otherwise the placed piece does not collide and sits at the earliest free candidate offset |
| Moves.RotateFirstFit | game/engine.tsx:324-360 | rotation fails exactly when all seven candidate placements of the rotated bitmap collide; otherwise the piece does not collide and sits at the first free candidate offset from its old position |
| Moves.RotateState | game/engine.tsx:329-331 | on success the rotation index advances by one modulo the number of states, the bitmap is that state's, and kind and colour are kept |
| Moves.FindKick | game/engine.tsx:333-357 | the in-place test, the wall-kick loop and the floor-kick loop return the first candidate offset that does not collide, or nothing |
| Moves.RotatePiece | game/engine.tsx:324-360 | rotatePiece returns the first-fit rotation |
| Moves.DropDistanceLands | game/engine.tsx:382-389 | counting up from a free offset finds a distance at which every smaller offset is free and the next one collides |
| Moves.HardDropLands | game/engine.tsx:382-389 | a hard drop moves the piece straight down by d >= 0 rows, every offset 1..d is free, offset d + 1 collides, the landed piece cannot move down, and a piece that fitted before still fits |
| Moves.HardDrop | game/engine.tsx:382-389 | the counting loop returns the piece moved down by the landing distance |
| Scoring.CalculateScore | game/engine.tsx:422-424 | the score is non-negative for non-negative inputs, and zero exactly when no line is cleared or the level is zero |
| Scoring.ScoreIsLinear | game/engine.tsx:422-424 | clearing a + b lines at once scores the same as clearing a and b separately, and one line is worth 100 times the level |
| Scoring.CalculateComboBonus | game/engine.tsx:431-436 | the bonus is between 0 and 70; it is zero exactly for combos of zero or less, ten per combo step up to seven, and 70 from seven on |
| Scoring.UpdateCombo | game/engine.tsx:444-454 | a merge that clears nothing resets the combo; a clearing merge adds one below seven and stays at seven at the cap; the range 0..7 is preserved |
| Scoring.CombosSaturate | game/engine.tsx:444-454 | k clearing merges in a row from a combo c in range give min(c + k, 7) |
| Scoring.ComboSequence | game/engine.tsx:431-454 | three clearing merges from zero give combos 1, 2, 3 and bonuses 10, 20, 30, and a merge that clears nothing resets the combo to 0 |
| Session.Stashed | game/TetrisGame.tsx:304-323 | a held piece keeps kind, colour and bitmap and is placed at column 4, row 0 |
| Session.SessionComboBonus | game/TetrisGame.tsx:81-83 | the session's bonus is non-negative for a non-negative combo and equals the engine's bonus for combos 0..7 |
| Session.AfterLockAgreesWithEngine | game/TetrisGame.tsx:135-166 | the lock's statistics follow the engine's updateCombo and calculateComboBonus; the combo stays in 0..7, lines grow by the cleared count, and the score never drops |
| Session.AfterLockExample | game/TetrisGame.tsx:135-166 | at level 1, one line from combo 0 scores 110, four more lines then score 420, and a lock that clears nothing resets the combo |
| Session.DropInterval | game/TetrisGame.tsx:223 | the gravity period is 1000 ms exactly at level 1, and between 100 and 1000 ms for levels 1 to 10 |
| Session.SpawnOutcomeRules | game/TetrisGame.tsx:173-193 | a spawn ends the game exactly when the next piece collides with the tested board, and then leaves the pieces as they were; otherwise the next piece becomes current and is free on that board, the rotation resets and hold is enabled again |
| Session.StaleSpawnCheck | game/TetrisGame.tsx:130-176 | the spawn test uses the pre-lock board, so a piece overlapping the cells just locked can spawn without ending the game |
| Session.HoldThenRotate | game/TetrisGame.tsx:309-317 | after a hold, the next rotation goes to rotation state 1 whatever state the piece was held in |
| Session.TetrisGame.constructor | game/TetrisGame.tsx:51-74 | the initial hook values: zero statistics at level 1, an empty board, no pieces, hold enabled, rotation 0 |
| Session.TetrisGame.StartGame | game/TetrisGame.tsx:195-218 | a restart empties the board, zeroes score, lines and combo at level 1, clears the hold slot, and deals two fresh pieces |
| Session.TetrisGame.SpawnNewPiece | game/TetrisGame.tsx:173-193 | the piece slots change as the spawn rule says, tested against the board passed in, and nothing else changes |
| Session.TetrisGame.ScoreClear | game/TetrisGame.tsx:135-166 | a clear raises the combo, adds the lines and adds the score with the combo bonus; a lock without a clear resets the combo; the board and the pieces are untouched |
| Session.TetrisGame.LockPiece | game/TetrisGame.tsx:128-168 | the board becomes the cleared merge, the statistics follow the lock rule for the number of full rows, and the spawn is tested against the board from before the merge |
| Session.TetrisGame.MoveDown | game/TetrisGame.tsx:120-170 | guarded by piece, pause and game over; the piece moves down one row if free, otherwise it is locked and the next piece spawns |
| Session.TetrisGame.HandleMoveDown | game/TetrisGame.tsx:358-363 | the soft-drop button has the effect of moveDown under the same guard: a free cell below moves the piece down one row and changes nothing else; otherwise the piece is merged, full rows are cleared and scored, and the next piece spawns, with level, hold slot, pause and started flags kept |
| Session.TetrisGame.HandleMoveLeft | game/TetrisGame.tsx:347-356 | the piece moves one column left when that is free, and only the piece changes; otherwise nothing changes |
| Session.TetrisGame.HandleMoveRight | game/TetrisGame.tsx:365-374 | the piece moves one column right when that is free, and only the piece changes; otherwise nothing changes |
| Session.TetrisGame.HandleRotate | game/TetrisGame.tsx:335-345 | on success the piece and the rotation index change together, the bitmap is the state the index names, and the piece is free on the board; otherwise nothing changes |
| Session.TetrisGame.HandleHardDrop | game/TetrisGame.tsx:376-424 | the piece becomes its landed position, which is then locked into the board as it was when the handler ran |
| Session.TetrisGame.HandleHold | game/TetrisGame.tsx:298-332 | at most once per spawn; the current piece goes to the hold slot at column 4; the held piece, or else the next piece, comes in; rotation resets and hold is disabled |
| Session.TetrisGame.HandlePauseToggle | game/TetrisGame.tsx:277-284 | the pause flag flips and nothing else changes |
| Versions.StripV | app/components/BurgerMenu.tsx:57-58 | one leading 'v' is removed and nothing else changes |
| Versions.Split | app/components/BurgerMenu.tsx:60-61 | splitting on '.' yields at least one piece and no piece contains a dot |
| Versions.JoinSplit | app/components/BurgerMenu.tsx:60-61 | re-joining the pieces with dots gives back the string |
| Versions.SplitJoin | app/components/BurgerMenu.tsx:60-61 | splitting dot-free pieces joined with dots gives back the pieces |
| Versions.ParsePart | app/components/BurgerMenu.tsx:60-69 | a digit string reads as its decimal value, with a leading minus sign negated and a leading plus sign ignored; only a leading minus sign makes a negative value; anything that is not a possibly signed digit string reads as 0 |
| Versions.ParseDecimal | app/components/BurgerMenu.tsx:60-61 | the decimal rendering of n reads back as n, and with a minus sign as -n |
| Versions.Values | app/components/BurgerMenu.tsx:57-61 | a version always has at least one component |
| Versions.CompareVersions | app/components/BurgerMenu.tsx:56-76 | the loop with early returns decides the newer-than relation |
| Versions.NewerFromFirstDifference | app/components/BurgerMenu.tsx:63-75 | from index i on, the latest version is newer exactly when some later component is larger and all components between are equal |
| Versions.NewerFirstDifference | game/menu.tsx:225-246 | a version is newer exactly when, at the first component where the zero-padded versions differ, its component is larger |
| Versions.SameComponents | game/menu.tsx:238-239 | component lists that read the same at every index compare the same |
| Versions.TrailingZeros | game/menu.tsx:238-239 | appending a zero component to either version never changes the verdict |
| Versions.NewerIrreflexive | game/menu.tsx:233-245 | no version is newer than itself |
| Versions.NewerAsymmetric | game/menu.tsx:233-245 | of two versions, at most one is newer than the other |
| Versions.NewerTransitive | game/menu.tsx:233-245 | if a is newer than b and b newer than c, then a is newer than c |
| Versions.NewerIsStrictOrder | game/menu.tsx:225-246 | at the string level, newer-than is irreflexive, asymmetric and transitive |
| Versions.Components | game/menu.tsx:230-231 | the components are the pieces' values, one per piece |
| Versions.LeadingV | game/menu.tsx:227-228 | prefixing one 'v' to a version that does not start with one leaves its components unchanged |
| Versions.DecimalPiece | game/menu.tsx:230-231 | a number written in decimal is a single dot-free piece that reads back as the number |
| Versions.TwoPieces | game/menu.tsx:227-231 | a version of two dot-free pieces has their values as its two components |
| Versions.ThreePieces | game/menu.tsx:227-231 | a version of three dot-free pieces has their values as its three components |
| Versions.TwoNumbers | game/menu.tsx:227-231 | the version "a.b" written in decimal has components a and b |
| Versions.ThreeNumbers | game/menu.tsx:227-231 | the version "a.b.c" written in decimal has components a, b and c |
| Versions.NumericComponents | game/menu.tsx:230-243 | components compare as numbers: 1.10 is newer than 1.9, and not the other way round |
| Versions.LeadingVIgnored | game/menu.tsx:227-228 | v1.2 is not newer than 1.2 |
| Versions.ExtraComponentNewer | game/menu.tsx:233-245 | v2.0.1 is newer than 2.0 |
| Versions.MissingComponentsZero | game/menu.tsx:238-239 | neither of 1.0 and 1.0.0 is newer than the other |

## Left out

- Randomness: `Math.random()` in `createPiece` and `getRandomBlockColor` is replaced by a `Draw` argument. Its roll is the index into the 92-entry weighted list.
- Catalogue.CreatePiece: the optional `boardWidth` parameter is always the default 10, as at every call site.
- Colours are opaque strings. The palette in `app/utils/blockAssets.ts` is not part of this model.
- Session.TetrisGame.SpawnNewPiece: requires a next piece instead of modelling the `nextPiece || createPiece()` fallback. `TetrisGame.Valid` keeps a next piece whenever there is a current piece, so every handler's call meets this.
- Session.TetrisGame.HandleHold: the `nextPiece || createPiece()` fallback of the empty-slot branch is left out for the same reason.
- Session.TetrisGame.Valid: the invariant records that every piece has an occupied sub-cell, not that its bitmap is one of its kind's rotation states. Carrying the catalogue membership through every handler made the proofs too costly. Fresh pieces are shown to be catalogue pieces by `SpawnIsCatalogue`.
- Timers: the game-loop interval is not modelled, beyond the formula in `DropInterval`. The same holds for the 6-second combo reset timer, `lastMoveTimeRef` and the clearing of intervals on game over. A combo that times out would become 0, which is inside the range the invariant allows.
- Hard-drop timing: the lock runs in a 50 ms `setTimeout` callback. The model runs it at once, against the board the handler saw, which is the board the closure captured. Interleaving with other handlers during those 50 ms is not modelled.
- React state updates: each handler's `set...` calls are applied in order as one update. Sound cues, button press states, the back-to-menu dialog, `handleBackToMenu` and `handleRestart` (a sound plus `startGame`) are not modelled.
- Moves.HardDrop and Moves.DropDistance require a piece with an occupied sub-cell: for an all-zero bitmap the source's counting loop (`game/engine.tsx:384-386`) never ends. Every catalogue bitmap has an occupied sub-cell (`Catalogue.CatalogueShapes`), and `TetrisGame.Valid` keeps one for every piece, so this never happens in play.
- Numbers: JavaScript numbers are doubles, while the model uses unbounded integers. Scores and line counts never come near 2^53 in play.
- Versions.ParsePart: reads only optionally signed decimal digit strings, as version components are. Other forms that `Number()` accepts read as 0 in the model: surrounding whitespace, hexadecimal, octal or binary prefixes, exponents, and `Infinity`. Digit strings beyond 2^53 lose precision in JavaScript, and this is not modelled either.
- The update check's network request, the menu UI, settings, persistence (`storeManager.ts`) and sound playback (`useSound.tsx`) are outside the modelled core. The rendering components `board.tsx`, `Block.tsx` and `controls.tsx` are as well.
