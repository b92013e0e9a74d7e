/** Score and combo arithmetic of game/engine.tsx. */
module Scoring {

  const MAX_COMBO: int := 7
  const COMBO_MULTIPLIER: int := 10

  /** calculateScore: a flat 100 points per line, times the level. */
  function CalculateScore(linesCleared: int, level: int): (score: int)
    ensures linesCleared >= 0 && level >= 0 ==> score >= 0
    ensures score == 0 <==> linesCleared == 0 || level == 0
  {
    linesCleared * 100 * level
  }

  /** The score is flat per line: clearing a + b lines at once is worth clearing a and b lines separately
      (no bonus for multi-line clears), and a single line at level l is worth 100 * l. */
  lemma ScoreIsLinear(a: int, b: int, level: int)
    ensures CalculateScore(a + b, level) == CalculateScore(a, level) + CalculateScore(b, level)
    ensures CalculateScore(1, level) == 100 * level
  {
  }

  /** calculateComboBonus: nothing for a combo of zero or less, ten points per combo step up to the cap of seven. */
  function CalculateComboBonus(comboCount: int): (bonus: int)
    ensures 0 <= bonus <= MAX_COMBO * COMBO_MULTIPLIER
    ensures bonus == 0 <==> comboCount <= 0
    ensures comboCount >= MAX_COMBO ==> bonus == MAX_COMBO * COMBO_MULTIPLIER
    ensures 0 <= comboCount <= MAX_COMBO ==> bonus == comboCount * COMBO_MULTIPLIER
  {
    if comboCount <= 0 then 0
    else
      var clampedCombo := if comboCount < MAX_COMBO then comboCount else MAX_COMBO;
      clampedCombo * COMBO_MULTIPLIER
  }

  /** updateCombo: one more after a clearing merge, capped at seven; back to zero after a merge that clears nothing. */
  function UpdateCombo(currentCombo: int, linesCleared: int): (combo: int)
    ensures linesCleared <= 0 ==> combo == 0
    ensures 0 <= currentCombo <= MAX_COMBO ==> 0 <= combo <= MAX_COMBO
    ensures linesCleared > 0 && currentCombo < MAX_COMBO ==> combo == currentCombo + 1
    ensures linesCleared > 0 && currentCombo >= MAX_COMBO ==> combo == MAX_COMBO
  {
    if linesCleared > 0 then
      if currentCombo + 1 < MAX_COMBO then currentCombo + 1 else MAX_COMBO
    else 0
  }

  /** The combo after k consecutive clearing merges. */
  function CombosAfterClears(combo: int, k: nat): int {
    if k == 0 then combo else UpdateCombo(CombosAfterClears(combo, k - 1), 1)
  }

  /** From any combo in range, k clearing merges in a row give min(combo + k, 7). */
  lemma {:induction false} CombosSaturate(combo: int, k: nat)
    requires 0 <= combo <= MAX_COMBO
    ensures CombosAfterClears(combo, k) == if combo + k < MAX_COMBO then combo + k else MAX_COMBO
  {
    if k > 0 {
      CombosSaturate(combo, k - 1);
    }
  }

  /** Three clearing merges from zero give combos 1, 2, 3 and bonuses 10, 20, 30; a merge that clears nothing resets to 0. */
  lemma ComboSequence()
    ensures UpdateCombo(0, 1) == 1 && UpdateCombo(1, 2) == 2 && UpdateCombo(2, 1) == 3 && UpdateCombo(3, 0) == 0
    ensures CalculateComboBonus(1) == 10 && CalculateComboBonus(2) == 20 && CalculateComboBonus(3) == 30
  {
  }
}
