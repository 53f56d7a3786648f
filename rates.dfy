/** The percentage the app shows for a win tally: `(wins / total) * 100`,
    or 0 when nothing was played. Used by the tournament standing, the
    overall win rate and each cell of the win matrix. */
module Rates {

  function WinRate(wins: nat, total: nat): (rate: real)
    requires wins <= total
    ensures 0.0 <= rate <= 100.0
    ensures total == 0 ==> rate == 0.0
    ensures total > 0 ==> rate * total as real == 100.0 * wins as real
  {
    if total > 0 then (wins as real / total as real) * 100.0 else 0.0
  }
}
