/** Bounding the match-number key space (`find_max_games`): grow an upper
    bound in fixed steps while the probed match exists, then binary-search the
    bracket. The probe is an oracle `present(k)` standing for "the first round
    of match k exists". Round counts per match are a constant stub
    (`find_max_rounds`). */
module RangeFinder {

  /** `find_max_rounds` answers this constant for every match. */
  const MaxRoundsStub := 250

  /** The fixed growth step of the expansion phase. */
  const ExpansionStep := 100

  /** `present` is monotone with finite boundary `bound`: among positive keys,
      exactly `1 .. bound` exist. */
  ghost predicate PresentExactlyUpTo(present: int -> bool, bound: nat) {
    forall k :: 1 <= k ==> (present(k) <==> k <= bound)
  }

  /** `find_max_rounds(game_id)`. */
  function FindMaxRounds(game: int): int {
    MaxRoundsStub
  }

  /** Phase one: starting from `low = high = 1`, while `high` exists move
      `low` to it and advance `high` by the step. */
  method ExpandBracket(present: int -> bool, ghost bound: nat) returns (low: int, high: int)
    requires PresentExactlyUpTo(present, bound)
    ensures 1 <= low <= high && !present(high)
    ensures (low == 1 && high == 1) || (present(low) && high - low == ExpansionStep)
    ensures low == high <==> bound == 0
  {
    low, high := 1, 1;
    while present(high)
      invariant 1 <= low <= high
      invariant (low == 1 && high == 1) || (present(low) && high - low == ExpansionStep)
      decreases bound + 1 - high
    {
      low := high;
      high := high + ExpansionStep;
    }
  }

  /** Phase two: binary search of `[low0, high0]`, remembering the last
      midpoint that exists; `last_valid` starts at `low0`. */
  method NarrowBracket(present: int -> bool, ghost bound: nat, low0: int, high0: int) returns (lastValid: int)
    requires PresentExactlyUpTo(present, bound)
    requires 1 <= low0 <= high0 && !present(high0)
    ensures present(low0) ==> lastValid == bound
    ensures !present(low0) ==> lastValid == low0
  {
    var low, high := low0, high0;
    lastValid := low0;
    while low <= high
      invariant low0 <= low && high <= high0
      invariant bound <= high
      invariant low <= bound + 1 || low == low0
      invariant (low == low0 && lastValid == low0)
             || (low > low0 && lastValid == low - 1 && present(lastValid))
      decreases high - low + 1
    {
      var mid := (low + high) / 2;
      if present(mid) {
        lastValid := mid;
        low := mid + 1;
      } else {
        high := mid - 1;
      }
    }
  }

  /** `find_max_games()`: exactly the boundary when some match exists, and 1
      (the initial `low`, never lowered) when even match 1 is absent. */
  method FindMaxGames(present: int -> bool, ghost bound: nat) returns (maxGame: int)
    requires PresentExactlyUpTo(present, bound)
    ensures bound >= 1 ==> maxGame == bound
    ensures bound == 0 ==> maxGame == 1
  {
    var low, high := ExpandBracket(present, bound);
    maxGame := NarrowBracket(present, bound, low, high);
  }
}
