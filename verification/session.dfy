/** Pieces shared by the four mini-games: an optional value, the reward a
    finished round hands to the host through its `onEarnCoins` callback, and
    JavaScript's `Math.round` applied to a non-negative quotient. */
module Session {

  datatype Option<T> = None | Some(value: T)

  /** What the end of a round hands to the host: nothing, or one
      `onEarnCoins(amount)` call. */
  datatype Reward = NoReward | Grant(amount: nat)

  /** The rule the memory and quiz rounds share: hand over `score` exactly
      when it is positive. */
  function Payout(score: int): (r: Reward)
    ensures r.Grant? <==> score > 0
    ensures r.Grant? ==> r.amount == score
  {
    if score > 0 then Grant(score) else NoReward
  }

  /** `Math.round(n / d)` for `n >= 0` and `d > 0`: the integer nearest to
      n/d, with halves rounded up. The two bounds pin the result down
      uniquely: `2n/d` lies in `[2r - 1, 2r + 1)`. */
  function RoundDiv(n: nat, d: nat): (r: nat)
    requires d > 0
    ensures (2 * r - 1) * d <= 2 * n < (2 * r + 1) * d
  {
    var q := (2 * n + d) / (2 * d);
    DivBracket(2 * n + d, 2 * d);
    q
  }

  lemma DivBracket(a: nat, b: nat)
    requires b > 0
    ensures b * (a / b) <= a < b * (a / b) + b
  {
    assert a == b * (a / b) + a % b;
  }
}
