/** The coin clicker: a 30-second round in which every click on the coin
    earns the current combo multiplier. The combo counter only grows during a
    round, and the multiplier is a step function of it. */
module Clicker {
  import opened Session

  /** Length of a round in seconds. */
  const RoundSeconds := 30

  /** The overlay's state hooks. `multiplier` is the value the click handler
      reads; the overlay recomputes it from `combo` after every change. */
  datatype ClickerState = ClickerState(
    clicks: nat,
    coins: nat,
    multiplier: nat,
    combo: nat,
    timeLeft: int,
    active: bool)

  /** The discrete events a round reacts to: the start button, a click on
      the coin, and one firing of the one-second interval. */
  datatype ClickerEvent = StartRound | Tap | Second

  /** The state before the first round. */
  function Initial(): ClickerState {
    ClickerState(0, 0, 1, 0, RoundSeconds, false)
  }

  /** The multiplier step function: 1 below a combo of 10, then 2, 3 and
      finally 5 from a combo of 30 on. */
  function Multiplier(combo: nat): (m: nat)
    ensures m == 1 || m == 2 || m == 3 || m == 5
    ensures m == 1 <==> combo < 10
    ensures m == 5 <==> combo >= 30
  {
    if 10 <= combo < 20 then 2
    else if 20 <= combo < 30 then 3
    else if combo >= 30 then 5
    else 1
  }

  /** The multiplier never drops as the combo grows. */
  lemma MultiplierMonotone(a: nat, b: nat)
    requires a <= b
    ensures Multiplier(a) <= Multiplier(b)
  {
  }

  /** The banner shown above the coin; each tier names a multiplier. */
  datatype ComboTier = Plain | Combo | SuperCombo | MegaCombo

  function ComboMessage(combo: nat): ComboTier {
    if combo >= 30 then MegaCombo
    else if combo >= 20 then SuperCombo
    else if combo >= 10 then Combo
    else Plain
  }

  /** The multiplier each banner advertises (x2, x3, x5; none for Plain). */
  function TierMultiplier(t: ComboTier): nat {
    match t
    case Plain => 1
    case Combo => 2
    case SuperCombo => 3
    case MegaCombo => 5
  }

  /** The banner thresholds are the multiplier thresholds: the banner always
      advertises the multiplier in force. */
  lemma ComboMessageMatchesMultiplier(combo: nat)
    ensures TierMultiplier(ComboMessage(combo)) == Multiplier(combo)
  {
  }

  /** `startGame`: a fresh active round of 30 seconds. */
  function Start(s: ClickerState): (r: ClickerState)
    ensures r.active && r.timeLeft == RoundSeconds
    ensures r.clicks == 0 && r.coins == 0 && r.combo == 0 && r.multiplier == 1
    ensures Valid(r)
  {
    ClickerState(0, 0, 1, 0, RoundSeconds, true)
  }

  /** `handleClick` followed by the multiplier recomputation: a click while
      the round is active counts one click, extends the combo by one and earns
      the multiplier that was in force before the click. */
  function Click(s: ClickerState): (r: ClickerState)
    ensures !s.active ==> r == s
    ensures s.active ==>
      && r.clicks == s.clicks + 1
      && r.combo == s.combo + 1
      && r.coins == s.coins + s.multiplier
      && r.multiplier == Multiplier(r.combo)
      && r.timeLeft == s.timeLeft && r.active
  {
    if !s.active then s
    else
      var combo := s.combo + 1;
      s.(clicks := s.clicks + 1, combo := combo, coins := s.coins + s.multiplier,
         multiplier := Multiplier(combo))
  }

  /** One firing of the one-second interval. The interval only runs while the
      round is active with time left; the last second ends the round. */
  function Tick(s: ClickerState): (r: ClickerState)
    ensures !s.active || s.timeLeft <= 0 ==> r == s
    ensures s.active && s.timeLeft > 0 ==>
      && r.timeLeft == s.timeLeft - 1
      && (r.active <==> r.timeLeft > 0)
    ensures s.timeLeft >= 0 ==> r.timeLeft >= 0
    ensures r.clicks == s.clicks && r.coins == s.coins && r.combo == s.combo
    ensures r.multiplier == s.multiplier
  {
    if !s.active || s.timeLeft <= 0 then s
    else if s.timeLeft <= 1 then s.(timeLeft := 0, active := false)
    else s.(timeLeft := s.timeLeft - 1)
  }

  /** The reward effect: once the round is over with the clock at zero and
      some coins earned, all of them are handed to the host. */
  function RoundReward(s: ClickerState): (r: Reward)
    ensures r.Grant? <==> !s.active && s.timeLeft == 0 && s.coins > 0
    ensures r.Grant? ==> r.amount == s.coins
  {
    if !s.active && s.timeLeft == 0 && s.coins > 0 then Grant(s.coins) else NoReward
  }

  /** Events as the overlay delivers them. The start button sits on the
      rules screen (inactive, full clock) and on the result screen
      (inactive, clock at zero); the coin only on the round screen. */
  function Step(s: ClickerState, e: ClickerEvent): (r: ClickerState)
    ensures e == StartRound && !StartShown(s) ==> r == s
    ensures e == StartRound && StartShown(s) ==> r.active && r.timeLeft == RoundSeconds && r.coins == 0
    ensures e == Tap && !s.active ==> r == s
    ensures !s.active && e != StartRound ==> r == s
  {
    match e
    case StartRound => if StartShown(s) then Start(s) else s
    case Tap => Click(s)
    case Second => Tick(s)
  }

  /** Whether a screen with the start button is up. */
  predicate StartShown(s: ClickerState) {
    !s.active && (s.timeLeft == RoundSeconds || s.timeLeft == 0)
  }

  function Run(s: ClickerState, es: seq<ClickerEvent>): ClickerState
    decreases |es|
  {
    if |es| == 0 then s else Run(Step(s, es[0]), es[1..])
  }

  /** Coins earned by the first `n` clicks of a round: the k-th click (from
      0) earns Multiplier(k). Every click earns between 1 and 5. */
  function CoinsAfter(n: nat): (c: nat)
    ensures n <= c <= 5 * n
  {
    if n == 0 then 0 else CoinsAfter(n - 1) + Multiplier(n - 1)
  }

  /** A closed form of CoinsAfter, tier by tier: 10 clicks at x1, 10 at x2,
      10 at x3, then x5. */
  function CoinsClosedForm(n: nat): nat {
    if n <= 10 then n
    else if n <= 20 then 10 + 2 * (n - 10)
    else if n <= 30 then 30 + 3 * (n - 20)
    else 60 + 5 * (n - 30)
  }

  lemma {:induction false} CoinsAfterClosedForm(n: nat)
    ensures CoinsAfter(n) == CoinsClosedForm(n)
  {
    if n > 0 {
      CoinsAfterClosedForm(n - 1);
    }
  }

  /** Twelve clicks: ten at x1 and two at x2. */
  lemma TwelveClicks()
    ensures CoinsAfter(12) == 14
  {
    CoinsAfterClosedForm(12);
  }

  /** The round invariant: the click counter and the combo move together,
      the multiplier is the one the combo selects, the coins are exactly
      what that many clicks earn, and the clock stays within the round. */
  predicate Valid(s: ClickerState) {
    && s.clicks == s.combo
    && s.multiplier == Multiplier(s.combo)
    && s.coins == CoinsAfter(s.clicks)
    && 0 <= s.timeLeft <= RoundSeconds
  }

  lemma InitialValid()
    ensures Valid(Initial())
  {
  }

  lemma StepPreservesValid(s: ClickerState, e: ClickerEvent)
    requires Valid(s)
    ensures Valid(Step(s, e))
  {
  }

  /** Every reachable state satisfies the invariant; in particular the clock
      never goes negative and the multiplier is always one of 1, 2, 3, 5. */
  lemma {:induction false} RunPreservesValid(s: ClickerState, es: seq<ClickerEvent>)
    requires Valid(s)
    ensures Valid(Run(s, es))
    ensures 0 <= Run(s, es).timeLeft
    ensures Run(s, es).multiplier in {1, 2, 3, 5}
    decreases |es|
  {
    if |es| > 0 {
      StepPreservesValid(s, es[0]);
      RunPreservesValid(Step(s, es[0]), es[1..]);
    }
  }

  /** Whatever reward a reachable state issues lies between one and five
      coins per click, and some click happened. */
  lemma RewardBounds(s: ClickerState)
    requires Valid(s)
    requires RoundReward(s).Grant?
    ensures s.clicks > 0
    ensures s.clicks <= RoundReward(s).amount <= 5 * s.clicks
  {
  }

  /** A whole round: start, `taps` clicks, then one-second ticks until the
      clock runs out. Returns the reward the round hands to the host. */
  method PlayRound(taps: nat) returns (reward: Reward, final: ClickerState)
    ensures Valid(final) && !final.active && final.timeLeft == 0
    ensures final.clicks == taps
    ensures taps == 0 ==> reward == NoReward
    ensures taps > 0 ==> reward == Grant(CoinsAfter(taps))
  {
    var s := Start(Initial());
    var i := 0;
    while i < taps
      invariant 0 <= i <= taps
      invariant Valid(s) && s.active && s.timeLeft == RoundSeconds
      invariant s.clicks == i
    {
      s := Click(s);
      i := i + 1;
    }
    while s.active
      invariant Valid(s) && s.clicks == taps
      invariant s.active <==> s.timeLeft > 0
      decreases s.timeLeft
    {
      s := Tick(s);
    }
    final := s;
    reward := RoundReward(s);
  }
}
