/** The host dashboard's part of the games: the wallet the rewards flow
    into, and which game overlay a "play" button opens. */
module Host {
  import opened Session

  /** Which of the four game overlays are shown. */
  datatype Overlays = Overlays(coinClicker: bool, quiz: bool, memory: bool, spaceRaid: bool)

  /** The dashboard's wallet and overlay flags. */
  datatype HostState = HostState(coins: int, gems: int, level: int, xp: int, overlays: Overlays)

  /** An entry of the games list: the id its button passes, and whether it
      can be played. */
  datatype GameEntry = GameEntry(id: int, playable: bool)

  /** The four games of the dashboard, each overlay it opens. */
  datatype Game = CoinClicker | SpaceRaid | Quiz | Memory

  /** The games list: clicker, space raid, quiz, memory, all playable. */
  function Games(): seq<GameEntry> {
    [GameEntry(1, true), GameEntry(2, true), GameEntry(3, true), GameEntry(4, true)]
  }

  /** The dashboard as it first appears: 1250 coins, 48 gems, level 12,
      750 xp, no game open. */
  function Initial(): (h: HostState)
    ensures OpenCount(h.overlays) == 0
    ensures h.coins == 1250 && h.gems == 48 && h.level == 12 && h.xp == 750
  {
    HostState(1250, 48, 12, 750, Overlays(false, false, false, false))
  }

  /** How many overlays are shown. */
  function OpenCount(o: Overlays): nat {
    (if o.coinClicker then 1 else 0) + (if o.quiz then 1 else 0)
    + (if o.memory then 1 else 0) + (if o.spaceRaid then 1 else 0)
  }

  /** Whether the overlay of game `g` is shown. */
  predicate IsOpen(o: Overlays, g: Game) {
    match g
    case CoinClicker => o.coinClicker
    case SpaceRaid => o.spaceRaid
    case Quiz => o.quiz
    case Memory => o.memory
  }

  /** `handleEarnCoins`: the reward goes to the coins, half of it (rounded
      down) to the experience; nothing else changes. */
  function EarnCoins(h: HostState, amount: int): (r: HostState)
    ensures r.coins == h.coins + amount
    ensures 2 * (r.xp - h.xp) <= amount < 2 * (r.xp - h.xp) + 2
    ensures r.gems == h.gems && r.level == h.level && r.overlays == h.overlays
  {
    h.(coins := h.coins + amount, xp := h.xp + amount / 2)
  }

  /** Delivering what a finished round hands over. */
  function Collect(h: HostState, reward: Reward): (r: HostState)
    ensures reward == NoReward ==> r == h
    ensures reward.Grant? ==> r == EarnCoins(h, reward.amount)
  {
    match reward
    case NoReward => h
    case Grant(amount) => EarnCoins(h, amount)
  }

  /** Rewards never take coins or experience away. */
  lemma CollectNeverDecreases(h: HostState, reward: Reward)
    ensures Collect(h, reward).coins >= h.coins && Collect(h, reward).xp >= h.xp
  {
  }

  /** `games.find(g => g.id === gameId)`. */
  function FindGame(games: seq<GameEntry>, id: int): (r: Option<GameEntry>)
    ensures r.Some? ==> r.value in games && r.value.id == id
    ensures r.None? <==> forall k :: 0 <= k < |games| ==> games[k].id != id
    decreases |games|
  {
    if |games| == 0 then None
    else if games[0].id == id then Some(games[0])
    else FindGame(games[1..], id)
  }

  /** The overlay behind each button id of the switch. */
  function GameOf(id: int): Option<Game> {
    if id == 1 then Some(CoinClicker)
    else if id == 2 then Some(SpaceRaid)
    else if id == 3 then Some(Quiz)
    else if id == 4 then Some(Memory)
    else None
  }

  function Open(o: Overlays, g: Game): Overlays {
    match g
    case CoinClicker => o.(coinClicker := true)
    case SpaceRaid => o.(spaceRaid := true)
    case Quiz => o.(quiz := true)
    case Memory => o.(memory := true)
  }

  /** `handlePlayGame`: a playable game in the list opens its overlay and
      leaves the others as they were; any other id only shows a
      "coming soon" notice, which changes no state. The wallet never
      changes. */
  function PlayGame(h: HostState, id: int): (r: HostState)
    ensures r.coins == h.coins && r.gems == h.gems && r.level == h.level && r.xp == h.xp
    ensures FindGame(Games(), id).None? ==> r == h
    ensures forall g :: GameOf(id) == Some(g) ==>
      IsOpen(r.overlays, g) && forall g' :: g' != g ==> IsOpen(r.overlays, g') == IsOpen(h.overlays, g')
  {
    match FindGame(Games(), id)
    case Some(game) =>
      if game.playable then
        match GameOf(id)
        case Some(g) => h.(overlays := Open(h.overlays, g))
        case None => h
      else h
    case None => h
  }

  /** From a dashboard with nothing open, ids 1 to 4 open exactly one
      overlay: 1 the clicker, 2 the space raid, 3 the quiz, 4 the memory
      game. Every other id opens none. */
  lemma PlayGameOpensExactlyOne(h: HostState, id: int)
    requires OpenCount(h.overlays) == 0
    ensures 1 <= id <= 4 ==> OpenCount(PlayGame(h, id).overlays) == 1
    ensures id == 1 ==> PlayGame(h, id).overlays.coinClicker
    ensures id == 2 ==> PlayGame(h, id).overlays.spaceRaid
    ensures id == 3 ==> PlayGame(h, id).overlays.quiz
    ensures id == 4 ==> PlayGame(h, id).overlays.memory
    ensures !(1 <= id <= 4) ==> PlayGame(h, id) == h
  {
    if 1 <= id <= 4 {
      assert Games()[id - 1].id == id;
    } else {
      assert FindGame(Games(), id).None?;
    }
  }
}
