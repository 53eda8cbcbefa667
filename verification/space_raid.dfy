/** The space raid: enemies appear at the top of a 100 x 100 field and fall
    at a speed fixed at spawn time, while the player's ship moves
    horizontally along row 80. A frame in which any enemy is within reach of
    the ship costs one life and removes the enemies that hit; otherwise the
    enemies that left the field are dropped. The score grows by the level
    every pulse, and the level grows on exact multiples of 500. */
module SpaceRaid {
  import opened Session

  /** Lives at the start of a round. */
  const StartLives := 3
  /** The ship's fixed row and its starting column. */
  const PlayerRow: real := 80.0
  const PlayerStartX: real := 50.0
  /** The ship's column is kept within [5, 95]. */
  const MinX: real := 5.0
  const MaxX: real := 95.0
  /** Enemies appear just above the field and leave it at row 100. */
  const SpawnRow: real := -5.0
  const FieldBottom: real := 100.0
  /** Enemies appear in a column drawn from [0, 90). */
  const SpawnWidth: real := 90.0
  /** Number of enemy pictures to draw from. */
  const EnemyKinds := 5
  /** A level is gained whenever the score is a positive multiple of this. */
  const LevelStep := 500

  datatype Position = Position(x: real, y: real)

  /** An enemy: a unique id, its column and row, which picture it shows, and
      how far it falls per frame. */
  datatype Enemy = Enemy(id: nat, x: real, y: real, kind: nat, speed: real)

  /** The overlay's state hooks, with `nextId` the enemy-id counter, which
      survives from one round to the next. */
  datatype RaidState = RaidState(
    player: Position,
    enemies: seq<Enemy>,
    score: nat,
    lives: int,
    active: bool,
    showResult: bool,
    level: nat,
    nextId: nat)

  /** The discrete events: the start button; one firing of the spawn
      interval, with its two random draws; one 50 ms frame; a pointer or
      touch move to column `x` (already converted to field units); one
      100 ms score pulse. */
  datatype RaidEvent = StartRound | Spawn(column: real, pick: real) | Frame | Pointer(x: real) | Pulse

  function Initial(): RaidState {
    RaidState(Position(PlayerStartX, PlayerRow), [], 0, StartLives, false, false, 1, 0)
  }

  function Abs(v: real): real {
    if v < 0.0 then -v else v
  }

  /** Milliseconds between spawns: 100 less per level, never below 500. */
  function SpawnInterval(level: int): (ms: int)
    ensures ms >= 500
    ensures ms == 500 || ms == 1500 - 100 * level
    ensures ms >= 1500 - 100 * level
    ensures level >= 10 ==> ms == 500
  {
    if 1500 - level * 100 > 500 then 1500 - level * 100 else 500
  }

  /** Enemies appear at least as often at a higher level. */
  lemma SpawnIntervalNonIncreasing(a: int, b: int)
    requires a <= b
    ensures SpawnInterval(b) <= SpawnInterval(a)
  {
  }

  /** The fall speed of an enemy spawned at `level`. */
  function EnemySpeed(level: nat): (v: real)
    ensures v >= 0.5
  {
    0.5 + (level as real) * 0.2
  }

  /** `startGame`: the ship back at (50, 80), no enemies, no score, three
      lives, level 1. The enemy-id counter is not reset. */
  function Start(s: RaidState): (r: RaidState)
    ensures r.player == Position(PlayerStartX, PlayerRow) && r.enemies == []
    ensures r.score == 0 && r.lives == StartLives && r.level == 1
    ensures r.active && !r.showResult && r.nextId == s.nextId
  {
    s.(player := Position(PlayerStartX, PlayerRow), enemies := [], score := 0, lives := StartLives,
       level := 1, active := true, showResult := false)
  }

  /** `spawnEnemy`, fired by the spawn interval during a round. `column` and
      `pick` are the two `Math.random()` draws. The new enemy takes the next
      id, a column in [0, 90) and the speed of the current level, and joins
      the end of the list just above the field. */
  function SpawnEnemy(s: RaidState, column: real, pick: real): (r: RaidState)
    requires 0.0 <= column < 1.0 && 0.0 <= pick < 1.0
    ensures !s.active ==> r == s
    ensures s.active ==>
      && |r.enemies| == |s.enemies| + 1 && r.enemies[..|s.enemies|] == s.enemies
      && r.nextId == s.nextId + 1
      && (var e := r.enemies[|s.enemies|];
          && e.id == s.nextId && e.y == SpawnRow && 0.0 <= e.x < SpawnWidth
          && e.speed == EnemySpeed(s.level) && e.kind < EnemyKinds)
      && r == s.(enemies := r.enemies, nextId := r.nextId)
  {
    if !s.active then s
    else
      var kind := (pick * (EnemyKinds as real)).Floor;
      var e := Enemy(s.nextId, column * SpawnWidth, SpawnRow, kind as nat, EnemySpeed(s.level));
      s.(enemies := s.enemies + [e], nextId := s.nextId + 1)
  }

  /** Every enemy one frame further down: its own speed added to its row,
      everything else about it kept. */
  function Advance(es: seq<Enemy>): (r: seq<Enemy>)
    ensures |r| == |es|
    ensures forall i :: 0 <= i < |es| ==>
      r[i].id == es[i].id && r[i].x == es[i].x && r[i].kind == es[i].kind
      && r[i].speed == es[i].speed && r[i].y == es[i].y + es[i].speed
  {
    seq(|es|, i requires 0 <= i < |es| => es[i].(y := es[i].y + es[i].speed))
  }

  /** The proximity test: within 5 rows of the ship and less than 8 columns
      away from it. */
  predicate Hits(e: Enemy, p: Position) {
    e.y >= p.y - 5.0 && e.y <= p.y + 5.0 && Abs(e.x - p.x) < 8.0
  }

  /** The proximity test is a box around the ship: 10 rows high, closed
      above and below, and 16 columns wide, open at both sides. */
  lemma HitsIsBox(e: Enemy, p: Position)
    ensures Hits(e, p) <==> p.y - 5.0 <= e.y <= p.y + 5.0 && p.x - 8.0 < e.x < p.x + 8.0
  {
  }

  predicate AnyHit(es: seq<Enemy>, p: Position) {
    exists i :: 0 <= i < |es| && Hits(es[i], p)
  }

  /** `Array.prototype.filter`: the elements that pass, in their order. */
  function Filter(es: seq<Enemy>, keep: Enemy -> bool): (r: seq<Enemy>)
    ensures |r| <= |es|
    ensures forall e :: e in r <==> e in es && keep(e)
    decreases |es|
  {
    if |es| == 0 then []
    else if keep(es[0]) then [es[0]] + Filter(es[1..], keep)
    else Filter(es[1..], keep)
  }

  /** Enemy ids strictly increase along the list. */
  predicate IdsIncreasing(es: seq<Enemy>) {
    forall i, j :: 0 <= i < j < |es| ==> es[i].id < es[j].id
  }

  /** Filtering keeps the order, so it keeps ids increasing. */
  lemma {:induction false} FilterKeepsIdsIncreasing(es: seq<Enemy>, keep: Enemy -> bool)
    requires IdsIncreasing(es)
    ensures IdsIncreasing(Filter(es, keep))
    decreases |es|
  {
    if |es| > 0 {
      FilterKeepsIdsIncreasing(es[1..], keep);
      var rest := Filter(es[1..], keep);
      forall e | e in rest
        ensures es[0].id < e.id
      {
        var k :| 0 <= k < |es[1..]| && es[1..][k] == e;
        assert es[k + 1] == e;
      }
    }
  }

  /** `endGame`: the round stops. */
  function EndGame(s: RaidState): (r: RaidState)
    ensures !r.active && r.showResult
    ensures r.score == s.score && r.lives == s.lives && r.enemies == s.enemies
    ensures r.player == s.player && r.level == s.level && r.nextId == s.nextId
  {
    s.(active := false, showResult := true)
  }

  /** The `onEarnCoins` call `endGame` makes: a tenth of the score, rounded
      down, whenever the score is positive. */
  function EndReward(s: RaidState): (r: Reward)
    ensures r.Grant? <==> s.score > 0
    ensures r.Grant? ==> 10 * r.amount <= s.score < 10 * r.amount + 10
  {
    if s.score > 0 then Grant(s.score / 10) else NoReward
  }

  /** One 50 ms frame during a round. Every enemy falls by its speed. If any
      of them now hits the ship, one life is lost, however many hit; exactly
      the hitting enemies are removed, and the round ends when no life is
      left. Otherwise exactly the enemies still above row 100 remain. */
  function MoveTick(s: RaidState): (r: RaidState)
    ensures !s.active ==> r == s
    ensures s.active && AnyHit(Advance(s.enemies), s.player) ==>
      && r.lives == s.lives - 1
      && (forall e :: e in r.enemies <==> e in Advance(s.enemies) && !Hits(e, s.player))
      && (r.active <==> r.lives > 0)
    ensures s.active && !AnyHit(Advance(s.enemies), s.player) ==>
      && r.lives == s.lives && r.active
      && (forall e :: e in r.enemies <==> e in Advance(s.enemies) && e.y < FieldBottom)
    ensures r.score == s.score && r.level == s.level && r.player == s.player && r.nextId == s.nextId
    ensures s.active && r.active ==> r.showResult == s.showResult
    ensures s.active && !r.active ==> r.showResult
  {
    if !s.active then s
    else
      var moved := Advance(s.enemies);
      var p := s.player;
      if AnyHit(moved, p) then
        var lives := s.lives - 1;
        var s1 := s.(enemies := Filter(moved, (e: Enemy) => !Hits(e, p)), lives := lives);
        if lives <= 0 then EndGame(s1) else s1
      else
        s.(enemies := Filter(moved, (e: Enemy) => e.y < FieldBottom))
  }

  /** The column clamp applied to every pointer position. */
  function Clamp(x: real): (c: real)
    ensures MinX <= c <= MaxX
    ensures MinX <= x <= MaxX ==> c == x
    ensures x < MinX ==> c == MinX
    ensures x > MaxX ==> c == MaxX
  {
    if x < MinX then MinX else if x > MaxX then MaxX else x
  }

  /** The pointer and touch handlers, registered only during a round: the
      ship follows the pointer's column within [5, 95], on row 80. */
  function PointerMove(s: RaidState, x: real): (r: RaidState)
    ensures !s.active ==> r == s
    ensures s.active ==> r == s.(player := Position(Clamp(x), PlayerRow))
  {
    if !s.active then s else s.(player := Position(Clamp(x), PlayerRow))
  }

  /** One 100 ms score pulse during a round, followed by the level effect:
      the score grows by the level, and the level grows by one exactly when
      the new score is a positive multiple of 500. */
  function ScoreTick(s: RaidState): (r: RaidState)
    ensures !s.active ==> r == s
    ensures s.active ==> r.score == s.score + s.level
    ensures s.active ==> (r.level == s.level + 1 <==> r.score % LevelStep == 0 && r.score > 0)
    ensures r.level == s.level || r.level == s.level + 1
    ensures r.enemies == s.enemies && r.lives == s.lives && r.active == s.active
    ensures r.player == s.player && r.nextId == s.nextId && r.showResult == s.showResult
  {
    if !s.active then s
    else
      var score := s.score + s.level;
      s.(score := score, level := if score > 0 && score % LevelStep == 0 then s.level + 1 else s.level)
  }

  /** A level-up needs an exact multiple of 500: at level 3 the score steps
      from 1498 to 1501 without one. */
  lemma LevelUpNeedsExactMultiple(s: RaidState)
    requires s.active && s.level == 3 && s.score == 1498
    ensures ScoreTick(s).score == 1501 && ScoreTick(s).level == 3
  {
  }

  predicate EventOk(e: RaidEvent) {
    e.Spawn? ==> 0.0 <= e.column < 1.0 && 0.0 <= e.pick < 1.0
  }

  /** Events as the overlay delivers them: the start button only while no
      round runs; the intervals and pointer listeners only during one. */
  function Step(s: RaidState, e: RaidEvent): (r: RaidState)
    requires EventOk(e)
    ensures e == StartRound && s.active ==> r == s
    ensures e == StartRound && !s.active ==> r.active && r.lives == StartLives && r.score == 0 && r.enemies == []
    ensures !s.active && e != StartRound ==> r == s
  {
    match e
    case StartRound => if s.active then s else Start(s)
    case Spawn(column, pick) => SpawnEnemy(s, column, pick)
    case Frame => MoveTick(s)
    case Pointer(x) => PointerMove(s, x)
    case Pulse => ScoreTick(s)
  }

  function Run(s: RaidState, es: seq<RaidEvent>): RaidState
    requires forall k :: 0 <= k < |es| ==> EventOk(es[k])
    decreases |es|
  {
    if |es| == 0 then s else Run(Step(s, es[0]), es[1..])
  }

  /** The round invariant: the ship stays on row 80 within [5, 95]; enemy
      ids are below the counter and increase along the list; every enemy
      falls; lives stay within [0, 3] and are positive during a round; the
      level is at least 1. */
  predicate Valid(s: RaidState) {
    && s.player.y == PlayerRow && MinX <= s.player.x <= MaxX
    && (forall i :: 0 <= i < |s.enemies| ==> s.enemies[i].id < s.nextId && s.enemies[i].speed > 0.0)
    && IdsIncreasing(s.enemies)
    && 0 <= s.lives <= StartLives
    && (s.active ==> s.lives > 0)
    && s.level >= 1
  }

  lemma InitialValid()
    ensures Valid(Initial())
  {
  }

  /** A new enemy's id is larger than every id already on the field. */
  lemma SpawnIdFresh(s: RaidState, column: real, pick: real)
    requires Valid(s) && s.active
    requires 0.0 <= column < 1.0 && 0.0 <= pick < 1.0
    ensures forall i :: 0 <= i < |s.enemies| ==>
      s.enemies[i].id < SpawnEnemy(s, column, pick).enemies[|s.enemies|].id
    ensures Valid(SpawnEnemy(s, column, pick))
  {
  }

  lemma MoveTickValid(s: RaidState)
    requires Valid(s)
    ensures Valid(MoveTick(s))
  {
    if s.active {
      var moved := Advance(s.enemies);
      var p := s.player;
      assert IdsIncreasing(moved);
      if AnyHit(moved, p) {
        FilterKeepsIdsIncreasing(moved, (e: Enemy) => !Hits(e, p));
        var kept := Filter(moved, (e: Enemy) => !Hits(e, p));
        forall i | 0 <= i < |kept|
          ensures kept[i].id < s.nextId && kept[i].speed > 0.0
        {
          assert kept[i] in moved;
        }
      } else {
        FilterKeepsIdsIncreasing(moved, (e: Enemy) => e.y < FieldBottom);
        var kept := Filter(moved, (e: Enemy) => e.y < FieldBottom);
        forall i | 0 <= i < |kept|
          ensures kept[i].id < s.nextId && kept[i].speed > 0.0
        {
          assert kept[i] in moved;
        }
      }
    }
  }

  lemma StepValid(s: RaidState, e: RaidEvent)
    requires EventOk(e)
    requires Valid(s)
    ensures Valid(Step(s, e))
  {
    match e
    case StartRound =>
    case Spawn(column, pick) => if s.active { SpawnIdFresh(s, column, pick); }
    case Frame => MoveTickValid(s);
    case Pointer(x) =>
    case Pulse =>
  }

  /** Every reachable state keeps the invariant: the ship never leaves
      [5, 95] on row 80, enemy ids stay unique, and lives never go
      negative. */
  lemma {:induction false} RunValid(s: RaidState, es: seq<RaidEvent>)
    requires forall k :: 0 <= k < |es| ==> EventOk(es[k])
    requires Valid(s)
    ensures Valid(Run(s, es))
    ensures Run(s, es).lives >= 0
    decreases |es|
  {
    if |es| > 0 {
      StepValid(s, es[0]);
      RunValid(Step(s, es[0]), es[1..]);
    }
  }

  /** The round ends in the frame that takes the last life, and only then;
      after that, frames change nothing, so it cannot end twice. */
  lemma RoundEndsOnLastLife(s: RaidState)
    requires Valid(s) && s.active
    ensures !MoveTick(s).active <==> AnyHit(Advance(s.enemies), s.player) && s.lives == 1
    ensures !MoveTick(s).active ==> MoveTick(MoveTick(s)) == MoveTick(s) && MoveTick(s).lives == 0
  {
  }
}
