# Mini-game session engine, modelled in Dafny

The hub's dashboard launches four mini-games as overlays: a coin clicker, a
memory (pair-matching) game, a quiz and a "space raid" dodging game. Each one
runs a round as a small state machine driven by discrete events (a click, a
one-second clock tick, a deferred callback, a 50 ms movement tick). At the end,
the round hands an integer reward to the dashboard through `onEarnCoins`. The
dashboard adds the reward to its wallet.

This project models each game as an immutable state record with one pure
transition function per event, plus a `Step`/`Run` pair that applies the
events the overlay can actually deliver. It proves the invariants those
transitions preserve. The modules are:

- `Session` (`session.dfy`): an `Option`, the `Reward` a round hands over,
  the shared "pay the score if positive" rule, and `Math.round` of a
  non-negative quotient.
- `Clicker` (`clicker.dfy`): the 30-second coin clicker with its combo
  multiplier.
- `Memory` (`memory.dfy`): the 16-card deck, the two-card face-up buffer,
  pair resolution, the end score and the efficiency percentage.
- `Quiz` (`quiz.dfy`): the 8-question bank, scoring with time and streak
  bonuses, timeouts and the pause between questions.
- `SpaceRaid` (`space_raid.dfy`): spawning, falling, collision, the pointer
  clamp, score and level. Positions and speeds are exact `real`s.
- `Host` (`host.dfy`): the dashboard's wallet, `handleEarnCoins` and
  `handlePlayGame`.

Timers and deferred callbacks are events: the clicker's, memory's and quiz's
one-second interval (`Second`), memory's 500 ms end callback (`Deadline`),
the quiz's 1.5 s pause callbacks (`Resume`), and the raid's spawn interval,
50 ms frame and 100 ms score pulse. Random draws are event parameters: the
memory shuffle and the raid's column and picture. A reward is a pure function
of the state in which the round ends.

A few consequences of the code that are easy to miss:

- The raid gains a level only when the score lands on an exact positive
  multiple of 500. At level 3 the score runs 1000, 1003, ... and steps over
  1500 (`SpaceRaid.LevelUpNeedsExactMultiple`), so the next level-up comes at
  2500.
- Twelve uninterrupted clicks earn 14 coins: ten at x1 and two at x2. The
  k-th click earns the multiplier of combo k-1 (`Clicker.TwelveClicks`).
- The raid hands over `floor(score/10)` whenever the score is positive, so a
  score from 1 to 9 produces a call with amount 0.
- The memory game's efficiency is capped at 100, which it reaches whenever
  the matches are at least half the moves.

## Model

| member | source | states |
|---|---|---|
| Session.Payout | src/components/MemoryGame.tsx:130-132 | a reward is handed over exactly when the score is positive, and it equals the score |
| Session.RoundDiv | src/components/MemoryGame.tsx:137 | `Math.round(n/d)`: the result r satisfies (2r-1)d <= 2n < (2r+1)d, which determines it uniquely |
| Clicker.Multiplier | src/components/CoinClickerGame.tsx:45-55 | the multiplier is one of 1, 2, 3, 5; it is 1 exactly below a combo of 10 and 5 exactly from 30 on |
| Clicker.MultiplierMonotone | src/components/CoinClickerGame.tsx:46-54 | the multiplier never decreases as the combo grows |
| Clicker.ComboMessageMatchesMultiplier | src/components/CoinClickerGame.tsx:106-111 | the combo banner's thresholds (10/20/30) are the multiplier's: the banner always names the multiplier in force |
| Clicker.Start | src/components/CoinClickerGame.tsx:63-71 | clicks, coins and combo become 0, the multiplier 1, the clock 30, the round active, and the round invariant holds |
| Clicker.Click | src/components/CoinClickerGame.tsx:73-97 | inactive: nothing changes; active: clicks and combo go up by exactly 1, coins by the pre-click multiplier, and the multiplier follows the new combo |
| Clicker.Tick | src/components/CoinClickerGame.tsx:29-43 | a tick only acts on an active round with time left; it takes exactly one second off, the round stays active iff time remains, time never goes negative, and clicks, coins, combo and multiplier are untouched |
| Clicker.RoundReward | src/components/CoinClickerGame.tsx:57-61 | a reward is issued iff the round is inactive, the clock is at 0 and coins are positive, and it is exactly the coins |
| Clicker.CoinsAfter | src/components/CoinClickerGame.tsx:94-96 | n clicks earn between n and 5n coins |
| Clicker.CoinsAfterClosedForm | src/components/CoinClickerGame.tsx:45-55 | the coins of n clicks agree with the tier-by-tier closed form (10 at x1, 10 at x2, 10 at x3, then x5) |
| Clicker.TwelveClicks | src/components/CoinClickerGame.tsx:94-96 | 12 clicks earn 14 coins |
| Clicker.InitialValid | src/components/CoinClickerGame.tsx:20-25 | the initial state satisfies the round invariant |
| Clicker.StepPreservesValid | src/components/CoinClickerGame.tsx:29-97 | every event keeps clicks == combo, the multiplier selected by the combo, coins == coins of that many clicks, and the clock within [0, 30] |
| Clicker.RunPreservesValid | src/components/CoinClickerGame.tsx:29-97 | every reachable state keeps the invariant, so time is never negative and the multiplier is always in {1, 2, 3, 5} |
| Clicker.RewardBounds | src/components/CoinClickerGame.tsx:57-61 | a reward from a reachable state means at least one click and lies between 1 and 5 coins per click |
| Clicker.Step | src/components/CoinClickerGame.tsx:139-270 | the start button acts only on the rules screen (inactive, clock 30) or the result screen (inactive, clock 0, line 243) and opens a fresh 30 s round; outside a round no other event changes anything |
| Clicker.PlayRound | src/components/CoinClickerGame.tsx:29-71 | a round of n clicks followed by the clock running out ends inactive at 0 and rewards exactly the coins of n clicks, or nothing when n = 0 |
| Memory.PairsOccurrences | src/components/MemoryGame.tsx:84 | the unshuffled deck holds each of the 8 symbols exactly twice and nothing else |
| Memory.Start | src/components/MemoryGame.tsx:83-101 | a dealt deck has 16 cards with ids 0..15 in the shuffled order, each symbol exactly twice, none face up or matched; counters reset, clock 60, round active; an end callback armed in the previous round stays armed, as `startGame` does not cancel it |
| Memory.Find | src/components/MemoryGame.tsx:50-51 | the lookup returns a card of the deck with the given id, and finds none exactly when no card has it |
| Memory.Click | src/components/MemoryGame.tsx:103-118 | a click is a no-op if two cards are waiting, the card is waiting or it is matched; otherwise exactly that card turns face up, its id joins the buffer and nothing else changes |
| Memory.Resolve | src/components/MemoryGame.tsx:47-81 | a full buffer resolves: equal symbols mark both cards matched and count a match (arming the end at 8); unequal ones turn both face down; either way the buffer empties, moves go up by exactly 1 and other cards are unchanged |
| Memory.EndScore | src/components/MemoryGame.tsx:124-127 | the score is max(0, 100 per match + 10 per second - 5 per move beyond 16) |
| Memory.EndScoreBounds | src/components/MemoryGame.tsx:124-127 | within 16 moves nothing is deducted; the score never exceeds the match and time bonuses; each extra move costs 5 until the score reaches 0 |
| Memory.EndScoreExamples | src/components/MemoryGame.tsx:124-127 | 8 matches, 0 s, 16 moves give 800; 8 matches, 10 s, 20 moves give 880 |
| Memory.EndGame | src/components/MemoryGame.tsx:120-129 | the round stops, the result shows, and the recorded score is the end score of the state it ends in |
| Memory.EndReward | src/components/MemoryGame.tsx:130-132 | a reward is issued iff the end score is positive, and it equals the recorded score |
| Memory.Tick | src/components/MemoryGame.tsx:31-45 | a tick takes one second off an active round and changes nothing else; the last second ends it with the score computed at 0 s left, leaving the deck, the buffer and an armed end callback as they were |
| Memory.Finish | src/components/MemoryGame.tsx:64-66 | the armed end callback ends the round with the end score of the state it fires in, leaving deck, buffer, counters and clock as they were; without one nothing happens |
| Memory.Efficiency | src/components/MemoryGame.tsx:135-138 | efficiency is 0 before any move, always within [0, 100], the rounded value of 200 matches / moves when below 100, and 100 exactly when that rounded value reaches 100 (in particular when matches are at least half the moves) |
| Memory.EfficiencyExamples | src/components/MemoryGame.tsx:135-138 | 1 pair in 10 moves is 20, 8 in 16 is 100, 8 in 20 is 80, 2 in 3 is capped at 100, no matches is 0 |
| Memory.EfficiencyMonotone | src/components/MemoryGame.tsx:135-138 | with the moves fixed, more matches never lower the efficiency |
| Memory.StartValid | src/components/MemoryGame.tsx:83-101 | a freshly dealt deck satisfies the deck invariant |
| Memory.ClickValid | src/components/MemoryGame.tsx:103-118 | a click keeps the invariant, and a card in the buffer is never matched |
| Memory.ResolveValid | src/components/MemoryGame.tsx:47-81 | resolution keeps the invariant: a match adds exactly two matched cards of one symbol, so matches never pass 8 |
| Memory.Step | src/components/MemoryGame.tsx:166-230 | the deal acts only between rounds and deals the given order with counters reset; a card click acts only during a round and on a card of the grid, where it is exactly the click handler |
| Memory.StepValid | src/components/MemoryGame.tsx:31-118 | every deliverable event keeps the deck invariant |
| Memory.RunValid | src/components/MemoryGame.tsx:31-118 | from a dealt deck, every reachable state has at most 2 distinct buffered ids (exactly the face-up unmatched cards), pairs matched together, and at most 8 matches |
| Memory.InitialOnlyDeals | src/components/MemoryGame.tsx:22-32 | before the first deal, every event other than the deal leaves the overlay unchanged |
| Memory.InitialWaitsForDeal | src/components/MemoryGame.tsx:22-32 | any sequence of events without a deal leaves the overlay in its initial state |
| Memory.LastMatchSchedulesEnd | src/components/MemoryGame.tsx:64-65 | finding the 8th pair arms the end of the round, and its callback ends it |
| Quiz.Bank | src/components/QuizGame.tsx:20-69 | the bank has 8 questions, each with 4 answers and a correct index below 4 |
| Quiz.Start | src/components/QuizGame.tsx:97-106 | question 0 open (no selection, not timed out), score, streak and correct count 0, clock 15, round active, result hidden; pending callbacks are kept |
| Quiz.Points | src/components/QuizGame.tsx:128-130 | a correct answer earns 50 + floor(t/3) + 10 per streak step |
| Quiz.PointsExamples | src/components/QuizGame.tsx:128-130 | a correct answer at 15 s with no streak earns 55; within the clock the points lie in [50 + 10k, 55 + 10k] |
| Quiz.AnswerAsWritten | src/components/QuizGame.tsx:121-149 | as written, any answer without a selection is recorded and schedules one more callback |
| Quiz.Answer | src/components/QuizGame.tsx:121-149 | a closed question ignores answers; otherwise a correct answer adds its points and raises streak and correct count by 1, a wrong one resets the streak and scores nothing, and the next question or the end is scheduled; the question, clock, round flags and timeout mark are untouched |
| Quiz.EndGame | src/components/QuizGame.tsx:151-153 | the round stops with its score, question and pending callbacks unchanged |
| Quiz.EndReward | src/components/QuizGame.tsx:154-156 | a reward is issued iff the score is positive, and it equals the score |
| Quiz.Timeout | src/components/QuizGame.tsx:108-119 | a timeout resets the streak and closes the question without scoring; before the last question the next one is scheduled and the round flags are kept; on the last the round ends at once; score, correct count, question, selection and clock are untouched |
| Quiz.Tick | src/components/QuizGame.tsx:81-95 | the clock ticks only while active, with time left and the question open; its last second times the question out and resets the clock to 15, keeping score, correct count, question and selection; before the last question the next one is scheduled with the round flags kept, on the last the round ends |
| Quiz.Resume | src/components/QuizGame.tsx:138-148 | the first pending callback fires: the next question opens with a clean selection and 15 s, keeping score, streak, correct count and round flags; or the round ends with score, question, counters, selection, timeout mark and clock kept |
| Quiz.Accuracy | src/components/QuizGame.tsx:166-168 | accuracy is the rounded percentage of correct answers out of 8, within [0, 100] |
| Quiz.InitialValid | src/components/QuizGame.tsx:72-79 | the initial state satisfies the round invariant |
| Quiz.Step | src/components/QuizGame.tsx:196-276 | the start button acts only between rounds and opens question 0 with score 0; an answer button acts only during a round, on one of the 4 answers of a question in the bank, where it is exactly the answer handler |
| Quiz.StepValid | src/components/QuizGame.tsx:81-157 | every deliverable event keeps the invariant |
| Quiz.RunValid | src/components/QuizGame.tsx:121-168 | every reachable state has streak <= correct answers <= 8 and accuracy within [0, 100] |
| Quiz.OneScoredActionPerQuestion | src/components/QuizGame.tsx:122 | once a question is answered, or has timed out, further answers change nothing |
| Quiz.FirstCorrectAnswer | src/components/QuizGame.tsx:127-133 | a correct answer at 15 s with no streak adds 55 and leaves a streak of 1 |
| Quiz.AnswerAfterTimeoutSkipsQuestion | src/components/QuizGame.tsx:108-122 | as written, an answer after a timeout on question index 6 scores and queues a second advance, taking the round to index 8, past the bank |
| SpaceRaid.SpawnInterval | src/components/SpaceRaidGame.tsx:52 | the spawn interval is 1500 - 100 level ms but never below 500 |
| SpaceRaid.SpawnIntervalNonIncreasing | src/components/SpaceRaidGame.tsx:52 | the spawn interval never grows with the level |
| SpaceRaid.EnemySpeed | src/components/SpaceRaidGame.tsx:47 | a spawned enemy falls at least 0.5 per frame |
| SpaceRaid.Start | src/components/SpaceRaidGame.tsx:142-150 | ship at (50, 80), no enemies, score 0, 3 lives, level 1, round active; the id counter is kept |
| SpaceRaid.SpawnEnemy | src/components/SpaceRaidGame.tsx:41-50 | during a round a new enemy is appended with the next id, row -5, a column in [0, 90), a picture among 5 and speed 0.5 + 0.2 level; nothing else changes |
| SpaceRaid.SpawnIdFresh | src/components/SpaceRaidGame.tsx:43 | a spawned enemy's id is greater than every id on the field |
| SpaceRaid.Advance | src/components/SpaceRaidGame.tsx:62-65 | a move adds each enemy's own speed to its row and keeps its id, column, picture and speed |
| SpaceRaid.Filter | src/components/SpaceRaidGame.tsx:82-92 | filtering keeps exactly the elements that pass |
| SpaceRaid.FilterKeepsIdsIncreasing | src/components/SpaceRaidGame.tsx:82-92 | filtering keeps the list order, so ids stay increasing |
| SpaceRaid.EndGame | src/components/SpaceRaidGame.tsx:152-154 | the round stops with score, lives, enemies, ship, level and id counter unchanged |
| SpaceRaid.EndReward | src/components/SpaceRaidGame.tsx:155-157 | a reward is issued iff the score is positive, and it is floor(score / 10) |
| SpaceRaid.MoveTick | src/components/SpaceRaidGame.tsx:60-94 | in a frame with any hit, lives drop by exactly 1, exactly the hitting enemies go and the round ends iff no life is left; otherwise lives stay and exactly the enemies above row 100 remain; the result screen appears exactly when the frame ends the round, and score, level, ship and id counter are untouched |
| SpaceRaid.Clamp | src/components/SpaceRaidGame.tsx:106 | the ship's column is the pointer's column clamped to [5, 95] |
| SpaceRaid.PointerMove | src/components/SpaceRaidGame.tsx:99-124 | during a round a pointer move puts the ship at the clamped column on row 80; otherwise nothing changes |
| SpaceRaid.ScoreTick | src/components/SpaceRaidGame.tsx:126-140 | a pulse adds exactly the level to the score; the level rises by 1 iff the new score is a positive multiple of 500; enemies, lives, ship, id counter and round flags are untouched |
| SpaceRaid.LevelUpNeedsExactMultiple | src/components/SpaceRaidGame.tsx:136-140 | at level 3 the score passes from 1498 to 1501 without a level-up |
| SpaceRaid.InitialValid | src/components/SpaceRaidGame.tsx:26-34 | the initial state satisfies the round invariant |
| SpaceRaid.MoveTickValid | src/components/SpaceRaidGame.tsx:60-94 | a frame keeps the invariant |
| SpaceRaid.HitsIsBox | src/components/SpaceRaidGame.tsx:67-72 | the proximity test is the box 5 rows above and below the ship (closed) and less than 8 columns to either side (open) |
| SpaceRaid.Step | src/components/SpaceRaidGame.tsx:38-150 | the start button acts only between rounds and opens a round with 3 lives, score 0 and no enemies; outside a round spawns, frames, pointer moves and pulses change nothing |
| SpaceRaid.StepValid | src/components/SpaceRaidGame.tsx:38-150 | every deliverable event keeps the invariant |
| SpaceRaid.RunValid | src/components/SpaceRaidGame.tsx:38-150 | in every reachable state the ship is on row 80 within [5, 95], enemy ids are unique and increasing, and lives stay within [0, 3] |
| SpaceRaid.RoundEndsOnLastLife | src/components/SpaceRaidGame.tsx:74-81 | a frame ends the round iff it has a hit and one life was left; after that frames change nothing, so the end happens once |
| Host.Initial | src/pages/Index.tsx:23-32 | the wallet starts at 1250 coins, 48 gems, level 12, 750 xp, with no overlay open |
| Host.EarnCoins | src/pages/Index.tsx:104-111 | coins rise by exactly the amount, xp by exactly floor(amount / 2); gems, level and overlays are unchanged |
| Host.Collect | src/pages/Index.tsx:104-106 | a round's reward reaches the wallet through `handleEarnCoins`, or changes nothing when there is none |
| Host.CollectNeverDecreases | src/pages/Index.tsx:104-106 | a reward never lowers coins or xp |
| Host.FindGame | src/pages/Index.tsx:75 | the lookup returns a listed game with that id, and none exactly when no game has it |
| Host.PlayGame | src/pages/Index.tsx:74-102 | the wallet never changes; an unlisted id changes nothing; a listed game opens its own overlay and leaves the others as they were |
| Host.PlayGameOpensExactlyOne | src/pages/Index.tsx:74-101 | from a closed dashboard, id 1 opens the clicker, 2 the space raid, 3 the quiz, 4 memory, each exactly one overlay; any other id opens none |

## Left out

- Rendering, styling, icons, toasts and colour helpers (`getMultiplierColor`, `getAnswerColor`) are presentation only. So are the dashboard's tabs and its shop, leaderboard and achievement lists.
- The clicker's floating coins and button shake are cosmetic; no logic reads them.
- Timer delays are not modelled. Each firing is an event, so the model allows orderings that real timing excludes, such as several clock ticks inside one 1.5 s pause. The invariants hold for all of them.
- Randomness is an input. `Memory.Start` takes any reordering of the deck, and `SpaceRaid.SpawnEnemy` takes the two `Math.random()` draws.
- The conversion of pointer and touch coordinates to field percentages is DOM geometry. `SpaceRaid.PointerMove` takes the converted column and models only the clamp.
- Closing an overlay (`onClose`) is not modelled. Neither is the teardown of its timers.
- Memory.EndGame, Memory.Tick, Memory.Finish, Quiz.EndReward, Quiz.Resume, SpaceRaid.EndReward: the reward is computed from the state the round ends in. The source's `endGame` reads its values through a closure captured at an earlier render:
  - Memory's clock expiry (`src/components/MemoryGame.tsx:37`) sees 1 s left, which is 10 points more.
  - Memory's all-pairs end (line 65) sees the match and move counts before the last pair.
  - The quiz's end after the last answer (`src/components/QuizGame.tsx:146`) misses that answer's points.
  - The raid's frame interval is re-created only when `gameActive` or the ship's position changes (`src/components/SpaceRaidGame.tsx:97`). So its `endGame` (lines 78 and 155) reads the score as it was at the ship's last move. A round played without moving the ship ends with score 0 and pays nothing.
  - These render-time captures are React scheduling behaviour and are out of scope.
- Clicker.RoundReward: this is the reward of a finished round, with no exactly-once claim. The source pays it without bound while the result screen is up:
  - The clicker's own `onEarnCoins` call updates the dashboard's state, so the dashboard re-renders.
  - That render creates a new `handleEarnCoins` (`src/pages/Index.tsx:104`), which is in the reward effect's dependencies (`src/components/CoinClickerGame.tsx:61`).
  - The effect then runs again, its condition still holds, and it pays again.
- Memory.Finish: a clock expiry during the 500 ms grace delay does not cancel the armed callback, so the round can end twice and pay twice. The model keeps that possibility.
- Memory.Resolve: a mismatch's move count and its delayed flip-back form one event. Within a round this loses nothing, because during the 1 s delay the full buffer makes every click a no-op.
  - Across rounds it does lose something. The flip-back is a timer (`src/components/MemoryGame.tsx:68-77`) that `startGame` (lines 93-94) does not cancel.
  - Suppose the clock runs out during the delay, the player starts a new round and clicks a card x whose position is not one of the two old ids. The old flip-back then empties the new round's buffer.
  - Card x stays face up, unmatched and disabled (line 221), so its pair can never be completed.
  - The model cannot express this, because `Start` empties the buffer and `Resolve` then does nothing.
- Memory.Step: clicks are delivered only for cards of the deck while a round runs, because the grid renders only then. The buttons' `disabled` attribute (face up or matched) is not modelled separately. Under the invariant, the handler's own guard rejects the same clicks.
- SpaceRaid.ScoreTick: the level effect that follows a score change is folded into the pulse.
- SpaceRaid.MoveTick: positions and speeds are exact reals. The source uses binary floating point (0.5 + 0.2 level is not exact there), so a hit exactly on a boundary of the proximity test may differ.
- Memory.Efficiency and Quiz.Accuracy: exact rationals are rounded, not doubles.
- Quiz.Tick: as part of the correction below, the clock also stops while a timed-out question waits for its pause callback. As written, it restarts from 15 during the 1.5 s pause, so the on-screen clock (`src/components/QuizGame.tsx:241`) shows 14 s before the next question resets it to 15. The model keeps 15.

## Findings

| source | as written | input that shows it | evidently intended | confidence | as-written member | corrected member |
|---|---|---|---|---|---|---|
| src/components/QuizGame.tsx:108-122 | after a timeout, the selection stays empty during the 1.5 s pause, so `handleAnswer` still scores the question and schedules a second advance | on question index 6, let the clock run out, then click the correct answer: 55 points are scored, two advances are queued, and the round moves to index 8, past the 8-question bank | a timed-out question is closed: it accepts no answer, and the round advances once | high, not executed | Quiz.AnswerAsWritten (exhibited by Quiz.AnswerAfterTimeoutSkipsQuestion) | Quiz.Answer (proved by Quiz.OneScoredActionPerQuestion and Quiz.RunValid) |
