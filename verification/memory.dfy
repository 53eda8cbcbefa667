/** The memory game: a shuffled deck of 8 symbols times 2, turned face up
    two at a time. A pair with equal symbols stays matched; any other pair is
    turned face down again. Every resolved pair costs one move, and the round
    ends when all 8 pairs are found or the 60-second clock runs out. */
module Memory {
  import opened Session

  /** Number of distinct symbols (the `emojis` list). */
  const SymbolCount := 8
  /** Two cards per symbol. */
  const DeckSize := 16
  /** Length of a round in seconds. */
  const RoundSeconds := 60
  /** Moves allowed before each extra move costs 5 points (`emojis.length * 2`). */
  const FreeMoves := 16

  /** A card: its position-independent id, the index of its symbol in the
      symbol list, and whether it is face up or already matched. */
  datatype Card = Card(id: nat, symbol: nat, flipped: bool, matched: bool)

  /** The overlay's state hooks; `buffer` is the list of face-up card ids
      waiting to be compared. `endScheduled` records the pending
      end-of-round callback armed when the last pair is found. */
  datatype MemoryState = MemoryState(
    cards: seq<Card>,
    buffer: seq<nat>,
    moves: nat,
    matches: nat,
    timeLeft: int,
    active: bool,
    showResult: bool,
    score: nat,
    endScheduled: bool)

  /** The discrete events: the start button with the shuffled symbol order,
      a click on a card, the pair-resolution effect, one firing of the
      one-second interval, and the delayed end-of-round callback. */
  datatype MemoryEvent = Deal(shuffled: seq<nat>) | Pick(id: nat) | ResolvePair | Second | Deadline

  /** The overlay before its first deal: no cards, the rules screen. */
  function Initial(): MemoryState {
    MemoryState([], [], 0, 0, RoundSeconds, false, false, 0, false)
  }

  /** The symbol indices 0..7, in order. */
  function Symbols(): seq<nat> {
    seq(SymbolCount, i requires 0 <= i < SymbolCount => i)
  }

  /** The unshuffled deck: every symbol index twice. */
  function Pairs(): seq<nat> {
    Symbols() + Symbols()
  }

  /** A shuffle of the deck is any reordering of it. */
  predicate IsShuffle(xs: seq<nat>) {
    multiset(xs) == multiset(Pairs())
  }

  function SymbolsOf(cards: seq<Card>): (r: seq<nat>)
    ensures |r| == |cards|
    ensures forall i :: 0 <= i < |cards| ==> r[i] == cards[i].symbol
  {
    seq(|cards|, i requires 0 <= i < |cards| => cards[i].symbol)
  }

  /** How many cards of the deck show symbol `sym`. */
  function Occurrences(cards: seq<Card>, sym: nat): nat {
    multiset(SymbolsOf(cards))[sym]
  }

  lemma {:induction false} CountUpTo(n: nat, x: nat)
    ensures multiset(seq(n, i requires 0 <= i < n => i))[x] == if x < n then 1 else 0
  {
    if n > 0 {
      var prefix := seq(n - 1, i requires 0 <= i < n - 1 => i);
      assert seq(n, i requires 0 <= i < n => i) == prefix + [n - 1];
      CountUpTo(n - 1, x);
    }
  }

  lemma PairsOccurrences(sym: nat)
    ensures multiset(Pairs())[sym] == if sym < SymbolCount then 2 else 0
  {
    CountUpTo(SymbolCount, sym);
  }

  /** `startGame`: deal the shuffled symbols as cards with ids 0..15, all
      face down and unmatched, and start a 60-second round. */
  function Start(s: MemoryState, shuffled: seq<nat>): (r: MemoryState)
    requires IsShuffle(shuffled)
    ensures |r.cards| == DeckSize
    ensures SymbolsOf(r.cards) == shuffled
    ensures forall i :: 0 <= i < DeckSize ==> r.cards[i].id == i && !r.cards[i].flipped && !r.cards[i].matched
    ensures forall sym :: 0 <= sym < SymbolCount ==> Occurrences(r.cards, sym) == 2
    ensures forall i :: 0 <= i < DeckSize ==> r.cards[i].symbol < SymbolCount
    ensures r.buffer == [] && r.moves == 0 && r.matches == 0 && r.score == 0
    ensures r.active && !r.showResult && r.timeLeft == RoundSeconds
    ensures r.endScheduled == s.endScheduled
  {
    assert |shuffled| == |multiset(shuffled)| == DeckSize;
    var cards := seq(DeckSize, i requires 0 <= i < DeckSize => Card(i, shuffled[i], false, false));
    assert SymbolsOf(cards) == shuffled;
    assert forall sym :: 0 <= sym < SymbolCount ==> Occurrences(cards, sym) == 2 by {
      forall sym | 0 <= sym < SymbolCount
        ensures Occurrences(cards, sym) == 2
      {
        PairsOccurrences(sym);
      }
    }
    assert forall i :: 0 <= i < DeckSize ==> cards[i].symbol < SymbolCount by {
      forall i | 0 <= i < DeckSize
        ensures cards[i].symbol < SymbolCount
      {
        assert shuffled[i] in multiset(Pairs());
        PairsOccurrences(shuffled[i]);
      }
    }
    MemoryState(cards, [], 0, 0, RoundSeconds, true, false, 0, s.endScheduled)
  }

  /** `cards.find(c => c.id === id)`: a card with that id, if any (the
      first one; ids are unique in a dealt deck). */
  function Find(cards: seq<Card>, id: nat): (r: Option<Card>)
    ensures r.Some? ==> r.value in cards && r.value.id == id
    ensures r.None? <==> forall i :: 0 <= i < |cards| ==> cards[i].id != id
    decreases |cards|
  {
    if |cards| == 0 then None
    else if cards[0].id == id then Some(cards[0])
    else Find(cards[1..], id)
  }

  /** `find(...)?.isMatched`: false for an id that is not in the deck. */
  predicate IsMatchedId(cards: seq<Card>, id: nat) {
    match Find(cards, id)
    case Some(c) => c.matched
    case None => false
  }

  /** `find(...)?.emoji`, compared with `===`: two missing cards compare equal. */
  function SymbolAt(cards: seq<Card>, id: nat): Option<nat> {
    match Find(cards, id)
    case Some(c) => Some(c.symbol)
    case None => None
  }

  /** Ids are positions: the deck dealt by Start keeps this for the whole round. */
  predicate IdsArePositions(cards: seq<Card>) {
    forall i :: 0 <= i < |cards| ==> cards[i].id == i
  }

  lemma {:induction false} FindPosition(cards: seq<Card>, id: nat)
    requires forall i :: 0 <= i < |cards| ==> cards[i].id == cards[0].id + i
    ensures |cards| > 0 && cards[0].id <= id < cards[0].id + |cards| ==> Find(cards, id) == Some(cards[id - cards[0].id])
    decreases |cards|
  {
    if |cards| > 1 && cards[0].id < id {
      FindPosition(cards[1..], id);
    }
  }

  lemma FindById(cards: seq<Card>, id: nat)
    requires IdsArePositions(cards)
    requires id < |cards|
    ensures Find(cards, id) == Some(cards[id])
  {
    FindPosition(cards, id);
  }

  /** Card `id` turned face up, every other card unchanged. */
  function FlipUp(cards: seq<Card>, id: nat): (r: seq<Card>)
    ensures |r| == |cards|
    ensures forall i :: 0 <= i < |cards| ==>
      r[i] == if cards[i].id == id then cards[i].(flipped := true) else cards[i]
  {
    seq(|cards|, i requires 0 <= i < |cards| => if cards[i].id == id then cards[i].(flipped := true) else cards[i])
  }

  /** Cards `a` and `b` marked matched, every other card unchanged. */
  function SetMatched(cards: seq<Card>, a: nat, b: nat): (r: seq<Card>)
    ensures |r| == |cards|
    ensures forall i :: 0 <= i < |cards| ==>
      r[i] == if cards[i].id == a || cards[i].id == b then cards[i].(matched := true) else cards[i]
  {
    seq(|cards|, i requires 0 <= i < |cards| =>
      if cards[i].id == a || cards[i].id == b then cards[i].(matched := true) else cards[i])
  }

  /** Cards `a` and `b` turned face down, every other card unchanged. */
  function FlipDown(cards: seq<Card>, a: nat, b: nat): (r: seq<Card>)
    ensures |r| == |cards|
    ensures forall i :: 0 <= i < |cards| ==>
      r[i] == if cards[i].id == a || cards[i].id == b then cards[i].(flipped := false) else cards[i]
  {
    seq(|cards|, i requires 0 <= i < |cards| =>
      if cards[i].id == a || cards[i].id == b then cards[i].(flipped := false) else cards[i])
  }

  /** `handleCardClick`: ignored when two cards are already waiting, when
      the card is already waiting, or when it is matched; otherwise the card
      turns face up and joins the buffer. */
  function Click(s: MemoryState, id: nat): (r: MemoryState)
    ensures |s.buffer| >= 2 || id in s.buffer || IsMatchedId(s.cards, id) ==> r == s
    ensures !(|s.buffer| >= 2 || id in s.buffer || IsMatchedId(s.cards, id)) ==>
      && r.buffer == s.buffer + [id]
      && |r.cards| == |s.cards|
      && (forall i :: 0 <= i < |s.cards| && s.cards[i].id == id ==> r.cards[i] == s.cards[i].(flipped := true))
      && (forall i :: 0 <= i < |s.cards| && s.cards[i].id != id ==> r.cards[i] == s.cards[i])
      && r == s.(cards := r.cards, buffer := r.buffer)
  {
    if |s.buffer| >= 2 || id in s.buffer || IsMatchedId(s.cards, id) then s
    else s.(cards := FlipUp(s.cards, id), buffer := s.buffer + [id])
  }

  /** The pair-resolution effect, together with the delayed flip-back of a
      mismatch. It acts only on a full buffer: a match marks both cards
      matched, counts the match and, for the last pair, arms the end of the
      round; a mismatch turns both face down. Either way the buffer empties
      and one move is counted. */
  function Resolve(s: MemoryState): (r: MemoryState)
    ensures |s.buffer| != 2 ==> r == s
    ensures |s.buffer| == 2 ==>
      && r.buffer == [] && r.moves == s.moves + 1
      && |r.cards| == |s.cards|
      && (forall i :: 0 <= i < |s.cards| && s.cards[i].id != s.buffer[0] && s.cards[i].id != s.buffer[1] ==>
            r.cards[i] == s.cards[i])
      && r.timeLeft == s.timeLeft && r.active == s.active && r.score == s.score
      && r.showResult == s.showResult
    ensures |s.buffer| == 2 && SymbolAt(s.cards, s.buffer[0]) == SymbolAt(s.cards, s.buffer[1]) ==>
      && r.matches == s.matches + 1
      && (forall i :: 0 <= i < |s.cards| && s.cards[i].id in s.buffer ==> r.cards[i] == s.cards[i].(matched := true))
      && (r.endScheduled <==> s.endScheduled || r.matches == SymbolCount)
    ensures |s.buffer| == 2 && SymbolAt(s.cards, s.buffer[0]) != SymbolAt(s.cards, s.buffer[1]) ==>
      && r.matches == s.matches
      && (forall i :: 0 <= i < |s.cards| && s.cards[i].id in s.buffer ==> r.cards[i] == s.cards[i].(flipped := false))
      && r.endScheduled == s.endScheduled
  {
    if |s.buffer| != 2 then s
    else
      var first := s.buffer[0];
      var second := s.buffer[1];
      if SymbolAt(s.cards, first) == SymbolAt(s.cards, second) then
        s.(cards := SetMatched(s.cards, first, second), matches := s.matches + 1, buffer := [],
           moves := s.moves + 1, endScheduled := s.endScheduled || s.matches + 1 == SymbolCount)
      else
        s.(cards := FlipDown(s.cards, first, second), buffer := [], moves := s.moves + 1)
  }

  /** The end-of-round score: 100 per match plus 10 per second left, minus 5
      for every move beyond 16, never below zero. */
  function EndScore(matches: nat, timeLeft: int, moves: nat): (r: nat)
    ensures r >= matches * 100 + timeLeft * 10 - (if moves > FreeMoves then moves - FreeMoves else 0) * 5
    ensures r == 0 || r == matches * 100 + timeLeft * 10 - (if moves > FreeMoves then moves - FreeMoves else 0) * 5
  {
    var timeBonus := timeLeft * 10;
    var movesPenalty := (if moves > FreeMoves then moves - FreeMoves else 0) * 5;
    var matchBonus := matches * 100;
    var total := matchBonus + timeBonus - movesPenalty;
    if total > 0 then total else 0
  }

  /** Within 16 moves nothing is deducted, and the score never exceeds the
      match and time bonuses. */
  lemma EndScoreBounds(matches: nat, timeLeft: nat, moves: nat)
    ensures moves <= FreeMoves ==> EndScore(matches, timeLeft, moves) == matches * 100 + timeLeft * 10
    ensures EndScore(matches, timeLeft, moves) <= matches * 100 + timeLeft * 10
    ensures moves > FreeMoves ==> EndScore(matches, timeLeft, moves) == EndScore(matches, timeLeft, moves - 1) - 5
                                  || EndScore(matches, timeLeft, moves) == 0
  {
  }

  lemma EndScoreExamples()
    ensures EndScore(8, 0, 16) == 800
    ensures EndScore(8, 10, 20) == 880
  {
  }

  /** `endGame`: the round stops and the score of the state it ends in is
      recorded. */
  function EndGame(s: MemoryState): (r: MemoryState)
    ensures !r.active && r.showResult
    ensures r.score == EndScore(s.matches, s.timeLeft, s.moves)
    ensures r.cards == s.cards && r.buffer == s.buffer && r.matches == s.matches && r.moves == s.moves
    ensures r.timeLeft == s.timeLeft && r.endScheduled == s.endScheduled
  {
    s.(active := false, showResult := true, score := EndScore(s.matches, s.timeLeft, s.moves))
  }

  /** The `onEarnCoins` call `endGame` makes: the end score, if positive. */
  function EndReward(s: MemoryState): (r: Reward)
    ensures r.Grant? <==> EndScore(s.matches, s.timeLeft, s.moves) > 0
    ensures r.Grant? ==> r.amount == EndGame(s).score
  {
    Payout(EndScore(s.matches, s.timeLeft, s.moves))
  }

  /** One firing of the one-second interval; the last second ends the round
      with the clock at zero. */
  function Tick(s: MemoryState): (r: MemoryState)
    ensures !s.active || s.timeLeft <= 0 ==> r == s
    ensures s.active && s.timeLeft > 0 ==> r.timeLeft == s.timeLeft - 1 && (r.active <==> r.timeLeft > 0)
    ensures s.active && s.timeLeft > 1 ==> r == s.(timeLeft := s.timeLeft - 1)
    ensures s.active && s.timeLeft == 1 ==> r.showResult && r.score == EndScore(s.matches, 0, s.moves)
    ensures r.cards == s.cards && r.buffer == s.buffer && r.matches == s.matches && r.moves == s.moves
    ensures r.endScheduled == s.endScheduled
  {
    if !s.active || s.timeLeft <= 0 then s
    else if s.timeLeft <= 1 then EndGame(s.(timeLeft := 0))
    else s.(timeLeft := s.timeLeft - 1)
  }

  /** The 500 ms callback armed by the last match. */
  function Finish(s: MemoryState): (r: MemoryState)
    ensures !s.endScheduled ==> r == s
    ensures s.endScheduled ==> !r.endScheduled && !r.active && r.showResult
    ensures s.endScheduled ==> r.score == EndScore(s.matches, s.timeLeft, s.moves)
    ensures r.cards == s.cards && r.matches == s.matches && r.moves == s.moves && r.timeLeft == s.timeLeft
    ensures r.buffer == s.buffer
  {
    if s.endScheduled then EndGame(s.(endScheduled := false)) else s
  }

  /** `getEfficiency`: twice the matches per move as a percentage, rounded
      and capped at 100; 0 before the first move. */
  function Efficiency(matches: nat, moves: nat): (r: nat)
    ensures r <= 100
    ensures moves == 0 ==> r == 0
    ensures moves > 0 && r < 100 ==> (2 * r - 1) * moves <= 400 * matches < (2 * r + 1) * moves
    ensures moves > 0 && 2 * matches >= moves ==> r == 100
    ensures moves > 0 && r == 100 ==> 199 * moves <= 400 * matches
  {
    if moves == 0 then 0
    else
      var pct := RoundDiv(200 * matches, moves);
      if pct < 100 then
        PerfectRoundsToHundred(matches, moves, pct);
        pct
      else 100
  }

  /** Efficiency on a few rounds: one pair in ten moves is 20%, a perfect
      round 100%, 8 pairs in 20 moves 80%, and 2 pairs in 3 moves (133%)
      is capped at 100. */
  lemma EfficiencyExamples()
    ensures Efficiency(1, 10) == 20
    ensures Efficiency(8, 16) == 100
    ensures Efficiency(8, 20) == 80
    ensures Efficiency(2, 3) == 100
    ensures Efficiency(0, 5) == 0
  {
  }

  /** With the same number of moves, more matches never lower the
      efficiency. */
  lemma {:induction false} EfficiencyMonotone(a: nat, b: nat, moves: nat)
    requires a <= b
    ensures Efficiency(a, moves) <= Efficiency(b, moves)
  {
    var ra, rb := Efficiency(a, moves), Efficiency(b, moves);
    if moves > 0 && rb < 100 && ra > rb {
      // Both brackets put 400 a at or above (2 ra - 1) moves and 400 b
      // below (2 rb + 1) moves, which is at most (2 ra - 1) moves.
      assert (2 * ra - 1) * moves <= 400 * a;
      assert 400 * b < (2 * rb + 1) * moves;
      ScaleMonotone(2 * rb + 1, 2 * ra - 1, moves);
      assert false;
    }
  }

  lemma ScaleMonotone(x: int, y: int, m: nat)
    requires x <= y
    ensures x * m <= y * m
  {
    assert y * m - x * m == (y - x) * m;
  }

  /** A rounded percentage below 100 means fewer than one match per two moves. */
  lemma PerfectRoundsToHundred(matches: nat, moves: nat, pct: nat)
    requires moves > 0 && pct < 100
    requires 400 * matches < (2 * pct + 1) * moves
    ensures 2 * matches < moves
  {
    var k := 2 * pct + 1;
    assert k <= 199;
    assert k * moves == 199 * moves - (199 - k) * moves;
    assert (199 - k) * moves >= 0;
  }

  /** Events as the overlay delivers them: the start button is shown only
      while no round runs, the card grid only while one does. */
  predicate EventOk(e: MemoryEvent) {
    e.Deal? ==> IsShuffle(e.shuffled)
  }

  function Step(s: MemoryState, e: MemoryEvent): (r: MemoryState)
    requires EventOk(e)
    ensures e.Deal? && s.active ==> r == s
    ensures e.Deal? && !s.active ==> r.active && r.moves == 0 && r.matches == 0 && SymbolsOf(r.cards) == e.shuffled
    ensures e.Pick? && (!s.active || e.id >= |s.cards|) ==> r == s
    ensures e.Pick? && s.active && e.id < |s.cards| ==> r == Click(s, e.id)
  {
    match e
    case Deal(shuffled) => if s.active then s else Start(s, shuffled)
    case Pick(id) => if s.active && id < |s.cards| then Click(s, id) else s
    case ResolvePair => Resolve(s)
    case Second => Tick(s)
    case Deadline => Finish(s)
  }

  /** Positions of the matched cards. */
  function MatchedIds(cards: seq<Card>): set<nat> {
    set i: nat | i < |cards| && cards[i].matched
  }

  /** The dealt-deck invariant. The deck keeps its 16 cards, ids and
      symbols; at most two cards are face up and unmatched, and they are
      exactly the buffer; matched cards stay face up; the two cards of a
      symbol are matched together or not at all; matched cards come two per
      counted match, so at most 8 matches are ever counted. */
  predicate Valid(s: MemoryState) {
    && |s.cards| == DeckSize
    && IdsArePositions(s.cards)
    && multiset(SymbolsOf(s.cards)) == multiset(Pairs())
    && |s.buffer| <= 2
    && (|s.buffer| == 2 ==> s.buffer[0] != s.buffer[1])
    && (forall k :: 0 <= k < |s.buffer| ==> s.buffer[k] < DeckSize)
    && (forall i :: 0 <= i < |s.cards| ==> (s.cards[i].flipped && !s.cards[i].matched <==> i in s.buffer))
    && (forall i :: 0 <= i < |s.cards| && s.cards[i].matched ==> s.cards[i].flipped)
    && PairsAgree(s.cards)
    && |MatchedIds(s.cards)| == 2 * s.matches
    && s.matches <= SymbolCount
    && 0 <= s.timeLeft <= RoundSeconds
  }

  /** The two cards of a symbol are matched together or not at all. */
  predicate PairsAgree(cards: seq<Card>) {
    forall i, j :: 0 <= i < |cards| && 0 <= j < |cards| && cards[i].symbol == cards[j].symbol ==>
      cards[i].matched == cards[j].matched
  }

  /** A value found at the positions `at` occurs at least |at| times. */
  lemma {:induction false} OccursAtLeast(xs: seq<nat>, v: nat, at: set<nat>)
    requires forall i :: i in at ==> i < |xs| && xs[i] == v
    ensures |at| <= multiset(xs)[v]
    decreases |xs|
  {
    if |xs| == 0 {
      assert at == {};
    } else {
      var last := |xs| - 1;
      var init := xs[..last];
      assert xs == init + [xs[last]];
      OccursAtLeast(init, v, at - {last});
    }
  }

  /** In a deck with two cards per symbol, two distinct cards with the same
      symbol are the only ones with it. */
  lemma OnlyTwo(cards: seq<Card>, a: nat, b: nat, j: nat)
    requires multiset(SymbolsOf(cards)) == multiset(Pairs())
    requires a < |cards| && b < |cards| && j < |cards| && a != b
    requires cards[a].symbol == cards[b].symbol == cards[j].symbol
    ensures j == a || j == b
  {
    if j != a && j != b {
      OccursAtLeast(SymbolsOf(cards), cards[a].symbol, {a, b, j});
      PairsOccurrences(cards[a].symbol);
    }
  }

  /** A subset of the positions 0..n-1 has at most n elements. */
  lemma {:induction false} PositionsBound(a: set<nat>, n: nat)
    requires forall i :: i in a ==> i < n
    ensures |a| <= n
  {
    if n > 0 {
      PositionsBound(a - {n - 1}, n - 1);
    } else {
      assert a == {};
    }
  }

  lemma StartValid(s: MemoryState, shuffled: seq<nat>)
    requires IsShuffle(shuffled)
    ensures Valid(Start(s, shuffled))
  {
    var r := Start(s, shuffled);
    assert MatchedIds(r.cards) == {};
  }

  /** A click keeps the invariant; in particular a matched card never enters
      the buffer and the buffer never grows past two distinct ids. */
  lemma ClickValid(s: MemoryState, id: nat)
    requires Valid(s)
    requires id < |s.cards|
    ensures Valid(Click(s, id))
    ensures id in Click(s, id).buffer ==> !Click(s, id).cards[id].matched
  {
    FindById(s.cards, id);
    var r := Click(s, id);
    if r != s {
      assert SymbolsOf(r.cards) == SymbolsOf(s.cards);
      assert MatchedIds(r.cards) == MatchedIds(s.cards);
    }
  }

  /** Resolving a pair keeps the invariant: a match adds exactly two
      matched cards, so the match count never passes 8. */
  lemma ResolveValid(s: MemoryState)
    requires Valid(s)
    ensures Valid(Resolve(s))
  {
    if |s.buffer| == 2 {
      FindById(s.cards, s.buffer[0]);
      FindById(s.cards, s.buffer[1]);
      if SymbolAt(s.cards, s.buffer[0]) == SymbolAt(s.cards, s.buffer[1]) {
        ResolveMatchValid(s);
      } else {
        ResolveMismatchValid(s);
      }
    }
  }

  lemma ResolveMatchValid(s: MemoryState)
    requires Valid(s) && |s.buffer| == 2
    requires SymbolAt(s.cards, s.buffer[0]) == SymbolAt(s.cards, s.buffer[1])
    ensures Valid(Resolve(s))
  {
    FindById(s.cards, s.buffer[0]);
    FindById(s.cards, s.buffer[1]);
    MatchedStateValid(s);
  }

  /** The state a match resolves to, stated without the resolution itself. */
  lemma MatchedStateValid(s: MemoryState)
    requires Valid(s) && |s.buffer| == 2
    requires s.cards[s.buffer[0]].symbol == s.cards[s.buffer[1]].symbol
    ensures Valid(s.(cards := SetMatched(s.cards, s.buffer[0], s.buffer[1]), matches := s.matches + 1,
                     buffer := [], moves := s.moves + 1,
                     endScheduled := s.endScheduled || s.matches + 1 == SymbolCount))
  {
    var a, b := s.buffer[0], s.buffer[1];
    var cards := SetMatched(s.cards, a, b);
    assert SymbolsOf(cards) == SymbolsOf(s.cards);
    MatchAddsTwo(s.cards, a, b);
    assert forall i :: 0 <= i < |cards| ==> (cards[i].flipped && !cards[i].matched <==> false) by {
      forall i | 0 <= i < |cards|
        ensures cards[i].flipped && !cards[i].matched <==> false
      {
        assert s.cards[i].flipped && !s.cards[i].matched <==> i == a || i == b;
      }
    }
    forall i, j | 0 <= i < |cards| && 0 <= j < |cards| && cards[i].symbol == cards[j].symbol
      ensures cards[i].matched == cards[j].matched
    {
      if i == a || i == b || j == a || j == b {
        if i != a && i != b { OnlyTwo(s.cards, a, b, i); }
        if j != a && j != b { OnlyTwo(s.cards, a, b, j); }
      }
    }
    PositionsBound(MatchedIds(cards), DeckSize);
  }

  /** Marking the two buffered, unmatched cards adds exactly two matched cards. */
  lemma MatchAddsTwo(cards: seq<Card>, a: nat, b: nat)
    requires IdsArePositions(cards)
    requires a < |cards| && b < |cards| && a != b
    requires !cards[a].matched && !cards[b].matched
    ensures |MatchedIds(SetMatched(cards, a, b))| == |MatchedIds(cards)| + 2
  {
    var m := MatchedIds(cards);
    assert MatchedIds(SetMatched(cards, a, b)) == m + {a, b};
    assert a !in m && b !in m;
    assert m !! {a, b};
  }

  lemma ResolveMismatchValid(s: MemoryState)
    requires Valid(s) && |s.buffer| == 2
    requires SymbolAt(s.cards, s.buffer[0]) != SymbolAt(s.cards, s.buffer[1])
    ensures Valid(Resolve(s))
  {
    var a, b := s.buffer[0], s.buffer[1];
    var cards := FlipDown(s.cards, a, b);
    assert Resolve(s) == s.(cards := cards, buffer := [], moves := s.moves + 1);
    assert SymbolsOf(cards) == SymbolsOf(s.cards);
    assert MatchedIds(cards) == MatchedIds(s.cards);
  }

  lemma StepValid(s: MemoryState, e: MemoryEvent)
    requires EventOk(e)
    requires Valid(s)
    ensures Valid(Step(s, e))
  {
    match e
    case Deal(shuffled) => if !s.active { StartValid(s, shuffled); }
    case Pick(id) => if s.active && id < |s.cards| { ClickValid(s, id); }
    case ResolvePair => ResolveValid(s);
    case Second =>
    case Deadline =>
  }

  function Run(s: MemoryState, es: seq<MemoryEvent>): MemoryState
    requires forall k :: 0 <= k < |es| ==> EventOk(es[k])
    decreases |es|
  {
    if |es| == 0 then s else Run(Step(s, es[0]), es[1..])
  }

  /** From a dealt deck, every reachable state keeps the invariant: the
      face-up buffer never exceeds two cards, and matches never exceed 8. */
  lemma {:induction false} RunValid(s: MemoryState, es: seq<MemoryEvent>)
    requires forall k :: 0 <= k < |es| ==> EventOk(es[k])
    requires Valid(s)
    ensures Valid(Run(s, es))
    ensures |Run(s, es).buffer| <= 2 && Run(s, es).matches <= SymbolCount
    decreases |es|
  {
    if |es| > 0 {
      StepValid(s, es[0]);
      RunValid(Step(s, es[0]), es[1..]);
    }
  }

  /** Finding the 8th pair arms the end of the round. */
  lemma LastMatchSchedulesEnd(s: MemoryState)
    requires Valid(s) && |s.buffer| == 2
    requires SymbolAt(s.cards, s.buffer[0]) == SymbolAt(s.cards, s.buffer[1])
    requires s.matches == SymbolCount - 1
    ensures Resolve(s).matches == SymbolCount && Resolve(s).endScheduled
    ensures !Finish(Resolve(s)).active
  {
  }

  /** Before the first deal only the start button acts: every other event
      leaves the overlay as it was. */
  lemma InitialOnlyDeals(e: MemoryEvent)
    requires EventOk(e) && !e.Deal?
    ensures Step(Initial(), e) == Initial()
  {
  }

  /** However many events other than a deal arrive first, the overlay still
      waits on its rules screen. */
  lemma {:induction false} InitialWaitsForDeal(es: seq<MemoryEvent>)
    requires forall k :: 0 <= k < |es| ==> EventOk(es[k]) && !es[k].Deal?
    ensures Run(Initial(), es) == Initial()
    decreases |es|
  {
    if |es| > 0 {
      InitialOnlyDeals(es[0]);
      InitialWaitsForDeal(es[1..]);
    }
  }
}
