/** The quiz: 8 fixed questions with four answers each and a 15-second
    clock per question. A correct answer earns 50 points, a time bonus and a
    streak bonus; a wrong answer or a timeout breaks the streak. After each
    question a 1.5-second pause either loads the next question or ends the
    round. */
module Quiz {
  import opened Session

  /** Seconds on the clock for every question. */
  const QuestionSeconds := 15
  /** Answers offered per question. */
  const AnswerCount := 4

  datatype Question = Question(prompt: string, answers: seq<string>, correct: nat, emoji: string)

  /** The fixed question bank. */
  function Bank(): (b: seq<Question>)
    ensures |b| == 8
    ensures forall k :: 0 <= k < |b| ==> |b[k].answers| == AnswerCount && b[k].correct < AnswerCount
  {
    [ Question("Какая планета самая большая в Солнечной системе?", ["Земля", "Юпитер", "Сатурн", "Нептун"], 1, "🪐"),
      Question("Сколько континентов на Земле?", ["5", "6", "7", "8"], 2, "🌍"),
      Question("Какой язык программирования создал Гвидо ван Россум?", ["JavaScript", "Python", "Ruby", "Java"], 1, "🐍"),
      Question("В каком году основали Google?", ["1996", "1998", "2000", "2002"], 1, "🔍"),
      Question("Какая самая высокая гора в мире?", ["К2", "Эльбрус", "Эверест", "Килиманджаро"], 2, "⛰️"),
      Question("Сколько игроков в футбольной команде на поле?", ["9", "10", "11", "12"], 2, "⚽"),
      Question("Какой элемент обозначается символом Au?", ["Серебро", "Золото", "Алюминий", "Аргон"], 1, "🥇"),
      Question("Какая столица Японии?", ["Киото", "Осака", "Токио", "Нагоя"], 2, "🗾") ]
  }

  /** Index of the last question. */
  const LastQuestion := 7

  /** A callback waiting out the 1.5-second pause after a question. */
  datatype Deferred = NextQuestion | EndRound

  /** The overlay's state hooks. `timedOut` marks a question whose clock ran
      out; `scheduled` holds the pending pause callbacks in firing order. */
  datatype QuizState = QuizState(
    current: nat,
    score: int,
    selected: Option<nat>,
    timedOut: bool,
    showResult: bool,
    active: bool,
    timeLeft: int,
    streak: nat,
    totalCorrect: nat,
    scheduled: seq<Deferred>)

  /** The discrete events: the start button, a click on answer `answer`,
      one firing of the one-second interval, and the first pending pause
      callback firing. */
  datatype QuizEvent = StartRound | Choose(answer: nat) | Second | Resume

  function Initial(): QuizState {
    QuizState(0, 0, None, false, false, false, QuestionSeconds, 0, 0, [])
  }

  /** `startGame`. Pending pause callbacks are not cancelled. */
  function Start(s: QuizState): (r: QuizState)
    ensures r.current == 0 && r.score == 0 && r.selected == None && r.streak == 0 && r.totalCorrect == 0
    ensures r.active && !r.showResult && r.timeLeft == QuestionSeconds && !Closed(r)
    ensures r.scheduled == s.scheduled
  {
    QuizState(0, 0, None, false, false, true, QuestionSeconds, 0, 0, s.scheduled)
  }

  /** Points for a correct answer: 50, plus a third of the seconds left
      (rounded down), plus 10 per answer of the current streak. */
  function Points(timeLeft: int, streak: nat): (p: int)
    ensures 3 * (p - 50 - 10 * streak) <= timeLeft < 3 * (p - 50 - 10 * streak) + 3
  {
    var timeBonus := timeLeft / 3;
    var streakBonus := streak * 10;
    50 + timeBonus + streakBonus
  }

  lemma PointsExamples()
    ensures Points(QuestionSeconds, 0) == 55
    ensures forall t: nat, k: nat :: t <= QuestionSeconds ==> 50 + 10 * k <= Points(t, k) <= 55 + 10 * k
  {
  }

  /** A question is closed once it has been answered or has timed out. */
  predicate Closed(s: QuizState) {
    s.selected.Some? || s.timedOut
  }

  /** The scoring part of `handleAnswer`: record the selection, score a
      correct answer or break the streak on a wrong one, and schedule what
      follows the pause. */
  function Scored(s: QuizState, answer: nat): (r: QuizState)
    requires s.current < |Bank()|
  {
    var next := if s.current < |Bank()| - 1 then NextQuestion else EndRound;
    if answer == Bank()[s.current].correct then
      s.(selected := Some(answer), score := s.score + Points(s.timeLeft, s.streak),
         streak := s.streak + 1, totalCorrect := s.totalCorrect + 1, scheduled := s.scheduled + [next])
    else
      s.(selected := Some(answer), streak := 0, scheduled := s.scheduled + [next])
  }

  /** `handleAnswer` as written: the only guard is an existing selection. */
  function AnswerAsWritten(s: QuizState, answer: nat): (r: QuizState)
    requires s.current < |Bank()|
    ensures s.selected.Some? ==> r == s
    ensures s.selected.None? ==> r.selected == Some(answer) && |r.scheduled| == |s.scheduled| + 1
  {
    if s.selected.Some? then s else Scored(s, answer)
  }

  /** `handleAnswer` with a closed question rejected: an answer is scored
      at most once per question, and neither after its timeout. A correct
      answer adds its points and extends the streak; a wrong one breaks the
      streak and scores nothing. */
  function Answer(s: QuizState, answer: nat): (r: QuizState)
    requires s.current < |Bank()|
    ensures Closed(s) ==> r == s
    ensures !Closed(s) ==> r.selected == Some(answer) && Closed(r) && r.current == s.current
    ensures !Closed(s) && answer == Bank()[s.current].correct ==>
      && r.score == s.score + Points(s.timeLeft, s.streak)
      && r.streak == s.streak + 1 && r.totalCorrect == s.totalCorrect + 1
    ensures !Closed(s) && answer != Bank()[s.current].correct ==>
      r.score == s.score && r.streak == 0 && r.totalCorrect == s.totalCorrect
    ensures !Closed(s) ==>
      r.scheduled == s.scheduled + [if s.current < LastQuestion then NextQuestion else EndRound]
    ensures !Closed(s) ==>
      r == s.(selected := r.selected, score := r.score, streak := r.streak,
               totalCorrect := r.totalCorrect, scheduled := r.scheduled)
  {
    if Closed(s) then s else Scored(s, answer)
  }

  /** `endGame`: the round stops. */
  function EndGame(s: QuizState): (r: QuizState)
    ensures !r.active && r.showResult
    ensures r.score == s.score && r.current == s.current && r.scheduled == s.scheduled
    ensures r.streak == s.streak && r.totalCorrect == s.totalCorrect && r.selected == s.selected
      && r.timedOut == s.timedOut && r.timeLeft == s.timeLeft
  {
    s.(active := false, showResult := true)
  }

  /** The `onEarnCoins` call `endGame` makes: the score, if positive. */
  function EndReward(s: QuizState): (r: Reward)
    ensures r.Grant? <==> s.score > 0
    ensures r.Grant? ==> r.amount == s.score
  {
    Payout(s.score)
  }

  /** `handleTimeout`: the streak breaks and the question closes; the next
      question follows the pause, or after the last question the round ends
      at once. */
  function Timeout(s: QuizState): (r: QuizState)
    ensures r.streak == 0 && r.timedOut && Closed(r)
    ensures r.score == s.score && r.totalCorrect == s.totalCorrect && r.current == s.current
    ensures r.selected == s.selected && r.timeLeft == s.timeLeft
    ensures s.current < LastQuestion ==>
      r.scheduled == s.scheduled + [NextQuestion] && r.active == s.active && r.showResult == s.showResult
    ensures s.current >= LastQuestion ==> r.scheduled == s.scheduled && !r.active && r.showResult
  {
    var s1 := s.(streak := 0, timedOut := true);
    if s.current < |Bank()| - 1 then s1.(scheduled := s.scheduled + [NextQuestion])
    else EndGame(s1)
  }

  /** One firing of the one-second interval. The clock runs only during an
      active round with time left on an open question; its last second times
      the question out and resets the clock to 15. */
  function Tick(s: QuizState): (r: QuizState)
    ensures !s.active || s.timeLeft <= 0 || Closed(s) ==> r == s
    ensures s.active && s.timeLeft > 1 && !Closed(s) ==> r == s.(timeLeft := s.timeLeft - 1)
    ensures s.active && s.timeLeft == 1 && !Closed(s) ==>
      && r.streak == 0 && Closed(r) && r.timeLeft == QuestionSeconds && r.score == s.score
      && r.current == s.current && r.totalCorrect == s.totalCorrect && r.selected == s.selected
      && (s.current < LastQuestion ==> r.active && r.showResult == s.showResult && r.scheduled == s.scheduled + [NextQuestion])
      && (s.current >= LastQuestion ==> !r.active && r.showResult && r.scheduled == s.scheduled)
  {
    if !s.active || s.timeLeft <= 0 || Closed(s) then s
    else if s.timeLeft <= 1 then Timeout(s).(timeLeft := QuestionSeconds)
    else s.(timeLeft := s.timeLeft - 1)
  }

  /** The first pending pause callback fires: either the next question is
      loaded, open and with a full clock, or the round ends. */
  function Resume(s: QuizState): (r: QuizState)
    ensures s.scheduled == [] ==> r == s
    ensures s.scheduled != [] ==> r.scheduled == s.scheduled[1..]
    ensures s.scheduled != [] && s.scheduled[0] == NextQuestion ==>
      && r.current == s.current + 1 && r.selected == None && !Closed(r)
      && r.timeLeft == QuestionSeconds && r.score == s.score && r.streak == s.streak
      && r.totalCorrect == s.totalCorrect && r.active == s.active && r.showResult == s.showResult
    ensures s.scheduled != [] && s.scheduled[0] == EndRound ==>
      && !r.active && r.showResult && r.score == s.score
      && r.current == s.current && r.totalCorrect == s.totalCorrect && r.streak == s.streak
      && r.selected == s.selected && r.timedOut == s.timedOut && r.timeLeft == s.timeLeft
  {
    if s.scheduled == [] then s
    else
      match s.scheduled[0]
      case NextQuestion =>
        s.(current := s.current + 1, selected := None, timedOut := false,
           timeLeft := QuestionSeconds, scheduled := s.scheduled[1..])
      case EndRound => EndGame(s.(scheduled := s.scheduled[1..]))
  }

  /** `getAccuracy`: the share of correct answers as a rounded percentage. */
  function Accuracy(totalCorrect: nat): (r: nat)
    ensures (2 * r - 1) * |Bank()| <= 200 * totalCorrect < (2 * r + 1) * |Bank()|
    ensures totalCorrect <= |Bank()| ==> r <= 100
  {
    RoundDiv(100 * totalCorrect, |Bank()|)
  }

  /** Events as the overlay delivers them: the start button only while no
      round runs, the four answer buttons of the current question only while
      one does. */
  function Step(s: QuizState, e: QuizEvent): (r: QuizState)
    ensures e == StartRound && s.active ==> r == s
    ensures e == StartRound && !s.active ==> r.active && r.current == 0 && r.score == 0 && !Closed(r)
    ensures e.Choose? && (!s.active || s.current >= |Bank()| || e.answer >= AnswerCount) ==> r == s
    ensures e.Choose? && s.active && s.current < |Bank()| && e.answer < AnswerCount ==> r == Answer(s, e.answer)
  {
    match e
    case StartRound => if s.active then s else Start(s)
    case Choose(answer) =>
      if s.active && s.current < |Bank()| && answer < AnswerCount then Answer(s, answer) else s
    case Second => Tick(s)
    case Resume => Resume(s)
  }

  function Run(s: QuizState, es: seq<QuizEvent>): QuizState
    decreases |es|
  {
    if |es| == 0 then s else Run(Step(s, es[0]), es[1..])
  }

  /** The round invariant: the current question is in the bank; an open
      question has nothing pending, a closed one at most one callback, which
      fits the question; correct answers never outrun the questions seen,
      and the streak never outruns the correct answers. */
  predicate Valid(s: QuizState) {
    && s.current <= LastQuestion
    && 0 <= s.timeLeft <= QuestionSeconds
    && s.score >= 0
    && s.streak <= s.totalCorrect
    && s.totalCorrect + (if Closed(s) then 0 else 1) <= s.current + 1
    && |s.scheduled| <= 1
    && (!Closed(s) || !s.active ==> s.scheduled == [])
    && (s.scheduled == [NextQuestion] ==> s.current < LastQuestion)
    && (s.scheduled == [EndRound] ==> s.current == LastQuestion)
  }

  lemma InitialValid()
    ensures Valid(Initial())
  {
  }

  lemma StepValid(s: QuizState, e: QuizEvent)
    requires Valid(s)
    ensures Valid(Step(s, e))
  {
    match e
    case StartRound =>
    case Choose(answer) =>
      if s.active && s.current < |Bank()| && answer < AnswerCount && !Closed(s) {
        assert [] + [if s.current < LastQuestion then NextQuestion else EndRound]
            == [if s.current < LastQuestion then NextQuestion else EndRound];
      }
    case Second =>
      if s.active && s.timeLeft == 1 && !Closed(s) {
        assert [] + [NextQuestion] == [NextQuestion];
      }
    case Resume =>
  }

  /** Every reachable state keeps the invariant; so the streak never
      exceeds the correct answers, which never exceed 8, and the accuracy
      stays within [0, 100]. */
  lemma {:induction false} RunValid(s: QuizState, es: seq<QuizEvent>)
    requires Valid(s)
    ensures Valid(Run(s, es))
    ensures Run(s, es).streak <= Run(s, es).totalCorrect <= |Bank()|
    ensures Accuracy(Run(s, es).totalCorrect) <= 100
    decreases |es|
  {
    if |es| > 0 {
      StepValid(s, es[0]);
      RunValid(Step(s, es[0]), es[1..]);
    }
  }

  /** Once an answer is scored, further answers to the same question change
      nothing, and neither do answers after a timeout. */
  lemma OneScoredActionPerQuestion(s: QuizState, first: nat, second: nat)
    requires s.current < |Bank()|
    ensures Answer(Answer(s, first), second) == Answer(s, first)
    ensures s.active && s.timeLeft == 1 && !Closed(s) ==> Answer(Tick(s), second) == Tick(s)
  {
  }

  /** A correct answer with the full clock and no streak earns 55 points and
      starts a streak of 1. */
  lemma FirstCorrectAnswer(s: QuizState)
    requires s.current < |Bank()| && !Closed(s)
    requires s.timeLeft == QuestionSeconds && s.streak == 0
    ensures Answer(s, Bank()[s.current].correct).score == s.score + 55
    ensures Answer(s, Bank()[s.current].correct).streak == 1
  {
  }

  /** As written, a timeout leaves the selection empty during the pause, so
      an answer is still scored and schedules a second advance: from the
      seventh question the round advances twice, past the end of the bank. */
  lemma AnswerAfterTimeoutSkipsQuestion()
    ensures var s0 := QuizState(6, 0, None, false, false, true, 1, 0, 0, []);
            var s1 := Tick(s0);
            var s2 := AnswerAsWritten(s1, Bank()[6].correct);
            && Valid(s0) && s1.scheduled == [NextQuestion]
            && s2.score == 55 && s2.scheduled == [NextQuestion, NextQuestion]
            && Resume(Resume(s2)).current == |Bank()|
            && Answer(s1, Bank()[6].correct) == s1
  {
  }
}
