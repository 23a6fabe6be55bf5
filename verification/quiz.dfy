/**
 The quiz: starting a game, answering a round, and the two delayed
 callbacks, as pure functions over the game state. A delayed callback is a
 `Timer` value carrying what the callback captured when it was scheduled;
 its firing is an explicit event. `App` pairs the game state with the timer
 still pending and accepts only the inputs the screen offers.
 */
module Quiz {
  import opened Types
  import opened Constants

  /** The message shown after a wrong answer. */
  const RETRY_MESSAGE: string := "לא בדיוק. שימו לב לקצב הלב - האם הוא מתאים לפעילות זו בשעה זו?"

  /** Points for a correct answer, and the penalty for a wrong one. */
  const REWARD: int := 10
  const PENALTY: int := 5

  /** The state the application starts in. */
  const INITIAL_STATE: GameState := GameState(0, 0, Intro, Feedback(false, false, ""))

  /** A delayed callback: the switch to play after the "get ready" screen, or the
      resolution of an answer, which captured whether the answer was correct and
      the round it was given in. */
  datatype Timer = ReadyTimer | FeedbackTimer(isCorrect: bool, roundAtChoice: int)

  /** A new game: back to round 0 with no points, on the "get ready" screen.
      The feedback record is left as it was. A `ReadyTimer` is scheduled. */
  function StartGame(s: GameState): (r: GameState)
    ensures r.score == 0 && r.currentRoundIndex == 0 && r.phase == Ready
    ensures r.feedback == s.feedback
  {
    s.(phase := Ready, currentRoundIndex := 0, score := 0)
  }

  /** The fact for an activity, or the empty string if it has none. */
  function FactFor(a: ActivityLevel): (fact: string)
    ensures a in SCIENTIFIC_FACTS ==> fact == SCIENTIFIC_FACTS[a]
    ensures |fact| > 0
  {
    FactsCoverEveryActivity();
    if a in SCIENTIFIC_FACTS && SCIENTIFIC_FACTS[a] != "" then SCIENTIFIC_FACTS[a] else ""
  }

  /** The score after an answer; a wrong answer never takes it below zero. */
  function Scored(score: int, isCorrect: bool): (r: int)
    ensures isCorrect ==> r == score + REWARD
    ensures !isCorrect ==> (r == 0 || r == score - PENALTY) && 0 <= r && score - PENALTY <= r
    ensures 0 <= score ==> 0 <= r
  {
    if isCorrect then score + REWARD else Max(0, score - PENALTY)
  }

  function Max(a: int, b: int): int {
    if a < b then b else a
  }

  /** An answer. It is ignored while feedback is showing; otherwise it is judged
      against the current round's activity, scored, and its feedback shown, and a
      `FeedbackTimer` is scheduled. Looking up the current round requires it to
      be an index of the schedule. */
  function HandleChoice(s: GameState, choice: ActivityLevel): (r: (GameState, Option<Timer>))
    requires 0 <= s.currentRoundIndex < |DAILY_SCHEDULE|
    ensures s.feedback.show ==> r == (s, None)
    ensures !s.feedback.show ==>
      var expected := DAILY_SCHEDULE[s.currentRoundIndex].activity;
      var (g, t) := r;
      && g.feedback.show
      && (g.feedback.isCorrect <==> choice == expected)
      && g.feedback.message == (if choice == expected then SCIENTIFIC_FACTS[expected] else RETRY_MESSAGE)
      && g.score == Scored(s.score, choice == expected)
      && g.currentRoundIndex == s.currentRoundIndex && g.phase == s.phase
      && t == Some(FeedbackTimer(choice == expected, s.currentRoundIndex))
  {
    if s.feedback.show then (s, None)
    else
      var expected := DAILY_SCHEDULE[s.currentRoundIndex].activity;
      var isCorrect := choice == expected;
      var fact := FactFor(expected);
      var message := if isCorrect then fact else RETRY_MESSAGE;
      var g := s.(score := Scored(s.score, isCorrect), feedback := Feedback(true, isCorrect, message));
      (g, Some(FeedbackTimer(isCorrect, s.currentRoundIndex)))
  }

  /** The resolution of an answer, from the values captured when it was given.
      Feedback is hidden in every case; a correct answer on the last round ends
      the game, a correct answer on any other round moves to the next round, and
      a wrong answer changes nothing else. */
  function Resolve(prev: GameState, isCorrect: bool, roundAtChoice: int): (r: GameState)
    ensures !r.feedback.show
    ensures r.score == prev.score
    ensures r.feedback.isCorrect == prev.feedback.isCorrect && r.feedback.message == prev.feedback.message
    ensures isCorrect && roundAtChoice >= MAX_ROUNDS - 1 ==>
      r.phase == Finished && r.currentRoundIndex == prev.currentRoundIndex
    ensures isCorrect && roundAtChoice < MAX_ROUNDS - 1 ==>
      r.phase == prev.phase && r.currentRoundIndex == prev.currentRoundIndex + 1
    ensures !isCorrect ==> r.phase == prev.phase && r.currentRoundIndex == prev.currentRoundIndex
  {
    var hidden := prev.feedback.(show := false);
    if roundAtChoice >= MAX_ROUNDS - 1 && isCorrect then prev.(phase := Finished, feedback := hidden)
    else if isCorrect then prev.(currentRoundIndex := prev.currentRoundIndex + 1, feedback := hidden)
    else prev.(feedback := hidden)
  }

  /** A timer firing runs its callback on the state of that moment. */
  function Fire(s: GameState, t: Timer): (r: GameState)
    ensures t == ReadyTimer ==>
      r.phase == Playing && r.score == s.score && r.currentRoundIndex == s.currentRoundIndex
      && r.feedback == s.feedback
    ensures t.FeedbackTimer? ==> !r.feedback.show && r.score == s.score
    ensures t.FeedbackTimer? ==> r == Resolve(s, t.isCorrect, t.roundAtChoice)
  {
    match t
    case ReadyTimer => s.(phase := Playing)
    case FeedbackTimer(isCorrect, roundAtChoice) => Resolve(s, isCorrect, roundAtChoice)
  }

  /** Starting a game and then letting the "get ready" timer fire leads to play
      from round 0 with no points, the feedback record untouched. */
  lemma StartGameThenPlay(s: GameState)
    ensures var r := Fire(StartGame(s), ReadyTimer);
      r.phase == Playing && r.score == 0 && r.currentRoundIndex == 0 && r.feedback == s.feedback
  {
  }

  /** Only the resolution of a correct answer given on the last round finishes a game. */
  lemma FinishOnlyOnLastCorrect(s: GameState, t: Timer)
    requires s.phase != Finished && Fire(s, t).phase == Finished
    ensures t.FeedbackTimer? && t.isCorrect && t.roundAtChoice >= MAX_ROUNDS - 1
  {
  }

  // The application: game state plus the pending timer

  /** What the user or the clock can do: press the start button, press an
      answer button, or let the pending timer fire. */
  datatype Input = ClickStart | ClickChoice(choice: ActivityLevel) | TimerElapses

  datatype App = App(state: GameState, pending: Option<Timer>)

  const INITIAL_APP: App := App(INITIAL_STATE, None)

  /** The start button is on the intro and final screens only; the answer
      buttons are on the playing screen only. */
  function Offered(s: GameState, i: Input): (r: bool)
    ensures s.phase == Intro || s.phase == Finished ==> (r <==> !i.ClickChoice?)
    ensures s.phase == Ready ==> (r <==> i == TimerElapses)
    ensures s.phase == Playing ==> (r <==> i != ClickStart)
  {
    match i
    case ClickStart => s.phase == Intro || s.phase == Finished
    case ClickChoice(_) => s.phase == Playing
    case TimerElapses => true
  }

  /** The effect of one input. An input the screen does not offer, and a tick
      with no timer pending, change nothing. */
  function AppStep(a: App, i: Input): (r: App)
    requires 0 <= a.state.currentRoundIndex < |DAILY_SCHEDULE|
    ensures !Offered(a.state, i) ==> r == a
    ensures i == TimerElapses && a.pending.None? ==> r == a
    ensures i == TimerElapses && a.pending.Some? ==>
      r.pending.None? && r.state == Fire(a.state, a.pending.value)
    ensures Offered(a.state, i) && i == ClickStart ==>
      r.state == StartGame(a.state) && r.pending == Some(ReadyTimer)
    ensures Offered(a.state, i) && i.ClickChoice? && a.state.feedback.show ==> r == a
    ensures Offered(a.state, i) && i.ClickChoice? && !a.state.feedback.show ==>
      r.state == HandleChoice(a.state, i.choice).0
      && r.pending == Some(FeedbackTimer(r.state.feedback.isCorrect, a.state.currentRoundIndex))
  {
    if !Offered(a.state, i) then a
    else match i
      case ClickStart => App(StartGame(a.state), Some(ReadyTimer))
      case ClickChoice(choice) =>
        var (g, t) := HandleChoice(a.state, choice);
        App(g, if t.Some? then t else a.pending)
      case TimerElapses =>
        if a.pending.None? then a else App(Fire(a.state, a.pending.value), None)
  }

  /** The states the application can be in. The round indexes the schedule,
      the score is a non-negative multiple of five, and the pending timer
      matches the screen: a `ReadyTimer` exactly on the "get ready" screen, a
      `FeedbackTimer` exactly while feedback shows, having captured the current
      round and the shown verdict. */
  ghost predicate Inv(a: App) {
    && 0 <= a.state.currentRoundIndex <= MAX_ROUNDS - 1
    && 0 <= a.state.score && a.state.score % PENALTY == 0
    && match a.pending
       case None => a.state.phase != Ready && !a.state.feedback.show
       case Some(ReadyTimer) => a.state.phase == Ready && !a.state.feedback.show
       case Some(FeedbackTimer(isCorrect, roundAtChoice)) =>
         && a.state.phase == Playing && a.state.feedback.show
         && isCorrect == a.state.feedback.isCorrect
         && roundAtChoice == a.state.currentRoundIndex
  }

  /** A timer is scheduled by the inputs that produce one. */
  predicate Schedules(a: App, i: Input) {
    && Offered(a.state, i)
    && (i.ClickStart? || (i.ClickChoice? && !a.state.feedback.show))
  }

  lemma InitialAppValid()
    ensures Inv(INITIAL_APP)
    ensures INITIAL_APP.state.phase == Intro && INITIAL_APP.state.score == 0
  {
  }

  /** Every step keeps the invariant; in particular the current round always
      indexes the schedule. A timer is only ever scheduled when none is pending,
      so one pending slot describes every moment of the application. */
  lemma AppStepPreservesInv(a: App, i: Input)
    requires Inv(a)
    ensures 0 <= a.state.currentRoundIndex < |DAILY_SCHEDULE|
    ensures Inv(AppStep(a, i))
    ensures Schedules(a, i) ==> a.pending.None?
  {
  }

  /** Outside a restart, the round changes only by moving to the next one, and
      only when the resolution of a correct answer fires. */
  lemma RoundAdvancesOnlyOnCorrect(a: App, i: Input)
    requires Inv(a) && i != ClickStart
    ensures 0 <= a.state.currentRoundIndex < |DAILY_SCHEDULE|
    ensures var r := AppStep(a, i).state.currentRoundIndex;
      r == a.state.currentRoundIndex
      || (r == a.state.currentRoundIndex + 1 && i == TimerElapses
          && a.pending == Some(FeedbackTimer(true, a.state.currentRoundIndex)))
  {
  }

  /** The game ends only when the resolution of a correct answer given on the
      last round fires. */
  lemma AppFinishesOnlyOnLastCorrect(a: App, i: Input)
    requires Inv(a) && a.state.phase != Finished
    requires 0 <= a.state.currentRoundIndex < |DAILY_SCHEDULE|
    requires AppStep(a, i).state.phase == Finished
    ensures i == TimerElapses
    ensures a.pending == Some(FeedbackTimer(true, MAX_ROUNDS - 1))
    ensures a.state.currentRoundIndex == MAX_ROUNDS - 1
  {
  }

  /** The application after a sequence of inputs, one step at a time. Every
      state reached from a valid one is valid. */
  function Run(a: App, inputs: seq<Input>): (r: App)
    requires Inv(a)
    ensures Inv(r)
    decreases |inputs|
  {
    if inputs == [] then a
    else
      AppStepPreservesInv(a, inputs[0]);
      Run(AppStep(a, inputs[0]), inputs[1..])
  }

  /** Running inputs one after another is running them all at once; so the
      state after every prefix of a session is a `Run` from the start. */
  lemma {:induction false} RunAppend(a: App, inputs: seq<Input>, i: Input)
    requires Inv(a)
    ensures 0 <= Run(a, inputs).state.currentRoundIndex < |DAILY_SCHEDULE|
    ensures Run(a, inputs + [i]) == AppStep(Run(a, inputs), i)
    decreases |inputs|
  {
    AppStepPreservesInv(Run(a, inputs), i);
    if inputs == [] {
      assert inputs + [i] == [i];
    } else {
      AppStepPreservesInv(a, inputs[0]);
      assert (inputs + [i])[0] == inputs[0] && (inputs + [i])[1..] == inputs[1..] + [i];
      RunAppend(AppStep(a, inputs[0]), inputs[1..], i);
    }
  }

  /** Every state reachable from the initial one satisfies the invariant. */
  lemma ReachableStatesValid(inputs: seq<Input>)
    ensures Inv(Run(INITIAL_APP, inputs))
    ensures forall k :: 0 <= k <= |inputs| ==> Inv(Run(INITIAL_APP, inputs[..k]))
  {
  }

  /** A whole session of inputs from the initial state. Every state passed
      through satisfies the invariant, so no lookup of the current round is
      ever out of bounds and the score never goes negative. */
  method Play(inputs: seq<Input>) returns (a: App)
    ensures a == Run(INITIAL_APP, inputs)
    ensures 0 <= a.state.currentRoundIndex < |DAILY_SCHEDULE|
    ensures 0 <= a.state.score && a.state.score % PENALTY == 0
    ensures a.state.feedback.show <==> a.pending.Some? && a.pending.value.FeedbackTimer?
  {
    a := INITIAL_APP;
    ScheduleHasOneEventPerRound();
    var k := 0;
    while k < |inputs|
      invariant 0 <= k <= |inputs|
      invariant Inv(a)
      invariant a == Run(INITIAL_APP, inputs[..k])
    {
      AppStepPreservesInv(a, inputs[k]);
      RunAppend(INITIAL_APP, inputs[..k], inputs[k]);
      assert inputs[..k + 1] == inputs[..k] + [inputs[k]];
      a := AppStep(a, inputs[k]);
      k := k + 1;
    }
    assert inputs[..k] == inputs;
  }
}
