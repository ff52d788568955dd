/**
 * The game session of the "Guess the Number" screen: a secret target in
 * [1, 100], the text of the input box, an attempt counter, the won flag
 * (`showCongrats`), the guess history (most recent first) and the best score
 * of the session, which survives a new round.
 *
 * The pure functions on `State` are the specification of each handler: a
 * handler's new state is the function of its old state. The class `Session`
 * holds the same fields and updates them in place, as the screen does.
 */
module GuessingGame {
  import opened JsParseInt

  const MinTarget: int := 1
  const MaxTarget: int := 100

  /** A secret number as the random draw of a new round produces it. */
  type Draw = t: int | MinTarget <= t <= MaxTarget witness MinTarget

  /** The message shown above the input box. */
  datatype Feedback = Prompt | NotANumber | TooLow | TooHigh | Win

  /** One line of the guess history: the raw text when it did not parse,
      otherwise the parsed number and how it compares with the target. */
  datatype Entry = Invalid(raw: string) | Low(n: int) | High(n: int) | Correct(n: int)

  function FeedbackOf(e: Entry): (f: Feedback) {
    match e
    case Invalid(_) => NotANumber
    case Low(_) => TooLow
    case High(_) => TooHigh
    case Correct(_) => Win
  }

  datatype State = State(
    target: int,
    guess: string,
    feedback: Feedback,
    attempts: nat,
    showCongrats: bool,
    guessHistory: seq<Entry>,
    bestScore: Option<nat>)

  /** The values the screen holds before its first round is drawn. */
  function Initial(): (s: State) {
    State(0, "", Prompt, 0, false, [], None)
  }

  /** An entry is truthful about the target it was judged against. */
  predicate Agrees(e: Entry, target: int) {
    match e
    case Invalid(_) => true
    case Low(n) => n < target
    case High(n) => n > target
    case Correct(n) => n == target
  }

  /** The number of entries in `h` that hold a parsed number. */
  function CountParsed(h: seq<Entry>): (count: nat) {
    if h == [] then 0 else (if h[0].Invalid? then 0 else 1) + CountParsed(h[1..])
  }

  predicate AnyCorrect(h: seq<Entry>) {
    h != [] && (h[0].Correct? || AnyCorrect(h[1..]))
  }

  /** `now` is no worse a best score than `before`. */
  predicate BestNoWorse(now: Option<nat>, before: Option<nat>) {
    before.Some? ==> now.Some? && now.value <= before.value
  }

  /** The best score after winning in `attempts` attempts. */
  function BestAfterWin(best: Option<nat>, attempts: nat): (b: nat) {
    match best
    case None => attempts
    case Some(b) => if b < attempts then b else attempts
  }

  /** What holds of every session from its first round on. */
  predicate Consistent(s: State) {
    && MinTarget <= s.target <= MaxTarget
    && s.attempts == CountParsed(s.guessHistory)
    && (forall e :: e in s.guessHistory ==> Agrees(e, s.target))
    && (s.showCongrats <==> AnyCorrect(s.guessHistory))
    && s.feedback == (if s.guessHistory == [] then Prompt else FeedbackOf(s.guessHistory[0]))
    && (s.showCongrats ==> s.bestScore.Some? && s.bestScore.value <= s.attempts)
    && BestPossible(s.bestScore)
  }

  /** No round is won in fewer than one attempt. */
  predicate BestPossible(best: Option<nat>) {
    best.Some? ==> best.value >= 1
  }

  /** The comparison of a parsed guess with the target. */
  function Judge(n: int, target: int): (e: Entry)
    ensures !e.Invalid? && e.n == n
    ensures Agrees(e, target)
  {
    if n == target then Correct(n)
    else if n < target then Low(n)
    else High(n)
  }

  /** resetGame: a new round with target `t`. */
  function AfterReset(s: State, t: Draw): (r: State)
    ensures BestPossible(s.bestScore) ==> Consistent(r)
    ensures r.target == t && r.attempts == 0 && r.guessHistory == []
    ensures r.guess == "" && !r.showCongrats && r.feedback == Prompt
    ensures r.bestScore == s.bestScore
  {
    s.(target := t, attempts := 0, guess := "", feedback := Prompt,
       showCongrats := false, guessHistory := [])
  }

  /** handleGuess once the text of the box has been read: `num` is what
      parseInt made of it, `None` for NaN. */
  function Submit(s: State, num: Option<int>): (r: State)
    ensures |r.guessHistory| == |s.guessHistory| + 1 && r.guessHistory[1..] == s.guessHistory
    ensures r.feedback == FeedbackOf(r.guessHistory[0])
    ensures r.target == s.target
    ensures BestNoWorse(r.bestScore, s.bestScore)
    ensures num.None? ==>
              r == s.(feedback := NotANumber, guessHistory := [Invalid(s.guess)] + s.guessHistory)
    ensures num.Some? ==>
              && r.guessHistory[0] == Judge(num.value, s.target)
              && r.attempts == s.attempts + 1
              && r.guess == ""
    ensures r.showCongrats <==> s.showCongrats || r.guessHistory[0].Correct?
    ensures r.guessHistory[0].Correct? ==> r.bestScore == Some(BestAfterWin(s.bestScore, r.attempts))
    ensures !r.guessHistory[0].Correct? ==> r.bestScore == s.bestScore
  {
    match num
    case None =>
      s.(feedback := NotANumber, guessHistory := [Invalid(s.guess)] + s.guessHistory)
    case Some(n) =>
      var attempts := s.attempts + 1;
      var e := Judge(n, s.target);
      var judged := s.(attempts := attempts, feedback := FeedbackOf(e),
                       guessHistory := [e] + s.guessHistory, guess := "");
      if e.Correct? then
        judged.(showCongrats := true,
                bestScore := if s.bestScore == None || attempts < s.bestScore.value
                             then Some(attempts) else s.bestScore)
      else judged
  }

  /** handleGuess: one submission of the text in the input box. */
  function AfterGuess(s: State): (r: State) {
    Submit(s, ParseIntPrefix(s.guess))
  }

  /** isGuessDisabled: the Guess button is off while the box is empty or the round is won. */
  predicate GuessDisabled(s: State) {
    s.guess == "" || s.showCongrats
  }

  lemma SubmitKeepsConsistent(s: State, num: Option<int>)
    requires Consistent(s)
    ensures Consistent(Submit(s, num))
  {
    var r := Submit(s, num);
    var e := r.guessHistory[0];
    assert r.guessHistory == [e] + s.guessHistory;
    assert CountParsed(r.guessHistory) == (if e.Invalid? then 0 else 1) + CountParsed(s.guessHistory);
    assert AnyCorrect(r.guessHistory) == (e.Correct? || AnyCorrect(s.guessHistory));
  }

  /** What the user can do on the screen, with the widgets' own guards. */
  datatype Event =
    | TypeText(text: string)   // onChangeText, only while the box is editable
    | PressGuess               // the Guess button, unless it is disabled
    | SubmitKey                // the keyboard's done key, only while the box is editable
    | PlayAgain(draw: Draw)    // the Play Again button, shown only once the round is won

  function OnEvent(s: State, ev: Event): (r: State) {
    match ev
    case TypeText(text) => if s.showCongrats then s else s.(guess := text)
    case PressGuess => if GuessDisabled(s) then s else AfterGuess(s)
    case SubmitKey => if s.showCongrats then s else AfterGuess(s)
    case PlayAgain(t) => if s.showCongrats then AfterReset(s, t) else s
  }

  /** The state after a sequence of user actions, first action first. */
  function Run(s: State, evs: seq<Event>): (r: State)
    decreases |evs|
  {
    if evs == [] then s else Run(OnEvent(s, evs[0]), evs[1..])
  }

  predicate NoNewRound(evs: seq<Event>) {
    forall i :: 0 <= i < |evs| ==> !evs[i].PlayAgain?
  }

  /** Every reachable session is consistent. */
  lemma {:induction false} RunKeepsConsistent(s: State, evs: seq<Event>)
    requires Consistent(s)
    ensures Consistent(Run(s, evs))
    decreases |evs|
  {
    if evs != [] {
      assert BestPossible(s.bestScore);
      if evs[0].PressGuess? || evs[0].SubmitKey? {
        SubmitKeepsConsistent(s, ParseIntPrefix(s.guess));
      }
      RunKeepsConsistent(OnEvent(s, evs[0]), evs[1..]);
    }
  }

  /** The best score never gets worse, across rounds too. */
  lemma {:induction false} RunBestNeverWorse(s: State, evs: seq<Event>)
    ensures BestNoWorse(Run(s, evs).bestScore, s.bestScore)
    decreases |evs|
  {
    if evs != [] {
      var next := OnEvent(s, evs[0]);
      RunBestNeverWorse(next, evs[1..]);
    }
  }

  /** Within a round the target stays, the history only grows at the front,
      the attempts never go down and a win is kept. */
  lemma {:induction false} RunWithinRound(s: State, evs: seq<Event>)
    requires NoNewRound(evs)
    ensures Run(s, evs).target == s.target
    ensures |Run(s, evs).guessHistory| >= |s.guessHistory|
    ensures Run(s, evs).guessHistory[|Run(s, evs).guessHistory| - |s.guessHistory|..] == s.guessHistory
    ensures Run(s, evs).attempts >= s.attempts
    ensures s.showCongrats ==> Run(s, evs).showCongrats
    decreases |evs|
  {
    if evs != [] {
      var next := OnEvent(s, evs[0]);
      assert next.target == s.target && next.attempts >= s.attempts;
      assert |next.guessHistory| >= |s.guessHistory|;
      assert s.showCongrats ==> next.showCongrats;
      RunWithinRound(next, evs[1..]);
      var h, hn, hr := s.guessHistory, next.guessHistory, Run(next, evs[1..]).guessHistory;
      assert hn[|hn| - |h|..] == h;
      assert hr[|hr| - |h|..] == hr[|hr| - |hn|..][|hn| - |h|..];
    }
  }

  /** Once the round is won, nothing the user does changes the session until
      Play Again: in particular no entry is added after the win. */
  lemma {:induction false} FrozenAfterWin(s: State, evs: seq<Event>)
    requires s.showCongrats
    requires NoNewRound(evs)
    ensures Run(s, evs) == s
    decreases |evs|
  {
    if evs != [] {
      assert OnEvent(s, evs[0]) == s;
      FrozenAfterWin(s, evs[1..]);
    }
  }

  /** Typing a number into the box and pressing Guess during a round judges
      that number and counts one attempt. */
  lemma TypeNumberAndGuess(s: State, text: string, n: int)
    requires !s.showCongrats && text != [] && ParseIntPrefix(text) == Some(n)
    ensures var r := OnEvent(OnEvent(s, TypeText(text)), PressGuess);
            var e := Judge(n, s.target);
            && r.target == s.target
            && r.guessHistory == [e] + s.guessHistory
            && r.feedback == FeedbackOf(e) && r.guess == ""
            && r.attempts == s.attempts + 1
            && r.showCongrats == e.Correct?
            && r.bestScore == if e.Correct? then Some(BestAfterWin(s.bestScore, r.attempts)) else s.bestScore
  {
    var typed := OnEvent(s, TypeText(text));
    assert typed == s.(guess := text) && !GuessDisabled(typed);
  }

  /** Target 50, guesses that read 30, 70 and 50 (such as the texts "30",
      "70" and "50", see ThreeGuessRoundTexts) in a fresh round: too low, too high, then correct in
      three attempts, which becomes the first best score. */
  lemma ThreeGuessRound(s: State, t30: string, t70: string, t50: string)
    requires s.target == 50 && s.attempts == 0 && s.guessHistory == []
    requires !s.showCongrats && s.bestScore == None
    requires t30 != [] && ParseIntPrefix(t30) == Some(30)
    requires t70 != [] && ParseIntPrefix(t70) == Some(70)
    requires t50 != [] && ParseIntPrefix(t50) == Some(50)
    ensures var s1 := OnEvent(OnEvent(s, TypeText(t30)), PressGuess);
            var s2 := OnEvent(OnEvent(s1, TypeText(t70)), PressGuess);
            var s3 := OnEvent(OnEvent(s2, TypeText(t50)), PressGuess);
            && s1.guessHistory == [Low(30)] && s1.attempts == 1 && !s1.showCongrats
            && s2.guessHistory == [High(70), Low(30)] && s2.attempts == 2 && !s2.showCongrats
            && s3.guessHistory == [Correct(50), High(70), Low(30)] && s3.attempts == 3
            && s3.showCongrats && s3.bestScore == Some(3)
  {
    TypeNumberAndGuess(s, t30, 30);
    var s1 := OnEvent(OnEvent(s, TypeText(t30)), PressGuess);
    assert s1.target == 50 && s1.guessHistory == [Low(30)] && s1.attempts == 1;
    assert !s1.showCongrats && s1.bestScore == None;
    TypeNumberAndGuess(s1, t70, 70);
    var s2 := OnEvent(OnEvent(s1, TypeText(t70)), PressGuess);
    assert s2.target == 50 && s2.guessHistory == [High(70), Low(30)] && s2.attempts == 2;
    assert !s2.showCongrats && s2.bestScore == None;
    TypeNumberAndGuess(s2, t50, 50);
  }

  /** The texts of the three guesses read as the numbers they spell. */
  lemma ScenarioTexts()
    ensures ParseIntPrefix("30") == Some(30)
    ensures ParseIntPrefix("70") == Some(70)
    ensures ParseIntPrefix("50") == Some(50)
  {
    ParseTensText(3);
    ParseTensText(7);
    ParseTensText(5);
  }

  /** The same round with the texts "30", "70" and "50" typed into the box. */
  lemma ThreeGuessRoundTexts(s: State)
    requires s.target == 50 && s.attempts == 0 && s.guessHistory == []
    requires !s.showCongrats && s.bestScore == None
    ensures var s1 := OnEvent(OnEvent(s, TypeText("30")), PressGuess);
            var s2 := OnEvent(OnEvent(s1, TypeText("70")), PressGuess);
            var s3 := OnEvent(OnEvent(s2, TypeText("50")), PressGuess);
            && s3.guessHistory == [Correct(50), High(70), Low(30)] && s3.attempts == 3
            && s3.showCongrats && s3.bestScore == Some(3)
  {
    ScenarioTexts();
    ThreeGuessRound(s, "30", "70", "50");
  }

  /** Submitting a text that does not parse, here "abc", during a round
      records the raw text, costs no attempt and leaves the text in the box. */
  lemma LettersAreInvalid(s: State)
    requires !s.showCongrats
    ensures var r := OnEvent(OnEvent(s, TypeText("abc")), PressGuess);
            && r.guessHistory == [Invalid("abc")] + s.guessHistory
            && r.feedback == NotANumber && r.guess == "abc"
            && r.attempts == s.attempts && r.target == s.target
            && !r.showCongrats && r.bestScore == s.bestScore
  {
    ParseRejects("", Unsigned, "abc");
    assert "" + SignText(Unsigned) + "abc" == "abc";
  }

  /** With an empty box the Guess button does nothing, but the keyboard's
      done key still submits: the empty text is recorded as invalid. */
  lemma EmptyBoxSubmit(s: State)
    requires !s.showCongrats && s.guess == ""
    ensures OnEvent(s, PressGuess) == s
    ensures OnEvent(s, SubmitKey).guessHistory == [Invalid("")] + s.guessHistory
    ensures OnEvent(s, SubmitKey).attempts == s.attempts
  {
    ParseRejects("", Unsigned, "");
    assert "" + SignText(Unsigned) + "" == "";
  }

  /** The screen's state, updated in place by its handlers. */
  class Session {
    var target: int
    var guess: string
    var feedback: Feedback
    var attempts: nat
    var showCongrats: bool
    var guessHistory: seq<Entry>
    var bestScore: Option<nat>

    ghost function Abs(): State
      reads this
    {
      State(target, guess, feedback, attempts, showCongrats, guessHistory, bestScore)
    }

    ghost predicate Valid()
      reads this
    {
      Consistent(Abs())
    }

    /** Mounting the screen: the initial values, then the first round with target `t`. */
    constructor (t: int)
      requires MinTarget <= t <= MaxTarget
      ensures Valid() && Abs() == AfterReset(Initial(), t)
    {
      target, guess, feedback, attempts := 0, "", Prompt, 0;
      showCongrats, guessHistory, bestScore := false, [], None;
      new;
      ResetGame(t);
    }

    /** resetGame, with the random draw `t` supplied by the caller. */
    method ResetGame(t: int)
      requires MinTarget <= t <= MaxTarget
      modifies this
      ensures Abs() == AfterReset(old(Abs()), t)
      ensures old(BestPossible(bestScore)) ==> Valid()
    {
      target := t;
      attempts := 0;
      guess := "";
      feedback := Prompt;
      showCongrats := false;
      guessHistory := [];
    }

    /** onChangeText: the input box now holds `text`. */
    method SetGuess(text: string)
      modifies this
      ensures Abs() == old(Abs()).(guess := text)
      ensures Valid() <==> old(Valid())
    {
      guess := text;
    }

    /** handleGuess: judge the text in the input box. */
    method HandleGuess()
      modifies this
      ensures Abs() == AfterGuess(old(Abs()))
      ensures old(Valid()) ==> Valid()
    {
      var num := ParseIntPrefix(guess);
      Record(num);
    }

    /** The body of handleGuess once parseInt has read the box: `num` is its
        result, `None` for NaN. */
    method Record(num: Option<int>)
      modifies this
      ensures Abs() == Submit(old(Abs()), num)
      ensures old(Valid()) ==> Valid()
    {
      ghost var before := Abs();
      if Consistent(before) { SubmitKeepsConsistent(before, num); }
      if num.None? {
        feedback := NotANumber;
        guessHistory := [Invalid(guess)] + guessHistory;
        assert Abs() == Submit(before, num);
        return;
      }
      var n := num.value;
      var previous := attempts;  // the count the handler saw when it was called
      attempts := previous + 1;
      if n == target {
        feedback := Win;
        showCongrats := true;
        guessHistory := [Correct(n)] + guessHistory;
        if bestScore.None? || previous + 1 < bestScore.value {
          bestScore := Some(previous + 1);
        }
        guess := "";
      } else if n < target {
        feedback := TooLow;
        guessHistory := [Low(n)] + guessHistory;
        guess := "";
      } else {
        feedback := TooHigh;
        guessHistory := [High(n)] + guessHistory;
        guess := "";
      }
      assert Abs() == Submit(before, num);
    }

    /** isGuessDisabled, as the screen recomputes it on every render. The
        predicate `GuessDisabled` is its specification; the guard's effect is
        that a press of the Guess button is ignored exactly when it is set. */
    method IsGuessDisabled() returns (disabled: bool)
      ensures disabled == GuessDisabled(Abs())
      ensures disabled ==> OnEvent(Abs(), PressGuess) == Abs()
      ensures !disabled ==> OnEvent(Abs(), PressGuess) == AfterGuess(Abs())
    {
      disabled := guess == "" || showCongrats;
    }
  }
}
