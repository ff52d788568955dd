# Guess the Number — a verified model of the game session

The app is a single React Native screen, `App.js`. The device draws a secret
number in [1, 100]. The player types guesses into a text box and is told
"too low", "too high" or "correct". The screen keeps:

- the attempt count;
- a guess history, most recent entry first;
- the best (fewest attempts) score of the session, which survives "Play Again".

The model has two modules:

- `JsParseInt` (`parse_int.dfy`) models JavaScript's `parseInt(string)` with
  the radix left undefined, as ECMA-262 section 19.2.5 defines it. It skips
  leading white space and line terminators, takes an optional `+`/`-`, and
  reads the longest run of decimal digits. An empty run is NaN, shown as
  `None`. It is a pure function, proved against composed inputs: white space,
  sign, digits, then any tail. The module also proves that the decimal text of
  any integer parses back to that integer.
- `GuessingGame` (`game_session.dfy`) models the screen's state.
  - `State` is a datatype with the seven `useState` fields.
  - `AfterReset` and `Submit`/`AfterGuess` are pure specifications of
    `resetGame` and `handleGuess`.
  - `OnEvent`/`Run` replay user actions. They apply the same guards as the
    widgets: the box is editable only while the round is not won; the Guess
    button is disabled by `isGuessDisabled`; the keyboard's done key submits;
    Play Again is shown only after a win.
  - The class `Session` holds the same fields and updates them in place, as
    the component's setters do. Each of its methods is proved to produce
    exactly the state its pure specification gives.
  - The invariant `Consistent` holds in every reachable session:
    - the target is in range;
    - `attempts` is the number of parsed entries in the history;
    - every entry tells the truth about the target;
    - the won flag holds exactly when a `Correct` entry exists;
    - the feedback describes the newest entry;
    - after a win the best score is at most this round's attempts.

Three behaviours of the code are worth spelling out:

- An unparseable guess does not clear the text box: `App.js:31-35` returns
  before `setGuess('')`.
- The keyboard's done key (`onSubmitEditing`, `App.js:95`) calls
  `handleGuess` without the empty-text guard of the button
  (`App.js:100`). An empty submission from the keyboard is therefore
  recorded as an invalid entry (`EmptyBoxSubmit`).
- Before the mount effect runs, the state holds `target` 0 (`App.js:5`). The
  constructor models those initial values followed by the first `resetGame`.

## Model

| member | source | states |
|---|---|---|
| JsParseInt.TrimStart | App.js:29 | parseInt's first step: the result is a suffix of the input, everything skipped is white space or a line terminator, and the result does not start with one |
| JsParseInt.LeadingDigits | App.js:29 | the digit run parseInt reads is the longest prefix made of decimal digits: all of it is digits and the next character is not |
| JsParseInt.TrimStartSkips | App.js:29 | skipping white space in front of text that does not start with white space yields exactly that text |
| JsParseInt.LeadingDigitsStops | App.js:29 | a run of digits followed by a non-digit is read in full and no further |
| JsParseInt.ParseAfterWhiteSpace | App.js:29 | leading white space never changes what parseInt returns |
| JsParseInt.ParseDigitsThenRest | App.js:29 | a non-empty digit run followed by a non-digit gives the signed value of the run, whatever follows |
| JsParseInt.ParseSignThenDigits | App.js:29 | an optional `+`/`-` then digits: the sign is applied, and `+` is the same as no sign |
| JsParseInt.ParseComposed | App.js:29 | any text of the form white space, sign, digits, non-digit tail parses to the signed value of the digits (so "12abc" is 12 and " -7" is -7) |
| JsParseInt.ParseRejects | App.js:29-31 | text whose first significant character (after white space and at most one sign) is not a digit is NaN, which sends handleGuess down the invalid path |
| JsParseInt.ParseIntPrefix | App.js:29 | parseInt(guess) with the radix undefined, `None` for NaN; ParseComposed and ParseRejects together fix its result on every input, and ParseToDecimal shows it reads back the displayed number |
| JsParseInt.ParseDigitText | App.js:29 | a bare run of digits, such as "30", parses to its decimal value |
| JsParseInt.ParseTensText | App.js:29 | a text of a digit 1-9 followed by `0`, such as "30", parses to ten times that digit |
| JsParseInt.NatToDecimal | App.js:69 | the decimal text of a natural number is non-empty, all digits, and has no leading zero |
| JsParseInt.NatToDecimalValue | App.js:69 | the digits of that text denote the number again |
| JsParseInt.ParseToDecimal | App.js:29 | the history's decimal text of a parsed guess parses back to the same integer (parseInt is a left inverse of the display) |
| JsParseInt.ToDecimal | App.js:69 | the text the history shows for a parsed guess: non-empty, and read back by parseInt as the same number (ParseToDecimal) |
| GuessingGame.Initial | App.js:5-11 | the useState values before the first round: target 0, empty text, prompt, no attempts, not won, empty history, no best score; Session.constructor shows one resetGame makes it consistent |
| GuessingGame.Judge | App.js:38-58 | a parsed guess is judged Correct when equal to the target, Low when below, High otherwise, with no range check; the entry keeps the number and is truthful about the target |
| GuessingGame.AfterReset | App.js:18-24 | a new round: the drawn target, zero attempts, empty history, empty text, not won, prompt feedback; best score untouched; the invariant holds whenever the old best score was a possible one |
| GuessingGame.Submit | App.js:28-61 | exactly one entry is prepended and older entries keep their order; the target never changes; NaN records the raw text, keeps attempts, won flag, best score and the text itself; a number adds one attempt, clears the text and records its judgement; won iff already won or this entry is Correct; a win sets the best score to min(old, attempts), otherwise it is unchanged, so it never grows |
| GuessingGame.AfterGuess | App.js:28-63 | handleGuess on a session: Submit applied to parseInt of the text in the box, so every clause of Submit holds of it |
| GuessingGame.GuessDisabled | App.js:65 | the Guess button is off exactly when the text is empty or the round is won; FrozenAfterWin and EmptyBoxSubmit prove what the guard prevents |
| GuessingGame.OnEvent | App.js:89-100 | one user action under the widgets' guards: typing only while editable, Guess unless disabled, the done key while editable, Play Again only when won; its consequences are RunKeepsConsistent, RunWithinRound and FrozenAfterWin |
| GuessingGame.SubmitKeepsConsistent | App.js:28-63 | every submission preserves the session invariant, including attempts equal to the number of parsed entries |
| GuessingGame.RunKeepsConsistent | App.js:18-100 | every session reachable by any sequence of typing, Guess presses, done-key submissions and Play Again is consistent |
| GuessingGame.RunBestNeverWorse | App.js:43-45 | over any sequence of actions, across rounds, the best score never gets worse and is never cleared |
| GuessingGame.RunWithinRound | App.js:28-63 | without Play Again the target never changes, the history only grows at the front, the attempt count never decreases and a win is never cleared |
| GuessingGame.FrozenAfterWin | App.js:93-100 | once won, no action short of Play Again changes the session: no entry is added after a win |
| GuessingGame.TypeNumberAndGuess | App.js:89-100 | typing text that parses to n and pressing Guess judges n, prepends it, clears the box and counts one attempt |
| GuessingGame.ThreeGuessRound | App.js:37-58 | with target 50, guesses 30, 70, 50 give Low, High, Correct with 1, 2, 3 attempts, then a win with best score 3 |
| GuessingGame.ScenarioTexts | App.js:29 | the texts "30", "70" and "50" parse to 30, 70 and 50 |
| GuessingGame.ThreeGuessRoundTexts | App.js:37-58 | the three-guess round with those very texts typed into the box ends won in three attempts, with history Correct(50), High(70), Low(30) and best score 3 |
| GuessingGame.LettersAreInvalid | App.js:29-35 | submitting "abc" records Invalid("abc"), costs no attempt, keeps the text in the box and changes nothing else |
| GuessingGame.EmptyBoxSubmit | App.js:93-100 | with an empty box the Guess button does nothing, but the done key records an invalid empty entry without an attempt |
| GuessingGame.Session.constructor | App.js:5-16 | mounting: the initial values, then the first round; the session is consistent |
| GuessingGame.Session.ResetGame | App.js:18-26 | updates the fields in place to exactly the state `AfterReset` gives for the drawn target |
| GuessingGame.Session.SetGuess | App.js:89-90 | only the text changes, and consistency is unaffected |
| GuessingGame.Session.HandleGuess | App.js:28-63 | updates the fields in place to exactly `Submit` of the old state and parseInt of the box's text, and keeps the session consistent |
| GuessingGame.Session.Record | App.js:30-61 | the branches of handleGuess after parsing, with the best-score test read from the count before the increment; the new state is `Submit` of the old one |
| GuessingGame.Session.IsGuessDisabled | App.js:65 | the button is disabled exactly when the box is empty or the round is won (the predicate GuessDisabled); a press is then ignored, otherwise it runs handleGuess |

## Left out

- The hexadecimal `0x`/`0X` prefix of parseInt with an undefined radix is not modelled. "0x1A" is read here as 0; JavaScript reads it as 26. "0x" alone, or followed by a character that is not a hex digit, is NaN in JavaScript but 0 here; in the game the source records it as `Invalid("0x")` at no attempt, while the model records `Low(0)` and counts one attempt.
- parseInt returns a double. Digit runs beyond 2^53 lose precision there; here they are exact unbounded integers. `-0` is taken to be 0.
- NatToDecimal: JavaScript writes numbers of 10^21 or more in exponent notation when it shows a history entry; the model always writes plain digits.
- `Math.random` (`App.js:19`) is replaced by the draw `t`, which the caller supplies within [1, 100].
- The feedback strings and emoji are modelled as the enumeration `Feedback`.
- The history's style picker (`App.js:72-73`) is presentation and is left out. It looks for substrings of the feedback text, so an invalid entry is drawn in the too-high style.
- Rendering, styles and `FlatList` (`App.js:67-162`) are presentation only.
- `Keyboard.dismiss()` and `inputRef.current.clear()` (`App.js:25, 47-48, 54, 60, 62`) are native widget side effects with no state of the session.
- React batches `setState` updates asynchronously. Each handler is read as one sequential update. Under that reading, the closure value `attempts + 1` at `App.js:43-44` is the new count. Two submissions that land before a re-render are not modelled.
