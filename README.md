# Letter game: the challenge, answer and reward state machine

This project models the core of a small browser game for young learners. The game plays the
audio cue of a random letter (or digit) and lets the learner press the matching key on an
on-screen keyboard. After a wrong answer it shows the character large on screen. After a
correct answer it shows a reward image with "SUPER!" for two seconds and then moves on to a
new character. A Switch key toggles between the letters "A".."Z" and the digits "0".."9".

The model has three modules:

- `Vocabulary` (`vocabulary.dfy`) holds the two character sets, the mode, and the
  lower-casing used to judge answers. It also holds the text each on-screen key submits and
  the mode label of the display.
- `GameModel` (`game_model.dfy`) holds the game state as a value, one function per
  transition, and the lemmas. Some lemmas are about a single transition. Others are about
  every admissible sequence of key presses, Switch presses, redraws and finished image loads.
- `LetterGameObject` (`letter_game.dfy`) holds the class `LetterGame`. Its fields are the fields the
  source updates in place, and it has one method per operation. Each method is proved to
  leave the fields equal to the matching `GameModel` function applied to the old fields.
  `Valid()` is the class invariant: the challenge is in the active vocabulary, a visible
  prompt implies at least one attempt, and the current reward image and background come
  from their pools.

Sources of nondeterminism are parameters:

- Every `Math.floor(Math.random() * n)` is an index `k` with `RandomIndex(k, n)`. That
  means `k < n`, or `k == 0` when `n == 0`, which is what the expression yields for an
  empty pool.
- `Date.now()` is a parameter `now`.

The model follows the code as written; in particular:

- `newChallenge` does not reset `attempts` or `showChallenge`. So attempts accumulate across
  challenges and mode switches until an answer is correct (`AttemptsCountWrongPresses`).
- The Switch key always toggles the mode; there is no "same mode" case. It clears
  `showChallenge` but not `attempts`.
- Only the challenge is lower-cased before the comparison. An upper-case letter as input is
  judged wrong, and digits compare unchanged. The on-screen keys send lower-case letters, so
  each key is judged correct exactly when it shows the challenge (`KeyPressJudgedByChallenge`).
- `checkAnswer` is not blocked while a reward is showing. Another correct press during the
  overlay scores again.
- The reward branch of `draw` acts only when a reward image is present. A reward started
  while the reward pool is still empty gets no image, and `draw` never ends it. It stays on,
  still without an image, through any sequence of Switch presses, redraws and image loads that
  holds no correct answer (`RewardWithoutImageNeverEnds`). A Switch press still draws a new
  challenge meanwhile. A correct answer while the pool is still empty starts another reward
  without an image.
- `currentChallenge` is `null` only inside the constructor, before its call to
  `newChallenge`. No operation can observe that, so the model keeps the field as a plain
  string, and `Valid()` places it in the active vocabulary. `Valid()` is a precondition of
  every method except `NewChallenge`. The Switch handler calls `NewChallenge` between the mode
  change and the new draw, so that method requires only `InvExceptChallenge`.

## Model

| member | source | states |
|---|---|---|
| Vocabulary.ActiveEntry | game.js:6-7 | the letters vocabulary has 26 entries, each one capital "A".."Z"; the numbers vocabulary has 10, each one digit |
| Vocabulary.UpperIsNotLower | game.js:171 | lower-casing maps a capital to a lower-case letter different from itself |
| Vocabulary.DigitIsLower | game.js:171 | lower-casing leaves a digit unchanged |
| Vocabulary.KeyInputInjective | game.js:105-119 | the letter and number keys submit pairwise different answers, each the lower-case form of the key's character |
| Vocabulary.ToggleAndLabel | game.js:253 | switching twice restores the mode; the label is "Letters" for letters mode and "Cijfers" otherwise, and it tells the two modes apart |
| Vocabulary.Toggle | game.js:128 | the Switch toggle always yields the other mode |
| Vocabulary.ModeLabel | game.js:253 | the label is "Letters" exactly in letters mode and "Cijfers" exactly in numbers mode |
| Vocabulary.ToLower | game.js:171 | lower-casing keeps the length, leaves no capital, maps each capital to its lower-case letter and leaves every other character unchanged |
| Vocabulary.KeyInput | game.js:109-118 | every letter or number key submits the lower-cased form of its character, which holds no capital |
| GameModel.Initial | game.js:2-25 | the first challenge is a letter, the mode is letters, score and attempts are 0, prompt and reward are off, and both pools are empty with no image chosen |
| GameModel.ChangeBackground | game.js:154-160 | with a non-empty pool the background becomes an entry of the pool; with an empty pool nothing changes; no other field changes |
| GameModel.NewChallenge | game.js:145-152 | the challenge becomes an entry of the active vocabulary; only the challenge and the background change |
| GameModel.ShowReward | game.js:162-168 | the reward shows from `now`; it has an image iff the reward pool is non-empty, and that image is from the pool; nothing else changes |
| GameModel.CheckAnswer | game.js:170-185 | the score grows by 1 iff the answer is correct; attempts reset to 0 on a correct answer and grow by 1 on a wrong one; the prompt is shown iff the answer was wrong; a correct answer turns the reward on; challenge, mode, background and pools are kept |
| GameModel.Switch | game.js:127-131 | the mode changes, the challenge is from the new mode's vocabulary, the prompt is hidden; only mode, challenge, prompt and background change |
| GameModel.Tick | game.js:210-241 | a redraw changes nothing unless a reward with an image has been up for 2000 ms or more; then the reward ends and a challenge from the active vocabulary is drawn; score, mode, attempts, prompt and reward image are always kept |
| GameModel.Painted | game.js:187-256 | a frame paints the current background and score, the prompt iff it is shown, and the reward image iff a reward with an image has been up for under 2000 ms |
| GameModel.InitialValid | game.js:2-25 | a new game satisfies the invariant, with score 0, no attempts, letters mode, a capital letter as challenge, the prompt hidden and no reward |
| GameModel.NewChallengeFromVocabulary | game.js:145-160 | the new challenge is a member of the active vocabulary; a loaded background is picked when the pool is non-empty, else the background stays; score, attempts, prompt, mode and reward are untouched |
| GameModel.AnswerComparison | game.js:170-171 | every single upper-case letter as input is judged wrong in either mode, the letters-mode challenge itself included; in numbers mode an input is correct iff it equals the challenge |
| GameModel.KeyPressJudgedByChallenge | game.js:105-120 | pressing an on-screen letter or number key is judged correct iff that key shows the current challenge |
| GameModel.CorrectAnswer | game.js:162-177 | a correct answer adds exactly 1 to the score, hides the prompt, zeroes attempts, starts the reward at `now` with the pool entry at the drawn index (none for an empty pool), and leaves challenge, mode, background and pools unchanged |
| GameModel.WrongAnswer | game.js:178-184 | a wrong answer adds exactly 1 to attempts, shows the prompt and changes nothing else |
| GameModel.SwitchEffect | game.js:127-131 | Switch toggles the mode, hides the prompt, draws the challenge from the new vocabulary (never from the old one), keeps score, attempts and reward state, and a second Switch restores the mode |
| GameModel.RewardHolds | game.js:210-211 | before 2000 ms have passed, a redraw leaves the state unchanged and paints the reward image |
| GameModel.RewardExpires | game.js:238-240 | from 2000 ms on, a redraw ends the reward and runs newChallenge, and the reward is no longer painted |
| GameModel.RewardWithoutImageStays | game.js:210 | with no reward image, a redraw at any time changes nothing |
| GameModel.PaintedHud | game.js:195-253 | the prompt is painted iff it is shown, and it shows the challenge; the score is painted; the mode text is "Mode: Letters" or "Mode: Cijfers" |
| GameModel.StepKeepsInv | game.js:145-185 | every transition keeps the invariant |
| GameModel.RunKeepsInv | game.js:127-185 | the invariant holds after every admissible sequence of transitions |
| GameModel.ScoreCountsCorrectAnswers | game.js:174 | along any sequence of transitions, the score grows by exactly the number of answers judged correct |
| GameModel.ScoreNeverDecreases | game.js:174 | the score never decreases along any admissible sequence of transitions |
| GameModel.AttemptsCountWrongPresses | game.js:179 | until an answer is correct, every press adds one attempt; switches, redraws and new challenges never reset the count |
| GameModel.RewardWithoutImageNeverEnds | game.js:162-168 | a reward started without an image stays on, with no image, through any sequence of switches, redraws and loads without a correct answer |
| GameModel.Walkthrough | game.js:170-241 | with challenge "A": "b" is wrong (1 attempt, prompt shown), "a" is right (score 1, reward on), the reward holds at 1999 ms and ends at 2001 ms with a new challenge |
| LetterGameObject.LetterGame.constructor | game.js:2-25 | the fields equal the model's initial game; the first cue requested is the first challenge |
| LetterGameObject.LetterGame.AddRewardImage | game.js:72 | a loaded reward image is appended to the reward pool |
| LetterGameObject.LetterGame.AddBackgroundImage | game.js:94 | a loaded background image is appended to the background pool |
| LetterGameObject.LetterGame.BackgroundsLoaded | game.js:97-99 | once the backgrounds have loaded, the first one is shown if the pool is non-empty |
| LetterGameObject.LetterGame.ChangeBackground | game.js:154-160 | the background becomes the pool entry at the drawn index when the pool is non-empty, and is unchanged otherwise |
| LetterGameObject.LetterGame.NewChallenge | game.js:145-152 | the challenge becomes the drawn entry of the active vocabulary, its cue is requested, a new background is drawn when the pool is non-empty; score, attempts and prompt are kept |
| LetterGameObject.LetterGame.ShowReward | game.js:162-168 | the reward shows from `now`, with the drawn pool entry as image |
| LetterGameObject.LetterGame.CheckAnswer | game.js:170-185 | returns true iff the input equals the lower-cased challenge; correct: score + 1 and reward started; wrong: attempts + 1, prompt shown and the cue requested again; challenge and mode kept |
| LetterGameObject.LetterGame.Switch | game.js:127-131 | the mode toggles, the prompt hides, a challenge from the new vocabulary is drawn; score and attempts are kept |
| LetterGameObject.LetterGame.Draw | game.js:187-259 | returns the layers painted from the state before the expiry check: the background, the challenge iff the prompt is shown, the reward image iff a reward with an image has been up for under 2000 ms, the score and the mode text; afterwards the reward has ended and a new challenge has been drawn iff a reward with an image has been up for 2000 ms or more, and otherwise the state is unchanged |

## Left out

- Loading of sounds, reward images and backgrounds (`game.js:27-100`) is asynchronous fetch
  and decode I/O. Its visible effects are the three `LetterGame` methods `AddRewardImage`,
  `AddBackgroundImage` and `BackgroundsLoaded`. Images are identified by their path strings.
  A sequential loader that never finishes because an image fails is not modelled.
- Building the on-screen keyboard (`game.js:101-133`) is DOM work. What its buttons submit
  is `Vocabulary.KeyInput`, and the Switch button's handler is `LetterGame.Switch`.
- `playSound` (`game.js:135-143`) is Web Audio. The model records each requested cue in the
  ghost field `cues`. Whether a decoded sound exists for the character is not modelled.
- All canvas calls in `draw` are left out: clearing, image drawing, fonts, colours and pixel
  positions. `Draw` returns the layers it would paint as a `Screen` value. The score is kept
  as a number, not formatted into "Score: n".
- The `requestAnimationFrame` self-rescheduling of `draw` is host-driven looping. A run of
  redraws is a sequence of `Redraw` steps in `GameModel.Run`.
- `Math.random` and `Date.now` are parameters, as described above.
- Vocabulary.ToLower: maps only the ASCII capitals, unlike JavaScript's full Unicode
  `toLowerCase`. This is the same on every string the game lower-cases, because all of them
  come from the vocabularies.
- The service worker (`service-worker.js`) caches the assets at install time and answers
  fetches from that cache first. That is browser plumbing with no game logic.
