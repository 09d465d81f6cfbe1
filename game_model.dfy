/** The state of one letter game as a value, one function per transition of
    the game, and what is proved about single transitions and about every
    sequence of them. The class `LetterGameObject.LetterGame` is proved to follow these
    functions field for field. */
module GameModel {
  import opened Vocabulary

  datatype Option<T> = None | Some(value: T)

  /** An image is identified by the path it was loaded from. */
  type Image = string

  /** How long the reward overlay stays up, in milliseconds. */
  const RewardDuration: int := 2000

  /** Everything of a `LetterGame` that its operations read or write. */
  datatype Game = Game(
    score: nat,
    mode: Mode,
    challenge: string,
    showChallenge: bool,
    attempts: nat,
    showingReward: bool,
    rewardTimer: int,
    rewardImage: Option<Image>,
    background: Option<Image>,
    rewardImages: seq<Image>,
    backgroundImages: seq<Image>)

  /** `k` is a value `Math.floor(Math.random() * n)` can take: below `n`, or
      0 when `n` is 0. */
  predicate RandomIndex(k: nat, n: nat)
  {
    if n == 0 then k == 0 else k < n
  }

  /** What holds of every game from construction on. */
  predicate Inv(g: Game)
  {
    g.challenge in Active(g.mode) && InvExceptChallenge(g)
  }

  /** The invariant without its first clause: it also holds in the middle of
      the Switch handler, between the mode change and the new challenge. */
  predicate InvExceptChallenge(g: Game)
  {
    && (g.showChallenge ==> g.attempts > 0)
    && (g.rewardImage.Some? ==> g.rewardImage.value in g.rewardImages)
    && (g.background.Some? ==> g.background.value in g.backgroundImages)
  }

  /** The constructor: fresh fields, empty image pools (the loaders fill them
      later), then the first challenge, drawn from the letters. */
  function Initial(pick: nat): (r: Game)
    requires pick < |LetterKeys|
    ensures r.challenge in LetterKeys && r.mode == Letters
    ensures r.score == 0 && r.attempts == 0 && !r.showChallenge && !r.showingReward
    ensures r.rewardImages == [] && r.backgroundImages == [] && r.rewardImage.None? && r.background.None?
  {
    Game(0, Letters, LetterKeys[pick], false, 0, false, 0, None, None, [], [])
  }

  /** `changeBackground`: a random background, if any is loaded. */
  function ChangeBackground(g: Game, bgPick: nat): (r: Game)
    requires RandomIndex(bgPick, |g.backgroundImages|)
    ensures |g.backgroundImages| > 0 ==> r.background.Some? && r.background.value in g.backgroundImages
    ensures |g.backgroundImages| == 0 ==> r == g
    ensures r == g.(background := r.background)
  {
    if |g.backgroundImages| > 0 then g.(background := Some(g.backgroundImages[bgPick]))
    else g
  }

  /** `newChallenge`: a random entry of the active vocabulary, then a new
      background. Score, attempts and the prompt flag are not touched. */
  function NewChallenge(g: Game, pick: nat, bgPick: nat): (r: Game)
    requires pick < |Active(g.mode)|
    requires RandomIndex(bgPick, |g.backgroundImages|)
    ensures r.challenge in Active(g.mode)
    ensures r == g.(challenge := r.challenge, background := r.background)
  {
    ChangeBackground(g.(challenge := Active(g.mode)[pick]), bgPick)
  }

  /** `showReward`: start the overlay at `now` with a random reward image;
      with an empty pool the index reads past the end and yields no image. */
  function ShowReward(g: Game, now: int, rewardPick: nat): (r: Game)
    requires RandomIndex(rewardPick, |g.rewardImages|)
    ensures r.showingReward && r.rewardTimer == now
    ensures r.rewardImage.Some? <==> |g.rewardImages| > 0
    ensures r.rewardImage.Some? ==> r.rewardImage.value in g.rewardImages
    ensures r == g.(showingReward := true, rewardTimer := now, rewardImage := r.rewardImage)
  {
    g.(showingReward := true,
       rewardTimer := now,
       rewardImage := if rewardPick < |g.rewardImages| then Some(g.rewardImages[rewardPick]) else None)
  }

  /** The comparison of `checkAnswer`: only the challenge is lower-cased. */
  predicate IsCorrect(g: Game, input: string)
  {
    input == ToLower(g.challenge)
  }

  /** The new state after `checkAnswer(input)`. */
  function CheckAnswer(g: Game, input: string, now: int, rewardPick: nat): (r: Game)
    requires RandomIndex(rewardPick, |g.rewardImages|)
    ensures r.score == g.score + (if IsCorrect(g, input) then 1 else 0)
    ensures r.attempts == (if IsCorrect(g, input) then 0 else g.attempts + 1)
    ensures r.showChallenge == !IsCorrect(g, input)
    ensures r.showingReward == (IsCorrect(g, input) || g.showingReward)
    ensures r.challenge == g.challenge && r.mode == g.mode && r.background == g.background
    ensures r.rewardImages == g.rewardImages && r.backgroundImages == g.backgroundImages
  {
    if IsCorrect(g, input) then
      ShowReward(g.(score := g.score + 1), now, rewardPick).(showChallenge := false, attempts := 0)
    else
      g.(attempts := g.attempts + 1, showChallenge := true)
  }

  /** The Switch button: toggle the mode, hide the prompt, new challenge. */
  function Switch(g: Game, pick: nat, bgPick: nat): (r: Game)
    requires pick < |Active(Toggle(g.mode))|
    requires RandomIndex(bgPick, |g.backgroundImages|)
    ensures r.mode != g.mode && r.challenge in Active(r.mode) && !r.showChallenge
    ensures r == g.(mode := r.mode, challenge := r.challenge, showChallenge := false, background := r.background)
  {
    NewChallenge(g.(mode := Toggle(g.mode), showChallenge := false), pick, bgPick)
  }

  /** The reward branch of `draw` acts only on a showing reward that has an
      image; it ends the reward once 2000 ms have passed. */
  predicate RewardExpired(g: Game, now: int)
  {
    g.showingReward && g.rewardImage.Some? && !(now - g.rewardTimer < RewardDuration)
  }

  /** The state change of one `draw` call. */
  function Tick(g: Game, now: int, pick: nat, bgPick: nat): (r: Game)
    requires pick < |Active(g.mode)|
    requires RandomIndex(bgPick, |g.backgroundImages|)
    ensures !RewardExpired(g, now) ==> r == g
    ensures RewardExpired(g, now) ==> !r.showingReward && r.challenge in Active(g.mode)
    ensures r.score == g.score && r.mode == g.mode && r.attempts == g.attempts
    ensures r.showChallenge == g.showChallenge && r.rewardImage == g.rewardImage
  {
    if RewardExpired(g, now) then NewChallenge(g.(showingReward := false), pick, bgPick) else g
  }

  /** What one `draw` call paints, back to front. */
  datatype Screen = Screen(
    background: Option<Image>,
    prompt: Option<string>,
    reward: Option<Image>,
    score: nat,
    modeText: string)

  /** The picture `draw` paints from the state it starts in (the expiry
      step changes neither the score nor the mode). */
  function Painted(g: Game, now: int): (r: Screen)
    ensures r.background == g.background && r.score == g.score
    ensures r.prompt.Some? <==> g.showChallenge
    ensures r.reward.Some? <==> g.showingReward && g.rewardImage.Some? && now - g.rewardTimer < RewardDuration
    ensures r.reward.Some? ==> r.reward == g.rewardImage
  {
    Screen(
      g.background,
      if g.showChallenge then Some(g.challenge) else None,
      if g.showingReward && g.rewardImage.Some? && now - g.rewardTimer < RewardDuration then g.rewardImage else None,
      g.score,
      "Mode: " + ModeLabel(g.mode))
  }

  /** A reward image finished loading and joined the pool. */
  function AddRewardImage(g: Game, img: Image): Game
  {
    g.(rewardImages := g.rewardImages + [img])
  }

  /** A background image finished loading and joined the pool. */
  function AddBackgroundImage(g: Game, img: Image): Game
  {
    g.(backgroundImages := g.backgroundImages + [img])
  }

  /** The end of `loadBackgrounds`: show the first background, if any. */
  function BackgroundsLoaded(g: Game): Game
  {
    if |g.backgroundImages| > 0 then g.(background := Some(g.backgroundImages[0])) else g
  }

  // ---------------------------------------------------------------------
  // Single transitions

  /** The constructor starts a game that satisfies the invariant, with score
      0, the prompt hidden and no reward showing. */
  lemma InitialValid(pick: nat)
    requires pick < |LetterKeys|
    ensures Inv(Initial(pick))
    ensures Initial(pick).score == 0 && Initial(pick).attempts == 0
    ensures Initial(pick).mode == Letters && IsUpper(Initial(pick).challenge[0])
    ensures !Initial(pick).showChallenge && !Initial(pick).showingReward
  {
    ActiveEntry(Letters, pick);
  }

  /** `newChallenge` yields a member of the active vocabulary ("A".."Z" in
      letters mode, "0".."9" otherwise), picks a loaded background whenever
      one exists, and leaves score, attempts, prompt, mode and reward alone. */
  lemma NewChallengeFromVocabulary(g: Game, pick: nat, bgPick: nat)
    requires Inv(g)
    requires pick < |Active(g.mode)|
    requires RandomIndex(bgPick, |g.backgroundImages|)
    ensures var h := NewChallenge(g, pick, bgPick);
      && Inv(h)
      && h.challenge in Active(g.mode) && |h.challenge| == 1
      && (g.mode == Letters ==> IsUpper(h.challenge[0]))
      && (g.mode == Numbers ==> IsDigit(h.challenge[0]))
      && (|g.backgroundImages| > 0 ==> h.background.Some? && h.background.value in g.backgroundImages)
      && (|g.backgroundImages| == 0 ==> h.background == g.background)
      && h.score == g.score && h.attempts == g.attempts && h.showChallenge == g.showChallenge
      && h.mode == g.mode && h.showingReward == g.showingReward && h.rewardImage == g.rewardImage
      && h.rewardTimer == g.rewardTimer
  {
    ActiveEntry(g.mode, pick);
  }

  /** `checkAnswer` accepts exactly the lower-case form of the challenge: in
      letters mode the capital itself is judged wrong, in either mode every
      upper-case letter is judged wrong, and in numbers mode the digit
      compares unchanged. */
  lemma AnswerComparison(g: Game, input: string)
    requires Inv(g)
    ensures g.mode == Letters ==> !IsCorrect(g, g.challenge)
    ensures |input| == 1 && IsUpper(input[0]) ==> !IsCorrect(g, input)
    ensures g.mode == Numbers ==> (IsCorrect(g, input) <==> input == g.challenge)
  {
    InActive(g.mode, g.challenge);
    assert ToLower(g.challenge)[0] == LowerChar(g.challenge[0]);
    if g.mode == Letters {
      UpperIsNotLower(g.challenge);
    } else {
      DigitIsLower(g.challenge);
    }
  }

  /** Pressing an on-screen letter or number key is judged correct exactly
      when that key shows the current challenge. */
  lemma KeyPressJudgedByChallenge(g: Game, key: string)
    requires Inv(g)
    requires key in LetterKeys + DigitKeys
    ensures IsCorrect(g, KeyInput(key)) <==> key == g.challenge
  {
    assert g.challenge in LetterKeys + DigitKeys by {
      assert g.challenge in Active(g.mode);
    }
    KeyInputInjective(key, g.challenge);
  }

  /** A correct answer: score up by exactly one, prompt hidden, attempts 0,
      reward showing since `now` with the pool entry at the drawn index (none
      when the pool is empty); challenge, mode and background unchanged. */
  lemma CorrectAnswer(g: Game, input: string, now: int, rewardPick: nat)
    requires Inv(g)
    requires RandomIndex(rewardPick, |g.rewardImages|)
    requires IsCorrect(g, input)
    ensures var h := CheckAnswer(g, input, now, rewardPick);
      && Inv(h)
      && h.score == g.score + 1 && !h.showChallenge && h.attempts == 0
      && h.showingReward && h.rewardTimer == now
      && (|g.rewardImages| > 0 ==> h.rewardImage == Some(g.rewardImages[rewardPick]))
      && (|g.rewardImages| == 0 ==> h.rewardImage == None)
      && h.challenge == g.challenge && h.mode == g.mode && h.background == g.background
      && h.rewardImages == g.rewardImages && h.backgroundImages == g.backgroundImages
  {
  }

  /** A wrong answer: one more attempt, prompt shown; everything else,
      including the reward state, unchanged. */
  lemma WrongAnswer(g: Game, input: string, now: int, rewardPick: nat)
    requires Inv(g)
    requires RandomIndex(rewardPick, |g.rewardImages|)
    requires !IsCorrect(g, input)
    ensures var h := CheckAnswer(g, input, now, rewardPick);
      && Inv(h)
      && h.attempts == g.attempts + 1 && h.showChallenge
      && h == g.(attempts := h.attempts, showChallenge := true)
  {
  }

  /** The Switch button toggles the mode, hides the prompt, draws the
      challenge from the new vocabulary and keeps score and attempts;
      pressing it twice restores the mode. */
  lemma SwitchEffect(g: Game, pick: nat, bgPick: nat, pick2: nat, bgPick2: nat)
    requires Inv(g)
    requires pick < |Active(Toggle(g.mode))|
    requires RandomIndex(bgPick, |g.backgroundImages|)
    requires pick2 < |Active(g.mode)|
    requires RandomIndex(bgPick2, |g.backgroundImages|)
    ensures var h := Switch(g, pick, bgPick);
      && Inv(h)
      && h.mode != g.mode && !h.showChallenge
      && h.challenge in Active(h.mode) && h.challenge !in Active(g.mode)
      && h.score == g.score && h.attempts == g.attempts
      && h.showingReward == g.showingReward && h.rewardImage == g.rewardImage
      && h.rewardTimer == g.rewardTimer
      && Switch(h, pick2, bgPick2).mode == g.mode
  {
    var h := Switch(g, pick, bgPick);
    ToggleAndLabel(g.mode, g.mode);
    ActiveEntry(Toggle(g.mode), pick);
    if h.challenge in Active(g.mode) {
      InActive(g.mode, h.challenge);
      assert false;
    }
  }

  /** Before 2000 ms have passed, `draw` changes nothing and paints the
      reward image. */
  lemma RewardHolds(g: Game, now: int, pick: nat, bgPick: nat)
    requires pick < |Active(g.mode)|
    requires RandomIndex(bgPick, |g.backgroundImages|)
    requires g.showingReward && g.rewardImage.Some?
    requires now - g.rewardTimer < RewardDuration
    ensures Tick(g, now, pick, bgPick) == g
    ensures Painted(g, now).reward == g.rewardImage
  {
  }

  /** From 2000 ms on, `draw` ends the reward and runs `newChallenge`; it no
      longer paints the reward image. */
  lemma RewardExpires(g: Game, now: int, pick: nat, bgPick: nat)
    requires pick < |Active(g.mode)|
    requires RandomIndex(bgPick, |g.backgroundImages|)
    requires g.showingReward && g.rewardImage.Some?
    requires now - g.rewardTimer >= RewardDuration
    ensures var h := Tick(g, now, pick, bgPick);
      && !h.showingReward
      && h == NewChallenge(g.(showingReward := false), pick, bgPick)
      && h.challenge == Active(g.mode)[pick]
    ensures Painted(g, now).reward == None
  {
  }

  /** A reward without an image is never ended by `draw`, however late. */
  lemma RewardWithoutImageStays(g: Game, now: int, pick: nat, bgPick: nat)
    requires pick < |Active(g.mode)|
    requires RandomIndex(bgPick, |g.backgroundImages|)
    requires g.rewardImage.None?
    ensures Tick(g, now, pick, bgPick) == g
    ensures Painted(g, now).reward == None
  {
  }

  /** `draw` paints the prompt exactly when it is shown, and labels the two
      modes "Letters" and "Cijfers". */
  lemma PaintedHud(g: Game, now: int)
    ensures Painted(g, now).prompt.Some? <==> g.showChallenge
    ensures Painted(g, now).prompt.Some? ==> Painted(g, now).prompt.value == g.challenge
    ensures Painted(g, now).modeText == (if g.mode == Letters then "Mode: Letters" else "Mode: Cijfers")
    ensures Painted(g, now).score == g.score
  {
  }

  // ---------------------------------------------------------------------
  // Sequences of transitions

  /** One thing that can happen to a running game. */
  datatype Step =
    | Press(input: string, now: int, rewardPick: nat)
    | SwitchMode(pick: nat, bgPick: nat)
    | Redraw(now: int, pick: nat, bgPick: nat)
    | RewardLoaded(image: Image)
    | BackgroundLoaded(image: Image)
    | BackgroundsDone

  /** The random draws of a step are ones `Math.random` can produce. */
  predicate Allowed(g: Game, s: Step)
  {
    match s
    case Press(_, _, k) => RandomIndex(k, |g.rewardImages|)
    case SwitchMode(k, b) => k < |Active(Toggle(g.mode))| && RandomIndex(b, |g.backgroundImages|)
    case Redraw(_, k, b) => k < |Active(g.mode)| && RandomIndex(b, |g.backgroundImages|)
    case _ => true
  }

  function Apply(g: Game, s: Step): Game
    requires Allowed(g, s)
  {
    match s
    case Press(input, now, k) => CheckAnswer(g, input, now, k)
    case SwitchMode(k, b) => Switch(g, k, b)
    case Redraw(now, k, b) => Tick(g, now, k, b)
    case RewardLoaded(img) => AddRewardImage(g, img)
    case BackgroundLoaded(img) => AddBackgroundImage(g, img)
    case BackgroundsDone => BackgroundsLoaded(g)
  }

  /** Every step of `steps` is allowed in the state it is taken in. */
  predicate Admissible(g: Game, steps: seq<Step>)
    decreases |steps|
  {
    steps == [] || (Allowed(g, steps[0]) && Admissible(Apply(g, steps[0]), steps[1..]))
  }

  function Run(g: Game, steps: seq<Step>): Game
    requires Admissible(g, steps)
    decreases |steps|
  {
    if steps == [] then g else Run(Apply(g, steps[0]), steps[1..])
  }

  /** How many presses along the run are judged correct. */
  function Corrects(g: Game, steps: seq<Step>): nat
    requires Admissible(g, steps)
    decreases |steps|
  {
    if steps == [] then 0
    else (if steps[0].Press? && IsCorrect(g, steps[0].input) then 1 else 0)
         + Corrects(Apply(g, steps[0]), steps[1..])
  }

  /** How many presses `steps` holds. */
  function Presses(steps: seq<Step>): nat
  {
    if steps == [] then 0 else (if steps[0].Press? then 1 else 0) + Presses(steps[1..])
  }

  /** Every step keeps the invariant. */
  lemma StepKeepsInv(g: Game, s: Step)
    requires Inv(g) && Allowed(g, s)
    ensures Inv(Apply(g, s))
  {
    match s
    case SwitchMode(k, b) => SwitchEffect(g, k, b, 0, if |g.backgroundImages| == 0 then 0 else b);
    case _ =>
  }

  /** The invariant holds after every run. */
  lemma {:induction false} RunKeepsInv(g: Game, steps: seq<Step>)
    requires Inv(g) && Admissible(g, steps)
    ensures Inv(Run(g, steps))
    decreases |steps|
  {
    if steps != [] {
      StepKeepsInv(g, steps[0]);
      RunKeepsInv(Apply(g, steps[0]), steps[1..]);
    }
  }

  /** The score grows by exactly the number of correct answers: no other
      step touches it. */
  lemma {:induction false} ScoreCountsCorrectAnswers(g: Game, steps: seq<Step>)
    requires Admissible(g, steps)
    ensures Run(g, steps).score == g.score + Corrects(g, steps)
    decreases |steps|
  {
    if steps != [] {
      ScoreCountsCorrectAnswers(Apply(g, steps[0]), steps[1..]);
    }
  }

  /** The score never decreases. */
  lemma ScoreNeverDecreases(g: Game, steps: seq<Step>)
    requires Admissible(g, steps)
    ensures Run(g, steps).score >= g.score
  {
    ScoreCountsCorrectAnswers(g, steps);
  }

  /** Until an answer is correct, every press is counted as one attempt:
      switching the mode and new challenges do not reset the count. */
  lemma {:induction false} AttemptsCountWrongPresses(g: Game, steps: seq<Step>)
    requires Admissible(g, steps)
    requires Corrects(g, steps) == 0
    ensures Run(g, steps).attempts == g.attempts + Presses(steps)
    decreases |steps|
  {
    if steps != [] {
      AttemptsCountWrongPresses(Apply(g, steps[0]), steps[1..]);
    }
  }

  /** A reward that started without an image (the reward pool was still
      empty) stays on, through mode switches and redraws at any time, until
      an answer is judged correct again. */
  lemma {:induction false} RewardWithoutImageNeverEnds(g: Game, steps: seq<Step>)
    requires Admissible(g, steps)
    requires g.showingReward && g.rewardImage.None?
    requires Corrects(g, steps) == 0
    ensures Run(g, steps).showingReward && Run(g, steps).rewardImage.None?
    decreases |steps|
  {
    if steps != [] {
      RewardWithoutImageNeverEnds(Apply(g, steps[0]), steps[1..]);
    }
  }

  /** The walk-through: in letters mode with challenge "A" and one reward
      image loaded, "b" is wrong, "a" is right, a redraw at 1999 ms keeps the
      reward and one at 2001 ms ends it with a new challenge. */
  lemma Walkthrough(t: int, img: Image, pick: nat)
    requires pick < |LetterKeys|
    ensures var g0 := AddRewardImage(Initial(0), img);
      var g1 := CheckAnswer(g0, "b", t - 5, 0);
      var g2 := CheckAnswer(g1, "a", t, 0);
      var g3 := Tick(g2, t + 1999, pick, 0);
      var g4 := Tick(g3, t + 2001, pick, 0);
      && g0.challenge == "A"
      && g1.attempts == 1 && g1.showChallenge && !g1.showingReward
      && g2.score == 1 && !g2.showChallenge && g2.showingReward && g2.rewardImage == Some(img)
      && g3 == g2
      && !g4.showingReward && g4.challenge == LetterKeys[pick] && g4.score == 1
  {
    var g0 := AddRewardImage(Initial(0), img);
    assert g0.challenge == "A";
    assert ToLower("A") == "a";
    assert "b" != "a";
  }
}
