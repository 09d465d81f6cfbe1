/** The game object itself: the fields `LetterGame` updates in place and one
    method per operation, each proved to move the fields exactly as the
    matching function of `GameModel` says. Random draws come in as index
    parameters, the clock as `now`. */
module LetterGameObject {
  import opened Vocabulary
  import opened GameModel

  class LetterGame {
    var score: nat
    var mode: Mode
    var currentChallenge: string
    var showChallenge: bool
    var attempts: nat
    var showingReward: bool
    var rewardTimer: int
    var currentRewardImage: Option<Image>
    var currentBackground: Option<Image>
    var rewardImages: seq<Image>
    var backgroundImages: seq<Image>

    /** The characters whose audio cue the game has asked for, oldest first. */
    ghost var cues: seq<string>

    /** The fields, as a value of the model. */
    function State(): Game
      reads this
    {
      Game(score, mode, currentChallenge, showChallenge, attempts, showingReward,
           rewardTimer, currentRewardImage, currentBackground, rewardImages, backgroundImages)
    }

    ghost predicate Valid()
      reads this
    {
      Inv(State())
    }

    /** Builds the game and starts the first challenge, drawn from the
        letters; no image has loaded yet. */
    constructor (pick: nat)
      requires pick < |LetterKeys|
      ensures Valid()
      ensures State() == Initial(pick)
      ensures cues == [currentChallenge]
    {
      score := 0;
      mode := Letters;
      showChallenge := false;
      attempts := 0;
      showingReward := false;
      rewardTimer := 0;
      currentRewardImage := None;
      currentBackground := None;
      rewardImages := [];
      backgroundImages := [];
      currentChallenge := LetterKeys[pick];
      cues := [currentChallenge];
      InitialValid(pick);
    }

    /** A reward image finished loading. */
    method AddRewardImage(img: Image)
      requires Valid()
      modifies this
      ensures Valid()
      ensures State() == GameModel.AddRewardImage(old(State()), img)
      ensures cues == old(cues)
    {
      rewardImages := rewardImages + [img];
    }

    /** A background image finished loading. */
    method AddBackgroundImage(img: Image)
      requires Valid()
      modifies this
      ensures Valid()
      ensures State() == GameModel.AddBackgroundImage(old(State()), img)
      ensures cues == old(cues)
    {
      backgroundImages := backgroundImages + [img];
    }

    /** All backgrounds have loaded: show the first one. */
    method BackgroundsLoaded()
      requires Valid()
      modifies this
      ensures Valid()
      ensures State() == GameModel.BackgroundsLoaded(old(State()))
      ensures |backgroundImages| > 0 ==> currentBackground == Some(backgroundImages[0])
      ensures cues == old(cues)
    {
      if |backgroundImages| > 0 {
        currentBackground := Some(backgroundImages[0]);
      }
    }

    method ChangeBackground(bgPick: nat)
      requires Valid()
      requires RandomIndex(bgPick, |backgroundImages|)
      modifies this
      ensures Valid()
      ensures State() == GameModel.ChangeBackground(old(State()), bgPick)
      ensures old(|backgroundImages|) == 0 ==> currentBackground == old(currentBackground)
      ensures cues == old(cues)
    {
      if |backgroundImages| > 0 {
        currentBackground := Some(backgroundImages[bgPick]);
      }
    }

    method NewChallenge(pick: nat, bgPick: nat)
      requires InvExceptChallenge(State())
      requires pick < |Active(mode)|
      requires RandomIndex(bgPick, |backgroundImages|)
      modifies this
      ensures Valid()
      ensures State() == GameModel.NewChallenge(old(State()), pick, bgPick)
      ensures currentChallenge in Active(mode)
      ensures score == old(score) && attempts == old(attempts) && showChallenge == old(showChallenge)
      ensures cues == old(cues) + [currentChallenge]
    {
      currentChallenge := if mode == Letters then LetterKeys[pick] else DigitKeys[pick];
      cues := cues + [currentChallenge];
      ChangeBackground(bgPick);
    }

    /** Starts the reward overlay at `now` with the reward image at the
        drawn index (no image while the pool is empty). */
    method ShowReward(now: int, rewardPick: nat)
      requires Valid()
      requires RandomIndex(rewardPick, |rewardImages|)
      modifies this
      ensures Valid()
      ensures State() == GameModel.ShowReward(old(State()), now, rewardPick)
      ensures showingReward && rewardTimer == now
      ensures cues == old(cues)
    {
      showingReward := true;
      rewardTimer := now;
      currentRewardImage := if rewardPick < |rewardImages| then Some(rewardImages[rewardPick]) else None;
    }

    /** Judges `input` against the lower-cased challenge. A correct answer
        scores a point and starts the reward; a wrong one counts an attempt,
        shows the prompt and asks for the cue again. */
    method CheckAnswer(input: string, now: int, rewardPick: nat) returns (correct: bool)
      requires Valid()
      requires RandomIndex(rewardPick, |rewardImages|)
      modifies this
      ensures Valid()
      ensures correct <==> input == ToLower(old(currentChallenge))
      ensures State() == GameModel.CheckAnswer(old(State()), input, now, rewardPick)
      ensures score == old(score) + (if correct then 1 else 0)
      ensures correct ==> showingReward && rewardTimer == now && !showChallenge && attempts == 0
      ensures !correct ==> showChallenge && attempts == old(attempts) + 1
      ensures currentChallenge == old(currentChallenge) && mode == old(mode)
      ensures cues == if correct then old(cues) else old(cues) + [currentChallenge]
    {
      correct := input == ToLower(currentChallenge);
      if correct {
        score := score + 1;
        ShowReward(now, rewardPick);
        showChallenge := false;
        attempts := 0;
      } else {
        attempts := attempts + 1;
        showChallenge := true;
        cues := cues + [currentChallenge];
      }
    }

    /** The Switch key: other mode, prompt hidden, a challenge from the new
        vocabulary; score and attempts stay. */
    method Switch(pick: nat, bgPick: nat)
      requires Valid()
      requires pick < |Active(Toggle(mode))|
      requires RandomIndex(bgPick, |backgroundImages|)
      modifies this
      ensures Valid()
      ensures State() == GameModel.Switch(old(State()), pick, bgPick)
      ensures mode == Toggle(old(mode)) && !showChallenge && currentChallenge in Active(mode)
      ensures score == old(score) && attempts == old(attempts)
      ensures cues == old(cues) + [currentChallenge]
    {
      mode := if mode == Letters then Numbers else Letters;
      showChallenge := false;
      NewChallenge(pick, bgPick);
    }

    /** One frame: paints from the current state and, when the reward has
        been up for 2000 ms, ends it and starts a new challenge. */
    method Draw(now: int, pick: nat, bgPick: nat) returns (screen: Screen)
      requires Valid()
      requires pick < |Active(mode)|
      requires RandomIndex(bgPick, |backgroundImages|)
      modifies this
      ensures Valid()
      ensures screen == Painted(old(State()), now)
      ensures State() == Tick(old(State()), now, pick, bgPick)
      ensures cues == if RewardExpired(old(State()), now) then old(cues) + [currentChallenge] else old(cues)
    {
      var prompt := if showChallenge then Some(currentChallenge) else None;
      var background := currentBackground;
      var reward := None;
      if showingReward && currentRewardImage.Some? {
        if now - rewardTimer < RewardDuration {
          reward := currentRewardImage;
        } else {
          showingReward := false;
          NewChallenge(pick, bgPick);
        }
      }
      screen := Screen(background, prompt, reward, score, "Mode: " + ModeLabel(mode));
    }
  }
}
