/**
 * The browser side of public/app.js: the Timer, the game's three states
 * driven by the main button, the final-time display and the score the
 * client submits. Clock readings are passed in as `now`, in milliseconds.
 */
module Client {
  import opened Json
  import opened Text
  import opened Validation
  import Ranking

  /** A stopwatch: `startTime` and `stopTime` are null until set. */
  class Timer {
    var startTime: Option<int>
    var stopTime: Option<int>
    var isRunning: bool

    constructor ()
      ensures startTime == None && stopTime == None && !isRunning
    {
      startTime, stopTime, isRunning := None, None, false;
    }

    /** Records the start, forgets any earlier stop, and runs. */
    method Start(now: int)
      modifies this
      ensures startTime == Some(now) && stopTime == None && isRunning
    {
      startTime := Some(now);
      stopTime := None;
      isRunning := true;
    }

    /** Records the stop and stops running; the start is kept. */
    method Stop(now: int)
      modifies this
      ensures startTime == old(startTime) && stopTime == Some(now) && !isRunning
    {
      stopTime := Some(now);
      isRunning := false;
    }

    /** `getDuration()` when the clock reads `now`. */
    function Duration(now: int): int
      reads this
    {
      if startTime.None? then 0
      else if isRunning then now - startTime.value
      else if stopTime.Some? then stopTime.value - startTime.value
      else 0
    }
  }

  /** A timer started at `t0` and stopped at `t1` measures `t1 - t0` whenever it is read. */
  method TimeRound(t0: int, t1: int, later: int) returns (fresh0: int, d: int)
    ensures fresh0 == 0 && d == t1 - t0
  {
    var t := new Timer();
    fresh0 := t.Duration(later);
    t.Start(t0);
    t.Stop(t1);
    d := t.Duration(later);
  }

  // ----- showFinalTime -----

  /** JavaScript's `a % b` for `b > 0`: the remainder takes the sign of `a`. */
  function JsRem(a: int, b: nat): int
    requires b > 0
  {
    if a >= 0 then a % b else -((-a) % b)
  }

  /**
   * The two texts `showFinalTime` displays for a duration: the seconds
   * (`Math.floor(duration / 1000)`, padded to two digits) and the
   * milliseconds (`duration % 1000`, padded to three).
   */
  function FinalTime(duration: int): (string, string)
  {
    var s := duration / 1000;
    var ms := JsRem(duration, 1000);
    var secStr := if s < 10 then "0" + IntToString(s) else IntToString(s);
    var msStr := if ms < 10 then "00" + IntToString(ms) else if ms < 100 then "0" + IntToString(ms) else IntToString(ms);
    (secStr, msStr)
  }

  /**
   * For a duration that is not negative, the seconds text has at least two
   * digits, the milliseconds text exactly three, and reading them back gives
   * the duration.
   */
  lemma FinalTimeRoundTrip(duration: nat)
    ensures var (secStr, msStr) := FinalTime(duration);
      |secStr| >= 2 && AllDigits(secStr) && |msStr| == 3 && AllDigits(msStr) &&
      DigitsValue(secStr) * 1000 + DigitsValue(msStr) == duration
  {
    var s, ms := duration / 1000, duration % 1000;
    var (secStr, msStr) := FinalTime(duration);
    NatToStringRoundTrip(s);
    NatToStringRoundTrip(ms);
    if s < 10 {
      LeadingZeros("0", NatToString(s));
    }
    if ms < 10 {
      LeadingZeros("00", NatToString(ms));
    } else if ms < 100 {
      LeadingZeros("0", NatToString(ms));
    }
    assert DigitsValue(secStr) == s && DigitsValue(msStr) == ms;
  }

  // ----- the submitted score: (duration / 1000).toFixed(3) -----

  function Zeros(k: nat): (z: string)
    ensures |z| == k && forall i :: 0 <= i < k ==> z[i] == '0'
  {
    seq(k, _ => '0')
  }

  /** The digits of `n`, padded on the left with zeros to at least four. */
  function PaddedDigits(n: nat): string
  {
    var m := NatToString(n);
    if |m| <= 3 then Zeros(4 - |m|) + m else m
  }

  /**
   * `(n / 1000).toFixed(3)` for `n >= 0`, as the language standard defines
   * it: the digits of `n`, padded with zeros to at least four, with a point
   * before the last three.
   */
  function ToFixed3(n: nat): string
  {
    var padded := PaddedDigits(n);
    padded[..|padded| - 3] + "." + padded[|padded| - 3..]
  }

  /** The score string `submitScore` sends for a duration; a negative one gets a minus sign. */
  function ScoreString(duration: int): string
  {
    if duration < 0 then "-" + ToFixed3(-duration) else ToFixed3(duration)
  }

  lemma PaddedDigitsValue(n: nat)
    ensures |PaddedDigits(n)| >= 4 && AllDigits(PaddedDigits(n)) && DigitsValue(PaddedDigits(n)) == n
  {
    var m := NatToString(n);
    NatToStringRoundTrip(n);
    if |m| <= 3 {
      LeadingZeros(Zeros(4 - |m|), m);
    }
  }

  /** Putting a point before the last three of at least four digits gives a score the server reads as their value. */
  lemma PointBeforeLastThree(p: string)
    requires |p| >= 4 && AllDigits(p)
    ensures var s := p[..|p| - 3] + "." + p[|p| - 3..];
      |s| >= 5 && s[|s| - 4] == '.' && AllDigits(s[|s| - 3..]) &&
      MatchesScoreRegex(s) && ScoreThousandths(s) == DigitsValue(p)
  {
    var whole, frac := p[..|p| - 3], p[|p| - 3..];
    AllDigitsSlice(p, 0, |p| - 3);
    AllDigitsSlice(p, |p| - 3, |p|);
    assert p == whole + frac;
    DigitsValueConcat(whole, frac);
    assert Pow10(3) == 1000 && Pow10(0) == 1;
    ScoreOfParts(whole, frac);
    var s := whole + "." + frac;
    assert s[|s| - 3..] == frac;
  }

  /**
   * The score string of a non-negative duration has exactly three
   * fractional digits, so it always has the format the server demands, and
   * the server reads it back as the duration.
   */
  lemma ScoreStringRoundTrip(duration: nat)
    ensures var s := ScoreString(duration);
      |s| >= 5 && s[|s| - 4] == '.' && AllDigits(s[|s| - 3..]) &&
      MatchesScoreRegex(s) && ScoreThousandths(s) == duration
  {
    PaddedDigitsValue(duration);
    PointBeforeLastThree(PaddedDigits(duration));
  }

  /** A negative duration gives a score the server refuses for its format. */
  lemma NegativeScoreRefused(duration: int)
    requires duration < 0
    ensures !MatchesScoreRegex(ScoreString(duration))
  {
    LeadingDigitsAt(ScoreString(duration), 0);
  }

  /** The server's score checks on the client's score string: well formed exactly when the duration is not negative, in range up to 1000 s. */
  lemma ClientScoreChecks(duration: int)
    ensures ScoreFormatOk(Str(ScoreString(duration))) <==> duration >= 0
    ensures ScoreValueOk(Str(ScoreString(duration))) <==> 0 <= duration <= MaxScoreThousandths
  {
    if duration >= 0 {
      ScoreStringRoundTrip(duration);
    } else {
      NegativeScoreRefused(duration);
    }
  }

  // ----- the game -----

  datatype Phase = Idle | Running | Finished

  /** The main button's cycle. */
  function NextPhase(p: Phase): Phase
  {
    match p
    case Idle => Running
    case Running => Finished
    case Finished => Idle
  }

  /** The name `submitScore` sends: the trimmed input, or "Anonymous" when that is empty. */
  function PlayerName(input: string): (name: string)
    ensures name != ""
    ensures Trim(input) == "" ==> name == "Anonymous"
    ensures Trim(input) != "" ==> exists i :: TrimmedAt(input, name, i)
    ensures Trim(input) != "" ==> !IsJsWhitespace(name[0]) && !IsJsWhitespace(name[|name| - 1])
  {
    var t := Trim(input);
    if t == "" then "Anonymous" else t
  }

  /** Does a running duration reach the mode's target (`Math.floor(d / 1000) >= parseInt(mode)`)? */
  predicate TargetReached(duration: int, mode: string)
  {
    match ParseInt(mode)
    case None => false
    case Some(target) => duration / 1000 >= target
  }

  /** For the page's modes, the poll stops once the whole seconds reach 10, 60 or 100. */
  lemma TargetReachedAt(duration: int, mode: string)
    requires mode in AllowedModes
    ensures TargetReached(duration, mode) <==> duration / 1000 >= Ranking.Target(mode)
  {
    Ranking.ModeTarget(mode);
  }

  /** The page's global state: the active stopwatch, the mode and the two flags. */
  class Game {
    var stopWatch: Timer
    var currentMode: string
    var isCounting: bool
    var isFinished: bool

    /** The state the two flags encode, tested in the order the main button tests them. */
    function Phase(): Phase
      reads this
    {
      if !isCounting && !isFinished then Idle
      else if isCounting && !isFinished then Running
      else Finished
    }

    /**
     * Both flags are never set at once, and the stopwatch matches the
     * state: never started when idle, running when running, stopped when
     * finished.
     */
    predicate Valid()
      reads this, stopWatch
    {
      && !(isCounting && isFinished)
      && (Phase() == Idle ==> stopWatch.startTime.None? && stopWatch.stopTime.None? && !stopWatch.isRunning)
      && (Phase() == Running ==> stopWatch.startTime.Some? && stopWatch.stopTime.None? && stopWatch.isRunning)
      && (Phase() == Finished ==> stopWatch.startTime.Some? && stopWatch.stopTime.Some? && !stopWatch.isRunning)
    }

    /** The page as loaded: mode 10, idle, a stopwatch never started. */
    constructor ()
      ensures Valid() && Phase() == Idle && currentMode == "10"
    {
      stopWatch := new Timer();
      currentMode := "10";
      isCounting := false;
      isFinished := false;
    }

    /** `resetTimerDisplay`: back to idle with a fresh stopwatch, from any state. */
    method ResetTimerDisplay()
      modifies this
      ensures Valid() && Phase() == Idle
      ensures fresh(stopWatch) && stopWatch.startTime.None?
      ensures currentMode == old(currentMode)
    {
      isCounting := false;
      isFinished := false;
      stopWatch := new Timer();
    }

    /** `switchMode(mode)`: records the mode and resets, whatever the state. */
    method SwitchMode(mode: string)
      modifies this
      ensures Valid() && Phase() == Idle && currentMode == mode
      ensures fresh(stopWatch) && stopWatch.startTime.None?
    {
      currentMode := mode;
      ResetTimerDisplay();
    }

    /**
     * `onMainButtonClick` at time `now`: Idle starts a new stopwatch,
     * Running stops it, Finished resets.
     */
    method OnMainButtonClick(now: int)
      requires Valid()
      modifies this, stopWatch
      ensures Valid()
      ensures Phase() == NextPhase(old(Phase()))
      ensures currentMode == old(currentMode)
      ensures old(Phase()) == Idle ==> fresh(stopWatch) && stopWatch.startTime == Some(now)
      ensures old(Phase()) == Running ==>
        stopWatch == old(stopWatch) && stopWatch.startTime == old(stopWatch.startTime) && stopWatch.stopTime == Some(now)
      ensures old(Phase()) == Finished ==> fresh(stopWatch) && stopWatch.startTime.None?
    {
      if !isCounting && !isFinished {
        stopWatch := new Timer();
        stopWatch.Start(now);
        isCounting := true;
        isFinished := false;
      } else if isCounting && !isFinished {
        stopWatch.Stop(now);
        isCounting := false;
        isFinished := true;
      } else if isFinished {
        ResetTimerDisplay();
      }
    }

    /**
     * `updateDisplay` at time `now`, which the page runs only while the
     * stopwatch is running: once the whole seconds reach the mode's target
     * the stopwatch is stopped and the game is finished; otherwise nothing
     * changes.
     */
    method UpdateDisplay(now: int)
      requires Valid() && Phase() == Running
      modifies this, stopWatch
      ensures Valid() && stopWatch == old(stopWatch) && currentMode == old(currentMode)
      ensures TargetReached(old(stopWatch.Duration(now)), currentMode) ==>
        Phase() == Finished && stopWatch.startTime == old(stopWatch.startTime) && stopWatch.stopTime == Some(now)
      ensures !TargetReached(old(stopWatch.Duration(now)), currentMode) ==>
        Phase() == Running && unchanged(this, stopWatch)
    {
      var duration := stopWatch.Duration(now);
      var s := duration / 1000;
      var target := ParseInt(currentMode);
      if target.Some? && s >= target.value {
        stopWatch.Stop(now);
        isCounting := false;
        isFinished := true;
      }
    }

    /**
     * `submitScore` with the name field holding `nameInput`: nothing unless
     * the game is finished; otherwise the body it posts, whose score is the
     * stopwatch's stopped duration. The body has no load time and no
     * honeypot.
     */
    method SubmitScore(nameInput: string, now: int) returns (payload: Option<Submission>)
      requires Valid()
      ensures payload.None? <==> Phase() != Finished
      ensures payload.Some? ==> payload.value == Submission(
        Str(PlayerName(nameInput)), Str(currentMode),
        Str(ScoreString(stopWatch.stopTime.value - stopWatch.startTime.value)), Absent, Absent)
    {
      if !isFinished {
        return None;
      }
      var playerName := Trim(nameInput);
      if playerName == "" {
        playerName := "Anonymous";
      }
      var duration := stopWatch.Duration(now);
      var finalSeconds := ScoreString(duration);
      payload := Some(Submission(Str(playerName), Str(currentMode), Str(finalSeconds), Absent, Absent));
    }
  }

  /**
   * The server refuses every body the client sends: without a load time the
   * submission-time check fails, whatever the name, mode and score.
   */
  lemma ClientSubmissionRefused(sub: Submission, now: int)
    requires sub.loadTimestamp == Absent && sub.honeypot == Absent
    ensures Validate(sub, now) == Rejected(InvalidSubmissionTime)
  {
  }

  /**
   * Had the body carried a load time at least 2000 ms old and no honeypot,
   * the server would accept it exactly when the name and mode pass and the
   * duration is between 0 and 1000 s.
   */
  lemma PayloadWithLoadTime(name: string, mode: string, duration: int, load: int, now: int)
    requires now - load >= MinSubmissionTimeMs
    ensures Validate(Submission(Str(name), Str(mode), Str(ScoreString(duration)), Num(load), Absent), now) == Accepted
      <==> NameOk(Str(name)) && ModeOk(Str(mode)) && 0 <= duration <= MaxScoreThousandths
  {
    ClientScoreChecks(duration);
  }

  /**
   * The page from load to the end of a round: choose a mode, start at `t0`
   * and stop at `t1`. The game is finished with a timer started at `t0`
   * and stopped at `t1`.
   */
  method PlayUntilFinished(mode: string, t0: int, t1: int) returns (game: Game)
    ensures game.Valid() && game.Phase() == Finished && game.currentMode == mode
    ensures game.stopWatch.startTime == Some(t0) && game.stopWatch.stopTime == Some(t1)
  {
    game := new Game();
    game.SwitchMode(mode);
    game.OnMainButtonClick(t0);
    assert game.stopWatch.startTime == Some(t0);
    game.OnMainButtonClick(t1);
  }

  /**
   * A whole round as the page plays it: choose a mode, start at `t0`, stop
   * at `t1` and submit. The body carries the duration `t1 - t0` and is
   * refused for its missing load time.
   */
  method PlayRound(mode: string, t0: int, t1: int, nameInput: string, now: int)
    returns (payload: Option<Submission>)
    ensures payload == Some(Submission(Str(PlayerName(nameInput)), Str(mode), Str(ScoreString(t1 - t0)), Absent, Absent))
    ensures Validate(payload.value, now) == Rejected(InvalidSubmissionTime)
  {
    var game := PlayUntilFinished(mode, t0, t1);
    payload := game.SubmitScore(nameInput, now);
    assert game.stopWatch.startTime == Some(t0) && game.stopWatch.stopTime == Some(t1);
    assert game.stopWatch.stopTime.value - game.stopWatch.startTime.value == t1 - t0;
    ClientSubmissionRefused(payload.value, now);
  }
}
