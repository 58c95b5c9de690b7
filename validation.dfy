/**
 * The checks the POST /leaderboard handler of server.js applies to a
 * submission, in the order it applies them, and the record it then stores.
 */
module Validation {
  import opened Json
  import opened Text

  const MinSubmissionTimeMs: int := 2000
  const MaxNameLength: nat := 20
  const MinNameLength: nat := 1
  const AllowedModes: seq<string> := ["10", "60", "100"]
  /** The largest accepted score, 1000 seconds, in thousandths of a second. */
  const MaxScoreThousandths: nat := 1_000_000

  /** The request body of a submission, field by field. */
  datatype Submission = Submission(name: Value, mode: Value, score: Value, loadTimestamp: Value, honeypot: Value)

  /** One element of the scores store: `{name, mode, score}`. */
  datatype Record = Record(name: Value, mode: Value, score: Value)

  /** Why a submission is refused; each is answered with status 400 and its own message. */
  datatype ErrorKind =
    | BotDetected
    | InvalidSubmissionTime
    | InvalidName
    | InvalidMode
    | InvalidScoreFormat
    | InvalidScoreValue

  datatype Verdict = Accepted | Rejected(error: ErrorKind)

  // ----- NAME_REGEX = /^[a-zA-Z0-9 _\-]+$/ -----

  predicate IsNameChar(c: char)
  {
    ('a' <= c <= 'z') || ('A' <= c <= 'Z') || ('0' <= c <= '9') || c == ' ' || c == '_' || c == '-'
  }

  predicate MatchesNameRegex(s: string)
  {
    |s| >= 1 && forall i :: 0 <= i < |s| ==> IsNameChar(s[i])
  }

  // ----- SCORE_REGEX = /^\d+(\.\d{1,3})?$/ -----

  /** The regular expression, read as: a run of digits, then the end or a `.` and one to three digits. */
  predicate MatchesScoreRegex(s: string)
  {
    var k := LeadingDigits(s);
    k >= 1 && (k == |s| || (s[k] == '.' && 2 <= |s| - k <= 4 && AllDigits(s[k + 1..])))
  }

  /** The two shapes the regular expression admits, written out. */
  predicate ScoreShape(s: string)
  {
    (|s| >= 1 && AllDigits(s))
    || exists k :: 1 <= k < |s| && s[k] == '.' && AllDigits(s[..k]) && 1 <= |s| - k - 1 <= 3 && AllDigits(s[k + 1..])
  }

  lemma ScoreRegexShape(s: string)
    ensures MatchesScoreRegex(s) <==> ScoreShape(s)
  {
    var k := LeadingDigits(s);
    if MatchesScoreRegex(s) {
      if k == |s| {
        assert s[..k] == s;
      } else {
        assert s[k] == '.';
      }
    }
    if ScoreShape(s) {
      if |s| >= 1 && AllDigits(s) {
        assert s[..|s|] == s;
        LeadingDigitsAt(s, |s|);
      } else {
        var j :| 1 <= j < |s| && s[j] == '.' && AllDigits(s[..j]) && 1 <= |s| - j - 1 <= 3 && AllDigits(s[j + 1..]);
        LeadingDigitsAt(s, j);
      }
    }
  }

  /**
   * The value of a score string in thousandths of a second; `parseFloat`
   * without rounding, since at most three fractional digits are admitted.
   */
  function ScoreThousandths(s: string): nat
    requires MatchesScoreRegex(s)
  {
    var k := LeadingDigits(s);
    var whole := DigitsValue(s[..k]);
    if k == |s| then whole * 1000
    else
      var frac := s[k + 1..];
      whole * 1000 + DigitsValue(frac) * Pow10(3 - |frac|)
  }

  // ----- the six checks, in the order the handler runs them -----

  /** `if (honeypot)` rejects. */
  predicate HoneypotClear(sub: Submission)
  {
    !Truthy(sub.honeypot)
  }

  /** `loadTimestamp` is a number at least 2000 ms before the time of submission. */
  predicate TimeOk(sub: Submission, now: int)
  {
    sub.loadTimestamp.Num? && now - sub.loadTimestamp.n >= MinSubmissionTimeMs
  }

  /** A string of 1 to 20 characters, each a letter, digit, space, `_` or `-`. */
  predicate NameOk(v: Value)
  {
    v.Str? && MinNameLength <= |v.s| <= MaxNameLength && MatchesNameRegex(v.s)
  }

  /** `ALLOWED_MODES.includes(mode)`: strict equality, so only these three strings. */
  predicate ModeOk(v: Value)
  {
    v.Str? && v.s in AllowedModes
  }

  predicate ScoreFormatOk(v: Value)
  {
    v.Str? && MatchesScoreRegex(v.s)
  }

  /** The parsed score is in [0, 1000]; it cannot be negative or NaN once the format holds. */
  predicate ScoreValueOk(v: Value)
  {
    ScoreFormatOk(v) && ScoreThousandths(v.s) <= MaxScoreThousandths
  }

  /** Each check's outcome, in the order the handler tests them. */
  function Checks(sub: Submission, now: int): seq<bool>
  {
    [HoneypotClear(sub), TimeOk(sub, now), NameOk(sub.name), ModeOk(sub.mode),
     ScoreFormatOk(sub.score), ScoreValueOk(sub.score)]
  }

  /** The error each check reports, position by position with Checks. */
  const ErrorOrder: seq<ErrorKind> :=
    [BotDetected, InvalidSubmissionTime, InvalidName, InvalidMode, InvalidScoreFormat, InvalidScoreValue]

  /** Check `i` is the first of `checks` to fail. */
  predicate FirstFailure(checks: seq<bool>, i: int)
  {
    0 <= i < |checks| && !checks[i] && forall j :: 0 <= j < i ==> checks[j]
  }

  /**
   * The handler's chain of early returns. A submission is accepted exactly
   * when every check passes; otherwise the error is that of the first check
   * that fails.
   */
  function Validate(sub: Submission, now: int): (r: Verdict)
    ensures r == Accepted <==> forall i :: 0 <= i < |Checks(sub, now)| ==> Checks(sub, now)[i]
    ensures forall i :: 0 <= i < |Checks(sub, now)| && FirstFailure(Checks(sub, now), i) ==> r == Rejected(ErrorOrder[i])
  {
    var c := Checks(sub, now);
    assert |c| == 6 && c[0] == HoneypotClear(sub) && c[1] == TimeOk(sub, now) && c[2] == NameOk(sub.name) &&
      c[3] == ModeOk(sub.mode) && c[4] == ScoreFormatOk(sub.score) && c[5] == ScoreValueOk(sub.score);
    if Truthy(sub.honeypot) then
      assert FirstFailure(c, 0);
      Rejected(BotDetected)
    else if !sub.loadTimestamp.Num? || now - sub.loadTimestamp.n < MinSubmissionTimeMs then
      assert FirstFailure(c, 1);
      Rejected(InvalidSubmissionTime)
    else if !sub.name.Str? || |sub.name.s| < MinNameLength || |sub.name.s| > MaxNameLength || !MatchesNameRegex(sub.name.s) then
      assert FirstFailure(c, 2);
      Rejected(InvalidName)
    else if !(sub.mode.Str? && sub.mode.s in AllowedModes) then
      assert FirstFailure(c, 3);
      Rejected(InvalidMode)
    else if !sub.score.Str? || !MatchesScoreRegex(sub.score.s) then
      assert FirstFailure(c, 4);
      Rejected(InvalidScoreFormat)
    else if ScoreThousandths(sub.score.s) > MaxScoreThousandths then
      assert FirstFailure(c, 5);
      Rejected(InvalidScoreValue)
    else
      Accepted
  }

  /** What an accepted submission adds to the store: `{name: name.trim(), mode, score}`. */
  function ToRecord(sub: Submission): (r: Record)
    requires sub.name.Str?
    ensures r.name.Str? && exists i :: TrimmedAt(sub.name.s, r.name.s, i)
    ensures r.name.s == [] || (!IsJsWhitespace(r.name.s[0]) && !IsJsWhitespace(r.name.s[|r.name.s| - 1]))
    ensures r.mode == sub.mode && r.score == sub.score
  {
    Record(Str(Trim(sub.name.s)), sub.mode, sub.score)
  }

  // ----- the properties the handler promises -----

  /** A filled-in honeypot is refused as a bot whatever the other fields hold. */
  lemma HoneypotRejected(sub: Submission, now: int)
    requires Truthy(sub.honeypot)
    ensures Validate(sub, now) == Rejected(BotDetected)
  {
  }

  /** Without the honeypot, a missing or non-numeric load time, or one less than 2000 ms ago, is refused. */
  lemma TooFastRejected(sub: Submission, now: int)
    requires !Truthy(sub.honeypot)
    ensures Validate(sub, now) == Rejected(InvalidSubmissionTime) <==> !TimeOk(sub, now)
  {
  }

  /** A name of exactly 20 allowed characters passes the name check; 21 does not. */
  lemma NameLengthBoundary(s: string, c: char)
    requires |s| == MaxNameLength && MatchesNameRegex(s) && IsNameChar(c)
    ensures NameOk(Str(s)) && !NameOk(Str(s + [c]))
  {
  }

  lemma NameExamples()
    ensures !NameOk(Str("../etc")) && NameOk(Str("Bob_2")) && !NameOk(Str(""))
  {
    assert !IsNameChar("../etc"[0]);
  }

  /** Only the three mode strings pass; "30" and the number 10 do not. */
  lemma ModeExamples()
    ensures ModeOk(Str("10")) && ModeOk(Str("60")) && ModeOk(Str("100"))
    ensures !ModeOk(Str("30")) && !ModeOk(Num(10))
  {
  }

  /** A score written as digits, a point and one to three digits has the value the decimal denotes. */
  lemma ScoreOfParts(whole: string, frac: string)
    requires |whole| >= 1 && AllDigits(whole) && 1 <= |frac| <= 3 && AllDigits(frac)
    ensures MatchesScoreRegex(whole + "." + frac)
    ensures ScoreThousandths(whole + "." + frac) == DigitsValue(whole) * 1000 + DigitsValue(frac) * Pow10(3 - |frac|)
  {
    var s := whole + "." + frac;
    assert s[..|whole|] == whole && s[|whole|] == '.' && s[|whole| + 1..] == frac;
    LeadingDigitsAt(s, |whole|);
  }

  lemma ScoreExampleThreeDecimals()
    ensures ScoreValueOk(Str("10.123")) && ScoreThousandths("10.123") == 10123
  {
    var whole, frac := NatToString(10), NatToString(123);
    NatToStringRoundTrip(10);
    NatToStringRoundTrip(123);
    ScoreOfParts(whole, frac);
    assert whole + "." + frac == "10.123";
  }

  lemma ScoreExampleTwoDecimals()
    ensures ScoreValueOk(Str("10.05")) && ScoreThousandths("10.05") == 10050
  {
    var whole, frac := NatToString(10), "0" + NatToString(5);
    NatToStringRoundTrip(10);
    NatToStringRoundTrip(5);
    LeadingZeros("0", NatToString(5));
    ScoreOfParts(whole, frac);
    assert whole + "." + frac == "10.05";
  }

  lemma ScoreExamplesBadFormat()
    ensures !ScoreFormatOk(Str("10.1234")) && !ScoreFormatOk(Str("-1")) && !ScoreFormatOk(Str("1."))
  {
    LeadingDigitsAt("10.1234", 2);
    LeadingDigitsAt("-1", 0);
    LeadingDigitsAt("1.", 1);
  }

  lemma WholeScore(n: nat)
    ensures MatchesScoreRegex(NatToString(n)) && ScoreThousandths(NatToString(n)) == n * 1000
  {
    var s := NatToString(n);
    assert s[..|s|] == s;
    LeadingDigitsAt(s, |s|);
    NatToStringRoundTrip(n);
  }

  /** "1500" has the right format but too large a value; "1000" passes. */
  lemma ScoreExamplesWhole()
    ensures ScoreFormatOk(Str("1500")) && !ScoreValueOk(Str("1500"))
    ensures ScoreValueOk(Str("1000"))
  {
    WholeScore(1500);
    WholeScore(1000);
    assert NatToString(1500) == "1500";
    assert NatToString(1000) == "1000";
  }

  /** Just above the limit: "1000.001" is refused for its value. */
  lemma ScoreExampleAboveLimit()
    ensures ScoreFormatOk(Str("1000.001")) && !ScoreValueOk(Str("1000.001"))
  {
    NatToStringRoundTrip(1000);
    assert NatToString(1000) == "1000";
    assert DigitsValue("1") == 1 by { assert "1"[..0] == ""; }
    LeadingZeros("00", "1");
    assert "00" + "1" == "001";
    ScoreOfParts("1000", "001");
    assert "1000" + "." + "001" == "1000.001";
  }

  /**
   * The stored name is the trimmed name, so a name of spaces only passes the
   * checks and is stored as the empty string.
   */
  lemma BlankNameStoredEmpty(sub: Submission, now: int)
    requires sub.name == Str("   ")
    requires Validate(sub, now) == Accepted
    ensures ToRecord(sub).name == Str("")
  {
  }
}
