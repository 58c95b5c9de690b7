/**
 * The two handlers of server.js over an in-memory store of records: POST
 * validates a submission and appends it, GET builds the ranked leaderboard.
 */
module Server {
  import opened Json
  import opened Text
  import opened Validation
  import opened Ranking

  /** The contents of the scores file, in the order the records were added. */
  class Store {
    var records: seq<Record>

    constructor (initial: seq<Record>)
      ensures records == initial
    {
      records := initial;
    }

    /** `scores.push(record)`. */
    method Append(r: Record)
      modifies this
      ensures records == old(records) + [r]
    {
      records := records + [r];
    }

    /**
     * POST /leaderboard at time `now`: the verdict of the checks; only an
     * accepted submission changes the store, by exactly one record at the end.
     */
    method Post(sub: Submission, now: int) returns (verdict: Verdict)
      modifies this
      ensures verdict == Validate(sub, now)
      ensures verdict == Accepted ==> sub.name.Str? && records == old(records) + [ToRecord(sub)]
      ensures verdict != Accepted ==> records == old(records)
    {
      verdict := Validate(sub, now);
      if verdict == Accepted {
        assert Checks(sub, now)[2];
        Append(ToRecord(sub));
      }
    }

    /**
     * GET /leaderboard: group the eligible records by mode with their
     * deviation, sort each group, keep its first 20, and concatenate the
     * groups of modes 10, 60 and 100.
     */
    method Get() returns (final: seq<Entry>)
      ensures final == Leaderboard(records)
    {
      var m10, m60, m100 := [], [], [];
      var i := 0;
      while i < |records|
        invariant 0 <= i <= |records|
        invariant m10 == Group(records[..i], "10")
        invariant m60 == Group(records[..i], "60")
        invariant m100 == Group(records[..i], "100")
      {
        var sc := records[i];
        if sc.mode.Str? && sc.mode.s in AllowedModes && sc.score.Str? && MatchesScoreRegex(sc.score.s) {
          var numericScore := ScoreThousandths(sc.score.s);
          var target := Target(sc.mode.s);
          var entry := Entry(sc.name, sc.mode.s, sc.score.s, RoundedDeviation(numericScore, target));
          if sc.mode.s == "10" {
            m10 := m10 + [entry];
          } else if sc.mode.s == "60" {
            m60 := m60 + [entry];
          } else {
            m100 := m100 + [entry];
          }
        }
        assert records[..i + 1][..i] == records[..i];
        i := i + 1;
      }
      assert records[..|records|] == records;
      var top10 := SortedTop(m10);
      var top60 := SortedTop(m60);
      var top100 := SortedTop(m100);
      final := top10 + top60 + top100;
    }
  }

  /** `modes[m].sort(...)` followed by `modes[m] = modes[m].slice(0, 20)`. */
  method SortedTop(group: seq<Entry>) returns (top: seq<Entry>)
    ensures top == Top(StableSort(group))
  {
    var a := new Entry[|group|](k requires 0 <= k < |group| => group[k]);
    assert a[..] == group;
    SortByDeviation(a);
    top := a[..Min(TopN, a.Length)];
  }

  /** What POST stores always passes GET's filter, with a score of at most 1000 seconds. */
  lemma AcceptedRecordEligible(sub: Submission, now: int)
    requires Validate(sub, now) == Accepted
    ensures sub.name.Str? && Eligible(ToRecord(sub))
    ensures ScoreThousandths(ToRecord(sub).score.s) <= MaxScoreThousandths
  {
    assert Checks(sub, now)[2] && Checks(sub, now)[3] && Checks(sub, now)[5];
  }

  /** Appending a record adds its row at the end of its own mode's group and nowhere else. */
  lemma GroupAppend(store: seq<Record>, r: Record, m: string)
    ensures Group(store + [r], m) ==
      Group(store, m) + (if Eligible(r) && r.mode.s == m then [EntryOf(r)] else [])
  {
    assert (store + [r])[..|store|] == store;
  }

  lemma GroupSingle(r: Record, m: string)
    ensures Group([r], m) == if Eligible(r) && r.mode.s == m then [EntryOf(r)] else []
  {
    GroupAppend([], r, m);
    assert [] + [r] == [r];
  }

  /** A leaderboard over a store of one eligible record of mode 10 shows just that record's row. */
  lemma SingleRecordLeaderboard(r: Record)
    requires Eligible(r) && r.mode.s == "10"
    ensures Leaderboard([r]) == [EntryOf(r)]
  {
    GroupSingle(r, "10");
    GroupSingle(r, "60");
    GroupSingle(r, "100");
    var e := EntryOf(r);
    assert StableSort([e]) == Insert(StableSort([]), e) by { assert [e][..0] == []; }
    assert Block([r], "10") == [e];
    assert Block([r], "60") == [] && Block([r], "100") == [];
  }

  lemma AliceScore()
    ensures MatchesScoreRegex("10.050") && ScoreThousandths("10.050") == 10050
  {
    var whole, frac := NatToString(10), "0" + NatToString(50);
    NatToStringRoundTrip(10);
    NatToStringRoundTrip(50);
    LeadingZeros("0", NatToString(50));
    ScoreOfParts(whole, frac);
    assert whole + "." + frac == "10.050";
  }

  lemma AliceAccepted(now: int, load: int)
    requires now - load >= MinSubmissionTimeMs
    ensures Validate(Submission(Str("Alice"), Str("10"), Str("10.050"), Num(load), Absent), now) == Accepted
  {
    var sub := Submission(Str("Alice"), Str("10"), Str("10.050"), Num(load), Absent);
    AliceScore();
    assert NameOk(sub.name);
    assert ModeOk(sub.mode);
    assert ScoreValueOk(sub.score);
    assert forall i :: 0 <= i < |Checks(sub, now)| ==> Checks(sub, now)[i];
  }

  lemma AliceStored(load: int)
    ensures ToRecord(Submission(Str("Alice"), Str("10"), Str("10.050"), Num(load), Absent))
            == Record(Str("Alice"), Str("10"), Str("10.050"))
  {
    var s := "Alice";
    assert s[0] == 'A' && s[|s| - 1] == 'e';
    TrimUnchanged(s);
  }

  lemma AliceRanked()
    ensures Leaderboard([Record(Str("Alice"), Str("10"), Str("10.050"))]) == [Entry(Str("Alice"), "10", "10.050", 50)]
  {
    var r := Record(Str("Alice"), Str("10"), Str("10.050"));
    AliceScore();
    assert EntryOf(r) == Entry(Str("Alice"), "10", "10.050", 50);
    SingleRecordLeaderboard(r);
  }

  /**
   * The worked example: Alice submits 10.050 s in mode 10 to an empty store;
   * the submission is accepted and the leaderboard then shows her alone,
   * with deviation 0.50 %.
   */
  lemma AliceExample(now: int, load: int)
    requires now - load >= MinSubmissionTimeMs
    ensures var sub := Submission(Str("Alice"), Str("10"), Str("10.050"), Num(load), Absent);
      Validate(sub, now) == Accepted &&
      Leaderboard([ToRecord(sub)]) == [Entry(Str("Alice"), "10", "10.050", 50)]
  {
    AliceAccepted(now, load);
    AliceStored(load);
    AliceRanked();
  }
}
