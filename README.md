# stopwatchGame — a Dafny model

stopwatchGame is a browser game. The player starts a stopwatch and tries to
stop it exactly on a target of 10, 60 or 100 seconds, then submits the time
to a leaderboard server. This project models the two pieces of logic in it.

**The server** (`server.js`) does two things:
- `POST /leaderboard` runs a submission through an ordered chain of checks:
  honeypot, minimum time since the page loaded, name, mode, score format and
  score range. The first check that fails decides the error. A submission
  that passes them all is appended to the store as `{name.trim(), mode, score}`.
- `GET /leaderboard` keeps the records with an allowed mode and a well-formed
  score string. It computes each one's percentage deviation from its target
  and groups the records by mode. Each group is stable-sorted by deviation
  and cut to its first 20. The groups are sent in the order 10, 60, 100.

**The client** (`public/app.js`) holds:
- a `Timer` object;
- a three-state game (idle, running, finished) driven by the main button, a
  display poll that auto-stops at the target, a reset and a mode switch;
- the final-time display and the body that `submitScore` posts.

The modules follow the program's structure:

| file | module | contents |
|---|---|---|
| `json.dfy` | `Json` | the JSON values a request body can hold, and JavaScript truthiness |
| `text.dfy` | `Text` | decimal digits, number printing, a leading-digits `parseInt`, `String.prototype.trim` |
| `validation.dfy` | `Validation` | the submission, the stored record, the six checks, `Validate`, the stored record of an accepted submission |
| `ranking.dfy` | `Ranking` | leaderboard entries, deviation, grouping, the stable sort (a reference function and an in-place insertion sort), the leaderboard and its properties |
| `server.dfy` | `Server` | the `Store` class with the POST and GET handlers, and a worked example |
| `client.dfy` | `Client` | the `Timer` and `Game` classes, `FinalTime`, the score string and how the server treats the client's body |

Modelling choices:
- **Request bodies.** A body's fields are JSON values (`Json.Value`), with
  `Absent` for a missing field. This keeps the source's `typeof` tests, the
  truthiness of `honeypot` and the strict `includes` on the mode: the number
  `10` is not an allowed mode, only the string `"10"` is.
- **Scores.** A score string is worth an integer count of thousandths of a
  second. Its format test, `^\d+(\.\d{1,3})?$`, is written out as character
  predicates. `ScoreRegexShape` proves that test equals an explicit
  description of the two allowed shapes.
- **Deviation.** `sc.deviation = deviation.toFixed(2)` turns the deviation
  into a string, and the sort then compares those rounded strings. So two
  scores whose deviations round to the same value tie, and keep their
  insertion order. The model therefore carries the deviation as a whole
  number of hundredths of a percent. It is rounded half up from the exact
  rational `|t − 1000·m| / (10·m)`, where `t` is the score in thousandths
  and `m` is the target in seconds. `RoundedDeviation` states the rounding
  as a two-sided bound.
- **Any stable sort gives the same result.** The leaderboard is specified
  with a reference insertion sort, `StableSort`.
  - `StableSortCorrect` proves it sorted, a permutation, and stable: for
    every deviation `k`, the entries with deviation `k` keep their relative
    order (`WithKey`).
  - `StableSortUnique` proves that any sorted sequence with the same
    per-deviation subsequences *is* `StableSort`. So the model does not
    depend on the engine's sorting algorithm.
- **The client's body is always refused.** The client posts only `name`,
  `mode` and `score` (public/app.js:205), with no `loadTimestamp` and no
  `honeypot`. The server's submission-time check (server.js:101-108)
  rejects any body without a numeric `loadTimestamp`. Both sides are
  modelled as written:
  - `Client.ClientSubmissionRefused` proves that such a body is rejected
    with `InvalidSubmissionTime`;
  - `Client.PlayRound` plays one whole round and shows its body refused;
  - `Client.PayloadWithLoadTime` states what the server would decide if a
    load time were added.
- **Clock readings** (`new Date()`, `Date.now()`) are a parameter `now`, in
  milliseconds.

## Model

| member | source | states |
|---|---|---|
| Validation.Validate | server.js:97-140 | accepted exactly when all six checks pass; when check `i` is the first to fail, the error is the `i`-th of bot, submission time, name, mode, score format, score value |
| Validation.HoneypotRejected | server.js:97-99 | a truthy honeypot is rejected as a bot, whatever the other fields hold |
| Validation.TooFastRejected | server.js:101-108 | past the honeypot, the error is "invalid submission time" exactly when the load time is not a number or is less than 2000 ms old |
| Validation.NameLengthBoundary | server.js:110-121 | a 20-character name of allowed characters passes the name check; one more allowed character makes it fail |
| Validation.NameExamples | server.js:110-121 | "Bob_2" passes the name check; "../etc" and "" fail |
| Validation.ModeExamples | server.js:123-125 | "10", "60" and "100" pass the mode check; "30" and the number 10 fail |
| Validation.ScoreRegexShape | server.js:15 | the score-format test holds exactly for digits, or digits, a point and one to three digits |
| Validation.ScoreOfParts | server.js:15 | `whole.frac` has the score format and is worth `whole·1000 + frac` scaled to thousandths |
| Validation.ScoreExampleThreeDecimals | server.js:127-140 | "10.123" passes both score checks and is worth 10123 thousandths |
| Validation.ScoreExampleTwoDecimals | server.js:127-140 | "10.05" passes both score checks and is worth 10050 thousandths |
| Validation.ScoreExamplesBadFormat | server.js:127-133 | "10.1234", "-1" and "1." fail the score-format check |
| Validation.WholeScore | server.js:15 | the digits of a whole number have the score format and are worth that many thousand thousandths |
| Validation.ScoreExamplesWhole | server.js:127-140 | "1500" has the score format but fails the range check; "1000" passes it |
| Validation.ScoreExampleAboveLimit | server.js:135-140 | "1000.001" has the score format but is above the 1000 s limit |
| Validation.ToRecord | server.js:146 | the stored record keeps mode and score; its name is an infix of the submitted name, everything cut around it is whitespace, and it neither starts nor ends with whitespace, so all surrounding whitespace is cut |
| Validation.BlankNameStoredEmpty | server.js:110-146 | a name of three spaces passes the name check and is stored as the empty string |
| Text.Trim | server.js:146 | `trim()` returns an infix of its argument that neither starts nor ends with whitespace, and everything cut is whitespace |
| Text.TrimUnchanged | server.js:146 | a string with no whitespace at either end is its own trim |
| Text.NatToStringRoundTrip | public/app.js:142-143 | the decimal text of a number reads back as that number |
| Text.LeadingDigits | server.js:15 | the count of leading digits: they are all digits and the next character is not |
| Text.ParseInt | public/app.js:173 | `parseInt` yields a number exactly when the text starts with a digit |
| Text.ParseIntOfDigits | public/app.js:173 | `parseInt` of the decimal text of a number is that number |
| Server.Store.Post | server.js:93-148 | the verdict is `Validate`'s. An accepted submission appends exactly its record at the end; a rejected one leaves the store unchanged |
| Server.Store.Append | server.js:146 | the store becomes the old store followed by the new record |
| Server.Store.Get | server.js:53-84 | the loop over the stored records and the three in-place sorts produce `Leaderboard(records)` |
| Server.SortedTop | server.js:76-81 | sorting a group in an array and keeping 20 gives the first 20 of the group's stable sort |
| Server.AcceptedRecordEligible | server.js:123-148 | the record of an accepted submission is one the leaderboard keeps, with a score of at most 1000 s |
| Server.GroupAppend | server.js:60-74 | appending a record extends its mode's group by its entry, if kept, and leaves the other groups as they were |
| Server.GroupSingle | server.js:60-74 | a store of one record groups into that record's entry, if kept |
| Server.SingleRecordLeaderboard | server.js:58-83 | a store of one kept mode-10 record has a leaderboard of exactly that entry |
| Server.AliceScore | server.js:15 | "10.050" has the score format and is worth 10050 thousandths |
| Server.AliceAccepted | server.js:97-140 | Alice's mode-10 submission of "10.050", loaded at least 2 s earlier, is accepted |
| Server.AliceStored | server.js:146 | that submission is stored as the record {"Alice", "10", "10.050"} |
| Server.AliceRanked | server.js:58-84 | that record alone ranks as one entry with a deviation of 0.50 % |
| Server.AliceExample | server.js:53-155 | the submission is accepted and then ranked as that one entry |
| Ranking.Target | server.js:67-68 | every allowed mode has a positive target |
| Ranking.ModeTarget | server.js:67 | for each allowed mode, the client's `parseInt(mode)` (public/app.js:173) gives the same target as the server's `parseFloat(sc.mode)` |
| Ranking.RoundedDeviation | server.js:69-70 | the deviation in hundredths of a percent is within half a hundredth of the exact `|score − target| / target · 100` |
| Ranking.RoundedDeviationMonotone | server.js:69-79 | a score nearer the target never gets a larger rounded deviation |
| Ranking.DeviationExample | server.js:69-70 | 10.050 s in mode 10 has a deviation of 0.50 % |
| Ranking.EntryOf | server.js:66-71 | an entry keeps its record's name, mode and score string |
| Ranking.GroupMembers | server.js:60-74 | an entry is in mode `m`'s group exactly when it comes from a stored record with mode `m`, an allowed mode and a well-formed score |
| Ranking.GroupWellFormed | server.js:60-74 | every entry in mode `m`'s group has mode `m`, a well-formed score and the deviation of that score |
| Ranking.InsertSorted | server.js:77-79 | inserting into a sorted sequence keeps it sorted |
| Ranking.InsertMultiset | server.js:77-79 | inserting adds exactly the one element |
| Ranking.InsertWithKey | server.js:77-79 | inserting appends the element to its deviation's subsequence and leaves the others unchanged |
| Ranking.InsertAt | server.js:77-79 | inserting places the element after every element not larger and before the larger tail |
| Ranking.StableSortCorrect | server.js:77-79 | the sort is ordered by deviation, a permutation, and keeps the order of equal deviations |
| Ranking.StableSortSorted | server.js:77-79 | the sort is ordered by deviation |
| Ranking.StableSortMultiset | server.js:77-79 | the sort is a permutation of its input |
| Ranking.StableSortWithKey | server.js:77-79 | for each deviation, the sort keeps the input's entries with it in their input order |
| Ranking.SortedUnique | server.js:77-79 | two sorted sequences with the same per-deviation subsequences are equal |
| Ranking.StableSortUnique | server.js:77-79 | every stable sort of a group gives the same result as the reference sort |
| Ranking.InsertNext | server.js:77-79 | one insertion pass in the array computes `Insert` of the sorted prefix and the next element; the rest of the array is unchanged |
| Ranking.SortByDeviation | server.js:77-79 | the in-place sort leaves the array equal to the stable sort of its old contents |
| Ranking.Top | server.js:80 | `slice(0, 20)` is the prefix of length min(20, size) |
| Ranking.BlockSorted | server.js:76-81 | each mode's block has min(20, group size) entries, in non-decreasing deviation |
| Ranking.BlockFacts | server.js:58-81 | each mode's block is sorted and has min(20, group size) entries, each with that mode and from a kept stored record |
| Ranking.BlockIsBest | server.js:76-81 | the block is a sub-multiset of its group, and no entry cut off has a smaller deviation than one kept |
| Ranking.BlockStable | server.js:77-79 | for every deviation, the block's entries with it are a prefix of the group's, in insertion order |
| Ranking.BlockExactOrder | server.js:69-79 | an entry placed after one strictly nearer the target can only tie with it after rounding |
| Ranking.LeaderboardEntries | server.js:60-83 | every leaderboard entry comes from a stored record with an allowed mode and a well-formed score |
| Ranking.LeaderboardAt | server.js:83 | position `i` of the response lies in the mode-10 block, then mode 60, then mode 100 |
| Ranking.LeaderboardOrder | server.js:76-83 | modes appear in the order 10, 60, 100, and within a mode deviations never decrease |
| Client.Timer.Start | public/app.js:9-13 | start records the start, clears any stop time and sets the running flag |
| Client.Timer.Stop | public/app.js:15-18 | stop records the stop time, clears the running flag and keeps the start time |
| Client.TimeRound | public/app.js:4-28 | a new timer reads 0; after a start at `t0` and a stop at `t1` it reads `t1 − t0` whenever it is read |
| Client.Game.constructor | public/app.js:34-38 | the page starts idle, in mode "10", with a timer never started |
| Client.Game.OnMainButtonClick | public/app.js:90-134 | the button moves idle → running → finished → idle, keeps the invariant, and starts a new timer, stops the timer or resets it |
| Client.Game.UpdateDisplay | public/app.js:168-189 | while running, once the whole seconds reach the mode's target the timer is stopped at `now` and the game is finished; otherwise nothing changes |
| Client.Game.ResetTimerDisplay | public/app.js:152-162 | from any state, the game becomes idle with a fresh, never-started timer and the same mode |
| Client.Game.SwitchMode | public/app.js:69-71 | from any state, the mode is recorded and the game becomes idle with a fresh timer |
| Client.Game.SubmitScore | public/app.js:194-205 | no body unless finished; otherwise the trimmed name (or "Anonymous"), the mode and the score string of the stopped duration, with no load time and no honeypot |
| Client.PlayerName | public/app.js:199-200 | the submitted name is never empty: "Anonymous" if the input trims to nothing; otherwise an infix of the input with only whitespace cut around it, which neither starts nor ends with whitespace |
| Client.TargetReachedAt | public/app.js:170-173 | for the page's modes, the poll's stop test is "whole seconds at least 10, 60 or 100" |
| Client.FinalTimeRoundTrip | public/app.js:137-147 | for a non-negative duration the seconds have at least 2 digits, the milliseconds exactly 3, and `s·1000 + ms` is the duration |
| Client.ScoreStringRoundTrip | public/app.js:203 | the score of a non-negative duration has exactly three fractional digits, has the server's score format (server.js:15), and the server reads it back as the duration |
| Client.NegativeScoreRefused | public/app.js:203 | a negative duration's score fails the server's format check (server.js:15) |
| Client.ClientScoreChecks | public/app.js:203 | the client's score passes the format check exactly when the duration is non-negative, and the range check exactly when it is between 0 and 1000 s (server.js:127-140) |
| Client.ClientSubmissionRefused | server.js:101-108 | a body like the client's (public/app.js:205), with no load time and no honeypot, is rejected as an invalid submission time, whatever else it holds |
| Client.PayloadWithLoadTime | server.js:97-140 | with a load time at least 2000 ms old added, the client's body (public/app.js:199-205) is accepted exactly when the name and mode pass and the duration is between 0 and 1000 s |
| Client.PlayUntilFinished | public/app.js:69-134 | from page load, a mode switch, a click at `t0` and a click at `t1` leave the game finished in that mode with a timer started at `t0` and stopped at `t1` |
| Client.PlayRound | public/app.js:69-205 | one full round (switch mode, start at `t0`, stop at `t1`, submit) sends the score of `t1 − t0` and is refused by the server |

## Left out

- Express wiring, body parsing, static files, `app.listen` and the two rate limiters: framework glue and foreign middleware with their own clocks and per-IP counters.
- The scores file: `existsSync`, `readFileSync`, `writeFileSync` and JSON (de)serialisation become the in-memory `records` sequence of `Server.Store`. The 500 responses for a failing read or write are not modelled.
- The DOM, alerts, the space-bar handler, `fetch`, `setInterval`/`clearInterval`, rendering the leaderboard table, the share link and the clipboard: UI and asynchronous I/O. Only the state and flag updates are modelled. The display text is the `FinalTime` function of the timer's duration.
- Ranking.RoundedDeviation: computed on exact integers, not on IEEE doubles. The rounding error of `parseFloat`, the division and `toFixed(2)` near a half-hundredth is not captured.
- Ranking.Entry: the deviation is a whole number of hundredths, where the server sends the string `toFixed(2)` gives, for example "0.50".
- Ranking.EntryOf: the server writes `deviation` onto the stored record object itself and recomputes it on every read. The model builds a separate entry and drops fields other than name, mode and score, which the POST handler never stores.
- Json.Value: numbers are integers. A fractional `loadTimestamp` or a numeric honeypot such as 0.5 is not representable.
- Text.ParseInt: covers a mode text that starts with its digits. Leading whitespace, a sign and the `0x` prefix are not modelled. The mode is always one of the client's own mode strings.
- Validation.NameOk: lengths are counted in Unicode code points. JavaScript counts UTF-16 code units, which differs only for characters the name pattern rejects anyway.
- Client.ToFixed3: `Number.prototype.toFixed` switches to exponent notation at 10^21. Durations of that size are not modelled.
- Client.Game.SwitchMode: follows the code, which resets in every state, including while the timer runs.
- Client.Game.UpdateDisplay: requires the running state, because the page only polls while the interval set at the start is active.
