# Peer-rating board: a Dafny model of the server logic

This project models the server side of a small peer-rating board. A fixed
roster of participants log in by name, rate one another on a 1-10 scale (never
themselves), and read back a per-participant summary of how many scores each
received and their average. Everything lives in `server.js`. The model covers
four parts of it:

- **Roster** (`roster.dfy`). The `PLAYERS` variable is split on commas. Each
  piece is trimmed with the ECMAScript definition of white space, and empty
  pieces are dropped. The built-in list `player1, player2, player3` applies
  only when the variable is unset.
- **Session** (`session.dfy`). These are the `/api/login`, `/api/logout` and
  `/api/me` handlers. The cookie is modelled as an abstract `Session` value
  holding an optional name.
- **Ballot** (`ballot.dfy`). This is the `/api/vote` handler. Four checks run
  in a fixed order (`not_logged_in`, `invalid_to`, `self_vote_forbidden`,
  `invalid_score`). A vote that passes all four is upserted into the ledger, a
  `map<string, map<string, int>>` keyed by voter and then target.
- **Ratings** (`ratings.dfy`). This is the `/api/ratings` handler. The
  `Summarize` method mirrors the handler's two passes. It first buckets every
  score by target across all voters, then walks the roster. It is proved
  against a specification that reads each target's column of the ledger:
  `Count`, `Total` and `Expected`.

`wrappers.dfy` holds `Option`/`Result`/`Outcome`. `api.dfy` holds the request
field values (`Field`: absent, a string, or any other JSON value) and the error
codes. `scenarios.dfy` states the board's small worked examples as lemmas.

Some notes on how the model follows the code:

- An identity of `""` counts as absent, as `!from` and `|| null` treat it.
- The voter's identity is never checked against the roster; only its presence
  is checked. So the model lets any non-empty identity vote.
- A self-vote is `self_vote_forbidden` only for a logged-in client naming a
  roster member. Without a session the reply is `not_logged_in`, and for a
  non-member target it is `invalid_to`. This is because the handler checks in
  that order (server.js:45-47).
- `Number(score)` is abstracted into `Coerced = Integral(n) | NonIntegral |
  NotANumber`, so the check "integer in [1, 10]" is exact.
- Averages are exact rationals (`real`): the total over the count, or 0 when
  the count is 0.

## Model

| member | source | states |
|---|---|---|
| `Roster.Split` | server.js:12 | `split(',')` yields at least one piece. No piece holds a comma, and the pieces joined with commas give back the input. |
| `Roster.SplitJoin` | server.js:12 | Splitting undoes joining for comma-free pieces. So the pieces are exactly the comma-separated runs, in order. |
| `Roster.Trim` | server.js:12 | `trim()` removes only white space, and only from the two ends. The result neither starts nor ends with white space. |
| `Roster.TrimEmptyIff` | server.js:12 | A piece trims to the empty string exactly when it is all white space. |
| `Roster.TrimIdempotent` | server.js:12 | Trimming twice is trimming once. |
| `Roster.TrimAll` | server.js:12 | `.map(s => s.trim())` keeps the number of pieces. Each entry is the trim of the piece at the same position and is itself trimmed. |
| `Roster.DropEmpty` | server.js:12 | `filter(Boolean)` keeps exactly the non-empty strings of its input, and nothing else. |
| `Roster.DropEmptyAppend` | server.js:12 | Filtering distributes over concatenation, so order is kept and only empty entries are removed. |
| `Roster.ParseRoster` | server.js:12 | An unset variable gives the built-in list. A set one gives the filtered, trimmed pieces, each non-empty and trimmed. |
| `Roster.RosterMembers` | server.js:12 | A name is on the roster exactly when it is the non-empty trim of some comma-separated piece. |
| `Roster.EmptyRosterIff` | server.js:12 | A set variable gives an empty roster, not the default, exactly when it holds only commas and white space. |
| `Session.Login` | server.js:31-35 | Login succeeds exactly for a non-empty string on the roster, and then binds exactly that name. Otherwise it fails with `invalid_player` and leaves the session as it was. |
| `Session.Logout` | server.js:38 | Logout leaves no identity. |
| `Session.Me` | server.js:40 | "me" returns the bound name when it is present and non-empty, and null otherwise. |
| `Session.LoginThenMe` | server.js:33-40 | After a successful login, "me" returns the accepted name. |
| `Session.LogoutThenMe` | server.js:38-40 | After logout, "me" returns null. Logging out twice is the same as once. |
| `Session.SessionStaysInRoster` | server.js:33-38 | Login and logout never bind a name outside the roster. |
| `Ballot.Check` | server.js:43-49 | With no identity the result is `not_logged_in`, whatever the target and score. Otherwise a bad target gives `invalid_to` before any later check. Then a self-vote gives `self_vote_forbidden`. Then the request succeeds exactly when the score is an integer in [1, 10]. |
| `Ballot.CheckIsFirstFailure` | server.js:45-49 | The reply equals the error of the first failing rule in the ordered rule list. Success means every rule passes. |
| `Ballot.Upsert` | server.js:51-52 | The stored score for (voter, target) becomes the new one. Every other (voter, target) entry is unchanged, including the voter's other targets. |
| `Ballot.Submit` | server.js:42-55 | The reply is ok exactly when validation passes. A failure leaves the ledger as it was. A success stores the score for exactly that pair. |
| `Ballot.FailureIsNoOp` | server.js:45-50 | A failing vote never changes the ledger. |
| `Ballot.SubmitIdempotent` | server.js:50-53 | Submitting the same vote twice gives the same reply and ledger as submitting it once. |
| `Ballot.SubmitPreservesWellFormed` | server.js:45-52 | Stored scores stay in [1, 10], targets stay on the roster, and there are no self-votes. Voters stay on the roster when the session names a member. |
| `Ballot.UpsertAsWritten` | server.js:51-52 | The code as JavaScript runs it. A voter with no own entry whose name is inherited from `Object.prototype` (`constructor`, `toString`, `__proto__`, ...) leaves the ledger unchanged. Every other voter agrees with `Upsert`, except that a `__proto__` target is dropped unless the voter's entry already holds its own `__proto__` key; a dropped target leaves every stored score as it was. |
| `Ballot.AcceptedVoteLost` | server.js:45-53 | Under any roster and any ledger without an entry for the voter, a vote from an inherited name for any other roster member with a score in [1, 10] passes validation. The code as written leaves the ledger unchanged, while `Upsert` stores the score. |
| `Ratings.Count` | server.js:60-68 | A member's count is the number of voters whose inner map has that member as a key. |
| `Ratings.SeqSum` | server.js:69 | The left fold `reduce((a,b)=>a+b,0)` is 0 on the empty array. On a non-empty array it equals the first score plus the fold of the rest, so folding from either end gives the same total. |
| `Ratings.AddVoter` | server.js:61-63 | Walking one voter pushes exactly that voter's score onto the bucket of each of its targets and leaves every other bucket as it was. Each bucket then matches the scores walked so far. |
| `Ratings.BucketScores` | server.js:58-67 | After bucketing, every target's bucket as line 67 reads it (`received[p] \|\| []`, the empty array for a target with no bucket) has exactly as many scores as the target received, and their sum is the target's total. A target nobody voted for thus reads as count 0. |
| `Ratings.Summarize` | server.js:57-71 | The summary's keys are exactly the roster members. Each entry is the member's count, with average equal to total over count, or 0 when the count is 0. |
| `Ratings.OnlyRosterTargetsMatter` | server.js:65-71 | Scores given to names outside the roster never affect the summary. |
| `Ratings.VoteLeavesOtherTargets` | server.js:52-64 | A vote leaves the column of every other target unchanged. |
| `Ratings.VoteSetsColumnEntry` | server.js:52-64 | A vote sets the voter's entry in the target's column to the new score. |
| `Ratings.OverwriteKeepsCount` | server.js:52-68 | Overwriting a vote keeps the target's count. Its total changes by the new score minus the old one. |
| `Ratings.FirstVoteAddsOne` | server.js:52-68 | A first vote for a pair adds one to the target's count and its score to the total. |
| `Ratings.AverageInRange` | server.js:66-69 | If every stored score is in [1, 10], every non-zero average is in [1, 10] too. |
| `Ratings.NoVotesGivesZero` | server.js:67-69 | A member nobody voted for has count 0 and average 0. |
| `Ratings.MapSumRemove` | server.js:69 | The sum of a bucket does not depend on the order in which its scores are added. |
| `Scenarios.ThreeVotes` | server.js:42-73 | Take roster a, b, c with votes a→b 8, c→b 4, b→a 10. Then a has 10 over 1 vote, b has 6 over 2, and c has 0 over 0. |
| `Scenarios.OverwriteReplaces` | server.js:52 | a→b 8 followed by a→b 2 leaves b with average 2 over 1 vote. |
| `Scenarios.ErrorOrder` | server.js:45-49 | Concrete requests get the reply of their first failing check. |
| `Scenarios.ScoreBoundaries` | server.js:48-49 | Scores 1 and 10 are accepted. 0, 11, a fraction and NaN are rejected. |

## Left out

- HTTP routing, status codes, JSON bodies and `cookie-parser` (server.js:1-8, 24-26). The session cookie and its attributes are an abstract `Session` value. JSON cookies (`j:` prefix) are not modelled.
- `/api/players` (server.js:29): it returns the roster unchanged.
- File persistence (server.js:15-21). The ledger is an in-memory value passed in and returned. The document wrapper `{version, votes}`, directory creation, the empty-file bootstrap, disk failures and atomicity are outside the model. Concurrent requests are not modelled.
- `Number()` coercion of arbitrary JSON values (server.js:48). It is abstracted into `Coerced`, whose values the caller supplies.
- `Ratings.Summarize`: the average is exact. The handler's `toFixed(2)` rounding to a double (server.js:70) is floating point and is not modelled. Also, `__proto__` as a roster name would be dropped from the `summary` object at server.js:70, so the first ensures (keys are exactly the roster) is stronger than the code for that name.
- JavaScript numbers are doubles. Sums of scores in [1, 10] are far below 2^53, so integer sums are exact and the model uses unbounded `int`.
- `Ballot.UpsertAsWritten`: it models only what reaches the ledger. Writing the score onto an inherited value also changes process state that a ledger-to-ledger function cannot show. In particular, a `__proto__` voter sets `Object.prototype[to] = n` for the life of the process (see Findings).
- Inherited names are modelled only for the vote upsert (see Findings).
- The inline HTML, CSS and client script (server.js:76-348). This covers the leaderboard sort, charts and polling. It is presentation code running in the browser.
- `app.listen` and the port setting (server.js:13, 351-355).

## Findings

| source | as written | input that shows it | evidently intended | confidence | as-written member | corrected member |
|---|---|---|---|---|---|---|
| server.js:51-52 | `data.votes[from] \|\|= {}; data.votes[from][to] = n` on the plain object `JSON.parse` built. Suppose the voter has no own entry and its name is inherited from `Object.prototype` (`constructor`, `toString`, `valueOf`, `hasOwnProperty`, `__proto__`, ...). Then line 51 reads a truthy inherited value and does not assign. Line 52 writes the score onto that function or prototype, and `writeVotes` never persists it. For `__proto__` the write is `Object.prototype[to] = n` and lasts for the life of the process. Later, when the member named `to` casts a first vote, line 51 reads that inherited number and skips. Line 52 then assigns a property on a number, which throws a TypeError in this strict-mode module, so that member gets a server error until restart. | Identity cookie `player=constructor` (or `player=__proto__`) with body `{to: "player1", score: 5}` under the default roster and an empty ledger. Every check passes (the voter is never looked up in the roster), the reply is `{ok: true}`, and the ledger stays empty. | Every accepted vote is stored under its voter and target, and no vote affects other requests. | high, not executed | `Ballot.UpsertAsWritten` (shown by `Ballot.AcceptedVoteLost`) | `Ballot.Upsert` (used by `Ballot.Submit`) |
