/** Aggregation: the `/api/ratings` handler (server.js lines 57-73). Every stored
    score is bucketed by its target, across all voters; the summary then walks
    the roster and reports, for each member, how many scores it received and
    their average. Buckets of names outside the roster are never read. */
module Ratings {
  import opened Wrappers
  import opened Ballot

  /** A summary entry. The average is exact; the handler's rounding to two
      decimals is not modelled. */
  datatype Rating = Rating(average: real, count: nat)

  // ----- The specification: columns of the ledger -----

  /** All the scores `target` received, keyed by voter. */
  function Column(ledger: Ledger, target: string): map<string, int> {
    map v | v in ledger && target in ledger[v] :: ledger[v][target]
  }

  /** The voters whose inner map has an entry for `target`. */
  function VotersOf(ledger: Ledger, target: string): set<string> {
    set v | v in ledger && target in ledger[v]
  }

  /** A key of `m`; the choice is fixed, so `MapSum` and its lemmas agree on it. */
  ghost function Pick(m: map<string, int>): string
    requires |m| > 0
  {
    var k :| k in m; k
  }

  /** The sum of the values of `m`. */
  ghost function MapSum(m: map<string, int>): int
    decreases |m|
  {
    if |m| == 0 then 0
    else
      var k := Pick(m);
      assert |(m - {k}).Keys| == |m.Keys - {k}| == |m| - 1;
      m[k] + MapSum(m - {k})
  }

  /** The sum does not depend on which key is taken out first. */
  lemma {:induction false} MapSumRemove(m: map<string, int>, k: string)
    requires k in m
    ensures MapSum(m) == m[k] + MapSum(m - {k})
    decreases |m|
  {
    var j := Pick(m);
    if j != k {
      assert |(m - {j}).Keys| == |m.Keys - {j}| == |m| - 1;
      MapSumRemove(m - {j}, k);
      assert |(m - {k}).Keys| == |m.Keys - {k}| == |m| - 1;
      MapSumRemove(m - {k}, j);
      assert m - {j} - {k} == m - {k} - {j};
    }
  }

  /** Adding a fresh key adds its value to the sum. */
  lemma MapSumAdd(m: map<string, int>, k: string, x: int)
    requires k !in m
    ensures MapSum(m[k := x]) == MapSum(m) + x
  {
    MapSumRemove(m[k := x], k);
    assert m[k := x] - {k} == m;
  }

  /** Replacing the value of a present key changes the sum by the difference. */
  lemma MapSumReplace(m: map<string, int>, k: string, x: int)
    requires k in m
    ensures MapSum(m[k := x]) == MapSum(m) - m[k] + x
  {
    MapSumRemove(m[k := x], k);
    MapSumRemove(m, k);
    assert m[k := x] - {k} == m - {k};
  }

  /** A sum of `|m|` values in [1, 10] lies between `|m|` and `10 * |m|`. */
  lemma {:induction false} MapSumBounds(m: map<string, int>)
    requires forall k :: k in m ==> 1 <= m[k] <= 10
    ensures |m| <= MapSum(m) <= 10 * |m|
    decreases |m|
  {
    if |m| > 0 {
      var k := Pick(m);
      assert |(m - {k}).Keys| == |m.Keys - {k}| == |m| - 1;
      MapSumBounds(m - {k});
    }
  }

  /** How many scores `target` received. */
  function Count(ledger: Ledger, target: string): (n: nat)
    ensures n == |VotersOf(ledger, target)|
  {
    assert Column(ledger, target).Keys == VotersOf(ledger, target);
    |Column(ledger, target)|
  }

  /** The total of the scores `target` received. */
  ghost function Total(ledger: Ledger, target: string): int {
    MapSum(Column(ledger, target))
  }

  /** The summary entry the handler should report for `p`: the count, and the
      total over the count, or 0 when nobody voted for `p`. */
  ghost function Expected(ledger: Ledger, p: string): Rating {
    var c := Count(ledger, p);
    Rating(if c == 0 then 0.0 else Total(ledger, p) as real / c as real, c)
  }

  // ----- The handler -----

  /** `arr.reduce((a, b) => a + b, 0)`: a left fold. Folding from the other end
      gives the same total, so the order of the scores in a bucket is immaterial. */
  function SeqSum(s: seq<int>): (r: int)
    ensures s == [] ==> r == 0
    ensures s != [] ==> r == s[0] + SeqSum(s[1..])
  {
    if s == [] then 0
    else
      var init := s[..|s| - 1];
      assert init != [] ==> s[1..][..|s[1..]| - 1] == init[1..];
      SeqSum(init) + s[|s| - 1]
  }

  /** `received[p] || []`: a bucket, once created, is an array and so truthy
      even when empty; a target with no bucket reads as the empty array. */
  function Got(received: map<string, seq<int>>, p: string): seq<int> {
    if p in received then received[p] else []
  }

  /** The bucket of `t` holds the scores `t` received in `seen`, the part of the
      ledger walked so far. */
  ghost predicate Bucketed(seen: Ledger, received: map<string, seq<int>>, t: string) {
    |Got(received, t)| == Count(seen, t) && SeqSum(Got(received, t)) == Total(seen, t)
  }

  /** Pushing a fresh score onto the bucket of its target keeps every bucket
      matched, once the score counts as walked. */
  lemma PushScore(seen: Ledger, received: map<string, seq<int>>, v: string, t: string, x: int,
                  seen': Ledger, received': map<string, seq<int>>)
    requires Lookup(seen, v, t).None?
    requires forall q :: Bucketed(seen, received, q)
    requires seen' == Upsert(seen, Vote(v, t, x)) && received' == received[t := Got(received, t) + [x]]
    ensures forall q :: Bucketed(seen', received', q)
  {
    var vote := Vote(v, t, x);
    forall q ensures Bucketed(seen', received', q) {
      if q == t {
        FirstVoteAddsOne(seen, vote);
        assert (Got(received, t) + [x])[..|Got(received, t)|] == Got(received, t);
        assert Bucketed(seen, received, t);
      } else {
        VoteLeavesOtherTargets(seen, vote, q);
        assert Got(received', q) == Got(received, q);
        assert Bucketed(seen, received, q);
      }
    }
  }

  /** `walked` holds exactly the scores of the voters in `done`, plus those voter
      `v` gave the targets in `seen`. */
  ghost predicate WalkedUpTo(ledger: Ledger, walked: Ledger, done: set<string>, v: string, seen: set<string>) {
    forall u, q :: Lookup(walked, u, q) == (if u in done || (u == v && q in seen) then Lookup(ledger, u, q) else None)
  }

  /** Walking one more score of voter `v` extends `WalkedUpTo` by its target. */
  lemma WalkOne(ledger: Ledger, walked: Ledger, done: set<string>, v: string, seen: set<string>, t: string, walked': Ledger)
    requires v !in done && t !in seen && v in ledger && t in ledger[v]
    requires WalkedUpTo(ledger, walked, done, v, seen)
    requires walked' == Upsert(walked, Vote(v, t, ledger[v][t]))
    ensures Lookup(walked, v, t).None?
    ensures WalkedUpTo(ledger, walked', done, v, seen + {t})
  {
    forall u, q ensures Lookup(walked', u, q) ==
      (if u in done || (u == v && q in seen + {t}) then Lookup(ledger, u, q) else None)
    {
      if (u, q) != (v, t) {
        assert Lookup(walked', u, q) == Lookup(walked, u, q);
      }
    }
  }

  /** Once all of `v`'s targets are walked, `v` counts as done. */
  lemma DoneWithVoter(ledger: Ledger, walked: Ledger, done: set<string>, v: string)
    requires v in ledger
    requires WalkedUpTo(ledger, walked, done, v, ledger[v].Keys)
    ensures WalkedUpTo(ledger, walked, done + {v}, v, {})
  {
    forall u, q ensures Lookup(walked, u, q) == (if u in done + {v} then Lookup(ledger, u, q) else None) {
      assert Lookup(walked, u, q) == (if u in done || (u == v && q in ledger[v].Keys) then Lookup(ledger, u, q) else None);
    }
  }

  /** With nothing seen, the voter in progress does not matter. */
  lemma SwitchVoter(ledger: Ledger, walked: Ledger, done: set<string>, v: string, w: string)
    requires WalkedUpTo(ledger, walked, done, v, {})
    ensures WalkedUpTo(ledger, walked, done, w, {})
  {
  }

  /** The inner loop of the bucketing: push each score voter `v` gave onto the
      bucket of its target. */
  method AddVoter(ledger: Ledger, received: map<string, seq<int>>, ghost done: set<string>, ghost walked: Ledger, v: string)
    returns (received': map<string, seq<int>>, ghost walked': Ledger)
    requires v in ledger && v !in done
    requires WalkedUpTo(ledger, walked, done, v, {})
    requires forall t :: Bucketed(walked, received, t)
    ensures WalkedUpTo(ledger, walked', done + {v}, v, {})
    ensures forall t :: Bucketed(walked', received', t)
    ensures forall t :: Got(received', t) == if t in ledger[v] then Got(received, t) + [ledger[v][t]] else Got(received, t)
  {
    received', walked' := received, walked;
    var targets := ledger[v];
    var todo := targets.Keys;
    ghost var seen: set<string> := {};
    // for (const [to, sc] of Object.entries(targets)) (received[to] ||= []).push(sc)
    while todo != {}
      invariant todo + seen == targets.Keys && todo !! seen
      invariant WalkedUpTo(ledger, walked', done, v, seen)
      invariant forall t :: Bucketed(walked', received', t)
      invariant forall t :: Got(received', t) == if t in seen then Got(received, t) + [targets[t]] else Got(received, t)
      decreases todo
    {
      var t :| t in todo;
      var next := received'[t := Got(received', t) + [targets[t]]];
      ghost var nextWalked := Upsert(walked', Vote(v, t, targets[t]));
      WalkOne(ledger, walked', done, v, seen, t, nextWalked);
      PushScore(walked', received', v, t, targets[t], nextWalked, next);
      received', walked' := next, nextWalked;
      todo := todo - {t};
      seen := seen + {t};
    }
    DoneWithVoter(ledger, walked', done, v);
  }

  /** The first half of `/api/ratings`: bucket every stored score by its target,
      across all voters. */
  method BucketScores(ledger: Ledger) returns (received: map<string, seq<int>>)
    ensures forall t :: |Got(received, t)| == Count(ledger, t)
    ensures forall t :: SeqSum(Got(received, t)) == Total(ledger, t)
  {
    received := map[];
    var pending := ledger.Keys;
    ghost var done: set<string> := {};
    ghost var walked: Ledger := map[];
    // for (const targets of Object.values(votes))
    while pending != {}
      invariant pending + done == ledger.Keys && pending !! done
      invariant WalkedUpTo(ledger, walked, done, "", {})
      invariant forall t :: Bucketed(walked, received, t)
      decreases pending
    {
      var v :| v in pending;
      SwitchVoter(ledger, walked, done, "", v);
      received, walked := AddVoter(ledger, received, done, walked, v);
      SwitchVoter(ledger, walked, done + {v}, v, "");
      pending := pending - {v};
      done := done + {v};
    }
    forall t ensures |Got(received, t)| == Count(ledger, t) && SeqSum(Got(received, t)) == Total(ledger, t) {
      assert forall u :: Lookup(walked, u, t) == Lookup(ledger, u, t);
      ColumnsAgree(walked, ledger, t);
      assert Bucketed(walked, received, t);
    }
  }

  /** `/api/ratings`: bucket every score by target, then report each roster member. */
  method Summarize(roster: seq<string>, ledger: Ledger) returns (summary: map<string, Rating>)
    ensures summary.Keys == set p | p in roster
    ensures forall p :: p in summary ==> summary[p] == Expected(ledger, p)
  {
    var received := BucketScores(ledger);
    summary := map[];
    var i := 0;
    // for (const p of PLAYERS)
    while i < |roster|
      invariant 0 <= i <= |roster|
      invariant summary.Keys == set p | p in roster[..i]
      invariant forall p :: p in summary ==> summary[p] == Expected(ledger, p)
    {
      var p := roster[i];
      var arr := Got(received, p);
      var count := |arr|;
      var avg := if count > 0 then SeqSum(arr) as real / count as real else 0.0;
      assert count == Count(ledger, p) && SeqSum(arr) == Total(ledger, p);
      assert Rating(avg, count) == Expected(ledger, p);
      summary := summary[p := Rating(avg, count)];
      assert roster[..i + 1] == roster[..i] + [p];
      i := i + 1;
    }
    assert roster[..i] == roster;
  }

  // ----- Properties of the aggregate -----

  /** Only the column of a roster member reaches the summary: two ledgers that
      agree on every score given to roster members summarise alike, whatever
      stale entries for other names either holds. */
  lemma OnlyRosterTargetsMatter(roster: seq<string>, l1: Ledger, l2: Ledger)
    requires forall v, p :: p in roster ==> Lookup(l1, v, p) == Lookup(l2, v, p)
    ensures forall p :: p in roster ==> Expected(l1, p) == Expected(l2, p)
  {
    forall p | p in roster ensures Expected(l1, p) == Expected(l2, p) {
      ColumnsAgree(l1, l2, p);
    }
  }

  /** Two ledgers with the same scores for `p` have the same column for `p`. */
  lemma ColumnsAgree(l1: Ledger, l2: Ledger, p: string)
    requires forall v :: Lookup(l1, v, p) == Lookup(l2, v, p)
    ensures Column(l1, p) == Column(l2, p)
  {
    forall v ensures v in Column(l1, p) <==> v in Column(l2, p) {
      assert Lookup(l1, v, p) == Lookup(l2, v, p);
    }
    forall v | v in Column(l1, p) ensures Column(l1, p)[v] == Column(l2, p)[v] {
      assert Lookup(l1, v, p) == Lookup(l2, v, p);
    }
  }

  /** A vote changes nothing in the column of any other target. */
  lemma VoteLeavesOtherTargets(ledger: Ledger, v: Vote, q: string)
    requires q != v.to
    ensures Column(Upsert(ledger, v), q) == Column(ledger, q)
  {
    ColumnsAgree(Upsert(ledger, v), ledger, q);
  }

  /** A vote sets its voter's entry in the target's column and leaves the rest. */
  lemma VoteSetsColumnEntry(ledger: Ledger, v: Vote)
    ensures Column(Upsert(ledger, v), v.to) == Column(ledger, v.to)[v.from := v.score]
  {
    var l' := Upsert(ledger, v);
    var c := Column(ledger, v.to)[v.from := v.score];
    forall u ensures u in Column(l', v.to) <==> u in c {
      assert Lookup(l', u, v.to) == if u == v.from then Some(v.score) else Lookup(ledger, u, v.to);
    }
    forall u | u in c ensures Column(l', v.to)[u] == c[u] {
      assert Lookup(l', u, v.to) == if u == v.from then Some(v.score) else Lookup(ledger, u, v.to);
    }
  }

  /** Overwriting an earlier vote keeps the target's count and swaps the old
      score for the new one in its total. */
  lemma OverwriteKeepsCount(ledger: Ledger, v: Vote)
    requires Lookup(ledger, v.from, v.to).Some?
    ensures Count(Upsert(ledger, v), v.to) == Count(ledger, v.to)
    ensures Total(Upsert(ledger, v), v.to) == Total(ledger, v.to) - Lookup(ledger, v.from, v.to).value + v.score
  {
    VoteSetsColumnEntry(ledger, v);
    var c := Column(ledger, v.to);
    assert v.from in c && c[v.from] == Lookup(ledger, v.from, v.to).value;
    assert c[v.from := v.score].Keys == c.Keys;
    MapSumReplace(c, v.from, v.score);
  }

  /** A first vote for a pair adds one to the target's count and its score to the total. */
  lemma FirstVoteAddsOne(ledger: Ledger, v: Vote)
    requires Lookup(ledger, v.from, v.to).None?
    ensures Count(Upsert(ledger, v), v.to) == Count(ledger, v.to) + 1
    ensures Total(Upsert(ledger, v), v.to) == Total(ledger, v.to) + v.score
  {
    VoteSetsColumnEntry(ledger, v);
    var c := Column(ledger, v.to);
    assert v.from !in c;
    assert c[v.from := v.score].Keys == c.Keys + {v.from};
    MapSumAdd(c, v.from, v.score);
  }

  /** When every stored score is on the 1-10 scale, so is every non-zero average. */
  lemma AverageInRange(ledger: Ledger, p: string)
    requires forall voter, target :: Lookup(ledger, voter, target).Some? ==> 1 <= Lookup(ledger, voter, target).value <= 10
    requires Count(ledger, p) > 0
    ensures 1.0 <= Expected(ledger, p).average <= 10.0
  {
    var col := Column(ledger, p);
    forall k | k in col ensures 1 <= col[k] <= 10 {
      assert Lookup(ledger, k, p).Some?;
    }
    MapSumBounds(col);
    RatioBounds(Total(ledger, p) as real, Count(ledger, p) as real);
  }

  /** Dividing a total between `c` and `10 * c` by `c` lands in [1, 10]. */
  lemma RatioBounds(s: real, c: real)
    requires c > 0.0 && c <= s <= 10.0 * c
    ensures 1.0 <= s / c <= 10.0
  {
    var a := s / c;
    assert a * c == s;
    assert (a - 1.0) * c == s - c;
    assert (10.0 - a) * c == 10.0 * c - s;
  }

  /** A member nobody voted for is reported with count 0 and average 0. */
  lemma NoVotesGivesZero(ledger: Ledger, p: string)
    requires forall v :: v in ledger ==> p !in ledger[v]
    ensures Expected(ledger, p) == Rating(0.0, 0)
  {
    assert VotersOf(ledger, p) == {};
  }
}
