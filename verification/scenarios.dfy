/** Concrete runs of the handlers: the behaviour the board promises on small
    inputs, stated as lemmas over the model. */
module Scenarios {
  import opened Wrappers
  import opened Api
  import opened Session
  import opened Ballot
  import opened Ratings

  const Roster3: seq<string> := ["a", "b", "c"]

  /** `who` sends a vote with an integral score. */
  function Cast(ledger: Ledger, who: string, to: string, n: int): Ledger {
    Submit(Roster3, Session(Some(who)), Str(to), Integral(n), ledger).ledger
  }

  /** The ledger after a rates b 8, c rates b 4 and b rates a 10. */
  const ThreeVoteLedger: Ledger := map["a" := map["b" := 8], "c" := map["b" := 4], "b" := map["a" := 10]]

  /** The three votes are all accepted and land in the ledger as listed. */
  lemma ThreeVotesStored()
    ensures Cast(Cast(Cast(map[], "a", "b", 8), "c", "b", 4), "b", "a", 10) == ThreeVoteLedger
  {
    var l1 := Cast(map[], "a", "b", 8);
    assert Check(Roster3, Some("a"), Str("b"), Integral(8)) == Success(Vote("a", "b", 8));
    assert l1 == map["a" := map["b" := 8]];
    var l2 := Cast(l1, "c", "b", 4);
    assert Check(Roster3, Some("c"), Str("b"), Integral(4)) == Success(Vote("c", "b", 4));
    assert l2 == l1["c" := map["b" := 4]];
    assert Check(Roster3, Some("b"), Str("a"), Integral(10)) == Success(Vote("b", "a", 10));
  }

  /** a rates b 8, c rates b 4, b rates a 10: a averages 10 over one vote, b 6
      over two, and c has no votes. */
  lemma ThreeVotes()
    ensures
      var l := Cast(Cast(Cast(map[], "a", "b", 8), "c", "b", 4), "b", "a", 10);
      && Expected(l, "a") == Rating(10.0, 1)
      && Expected(l, "b") == Rating(6.0, 2)
      && Expected(l, "c") == Rating(0.0, 0)
  {
    ThreeVotesStored();
    ThreeVotesSummary();
  }

  /** The summary of the three-vote ledger. */
  lemma ThreeVotesSummary()
    ensures Expected(ThreeVoteLedger, "a") == Rating(10.0, 1)
    ensures Expected(ThreeVoteLedger, "b") == Rating(6.0, 2)
    ensures Expected(ThreeVoteLedger, "c") == Rating(0.0, 0)
  {
    SummaryA();
    SummaryB();
    SummaryC();
  }

  lemma SummaryC()
    ensures Expected(ThreeVoteLedger, "c") == Rating(0.0, 0)
  {
    var l := ThreeVoteLedger;
    assert l.Keys == {"a", "b", "c"};
    assert "c" !in l["a"] && "c" !in l["b"] && "c" !in l["c"];
    NoVotesGivesZero(l, "c");
  }

  lemma SummaryA()
    ensures Expected(ThreeVoteLedger, "a") == Rating(10.0, 1)
  {
    var empty: map<string, int> := map[];
    assert MapSum(empty) == 0;
    ColumnA();
    MapSumAdd(empty, "b", 10);
    assert Count(ThreeVoteLedger, "a") == 1;
    assert Total(ThreeVoteLedger, "a") == 10;
  }

  lemma SummaryB()
    ensures Expected(ThreeVoteLedger, "b") == Rating(6.0, 2)
  {
    var empty: map<string, int> := map[];
    assert MapSum(empty) == 0;
    ColumnB();
    MapSumAdd(empty, "a", 8);
    MapSumAdd(empty["a" := 8], "c", 4);
    assert |empty["a" := 8]["c" := 4]| == 2;
    assert Count(ThreeVoteLedger, "b") == 2;
    assert Total(ThreeVoteLedger, "b") == 12;
  }

  /** Only b voted for a. */
  lemma ColumnA()
    ensures Column(ThreeVoteLedger, "a") == map["b" := 10]
  {
    var l := ThreeVoteLedger;
    assert l.Keys == {"a", "b", "c"};
    assert "a" !in l["a"] && "a" in l["b"] && "a" !in l["c"];
  }

  /** a and c voted for b. */
  lemma ColumnB()
    ensures Column(ThreeVoteLedger, "b") == map["a" := 8, "c" := 4]
  {
    var l := ThreeVoteLedger;
    assert l.Keys == {"a", "b", "c"};
    assert "b" in l["a"] && "b" !in l["b"] && "b" in l["c"];
  }

  /** a rates b 8 and then 2: the second score replaces the first. */
  lemma OverwriteReplaces()
    ensures Expected(Cast(Cast(map[], "a", "b", 8), "a", "b", 2), "b") == Rating(2.0, 1)
  {
    var l1 := Cast(map[], "a", "b", 8);
    assert Check(Roster3, Some("a"), Str("b"), Integral(8)) == Success(Vote("a", "b", 8));
    assert l1 == map["a" := map["b" := 8]];
    var l := Cast(l1, "a", "b", 2);
    assert Check(Roster3, Some("a"), Str("b"), Integral(2)) == Success(Vote("a", "b", 2));
    assert map["b" := 8]["b" := 2] == map["b" := 2];
    assert l == map["a" := map["b" := 2]];
    var empty: map<string, int> := map[];
    assert MapSum(empty) == 0;
    assert Column(l, "b") == empty["a" := 2];
    MapSumAdd(empty, "a", 2);
    assert Count(l, "b") == 1 && Total(l, "b") == 2;
  }

  /** The first failing check decides the reply: a self-vote with a bad score
      from a client that is not logged in is refused as `not_logged_in`. */
  lemma ErrorOrder()
    ensures Submit(Roster3, Session(None), Str("a"), NotANumber, map[]).reply == Fail(NotLoggedIn)
    ensures Submit(Roster3, Session(Some("a")), Str("z"), NotANumber, map[]).reply == Fail(InvalidTo)
    ensures Submit(Roster3, Session(Some("a")), Str("a"), NotANumber, map[]).reply == Fail(SelfVoteForbidden)
    ensures Submit(Roster3, Session(Some("a")), Str("b"), Integral(11), map[]).reply == Fail(InvalidScore)
  {
  }

  /** Scores 1 and 10 are accepted; 0, 11, a fraction and NaN are not. */
  lemma ScoreBoundaries()
    ensures Submit(Roster3, Session(Some("a")), Str("b"), Integral(1), map[]).reply == Pass
    ensures Submit(Roster3, Session(Some("a")), Str("b"), Integral(10), map[]).reply == Pass
    ensures Submit(Roster3, Session(Some("a")), Str("b"), Integral(0), map[]).reply == Fail(InvalidScore)
    ensures Submit(Roster3, Session(Some("a")), Str("b"), Integral(11), map[]).reply == Fail(InvalidScore)
    ensures Submit(Roster3, Session(Some("a")), Str("b"), NonIntegral, map[]).reply == Fail(InvalidScore)
    ensures Submit(Roster3, Session(Some("a")), Str("b"), NotANumber, map[]).reply == Fail(InvalidScore)
  {
  }
}
