/** Vote submission: the `/api/vote` handler (server.js lines 42-55). The checks
    run in a fixed order and the first failure is the reply; only a vote that
    passes all four touches the ledger, where it overwrites any earlier score
    for the same (voter, target) pair. */
module Ballot {
  import opened Wrappers
  import opened Api
  import Session
  import Roster

  /** The outcome of `Number(score)` as far as `Number.isInteger` can tell:
      an integral value, a finite value with a fraction or an infinity, or NaN. */
  datatype Coerced = Integral(n: int) | NonIntegral | NotANumber

  /** Every stored score, keyed by voter and then by target. */
  type Ledger = map<string, map<string, int>>

  /** A vote that passed validation. */
  datatype Vote = Vote(from: string, to: string, score: int)

  /** The reply of `/api/vote` together with the ledger afterwards. */
  datatype VoteOutcome = VoteOutcome(reply: Outcome<Error>, ledger: Ledger)

  /** The score `voter` gave `target`, if any. */
  function Lookup(ledger: Ledger, voter: string, target: string): Option<int> {
    if voter in ledger && target in ledger[voter] then Some(ledger[voter][target]) else None
  }

  /** `!from` failed: there is an identity and it is not the empty string. */
  predicate LoggedIn(identity: Option<string>) {
    identity.Some? && identity.value != ""
  }

  /** `Number.isInteger(n) && n >= 1 && n <= 10` */
  predicate ValidScore(score: Coerced) {
    score.Integral? && 1 <= score.n <= 10
  }

  /** The validation chain of `/api/vote`, first failure wins. The voter is not
      checked against the roster; only its presence is. */
  function Check(roster: seq<string>, identity: Option<string>, to: Field, score: Coerced): (r: Result<Vote, Error>)
    ensures !LoggedIn(identity) ==> r == Failure(NotLoggedIn)
    ensures LoggedIn(identity) && !NamesMember(roster, to) ==> r == Failure(InvalidTo)
    ensures LoggedIn(identity) && NamesMember(roster, to) && identity.value == to.text ==>
      r == Failure(SelfVoteForbidden)
    ensures LoggedIn(identity) && NamesMember(roster, to) && identity.value != to.text ==>
      (r.Success? <==> ValidScore(score)) && (r.Failure? ==> r.error == InvalidScore)
    ensures r.Success? ==> r.value == Vote(identity.value, to.text, score.n)
  {
    if !LoggedIn(identity) then Failure(NotLoggedIn)
    else if !NamesMember(roster, to) then Failure(InvalidTo)
    else if identity.value == to.text then Failure(SelfVoteForbidden)
    else if !ValidScore(score) then Failure(InvalidScore)
    else Success(Vote(identity.value, to.text, score.n))
  }

  /** `data.votes[from] ||= {}; data.votes[from][to] = n`. */
  function Upsert(ledger: Ledger, v: Vote): (r: Ledger)
    ensures Lookup(r, v.from, v.to) == Some(v.score)
    ensures forall voter, target :: (voter, target) != (v.from, v.to) ==>
      Lookup(r, voter, target) == Lookup(ledger, voter, target)
    ensures r.Keys == ledger.Keys + {v.from}
  {
    var targets := if v.from in ledger then ledger[v.from] else map[];
    ledger[v.from := targets[v.to := v.score]]
  }

  /** The key JavaScript treats specially on plain objects: reading it where no
      own property of that name exists yields the object's prototype, and
      assigning a non-object to it is silently ignored. */
  const ProtoKey: string := "__proto__"

  /** The names every plain object inherits from `Object.prototype`. Reading
      one of them where no own property of that name exists yields a truthy
      value: a function, or the prototype itself for `__proto__`. */
  const InheritedKeys: set<string> := {
    "constructor", "toString", "toLocaleString", "valueOf", "hasOwnProperty",
    "isPrototypeOf", "propertyIsEnumerable", "__defineGetter__", "__defineSetter__",
    "__lookupGetter__", "__lookupSetter__", ProtoKey }

  /** Lines 51-52 as JavaScript evaluates them on the objects `JSON.parse` built.
      For a voter that names an inherited member and has no own entry,
      `data.votes[from]` reads that member, which is truthy, so `||=` does
      nothing. The score is then written onto the inherited value (a function,
      or `Object.prototype` itself), where `writeVotes` never sees it. A target
      named `__proto__` is an assignment to the prototype setter, which ignores
      a number. Any other inherited name as a target becomes an own data
      property and is stored. Every other vote is stored as `Upsert` stores it. */
  function UpsertAsWritten(ledger: Ledger, v: Vote): (r: Ledger)
    ensures v.from in InheritedKeys && v.from !in ledger ==> r == ledger
    ensures v.to == ProtoKey && Lookup(ledger, v.from, ProtoKey).None? ==>
      forall u, q :: Lookup(r, u, q) == Lookup(ledger, u, q)
    ensures (!(v.from in InheritedKeys && v.from !in ledger) &&
             !(v.to == ProtoKey && Lookup(ledger, v.from, ProtoKey).None?)) ==> r == Upsert(ledger, v)
  {
    if v.from in InheritedKeys && v.from !in ledger then ledger
    else
      var targets := if v.from in ledger then ledger[v.from] else map[];
      if v.to == ProtoKey && ProtoKey !in targets then ledger[v.from := targets]
      else ledger[v.from := targets[v.to := v.score]]
  }

  /** A client whose identity cookie names an inherited member (`constructor`,
      `toString`, `__proto__`, ...) with no entry of its own passes every check
      for any other roster member and any score in range, because the voter is
      never looked up in the roster, and is told the vote was stored. Yet the
      code as written leaves the ledger as it was, while `Upsert` stores it. */
  lemma AcceptedVoteLost(roster: seq<string>, ledger: Ledger, from: string, to: string, n: int)
    requires from in InheritedKeys && from !in ledger
    requires NamesMember(roster, Str(to)) && to != from && 1 <= n <= 10
    ensures Check(roster, Some(from), Str(to), Integral(n)) == Success(Vote(from, to, n))
    ensures UpsertAsWritten(ledger, Vote(from, to, n)) == ledger
    ensures Lookup(Upsert(ledger, Vote(from, to, n)), from, to) == Some(n)
  {
  }

  /** `/api/vote`: validate, and on success store the score. */
  function Submit(roster: seq<string>, session: Session.Session, to: Field, score: Coerced, ledger: Ledger): (out: VoteOutcome)
    ensures out.reply.Pass? <==> Check(roster, session.identity, to, score).Success?
    ensures out.reply.Fail? ==>
      out.reply.error == Check(roster, session.identity, to, score).error && out.ledger == ledger
    ensures out.reply.Pass? ==>
      var from := session.identity.value;
      && Lookup(out.ledger, from, to.text) == Some(score.n)
      && forall voter, target :: (voter, target) != (from, to.text) ==>
           Lookup(out.ledger, voter, target) == Lookup(ledger, voter, target)
  {
    match Check(roster, session.identity, to, score)
    case Failure(e) => VoteOutcome(Fail(e), ledger)
    case Success(v) => VoteOutcome(Pass, Upsert(ledger, v))
  }

  // ----- An independent statement of the validation order -----

  /** One validation rule: whether the request passes it, and the error if not. */
  datatype Rule = Rule(passes: bool, error: Error)

  /** The error of the first rule that fails, if any. */
  function FirstFailure(rules: seq<Rule>): Option<Error> {
    if rules == [] then None
    else if !rules[0].passes then Some(rules[0].error)
    else FirstFailure(rules[1..])
  }

  /** The four rules of `/api/vote`, in the order the handler tries them. */
  function VoteRules(roster: seq<string>, identity: Option<string>, to: Field, score: Coerced): seq<Rule> {
    [ Rule(LoggedIn(identity), NotLoggedIn),
      Rule(NamesMember(roster, to), InvalidTo),
      Rule(!(identity.Some? && to.Str? && identity.value == to.text), SelfVoteForbidden),
      Rule(ValidScore(score), InvalidScore) ]
  }

  /** `Check` fails with exactly the error of the first failing rule, and succeeds
      exactly when every rule passes. */
  lemma CheckIsFirstFailure(roster: seq<string>, identity: Option<string>, to: Field, score: Coerced)
    ensures Check(roster, identity, to, score).Failure? <==> FirstFailure(VoteRules(roster, identity, to, score)).Some?
    ensures Check(roster, identity, to, score).Failure? ==>
      FirstFailure(VoteRules(roster, identity, to, score)) == Some(Check(roster, identity, to, score).error)
  {
    var rules := VoteRules(roster, identity, to, score);
    var tail1, tail2, tail3 := rules[1..], rules[2..], rules[3..];
    assert tail1[1..] == tail2 && tail2[1..] == tail3 && tail3[1..] == [];
    assert FirstFailure(tail3) == if rules[3].passes then None else Some(InvalidScore);
    assert FirstFailure(tail2) == if rules[2].passes then FirstFailure(tail3) else Some(SelfVoteForbidden);
    assert FirstFailure(tail1) == if rules[1].passes then FirstFailure(tail2) else Some(InvalidTo);
    assert FirstFailure(rules) == if rules[0].passes then FirstFailure(tail1) else Some(NotLoggedIn);
  }

  // ----- Properties of the ledger -----

  /** A failed submission leaves the ledger as it was, whatever the request held. */
  lemma FailureIsNoOp(roster: seq<string>, session: Session.Session, to: Field, score: Coerced, ledger: Ledger)
    requires Submit(roster, session, to, score, ledger).reply.Fail?
    ensures Submit(roster, session, to, score, ledger).ledger == ledger
  {
  }

  /** Submitting the same vote again leaves the ledger where the first one put it. */
  lemma SubmitIdempotent(roster: seq<string>, session: Session.Session, to: Field, score: Coerced, ledger: Ledger)
    ensures
      var once := Submit(roster, session, to, score, ledger);
      var twice := Submit(roster, session, to, score, once.ledger);
      twice == once
  {
    var once := Submit(roster, session, to, score, ledger);
    match Check(roster, session.identity, to, score)
    case Failure(_) =>
    case Success(v) =>
      var l1 := Upsert(ledger, v);
      assert l1[v.from][v.to := v.score] == l1[v.from];
      assert l1[v.from := l1[v.from]] == l1;
  }

  /** What the ledger keeps: scores on the 1-10 scale, targets on the roster, and
      no self-votes. */
  ghost predicate WellFormed(roster: seq<string>, ledger: Ledger) {
    forall voter, target :: Lookup(ledger, voter, target).Some? ==>
      && target in roster
      && target != voter
      && 1 <= Lookup(ledger, voter, target).value <= 10
  }

  /** Every voter of the ledger is on the roster. */
  ghost predicate VotersInRoster(roster: seq<string>, ledger: Ledger) {
    forall voter :: voter in ledger ==> voter in roster
  }

  /** Submissions keep the ledger well formed; and if the session names a roster
      member, they keep every voter on the roster too. */
  lemma SubmitPreservesWellFormed(roster: seq<string>, session: Session.Session, to: Field, score: Coerced, ledger: Ledger)
    requires WellFormed(roster, ledger)
    ensures WellFormed(roster, Submit(roster, session, to, score, ledger).ledger)
    ensures VotersInRoster(roster, ledger) && Session.InRoster(roster, session) ==>
      VotersInRoster(roster, Submit(roster, session, to, score, ledger).ledger)
  {
  }
}
