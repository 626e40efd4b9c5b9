/** Client identity: the `/api/login`, `/api/logout` and `/api/me` handlers
    (server.js lines 31-40). The identity lives in the client's session; the
    server keeps no table of sessions, so the session is an abstract value that
    each handler receives and may return changed. */
module Session {
  import opened Wrappers
  import opened Api

  /** What the client carries between requests: the name it logged in as, if any. */
  datatype Session = Session(identity: Option<string>)

  /** The reply of `/api/login` together with the client's session afterwards. */
  datatype LoginOutcome = LoginOutcome(reply: Result<string, Error>, session: Session)

  /** The session names a roster member (or nobody). Login and logout keep this. */
  predicate InRoster(roster: seq<string>, session: Session) {
    session.identity.Some? ==> session.identity.value in roster
  }

  /** `/api/login`: accept `player` when it is a non-empty string on the roster. */
  function Login(roster: seq<string>, session: Session, player: Field): (out: LoginOutcome)
    ensures out.reply.Success? <==> player.Str? && player.text != "" && player.text in roster
    ensures out.reply.Success? ==>
      out.reply.value == player.text && out.session.identity == Some(player.text)
    ensures out.reply.Failure? ==> out.reply.error == InvalidPlayer && out.session == session
  {
    if !NamesMember(roster, player) then LoginOutcome(Failure(InvalidPlayer), session)
    else LoginOutcome(Success(player.text), Session(Some(player.text)))
  }

  /** `/api/logout`: always succeeds and forgets the identity. */
  function Logout(session: Session): (s': Session)
    ensures s'.identity.None?
  {
    Session(None)
  }

  /** `/api/me`: the identity, or null; an empty name reads as null, as `|| null` does. */
  function Me(session: Session): (r: Option<string>)
    ensures r.Some? <==> session.identity.Some? && session.identity.value != ""
    ensures r.Some? ==> session.identity == r
  {
    match session.identity
    case Some(name) => if name == "" then None else Some(name)
    case None => None
  }

  /** After a successful login, `/api/me` answers with the accepted name. */
  lemma LoginThenMe(roster: seq<string>, session: Session, player: Field)
    requires Login(roster, session, player).reply.Success?
    ensures Me(Login(roster, session, player).session) == Some(player.text)
  {
  }

  /** After logout `/api/me` answers null, and logging out twice is logging out once. */
  lemma LogoutThenMe(session: Session)
    ensures Me(Logout(session)).None?
    ensures Logout(Logout(session)) == Logout(session)
  {
  }

  /** Login and logout never bind a session to a name outside the roster. */
  lemma SessionStaysInRoster(roster: seq<string>, session: Session, player: Field)
    requires InRoster(roster, session)
    ensures InRoster(roster, Login(roster, session, player).session)
    ensures InRoster(roster, Logout(session))
  {
  }
}
