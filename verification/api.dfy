/** The vocabulary the HTTP handlers share: request field values and error codes. */
module Api {

  /** A field read out of a JSON request body, as far as the handlers can tell it apart.
      `Missing` is an absent field (`undefined`); `Str` is a JSON string; `NonString`
      is any other JSON value (number, boolean, null, array, object). A `NonString`
      is never equal to a roster name, because every roster name is a string. */
  datatype Field = Missing | Str(text: string) | NonString

  /** The machine-readable error codes of the API. */
  datatype Error =
    | InvalidPlayer       // "invalid_player"
    | NotLoggedIn         // "not_logged_in"
    | InvalidTo           // "invalid_to"
    | SelfVoteForbidden   // "self_vote_forbidden"
    | InvalidScore        // "invalid_score"

  /** JavaScript's `!x || !roster.includes(x)` failed: `x` is a non-empty string
      that is an exact member of the roster. */
  predicate NamesMember(roster: seq<string>, x: Field) {
    x.Str? && x.text != "" && x.text in roster
  }
}
