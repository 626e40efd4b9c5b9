/** The roster: the participant names read from the PLAYERS environment variable
    (server.js line 12). The variable is split on commas, each piece is trimmed,
    and empty pieces are dropped; a built-in list applies only when the variable
    is unset. */
module Roster {
  import opened Wrappers

  /** The names used when PLAYERS is not set. */
  const DefaultRoster: seq<string> := ["player1", "player2", "player3"]

  /** The characters `String.prototype.trim` removes: the ECMAScript WhiteSpace
      and LineTerminator code points. */
  predicate IsSpace(c: char) {
    || c == ' ' || c == '\t' || c == '\n' || c == '\U{B}' || c == '\U{C}' || c == '\r'
    || c == '\U{A0}' || c == '\U{1680}' || ('\U{2000}' <= c <= '\U{200A}')
    || c == '\U{2028}' || c == '\U{2029}' || c == '\U{202F}' || c == '\U{205F}'
    || c == '\U{3000}' || c == '\U{FEFF}'
  }

  ghost predicate AllSpace(s: string) {
    forall i :: 0 <= i < |s| ==> IsSpace(s[i])
  }

  /** A string with no removable space at either end. */
  ghost predicate Trimmed(s: string) {
    s == [] || (!IsSpace(s[0]) && !IsSpace(s[|s| - 1]))
  }

  /** `r` is `s` with its first `i` characters, all space, and a run of space at
      the end removed. */
  ghost predicate StripsSpaceAt(s: string, r: string, i: nat) {
    && i + |r| <= |s|
    && s[i..i + |r|] == r
    && (forall k :: 0 <= k < i ==> IsSpace(s[k]))
    && (forall k :: i + |r| <= k < |s| ==> IsSpace(s[k]))
  }

  // ----- Splitting on commas -----

  /** The inverse of `Split`: the pieces glued back together with commas. */
  function Join(pieces: seq<string>): string
    requires |pieces| >= 1
  {
    if |pieces| == 1 then pieces[0] else pieces[0] + "," + Join(pieces[1..])
  }

  /** `s.split(',')`: the maximal comma-free runs of `s`, in order. There is always
      one more piece than there are commas, so the empty string gives `[""]`. */
  function Split(s: string): (pieces: seq<string>)
    ensures |pieces| >= 1
    ensures forall i :: 0 <= i < |pieces| ==> ',' !in pieces[i]
    ensures Join(pieces) == s
  {
    if |s| == 0 then [""]
    else
      var rest := Split(s[1..]);
      if s[0] == ',' then
        assert ([""] + rest)[1..] == rest;
        [""] + rest
      else
        var pieces := [[s[0]] + rest[0]] + rest[1..];
        assert |rest| > 1 ==> pieces[1..] == rest[1..] && Join(rest) == rest[0] + "," + Join(rest[1..]);
        pieces
  }

  /** Splitting a comma-free prefix followed by anything glues the prefix onto the
      first piece of the rest. */
  lemma {:induction false} SplitPrefix(a: string, t: string)
    requires ',' !in a
    ensures Split(a + t) == [a + Split(t)[0]] + Split(t)[1..]
  {
    if a != [] {
      assert (a + t)[0] == a[0] && (a + t)[1..] == a[1..] + t;
      var rest := Split(a[1..] + t);
      assert Split(a + t) == [[a[0]] + rest[0]] + rest[1..];
      SplitPrefix(a[1..], t);
      assert [a[0]] + (a[1..] + Split(t)[0]) == a + Split(t)[0];
    } else {
      assert a + t == t;
      assert Split(t) == [Split(t)[0]] + Split(t)[1..];
      assert a + Split(t)[0] == Split(t)[0];
    }
  }

  /** Splitting undoes joining, whenever no piece holds a comma. */
  lemma {:induction false} SplitJoin(pieces: seq<string>)
    requires |pieces| >= 1
    requires forall i :: 0 <= i < |pieces| ==> ',' !in pieces[i]
    ensures Split(Join(pieces)) == pieces
  {
    if |pieces| == 1 {
      SplitPrefix(pieces[0], "");
      assert pieces[0] + "" == pieces[0];
    } else {
      var rest := Join(pieces[1..]);
      SplitJoin(pieces[1..]);
      assert pieces[0] + "," + rest == pieces[0] + ("," + rest);
      SplitPrefix(pieces[0], "," + rest);
      assert ("," + rest)[0] == ',' && ("," + rest)[1..] == rest;
      assert Split("," + rest) == [""] + pieces[1..];
      assert pieces[0] + "" == pieces[0];
      assert pieces == [pieces[0]] + pieces[1..];
    }
  }

  /** Every character of a joined string comes from a piece or is a comma. */
  lemma {:induction false} JoinChars(pieces: seq<string>, k: nat)
    requires |pieces| >= 1 && k < |Join(pieces)|
    ensures Join(pieces)[k] == ',' || exists i, j :: 0 <= i < |pieces| && 0 <= j < |pieces[i]| && pieces[i][j] == Join(pieces)[k]
  {
    if |pieces| > 1 {
      var rest := Join(pieces[1..]);
      assert Join(pieces) == pieces[0] + "," + rest;
      if k < |pieces[0]| {
        assert pieces[0][k] == Join(pieces)[k];
      } else if k > |pieces[0]| {
        assert Join(pieces)[k] == rest[k - |pieces[0]| - 1];
        JoinChars(pieces[1..], k - |pieces[0]| - 1);
        if rest[k - |pieces[0]| - 1] != ',' {
          var i, j :| 0 <= i < |pieces[1..]| && 0 <= j < |pieces[1..][i]| && pieces[1..][i][j] == rest[k - |pieces[0]| - 1];
          assert pieces[i + 1][j] == Join(pieces)[k];
        }
      }
    } else {
      assert pieces[0][k] == Join(pieces)[k];
    }
  }

  /** Every character of a piece appears in the joined string. */
  lemma {:induction false} PieceChars(pieces: seq<string>, i: nat, j: nat)
    requires |pieces| >= 1 && i < |pieces| && j < |pieces[i]|
    ensures exists k :: 0 <= k < |Join(pieces)| && Join(pieces)[k] == pieces[i][j]
  {
    if |pieces| > 1 {
      var rest := Join(pieces[1..]);
      assert Join(pieces) == pieces[0] + "," + rest;
      if i == 0 {
        assert Join(pieces)[j] == pieces[0][j];
      } else {
        PieceChars(pieces[1..], i - 1, j);
        var k :| 0 <= k < |rest| && rest[k] == pieces[1..][i - 1][j];
        assert Join(pieces)[|pieces[0]| + 1 + k] == rest[k];
      }
    } else {
      assert Join(pieces)[j] == pieces[0][j];
    }
  }

  // ----- Trimming -----

  /** How many space characters `s` starts with. */
  function LeadingSpace(s: string): (n: nat)
    ensures n <= |s| && forall k :: 0 <= k < n ==> IsSpace(s[k])
    ensures n < |s| ==> !IsSpace(s[n])
  {
    if |s| > 0 && IsSpace(s[0]) then 1 + LeadingSpace(s[1..]) else 0
  }

  /** How many space characters `s` ends with. */
  function TrailingSpace(s: string): (n: nat)
    ensures n <= |s| && forall k :: |s| - n <= k < |s| ==> IsSpace(s[k])
    ensures n < |s| ==> !IsSpace(s[|s| - n - 1])
  {
    if |s| > 0 && IsSpace(s[|s| - 1]) then 1 + TrailingSpace(s[..|s| - 1]) else 0
  }

  /** `s.trim()`: `s` without its leading and trailing space. */
  function Trim(s: string): (r: string)
    ensures Trimmed(r)
    ensures StripsSpaceAt(s, r, LeadingSpace(s))
  {
    var i := LeadingSpace(s);
    var t := s[i..];
    var n := TrailingSpace(t);
    var r := t[..|t| - n];
    assert s[i..i + |r|] == r;
    assert forall k :: i + |r| <= k < |s| ==> s[k] == t[k - i];
    assert r != [] ==> r[0] == s[i] && r[|r| - 1] == t[|t| - n - 1];
    r
  }

  /** A string trims to nothing exactly when it is all space. */
  lemma TrimEmptyIff(s: string)
    ensures Trim(s) == [] <==> AllSpace(s)
  {
    var r := Trim(s);
    var i := LeadingSpace(s);
    if r == [] {
      assert i == |s|;
    } else {
      assert r[0] == s[i] && !IsSpace(s[i]);
    }
  }

  /** Trimming a second time changes nothing. */
  lemma TrimIdempotent(s: string)
    ensures Trim(Trim(s)) == Trim(s)
  {
    var r := Trim(s);
    assert LeadingSpace(r) == 0;
    assert TrailingSpace(r[0..]) == 0;
  }

  // ----- Parsing PLAYERS -----

  /** `.map(s => s.trim())` */
  function TrimAll(pieces: seq<string>): (r: seq<string>)
    ensures |r| == |pieces|
    ensures forall i :: 0 <= i < |r| ==> r[i] == Trim(pieces[i]) && Trimmed(r[i])
  {
    if pieces == [] then [] else [Trim(pieces[0])] + TrimAll(pieces[1..])
  }

  /** `.filter(Boolean)` on strings: drop the empty ones, keep the rest in order. */
  function DropEmpty(xs: seq<string>): (r: seq<string>)
    ensures |r| <= |xs|
    ensures forall i :: 0 <= i < |r| ==> r[i] != "" && r[i] in xs
    ensures forall j :: 0 <= j < |xs| && xs[j] != "" ==> xs[j] in r
  {
    if xs == [] then []
    else if xs[0] == "" then DropEmpty(xs[1..])
    else [xs[0]] + DropEmpty(xs[1..])
  }

  /** Filtering a concatenation filters each part; with the singleton cases this
      pins `DropEmpty` down to "delete exactly the empty entries, keep the order". */
  lemma {:induction false} DropEmptyAppend(a: seq<string>, b: seq<string>)
    ensures DropEmpty(a + b) == DropEmpty(a) + DropEmpty(b)
  {
    if a != [] {
      assert (a + b)[0] == a[0] && (a + b)[1..] == a[1..] + b;
      DropEmptyAppend(a[1..], b);
    } else {
      assert a + b == b;
    }
  }

  /** The roster for a PLAYERS value; `None` is an unset variable. */
  function ParseRoster(env: Option<string>): (roster: seq<string>)
    ensures env.None? ==> roster == DefaultRoster
    ensures env.Some? ==> roster == DropEmpty(TrimAll(Split(env.value)))
    ensures forall i :: 0 <= i < |roster| ==> roster[i] != "" && Trimmed(roster[i])
  {
    match env
    case None => DefaultRoster
    case Some(s) => DropEmpty(TrimAll(Split(s)))
  }

  /** `x` is the trim of one of the comma-separated pieces of `s`. */
  ghost predicate TrimsPieceOf(s: string, x: string) {
    exists i :: 0 <= i < |Split(s)| && Trim(Split(s)[i]) == x
  }

  /** A name is on the parsed roster exactly when it is the non-empty trim of
      some comma-separated piece of the variable. */
  lemma RosterMembers(s: string, x: string)
    ensures x in ParseRoster(Some(s)) <==> x != "" && TrimsPieceOf(s, x)
  {
    var pieces := Split(s);
    var ts := TrimAll(pieces);
    var roster := DropEmpty(ts);
    if x in ParseRoster(Some(s)) {
      var k :| 0 <= k < |roster| && roster[k] == x;
      assert x in ts;
      var i :| 0 <= i < |ts| && ts[i] == x;
      assert Trim(pieces[i]) == x;
    }
    if x != "" && TrimsPieceOf(s, x) {
      var i :| 0 <= i < |pieces| && Trim(pieces[i]) == x;
      assert ts[i] == x;
    }
  }

  /** A set variable parses to the empty roster, rather than the built-in list,
      exactly when it holds nothing but commas and white space. (That an unset
      variable gives the built-in list is `ParseRoster`'s first ensures.) */
  lemma {:induction false} EmptyRosterIff(s: string)
    ensures ParseRoster(Some(s)) == [] <==> forall k :: 0 <= k < |s| ==> s[k] == ',' || IsSpace(s[k])
  {
    var pieces := Split(s);
    var ts := TrimAll(pieces);
    if ParseRoster(Some(s)) == [] {
      forall k | 0 <= k < |s| ensures s[k] == ',' || IsSpace(s[k]) {
        JoinChars(pieces, k);
        if s[k] != ',' {
          var i, j :| 0 <= i < |pieces| && 0 <= j < |pieces[i]| && pieces[i][j] == s[k];
          assert ts[i] !in DropEmpty(ts);
          TrimEmptyIff(pieces[i]);
        }
      }
    } else {
      var x := ParseRoster(Some(s))[0];
      assert x in ts && x != "";
      var i :| 0 <= i < |ts| && ts[i] == x;
      TrimEmptyIff(pieces[i]);
      var j :| 0 <= j < |pieces[i]| && !IsSpace(pieces[i][j]);
      PieceChars(pieces, i, j);
      var k :| 0 <= k < |s| && s[k] == pieces[i][j];
      assert s[k] != ',' && !IsSpace(s[k]);
    }
  }
}
