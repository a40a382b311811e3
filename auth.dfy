/** Reading the bearer token from a request's `Authorization` header (`Auth.ts`). */
module Auth {
  import opened Js

  /** The characters `.` in a JavaScript regular expression does not match. */
  predicate IsLineTerminator(c: char)
  {
    c == '\n' || c == '\r' || c == '\U{2028}' || c == '\U{2029}'
  }

  const BearerPrefix: string := "Bearer "

  /** `(.*)$` matched against the rest of the header: without the multiline flag,
      `$` only matches at the end, so `.*` must consume everything, and it cannot
      consume a line terminator. */
  predicate DotStarToEnd(s: string)
    decreases |s|
  {
    s == [] || (!IsLineTerminator(s[0]) && DotStarToEnd(s[1..]))
  }

  /** `header.match(/^Bearer (.*)$/)`, element 0: the whole matched text, which
      is the whole header when the pattern matches at all. */
  function BearerMatch(header: string): (m: Option<string>)
    ensures m.Some? <==> IsBearerHeader(header)
    ensures m.Some? ==> m.value == header
  {
    if |header| >= |BearerPrefix| && header[..|BearerPrefix|] == BearerPrefix then
      DotStarToEndIff(header[|BearerPrefix|..]);
      assert forall i :: |BearerPrefix| <= i < |header| ==> header[|BearerPrefix|..][i - |BearerPrefix|] == header[i];
      if DotStarToEnd(header[|BearerPrefix|..]) then Some(header) else None
    else None
  }

  /** The headers the pattern accepts: the case-sensitive prefix `Bearer ` with a
      single space, then any text without a line terminator. */
  predicate IsBearerHeader(header: string)
  {
    && |header| >= |BearerPrefix|
    && header[..|BearerPrefix|] == BearerPrefix
    && forall i :: |BearerPrefix| <= i < |header| ==> !IsLineTerminator(header[i])
  }

  /** `getIdToken`: undefined (None) for a missing header or one the pattern
      rejects; otherwise the whole header, `Bearer ` prefix included, not the
      captured token. */
  function GetIdToken(authorization: Option<string>): (token: Option<string>)
    ensures token.Some? <==> authorization.Some? && IsBearerHeader(authorization.value)
    ensures token.Some? ==> token == authorization && token.value[..|BearerPrefix|] == BearerPrefix
  {
    match authorization
    case None => None
    case Some(header) => BearerMatch(header)
  }

  lemma {:induction false} DotStarToEndIff(s: string)
    ensures DotStarToEnd(s) <==> forall i :: 0 <= i < |s| ==> !IsLineTerminator(s[i])
    decreases |s|
  {
    if s != [] {
      DotStarToEndIff(s[1..]);
      assert forall i :: 1 <= i < |s| ==> s[1..][i - 1] == s[i];
    }
  }

  /** The token returned is never stripped: for any text `t` without line
      terminators, `Bearer t` comes back whole. */
  lemma TokenKeepsPrefix(t: string)
    requires forall i :: 0 <= i < |t| ==> !IsLineTerminator(t[i])
    ensures GetIdToken(Some(BearerPrefix + t)) == Some(BearerPrefix + t)
  {
    var header := BearerPrefix + t;
    assert header[..|BearerPrefix|] == BearerPrefix;
    assert forall i :: |BearerPrefix| <= i < |header| ==> header[i] == t[i - |BearerPrefix|];
  }

  /** A header of exactly `Bearer ` matches, and is returned as it is. */
  lemma BareBearerMatches()
    ensures GetIdToken(Some("Bearer ")) == Some("Bearer ")
  {
  }

  /** A line terminator anywhere after the prefix makes the header unreadable. */
  lemma LineTerminatorRejected(t: string, i: nat)
    requires i < |t| && IsLineTerminator(t[i])
    ensures GetIdToken(Some(BearerPrefix + t)) == None
  {
    assert (BearerPrefix + t)[|BearerPrefix| + i] == t[i];
  }

  /** The prefix is case-sensitive. */
  lemma LowerCaseBearerRejected(t: string)
    ensures GetIdToken(Some("bearer " + t)) == None
  {
    assert ("bearer " + t)[0] == 'b';
  }
}
