/**
  The session credential as the client keeps it: the `Set-Cookie` header
  value cut at its first attribute separator.
 */
module SessionCookie {
  import opened Strings

  /** `cookie.split(";")[0]`. */
  function ParseSessionCookie(cookie: string): (session: string)
    ensures |session| <= |cookie| && cookie[..|session|] == session
    ensures ';' !in session
    ensures |session| < |cookie| ==> cookie[|session|] == ';'
  {
    var parts := Split(cookie, ';');
    JoinStartsWithHead(parts, ';');
    parts[0]
  }

  /** A joined list begins with its first part, followed by the separator
      when there are more parts. */
  lemma {:induction false} JoinStartsWithHead(parts: seq<string>, sep: char)
    requires parts != []
    ensures |parts[0]| <= |Join(parts, sep)|
    ensures Join(parts, sep)[..|parts[0]|] == parts[0]
    ensures |parts| > 1 ==> |parts[0]| < |Join(parts, sep)| && Join(parts, sep)[|parts[0]|] == sep
  {
    if |parts| > 1 {
      assert Join(parts, sep) == parts[0] + [sep] + Join(parts[1..], sep);
    }
  }

  /** The session is exactly the text before the first `;`: the whole cookie
      when it has none. */
  lemma SessionIsPrefixBeforeFirstSeparator(cookie: string)
    ensures ';' !in cookie ==> ParseSessionCookie(cookie) == cookie
    ensures IndexOf(cookie, ';').Some? ==>
      ParseSessionCookie(cookie) == cookie[..IndexOf(cookie, ';').value]
  {
  }
}
