/** The session guard of the worker: an unsigned cookie marker, issued by a
    successful login and recognised by a plain substring test. */
module Session {
  import opened Wrappers
  import opened JsString

  /** The text `isAuthenticated` looks for in the Cookie header. */
  const Marker := "authenticated=true"

  /** The Set-Cookie value of a successful login: no HttpOnly, Secure or
      SameSite attribute. */
  const SessionCookie := "authenticated=true; Max-Age=3600; Path=/"

  /** `isAuthenticated(request)`: `(headers.get('Cookie') || '').includes(Marker)`. */
  predicate IsAuthenticated(cookie: Option<string>)
    ensures IsAuthenticated(cookie) <==> exists i: nat :: OccursAt(cookie.GetOr(""), Marker, i)
    ensures cookie.None? ==> !IsAuthenticated(cookie)
  {
    Includes(cookie.GetOr(""), Marker)
  }

  /** The cookie a browser sends back after a login, `authenticated=true`,
      authenticates; and so does any header holding the marker anywhere, in
      any cookie's name or value: the marker is not a parsed cookie and
      carries no signature. */
  lemma MarkerAnywhereAuthenticates(before: string, after: string)
    ensures IsAuthenticated(Some(before + Marker + after))
  {
    var h := before + Marker + after;
    assert h[|before|..|before| + |Marker|] == Marker;
    assert OccursAt(h, Marker, |before|);
  }

  /** The converse: a header authenticates only when it holds the marker,
      with some text before it and some after. */
  lemma AuthenticatedHoldsMarker(header: string)
    requires IsAuthenticated(Some(header))
    ensures exists before, after :: header == before + Marker + after
  {
    var i: nat :| OccursAt(header, Marker, i);
    assert header == header[..i] + Marker + header[i + |Marker|..];
  }

  /** The name=value pair a browser keeps from the issued cookie, its text
      before the first ';', is the marker, so sending it back passes
      `isAuthenticated`. */
  lemma StoredCookiePairAuthenticates()
    ensures IndexOf(SessionCookie, ";") == Some(|Marker|)
    ensures SessionCookie[..|Marker|] == Marker
    ensures IsAuthenticated(Some(SessionCookie[..IndexOf(SessionCookie, ";").value]))
  {
    assert SessionCookie[..|Marker|] == Marker;
    assert forall j :: 0 <= j < |Marker| ==> SessionCookie[j] != ';';
    IndexOfChar(SessionCookie, ';', 0, |Marker|);
    assert ";" == [';'];
    MarkerAnywhereAuthenticates("", "");
    assert "" + Marker + "" == Marker;
  }
}
