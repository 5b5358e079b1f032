/** The routing decision of the worker's `fetch` handler (worker.js:7-34):
    which handler a (method, path) pair reaches, and the content id taken
    from a `/content/` path. */
module Router {
  import opened Wrappers
  import opened JsString

  const ContentPrefix := "/content/"

  /** The handlers `fetch` dispatches to, in the order it tests them. */
  datatype Route =
    | GetRoot                 // GET /: set-password or login panel
    | PostRoot                // POST /: set the password or log in
    | GetPanel                // GET /panel
    | PostEdit                // POST /edit
    | PostNew                 // POST /new
    | PostFetch               // POST /fetch
    | GetContent(id: string)  // GET /content/<id>
    | Unmatched               // anything else: 404

  /** `path.split('/content/')[1]` for a path that starts with `/content/`:
      the text after the first marker, up to the first marker that starts
      after it, or the end of the path. */
  function ContentId(path: string): (id: string)
    requires StartsWith(path, ContentPrefix)
    ensures |ContentPrefix| + |id| <= |path|
    ensures path[|ContentPrefix|..|ContentPrefix| + |id|] == id
    ensures |ContentPrefix| + |id| == |path| || OccursAt(path, ContentPrefix, |ContentPrefix| + |id|)
    ensures forall j :: |ContentPrefix| <= j < |ContentPrefix| + |id| ==> !OccursAt(path, ContentPrefix, j)
    ensures !Includes(id, ContentPrefix)
  {
    var n := |ContentPrefix|;
    assert IndexOfFrom(path, ContentPrefix, 0) == Some(0);
    assert Split(path, ContentPrefix) == [path[..0]] + SplitFrom(path, ContentPrefix, n);
    SplitFromFirst(path, ContentPrefix, n);
    SplitFromPiecesFree(path, ContentPrefix, n);
    Split(path, ContentPrefix)[1]
  }

  /** The path of a content id without the marker in it leads back to that id. */
  lemma {:induction false} ContentIdOfContentPath(id: string)
    requires !Includes(id, ContentPrefix)
    ensures StartsWith(ContentPrefix + id, ContentPrefix)
    ensures ContentId(ContentPrefix + id) == id
  {
    var path := ContentPrefix + id;
    var n := |ContentPrefix|;
    assert path[..n] == ContentPrefix;
    var r := ContentId(path);
    assert path[n..] == id;
    assert r == id[..|r|];
    // a second marker after the first would start inside `id`
    MarkerInSuffix(id, |r|);
  }

  lemma MarkerInSuffix(id: string, k: nat)
    ensures OccursAt(ContentPrefix + id, ContentPrefix, |ContentPrefix| + k) ==> OccursAt(id, ContentPrefix, k)
  {
    var path, n := ContentPrefix + id, |ContentPrefix|;
    if OccursAt(path, ContentPrefix, n + k) {
      assert path[n + k..n + k + n] == id[k..k + n];
    }
  }

  /** The branch of `fetch` a request reaches. */
  function RouteOf(httpMethod: string, path: string): (r: Route)
    ensures r == GetRoot <==> httpMethod == "GET" && path == "/"
    ensures r == PostRoot <==> httpMethod == "POST" && path == "/"
    ensures r == GetPanel <==> httpMethod == "GET" && path == "/panel"
    ensures r == PostEdit <==> httpMethod == "POST" && path == "/edit"
    ensures r == PostNew <==> httpMethod == "POST" && path == "/new"
    ensures r == PostFetch <==> httpMethod == "POST" && path == "/fetch"
    ensures r.GetContent? <==> httpMethod == "GET" && StartsWith(path, ContentPrefix)
    ensures r.GetContent? ==> StartsWith(path, ContentPrefix) && r.id == ContentId(path)
    ensures r == Unmatched <==>
      (httpMethod != "GET" || (path != "/" && path != "/panel" && !StartsWith(path, ContentPrefix))) &&
      (httpMethod != "POST" || (path != "/" && path != "/edit" && path != "/new" && path != "/fetch"))
  {
    if httpMethod == "GET" && path == "/" then GetRoot
    else if httpMethod == "POST" && path == "/" then PostRoot
    else if httpMethod == "GET" && path == "/panel" then GetPanel
    else if httpMethod == "POST" && path == "/edit" then PostEdit
    else if httpMethod == "POST" && path == "/new" then PostNew
    else if httpMethod == "POST" && path == "/fetch" then PostFetch
    else if httpMethod == "GET" && StartsWith(path, ContentPrefix) then GetContent(ContentId(path))
    else Unmatched
  }

  /** `GET /content/<id>` reaches the public display of `id` for every id
      without the marker in it, including the credential key "password". */
  lemma ContentPathRoutes(id: string)
    requires !Includes(id, ContentPrefix)
    ensures RouteOf("GET", ContentPrefix + id) == GetContent(id)
  {
    ContentIdOfContentPath(id);
  }

  /** The id ends at the first marker after the leading one even when a
      longer, overlapping candidate would hold no whole marker:
      `'/content//content/content/x'.split('/content/')[1]` is `''`. */
  lemma ContentIdStopsAtFirstMarker()
    ensures StartsWith("/content//content/content/x", ContentPrefix)
    ensures ContentId("/content//content/content/x") == ""
  {
    var path := "/content//content/content/x";
    assert path[..9] == ContentPrefix;
    assert path[9..18] == ContentPrefix;
    assert OccursAt(path, ContentPrefix, 9);
  }
}
