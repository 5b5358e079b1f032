/** The share link `handleFormSubmission` shows after storing new content
    (worker.js:270): `${request.url.replace('/new', '')}/content/${uuid}`.
    `replace` with a string pattern removes the FIRST "/new" of the whole URL,
    which is the path only when the origin has no "/new" in it. */
module ShareLink {
  import opened Wrappers
  import opened JsString
  import opened Router
  import opened Http

  const NewPath := "/new"

  /** The link exactly as worker.js:270 builds it from `request.url`. */
  function LinkAsWritten(url: string, id: string): string
  {
    ReplaceFirst(url, NewPath, "") + ContentPrefix + id
  }

  /** The link the page means to show: the worker's origin followed by the
      public content path of `id`, from which `split('/content/')[1]` reads
      the id back whenever the id holds no marker of its own. */
  function Link(origin: string, id: string): (link: string)
    ensures |link| == |origin| + |ContentPrefix| + |id|
    ensures link[..|origin|] == origin && link[|origin|..] == ContentPrefix + id
    ensures StartsWith(link[|origin|..], ContentPrefix)
    ensures !Includes(id, ContentPrefix) ==> ContentId(link[|origin|..]) == id
  {
    var link := origin + ContentPrefix + id;
    assert link[|origin|..] == ContentPrefix + id;
    assert (ContentPrefix + id)[..|ContentPrefix|] == ContentPrefix;
    if Includes(id, ContentPrefix) then link
    else
      ContentIdOfContentPath(id);
      link
  }

  /** The corrected link leads to the display of `id`: after the origin comes
      a path that the router sends to `GetContent(id)`. */
  lemma LinkReachesContent(origin: string, id: string)
    requires !Includes(id, ContentPrefix)
    ensures RouteOf("GET", Link(origin, id)[|origin|..]) == GetContent(id)
  {
    ContentPathRoutes(id);
  }

  /** For `POST /new` without a query on a worker whose origin holds no
      "/new", the link as written from `request.url` is the intended one. */
  lemma AsWrittenAgreesOnPlainOrigin(req: Request, id: string)
    requires req.path == NewPath && req.search == ""
    requires !Includes(req.origin, NewPath)
    ensures LinkAsWritten(req.Url(), id) == Link(req.origin, id)
  {
    var origin, url := req.origin, req.Url();
    assert url == origin + NewPath;
    assert OccursAt(url, NewPath, |origin|) by {
      assert url[|origin|..|origin| + |NewPath|] == NewPath;
    }
    forall j: nat | j < |origin|
      ensures !OccursAt(url, NewPath, j)
    {
      NoEarlierNew(origin, j);
    }
    assert IndexOf(url, NewPath) == Some(|origin|);
    assert url[..|origin|] == origin;
    assert url[|origin| + |NewPath|..] == "";
  }

  /** Below the origin's end, "/new" can start in `origin + "/new"` only if
      it occurs in `origin` itself: its later characters are never '/'. */
  lemma NoEarlierNew(origin: string, j: nat)
    requires !Includes(origin, NewPath) && j < |origin|
    ensures !OccursAt(origin + NewPath, NewPath, j)
  {
    var url := origin + NewPath;
    if j + |NewPath| <= |origin| {
      assert url[j..j + |NewPath|] == origin[j..j + |NewPath|];
      assert !OccursAt(origin, NewPath, j);
    } else {
      // "/new"[|origin| - j] would have to be the '/' that starts the path
      var k := |origin| - j;
      assert url[j..j + |NewPath|][k] == url[|origin|] == '/';
      assert NewPath[k] != '/';
    }
  }

  /** A worker served from a host starting with "news" shows a broken link:
      the "/new" removed is the one inside "//news", not the path. */
  lemma AsWrittenBreaksOnNewsHost()
    ensures LinkAsWritten("http://news" + NewPath, "x") == "http:/s/new/content/x"
    ensures LinkAsWritten("http://news" + NewPath, "x") != Link("http://news", "x")
  {
    NewsUrlReplaced();
    var asWritten := "http:/s/new" + ContentPrefix + "x";
    assert asWritten == "http:/s/new/content/x";
    assert asWritten[6] == 's';
    assert Link("http://news", "x")[6] == '/';
  }

  /** Removing the first "/new" of "http://news/new" cuts the host. */
  lemma NewsUrlReplaced()
    ensures ReplaceFirst("http://news" + NewPath, NewPath, "") == "http:/s/new"
  {
    var url := "http://news" + NewPath;
    FirstNewInsideHost();
    assert ReplaceFirst(url, NewPath, "") == url[..6] + "" + url[10..];
    assert url[..6] == "http:/" && url[10..] == "s/new";
  }

  /** The first "/new" of "http://news/new" is the one at index 6, in the host. */
  lemma FirstNewInsideHost()
    ensures IndexOf("http://news" + NewPath, NewPath) == Some(6)
  {
    var url := "http://news" + NewPath;
    assert url[0] == 'h' && url[1] == 't' && url[2] == 't' && url[3] == 'p' && url[4] == ':';
    assert url[5] == '/' && url[6] == '/' && url[7] == 'n';
    NotAt(url, NewPath, 0, 0);
    NotAt(url, NewPath, 1, 0);
    NotAt(url, NewPath, 2, 0);
    NotAt(url, NewPath, 3, 0);
    NotAt(url, NewPath, 4, 0);
    NotAt(url, NewPath, 5, 1);
    assert url[6..10] == NewPath;
    assert IndexOfFrom(url, NewPath, 6) == Some(6);
    assert IndexOfFrom(url, NewPath, 4) == Some(6);
    assert IndexOfFrom(url, NewPath, 2) == Some(6);
    assert IndexOfFrom(url, NewPath, 0) == Some(6);
  }

  /** `pat` does not occur at `j` when the characters at offset `k` differ. */
  lemma NotAt(s: string, pat: string, j: nat, k: nat)
    requires k < |pat| && j + k < |s| && s[j + k] != pat[k]
    ensures !OccursAt(s, pat, j)
  {
    if j + |pat| <= |s| {
      assert s[j..j + |pat|][k] == s[j + k];
    }
  }
}
