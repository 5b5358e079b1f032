/** What the worker's handlers guarantee when one request follows another:
    the credential flow, the content round trips, and the consequences of
    the password hash living in the same namespace as the content. */
module Properties {
  import opened Wrappers
  import opened JsString
  import opened Http
  import opened Session
  import opened Router
  import opened SubWorker
  import ShareLink

  /** After the password is set from `pw`, a login with `other` succeeds
      exactly when the two digests agree; so logging in with the same
      password always succeeds, and one with a different digest gets 403. */
  lemma LoginAfterSetPassword(
    digest: DigestFn, setForm: map<string, string>, loginForm: map<string, string>,
    pw: string, other: string, before: Store, after: Store, r1: Response, r2: Response)
    requires FormGet(setForm, "password") == Some(pw) && pw != ""
    requires FormGet(loginForm, "password") == Some(other) && other != ""
    requires SetPasswordSpec(digest, setForm, before, after, r1)
    requires LoginSpec(digest, loginForm, after, r2)
    ensures r1 == PasswordSaved
    ensures r2 == LoginSucceeded <==> digest(other) == digest(pw)
    ensures r2 == LoginRefused <==> digest(other) != digest(pw)
  {
    HashPasswordIffDigest(digest, other, pw);
  }

  /** The hash of a password with a non-empty digest is truthy, so setting
      it moves `GET /` from the set-password panel to the login panel. */
  lemma SetPasswordLeavesSetup(
    digest: DigestFn, form: map<string, string>, before: Store, after: Store, resp: Response)
    requires Truthy(FormGet(form, "password")) && |digest(form["password"])| > 0
    requires SetPasswordSpec(digest, form, before, after, resp)
    ensures !PasswordSet(before) ==> RootPanel(before) == Page(SetPasswordForm)
    ensures PasswordSet(after) && RootPanel(after) == Page(LoginForm)
  {
  }

  /** New content is served back as stored: a non-empty `content` field by
      the display of its key, an empty one as not found; and the path
      `/content/<key>` routes to that display whenever the key holds no
      `/content/` of its own. */
  lemma NewContentRoundTrip(
    req: Request, freshId: Uuid, before: Store, after: Store, r1: Response, r2: Response)
    requires NewContentSpec(req, freshId, before, after, r1)
    requires DisplaySpec(NewContentKey(req.form, freshId), after, r2)
    ensures Truthy(FormGet(req.form, "content")) ==> r2 == PlainText(200, req.form["content"])
    ensures FormGet(req.form, "content") == Some("") ==> r2 == ContentNotFound
    ensures var key := NewContentKey(req.form, freshId);
      !Includes(key, ContentPrefix) ==> RouteOf("GET", ContentPrefix + key) == GetContent(key)
  {
    var key := NewContentKey(req.form, freshId);
    if !Includes(key, ContentPrefix) {
      ContentPathRoutes(key);
    }
  }

  /** `POST /new` writes one key and leaves every other key as it was. */
  lemma NewContentWritesOneKey(
    req: Request, freshId: Uuid, before: Store, after: Store, resp: Response)
    requires NewContentSpec(req, freshId, before, after, resp)
    ensures after.Keys == before.Keys + {NewContentKey(req.form, freshId)}
    ensures forall k :: k != NewContentKey(req.form, freshId) ==> KvGet(after, k) == KvGet(before, k)
  {
  }

  /** `POST /new` needs no session and may name the key `password`: storing
      the hash of any `q` there lets `q` log in. */
  lemma NewContentCanReplaceCredential(
    digest: DigestFn, req: Request, freshId: Uuid, q: string, loginForm: map<string, string>,
    before: Store, after: Store, r1: Response, r2: Response)
    requires FormGet(req.form, "uuid") == Some(PasswordKey)
    requires FormGet(req.form, "content") == Some(HashPassword(digest, q))
    requires FormGet(loginForm, "password") == Some(q) && q != ""
    requires NewContentSpec(req, freshId, before, after, r1)
    requires LoginSpec(digest, loginForm, after, r2)
    ensures r2 == LoginSucceeded
  {
    assert NewContentKey(req.form, freshId) == PasswordKey;
  }

  /** An accepted edit is served back by `GET /content/<uuid>`, and the
      redirect it answers with leads there for every uuid without the
      `/content/` marker in it. */
  lemma EditRoundTrip(form: map<string, string>, before: Store, after: Store, r1: Response, r2: Response)
    requires EditSpec(form, before, after, r1) && r1.status == 302
    requires DisplaySpec(form["uuid"], after, r2)
    ensures r2 == PlainText(200, form["content"])
    ensures r1.location == Some(ContentPrefix + form["uuid"])
    ensures !Includes(form["uuid"], ContentPrefix) ==> RouteOf("GET", r1.location.value) == GetContent(form["uuid"])
  {
    if !Includes(form["uuid"], ContentPrefix) {
      ContentPathRoutes(form["uuid"]);
    }
  }

  /** `POST /edit` does not look for an existing key: with both fields
      present it has the effect on the store of `POST /new` with the same
      fields. */
  lemma EditIsUpsert(
    req: Request, freshId: Uuid, before: Store, a1: Store, r1: Response, a2: Store, r2: Response)
    requires Truthy(FormGet(req.form, "uuid")) && Truthy(FormGet(req.form, "content"))
    requires EditSpec(req.form, before, a1, r1)
    requires NewContentSpec(req, freshId, before, a2, r2)
    ensures a1 == a2 && r1.status == 302
  {
  }

  /** The edit form and the public page agree on what exists. */
  lemma FetchAgreesWithDisplay(form: map<string, string>, store: Store, r1: Response, r2: Response)
    requires FetchSpec(form, store, r1)
    requires DisplaySpec(AsString(FormGet(form, "uuid")), store, r2)
    ensures r1.status == r2.status
    ensures r1.status == 200 || r1.status == 404
  {
  }

  /** The password hash is public: `GET /content/password` routes to it and
      serves it as plain text. */
  lemma CredentialIsServedPublicly(store: Store, resp: Response)
    requires PasswordSet(store)
    requires DisplaySpec(PasswordKey, store, resp)
    ensures RouteOf("GET", ContentPrefix + PasswordKey) == GetContent(PasswordKey)
    ensures resp == PlainText(200, store[PasswordKey])
  {
    ContentPathRoutes(PasswordKey);
  }

  /** The first visit to a fresh worker, through `fetch`: set the password,
      see the login panel, fail with a wrong password, log in, and reach the
      panel with the cookie a browser sends back. */
  method FirstVisit(w: Worker, pw: string, wrong: string, origin: string, freshId: Uuid)
    returns (r1: Response, r2: Response, r3: Response, r4: Response, r5: Response)
    requires w.DigestIsSha256Sized() && !PasswordSet(w.store)
    requires pw != "" && wrong != "" && w.digest(wrong) != w.digest(pw)
    modifies w
    ensures r1 == PasswordSaved
    ensures r2 == Page(LoginForm)
    ensures r3 == LoginRefused
    ensures r4 == LoginSucceeded && r4.setCookie == Some(SessionCookie)
    ensures r5 == Page(ManagePanel)
    ensures w.store == old(w.store)[PasswordKey := HashPassword(w.digest, pw)]
  {
    var setPassword := Request("POST", origin, "/", "", None, map["password" := pw]);
    var wrongLogin := Request("POST", origin, "/", "", None, map["password" := wrong]);
    var root := Request("GET", origin, "/", "", None, map[]);
    var panel := Request("GET", origin, "/panel", "", Some(Marker), map[]);
    assert RouteOf("POST", "/") == PostRoot && RouteOf("GET", "/") == GetRoot;
    assert RouteOf("GET", "/panel") == GetPanel;
    var hash := HashPassword(w.digest, pw);
    assert |hash| == 64;

    r1 := w.Fetch(setPassword, freshId);
    assert w.store == old(w.store)[PasswordKey := hash];
    assert PasswordSet(w.store);
    r2 := w.Fetch(root, freshId);
    HashPasswordIffDigest(w.digest, wrong, pw);
    r3 := w.Fetch(wrongLogin, freshId);
    r4 := w.Fetch(setPassword, freshId);
    MarkerAnywhereAuthenticates("", "");
    assert "" + Marker + "" == Marker;
    r5 := w.Fetch(panel, freshId);
  }

  /** Publishing through `fetch` with a blank uuid: the generated id holds
      the content, and its public path serves it without a cookie. */
  method PublishWithGeneratedId(w: Worker, content: string, origin: string, freshId: Uuid)
    returns (r1: Response, r2: Response)
    requires content != "" && !Includes(freshId, ContentPrefix)
    modifies w
    ensures r1 == Page(CreatedView(ShareLink.Link(origin, freshId)))
    ensures r2 == PlainText(200, content)
    ensures w.store == old(w.store)[freshId := content]
  {
    var form := map["content" := content, "uuid" := ""];
    r1 := w.Fetch(Request("POST", origin, "/new", "", None, form), freshId);
    ContentPathRoutes(freshId);
    r2 := w.Fetch(Request("GET", origin, ContentPrefix + freshId, "", None, map[]), freshId);
  }
}
