/** The request-handling state machine of worker.js: the handlers over the
    KV namespace `env.sub`, and the `fetch` router that dispatches to them.
    Each handler's effect is stated as a relation between the store before,
    the store after and the response; the class methods are proved to meet
    them. */
module SubWorker {
  import opened Wrappers
  import opened JsString
  import opened Http
  import Hex
  import opened Session
  import opened Router
  import opened ShareLink

  /** The KV key of the password hash. It is an ordinary key: content
      handlers may read and write it like any other. */
  const PasswordKey := "password"

  /** Length in bytes of a SHA-256 digest. */
  const DigestSize := 32

  /** A value of `crypto.randomUUID()`: never empty. */
  type Uuid = s: string | s != "" witness "00000000-0000-4000-8000-000000000000"

  /** The contents of the KV namespace: a missing key reads as `null`. */
  type Store = map<string, string>

  /** `crypto.subtle.digest('SHA-256', new TextEncoder().encode(pw))`. */
  type DigestFn = string -> seq<Hex.byte>

  /** `env.sub.get(key)`. */
  function KvGet(store: Store, key: string): Option<string>
  {
    if key in store then Some(store[key]) else None
  }

  /** The router's test `if (passwordHash)` on `env.sub.get('password')`:
      false selects the set-password ("setup") flow, true the login flow. */
  predicate PasswordSet(store: Store)
  {
    Truthy(KvGet(store, PasswordKey))
  }

  /** `hashPassword(pw)`: the lower-case hex string of the password's digest. */
  function HashPassword(digest: DigestFn, pw: string): (h: string)
    ensures |h| == 2 * |digest(pw)|
    ensures forall k :: 0 <= k < |h| ==> Hex.IsLowerHexDigit(h[k])
  {
    Hex.Encode(digest(pw))
  }

  /** Two passwords have the same stored hash exactly when their digests agree. */
  lemma HashPasswordIffDigest(digest: DigestFn, p: string, q: string)
    ensures HashPassword(digest, p) == HashPassword(digest, q) <==> digest(p) == digest(q)
  {
    Hex.EncodeInjective(digest(p), digest(q));
  }

  // The fixed responses of the handlers.
  const PasswordRequired := PlainText(400, "Password is required.")
  const PasswordSaved :=
    Response(302, Some("/"), None, Some(TextPlain), Text("Password set successfully! Redirecting to login..."))
  const LoginSucceeded :=
    Response(302, Some("/panel"), Some(SessionCookie), Some(TextPlain), Text("Login successful! Redirecting to panel..."))
  const LoginRefused := Response(403, None, None, Some(TextHtml), Html(LoginRetryForm))
  const PanelRedirect := Response(302, Some("/"), None, None, Text("Redirecting to login..."))
  const FieldsRequired := PlainText(400, "UUID and content are required.")
  const ContentNotFound := PlainText(404, "Content not found.")
  const RouteNotFound := Response(404, None, None, None, Text("Not Found"))

  /** The redirect of a successful edit, to the public path of the content. */
  function ContentUpdated(uuid: string): Response
  {
    Response(302, Some(ContentPrefix + uuid), None, Some(TextPlain), Text("Content updated successfully! Redirecting..."))
  }

  /** The panel `GET /` serves: login once a password is set, set-password before. */
  function RootPanel(store: Store): Response
  {
    if PasswordSet(store) then Page(LoginForm) else Page(SetPasswordForm)
  }

  /** `handlePanelAccess(request)`: the management panel for an
      authenticated request, a redirect to `/` for any other. */
  function HandlePanelAccess(cookie: Option<string>): (r: Response)
    ensures r.status == 200 <==> IsAuthenticated(cookie)
    ensures r.status == 200 ==> r.body == Html(ManagePanel)
    ensures r.status != 200 ==> r.status == 302 && r.location == Some("/") && r.setCookie.None?
  {
    if IsAuthenticated(cookie) then Page(ManagePanel) else PanelRedirect
  }

  /** `handleSetPassword`: a missing or empty `password` field is refused
      with 400 and nothing stored; otherwise its hash is stored under
      `password` and the client is sent back to `/`. */
  predicate SetPasswordSpec(digest: DigestFn, form: map<string, string>, before: Store, after: Store, resp: Response)
  {
    var pw := FormGet(form, "password");
    if Truthy(pw) then after == before[PasswordKey := HashPassword(digest, pw.value)] && resp == PasswordSaved
    else after == before && resp == PasswordRequired
  }

  /** `handleLogin`: a missing or empty `password` field gives 400; a
      password whose hash equals the stored value gives the session cookie
      and a redirect to `/panel`; any other gives 403. It stores nothing. */
  predicate LoginSpec(digest: DigestFn, form: map<string, string>, store: Store, resp: Response)
  {
    var pw := FormGet(form, "password");
    if !Truthy(pw) then resp == PasswordRequired
    else if KvGet(store, PasswordKey) == Some(HashPassword(digest, pw.value)) then resp == LoginSucceeded
    else resp == LoginRefused
  }

  /** The key `handleFormSubmission` stores under: the `uuid` field, or the
      generated id when that field is missing or empty. */
  function NewContentKey(form: map<string, string>, freshId: Uuid): (key: string)
    ensures key != ""
    ensures Truthy(FormGet(form, "uuid")) ==> key == form["uuid"]
    ensures !Truthy(FormGet(form, "uuid")) ==> key == freshId
  {
    var uuid := FormGet(form, "uuid");
    if Truthy(uuid) then uuid.value else freshId
  }

  /** `handleFormSubmission`: the `content` field is stored under the key
      above, overwriting whatever was there, and the page with the share
      link is served. */
  predicate NewContentSpec(req: Request, freshId: Uuid, before: Store, after: Store, resp: Response)
  {
    var key := NewContentKey(req.form, freshId);
    after == before[key := AsString(FormGet(req.form, "content"))]
    && resp == Page(CreatedView(Link(req.origin, key)))
  }

  /** `handleEditContent`: with a missing or empty `uuid` or `content` field,
      400 and nothing stored; otherwise `content` is stored under `uuid`,
      whether or not the key existed, and the client is sent to its page. */
  predicate EditSpec(form: map<string, string>, before: Store, after: Store, resp: Response)
  {
    var uuid, content := FormGet(form, "uuid"), FormGet(form, "content");
    if Truthy(uuid) && Truthy(content) then
      after == before[uuid.value := content.value] && resp == ContentUpdated(uuid.value)
    else
      after == before && resp == FieldsRequired
  }

  /** `handleFetchContent`: the edit form for a key holding a non-empty
      value, 404 otherwise. */
  predicate FetchSpec(form: map<string, string>, store: Store, resp: Response)
  {
    var uuid := AsString(FormGet(form, "uuid"));
    var content := KvGet(store, uuid);
    if Truthy(content) then resp == Page(EditForm(uuid, content.value)) else resp == ContentNotFound
  }

  /** `handleDisplayContent`: the stored value as plain text when it is
      non-empty, 404 otherwise. */
  predicate DisplaySpec(id: string, store: Store, resp: Response)
  {
    var content := KvGet(store, id);
    if Truthy(content) then resp == PlainText(200, content.value) else resp == ContentNotFound
  }

  /** The worker: its KV namespace and the digest it computes passwords with. */
  class Worker {
    /** `env.sub`. */
    var store: Store
    /** SHA-256 over the UTF-8 bytes of a string. */
    const digest: DigestFn

    /** The digest has the length of SHA-256: an assumption about the
        primitive the worker is given, not about its state. */
    ghost predicate DigestIsSha256Sized()
    {
      forall s :: |digest(s)| == DigestSize
    }

    constructor (initial: Store, digest: DigestFn)
      requires forall s :: |digest(s)| == DigestSize
      ensures store == initial && this.digest == digest
      ensures DigestIsSha256Sized()
    {
      store := initial;
      this.digest := digest;
    }

    /** Set the password (worker.js:68-92). */
    method HandleSetPassword(form: map<string, string>) returns (resp: Response)
      modifies this
      ensures SetPasswordSpec(digest, form, old(store), store, resp)
    {
      var password := FormGet(form, "password");
      if !Truthy(password) {
        return PasswordRequired;
      }
      var passwordHash := HashPassword(digest, password.value);
      store := store[PasswordKey := passwordHash];
      resp := PasswordSaved;
    }

    /** Log in (worker.js:126-180). */
    method HandleLogin(form: map<string, string>) returns (resp: Response)
      ensures LoginSpec(digest, form, store, resp)
    {
      var password := FormGet(form, "password");
      if !Truthy(password) {
        return PasswordRequired;
      }
      var storedHash := KvGet(store, PasswordKey);
      var inputHash := HashPassword(digest, password.value);
      if storedHash == Some(inputHash) {
        resp := LoginSucceeded;
      } else {
        resp := LoginRefused;
      }
    }

    /** Store new content (worker.js:259-268, 311). */
    method HandleFormSubmission(req: Request, freshId: Uuid) returns (resp: Response)
      modifies this
      ensures NewContentSpec(req, freshId, old(store), store, resp)
    {
      var content := FormGet(req.form, "content");
      var uuid := FormGet(req.form, "uuid");
      var key: string;
      if !Truthy(uuid) {
        key := freshId;
      } else {
        key := uuid.value;
      }
      store := store[key := AsString(content)];
      resp := Page(CreatedView(Link(req.origin, key)));
    }

    /** Edit or create content under a given id (worker.js:356-377). */
    method HandleEditContent(form: map<string, string>) returns (resp: Response)
      modifies this
      ensures EditSpec(form, old(store), store, resp)
    {
      var uuid := FormGet(form, "uuid");
      var content := FormGet(form, "content");
      if !Truthy(uuid) || !Truthy(content) {
        return FieldsRequired;
      }
      store := store[uuid.value := content.value];
      resp := ContentUpdated(uuid.value);
    }

    /** Look content up for the edit form (worker.js:316-353). */
    method HandleFetchContent(form: map<string, string>) returns (resp: Response)
      ensures FetchSpec(form, store, resp)
    {
      var uuid := AsString(FormGet(form, "uuid"));
      var content := KvGet(store, uuid);
      if Truthy(content) {
        resp := Page(EditForm(uuid, content.value));
      } else {
        resp := ContentNotFound;
      }
    }

    /** Serve content publicly (worker.js:381-394). */
    method HandleDisplayContent(id: string) returns (resp: Response)
      ensures DisplaySpec(id, store, resp)
    {
      var content := KvGet(store, id);
      if Truthy(content) {
        resp := PlainText(200, content.value);
      } else {
        resp := ContentNotFound;
      }
    }

    /** The `fetch` entry point (worker.js:3-35). `freshId` is the value
        `crypto.randomUUID()` would return if the request needed one. No
        route but `GET /panel` consults the session cookie. */
    method Fetch(req: Request, freshId: Uuid) returns (resp: Response)
      modifies this
      ensures match RouteOf(req.httpMethod, req.path)
        case GetRoot => store == old(store) && resp == RootPanel(store)
        case PostRoot =>
          if PasswordSet(old(store)) then store == old(store) && LoginSpec(digest, req.form, store, resp)
          else SetPasswordSpec(digest, req.form, old(store), store, resp)
        case GetPanel => store == old(store) && resp == HandlePanelAccess(req.cookie)
        case PostEdit => EditSpec(req.form, old(store), store, resp)
        case PostNew => NewContentSpec(req, freshId, old(store), store, resp)
        case PostFetch => store == old(store) && FetchSpec(req.form, store, resp)
        case GetContent(id) => store == old(store) && DisplaySpec(id, store, resp)
        case Unmatched => store == old(store) && resp == RouteNotFound
    {
      match RouteOf(req.httpMethod, req.path)
      case GetRoot =>
        var passwordHash := KvGet(store, PasswordKey);
        if Truthy(passwordHash) {
          resp := Page(LoginForm);
        } else {
          resp := Page(SetPasswordForm);
        }
      case PostRoot =>
        var passwordHash := KvGet(store, PasswordKey);
        if Truthy(passwordHash) {
          resp := HandleLogin(req.form);
        } else {
          resp := HandleSetPassword(req.form);
        }
      case GetPanel =>
        resp := HandlePanelAccess(req.cookie);
      case PostEdit =>
        resp := HandleEditContent(req.form);
      case PostNew =>
        resp := HandleFormSubmission(req, freshId);
      case PostFetch =>
        resp := HandleFetchContent(req.form);
      case GetContent(id) =>
        resp := HandleDisplayContent(id);
      case Unmatched =>
        resp := RouteNotFound;
    }
  }
}
