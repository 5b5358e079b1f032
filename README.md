# sub-worker: request handling and credential flow

This project models the request-handling core of `worker.js`, a Cloudflare
Worker for password-gated publishing of text "subs". One password is kept
as a SHA-256 hex hash under the KV key `password`. A successful login sets
the cookie `authenticated=true; Max-Age=3600; Path=/`. Content is stored
under an id in the same KV namespace and is served publicly at
`/content/<id>`.

The model has these parts:

- `Wrappers` (`wrappers.dfy`): `Option`, which stands for JavaScript `null`.
- `JsString` (`jsstring.dfy`): the string operations the worker uses —
  `startsWith`, `indexOf`, `includes`, `split`, `join` and first-occurrence
  `replace`. Each comes with proofs of its meaning: an occurrence index,
  split/join round trips, pieces that do not contain the separator.
- `Hex` (`hex.dfy`): the `toString(16).padStart(2, '0')` / `join('')` step of
  `hashPassword`. It has a decoder and proofs of the length, of lower-case
  output, of the round trip and of injectivity.
- `Http` (`http.dfy`): the request record (method, origin, path, query,
  Cookie header, form fields) and the response record (status, `Location`,
  `Set-Cookie`, `Content-Type`, body). HTML pages appear as a `View` value.
- `Session` (`session.dfy`): `isAuthenticated`, the plain substring test on
  the Cookie header.
- `Router` (`router.dfy`): which branch of `fetch` a (method, path) pair
  reaches, and the id `path.split('/content/')[1]`.
- `ShareLink` (`sharelink.dfy`): the share link built after `POST /new`
  (see Findings).
- `SubWorker` (`worker.dfy`): the class `Worker` has the KV namespace as a
  `map<string, string>` field (`store`). Its handler methods modify that
  field. `Fetch` is the router. Each handler's effect is stated as a
  relation between the store before, the store after and the response:
  `SetPasswordSpec`, `LoginSpec`, `NewContentSpec`, `EditSpec`, `FetchSpec`
  and `DisplaySpec`. The methods are proved to meet these relations.
- `Properties` (`properties.dfy`): what holds across requests. It covers
  set-password then login, content round trips, upsert, and the
  consequences of the unreserved `password` key. It also has two
  request-by-request runs of `Fetch`.

Modelling decisions:

- The SHA-256 digest of the UTF-8 bytes of a password is the constant
  field `Worker.digest`, an arbitrary (hence deterministic) function from
  string to bytes. The constructor requires it to yield 32 bytes, as
  SHA-256 does, and `Worker.DigestIsSha256Sized()` records that.
- `crypto.randomUUID()` is the `freshId` parameter of `Fetch`, a non-empty
  string. The model does not claim it is unique.
- Form fields are a map: a missing field is `null`, as `formData.get`
  returns it. When such a `null` is used as a string (a KV key or value,
  or a template literal), the model writes it as `"null"` (`Http.AsString`).
  This follows JavaScript's and WebIDL's string conversion. It matters only
  for crafted requests: `POST /new` without a `content` field and
  `POST /fetch` without a `uuid` field.
- `null` from `env.sub.get` is a missing map key. Truthiness is "present
  and non-empty" (`Http.Truthy`). The response for `GET /` and the
  set-password/login switch both test this on `password`.
- The model follows the code as written:
  - `/new`, `/edit` and `/fetch` do not check the session.
  - `password` is not a reserved key.
  - The cookie has no `HttpOnly`, `Secure` or `SameSite` attribute.
  - An authenticated `GET /` is not redirected to `/panel`.
  - There is no logout, delete, listing or change-password route, and no
    handler that turns exceptions into a 500.

## Model

| member | source | states |
|---|---|---|
| `Router.RouteOf` | worker.js:7-34 | Each branch of `fetch` is reached exactly under its own (method, path) condition. `GET` paths starting with `/content/` reach the display of `ContentId(path)`. Every other pair reaches the 404 branch. |
| `Router.ContentId` | worker.js:29-30 | `path.split('/content/')[1]` is the text right after the leading `/content/`. It ends at the end of the path or where the first `/content/` starting after the leading one begins. No `/content/` starts inside it, and it contains none. |
| `Router.ContentIdStopsAtFirstMarker` | worker.js:30 | For `/content//content/content/x` the id is `''`: the id stops at the first later marker, even where the longer candidate `/content` holds no whole marker. |
| `Router.ContentIdOfContentPath` | worker.js:29-30 | For an id with no `/content/` in it, the id taken from `/content/` + id is that id. |
| `Router.ContentPathRoutes` | worker.js:29-31 | `GET /content/<id>` reaches the public display of `id` for every such id, the key `password` included. |
| `JsString.IndexOfFrom` | worker.js:30 | `indexOf(pat, from)` returns the first index at or after `from` where `pat` occurs, or none when there is no such index. |
| `JsString.Includes` | worker.js:197 | `includes` holds exactly when the pattern occurs at some index. |
| `JsString.JoinSplitFrom` | worker.js:30 | Joining the pieces of `split(sep)` with `sep` gives back the string. |
| `JsString.SplitFromPiecesFree` | worker.js:30 | No piece of `split(sep)` contains `sep`. |
| `JsString.ReplaceFirst` | worker.js:270 | `replace` with a string pattern leaves a string without the pattern unchanged. Otherwise its length is that of the string, minus the pattern's, plus the replacement's. |
| `JsString.ReplaceFirstContents` | worker.js:270 | When the pattern occurs, the result is the string with its first occurrence, the one no earlier occurrence precedes, replaced by `rep`, and everything else kept. |
| `Session.IsAuthenticated` | worker.js:195-198 | True exactly when the Cookie header, or `''` when the header is missing, contains `authenticated=true` at some index. It is false when the header is missing. |
| `Session.MarkerAnywhereAuthenticates` | worker.js:195-198 | Any header with `authenticated=true` anywhere authenticates, the bare pair a browser sends back included. The marker is neither parsed nor signed. |
| `Session.AuthenticatedHoldsMarker` | worker.js:195-198 | The converse: a header authenticates only when it is some text, then `authenticated=true`, then some text. |
| `Session.StoredCookiePairAuthenticates` | worker.js:142 | The text of the issued Set-Cookie value before its first `;` (the name=value pair a browser keeps) is exactly the marker, and sending it back passes `isAuthenticated`. |
| `Hex.DigitValue` | worker.js:402 | Reading a lower-case hex digit inverts the digit `toString(16)` writes. Exactly the characters `0-9a-f` are digits. |
| `Hex.PadStart` | worker.js:402 | `padStart(width, fill)` keeps the string as a suffix. It fills only the front and reaches `width` when the string is shorter. |
| `Hex.ByteToHex` | worker.js:402 | `b.toString(16).padStart(2, '0')` is the digit of the high nibble followed by the digit of the low nibble. |
| `Hex.HexPieces` | worker.js:401-402 | The `map` gives one piece per digest byte, in order. Each piece is two lower-case hex digits that decode back to its byte. |
| `Hex.Encode` | worker.js:401-402 | The joined hex string is twice as long as the digest and holds only lower-case hex digits. |
| `Hex.EncodeShape` | worker.js:401-402 | Length and lower-case digits of `join('')` over the mapped bytes, by induction on the bytes. |
| `Hex.DecodeEncode` | worker.js:401-402 | The bytes can be read back from the hex string. |
| `Hex.EncodeInjective` | worker.js:401-402 | Different digests never give the same hex string. |
| `SubWorker.HashPassword` | worker.js:397-403 | `hashPassword` returns `2 * digest length` lower-case hex digits: 64 for SHA-256. |
| `SubWorker.HashPasswordIffDigest` | worker.js:138-140 | Two passwords have equal stored hashes exactly when their digests are equal. |
| `SubWorker.HandlePanelAccess` | worker.js:183-192 | `GET /panel` gives 200 and the management panel exactly when `isAuthenticated` holds. Otherwise it gives 302 to `/` with no cookie. |
| `SubWorker.NewContentKey` | worker.js:262-266 | The key of new content is the `uuid` field when that field is non-empty. Otherwise it is the generated id. It is never empty. |
| `SubWorker.Worker.constructor` | worker.js:3 | A worker starts with a given KV store and a given digest of SHA-256's length. |
| `SubWorker.Worker.HandleSetPassword` | worker.js:68-92 | A missing or empty `password` gives 400 and no change. Otherwise the store becomes `store["password" := hashPassword(pw)]` and the response is 302 to `/`. |
| `SubWorker.Worker.HandleLogin` | worker.js:126-180 | Reads only. A missing or empty `password` gives 400. A password whose hash equals the stored `password` value gives 302 to `/panel` with `Set-Cookie: authenticated=true; Max-Age=3600; Path=/`. Any other gives 403 with no cookie. |
| `SubWorker.Worker.HandleFormSubmission` | worker.js:259-268 | The `content` field is stored under `NewContentKey`, overwriting any prior value. Only that key changes. The response is 200 with the share-link page. |
| `SubWorker.Worker.HandleEditContent` | worker.js:356-377 | A missing or empty `uuid` or `content` gives 400 and no change. Otherwise the store becomes `store[uuid := content]` (an upsert) and the response is 302 to `/content/<uuid>`. |
| `SubWorker.Worker.HandleFetchContent` | worker.js:316-353 | Reads only. A key holding a non-empty value gives 200 and the edit form with that value. An absent or empty value gives 404. |
| `SubWorker.Worker.HandleDisplayContent` | worker.js:381-394 | Reads only. A non-empty stored value is served with 200 as plain text. An absent or empty value gives 404. |
| `SubWorker.Worker.Fetch` | worker.js:3-35 | For each route it gives that handler's effect. `GET /` never changes the store and gives the set-password panel when `password` is absent or empty, the login panel otherwise. `POST /` logs in when a password is set and sets one otherwise. Unmatched pairs give 404 with the store unchanged. |
| `Properties.LoginAfterSetPassword` | worker.js:80-81 | After setting the password from `pw`, logging in with `other` succeeds exactly when the digests agree, and gives 403 otherwise. So set-password(p) then login(p) always succeeds. |
| `Properties.SetPasswordLeavesSetup` | worker.js:7-20 | Storing a non-empty hash moves `GET /` from the set-password panel to the login panel. |
| `Properties.NewContentRoundTrip` | worker.js:268 | New non-empty content is served back by the display of its key. Empty content reads as not found. For every key without `/content/` in it, `/content/<key>`, taken as the request path, routes to that display. |
| `Properties.NewContentWritesOneKey` | worker.js:268 | `POST /new` adds or overwrites exactly one key. Every other key reads as before. |
| `Properties.NewContentCanReplaceCredential` | worker.js:25-26 | `POST /new` with `uuid=password` needs no session, and it lets whoever chose the stored hash log in. |
| `Properties.EditRoundTrip` | worker.js:368-371 | An accepted edit is served back at `/content/<uuid>`. Its `Location` text, taken as the request path, routes to that uuid for every uuid without `/content/` in it. |
| `Properties.EditIsUpsert` | worker.js:361-368 | With both fields present, `POST /edit` has the same effect on the store as `POST /new` with the same fields, whether or not the key existed. |
| `Properties.FetchAgreesWithDisplay` | worker.js:319-321 | The edit lookup and the public page agree: both give 200, or both give 404. |
| `Properties.CredentialIsServedPublicly` | worker.js:382-384 | `GET /content/password` routes to the credential key and serves its hash. |
| `Properties.FirstVisit` | worker.js:7-22 | Run through `fetch` on a fresh store: set the password (302 to `/`), get the login panel, a wrong password gives 403, the right one gives the cookie, and `/panel` with that cookie gives 200. |
| `Properties.PublishWithGeneratedId` | worker.js:25-31 | Run through `fetch`: `POST /new` with a blank uuid stores under the generated id, and `GET /content/<id>` serves the content with no cookie. |
| `ShareLink.Link` | worker.js:270 | The corrected share link is the origin followed by a path that starts with `/content/`. For every id without `/content/` in it, `split('/content/')[1]` of that path gives the id back. |
| `ShareLink.LinkReachesContent` | worker.js:270 | The text of the corrected link after the origin, taken as the request path, routes to the display of the id. |
| `ShareLink.AsWrittenAgreesOnPlainOrigin` | worker.js:270 | For `POST /new` with no query, on an origin without `/new`, the link as written from `request.url` equals the corrected one. |
| `ShareLink.AsWrittenBreaksOnNewsHost` | worker.js:270 | For the origin `http://news`, the link as written is `http:/s/new/content/x` and not `http://news/content/x`. |

## Left out

- HTML and CSS (`getStyles` and the markup of every page): each page is a
  `View` value naming what it shows.
- The QR code URL and `encodeURIComponent` (worker.js:271): external
  service and presentation.
- SHA-256 and `TextEncoder`: an arbitrary function field, because they
  are foreign primitives. No property of SHA-256 beyond determinism and
  length is used.
- `crypto.randomUUID()`: a parameter, because it is randomness. It is not
  proved unique.
- Parsing of `Request`, `URL`, `formData` and `Headers`: the request record
  holds their results. The path is taken as `URL.pathname` gives it
  (percent-encoded). A body that is not form data makes `formData()` throw,
  and that is not modelled.
- `async`/`await` and the Workers KV backend: the store is a map read and
  written sequentially. Eventual consistency, races between requests, and
  KV limits and key validation (empty keys, key and value size) are not
  modelled.
- Exceptions from the runtime or KV (an uncaught exception becomes the
  platform's error response): the code has no handler for them.
- The `Content-Type` the platform adds when the code sets none: such
  responses carry `None`.
- `Properties.EditRoundTrip`: the `Location` is routed as the pathname
  the browser will request, but URL parsing of the redirect is not
  modelled. Percent-encoding (`a b`), `?` and `#`, dot segments (`.`,
  `..`) and `\` change the path, so for such uuids the redirect reaches
  another id or route.
- `ShareLink.LinkReachesContent`: the same URL parsing of the link is not
  modelled, for the same uuids.
- `Properties.NewContentRoundTrip`: the same URL parsing of
  `/content/<key>` is not modelled, for the same keys.
- `SubWorker.Worker.HandleEditContent`: the `Location` value passes
  through `new Headers(...)` (worker.js:370). That call's normalization
  and validation of response header values are not modelled.
  - The runtime trims leading and trailing HTTP whitespace, so a uuid
    `x ` gives `Location: /content/x`, while the model promises
    `/content/x `.
  - A uuid containing CR, LF or NUL makes the call throw after the
    `put` (worker.js:368) has stored the content. The model promises a
    302 there.
- `SubWorker.Worker.HandleFormSubmission`: the page it returns uses the
  corrected link `ShareLink.Link` and not the as-written one (see
  Findings).

## Findings

| source | as written | input that shows it | evidently intended | confidence | as-written member | corrected member |
|---|---|---|---|---|---|---|
| worker.js:270 | `request.url.replace('/new', '')` removes the first `/new` anywhere in the URL, which can be inside the host name. | `request.url` = `http://news/new`, uuid `x`: the link is `http:/s/new/content/x`. | The origin followed by `/content/<uuid>`, for example `http://news/content/x`. | not executed | `ShareLink.AsWrittenBreaksOnNewsHost` (about `ShareLink.LinkAsWritten`) | `ShareLink.LinkReachesContent` (about `ShareLink.Link`) |
