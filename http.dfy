/** The request and response records the worker's `fetch` handler sees and
    builds, with the `Request`, `URL`, `formData` and `Headers` parsing
    already done. */
module Http {
  import opened Wrappers

  /** An inbound request. `request.url` is `origin + path + search`. */
  datatype Request = Request(
    httpMethod: string,         // request.method
    origin: string,             // scheme and host of request.url
    path: string,               // new URL(request.url).pathname
    search: string,             // the query part of request.url, "" or "?..."
    cookie: Option<string>,     // request.headers.get('Cookie')
    form: map<string, string>)  // request.formData(): the first value of each field
  {
    /** `request.url`. */
    function Url(): string
    {
      origin + path + search
    }
  }

  /** The HTML documents the handlers render; their markup is presentation. */
  datatype View =
    | SetPasswordForm               // handleSetPasswordPanel
    | LoginForm                     // handleLoginPanel
    | LoginRetryForm                // handleLogin, wrong password
    | ManagePanel                   // handleInputPanel
    | CreatedView(link: string)     // handleFormSubmission: the share link
    | EditForm(uuid: string, content: string)  // handleFetchContent

  datatype Body = Text(text: string) | Html(view: View)

  /** A response: status, the headers the code sets (None where it sets none)
      and the body. */
  datatype Response = Response(
    status: int,
    location: Option<string>,
    setCookie: Option<string>,
    contentType: Option<string>,
    body: Body)

  const TextHtml := "text/html"
  const TextPlain := "text/plain"

  /** `formData.get(name)`: `None` stands for `null`. */
  function FormGet(form: map<string, string>, name: string): Option<string>
  {
    if name in form then Some(form[name]) else None
  }

  /** JavaScript truthiness of a `string | null`: present and non-empty. */
  predicate Truthy(v: Option<string>)
  {
    v.Some? && v.value != ""
  }

  /** The string a `string | null` becomes when it is used as a string (a
      template literal, a KV key or value): `null` is written "null". */
  function AsString(v: Option<string>): string
  {
    v.GetOr("null")
  }

  /** `handleSuccess(html, CONTENT_TYPE.TEXT_HTML)`. */
  function Page(v: View): Response
  {
    Response(200, None, None, Some(TextHtml), Html(v))
  }

  /** A plain-text response with no other header. */
  function PlainText(status: int, text: string): Response
  {
    Response(status, None, None, Some(TextPlain), Text(text))
  }
}
