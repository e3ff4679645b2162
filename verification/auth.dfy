/** Logging in: the HTTP Basic-Auth probe, the CSRF-protected sign-in form,
    the classification of the page that answers the form, and the guarded
    fallback to mock mode for local test servers. */
module Auth {
  import opened Wrappers
  import opened Numbers
  import opened Text
  import opened Errors
  import opened Http
  import opened Html
  import opened Posts
  import opened Configuration

  // ---------------------------------------------------------------------------
  // CSRF token search
  // ---------------------------------------------------------------------------

  predicate Named(i: Input, name: string) {
    i.name == Some(name)
  }

  /** The index of the first input called `name`, or `|inputs|`. */
  function FirstInput(inputs: seq<Input>, name: string): (k: nat)
    ensures k <= |inputs|
    ensures forall j :: 0 <= j < k ==> !Named(inputs[j], name)
    ensures k < |inputs| ==> Named(inputs[k], name)
  {
    if inputs == [] then 0
    else if Named(inputs[0], name) then 0
    else 1 + FirstInput(inputs[1..], name)
  }

  /** A form is the sign-in form when it holds an input named `soul[login]`. */
  predicate IsLoginForm(f: Form) {
    FirstInput(f.inputs, "soul[login]") < |f.inputs|
  }

  /** The index of the first sign-in form, or `|forms|`. */
  function FirstLoginForm(forms: seq<Form>): (k: nat)
    ensures k <= |forms|
    ensures forall j :: 0 <= j < k ==> !IsLoginForm(forms[j])
    ensures k < |forms| ==> IsLoginForm(forms[k])
  {
    if forms == [] then 0
    else if IsLoginForm(forms[0]) then 0
    else 1 + FirstLoginForm(forms[1..])
  }

  /** The index of the first meta tag called `name`, or `|metas|`. */
  function FirstMeta(metas: seq<Meta>, name: string): (k: nat)
    ensures k <= |metas|
    ensures forall j :: 0 <= j < k ==> metas[j].name != Some(name)
    ensures k < |metas| ==> metas[k].name == Some(name)
  {
    if metas == [] then 0
    else if metas[0].name == Some(name) then 0
    else 1 + FirstMeta(metas[1..], name)
  }

  predicate HasLoginForm(doc: Document) {
    FirstLoginForm(doc.forms) < |doc.forms|
  }

  /** Source 1: the `value` of the first `authenticity_token` input of the
      first sign-in form. */
  function FormToken(doc: Document): Option<string> {
    var k := FirstLoginForm(doc.forms);
    if k == |doc.forms| then None
    else
      var inputs := doc.forms[k].inputs;
      var t := FirstInput(inputs, "authenticity_token");
      if t < |inputs| then inputs[t].value else None
  }

  /** Source 2: the `content` of the first `csrf-token` meta tag. */
  function MetaToken(doc: Document): Option<string> {
    var m := FirstMeta(doc.metas, "csrf-token");
    if m < |doc.metas| then doc.metas[m].content else None
  }

  /** Source 3: the `value` of the first `authenticity_token` input anywhere. */
  function InputToken(doc: Document): Option<string> {
    var a := FirstInput(doc.inputs, "authenticity_token");
    if a < |doc.inputs| then doc.inputs[a].value else None
  }

  const CSRF_MISSING: string := "Could not find CSRF token in sign-in form"
  const FORM_MISSING: string := "Could not find sign-in form in page"

  /** The first of the three sources that yields a token; otherwise a parse
      error that says whether a sign-in form was there. */
  function ExtractCsrfToken(doc: Document): (r: Result<string, AppError>)
    ensures FormToken(doc).Some? ==> r == Ok(FormToken(doc).value)
    ensures FormToken(doc).None? && MetaToken(doc).Some? ==> r == Ok(MetaToken(doc).value)
    ensures FormToken(doc).None? && MetaToken(doc).None? && InputToken(doc).Some? ==> r == Ok(InputToken(doc).value)
    ensures r.Err? <==> FormToken(doc).None? && MetaToken(doc).None? && InputToken(doc).None?
    ensures r.Err? ==> r.error == Parse(if HasLoginForm(doc) then CSRF_MISSING else FORM_MISSING)
  {
    match FormToken(doc)
    case Some(t) => Ok(t)
    case None =>
      match MetaToken(doc)
      case Some(t) => Ok(t)
      case None =>
        match InputToken(doc)
        case Some(t) => Ok(t)
        case None => Err(Parse(if HasLoginForm(doc) then CSRF_MISSING else FORM_MISSING))
  }

  lemma {:induction false} FirstLoginFormPrefix(forms: seq<Form>, extra: seq<Form>)
    requires FirstLoginForm(forms) < |forms|
    ensures FirstLoginForm(forms + extra) == FirstLoginForm(forms)
  {
    if !IsLoginForm(forms[0]) {
      assert (forms + extra)[1..] == forms[1..] + extra;
      FirstLoginFormPrefix(forms[1..], extra);
    }
  }

  /** Only the first sign-in form is searched: whatever forms follow it,
      including other sign-in forms carrying tokens, the result is the same. */
  lemma CsrfStopsAtFirstLoginForm(doc: Document, extra: seq<Form>)
    requires HasLoginForm(doc)
    ensures var k := FirstLoginForm(doc.forms);
            ExtractCsrfToken(doc.(forms := doc.forms[..k + 1] + extra)) == ExtractCsrfToken(doc)
  {
    var k := FirstLoginForm(doc.forms);
    var head := doc.forms[..k + 1];
    assert head[..k + 1] == head;
    assert forall j :: 0 <= j < k ==> head[j] == doc.forms[j];
    FirstLoginFormOf(head, k);
    FirstLoginFormPrefix(head, extra);
    assert (head + extra)[k] == doc.forms[k];
  }

  lemma {:induction false} FirstLoginFormOf(forms: seq<Form>, k: nat)
    requires k < |forms| && IsLoginForm(forms[k])
    requires forall j :: 0 <= j < k ==> !IsLoginForm(forms[j])
    ensures FirstLoginForm(forms) == k
  {
    if k > 0 {
      assert forall j :: 0 <= j < k - 1 ==> forms[1..][j] == forms[j + 1];
      FirstLoginFormOf(forms[1..], k - 1);
    }
  }

  // ---------------------------------------------------------------------------
  // Classifying the page that answers the sign-in form
  // ---------------------------------------------------------------------------

  const INVALID_PHRASES: seq<string> :=
    ["Invalid email or password", "invalid email or password", "Incorrect email or password"]

  const SUCCESS_MARKERS: seq<string> := ["Dashboard", "My Account", "Sign out", "Logout", "Welcome"]

  /** The `<title>` names the sign-in page. `to_lowercase` is taken on ASCII
      letters only; no other character lower-cases to a letter of "sign in"
      or "login" followed by the next one, so the outcome is the same. */
  predicate TitleSaysSignIn(title: Option<string>) {
    title.Some? && (Contains(AsciiLower(title.value), "sign in") || Contains(AsciiLower(title.value), "login"))
  }

  /** A failure whose message starts with "Login failed". */
  function LoginFailed(detail: string): (e: AppError)
    ensures e.Generic? && StartsWith(e.message, "Login failed")
  {
    var m := "Login failed" + detail;
    assert m[..|"Login failed"|] == "Login failed";
    Generic(m)
  }

  /** Rules 2 to 7 of the post-login check, applied to a body that was read:
      invalid-credentials phrase, sign-in form still present, success marker,
      sign-in title, 2xx status, and otherwise a failure with the status. */
  function ClassifyPage(status: StatusCode, html: string, title: Option<string>): (r: Result<(), AppError>)
    ensures r.Ok? <==>
              !ContainsAny(html, INVALID_PHRASES)
              && !(Contains(html, "soul[login]") && Contains(html, "soul[password]"))
              && (ContainsAny(html, SUCCESS_MARKERS) || (!TitleSaysSignIn(title) && IsSuccess(status)))
    ensures ContainsAny(html, INVALID_PHRASES) ==> r == Err(LoginFailed(": Invalid email or password"))
    ensures r.Err? ==> r.error.Generic? && StartsWith(r.error.message, "Login failed")
  {
    if ContainsAny(html, INVALID_PHRASES) then
      Err(LoginFailed(": Invalid email or password"))
    else if Contains(html, "soul[login]") && Contains(html, "soul[password]") then
      Err(LoginFailed(": Still seeing login form after submission"))
    else if ContainsAny(html, SUCCESS_MARKERS) then
      Ok(())
    else if TitleSaysSignIn(title) then
      Err(LoginFailed(": Still on login page after submission"))
    else if IsSuccess(status) then
      Ok(())
    else
      Err(LoginFailed(" with status: " + StatusText(status) + ". Response preview: " + TruncateBytes(html, 200)))
  }

  /** Rule 1, then the others once the body is read. A 3xx without a
      Location header falls through to the body rules. */
  function LoginReplyOutcome(resp: Response, rt: Runtime): (r: Result<(), AppError>)
    requires resp.Reply?
    ensures IsRedirection(resp.status) && resp.location.Some? ==> r == Ok(())
    ensures resp.body.ReadFailed? && !(IsRedirection(resp.status) && resp.location.Some?) ==>
              r == Err(Generic("Failed to read post-login response: " + resp.body.reason))
  {
    if IsRedirection(resp.status) && resp.location.Some? then Ok(())
    else match resp.body
      case ReadFailed(reason) => Err(Generic("Failed to read post-login response: " + reason))
      case Received(bytes) =>
        var html := rt.decodeText(bytes);
        ClassifyPage(resp.status, html, rt.parseHtml(html).title)
  }

  // ---------------------------------------------------------------------------
  // The two strategies
  // ---------------------------------------------------------------------------

  function ApiProbeRequest(base: string, config: Config): Request {
    GetBasicAuth(base + "/api/v1/children/" + Decimal(config.childId), config.email, config.password)
  }

  /** The Basic-Auth probe: one request; Ok exactly on a 2xx reply. */
  function ApiProbe(base: string, config: Config, server: Server, history: seq<Request>): (x: Exchange<Result<(), AppError>>)
    ensures x.sent == [ApiProbeRequest(base, config)]
    ensures x.result.Ok? <==> Succeeded(server(history, ApiProbeRequest(base, config)))
    ensures x.result.Err? ==> x.result.error.Generic?
  {
    var req := ApiProbeRequest(base, config);
    var resp := server(history, req);
    var result :=
      match resp
      case TransportFailure(reason) => Err(Generic("Failed to access API: " + reason))
      case Reply(status, _, _) =>
        if IsSuccess(status) then Ok(())
        else Err(Generic("API authentication failed with status: " + StatusText(status)));
    Exchange(result, [req])
  }

  function SignInPageUrl(base: string): string {
    RootDomain(base) + "/souls/sign_in?locale=en"
  }

  function SignInPostUrl(base: string): string {
    RootDomain(base) + "/souls/sign_in"
  }

  /** The form fields posted to the sign-in endpoint. */
  function LoginForm(token: string, config: Config): (form: map<string, string>)
    ensures CarriesCredentials(form, config)
    ensures "authenticity_token" in form && form["authenticity_token"] == token
  {
    map["utf8" := "✓", "authenticity_token" := token, "soul[login]" := config.email,
        "soul[password]" := config.password, "soul[remember_me]" := "0", "commit" := "Sign in"]
  }

  predicate CarriesCredentials(form: map<string, string>, config: Config) {
    "soul[login]" in form && form["soul[login]"] == config.email
    && "soul[password]" in form && form["soul[password]"] == config.password
  }

  /** The web-form strategy: GET the sign-in page, take its CSRF token, POST
      the credentials, classify the answer. A redirect with a readable
      Location header is followed by one GET whose answer is not looked at. */
  function WebLogin(base: string, config: Config, server: Server, history: seq<Request>, rt: Runtime): (x: Exchange<Result<(), AppError>>)
    ensures 1 <= |x.sent| <= 3 && x.sent[0] == Get(SignInPageUrl(base))
    ensures |x.sent| >= 2 ==> x.sent[1].PostForm? && x.sent[1].url == SignInPostUrl(base)
                              && CarriesCredentials(x.sent[1].form, config)
    ensures x.result.Ok? ==> |x.sent| >= 2
    // A sign-in page that cannot be fetched or read ends the attempt with its
    // own error, after that one request.
    ensures var page := Get(SignInPageUrl(base));
            var resp := server(history, page);
            && (resp.TransportFailure? ==>
                  x == Exchange(Err(Generic("Failed to fetch sign-in page: " + resp.reason)), [page]))
            && (resp.Reply? && !IsSuccess(resp.status) ==>
                  x == Exchange(Err(Generic("Failed to fetch sign-in page. Status: " + StatusText(resp.status))), [page]))
            && (Succeeded(resp) && resp.body.ReadFailed? ==>
                  x == Exchange(Err(Generic("Failed to read sign-in page content: " + resp.body.reason)), [page]))
    // A readable page without a token ends it with the token search's error;
    // with a token, the answer to the credentials decides.
    ensures var page := Get(SignInPageUrl(base));
            var resp := server(history, page);
            Succeeded(resp) && resp.body.Received? ==>
              var token := ExtractCsrfToken(rt.parseHtml(rt.decodeText(resp.body.bytes)));
              && (token.Err? ==> x == Exchange(Err(token.error), [page]))
              && (token.Ok? ==>
                    var submit := SubmitLogin(base, config, server, history + [page], token.value, rt);
                    x.result == submit.result && x.sent == [page] + submit.sent)
  {
    var page := Get(SignInPageUrl(base));
    match server(history, page)
    case TransportFailure(reason) =>
      Exchange(Err(Generic("Failed to fetch sign-in page: " + reason)), [page])
    case Reply(status, _, body) =>
      if !IsSuccess(status) then
        Exchange(Err(Generic("Failed to fetch sign-in page. Status: " + StatusText(status))), [page])
      else match body
        case ReadFailed(reason) =>
          Exchange(Err(Generic("Failed to read sign-in page content: " + reason)), [page])
        case Received(bytes) =>
          match ExtractCsrfToken(rt.parseHtml(rt.decodeText(bytes)))
          case Err(e) => Exchange(Err(e), [page])
          case Ok(token) =>
            var submit := SubmitLogin(base, config, server, history + [page], token, rt);
            Exchange(submit.result, [page] + submit.sent)
  }

  /** The second half of the web-form strategy, once the sign-in page gave
      `token`: POST the credentials, classify the answer, follow a redirect. */
  function SubmitLogin(base: string, config: Config, server: Server, history: seq<Request>, token: string, rt: Runtime)
    : (x: Exchange<Result<(), AppError>>)
    ensures 1 <= |x.sent| <= 2 && x.sent[0] == PostForm(SignInPostUrl(base), LoginForm(token, config))
    ensures var post := PostForm(SignInPostUrl(base), LoginForm(token, config));
            var resp := server(history, post);
            && (resp.TransportFailure? ==>
                  x == Exchange(Err(Generic("Failed to submit login form: " + resp.reason)), [post]))
            && (resp.Reply? ==> x.result == LoginReplyOutcome(resp, rt))
            // The redirect target is requested only when the header reads as text.
            && (|x.sent| == 2 <==>
                  resp.Reply? && IsRedirection(resp.status) && resp.location.Some? && VisibleAscii(resp.location.value))
            && (|x.sent| == 2 ==> x.sent[1] == Get(resp.location.value))
  {
    var post := PostForm(SignInPostUrl(base), LoginForm(token, config));
    match server(history, post)
    case TransportFailure(reason) =>
      Exchange(Err(Generic("Failed to submit login form: " + reason)), [post])
    case Reply(status, location, body) =>
      var follow :=
        if IsRedirection(status) && location.Some? && VisibleAscii(location.value) then [Get(location.value)] else [];
      Exchange(LoginReplyOutcome(Reply(status, location, body), rt), [post] + follow)
  }

  // ---------------------------------------------------------------------------
  // Mock-mode fallback and the cascade
  // ---------------------------------------------------------------------------

  /** A `Generic` error that mentions a timeout or the status 408. */
  predicate IsTimeoutError(r: Result<(), AppError>) {
    r.Err? && r.error.Generic?
    && (Contains(r.error.message, "timeout") || Contains(r.error.message, "408") || Contains(r.error.message, "Timeout"))
  }

  /** A `Parse` error for a page without a sign-in form, or one that calls
      the response malformed without being the missing-token case. */
  predicate IsMalformedResponse(r: Result<(), AppError>) {
    r.Err? && r.error.Parse?
    && (Contains(r.error.message, "Could not find sign-in form")
        || (Contains(r.error.message, "malformed") && !Contains(r.error.message, "Could not find CSRF token")))
  }

  /** Falling back is allowed only against a local test server and only when
      neither failure is a real one. */
  predicate ShouldUseMockMode(base: string, api: Result<(), AppError>, web: Result<(), AppError>) {
    IsMockServer(base)
    && !(IsTimeoutError(api) || IsTimeoutError(web) || IsMalformedResponse(api) || IsMalformedResponse(web))
  }

  /** The outcome of `login` and whether it switched the client to mock mode. */
  datatype LoginOutcome = LoginOutcome(result: Result<(), AppError>, mockFallback: bool)

  /** The cascade: probe, then web form, then the guarded fallback; a failed
      login reports the probe's error (`web_result.or(api_result)` with
      `web_result` an error). */
  function Login(base: string, config: Config, server: Server, history: seq<Request>, rt: Runtime): (x: Exchange<LoginOutcome>)
    ensures var api := ApiProbe(base, config, server, history);
            api.result.Ok? ==> x.sent == api.sent && x.result == LoginOutcome(Ok(()), false)
    ensures var api := ApiProbe(base, config, server, history);
            var web := WebLogin(base, config, server, history + api.sent, rt);
            api.result.Err? ==> x.sent == api.sent + web.sent
                                && (x.result.mockFallback <==> web.result.Err? && ShouldUseMockMode(base, api.result, web.result))
                                && (x.result.result.Err? <==> web.result.Err? && !ShouldUseMockMode(base, api.result, web.result))
                                && (x.result.result.Err? ==> x.result.result == api.result)
    ensures x.result.mockFallback ==> x.result.result.Ok?
  {
    var api := ApiProbe(base, config, server, history);
    if api.result.Ok? then Exchange(LoginOutcome(Ok(()), false), api.sent)
    else
      var web := WebLogin(base, config, server, history + api.sent, rt);
      var sent := api.sent + web.sent;
      if web.result.Ok? then Exchange(LoginOutcome(Ok(()), false), sent)
      else if ShouldUseMockMode(base, api.result, web.result) then Exchange(LoginOutcome(Ok(()), true), sent)
      else Exchange(LoginOutcome(api.result, false), sent)
  }

  /** Against a non-local base URL the client never falls back to mock mode. */
  lemma NoFallbackForRealServer(base: string, config: Config, server: Server, history: seq<Request>, rt: Runtime)
    requires !IsMockServer(base)
    ensures !Login(base, config, server, history, rt).result.mockFallback
  {
  }

  /** The probe's failure message for a 408 or a 504 reply mentions a
      timeout. */
  lemma ProbeTimeoutStatus(base: string, config: Config, server: Server, history: seq<Request>)
    requires var r := server(history, ApiProbeRequest(base, config));
             r.Reply? && (r.status == 408 || r.status == 504)
    ensures IsTimeoutError(ApiProbe(base, config, server, history).result)
  {
    var r := server(history, ApiProbeRequest(base, config));
    var prefix := "API authentication failed with status: ";
    var text := StatusText(r.status);
    assert ApiProbe(base, config, server, history).result == Err(Generic(prefix + text));
    if r.status == 408 {
      assert Contains(prefix + text, "408") by {
        assert Decimal(408) == "408" by {
          DecimalThreeDigits(408);
        }
        StartsWithContains(text, "408");
        ContainsWithin(prefix, text, "", "408");
        assert prefix + text + "" == prefix + text;
      }
    } else {
      assert Contains(prefix + text, "Timeout") by {
        StatusText504();
        assert prefix + text == prefix + "504 Gateway " + "Timeout" + "";
        ContainsMiddle(prefix + "504 Gateway ", "Timeout", "");
      }
    }
  }

  /** A probe answered 408 or 504 is a timeout: login never falls back to
      mock mode then; it succeeds only through the web form and otherwise
      reports the probe's error. */
  lemma TimeoutStatusBlocksFallback(base: string, config: Config, server: Server, history: seq<Request>, rt: Runtime)
    requires var r := server(history, ApiProbeRequest(base, config));
             r.Reply? && (r.status == 408 || r.status == 504)
    ensures var x := Login(base, config, server, history, rt);
            var web := WebLogin(base, config, server, history + [ApiProbeRequest(base, config)], rt);
            !x.result.mockFallback
            && (x.result.result.Ok? <==> web.result.Ok?)
            && (x.result.result.Err? ==> x.result.result == ApiProbe(base, config, server, history).result)
  {
    ProbeTimeoutStatus(base, config, server, history);
  }

  /** The login failure message as written: a byte-index cut of the page at
      200 bytes, which panics (`None`) when byte 200 falls inside a
      character. */
  function LoginPreviewAsWritten(html: string): (r: Option<string>)
    ensures r.Some? ==> r.value == TruncateBytes(html, 200)
  {
    ByteCutAsWritten(html, 200)
  }

  /** A page of 199 ASCII letters followed by `é` makes the cut panic. */
  lemma LoginPreviewPanics()
    ensures LoginPreviewAsWritten(seq(199, _ => 'a') + ['é']) == None
  {
    ByteCutPanicsInsideCharacter(200);
  }
}
