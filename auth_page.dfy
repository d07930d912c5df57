/**
 * The sign-in page: the `apiRequest` helper (request options, reading the
 * body, choosing the error message) and the two submit handlers with their
 * input checks, including the email pattern `^[^\s@]+@[^\s@]+\.[^\s@]+$`.
 * The network, `JSON.stringify` and `response.json()` are parameters.
 */
module AuthPage {
  import opened Wrappers
  import opened Js
  import opened Text
  import opened ScanGate

  // ---------------------------------------------------------------------
  // String(v)
  // ---------------------------------------------------------------------

  /** `String(v)` for the values JSON produces; inside an array, null and
      undefined elements become the empty string. */
  function Display(v: JsValue): string
    decreases v
  {
    match v
    case Undefined => "undefined"
    case Null => "null"
    case Bool(b) => if b then "true" else "false"
    case Num(n) => if n < 0 then "-" + Decimal(-n) else Decimal(n)
    case Str(s) => s
    case Obj(_) => "[object Object]"
    case Arr(items) =>
      Join(seq(|items|, k requires 0 <= k < |items| =>
        if Nullish(items[k]) then "" else Display(items[k])), ",")
  }

  // ---------------------------------------------------------------------
  // apiRequest
  // ---------------------------------------------------------------------

  const BaseUrl: string := "http://localhost:5000"
  const NetworkErrorMessage: string := "Network error. Please check your connection."
  const UnexpectedErrorMessage: string := "Unexpected error"

  /** The `options` object handed to `fetch`. */
  datatype Options = Options(verb: string, headers: map<string, string>, body: Option<string>)

  /** What `fetch` resolves to: the status flag and text, the
      `content-type` header if any, and the body text. */
  datatype Response = Response(ok: bool, statusText: string, contentType: Option<string>, body: string)

  /** The foreign parts of a request: the network (`None` when `fetch`
      rejects), `JSON.stringify`, and the body parser behind `response.json()`. */
  datatype Backend = Backend(
    transport: (string, Options) -> Option<Response>,
    stringify: JsValue -> string,
    parseJson: string -> Result<JsValue, Exception>)

  /** The options `apiRequest` builds; `Undefined` is an omitted payload. */
  function RequestOptions(verb: string, payload: JsValue, stringify: JsValue -> string): Options {
    var headers := map["Content-Type" := "application/json"];
    if payload != Undefined then Options(verb, headers, Some(stringify(payload)))
    else Options(verb, headers, None)
  }

  /** The body as `apiRequest` reads it: parsed when the content type
      mentions JSON (a parse failure propagates), else wrapped as
      `{message: text}`. */
  function ResponseData(r: Response, parseJson: string -> Result<JsValue, Exception>): Result<JsValue, Exception> {
    var contentType := if r.contentType.Some? then r.contentType.value else "";
    if Contains(contentType, "application/json") then parseJson(r.body)
    else Success(Obj(map["message" := Str(r.body)]))
  }

  /** `data?.message || data?.error || response.statusText || "Unexpected error"`. */
  function ErrorValue(data: JsValue, statusText: string): JsValue {
    Or(Or(Or(Field(data, "message"), Field(data, "error")), Str(statusText)), Str(UnexpectedErrorMessage))
  }

  /** `apiRequest(endpoint, method, payload)`. */
  function ApiRequest(b: Backend, endpoint: string, verb: string, payload: JsValue): Result<JsValue, Exception> {
    match b.transport(BaseUrl + endpoint, RequestOptions(verb, payload, b.stringify))
    case None => Failure(Error(NetworkErrorMessage))
    case Some(response) =>
      var data :- ResponseData(response, b.parseJson);
      if !response.ok then Failure(Error(Display(ErrorValue(data, response.statusText))))
      else Success(data)
  }

  /** A body is sent exactly when a payload is given, and the JSON content
      type always is. */
  lemma BodyOnlyWithPayload(verb: string, payload: JsValue, stringify: JsValue -> string)
    ensures var o := RequestOptions(verb, payload, stringify);
      && o.verb == verb
      && o.headers == map["Content-Type" := "application/json"]
      && (o.body.Some? <==> payload != Undefined)
      && (o.body.Some? ==> o.body.value == stringify(payload))
  {
  }

  /** A body that is not declared JSON is never parsed: it comes back as an
      object whose only field `message` holds the text. */
  lemma NonJsonWrapped(r: Response, parseJson: string -> Result<JsValue, Exception>)
    requires r.contentType.None? || !Contains(r.contentType.value, "application/json")
    ensures ResponseData(r, parseJson) == Success(Obj(map["message" := Str(r.body)]))
    ensures Field(ResponseData(r, parseJson).value, "message") == Str(r.body)
  {
  }

  /** The message of a refused request: the body's `message`, else its
      `error`, else the status text, else "Unexpected error", taking the
      first that is truthy. It is never empty when the winner is a string. */
  lemma ErrorPrecedence(data: JsValue, statusText: string)
    ensures var m := Field(data, "message"); var e := Field(data, "error");
      ErrorValue(data, statusText) ==
        if Truthy(m) then m
        else if Truthy(e) then e
        else if statusText != "" then Str(statusText)
        else Str(UnexpectedErrorMessage)
    ensures Truthy(ErrorValue(data, statusText))
    ensures ErrorValue(data, statusText).Str? ==> Display(ErrorValue(data, statusText)) != ""
  {
  }

  /** A refused request whose body is plain text fails with that text when
      there is any, and otherwise with the status text or "Unexpected error". */
  lemma PlainTextRefusal(b: Backend, endpoint: string, verb: string, payload: JsValue, r: Response)
    requires b.transport(BaseUrl + endpoint, RequestOptions(verb, payload, b.stringify)) == Some(r)
    requires !r.ok && r.contentType.None?
    ensures ApiRequest(b, endpoint, verb, payload) ==
      Failure(Error(if r.body != "" then r.body else if r.statusText != "" then r.statusText else UnexpectedErrorMessage))
  {
    NonJsonWrapped(r, b.parseJson);
    var data := Obj(map["message" := Str(r.body)]);
    assert Field(data, "message") == Str(r.body);
    assert Field(data, "error") == Undefined;
  }

  /** A request succeeds exactly when the network answers with an ok status
      and a readable body, and then returns that body. */
  lemma ApiSucceedsIff(b: Backend, endpoint: string, verb: string, payload: JsValue)
    ensures var sent := b.transport(BaseUrl + endpoint, RequestOptions(verb, payload, b.stringify));
      && (sent.None? ==> ApiRequest(b, endpoint, verb, payload) == Failure(Error(NetworkErrorMessage)))
      && (ApiRequest(b, endpoint, verb, payload).Success? <==>
            sent.Some? && sent.value.ok && ResponseData(sent.value, b.parseJson).Success?)
      && (ApiRequest(b, endpoint, verb, payload).Success? ==>
            ApiRequest(b, endpoint, verb, payload) == ResponseData(sent.value, b.parseJson))
  {
  }

  // ---------------------------------------------------------------------
  // The email pattern
  // ---------------------------------------------------------------------

  /** A run of `[^\s@]`. */
  predicate Plain(t: string) {
    forall k :: 0 <= k < |t| ==> !IsSpace(t[k]) && t[k] != '@'
  }

  /** `s` is `A@B.C` with `A`, `B`, `C` non-empty runs of `[^\s@]`, the `@` at
      `i` and the `.` at `j`: one way the pattern can match. */
  predicate MatchesAt(s: string, i: nat, j: nat) {
    && 0 < i < j < |s| - 1
    && s[i] == '@' && s[j] == '.'
    && i + 1 < j
    && Plain(s[..i]) && Plain(s[i + 1..j]) && Plain(s[j + 1..])
  }

  /** What the regular expression accepts, by its definition. */
  predicate EmailPattern(s: string) {
    exists i: nat, j: nat | i < |s| && j < |s| :: MatchesAt(s, i, j)
  }

  /** A '.' inside the domain: neither its first nor its last character. */
  predicate DotInside(d: string) {
    |d| >= 1 &&
    match IndexOf(d[1..], '.')
    case None => false
    case Some(k) => k + 1 < |d| - 1
  }

  /** `emailRegex.test(email)` as a direct check: no white space, exactly one
      '@' with something before it, and a '.' inside the part after it. */
  predicate ValidEmail(s: string) {
    && (forall k :: 0 <= k < |s| ==> !IsSpace(s[k]))
    && match IndexOf(s, '@')
       case None => false
       case Some(i) => i > 0 && '@' !in s[i + 1..] && DotInside(s[i + 1..])
  }

  /** A slice of a string without white space, holding no '@', is a run of `[^\s@]`. */
  lemma PlainSlice(s: string, lo: nat, hi: nat)
    requires lo <= hi <= |s|
    requires forall k :: 0 <= k < |s| ==> !IsSpace(s[k])
    requires '@' !in s[lo..hi]
    ensures Plain(s[lo..hi])
  {
    forall k | 0 <= k < hi - lo ensures !IsSpace(s[lo..hi][k]) && s[lo..hi][k] != '@' {
      assert s[lo..hi][k] == s[lo + k];
      assert s[lo..hi][k] in s[lo..hi];
    }
  }

  /** What is not in a string is not in any slice of it. */
  lemma NotInSlice(d: string, c: char, lo: nat, hi: nat)
    requires lo <= hi <= |d| && c !in d
    ensures c !in d[lo..hi]
  {
    forall t | 0 <= t < hi - lo ensures d[lo..hi][t] != c {
      assert d[lo..hi][t] == d[lo + t];
    }
  }

  /** An '@' at `i` that is the only one, and a '.' at `j` with something on
      either side of it, make a match of the pattern. */
  lemma MatchesFromParts(s: string, i: nat, j: nat)
    requires 0 < i && i + 1 < j < |s| - 1
    requires s[i] == '@' && s[j] == '.'
    requires forall k :: 0 <= k < |s| ==> !IsSpace(s[k])
    requires '@' !in s[..i] && '@' !in s[i + 1..]
    ensures MatchesAt(s, i, j)
  {
    var d := s[i + 1..];
    assert s[..i] == s[0..i];
    PlainSlice(s, 0, i);
    assert s[i + 1..j] == d[0..j - i - 1];
    NotInSlice(d, '@', 0, j - i - 1);
    PlainSlice(s, i + 1, j);
    assert s[j + 1..|s|] == d[j - i..|d|];
    NotInSlice(d, '@', j - i, |d|);
    PlainSlice(s, j + 1, |s|);
    assert s[j + 1..|s|] == s[j + 1..];
  }

  lemma ValidEmailMatches(s: string)
    requires ValidEmail(s)
    ensures EmailPattern(s)
  {
    var i := IndexOf(s, '@').value;
    var d := s[i + 1..];
    var k := IndexOf(d[1..], '.').value;
    var j := i + 1 + k + 1;
    assert s[j] == '.' by {
      assert d[1..][k] == s[j];
    }
    MatchesFromParts(s, i, j);
  }

  lemma MatchesValidEmail(s: string, i: nat, j: nat)
    requires MatchesAt(s, i, j)
    ensures ValidEmail(s)
  {
    forall k | 0 <= k < |s| ensures !IsSpace(s[k]) {
      if k < i {
        assert s[k] == s[..i][k];
      } else if i < k < j {
        assert s[k] == s[i + 1..j][k - i - 1];
      } else if j < k {
        assert s[k] == s[j + 1..][k - j - 1];
      }
    }
    assert s == s[..i] + [s[i]] + s[i + 1..];
    assert '@' !in s[..i];
    IndexOfAfter(s[..i], '@', s[i + 1..]);
    var d := s[i + 1..];
    forall t | 0 <= t < |d| ensures d[t] != '@' {
      if t < j - i - 1 {
        assert d[t] == s[i + 1..j][t];
      } else if t > j - i - 1 {
        assert d[t] == s[j + 1..][t - (j - i)];
      }
    }
    assert d[1..][j - i - 2] == '.';
    var k := IndexOf(d[1..], '.').value;
  }

  /** The direct check and the pattern accept the same strings. */
  lemma EmailCheckIsPattern(s: string)
    ensures ValidEmail(s) <==> EmailPattern(s)
  {
    if ValidEmail(s) {
      ValidEmailMatches(s);
    }
    if EmailPattern(s) {
      var i: nat, j: nat :| i < |s| && j < |s| && MatchesAt(s, i, j);
      MatchesValidEmail(s, i, j);
    }
  }

  // ---------------------------------------------------------------------
  // Login
  // ---------------------------------------------------------------------

  const MissingCredentialsMessage: string := "Please enter email and password."

  datatype LoginOutcome =
    | LoginRefused(message: string)
    | LoginFailed(error: Exception)
    | LoginSucceeded(user: JsValue, token: Option<string>)

  /** `res?.user || res` and `res?.token`; the token slot receives `String(token)`
      unless the token is undefined, which `setUser` stores as "undefined". */
  function SessionFrom(res: JsValue): (JsValue, Option<string>) {
    var token := Field(res, "token");
    (Or(Field(res, "user"), res), if token.Undefined? then None else Some(Display(token)))
  }

  function LoginPayload(email: string, password: string): JsValue {
    Obj(map["email" := Str(email), "password" := Str(password)])
  }

  /** The login submit handler with the two boxes holding `emailBox` and
      `passwordBox`: its outcome and the storage slots after it. */
  function LoginSubmit(emailBox: string, passwordBox: string, s: Slots, b: Backend): (LoginOutcome, Slots) {
    var email := Trim(emailBox);
    var password := Trim(passwordBox);
    if email == "" || password == "" then (LoginRefused(MissingCredentialsMessage), s)
    else match ApiRequest(b, "/api/auth/login", "POST", LoginPayload(email, password))
      case Failure(e) => (LoginFailed(e), s)
      case Success(res) =>
        var (user, token) := SessionFrom(res);
        (LoginSucceeded(user, token), AfterSetUser(s, user, token))
  }

  /** No request is sent unless both trimmed boxes are non-empty: the outcome
      then does not depend on the backend and nothing is stored. */
  lemma LoginNeedsBothFields(emailBox: string, passwordBox: string, s: Slots, b: Backend, other: Backend)
    requires Trim(emailBox) == "" || Trim(passwordBox) == ""
    ensures LoginSubmit(emailBox, passwordBox, s, b) == (LoginRefused(MissingCredentialsMessage), s)
    ensures LoginSubmit(emailBox, passwordBox, s, b) == LoginSubmit(emailBox, passwordBox, s, other)
  {
  }

  /** A successful login stores `res.user` when present, else the whole
      response, with `res.token`, logs the visitor in and resets the count;
      a failed one leaves the slots alone. */
  lemma LoginStoresSession(emailBox: string, passwordBox: string, s: Slots, b: Backend)
    ensures var (outcome, after) := LoginSubmit(emailBox, passwordBox, s, b);
      && (!outcome.LoginSucceeded? ==> after == s)
      && (outcome.LoginSucceeded? ==>
            var res := ApiRequest(b, "/api/auth/login", "POST", LoginPayload(Trim(emailBox), Trim(passwordBox))).value;
            && outcome.user == (if Truthy(Field(res, "user")) then Field(res, "user") else res)
            && (Field(res, "token") == Undefined <==> outcome.token.None?)
            && (Field(res, "token").Str? ==> outcome.token == Some(Field(res, "token").s))
            && after.user == Some(outcome.user)
            && LoggedIn(after) && Count(after) == 0)
  {
  }

  // ---------------------------------------------------------------------
  // Register
  // ---------------------------------------------------------------------

  const FillAllMessage: string := "Please fill in all fields."
  const InvalidEmailMessage: string := "Please enter a valid email address."
  const MismatchMessage: string := "Passwords do not match."

  datatype RegisterOutcome =
    | RegisterRefused(message: string)
    | RegisterFailed(error: Exception)
    | Registered

  function RegisterPayload(name: string, email: string, password: string): JsValue {
    Obj(map["name" := Str(name), "email" := Str(email), "password" := Str(password)])
  }

  /** The register submit handler over the four boxes. */
  function RegisterSubmit(nameBox: string, emailBox: string, passwordBox: string, confirmBox: string, b: Backend): RegisterOutcome {
    var name := Trim(nameBox);
    var email := Trim(emailBox);
    var password := Trim(passwordBox);
    var confirm := Trim(confirmBox);
    if name == "" || email == "" || password == "" || confirm == "" then RegisterRefused(FillAllMessage)
    else if !ValidEmail(email) then RegisterRefused(InvalidEmailMessage)
    else if password != confirm then RegisterRefused(MismatchMessage)
    else match ApiRequest(b, "/api/auth/register", "POST", RegisterPayload(name, email, password))
      case Failure(e) => RegisterFailed(e)
      case Success(_) => Registered
  }

  /** The checks run in order (all fields, then the email pattern, then the
      confirmation), the first failing one names the refusal, and a refused
      form sends no request: its outcome does not depend on the backend. A
      request is sent only for a form that passes all three. */
  lemma RegisterChecksInOrder(nameBox: string, emailBox: string, passwordBox: string, confirmBox: string,
                              b: Backend, other: Backend)
    ensures var r := RegisterSubmit(nameBox, emailBox, passwordBox, confirmBox, b);
      var filled := Trim(nameBox) != "" && Trim(emailBox) != "" && Trim(passwordBox) != "" && Trim(confirmBox) != "";
      && (r == RegisterRefused(FillAllMessage) <==> !filled)
      && (r == RegisterRefused(InvalidEmailMessage) <==> filled && !EmailPattern(Trim(emailBox)))
      && (r == RegisterRefused(MismatchMessage) <==>
            filled && EmailPattern(Trim(emailBox)) && Trim(passwordBox) != Trim(confirmBox))
      && (r.RegisterRefused? ==> r == RegisterSubmit(nameBox, emailBox, passwordBox, confirmBox, other))
      && (!r.RegisterRefused? <==> filled && EmailPattern(Trim(emailBox)) && Trim(passwordBox) == Trim(confirmBox))
  {
    EmailCheckIsPattern(Trim(emailBox));
  }
}
