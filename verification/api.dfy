/** The private `ecobee()` method of the `sqlbee` class: one call to the
    remote API, with the request shaped as the service wants it and a
    token refresh when the reply says the token expired.

    The remote service is a `Server`: the reply it gives to the k-th
    request of a session. The machine is bounded by `fuel`, the depth of
    nested refresh-and-retry calls it may make; `OutOfFuel` is what it
    returns when that bound, and never the source, stops it.
 */
module Api {
  import opened Results
  import opened JsonValues
  import opened Tokens
  import opened Schema

  datatype Method = GET | POST

  /** An argument value: plain text, or a document the source passes
      through `json_encode` before sending. */
  datatype ArgValue = Plain(text: string) | Document(doc: Json)

  type Args = map<string, ArgValue>

  /** The settings the core reads from its configuration class. */
  datatype Config = Config(clientId: string, scope: string)

  const Host: string := "https://api.ecobee.com"

  /** One HTTP request: the URL up to the query string, the
      Authorization header if any, and where the arguments travel:
      after `?` for GET, in the form body for POST. */
  datatype Request = Request(
    verb: Method,
    url: string,
    authorization: Option<string>,
    query: Option<Args>,
    postFields: Option<Args>)

  /** What one exchange gives back: a transport failure, or the decoded
      body (`JNull` for text that does not decode). */
  datatype Reply = Unreachable | Body(payload: Json)

  type Server = nat -> Reply

  /** The state of one run: the tables and the requests sent so far. */
  datatype Session = Session(store: Store, sent: seq<Request>)

  datatype Outcome<+T> = Outcome(session: Session, result: Result<T>)

  /** `authorize` and `token` live at the root of the API; every other
      endpoint lives under `/1/` and needs a bearer token. */
  predicate IsAuthEndpoint(endpoint: string) {
    endpoint == "authorize" || endpoint == "token"
  }

  function Path(endpoint: string): string {
    if IsAuthEndpoint(endpoint) then "/" + endpoint else "/1/" + endpoint
  }

  /** The arguments with `client_id` attached; every other argument is
      kept as it was. */
  function WithClientId(cfg: Config, args: Args): (r: Args)
    ensures "client_id" in r && r["client_id"] == Plain(cfg.clientId)
    ensures forall k :: k != "client_id" ==> (k in r <==> k in args)
    ensures forall k :: k in args && k != "client_id" ==> r[k] == args[k]
  {
    args["client_id" := Plain(cfg.clientId)]
  }

  /** The header built from the newest token row; with no row at all the
      access token reads as null and the header is left bare. */
  function Bearer(token: Option<TokenPair>): string {
    "Authorization: Bearer " + (if token.Some? then token.value.access else "")
  }

  /** A request carries the configured `client_id`, in the query string
      of a GET or the body of a POST. */
  predicate CarriesClientId(cfg: Config, req: Request) {
    match req.verb
    case GET => req.query.Some? && "client_id" in req.query.value && req.query.value["client_id"] == Plain(cfg.clientId)
    case POST => req.postFields.Some? && "client_id" in req.postFields.value && req.postFields.value["client_id"] == Plain(cfg.clientId)
  }

  /** A shaped request and the token row read while shaping it. */
  datatype Shaped = Shaped(request: Request, token: Option<TokenPair>)

  /** Request shaping: `client_id` on every call, the root path and no
      header for the two authorization endpoints, `/1/` and a bearer
      header built from the newest token row for all others, arguments in
      the query string for GET and in the body for POST. */
  function Shape(cfg: Config, log: TokenLog, verb: Method, endpoint: string, args: Args): (r: Shaped)
    ensures r.request.verb == verb
    ensures r.request.url == Host + Path(endpoint)
    ensures CarriesClientId(cfg, r.request)
    ensures IsAuthEndpoint(endpoint) <==> r.request.authorization.None?
    ensures IsAuthEndpoint(endpoint) ==> r.token.None?
    ensures !IsAuthEndpoint(endpoint) ==> r.token == Latest(log) && r.request.authorization == Some(Bearer(Latest(log)))
    ensures verb == GET ==> r.request.query == Some(WithClientId(cfg, args)) && r.request.postFields.None?
    ensures verb == POST ==> r.request.postFields == Some(WithClientId(cfg, args)) && r.request.query.None?
  {
    var sent := WithClientId(cfg, args);
    var token := if IsAuthEndpoint(endpoint) then None else Latest(log);
    var header := if IsAuthEndpoint(endpoint) then None else Some(Bearer(token));
    var query := if verb == GET then Some(sent) else None;
    var body := if verb == POST then Some(sent) else None;
    Shaped(Request(verb, Host + Path(endpoint), header, query, body), token)
  }

  /** The reply reports status code 14, "authentication token expired":
      `isset($r['status'])` and `$r['status']['code'] === 14`. */
  predicate Expired(j: Json)
    ensures Expired(j) <==>
      && j.JObj? && "status" in j.fields
      && j.fields["status"].JObj? && "code" in j.fields["status"].fields
      && j.fields["status"].fields["code"] == JNum(14)
  {
    Get(Get(j, "status"), "code") == JNum(14)
  }

  /** Whether an expired reply triggers a refresh. The code refreshes on
      every expired reply; the intended machine refreshes only while the
      auto-refresh flag is set and only for calls that read a token. */
  predicate RefreshesOn(mode: Mode, endpoint: string, auto: bool)
    ensures mode == AsWritten ==> RefreshesOn(mode, endpoint, auto)
    ensures mode == Intended ==>
      (RefreshesOn(mode, endpoint, auto) <==> auto && endpoint != "authorize" && endpoint != "token")
  {
    mode == AsWritten || (auto && !IsAuthEndpoint(endpoint))
  }

  /** The endpoint the retry is issued for. The code passes on the
      endpoint it already prefixed; the intended retry repeats the
      original call. */
  function RetryEndpoint(mode: Mode, endpoint: string): (r: string)
    ensures mode == AsWritten ==> Path(r) == "/1/" + Path(endpoint)
    ensures mode == Intended ==> Path(r) == Path(endpoint)
  {
    assert Path(endpoint)[0] == '/';
    if mode == AsWritten then Path(endpoint) else endpoint
  }

  /** The arguments of `refresh_token`: a null refresh token is dropped
      from the encoded form, as `http_build_query` drops nulls. */
  function RefreshArgs(refresh: Option<string>): (r: Args)
    ensures "grant_type" in r && r["grant_type"] == Plain("refresh_token")
    ensures refresh.Some? <==> "refresh_token" in r
    ensures refresh.Some? ==> r["refresh_token"] == Plain(refresh.value)
  {
    var base := map["grant_type" := Plain("refresh_token")];
    if refresh.Some? then base["refresh_token" := Plain(refresh.value)] else base
  }

  /** The refresh token of the row read for a call, if a row was read. */
  function RefreshOf(token: Option<TokenPair>): Option<string> {
    if token.Some? then Some(token.value.refresh) else None
  }

  /** The requests of `later` begin with those of `earlier`. */
  predicate SentExtends(later: Session, earlier: Session) {
    |earlier.sent| <= |later.sent| && later.sent[..|earlier.sent|] == earlier.sent
  }

  /** Every request sent after `earlier` carries the client id. */
  predicate NewRequestsCarryClientId(cfg: Config, later: Session, earlier: Session)
    requires SentExtends(later, earlier)
  {
    forall i :: |earlier.sent| <= i < |later.sent| ==> CarriesClientId(cfg, later.sent[i])
  }

  /** What an API call may change: it sends requests and appends token
      rows, and touches no other table. */
  predicate CallFrame(cfg: Config, later: Session, earlier: Session) {
    && SentExtends(later, earlier)
    && NewRequestsCarryClientId(cfg, later, earlier)
    && Extends(later.store.tokens, earlier.store.tokens)
    && later.store == earlier.store.(tokens := later.store.tokens)
  }

  lemma CallFrameTransitive(cfg: Config, a: Session, b: Session, c: Session)
    requires CallFrame(cfg, b, a) && CallFrame(cfg, c, b)
    ensures CallFrame(cfg, c, a)
  {
    ExtendsTransitive(a.store.tokens, b.store.tokens, c.store.tokens);
    assert c.sent[..|a.sent|] == c.sent[..|b.sent|][..|a.sent|];
    forall i | |a.sent| <= i < |c.sent| ensures CarriesClientId(cfg, c.sent[i]) {
      if i < |b.sent| {
        assert c.sent[i] == c.sent[..|b.sent|][i];
      }
    }
  }

  /** `ecobee($method, $endpoint, $arguments, $auto_refresh_token)`. */
  function Ecobee(mode: Mode, cfg: Config, s: Session, server: Server,
                  verb: Method, endpoint: string, args: Args, auto: bool, fuel: nat): (r: Outcome<Json>)
    ensures CallFrame(cfg, r.session, s)
    ensures fuel > 0 ==> (|r.session.sent| > |s.sent|
      && r.session.sent[|s.sent|] == Shape(cfg, s.store.tokens, verb, endpoint, args).request)
    ensures fuel == 0 ==> r == Outcome(s, Err(OutOfFuel))
    decreases fuel, 1
  {
    if fuel == 0 then Outcome(s, Err(OutOfFuel))
    else
      var shaped := Shape(cfg, s.store.tokens, verb, endpoint, args);
      var s1 := s.(sent := s.sent + [shaped.request]);
      assert s1.sent[..|s.sent|] == s.sent;
      match server(|s.sent|)
      case Unreachable => Outcome(s1, Err(CurlError))
      case Body(j) =>
        if Expired(j) && RefreshesOn(mode, endpoint, auto) then
          var refreshed := RefreshToken(mode, cfg, s1, server, RefreshOf(shaped.token), fuel - 1);
          CallFrameTransitive(cfg, s, s1, refreshed.session);
          assert refreshed.session.sent[|s.sent|] == refreshed.session.sent[..|s1.sent|][|s.sent|];
          if refreshed.result.Err? then Outcome(refreshed.session, Err(refreshed.result.fault))
          else
            var retried := Ecobee(mode, cfg, refreshed.session, server, verb,
                                  RetryEndpoint(mode, endpoint), WithClientId(cfg, args), false, fuel - 1);
            CallFrameTransitive(cfg, s, refreshed.session, retried.session);
            assert retried.session.sent[|s.sent|] == retried.session.sent[..|refreshed.session.sent|][|s.sent|];
            retried
        else Outcome(s1, Ok(j))
  }

  /** Store the pair a token reply grants, or fail with "Could not grant
      token" leaving the log as it was. */
  function RecordGrant(call: Outcome<Json>): (r: Outcome<Json>)
    ensures r.session.sent == call.session.sent
    ensures r.session.store == call.session.store.(tokens := r.session.store.tokens)
    ensures call.result.Err? ==> r == call
    ensures call.result.Ok? && GrantedPair(call.result.value).None? ==>
      r == Outcome(call.session, Err(CouldNotGrantToken))
    ensures call.result.Ok? && GrantedPair(call.result.value).Some? ==>
      r.result == call.result && r.session.store.tokens == call.session.store.tokens + [GrantedPair(call.result.value).value]
  {
    match call.result
    case Err(_) => call
    case Ok(j) =>
      match Record(call.session.store.tokens, j)
      case Err(e) => Outcome(call.session, Err(e))
      case Ok(log) =>
        assert log == call.session.store.tokens + [GrantedPair(j).value];
        Outcome(call.session.(store := call.session.store.(tokens := log)), Ok(j))
  }

  /** `refresh_token($refresh_token)`. */
  function RefreshToken(mode: Mode, cfg: Config, s: Session, server: Server,
                        refresh: Option<string>, fuel: nat): (r: Outcome<Json>)
    ensures CallFrame(cfg, r.session, s)
    ensures fuel > 0 ==> (|r.session.sent| > |s.sent|
      && r.session.sent[|s.sent|] == Shape(cfg, s.store.tokens, POST, "token", RefreshArgs(refresh)).request)
    ensures fuel == 0 ==> r == Outcome(s, Err(OutOfFuel))
    decreases fuel, 2
  {
    var call := Ecobee(mode, cfg, s, server, POST, "token", RefreshArgs(refresh), true, fuel);
    var r := RecordGrant(call);
    assert Extends(r.session.store.tokens, call.session.store.tokens) by {
      if r.session.store.tokens != call.session.store.tokens {
        assert r.session.store.tokens[..|call.session.store.tokens|] == call.session.store.tokens;
      }
    }
    ExtendsTransitive(s.store.tokens, call.session.store.tokens, r.session.store.tokens);
    r
  }

  /** `grant_token($code)`: exchange a PIN code for the first tokens. */
  function GrantToken(mode: Mode, cfg: Config, s: Session, server: Server, code: string, fuel: nat): (r: Outcome<Json>)
    ensures CallFrame(cfg, r.session, s)
  {
    var args := map["grant_type" := Plain("ecobeePin"), "code" := Plain(code)];
    var call := Ecobee(mode, cfg, s, server, POST, "token", args, true, fuel);
    var r := RecordGrant(call);
    assert Extends(r.session.store.tokens, call.session.store.tokens) by {
      if r.session.store.tokens != call.session.store.tokens {
        assert r.session.store.tokens[..|call.session.store.tokens|] == call.session.store.tokens;
      }
    }
    ExtendsTransitive(s.store.tokens, call.session.store.tokens, r.session.store.tokens);
    r
  }

  /** `authorize()`: ask for a PIN for the configured scope. */
  function Authorize(mode: Mode, cfg: Config, s: Session, server: Server, fuel: nat): (r: Outcome<Json>)
    ensures CallFrame(cfg, r.session, s)
    ensures fuel > 0 ==> |r.session.sent| > |s.sent| && r.session.sent[|s.sent|].url == Host + "/authorize"
    ensures fuel > 0 ==> r.session.sent[|s.sent|] == Shape(cfg, s.store.tokens, GET, "authorize",
      map["response_type" := Plain("ecobeePin"), "scope" := Plain(cfg.scope)]).request
  {
    Ecobee(mode, cfg, s, server, GET, "authorize",
           map["response_type" := Plain("ecobeePin"), "scope" := Plain(cfg.scope)], true, fuel)
  }
}
