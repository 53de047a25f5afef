/** What the refresh-and-retry machine of `ecobee()` does, and where the
    code departs from the "at most one refresh" its comment promises. */
module RefreshFacts {
  import opened Results
  import opened JsonValues
  import opened Tokens
  import opened Schema
  import opened Api

  /** The reply the service gives when the access token has expired. */
  const ExpiredReply: Json :=
    JObj(map["status" := JObj(map["code" := JNum(14), "message" := JStr("Authentication token has expired.")])])

  /** A service that answers every request with status code 14. */
  ghost predicate AlwaysExpired(server: Server) {
    forall k :: server(k).Body? && Expired(server(k).payload)
  }

  /** Any reply that does not report code 14, including replies with
      other non-zero codes, is handed back unchanged after exactly one
      request, and no token row is written. */
  lemma PassThrough(mode: Mode, cfg: Config, s: Session, server: Server,
                    verb: Method, endpoint: string, args: Args, auto: bool, fuel: nat, j: Json)
    requires fuel > 0
    requires server(|s.sent|) == Body(j)
    requires !Expired(j) || !RefreshesOn(mode, endpoint, auto)
    ensures Ecobee(mode, cfg, s, server, verb, endpoint, args, auto, fuel)
      == Outcome(s.(sent := s.sent + [Shape(cfg, s.store.tokens, verb, endpoint, args).request]), Ok(j))
  {
  }

  /** The refresh an expired reply triggers is a POST to `/token`, with
      no header, carrying the refresh token of the row read for the call
      (none when the call read no row). */
  lemma ExpiredRefreshesWithRowToken(mode: Mode, cfg: Config, s: Session, server: Server,
                                     verb: Method, endpoint: string, args: Args, auto: bool, fuel: nat)
    requires fuel >= 2
    requires server(|s.sent|).Body? && Expired(server(|s.sent|).payload)
    requires RefreshesOn(mode, endpoint, auto)
    ensures var r := Ecobee(mode, cfg, s, server, verb, endpoint, args, auto, fuel);
      && |r.session.sent| >= |s.sent| + 2
      && r.session.sent[|s.sent| + 1].verb == POST
      && r.session.sent[|s.sent| + 1].url == Host + "/token"
      && r.session.sent[|s.sent| + 1].authorization.None?
      && r.session.sent[|s.sent| + 1].postFields
         == Some(WithClientId(cfg, RefreshArgs(if IsAuthEndpoint(endpoint) then None else RefreshOf(Latest(s.store.tokens)))))
  {
    var shaped := Shape(cfg, s.store.tokens, verb, endpoint, args);
    var s1 := s.(sent := s.sent + [shaped.request]);
    var refreshed := RefreshToken(mode, cfg, s1, server, RefreshOf(shaped.token), fuel - 1);
    var r := Ecobee(mode, cfg, s, server, verb, endpoint, args, auto, fuel);
    assert refreshed.session.sent[|s1.sent|] == Shape(cfg, s1.store.tokens, POST, "token", RefreshArgs(RefreshOf(shaped.token))).request;
    if refreshed.result.Ok? {
      var retried := Ecobee(mode, cfg, refreshed.session, server, verb,
                            RetryEndpoint(mode, endpoint), WithClientId(cfg, args), false, fuel - 1);
      assert r == retried;
      assert r.session.sent[|s1.sent|] == r.session.sent[..|refreshed.session.sent|][|s1.sent|];
    } else {
      assert r.session == refreshed.session;
    }
  }

  /** As written, the flag that should stop a second refresh is never
      read: against a service that always answers code 14 the machine
      refreshes again on every reply, spends every unit of fuel on one
      more request, and never settles, whatever the flag says. */
  lemma {:induction false} AsWrittenNeverSettles(cfg: Config, s: Session, server: Server,
                                                 verb: Method, endpoint: string, args: Args, auto: bool, fuel: nat)
    requires AlwaysExpired(server)
    ensures var r := Ecobee(AsWritten, cfg, s, server, verb, endpoint, args, auto, fuel);
      r.result == Err(OutOfFuel) && |r.session.sent| == |s.sent| + fuel
    decreases fuel, 1
  {
    if fuel > 0 {
      var shaped := Shape(cfg, s.store.tokens, verb, endpoint, args);
      var s1 := s.(sent := s.sent + [shaped.request]);
      assert server(|s.sent|).Body? && Expired(server(|s.sent|).payload);
      RefreshNeverSettles(cfg, s1, server, RefreshOf(shaped.token), fuel - 1);
    }
  }

  lemma {:induction false} RefreshNeverSettles(cfg: Config, s: Session, server: Server,
                                               refresh: Option<string>, fuel: nat)
    requires AlwaysExpired(server)
    ensures var r := RefreshToken(AsWritten, cfg, s, server, refresh, fuel);
      r.result == Err(OutOfFuel) && |r.session.sent| == |s.sent| + fuel
    decreases fuel, 2
  {
    AsWrittenNeverSettles(cfg, s, server, POST, "token", RefreshArgs(refresh), true, fuel);
  }

  /** As written, the retry after a successful refresh re-applies the
      `/1/` prefix to the endpoint it already prefixed, so it goes to
      `/1//1/<endpoint>`; it does carry the newly granted token. */
  lemma AsWrittenRetryDoublesPrefix(cfg: Config, s: Session, server: Server,
                                    verb: Method, endpoint: string, args: Args, auto: bool, fuel: nat, grant: Json)
    requires fuel >= 2
    requires !IsAuthEndpoint(endpoint)
    requires server(|s.sent|).Body? && Expired(server(|s.sent|).payload)
    requires server(|s.sent| + 1) == Body(grant) && !Expired(grant) && GrantedPair(grant).Some?
    ensures var r := Ecobee(AsWritten, cfg, s, server, verb, endpoint, args, auto, fuel);
      && |r.session.sent| >= |s.sent| + 3
      && r.session.sent[|s.sent| + 2].url == Host + "/1//1/" + endpoint
      && r.session.sent[|s.sent| + 2].authorization == Some(Bearer(GrantedPair(grant)))
  {
    RetryAfterGrant(AsWritten, cfg, s, server, verb, endpoint, args, auto, fuel, grant);
    var log := s.store.tokens + [GrantedPair(grant).value];
    var retry := Shape(cfg, log, verb, Path(endpoint), WithClientId(cfg, args)).request;
    DoublePrefix(endpoint);
    assert retry.url == Host + "/1//1/" + endpoint;
    assert Latest(log) == GrantedPair(grant);
  }

  lemma DoublePrefix(endpoint: string)
    requires !IsAuthEndpoint(endpoint)
    ensures Host + Path(Path(endpoint)) == Host + "/1//1/" + endpoint
  {
    assert Path(endpoint) == "/1/" + endpoint;
    assert !IsAuthEndpoint("/1/" + endpoint) by {
      assert ("/1/" + endpoint)[0] == '/';
    }
    assert "/1/" + ("/1/" + endpoint) == "/1//1/" + endpoint;
  }

  /** The intended retry repeats the original call with the new token
      and auto-refresh off, so whatever it gets back, even a second code
      14, is the result. */
  lemma IntendedRetryRepeatsCall(cfg: Config, s: Session, server: Server,
                                 verb: Method, endpoint: string, args: Args, fuel: nat, grant: Json, last: Json)
    requires fuel >= 2
    requires !IsAuthEndpoint(endpoint)
    requires server(|s.sent|).Body? && Expired(server(|s.sent|).payload)
    requires server(|s.sent| + 1) == Body(grant) && !Expired(grant) && GrantedPair(grant).Some?
    requires server(|s.sent| + 2) == Body(last)
    ensures var r := Ecobee(Intended, cfg, s, server, verb, endpoint, args, true, fuel);
      && |r.session.sent| == |s.sent| + 3
      && r.session.sent[|s.sent| + 2].url == Host + "/1/" + endpoint
      && r.session.sent[|s.sent| + 2].authorization == Some(Bearer(GrantedPair(grant)))
      && r.result == Ok(last)
      && r.session.store.tokens == s.store.tokens + [GrantedPair(grant).value]
  {
    RetryAfterGrant(Intended, cfg, s, server, verb, endpoint, args, true, fuel, grant);
    var shaped := Shape(cfg, s.store.tokens, verb, endpoint, args);
    var s1 := s.(sent := s.sent + [shaped.request]);
    var refreshed := RefreshToken(Intended, cfg, s1, server, RefreshOf(shaped.token), fuel - 1);
    PassThrough(Intended, cfg, refreshed.session, server, verb, endpoint, WithClientId(cfg, args), false, fuel - 1, last);
  }

  /** The common part of the two retry lemmas: after an expired reply
      and a reply granting a pair, the pair is logged and the third
      request is the retry, shaped with the new log. */
  lemma RetryAfterGrant(mode: Mode, cfg: Config, s: Session, server: Server,
                        verb: Method, endpoint: string, args: Args, auto: bool, fuel: nat, grant: Json)
    requires fuel >= 2
    requires !IsAuthEndpoint(endpoint) && RefreshesOn(mode, endpoint, auto)
    requires server(|s.sent|).Body? && Expired(server(|s.sent|).payload)
    requires server(|s.sent| + 1) == Body(grant) && !Expired(grant) && GrantedPair(grant).Some?
    ensures var shaped := Shape(cfg, s.store.tokens, verb, endpoint, args);
      var s1 := s.(sent := s.sent + [shaped.request]);
      var refreshed := RefreshToken(mode, cfg, s1, server, RefreshOf(shaped.token), fuel - 1);
      var r := Ecobee(mode, cfg, s, server, verb, endpoint, args, auto, fuel);
      && refreshed.result == Ok(grant)
      && |refreshed.session.sent| == |s.sent| + 2
      && refreshed.session.store.tokens == s.store.tokens + [GrantedPair(grant).value]
      && r == Ecobee(mode, cfg, refreshed.session, server, verb, RetryEndpoint(mode, endpoint), WithClientId(cfg, args), false, fuel - 1)
      && |r.session.sent| >= |s.sent| + 3
      && r.session.sent[|s.sent| + 2]
         == Shape(cfg, s.store.tokens + [GrantedPair(grant).value], verb, RetryEndpoint(mode, endpoint), WithClientId(cfg, args)).request
  {
    var shaped := Shape(cfg, s.store.tokens, verb, endpoint, args);
    var s1 := s.(sent := s.sent + [shaped.request]);
    var args2 := RefreshArgs(RefreshOf(shaped.token));
    PassThrough(mode, cfg, s1, server, POST, "token", args2, true, fuel - 1, grant);
    var call := Ecobee(mode, cfg, s1, server, POST, "token", args2, true, fuel - 1);
    assert |call.session.sent| == |s.sent| + 2;
  }

  /** A call whose expired replies do not trigger a refresh sends one
      request, writes no token and settles. */
  lemma IntendedWithoutRefresh(cfg: Config, s: Session, server: Server,
                               verb: Method, endpoint: string, args: Args, auto: bool, fuel: nat)
    requires fuel >= 1
    requires !RefreshesOn(Intended, endpoint, auto)
    ensures var r := Ecobee(Intended, cfg, s, server, verb, endpoint, args, auto, fuel);
      && |r.session.sent| == |s.sent| + 1
      && r.session.store == s.store
      && r.result != Err(OutOfFuel)
  {
  }

  /** The intended machine keeps the promise of the comment at lines
      121-123: with fuel for two levels it always settles, after at most
      three requests (call, refresh, retry) and at most one new token row. */
  lemma IntendedSettles(cfg: Config, s: Session, server: Server,
                        verb: Method, endpoint: string, args: Args, auto: bool, fuel: nat)
    requires fuel >= 2
    ensures var r := Ecobee(Intended, cfg, s, server, verb, endpoint, args, auto, fuel);
      && r.result != Err(OutOfFuel)
      && |r.session.sent| <= |s.sent| + 3
      && |r.session.store.tokens| <= |s.store.tokens| + 1
  {
    var reply := server(|s.sent|);
    if reply.Body? && Expired(reply.payload) && RefreshesOn(Intended, endpoint, auto) {
      var shaped := Shape(cfg, s.store.tokens, verb, endpoint, args);
      var s1 := s.(sent := s.sent + [shaped.request]);
      var args2 := RefreshArgs(RefreshOf(shaped.token));
      IntendedWithoutRefresh(cfg, s1, server, POST, "token", args2, true, fuel - 1);
      var call := Ecobee(Intended, cfg, s1, server, POST, "token", args2, true, fuel - 1);
      var refreshed := RecordGrant(call);
      assert |refreshed.session.store.tokens| <= |s.store.tokens| + 1;
      if refreshed.result.Ok? {
        IntendedWithoutRefresh(cfg, refreshed.session, server, verb, RetryEndpoint(Intended, endpoint), WithClientId(cfg, args), false, fuel - 1);
      }
    }
  }

  /** Against a service that always answers code 14, the intended
      machine sends exactly the call and one refresh, then fails with
      "Could not grant token" and writes nothing. */
  lemma IntendedAlwaysExpiredFailsOnce(cfg: Config, s: Session,
                                       verb: Method, endpoint: string, args: Args, fuel: nat)
    requires fuel >= 2
    requires !IsAuthEndpoint(endpoint)
    ensures var r := Ecobee(Intended, cfg, s, (k: nat) => Body(ExpiredReply), verb, endpoint, args, true, fuel);
      && r.result == Err(CouldNotGrantToken)
      && |r.session.sent| == |s.sent| + 2
      && r.session.store == s.store
  {
    var server: Server := (k: nat) => Body(ExpiredReply);
    assert Expired(ExpiredReply);
    assert GrantedPair(ExpiredReply).None?;
    var shaped := Shape(cfg, s.store.tokens, verb, endpoint, args);
    var s1 := s.(sent := s.sent + [shaped.request]);
    var args2 := RefreshArgs(RefreshOf(shaped.token));
    PassThrough(Intended, cfg, s1, server, POST, "token", args2, true, fuel - 1, ExpiredReply);
  }

  /** `grant_token` with a reply holding both tokens appends exactly that
      pair; with a reply missing either it fails and the log is kept. */
  lemma GrantTokenAppendsOne(mode: Mode, cfg: Config, s: Session, server: Server, code: string, fuel: nat, reply: Json)
    requires fuel >= 1
    requires server(|s.sent|) == Body(reply) && !Expired(reply)
    ensures var r := GrantToken(mode, cfg, s, server, code, fuel);
      && (GrantedPair(reply).Some? ==> r.result == Ok(reply) && r.session.store.tokens == s.store.tokens + [GrantedPair(reply).value])
      && (GrantedPair(reply).None? ==> r.result == Err(CouldNotGrantToken) && r.session.store.tokens == s.store.tokens)
  {
    var args := map["grant_type" := Plain("ecobeePin"), "code" := Plain(code)];
    PassThrough(mode, cfg, s, server, POST, "token", args, true, fuel, reply);
  }
}
