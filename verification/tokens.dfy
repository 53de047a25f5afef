/** The `sqlbee_token` table: an append-only log of access/refresh token
    pairs. Rows are never updated or deleted; the row with the highest
    id, which is the last one appended, is the authoritative pair. */
module Tokens {
  import opened Results
  import opened JsonValues

  datatype TokenPair = TokenPair(access: string, refresh: string)

  type TokenLog = seq<TokenPair>

  /** The row `select * ... order by sqlbee_token_id desc limit 1`
      returns: the pair appended last, if any. */
  function Latest(log: TokenLog): (r: Option<TokenPair>)
    ensures r.None? <==> |log| == 0
    ensures r.Some? ==> r.value == log[|log| - 1]
  {
    if |log| == 0 then None else Some(log[|log| - 1])
  }

  /** The pair a token reply carries, when it sets both fields. */
  function GrantedPair(reply: Json): (r: Option<TokenPair>)
    ensures r.Some? <==> IsSet(reply, "access_token") && IsSet(reply, "refresh_token")
    ensures r.Some? ==> r.value == TokenPair(AsText(Get(reply, "access_token")), AsText(Get(reply, "refresh_token")))
  {
    if IsSet(reply, "access_token") && IsSet(reply, "refresh_token") then
      Some(TokenPair(AsText(Get(reply, "access_token")), AsText(Get(reply, "refresh_token"))))
    else None
  }

  /** The bookkeeping `grant_token` and `refresh_token` do with a token
      reply: append exactly one row holding both tokens, or fail with
      "Could not grant token" and leave the log as it was. */
  function Record(log: TokenLog, reply: Json): (r: Result<TokenLog>)
    ensures r.Ok? <==> GrantedPair(reply).Some?
    ensures r.Ok? ==> |r.value| == |log| + 1 && r.value[..|log|] == log
    ensures r.Ok? ==> Latest(r.value) == GrantedPair(reply)
    ensures r.Err? ==> r.fault == CouldNotGrantToken
  {
    match GrantedPair(reply)
    case None => Err(CouldNotGrantToken)
    case Some(p) =>
      assert (log + [p])[..|log|] == log;
      Ok(log + [p])
  }

  /** Whatever happens to the log between two points of a run, the later
      log extends the earlier one. */
  predicate Extends(later: TokenLog, earlier: TokenLog) {
    |earlier| <= |later| && later[..|earlier|] == earlier
  }

  lemma ExtendsTransitive(a: TokenLog, b: TokenLog, c: TokenLog)
    requires Extends(b, a) && Extends(c, b)
    ensures Extends(c, a)
  {
    assert c[..|a|] == c[..|b|][..|a|];
  }
}
