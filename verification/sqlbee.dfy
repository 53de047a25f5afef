/** The public operations of class `sqlbee`, composed from the API
    machine and the table work, and the order `cron.php` runs them in.

    Every operation takes the session (tables plus the requests sent so
    far) and a `Context`: which reading of the code to run, the
    configuration, the replies the service gives, and the fuel each API
    call may spend. An exception becomes an `Err` that ends the
    operation, leaving the tables as they were at that point. */
module Sqlbee {
  import opened Results
  import opened Text
  import opened JsonValues
  import opened Tokens
  import opened Schema
  import opened Api
  import opened Summary
  import opened FullSync
  import opened RuntimeReport
  import opened Holds
  import SummaryFacts
  import RefreshFacts

  datatype Context = Context(mode: Mode, cfg: Config, server: Server, fuel: nat)

  /** `get_thermostat($id)`: the row with that surrogate id, deleted or
      not, with its facet columns decoded; an unknown id throws
      "Invalid sqlbee_thermostat_id". */
  function GetThermostat(s: Store, id: nat): (r: Result<Thermostat>)
    ensures r.Ok? <==> id in s.thermostats
    ensures r.Ok? ==> r.value == s.thermostats[id]
    ensures r.Err? ==> r.fault == InvalidThermostatId
  {
    if id in s.thermostats then Ok(s.thermostats[id]) else Err(InvalidThermostatId)
  }

  /** A thermostat the latest summary dropped can still be looked up. */
  lemma LookupSeesTombstoned(mode: Mode, s: Store, lines: seq<string>, id: nat)
    requires Valid(s) && id in s.thermostats
    ensures GetThermostat(Poll(mode, s, lines).store, id).Ok?
    ensures GetThermostat(Poll(mode, s, lines).store, id).value.identifier == s.thermostats[id].identifier
  {
    SummaryFacts.PollTombstones(mode, s, lines);
  }

  /** The arguments of the summary call: every registered thermostat. */
  const SummaryArgs: Args := map["body" := Document(JObj(map["selection" := Selection("")]))]

  /** `get_thermostat_summary()`. */
  function GetThermostatSummary(ctx: Context, s: Session): (r: Outcome<Changes>)
    ensures Valid(s.store) ==> Valid(r.session.store)
    ensures SentExtends(r.session, s) && NewRequestsCarryClientId(ctx.cfg, r.session, s)
    ensures Extends(r.session.store.tokens, s.store.tokens)
    ensures r.session.store.reports == s.store.reports
    ensures r.result.Err? ==> r.session.store == s.store.(tokens := r.session.store.tokens)
    ensures ctx.fuel > 0 ==>
      (|r.session.sent| > |s.sent|
       && r.session.sent[|s.sent|] == Shape(ctx.cfg, s.store.tokens, GET, "thermostatSummary", SummaryArgs).request)
  {
    var call := Ecobee(ctx.mode, ctx.cfg, s, ctx.server, GET, "thermostatSummary", SummaryArgs, true, ctx.fuel);
    match call.result
    case Err(e) => Outcome(call.session, Err(e))
    case Ok(reply) =>
      var p := Poll(ctx.mode, call.session.store, Lines(reply));
      SummaryFacts.PollPreservesValid(ctx.mode, call.session.store, Lines(reply));
      var r := Outcome(call.session.(store := p.store), Ok(p.changes));
      assert r.session.sent == call.session.sent;
      r
  }

  /** With a reply that needs no refresh, the summary call does exactly
      the poll of that reply's lines, after one request. */
  lemma SummaryPollsReply(ctx: Context, s: Session, j: Json)
    requires ctx.fuel > 0 && ctx.server(|s.sent|) == Body(j) && !Expired(j)
    ensures var r := GetThermostatSummary(ctx, s);
      && |r.session.sent| == |s.sent| + 1
      && r.session.store == Poll(ctx.mode, s.store, Lines(j)).store
      && r.result == Ok(Poll(ctx.mode, s.store, Lines(j)).changes)
  {
    RefreshFacts.PassThrough(ctx.mode, ctx.cfg, s, ctx.server, GET, "thermostatSummary", SummaryArgs, true, ctx.fuel, j);
  }

  /** A reply without `revisionList` (an error status, say) still runs
      the tombstone pass: every stored thermostat ends up deleted, none is
      added, and the result is empty. */
  lemma ErrorReplyTombstonesAll(ctx: Context, s: Session, j: Json)
    requires Valid(s.store)
    requires ctx.fuel > 0 && ctx.server(|s.sent|) == Body(j) && !Expired(j)
    requires !j.JObj? || "revisionList" !in j.fields
    ensures var r := GetThermostatSummary(ctx, s);
      && r.session.store.thermostats.Keys == s.store.thermostats.Keys
      && (forall id :: id in r.session.store.thermostats ==> r.session.store.thermostats[id] == s.store.thermostats[id].(deleted := true))
      && r.result == Ok(Changes([], map[]))
  {
    SummaryPollsReply(ctx, s, j);
    assert Lines(j) == [];
    assert Entries([]) == [];
  }

  /** The facet flags of the full-sync selection. */
  function IncludeFlag(f: Facet): (r: string)
    ensures |r| > 0 && r[0] == 'i'
  {
    match f
    case Runtime => "includeRuntime"
    case ExtendedRuntime => "includeExtendedRuntime"
    case Electricity => "includeElectricity"
    case Settings => "includeSettings"
    case Location => "includeLocation"
    case Program => "includeProgram"
    case Events => "includeEvents"
    case Device => "includeDevice"
    case Technician => "includeTechnician"
    case Utility => "includeUtility"
    case Management => "includeManagement"
    case Alerts => "includeAlerts"
    case Weather => "includeWeather"
    case HouseDetails => "includeHouseDetails"
    case OemCfg => "includeOemCfg"
    case EquipmentStatus => "includeEquipmentStatus"
    case NotificationSettings => "includeNotificationSettings"
    case Version => "includeVersion"
    case RemoteSensors => "includeSensors"
  }

  /** The selection of the full sync: every registered thermostat, with
      every facet flag set. */
  function SyncSelection(): Json {
    var flags := map f | f in AllFacets :: IncludeFlag(f) := JBool(true);
    JObj(flags + map["selectionType" := JStr("registered"), "selectionMatch" := JStr("")])
  }

  const SyncArgs: Args := map["body" := Document(JObj(map["selection" := SyncSelection()]))]

  /** The full-sync request asks for every facet the sync writes. */
  lemma SyncAsksForEveryFacet(f: Facet)
    ensures Get(SyncSelection(), IncludeFlag(f)) == JBool(true)
    ensures Get(SyncSelection(), "selectionType") == JStr("registered")
  {
    EveryFacetListed(f);
    var flags := map g | g in AllFacets :: IncludeFlag(g) := JBool(true);
    var tail := map["selectionType" := JStr("registered"), "selectionMatch" := JStr("")];
    assert SyncSelection().fields == flags + tail;
    assert "selectionType" in tail && (flags + tail)["selectionType"] == tail["selectionType"];
    assert IncludeFlag(f) in flags && flags[IncludeFlag(f)] == JBool(true);
    assert IncludeFlag(f) !in tail by {
      assert "selectionType"[0] == 's' && "selectionMatch"[0] == 's';
    }
  }

  /** `sync_thermostats()`. */
  function SyncThermostats(ctx: Context, s: Session): (r: Outcome<()>)
    ensures Valid(s.store) ==> Valid(r.session.store)
    ensures SentExtends(r.session, s) && NewRequestsCarryClientId(ctx.cfg, r.session, s)
    ensures Extends(r.session.store.tokens, s.store.tokens)
    ensures r.session.store.reports == s.store.reports
    ensures r.session.store.nextThermostatId == s.store.nextThermostatId
    ensures r.session.store.thermostats.Keys == s.store.thermostats.Keys
    ensures r.result.Err? ==> r.session.store == s.store.(tokens := r.session.store.tokens)
  {
    var call := Ecobee(ctx.mode, ctx.cfg, s, ctx.server, GET, "thermostat", SyncArgs, true, ctx.fuel);
    match call.result
    case Err(e) => Outcome(call.session, Err(e))
    case Ok(reply) =>
      SyncPreservesValid(call.session.store, reply);
      Outcome(call.session.(store := Sync(call.session.store, reply)), Ok(()))
  }

  /** With a reply that needs no refresh, the full sync writes exactly
      that reply's facets, after one request. */
  lemma SyncWritesReply(ctx: Context, s: Session, j: Json)
    requires ctx.fuel > 0 && ctx.server(|s.sent|) == Body(j) && !Expired(j)
    ensures var r := SyncThermostats(ctx, s);
      && |r.session.sent| == |s.sent| + 1
      && r.session.store == Sync(s.store, j)
      && r.result == Ok(())
  {
    RefreshFacts.PassThrough(ctx.mode, ctx.cfg, s, ctx.server, GET, "thermostat", SyncArgs, true, ctx.fuel, j);
  }

  /** `sync_runtime_report($id)` at time `now`. */
  function SyncRuntimeReport(ctx: Context, s: Session, id: nat, now: int, calendar: string -> int): (r: Outcome<()>)
    ensures Valid(s.store) ==> Valid(r.session.store)
    ensures SentExtends(r.session, s) && NewRequestsCarryClientId(ctx.cfg, r.session, s)
    ensures Extends(r.session.store.tokens, s.store.tokens)
    ensures r.session.store.thermostats == s.store.thermostats
    ensures r.session.store.nextThermostatId == s.store.nextThermostatId
    ensures id !in s.store.thermostats ==> r == Outcome(s, Err(InvalidThermostatId))
    ensures r.result.Err? ==> r.session.store == s.store.(tokens := r.session.store.tokens)
    ensures r.result.Ok? ==>
      |s.store.reports.order| <= |r.session.store.reports.order|
      && r.session.store.reports.order[..|s.store.reports.order|] == s.store.reports.order
  {
    match GetThermostat(s.store, id)
    case Err(e) => Outcome(s, Err(e))
    case Ok(row) =>
      var body := WindowBody(row.identifier, StartTime(s.store.reports, now), now);
      var call := Ecobee(ctx.mode, ctx.cfg, s, ctx.server, GET, "runtimeReport", map["body" := Document(body)], true, ctx.fuel);
      match call.result
      case Err(e) => Outcome(call.session, Err(e))
      case Ok(reply) => StoreReport(call.session, id, reply, calendar)
  }

  /** The insert of lines 485-505 for one report reply: only the report
      table changes, and its older rows keep their places. */
  function StoreReport(s: Session, id: nat, reply: Json, calendar: string -> int): (r: Outcome<()>)
    ensures r.session.sent == s.sent
    ensures r.session.store == s.store.(reports := r.session.store.reports)
    ensures Valid(s.store) ==> Valid(r.session.store)
    ensures r.result.Err? ==> r.session == s
    ensures r.result.Ok? ==>
      |s.store.reports.order| <= |r.session.store.reports.order|
      && r.session.store.reports.order[..|s.store.reports.order|] == s.store.reports.order
  {
    var rows := ParseRows(id, RowTexts(reply), calendar);
    match Insert(s.store.reports, rows)
    case Err(e) => Outcome(s, Err(e))
    case Ok(t) =>
      UpsertAllKeepsOlderOrder(s.store.reports, rows);
      Outcome(s.(store := s.store.(reports := t)), Ok(()))
  }

  /** The report call asks for the window from two hours before the
      newest stored report row up to now, for the thermostat's
      identifier. */
  lemma ReportWindow(ctx: Context, s: Session, id: nat, now: int, calendar: string -> int)
    requires ctx.fuel > 0 && id in s.store.thermostats
    ensures var r := SyncRuntimeReport(ctx, s, id, now, calendar);
      var body := WindowBody(s.store.thermostats[id].identifier, StartTime(s.store.reports, now), now);
      && |r.session.sent| > |s.sent|
      && r.session.sent[|s.sent|] == Shape(ctx.cfg, s.store.tokens, GET, "runtimeReport", map["body" := Document(body)]).request
      && Get(body, "endDate") == JNum(now / 86400) && Get(body, "endInterval") == JNum(IntervalIndex(now))
  {
  }

  /** With a reply that needs no refresh, the report rows are upserted
      under the thermostat when every row has one value per column, and
      the call fails leaving the report table alone otherwise (no rows,
      or a row of the wrong width). */
  lemma ReportUpsertsReply(ctx: Context, s: Session, id: nat, now: int, calendar: string -> int, j: Json)
    requires ctx.fuel > 0 && id in s.store.thermostats
    requires ctx.server(|s.sent|) == Body(j) && !Expired(j)
    ensures var r := SyncRuntimeReport(ctx, s, id, now, calendar);
      var rows := ParseRows(id, RowTexts(j), calendar);
      && (r.result.Ok? <==> |rows| > 0 && forall i :: 0 <= i < |rows| ==> |rows[i].values| == MetricCount)
      && (r.result.Ok? ==> r.session.store == s.store.(reports := UpsertAll(s.store.reports, rows)))
      && (r.result.Err? ==> r.result.fault == QueryFailed && r.session.store == s.store)
  {
    var body := WindowBody(s.store.thermostats[id].identifier, StartTime(s.store.reports, now), now);
    RefreshFacts.PassThrough(ctx.mode, ctx.cfg, s, ctx.server, GET, "runtimeReport", map["body" := Document(body)], true, ctx.fuel, j);
  }

  /** `set_temperatures($id, $cool, $heat)`: an indefinite hold, then a
      full sync. The reply of the hold call is not inspected. */
  function SetTemperatures(ctx: Context, s: Session, id: nat, cool: Option<int>, heat: Option<int>): (r: Outcome<()>)
    ensures Valid(s.store) ==> Valid(r.session.store)
    ensures SentExtends(r.session, s) && NewRequestsCarryClientId(ctx.cfg, r.session, s)
    ensures Extends(r.session.store.tokens, s.store.tokens)
    ensures r.session.store.reports == s.store.reports
    ensures r.session.store.thermostats.Keys == s.store.thermostats.Keys
    ensures id !in s.store.thermostats ==> r == Outcome(s, Err(InvalidThermostatId))
    ensures id in s.store.thermostats && ctx.fuel > 0 ==>
      var hold := Choose(s.store.thermostats[id], cool, heat);
      |r.session.sent| > |s.sent| &&
      r.session.sent[|s.sent|] == Shape(ctx.cfg, s.store.tokens, POST, "thermostat",
        CommandArgs(SetHoldBody(s.store.thermostats[id].identifier, hold))).request
  {
    match GetThermostat(s.store, id)
    case Err(e) => Outcome(s, Err(e))
    case Ok(row) =>
      var body := SetHoldBody(row.identifier, Choose(row, cool, heat));
      var call := Ecobee(ctx.mode, ctx.cfg, s, ctx.server, POST, "thermostat", CommandArgs(body), true, ctx.fuel);
      match call.result
      case Err(e) => Outcome(call.session, Err(e))
      case Ok(_) =>
        var r := SyncThermostats(ctx, call.session);
        assert r.session.sent[|s.sent|] == r.session.sent[..|call.session.sent|][|s.sent|];
        Chain(ctx.cfg, s, call.session, r.session);
        r
  }

  /** With a reply that needs no refresh, `set_temperatures` is the
      `setHold` POST followed by exactly a full sync. */
  lemma HoldThenSyncs(ctx: Context, s: Session, id: nat, cool: Option<int>, heat: Option<int>, j: Json)
    requires ctx.fuel > 0 && id in s.store.thermostats
    requires ctx.server(|s.sent|) == Body(j) && !Expired(j)
    ensures var row := s.store.thermostats[id];
      var hold := Shape(ctx.cfg, s.store.tokens, POST, "thermostat",
        CommandArgs(SetHoldBody(row.identifier, Choose(row, cool, heat)))).request;
      SetTemperatures(ctx, s, id, cool, heat) == SyncThermostats(ctx, s.(sent := s.sent + [hold]))
  {
    var row := s.store.thermostats[id];
    RefreshFacts.PassThrough(ctx.mode, ctx.cfg, s, ctx.server, POST, "thermostat",
      CommandArgs(SetHoldBody(row.identifier, Choose(row, cool, heat))), true, ctx.fuel, j);
  }

  /** The arguments `set_cool_temperature` and `set_heat_temperature`
      read: a missing member reads as null. */
  datatype HoldArguments = HoldArguments(thermostatId: Option<nat>, temperature: Option<int>)

  /** The id a lookup uses: a missing id is spliced in as the empty
      string, which MySQL compares as 0. */
  function IdOf(a: HoldArguments): nat {
    a.thermostatId.GetOr(0)
  }

  /** `set_cool_temperature($arguments)`: hold at the given cool setpoint,
      keeping the current heat setpoint. */
  function SetCoolTemperature(ctx: Context, s: Session, a: HoldArguments): (r: Outcome<()>)
    ensures IdOf(a) in s.store.thermostats && ctx.fuel > 0 ==>
      var row := s.store.thermostats[IdOf(a)];
      |r.session.sent| > |s.sent| &&
      r.session.sent[|s.sent|] == Shape(ctx.cfg, s.store.tokens, POST, "thermostat",
        CommandArgs(SetHoldBody(row.identifier, Hold(a.temperature.GetOr(Desired(row, "desiredCool")), Desired(row, "desiredHeat"))))).request
    ensures IdOf(a) !in s.store.thermostats ==> r == Outcome(s, Err(InvalidThermostatId))
  {
    SetTemperatures(ctx, s, IdOf(a), a.temperature, None)
  }

  /** `set_heat_temperature($arguments)`: hold at the given heat
      setpoint, keeping the current cool setpoint. */
  function SetHeatTemperature(ctx: Context, s: Session, a: HoldArguments): (r: Outcome<()>)
    ensures IdOf(a) in s.store.thermostats && ctx.fuel > 0 ==>
      var row := s.store.thermostats[IdOf(a)];
      |r.session.sent| > |s.sent| &&
      r.session.sent[|s.sent|] == Shape(ctx.cfg, s.store.tokens, POST, "thermostat",
        CommandArgs(SetHoldBody(row.identifier, Hold(Desired(row, "desiredCool"), a.temperature.GetOr(Desired(row, "desiredHeat")))))).request
    ensures IdOf(a) !in s.store.thermostats ==> r == Outcome(s, Err(InvalidThermostatId))
  {
    SetTemperatures(ctx, s, IdOf(a), None, a.temperature)
  }

  /** `resume_schedule($id)`: resume the program, then a full sync. */
  function ResumeSchedule(ctx: Context, s: Session, id: nat): (r: Outcome<()>)
    ensures Valid(s.store) ==> Valid(r.session.store)
    ensures SentExtends(r.session, s) && NewRequestsCarryClientId(ctx.cfg, r.session, s)
    ensures Extends(r.session.store.tokens, s.store.tokens)
    ensures r.session.store.reports == s.store.reports
    ensures id !in s.store.thermostats ==> r == Outcome(s, Err(InvalidThermostatId))
    ensures id in s.store.thermostats && ctx.fuel > 0 ==>
      |r.session.sent| > |s.sent| &&
      r.session.sent[|s.sent|] == Shape(ctx.cfg, s.store.tokens, POST, "thermostat",
        CommandArgs(ResumeBody(s.store.thermostats[id].identifier))).request
  {
    match GetThermostat(s.store, id)
    case Err(e) => Outcome(s, Err(e))
    case Ok(row) =>
      var call := Ecobee(ctx.mode, ctx.cfg, s, ctx.server, POST, "thermostat", CommandArgs(ResumeBody(row.identifier)), true, ctx.fuel);
      match call.result
      case Err(e) => Outcome(call.session, Err(e))
      case Ok(_) =>
        var r := SyncThermostats(ctx, call.session);
        assert r.session.sent[|s.sent|] == r.session.sent[..|call.session.sent|][|s.sent|];
        Chain(ctx.cfg, s, call.session, r.session);
        r
  }

  /** With a reply that needs no refresh, `resume_schedule` is the
      `resumeProgram` POST followed by exactly a full sync. */
  lemma ResumeThenSyncs(ctx: Context, s: Session, id: nat, j: Json)
    requires ctx.fuel > 0 && id in s.store.thermostats
    requires ctx.server(|s.sent|) == Body(j) && !Expired(j)
    ensures var resume := Shape(ctx.cfg, s.store.tokens, POST, "thermostat",
        CommandArgs(ResumeBody(s.store.thermostats[id].identifier))).request;
      ResumeSchedule(ctx, s, id) == SyncThermostats(ctx, s.(sent := s.sent + [resume]))
  {
    RefreshFacts.PassThrough(ctx.mode, ctx.cfg, s, ctx.server, POST, "thermostat",
      CommandArgs(ResumeBody(s.store.thermostats[id].identifier)), true, ctx.fuel, j);
  }

  /** The report loop of `cron.php`: one report per id, in order, the
      first failure ending the run. */
  function Reports(ctx: Context, s: Session, ids: seq<nat>, now: int, calendar: string -> int): (r: Outcome<()>)
    ensures Valid(s.store) ==> Valid(r.session.store)
    ensures SentExtends(r.session, s) && NewRequestsCarryClientId(ctx.cfg, r.session, s)
    ensures Extends(r.session.store.tokens, s.store.tokens)
    ensures r.session.store.thermostats == s.store.thermostats
    ensures r.session.store.nextThermostatId == s.store.nextThermostatId
    decreases |ids|
  {
    if |ids| == 0 then Outcome(s, Ok(()))
    else
      var first := SyncRuntimeReport(ctx, s, ids[0], now, calendar);
      if first.result.Err? then first
      else
        var r := Reports(ctx, first.session, ids[1..], now, calendar);
        Chain(ctx.cfg, s, first.session, r.session);
        r
  }

  /** One run of `cron.php`: the summary poll, then the full sync
      whatever the poll reported, then a runtime report for every
      thermostat the poll listed, in the order the poll first met them,
      whether or not any of its revisions changed. */
  function Run(ctx: Context, s: Session, now: int, calendar: string -> int): (r: Outcome<()>)
    ensures Valid(s.store) ==> Valid(r.session.store)
    ensures SentExtends(r.session, s) && NewRequestsCarryClientId(ctx.cfg, r.session, s)
    ensures Extends(r.session.store.tokens, s.store.tokens)
  {
    var polled := GetThermostatSummary(ctx, s);
    match polled.result
    case Err(e) => Outcome(polled.session, Err(e))
    case Ok(changes) =>
      var synced := SyncThermostats(ctx, polled.session);
      match synced.result
      case Err(e) =>
        Chain(ctx.cfg, s, polled.session, synced.session);
        Outcome(synced.session, Err(e))
      case Ok(_) =>
        var r := Reports(ctx, synced.session, changes.ids, now, calendar);
        Chain(ctx.cfg, s, polled.session, synced.session);
        Chain(ctx.cfg, s, synced.session, r.session);
        r
  }

  /** Composing two legs of a run keeps the request log and the token
      log growing and every new request carrying the client id. */
  lemma Chain(cfg: Config, a: Session, b: Session, c: Session)
    requires SentExtends(b, a) && NewRequestsCarryClientId(cfg, b, a) && Extends(b.store.tokens, a.store.tokens)
    requires SentExtends(c, b) && NewRequestsCarryClientId(cfg, c, b) && Extends(c.store.tokens, b.store.tokens)
    ensures SentExtends(c, a) && NewRequestsCarryClientId(cfg, c, a) && Extends(c.store.tokens, a.store.tokens)
  {
    assert c.sent[..|a.sent|] == c.sent[..|b.sent|][..|a.sent|];
    forall i | |a.sent| <= i < |c.sent| ensures CarriesClientId(cfg, c.sent[i]) {
      if i < |b.sent| {
        assert c.sent[i] == c.sent[..|b.sent|][i];
      }
    }
    ExtendsTransitive(a.store.tokens, b.store.tokens, c.store.tokens);
  }
}
