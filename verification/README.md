# sqlbee, modelled in Dafny

sqlbee copies the state of ecobee thermostats into three MySQL tables, through
the ecobee REST API. This project models the class `sqlbee` as pure functions
over immutable values and proves what its operations do to those tables. The
class lives in `sqlbee.php`; the project also models the run order of
`cron.php`.

The modelled parts:

- **The API machine.** This is `ecobee()`: request shaping, `client_id`,
  the `/` or `/1/` path, the bearer header, and query string versus body.
  It also covers the expired-token (status 14) refresh and retry.
  `authorize()`, `grant_token()` and `refresh_token()` sit on top of it.
  The service is a parameter: the reply to the k-th request of the run.
  Every call gets a fuel bound on its nesting of refreshes and retries.
- **The token log.** `sqlbee_token` is an append-only sequence. The newest
  row is the one in use.
- **The revision tracker.** `get_thermostat_summary()` parses the summary
  lines, then runs the tombstone pass. It then inserts or updates each listed
  thermostat and reports its changed revisions, keyed by surrogate id.
- **The full sync.** `sync_thermostats()` overwrites the nineteen `json_*`
  facet columns, matched by identifier. It normalises the equipment status.
- **The runtime report.** `sync_runtime_report()` works out the report
  window, parses the wire rows, and does the `on duplicate key update`
  upsert into `sqlbee_runtime_report`.
- **The commands.** These are `set_temperatures()`, `set_cool_temperature()`,
  `set_heat_temperature()`, `resume_schedule()` and `get_thermostat()`.
- **The cron run.** Summary, then the full sync, then one report per
  thermostat the summary listed.

The machine exists in two readings, `Mode.AsWritten` and `Mode.Intended`.
They differ in exactly the three places listed under Findings. Every
operation takes the mode as a parameter. The corrected reading is
`Intended`; `AsWritten` is the code as it stands.

Files:

- `results.dfy`: `Option`, `Result`, the faults and the mode.
- `text.dfy`: `explode`, `implode`, `trim` and `substr`.
- `json.dfy`: decoded JSON values and PHP's string cast.
- `tokens.dfy`: the token log.
- `schema.dfy`: the tables and the store invariant.
- `api.dfy`: `ecobee()` and the token calls.
- `api_facts.dfy`: refresh and retry properties.
- `summary.dfy` and `summary_facts.dfy`: the revision tracker.
- `full_sync.dfy`: the full sync.
- `runtime_report.dfy`: the runtime report.
- `holds.dfy`: the command bodies.
- `sqlbee.dfy`: the composed operations and the cron run.

## Model

| member | source | states |
|---|---|---|
| Text.Split | sqlbee.php:259 | `explode` always yields at least one piece, no piece holds the delimiter, and the pieces joined by it give the input back |
| Text.SplitJoin | sqlbee.php:259 | exploding the join of delimiter-free pieces gives back exactly those pieces |
| Text.Trim | sqlbee.php:488 | `trim` yields an infix of the input, cut only at whitespace, that neither starts nor ends with whitespace |
| Text.TrimBlank | sqlbee.php:370 | a string trims to empty exactly when it is all whitespace |
| Tokens.Record | sqlbee.php:175-189 | a granting reply appends exactly one row, which becomes the row in use, and keeps the older rows; a reply missing either token fails with "Could not grant token" |
| Schema.FindByIdentifier | sqlbee.php:271-272 | the lookup by identifier returns a row with that identifier, and, under the store invariant (every id below the counter), returns none exactly when no row has it |
| Schema.FindUnique | sqlbee.php:271-272 | with unique identifiers, the lookup of a row's identifier finds that very row |
| Api.Shape | sqlbee.php:52-80 | `authorize` and `token` go to `/`+endpoint with no header; every other endpoint goes to `/1/`+endpoint with a bearer header from the newest token row; GET puts the arguments, with `client_id`, in the query string and POST in the body |
| Api.RetryEndpoint | sqlbee.php:126 | as written, the retry is routed to `/1/` in front of the already-routed path; in the intended reading, to the original path |
| Api.Ecobee | sqlbee.php:46-131 | every call sends its shaped request first, then only requests carrying the client id; it changes no table but the token log, which only grows; with no fuel it sends nothing |
| Api.RecordGrant | sqlbee.php:175-189 | after the token call, the reply's pair is appended when both tokens are set, and the call fails with the log unchanged otherwise |
| Api.RefreshToken | sqlbee.php:202-222 | `refresh_token` first POSTs to `/token` with `grant_type=refresh_token` and the given refresh token; the log only grows |
| Api.GrantToken | sqlbee.php:165-192 | `grant_token` changes no table but the token log, which only grows |
| Api.Authorize | sqlbee.php:141-150 | `authorize` first sends a GET to `/authorize` carrying `response_type=ecobeePin`, the configured `scope` and the client id; the log only grows |
| Api.CallFrameTransitive | sqlbee.php:124-126 | two API calls in a row together still only send requests that carry the client id, and only grow the token log |
| RefreshFacts.PassThrough | sqlbee.php:121-130 | a reply that does not report code 14, including one with any other status code, is returned unchanged after one request, and no token row is written |
| RefreshFacts.ExpiredRefreshesWithRowToken | sqlbee.php:121-125 | a code-14 reply makes the next request a header-less POST to `/token` that carries the refresh token of the row read for the call |
| RefreshFacts.AsWrittenNeverSettles | sqlbee.php:121-127 | as written, a service that always answers code 14 makes the call spend all its fuel, one request per unit, and never settle, whatever the auto-refresh flag says |
| RefreshFacts.RefreshNeverSettles | sqlbee.php:202-210 | as written, the refresh call itself also never settles against such a service |
| RefreshFacts.AsWrittenRetryDoublesPrefix | sqlbee.php:126 | as written, the retry after a successful refresh goes to `/1//1/`+endpoint, with the bearer of the new token row |
| RefreshFacts.DoublePrefix | sqlbee.php:54-55 | routing an already-routed endpoint prefixes `/1/` a second time |
| RefreshFacts.RetryAfterGrant | sqlbee.php:124-126 | after a code-14 reply and a granting refresh, the new pair is logged and the third request is the retry, shaped with the new log |
| RefreshFacts.IntendedRetryRepeatsCall | sqlbee.php:121-126 | in the intended reading, the retry repeats the original URL with the new token, and its reply is final even if it reports code 14 again |
| RefreshFacts.IntendedWithoutRefresh | sqlbee.php:124 | in the intended reading, a call whose code-14 reply may not trigger a refresh (the flag is off, or the endpoint is `token`) sends one request and writes nothing |
| RefreshFacts.IntendedSettles | sqlbee.php:121-123 | in the intended reading, every call settles after at most three requests and at most one new token row |
| RefreshFacts.IntendedAlwaysExpiredFailsOnce | sqlbee.php:121-127 | in the intended reading, a service that always answers code 14 costs exactly the call and one refresh, then fails with "Could not grant token" |
| RefreshFacts.GrantTokenAppendsOne | sqlbee.php:165-191 | `grant_token` appends exactly the granted pair, or fails and keeps the log |
| Summary.ParseEntry | sqlbee.php:259-268 | field 0 of a summary line is the identifier and field 1 the name; `connected` holds exactly when field 2 is `true`; fields 3 to 6 are the thermostat, alert, runtime and internal revisions; a missing field reads as empty |
| Summary.ParseFormat | sqlbee.php:259-268 | parsing the line the service sends for an entry gives back the entry, fields 3 to 6 being the four revisions |
| Summary.Note | sqlbee.php:317 | recording a thermostat's changes sets its entry to the new diff, keeps every other entry, and keeps every reported id listed exactly once |
| Summary.Step | sqlbee.php:256-318 | one listed thermostat ends with exactly the values of its line, keeping its surrogate id or taking the next one; other rows are untouched; identifiers stay unique |
| Summary.Process | sqlbee.php:256-318 | the loop never lowers the id counter; started with every id below the counter, it keeps them so and keeps every existing row under its id with its identifier |
| Summary.Poll | sqlbee.php:250-318 | a poll leaves the token log and the report table alone and never lowers the id counter |
| SummaryFacts.LastWithListed | sqlbee.php:256 | an identifier has a last line exactly when some line lists it |
| SummaryFacts.ProcessFrame | sqlbee.php:256-318 | the loop keeps every surrogate id with its identifier and facets; rows of unlisted identifiers are untouched; every listed row holds the values of the last line for it |
| SummaryFacts.ProcessChangeKeys | sqlbee.php:317 | the loop reports exactly one entry for each listed thermostat, empty or not |
| SummaryFacts.ProcessChangeValues | sqlbee.php:316-317 | with distinct identifiers, each thermostat's entry is the diff against the row the tombstone pass left, or all four revisions for a new thermostat |
| SummaryFacts.PollTombstones | sqlbee.php:250-314 | after a poll a row is marked deleted exactly when the reply did not list it; old rows keep their id, identifier and facets; every listed identifier has a row |
| SummaryFacts.DeletedIffUnlisted | sqlbee.php:250-314 | on a table the tombstone pass left, the loop leaves a row deleted exactly when no summary line lists its identifier |
| SummaryFacts.PollPreservesValid | sqlbee.php:250-318 | a poll keeps the store invariant |
| SummaryFacts.PollOverwritesListed | sqlbee.php:300-312 | listed rows take name, connected flag and revisions from their last line; an unlisted row only gets its deleted flag set |
| SummaryFacts.PollReports | sqlbee.php:316-323 | the poll's result has one entry per listed thermostat, keyed by surrogate id; for a reply that lists each identifier once, each entry holds the expected changed revisions |
| SummaryFacts.FirstSightReportsAll | sqlbee.php:275-276 | for a reply that lists each identifier once, a thermostat seen for the first time reports all four revisions |
| SummaryFacts.SameRevisionsReportNothing | sqlbee.php:316-317 | for a reply that lists each identifier once, an existing thermostat whose four revisions equal the stored ones reports the empty set, in both readings |
| SummaryFacts.SecondPollIsQuiet | sqlbee.php:234-323 | for a reply that lists each identifier once, polling it twice makes the second poll report empty sets only |
| SummaryFacts.ReportedTwiceWasStored | sqlbee.php:270-314 | a thermostat the second of two polls reports on already had its row, under the same id, after the first |
| SummaryFacts.QuietAt | sqlbee.php:316-317 | on a repeated reply that lists each identifier once, each thermostat's second report is empty |
| SummaryFacts.LastOfDistinct | sqlbee.php:256 | with distinct identifiers, the last line for an identifier is its only line |
| SummaryFacts.TombstoneRoundTrip | sqlbee.php:250-312 | a thermostat absent from one poll is marked deleted under its id, and un-marked under the same id when it reappears |
| SummaryFacts.AsWrittenMasksRevisionOne | sqlbee.php:316 | as written, a revision whose new value is `1` is never reported against a row the tombstone pass has just marked deleted, which is every known thermostat for a reply that lists each identifier once |
| SummaryFacts.CoincidingRevisionMissed | sqlbee.php:316 | a moved alert revision that equals the stored runtime revision is missed as written, and reported in the intended reading |
| SummaryFacts.KnownReport | sqlbee.php:270-317 | for a reply that lists each identifier once, a stored thermostat's entry is the diff of its line against its row with the deleted flag set |
| SummaryFacts.IntendedReportsEveryMove | sqlbee.php:316-317 | in the intended reading, for a reply that lists each identifier once, a poll reports a revision of a stored thermostat exactly when its new value differs from the value stored before the poll |
| SummaryFacts.PollMissesCoincidingRevision | sqlbee.php:250-317 | a poll of the stored row A, B, C, D with a line moving the alert revision to C reports nothing as written and the alert revision with value C in the intended reading |
| FullSync.Equipment | sqlbee.php:370 | a blank equipment status becomes the empty list; otherwise it becomes the untrimmed pieces between commas |
| FullSync.EquipmentRoundTrip | sqlbee.php:370 | the stored equipment list joined with commas gives back a status that was not blank |
| FullSync.SyncAll | sqlbee.php:367-401 | the loop over the thermostat list keeps every surrogate id and changes no column but the facet columns |
| FullSync.SyncAllIsLastWins | sqlbee.php:367-400 | after the sync, each row holds the facets of the last object for its identifier, or is unchanged when no object names it |
| FullSync.SyncKeepsSummaryColumns | sqlbee.php:376-397 | the sync changes no column but the facet columns |
| FullSync.SyncedRowReadsObject | sqlbee.php:376-397 | each facet of a matched row reads back the member of the last object for it |
| FullSync.SyncIdempotent | sqlbee.php:367-400 | syncing twice with the same reply leaves what syncing once left |
| FullSync.Sync | sqlbee.php:367 | the sync touches only the thermostat table |
| FullSync.SyncPreservesValid | sqlbee.php:367-400 | the sync keeps the store invariant |
| RuntimeReport.IntervalIndex | sqlbee.php:458 | the interval is the five-minute mark nearest the minute of the day, from 0 to 288 |
| RuntimeReport.LateMinutesReachMidnightMark | sqlbee.php:463 | 23:57 falls in interval 287 and 23:58 in interval 288 |
| RuntimeReport.IntervalMonotone | sqlbee.php:458 | within one day the interval never goes backwards |
| RuntimeReport.WindowBody | sqlbee.php:465-481 | the report request selects the thermostat by identifier and carries the start and end day and interval and the column list |
| RuntimeReport.ParseFormatRow | sqlbee.php:485-496 | parsing the wire text of a row gives back its key and its values |
| RuntimeReport.Upsert | sqlbee.php:500-504 | a new key is inserted at the end of the insertion order; a known key gets every column overwritten and keeps its place |
| RuntimeReport.UpsertAll | sqlbee.php:500-504 | the statement keeps every stored key, stores every row's key, and, when the insertion order listed each stored key exactly once, it still does |
| RuntimeReport.LastFor | sqlbee.php:485-504 | a key has a last row exactly when some row of the statement names it |
| RuntimeReport.UpsertAllIsLastWriteWins | sqlbee.php:500-504 | after the statement each key holds its last row's values, and keys no row names keep theirs |
| RuntimeReport.KnownKeysKeepOrder | sqlbee.php:500-504 | rows whose keys are all stored leave the insertion order unchanged |
| RuntimeReport.UpsertIdempotent | sqlbee.php:500-504 | applying the same rows twice leaves what applying them once left |
| RuntimeReport.UpsertAgainKeepsRows | sqlbee.php:500-504 | applying the same rows a second time leaves every stored key with the values the first application left |
| RuntimeReport.UpsertAllKeepsOlderOrder | sqlbee.php:500-504 | stored keys keep their places, and every key added after them is new and named by some row |
| RuntimeReport.ReportRowsBelongToThermostat | sqlbee.php:493 | every row the statement adds is filed under the thermostat the report was fetched for |
| RuntimeReport.NewLastRowSetsStart | sqlbee.php:447-455 | when a statement's last row is a new key, the next window starts two hours before that row's timestamp, since it is the newest inserted row |
| RuntimeReport.RefetchKeepsStart | sqlbee.php:447-455 | re-fetching rows that are already stored does not move the start of the next window |
| Holds.SetHoldReadsBack | sqlbee.php:565-584 | the hold body reads back as one indefinite `setHold` at exactly the chosen setpoints, aimed at the thermostat |
| Holds.ResumeReadsBack | sqlbee.php:595-611 | the resume body reads back as a single `resumeProgram` aimed at the thermostat |
| Holds.OneSidedHoldKeepsOtherSide | sqlbee.php:514-534 | setting one side keeps the other at its current setpoint; setting neither holds at both |
| Sqlbee.LookupSeesTombstoned | sqlbee.php:626-631 | a thermostat the latest poll dropped can still be looked up |
| Sqlbee.GetThermostatSummary | sqlbee.php:234-323 | the summary call sends its request first, keeps the store invariant, touches neither the report table nor, on failure, the thermostat table |
| Sqlbee.SummaryPollsReply | sqlbee.php:234-323 | with a reply that needs no refresh, the summary call is exactly the poll of that reply's lines |
| Sqlbee.ErrorReplyTombstonesAll | sqlbee.php:250-256 | a reply without `revisionList` marks every stored thermostat deleted, adds none, and reports nothing |
| Sqlbee.SyncAsksForEveryFacet | sqlbee.php:334-362 | the full-sync request selects the registered thermostats and sets the include flag of every facet it writes |
| Sqlbee.SyncThermostats | sqlbee.php:333-401 | the full sync keeps the store invariant, every surrogate id and the report table |
| Sqlbee.SyncWritesReply | sqlbee.php:333-401 | with a reply that needs no refresh, the full sync writes exactly that reply's facets |
| Sqlbee.SyncRuntimeReport | sqlbee.php:410-505 | an unknown id fails before any request; the report keeps the store invariant, leaves the thermostat table alone, and on success the old insertion order is a prefix of the new one |
| Sqlbee.StoreReport | sqlbee.php:485-505 | storing a report reply changes only the report table, keeps the store invariant, leaves everything unchanged on failure, and keeps the old insertion order as a prefix |
| Sqlbee.ReportWindow | sqlbee.php:440-481 | the report request asks, for the thermostat's identifier, for the window from `StartTime` up to now |
| Sqlbee.ReportUpsertsReply | sqlbee.php:485-505 | with a reply that needs no refresh, the report upserts the parsed rows when each has one value per column, and otherwise fails with the report table unchanged |
| Sqlbee.SetTemperatures | sqlbee.php:546-590 | an unknown id fails before any request; otherwise the first request is the `setHold` POST of the chosen hold; the store invariant and the report table are kept |
| Sqlbee.HoldThenSyncs | sqlbee.php:562-588 | with a reply that needs no refresh, `set_temperatures` is exactly the `setHold` POST followed by a full sync |
| Sqlbee.SetCoolTemperature | sqlbee.php:514-520 | the hold uses the given cool setpoint, or the current one when none is given, and the current heat setpoint |
| Sqlbee.SetHeatTemperature | sqlbee.php:528-534 | the hold uses the given heat setpoint, or the current one when none is given, and the current cool setpoint |
| Sqlbee.ResumeSchedule | sqlbee.php:592-617 | an unknown id fails before any request; otherwise the first request is the `resumeProgram` POST |
| Sqlbee.ResumeThenSyncs | sqlbee.php:595-616 | with a reply that needs no refresh, `resume_schedule` is exactly the `resumeProgram` POST followed by a full sync |
| Sqlbee.Reports | cron.php:21-23 | the report loop keeps the store invariant and the thermostat table |
| Sqlbee.Run | cron.php:14-23 | a cron run keeps the store invariant, only grows the request and token logs, and every request it sends carries the client id |
| Sqlbee.Chain | cron.php:14-23 | two legs of a run together keep the request and token logs growing, and every new request carries the client id |

## Left out

- I/O is not modelled: curl, mysqli and the SQL text are replaced by values.
  The service is the `Server` parameter. The tables are the `Store` value.
- `real_escape_string` and `http_build_query` are not modelled. Arguments are
  kept as a map. Values are assumed to hold no quote or backslash.
- `json_encode` and `json_decode` are not modelled. JSON travels as decoded
  `Json` values, holding integers only. A `json_*` column holds its decoded
  document.
- The API log, the debug echo and the transaction in the constructor and
  destructor are not modelled.
- The `or die` exits are not modelled. The only query failures modelled are
  the report statement with no rows and a row of the wrong width.
- The "Invalid JSON" check at lines 115-117 is left out. It fires only for a
  body that is the JSON text `false`, which `json_decode` returns as `false`;
  the model returns that reply as `JBool(false)`. Text that is not JSON at
  all is not modelled, since the server parameter answers with decoded
  values.
- `setup.php` and the configuration file are left out. `client_id` and
  `scope` are the `Config` parameter.
- `Api.Ecobee`: the fuel bound is a model artefact. A fuel-exhausted call
  fails with `OutOfFuel` instead of recursing further.
- Time zones are not modelled. `date('Z')` is taken as 0, so every time is in
  UTC seconds.
- Calendar formatting is not modelled. `strtotime` is a caller-supplied
  function, and the report window carries day numbers, not `Y-m-d` text.
- Floating point is not modelled. Temperatures are integer tenths, and the
  caller's temperatures are taken in tenths too. So `/10` followed by
  `round(x, 1) * 10` is the identity, and rounding to one decimal is not
  modelled.
- `Summary.NewRow` assumes the schema default of `deleted` is 0, because the
  insert at lines 277-295 does not set that column.
- `Summary.RowValues` does not model the `json_*` document texts as values
  that `array_diff` compares against. It models only the empty string that a
  NULL facet column casts to.
- MySQL's case- and trailing-space-insensitive comparison of identifiers is
  not modelled. Identifiers compare as exact strings.
- `SummaryFacts.PollReports`: the change values are characterised only for a
  reply that lists each identifier once. A reply that lists an identifier
  twice is accepted by the code, and the model computes it, but no lemma
  states what its second line reports.
- `Sqlbee.Run`: one clock reading serves the whole run. The code calls
  `time()` again inside each `sync_runtime_report`.
- The code keeps no per-sensor records. The model has none either.
- `sync_runtime_report` fetches one window per call and does no multi-window
  backfill.
- `sync_thermostats` raises no error for an identifier it does not know. Its
  update then matches no row.
- `ecobee()` raises no error for status codes other than 14. It returns such
  a reply unchanged.
- A `foreach` over a member that is null or a scalar runs zero times, as PHP
  does with a warning. A member that is a JSON object where a list is
  expected is also visited as no items, while PHP would visit the object's
  values; the service sends lists in those places.
- `Sqlbee.SyncRuntimeReport` models a report row's quirks only for values
  without quotes. A value ending in a double quote would be mangled by the
  `str_replace` at line 496.
- The first row MySQL returns when several rows share an identifier is taken
  to be the lowest surrogate id. The store invariant rules this case out.
- `cron.php` says a report is synced "if any of the revision values has
  changed". The code syncs one for every listed thermostat, and the model
  follows the code.

## Findings

| source | as written | input that shows it | evidently intended | confidence | as-written member | corrected member |
|---|---|---|---|---|---|---|
| sqlbee.php:121-127 | the retry passes `$auto_refresh_token = false`, but the test at line 124 never reads it, so every code-14 reply triggers another refresh and retry; a code-14 reply to the refresh itself recurses too | a service that answers every request with status code 14 | refresh at most once per call, as the comment at lines 121-123 says, and never from the token call itself | not executed | RefreshFacts.AsWrittenNeverSettles | RefreshFacts.IntendedSettles |
| sqlbee.php:126 | the retry is issued with the endpoint already routed at line 55, so it is routed again, to `https://api.ecobee.com/1//1/thermostat` | a code-14 reply to `thermostat`, then a reply granting both tokens | repeat the original request, at `/1/thermostat`, with the new token | not executed | RefreshFacts.AsWrittenRetryDoublesPrefix | RefreshFacts.IntendedRetryRepeatsCall |
| sqlbee.php:316 | `array_diff` compares values, not columns, so a new revision is missed whenever it equals any column of the stored row | stored revisions A, B, C, D and a new line with revisions A, C, C, D: the alert revision moved from B to C, which is the stored runtime revision | compare each revision with its own column and report the alert revision as C | not executed | SummaryFacts.PollMissesCoincidingRevision | SummaryFacts.IntendedReportsEveryMove |
