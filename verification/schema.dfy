/** The local tables the core writes, as immutable values.

    - `sqlbee_thermostat`: a map from the auto-increment surrogate id
      `sqlbee_thermostat_id` to the row, plus the next id the table will
      hand out.
    - `sqlbee_runtime_report`: a map from the composite key (thermostat
      id, timestamp) to the 26 metric values, plus the keys in the order
      their rows were first inserted, which is the order of the surrogate
      `sqlbee_runtime_report_id`.
    - `sqlbee_token`: the append-only token log.
 */
module Schema {
  import opened Results
  import opened JsonValues
  import opened Tokens

  /** The four revision columns of a thermostat row. */
  datatype Revision = ThermostatRevision | AlertRevision | RuntimeRevision | InternalRevision

  const AllRevisions: set<Revision> := {ThermostatRevision, AlertRevision, RuntimeRevision, InternalRevision}

  lemma EveryRevisionListed(f: Revision)
    ensures f in AllRevisions
  {
  }

  datatype Revisions = Revisions(thermostat: string, alert: string, runtime: string, internal: string) {
    /** The value of one revision column. */
    function Get(f: Revision): string {
      match f
      case ThermostatRevision => thermostat
      case AlertRevision => alert
      case RuntimeRevision => runtime
      case InternalRevision => internal
    }
  }

  /** The nineteen `json_*` facet columns a full sync overwrites. */
  datatype Facet =
    | Runtime | ExtendedRuntime | Electricity | Settings | Location
    | Program | Events | Device | Technician | Utility | Management
    | Alerts | Weather | HouseDetails | OemCfg | EquipmentStatus
    | NotificationSettings | Version | RemoteSensors

  const AllFacets: set<Facet> := {
    Runtime, ExtendedRuntime, Electricity, Settings, Location,
    Program, Events, Device, Technician, Utility, Management,
    Alerts, Weather, HouseDetails, OemCfg, EquipmentStatus,
    NotificationSettings, Version, RemoteSensors }

  lemma EveryFacetListed(f: Facet)
    ensures f in AllFacets
  {
  }

  /** The member of a thermostat object in the API reply that feeds each
      facet column (note `devices` feeds `json_device`). */
  function WireKey(f: Facet): string {
    match f
    case Runtime => "runtime"
    case ExtendedRuntime => "extendedRuntime"
    case Electricity => "electricity"
    case Settings => "settings"
    case Location => "location"
    case Program => "program"
    case Events => "events"
    case Device => "devices"
    case Technician => "technician"
    case Utility => "utility"
    case Management => "management"
    case Alerts => "alerts"
    case Weather => "weather"
    case HouseDetails => "houseDetails"
    case OemCfg => "oemCfg"
    case EquipmentStatus => "equipmentStatus"
    case NotificationSettings => "notificationSettings"
    case Version => "version"
    case RemoteSensors => "remoteSensors"
  }

  /** One `sqlbee_thermostat` row. `facets` holds the decoded `json_*`
      columns; a facet missing from the map is a SQL NULL column (the row
      was never fully synced). `connected` is the '1'/'0' column. */
  datatype Thermostat = Thermostat(
    identifier: string,
    name: string,
    connected: bool,
    revisions: Revisions,
    deleted: bool,
    facets: map<Facet, Json>)
  {
    /** A facet column as `get_thermostat` decodes it: a NULL column
        decodes to null. */
    function Facet(f: Facet): Json {
      if f in facets then facets[f] else JNull
    }
  }

  type ThermostatTable = map<nat, Thermostat>

  /** The composite unique key of `sqlbee_runtime_report`. */
  datatype ReportKey = ReportKey(thermostatId: nat, timestamp: int)

  /** The 26 metric columns of one report row; `None` is SQL NULL. */
  type Metrics = seq<Option<string>>

  datatype ReportTable = ReportTable(rows: map<ReportKey, Metrics>, order: seq<ReportKey>)

  /** The insertion order lists every stored key exactly once. */
  predicate OrderCoversRows(t: ReportTable) {
    && (forall i, j :: 0 <= i < j < |t.order| ==> t.order[i] != t.order[j])
    && (forall i :: 0 <= i < |t.order| ==> t.order[i] in t.rows)
    && (forall k :: k in t.rows ==> k in t.order)
  }

  datatype Store = Store(
    tokens: TokenLog,
    thermostats: ThermostatTable,
    nextThermostatId: nat,
    reports: ReportTable)

  /** Surrogate ids are below the auto-increment counter. */
  predicate IdsBelowNext(t: ThermostatTable, next: nat) {
    forall id :: id in t ==> id < next
  }

  /** `identifier` is the natural key: no two rows share one. */
  predicate UniqueIdentifiers(t: ThermostatTable) {
    forall i, j :: i in t && j in t && i != j ==> t[i].identifier != t[j].identifier
  }

  /** The invariant every operation of the core preserves. */
  predicate Valid(s: Store) {
    && IdsBelowNext(s.thermostats, s.nextThermostatId)
    && UniqueIdentifiers(s.thermostats)
    && OrderCoversRows(s.reports)
  }

  /** The first (lowest) surrogate id below `bound` whose row has the
      identifier `x`, as `select * ... where identifier = x` returns it. */
  function FindFrom(t: ThermostatTable, x: string, from: nat, bound: nat): (r: Option<nat>)
    ensures r.Some? ==> from <= r.value < bound && r.value in t && t[r.value].identifier == x
    ensures r.Some? ==> forall j :: from <= j < r.value && j in t ==> t[j].identifier != x
    ensures r.None? ==> forall j :: from <= j < bound && j in t ==> t[j].identifier != x
    decreases bound - from
  {
    if from >= bound then None
    else if from in t && t[from].identifier == x then Some(from)
    else FindFrom(t, x, from + 1, bound)
  }

  /** The row a lookup by identifier finds, scanning every id the table
      has handed out. */
  function FindByIdentifier(t: ThermostatTable, next: nat, x: string): (r: Option<nat>)
    ensures r.Some? ==> r.value in t && t[r.value].identifier == x
    ensures IdsBelowNext(t, next) ==> (r.None? <==> forall j :: j in t ==> t[j].identifier != x)
  {
    FindFrom(t, x, 0, next)
  }

  /** Under unique identifiers the lookup finds the one matching row. */
  lemma FindUnique(t: ThermostatTable, next: nat, id: nat)
    requires IdsBelowNext(t, next) && UniqueIdentifiers(t)
    requires id in t
    ensures FindByIdentifier(t, next, t[id].identifier) == Some(id)
  {
  }

  const EmptyReports: ReportTable := ReportTable(map[], [])

  /** A fresh installation: no tokens, no thermostats, no report rows;
      MySQL's auto-increment starts at 1. */
  const Empty: Store := Store([], map[], 1, EmptyReports)

  lemma EmptyIsValid()
    ensures Valid(Empty)
  {
  }
}
