/** The table work of `sync_thermostats()`: every thermostat object of
    the reply overwrites the nineteen `json_*` facet columns of the row
    with the same identifier. Nothing else in the row changes, and a row
    the reply does not mention is left alone. */
module FullSync {
  import opened Results
  import opened Text
  import opened JsonValues
  import opened Schema

  /** The identifier an object carries, as it is spliced into the
      `where` clause. */
  function IdentifierOf(obj: Json): string {
    AsText(Get(obj, "identifier"))
  }

  /** The raw `equipmentStatus` member: a comma-separated list of the
      equipment running, or blank when nothing runs. */
  function EquipmentText(obj: Json): string {
    AsText(Get(obj, "equipmentStatus"))
  }

  /** The stored equipment list: empty for a blank status, otherwise the
      pieces between commas, untrimmed. */
  function Equipment(obj: Json): (r: Json)
    ensures r.JArr?
    ensures Trim(EquipmentText(obj)) == "" <==> |r.items| == 0
    ensures Trim(EquipmentText(obj)) != "" ==>
      |r.items| == |Split(EquipmentText(obj), ',')|
      && forall i :: 0 <= i < |r.items| ==> r.items[i] == JStr(Split(EquipmentText(obj), ',')[i])
  {
    var text := EquipmentText(obj);
    if Trim(text) == "" then JArr([]) else Strings(Split(text, ','))
  }

  /** The pieces of a stored equipment list. */
  function Pieces(items: seq<Json>): seq<string> {
    seq(|items|, i requires 0 <= i < |items| => AsText(items[i]))
  }

  /** The stored list, joined again with commas, gives back the status
      text the service sent, whenever that text was not blank. */
  lemma EquipmentRoundTrip(obj: Json)
    requires Trim(EquipmentText(obj)) != ""
    ensures Join(Pieces(Equipment(obj).items), ',') == EquipmentText(obj)
  {
    var parts := Split(EquipmentText(obj), ',');
    assert Pieces(Equipment(obj).items) == parts;
  }

  /** The facet columns an object writes. A member missing from the
      object is encoded as JSON `null`, so a synced row holds every
      facet. */
  function FacetsOf(obj: Json): (r: map<Facet, Json>)
    ensures forall f :: f in r
    ensures forall f :: f in r && f != EquipmentStatus ==> r[f] == Get(obj, WireKey(f))
    ensures r[EquipmentStatus] == Equipment(obj)
  {
    EveryFacetListedAll();
    var plain := map f: Facet | f in AllFacets :: Get(obj, WireKey(f));
    plain[EquipmentStatus := Equipment(obj)]
  }

  lemma EveryFacetListedAll()
    ensures forall f: Facet :: f in AllFacets
  {
    forall f: Facet ensures f in AllFacets { EveryFacetListed(f); }
  }

  /** One `update ... where identifier = ...`: it hits every row with
      that identifier. */
  function SyncOne(t: ThermostatTable, obj: Json): (r: ThermostatTable)
    ensures r.Keys == t.Keys
    ensures forall id :: id in t && t[id].identifier == IdentifierOf(obj) ==> r[id] == t[id].(facets := FacetsOf(obj))
    ensures forall id :: id in t && t[id].identifier != IdentifierOf(obj) ==> r[id] == t[id]
  {
    map id | id in t :: if t[id].identifier == IdentifierOf(obj) then t[id].(facets := FacetsOf(obj)) else t[id]
  }

  /** The loop over `thermostatList`, in list order. */
  function SyncAll(t: ThermostatTable, objs: seq<Json>): (r: ThermostatTable)
    ensures r.Keys == t.Keys
    ensures forall id :: id in t ==> r[id] == t[id].(facets := r[id].facets)
    decreases |objs|
  {
    if |objs| == 0 then t else SyncOne(SyncAll(t, objs[..|objs| - 1]), objs[|objs| - 1])
  }

  /** The last object of the list for an identifier: the one whose
      facets stick. */
  function LastObject(objs: seq<Json>, x: string): (r: Option<Json>)
    ensures r.Some? ==> IdentifierOf(r.value) == x
    decreases |objs|
  {
    if |objs| == 0 then None
    else if IdentifierOf(objs[|objs| - 1]) == x then Some(objs[|objs| - 1])
    else LastObject(objs[..|objs| - 1], x)
  }

  /** What the sync leaves in a row: the facets of the last object for
      its identifier, or the row unchanged when no object names it. */
  function Synced(row: Thermostat, objs: seq<Json>): Thermostat {
    match LastObject(objs, row.identifier)
    case Some(obj) => row.(facets := FacetsOf(obj))
    case None => row
  }

  /** The loop in closed form: every row ends as `Synced` says, the
      last object for an identifier winning. */
  lemma {:induction false} SyncAllIsLastWins(t: ThermostatTable, objs: seq<Json>)
    ensures forall id :: id in t ==> SyncAll(t, objs)[id] == Synced(t[id], objs)
    decreases |objs|
  {
    if |objs| > 0 {
      var prefix := objs[..|objs| - 1];
      SyncAllIsLastWins(t, prefix);
      var mid := SyncAll(t, prefix);
      forall id | id in t ensures SyncAll(t, objs)[id] == Synced(t[id], objs) {
        assert mid[id].identifier == t[id].identifier;
      }
    }
  }

  /** A sync touches only the facet columns: identifier, name, connected
      flag, revisions and deleted flag keep their values. */
  lemma SyncKeepsSummaryColumns(t: ThermostatTable, objs: seq<Json>)
    ensures forall id :: id in t ==> SyncAll(t, objs)[id] == t[id].(facets := SyncAll(t, objs)[id].facets)
  {
    SyncAllIsLastWins(t, objs);
  }

  /** A row an object names ends with every facet set, each read from the
      last such object. */
  lemma SyncedRowReadsObject(t: ThermostatTable, objs: seq<Json>, id: nat, f: Facet)
    requires id in t && LastObject(objs, t[id].identifier).Some?
    ensures var obj := LastObject(objs, t[id].identifier).value;
      SyncAll(t, objs)[id].Facet(f) == (if f == EquipmentStatus then Equipment(obj) else Get(obj, WireKey(f)))
  {
    SyncAllIsLastWins(t, objs);
  }

  /** Syncing twice with the same reply leaves what syncing once left. */
  lemma SyncIdempotent(t: ThermostatTable, objs: seq<Json>)
    ensures SyncAll(SyncAll(t, objs), objs) == SyncAll(t, objs)
  {
    var once := SyncAll(t, objs);
    SyncAllIsLastWins(t, objs);
    SyncAllIsLastWins(once, objs);
    forall id | id in once ensures SyncAll(once, objs)[id] == once[id] {
      assert once[id].identifier == t[id].identifier;
    }
  }

  /** The table work of `sync_thermostats()` on one reply. */
  function Sync(s: Store, reply: Json): (r: Store)
    ensures r.tokens == s.tokens && r.reports == s.reports && r.nextThermostatId == s.nextThermostatId
  {
    s.(thermostats := SyncAll(s.thermostats, Items(Get(reply, "thermostatList"))))
  }

  /** The sync keeps every surrogate id and identifier, so the store
      invariant holds after it. */
  lemma SyncPreservesValid(s: Store, reply: Json)
    ensures Valid(s) ==> Valid(Sync(s, reply))
  {
    SyncKeepsSummaryColumns(s.thermostats, Items(Get(reply, "thermostatList")));
  }
}
