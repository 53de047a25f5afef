/** `get_thermostat_summary()`: the revision tracker.

    Each summary line `identifier:name:connected:thermostatRev:alertRev:
    runtimeRev:internalRev` is parsed; every stored thermostat is first
    marked deleted; then each listed thermostat is inserted or updated
    in list order, and for each one the revisions that changed are
    recorded under its surrogate id.
 */
module Summary {
  import opened Results
  import opened Text
  import opened JsonValues
  import opened Schema

  /** One parsed summary line. `connected` is the '1'/'0' column value. */
  datatype Entry = Entry(identifier: string, name: string, connected: bool, revisions: Revisions)

  /** The line parser of lines 259-268. */
  function ParseEntry(line: string): (e: Entry)
    ensures e.connected <==> Field(Split(line, ':'), 2) == "true"
    ensures e.identifier == Field(Split(line, ':'), 0) && e.name == Field(Split(line, ':'), 1)
    ensures e.revisions == Revisions(Field(Split(line, ':'), 3), Field(Split(line, ':'), 4),
                                     Field(Split(line, ':'), 5), Field(Split(line, ':'), 6))
  {
    var parts := Split(line, ':');
    Entry(
      Field(parts, 0),
      Field(parts, 1),
      Field(parts, 2) == "true",
      Revisions(Field(parts, 3), Field(parts, 4), Field(parts, 5), Field(parts, 6)))
  }

  /** The line the service sends for an entry, the partner of `ParseEntry`. */
  function FormatEntry(e: Entry): string {
    Join([e.identifier, e.name, if e.connected then "true" else "false",
          e.revisions.thermostat, e.revisions.alert, e.revisions.runtime, e.revisions.internal], ':')
  }

  predicate ColonFree(e: Entry) {
    && ':' !in e.identifier && ':' !in e.name
    && ':' !in e.revisions.thermostat && ':' !in e.revisions.alert
    && ':' !in e.revisions.runtime && ':' !in e.revisions.internal
  }

  /** Parsing recovers every entry whose fields hold no colon. */
  lemma ParseFormat(e: Entry)
    requires ColonFree(e)
    ensures ParseEntry(FormatEntry(e)) == e
  {
    var parts := [e.identifier, e.name, if e.connected then "true" else "false",
                  e.revisions.thermostat, e.revisions.alert, e.revisions.runtime, e.revisions.internal];
    assert forall i :: 0 <= i < |parts| ==> ':' !in parts[i];
    SplitJoin(parts, ':');
  }

  /** The lines of a summary reply: the items of `revisionList`, each
      cast to a string as `explode` casts it. */
  function Lines(reply: Json): (r: seq<string>)
    ensures |r| == |Items(Get(reply, "revisionList"))|
  {
    var items := Items(Get(reply, "revisionList"));
    seq(|items|, i requires 0 <= i < |items| => AsText(items[i]))
  }

  function Entries(lines: seq<string>): (r: seq<Entry>)
    ensures |r| == |lines|
    ensures forall i :: 0 <= i < |lines| ==> r[i] == ParseEntry(lines[i])
  {
    seq(|lines|, i requires 0 <= i < |lines| => ParseEntry(lines[i]))
  }

  /** `update sqlbee_thermostat set deleted = 1`. */
  function Tombstone(t: ThermostatTable): (r: ThermostatTable)
    ensures r.Keys == t.Keys
    ensures forall id :: id in t ==> r[id] == t[id].(deleted := true)
  {
    map id | id in t :: t[id].(deleted := true)
  }

  /** The row as the update of lines 302-312 leaves it. */
  function Updated(row: Thermostat, e: Entry): Thermostat {
    row.(name := e.name, connected := e.connected, revisions := e.revisions, deleted := false)
  }

  /** The row the insert of lines 277-295 creates. The insert does not
      set `deleted`; the schema default is taken to be 0. No `json_*`
      column is set, so every facet is NULL. */
  function NewRow(e: Entry): (r: Thermostat)
    ensures Reflects(r, e)
    ensures forall f :: r.Facet(f) == JNull
  {
    Thermostat(e.identifier, e.name, e.connected, e.revisions, false, map[])
  }

  /** A row holds what the entry says about it. */
  predicate Reflects(row: Thermostat, e: Entry) {
    row.identifier == e.identifier && row.name == e.name && row.connected == e.connected
    && row.revisions == e.revisions && !row.deleted
  }

  /** The update `where identifier = ...` applies to every matching row. */
  function Overwrite(t: ThermostatTable, e: Entry): (r: ThermostatTable)
    ensures r.Keys == t.Keys
    ensures forall id :: id in t && t[id].identifier == e.identifier ==> r[id] == Updated(t[id], e)
    ensures forall id :: id in t && t[id].identifier != e.identifier ==> r[id] == t[id]
  {
    map id | id in t :: if t[id].identifier == e.identifier then Updated(t[id], e) else t[id]
  }

  /** The string values of a fetched row, as `array_diff` compares them:
      the surrogate id, the text columns, the '1'/'0' flags, and the empty
      string a NULL column casts to. The `json_*` document texts are not
      part of the model. */
  function RowValues(id: nat, row: Thermostat): (r: set<string>)
    ensures Decimal(id) in r && row.identifier in r && row.name in r
    ensures (if row.connected then "1" else "0") in r && (if row.deleted then "1" else "0") in r
    ensures forall f :: row.revisions.Get(f) in r
    ensures row.facets.Keys != AllFacets ==> "" in r
  {
    {Decimal(id), row.identifier, row.name, if row.connected then "1" else "0",
     row.revisions.thermostat, row.revisions.alert, row.revisions.runtime, row.revisions.internal,
     if row.deleted then "1" else "0"}
    + (if row.facets.Keys != AllFacets then {""} else {})
  }

  /** The changed revisions of an existing thermostat. As written
      (`array_diff`, line 316), a new revision counts as changed only when
      its value appears in no column of the stored row; the intended
      comparison is column by column. Each changed revision maps to its
      new value. */
  function Diff(mode: Mode, e: Entry, id: nat, row: Thermostat): (r: map<Revision, string>)
    ensures forall f :: f in r ==> r[f] == e.revisions.Get(f)
    ensures mode == AsWritten ==> forall f :: f in r <==> e.revisions.Get(f) !in RowValues(id, row)
    ensures mode == Intended ==> forall f :: f in r <==> e.revisions.Get(f) != row.revisions.Get(f)
  {
    EveryRevisionListedAll();
    if mode == AsWritten then
      map f | f in AllRevisions && e.revisions.Get(f) !in RowValues(id, row) :: e.revisions.Get(f)
    else
      map f | f in AllRevisions && e.revisions.Get(f) != row.revisions.Get(f) :: e.revisions.Get(f)
  }

  lemma EveryRevisionListedAll()
    ensures forall f: Revision :: f in AllRevisions
  {
    forall f: Revision ensures f in AllRevisions { EveryRevisionListed(f); }
  }

  /** A thermostat seen for the first time reports all four revisions. */
  function AllChanged(e: Entry): (r: map<Revision, string>)
    ensures r.Keys == AllRevisions
    ensures forall f :: f in r ==> r[f] == e.revisions.Get(f)
  {
    map f | f in AllRevisions :: e.revisions.Get(f)
  }

  /** The return value of the poll: changed revisions keyed by surrogate
      id, and the ids in the order PHP's array keeps them (order of first
      assignment), which is the order the cron driver visits them. */
  datatype Changes = Changes(ids: seq<nat>, revisions: map<nat, map<Revision, string>>)

  predicate WellOrdered(c: Changes) {
    && (forall i, j :: 0 <= i < j < |c.ids| ==> c.ids[i] != c.ids[j])
    && (forall i :: 0 <= i < |c.ids| ==> c.ids[i] in c.revisions)
    && (forall id :: id in c.revisions ==> id in c.ids)
  }

  /** `$return[$id] = $diff`: a known key keeps its place. */
  function Note(c: Changes, id: nat, diff: map<Revision, string>): (r: Changes)
    ensures r.revisions == c.revisions[id := diff]
    ensures WellOrdered(c) ==> WellOrdered(r)
  {
    if id in c.revisions then c.(revisions := c.revisions[id := diff])
    else Changes(c.ids + [id], c.revisions[id := diff])
  }

  datatype PollState = PollState(table: ThermostatTable, next: nat, changes: Changes)

  /** The surrogate id an entry lands on: its existing row, or the next
      auto-increment id. */
  function StepId(st: PollState, e: Entry): nat {
    match FindByIdentifier(st.table, st.next, e.identifier)
    case Some(id) => id
    case None => st.next
  }

  /** The changed revisions an entry reports against the row it finds. */
  function StepDiff(mode: Mode, st: PollState, e: Entry): map<Revision, string> {
    match FindByIdentifier(st.table, st.next, e.identifier)
    case Some(id) => Diff(mode, e, id, st.table[id])
    case None => AllChanged(e)
  }

  /** One pass of the loop of lines 256-318. */
  function Step(mode: Mode, st: PollState, e: Entry): (r: PollState)
    ensures r.next >= st.next
    ensures IdsBelowNext(st.table, st.next) ==> IdsBelowNext(r.table, r.next)
    ensures IdsBelowNext(st.table, st.next) ==>
      forall id :: id in st.table ==>
        (id in r.table && r.table[id].identifier == st.table[id].identifier && r.table[id].facets == st.table[id].facets)
    ensures IdsBelowNext(st.table, st.next) ==>
      forall id :: id in r.table && r.table[id].identifier == e.identifier ==> Reflects(r.table[id], e)
    ensures IdsBelowNext(st.table, st.next) ==>
      forall id :: id in r.table && r.table[id].identifier != e.identifier ==> id in st.table && r.table[id] == st.table[id]
    ensures IdsBelowNext(st.table, st.next) && UniqueIdentifiers(st.table) ==> UniqueIdentifiers(r.table)
    ensures StepId(st, e) in r.table && r.table[StepId(st, e)].identifier == e.identifier
    ensures r.changes == Note(st.changes, StepId(st, e), StepDiff(mode, st, e))
  {
    match FindByIdentifier(st.table, st.next, e.identifier)
    case Some(id) =>
      PollState(Overwrite(st.table, e), st.next, Note(st.changes, id, Diff(mode, e, id, st.table[id])))
    case None =>
      PollState(st.table[st.next := NewRow(e)], st.next + 1, Note(st.changes, st.next, AllChanged(e)))
  }

  /** The loop over the entries, in list order. */
  function Process(mode: Mode, t: ThermostatTable, next: nat, entries: seq<Entry>): (r: PollState)
    ensures r.next >= next
    ensures IdsBelowNext(t, next) ==> IdsBelowNext(r.table, r.next)
    ensures IdsBelowNext(t, next) ==> forall id :: id in t ==> id in r.table && r.table[id].identifier == t[id].identifier
    decreases |entries|
  {
    if |entries| == 0 then PollState(t, next, Changes([], map[]))
    else Step(mode, Process(mode, t, next, entries[..|entries| - 1]), entries[|entries| - 1])
  }

  datatype Polled = Polled(store: Store, changes: Changes)

  /** The table work of `get_thermostat_summary()` for the lines of one
      reply: tombstone pass, then the loop. Tokens and report rows are
      untouched. */
  function Poll(mode: Mode, s: Store, lines: seq<string>): (r: Polled)
    ensures r.store.tokens == s.tokens && r.store.reports == s.reports
    ensures r.store.nextThermostatId >= s.nextThermostatId
  {
    var p := Process(mode, Tombstone(s.thermostats), s.nextThermostatId, Entries(lines));
    Polled(s.(thermostats := p.table, nextThermostatId := p.next), p.changes)
  }
}
