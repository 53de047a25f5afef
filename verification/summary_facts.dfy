/** What one summary poll does to the thermostat table and what it
    reports, proved for the whole loop. */
module SummaryFacts {
  import opened Results
  import opened Text
  import opened JsonValues
  import opened Schema
  import opened Summary

  /** The identifiers a list of entries mentions. */
  function Listed(entries: seq<Entry>): set<string> {
    set i | 0 <= i < |entries| :: entries[i].identifier
  }

  predicate Distinct(entries: seq<Entry>) {
    forall i, j :: 0 <= i < j < |entries| ==> entries[i].identifier != entries[j].identifier
  }

  /** The last entry for an identifier: the one whose values stick. */
  function LastWith(entries: seq<Entry>, x: string): (r: Option<Entry>)
    ensures r.Some? ==> r.value.identifier == x
    decreases |entries|
  {
    if |entries| == 0 then None
    else if entries[|entries| - 1].identifier == x then Some(entries[|entries| - 1])
    else LastWith(entries[..|entries| - 1], x)
  }

  lemma ListedSnoc(entries: seq<Entry>)
    requires |entries| > 0
    ensures Listed(entries) == Listed(entries[..|entries| - 1]) + {entries[|entries| - 1].identifier}
  {
    var p := entries[..|entries| - 1];
    forall x | x in Listed(entries) ensures x in Listed(p) + {entries[|entries| - 1].identifier} {
      var i :| 0 <= i < |entries| && entries[i].identifier == x;
      if i < |p| { assert p[i] == entries[i]; }
    }
    forall x | x in Listed(p) ensures x in Listed(entries) {
      var i :| 0 <= i < |p| && p[i].identifier == x;
      assert entries[i] == p[i];
    }
  }

  lemma {:induction false} LastWithListed(entries: seq<Entry>, x: string)
    ensures LastWith(entries, x).Some? <==> x in Listed(entries)
    decreases |entries|
  {
    if |entries| > 0 {
      ListedSnoc(entries);
      LastWithListed(entries[..|entries| - 1], x);
    }
  }

  /** The table facts the loop keeps, relative to the table it starts
      from: ids stay below the counter and keep their identifier and
      facets, identifiers stay unique, rows of unlisted identifiers are
      untouched, fresh rows get ids from the counter on, and every listed
      row holds the values of the last entry for it. */
  ghost predicate LoopFrame(t0: ThermostatTable, next0: nat, entries: seq<Entry>, p: PollState) {
    && IdsBelowNext(p.table, p.next)
    && UniqueIdentifiers(p.table)
    && p.next >= next0
    && (forall id :: id in t0 ==> id in p.table && p.table[id].identifier == t0[id].identifier && p.table[id].facets == t0[id].facets)
    && (forall id :: id in p.table && p.table[id].identifier !in Listed(entries) ==> id in t0 && p.table[id] == t0[id])
    && (forall id :: id in p.table && id !in t0 ==> next0 <= id)
    && (forall id :: id in p.table && LastWith(entries, p.table[id].identifier).Some? ==>
          Reflects(p.table[id], LastWith(entries, p.table[id].identifier).value))
    && (forall x :: x in Listed(entries) ==> FindByIdentifier(p.table, p.next, x).Some?)
    && WellOrdered(p.changes)
  }

  lemma {:induction false} ProcessFrame(mode: Mode, t0: ThermostatTable, next0: nat, entries: seq<Entry>)
    requires IdsBelowNext(t0, next0) && UniqueIdentifiers(t0)
    ensures LoopFrame(t0, next0, entries, Process(mode, t0, next0, entries))
    decreases |entries|
  {
    if |entries| > 0 {
      var prefix := entries[..|entries| - 1];
      var e := entries[|entries| - 1];
      ProcessFrame(mode, t0, next0, prefix);
      var st := Process(mode, t0, next0, prefix);
      var r := Step(mode, st, e);
      assert r == Process(mode, t0, next0, entries);
      ListedSnoc(entries);
      forall id | id in r.table && LastWith(entries, r.table[id].identifier).Some?
        ensures Reflects(r.table[id], LastWith(entries, r.table[id].identifier).value)
      {
        if r.table[id].identifier != e.identifier {
          assert LastWith(entries, r.table[id].identifier) == LastWith(prefix, r.table[id].identifier);
        }
      }
      forall id | id in r.table && r.table[id].identifier !in Listed(entries)
        ensures id in t0 && r.table[id] == t0[id]
      {
        assert r.table[id].identifier != e.identifier;
      }
      forall x | x in Listed(entries) ensures FindByIdentifier(r.table, r.next, x).Some? {
        if x != e.identifier {
          var j := FindByIdentifier(st.table, st.next, x).value;
          assert j in r.table && r.table[j].identifier == x;
        } else {
          assert StepId(st, e) in r.table;
        }
      }
    }
  }

  /** What the loop reports for an entry: against its stored row when the
      identifier was already known, all four revisions when it is new. */
  function Expected(mode: Mode, t0: ThermostatTable, e: Entry, id: nat): map<Revision, string> {
    if id in t0 then Diff(mode, e, id, t0[id]) else AllChanged(e)
  }

  /** The changes the loop returns carry one entry per listed
      thermostat, keyed by the surrogate id of its row. */
  ghost predicate LoopChangeKeys(entries: seq<Entry>, p: PollState) {
    forall id :: id in p.changes.revisions <==> id in p.table && p.table[id].identifier in Listed(entries)
  }

  /** For a list without repeated identifiers, each entry of the changes
      is the expected set of changed revisions. */
  ghost predicate LoopChangeValues(mode: Mode, t0: ThermostatTable, entries: seq<Entry>, p: PollState) {
    forall i, id :: 0 <= i < |entries| && id in p.table && p.table[id].identifier == entries[i].identifier ==>
      id in p.changes.revisions && p.changes.revisions[id] == Expected(mode, t0, entries[i], id)
  }

  lemma DistinctPrefix(entries: seq<Entry>)
    requires Distinct(entries) && |entries| > 0
    ensures Distinct(entries[..|entries| - 1])
    ensures entries[|entries| - 1].identifier !in Listed(entries[..|entries| - 1])
  {
    var prefix := entries[..|entries| - 1];
    forall i, j | 0 <= i < j < |prefix| ensures prefix[i].identifier != prefix[j].identifier {
      assert prefix[i] == entries[i] && prefix[j] == entries[j];
    }
    forall i | 0 <= i < |prefix| ensures prefix[i].identifier != entries[|entries| - 1].identifier {
      assert prefix[i] == entries[i];
    }
  }

  lemma StepChangeKeys(mode: Mode, t0: ThermostatTable, next0: nat, entries: seq<Entry>, st: PollState)
    requires |entries| > 0
    requires LoopFrame(t0, next0, entries[..|entries| - 1], st)
    requires LoopChangeKeys(entries[..|entries| - 1], st)
    ensures LoopChangeKeys(entries, Step(mode, st, entries[|entries| - 1]))
  {
    var prefix := entries[..|entries| - 1];
    var e := entries[|entries| - 1];
    var r := Step(mode, st, e);
    ListedSnoc(entries);
    var sid := StepId(st, e);
    forall id ensures id in r.changes.revisions <==> id in r.table && r.table[id].identifier in Listed(entries) {
      if id in r.table && r.table[id].identifier in Listed(entries) && r.table[id].identifier != e.identifier {
        assert id in st.table && r.table[id] == st.table[id];
      }
      if id in r.table && r.table[id].identifier == e.identifier {
        assert id == sid;
      }
    }
  }

  lemma {:induction false} ProcessChangeKeys(mode: Mode, t0: ThermostatTable, next0: nat, entries: seq<Entry>)
    requires IdsBelowNext(t0, next0) && UniqueIdentifiers(t0)
    ensures LoopChangeKeys(entries, Process(mode, t0, next0, entries))
    decreases |entries|
  {
    if |entries| > 0 {
      var prefix := entries[..|entries| - 1];
      ProcessChangeKeys(mode, t0, next0, prefix);
      ProcessFrame(mode, t0, next0, prefix);
      StepChangeKeys(mode, t0, next0, entries, Process(mode, t0, next0, prefix));
    }
  }

  /** An entry of the prefix keeps its reported revisions when a later
      entry with another identifier is processed. */
  lemma StepKeepsEarlierValue(mode: Mode, t0: ThermostatTable, prefix: seq<Entry>, e: Entry, st: PollState, i: nat, id: nat)
    requires i < |prefix| && prefix[i].identifier != e.identifier
    requires IdsBelowNext(st.table, st.next) && UniqueIdentifiers(st.table)
    requires LoopChangeValues(mode, t0, prefix, st)
    requires var r := Step(mode, st, e); id in r.table && r.table[id].identifier == prefix[i].identifier
    ensures var r := Step(mode, st, e);
      id in r.changes.revisions && r.changes.revisions[id] == Expected(mode, t0, prefix[i], id)
  {
    var r := Step(mode, st, e);
    assert id in st.table && r.table[id] == st.table[id];
    assert id != StepId(st, e);
  }

  /** A new entry whose identifier no earlier entry mentioned reports
      against the row as the loop found it at the start. */
  lemma StepNewValue(mode: Mode, t0: ThermostatTable, next0: nat, prefix: seq<Entry>, e: Entry, st: PollState, id: nat)
    requires IdsBelowNext(t0, next0)
    requires LoopFrame(t0, next0, prefix, st)
    requires e.identifier !in Listed(prefix)
    requires var r := Step(mode, st, e); id in r.table && r.table[id].identifier == e.identifier
    ensures var r := Step(mode, st, e);
      id in r.changes.revisions && r.changes.revisions[id] == Expected(mode, t0, e, id)
  {
    var sid := StepId(st, e);
    assert id == sid;
    match FindByIdentifier(st.table, st.next, e.identifier)
    case Some(found) =>
      assert found in t0 && st.table[found] == t0[found];
    case None =>
      assert sid == st.next;
  }

  lemma StepChangeValues(mode: Mode, t0: ThermostatTable, next0: nat, entries: seq<Entry>, st: PollState)
    requires |entries| > 0 && Distinct(entries)
    requires IdsBelowNext(t0, next0)
    requires LoopFrame(t0, next0, entries[..|entries| - 1], st)
    requires LoopChangeValues(mode, t0, entries[..|entries| - 1], st)
    ensures LoopChangeValues(mode, t0, entries, Step(mode, st, entries[|entries| - 1]))
  {
    var prefix := entries[..|entries| - 1];
    var e := entries[|entries| - 1];
    var r := Step(mode, st, e);
    DistinctPrefix(entries);
    forall i, id | 0 <= i < |entries| && id in r.table && r.table[id].identifier == entries[i].identifier
      ensures id in r.changes.revisions && r.changes.revisions[id] == Expected(mode, t0, entries[i], id)
    {
      if i < |prefix| {
        assert prefix[i] == entries[i];
        assert entries[i].identifier in Listed(prefix);
        StepKeepsEarlierValue(mode, t0, prefix, e, st, i, id);
      } else {
        StepNewValue(mode, t0, next0, prefix, e, st, id);
      }
    }
  }

  lemma {:induction false} ProcessChangeValues(mode: Mode, t0: ThermostatTable, next0: nat, entries: seq<Entry>)
    requires IdsBelowNext(t0, next0) && UniqueIdentifiers(t0) && Distinct(entries)
    ensures LoopChangeValues(mode, t0, entries, Process(mode, t0, next0, entries))
    decreases |entries|
  {
    if |entries| > 0 {
      var prefix := entries[..|entries| - 1];
      DistinctPrefix(entries);
      ProcessChangeValues(mode, t0, next0, prefix);
      ProcessFrame(mode, t0, next0, prefix);
      StepChangeValues(mode, t0, next0, entries, Process(mode, t0, next0, prefix));
    }
  }

  /** After a poll every stored thermostat is marked deleted exactly
      when the reply did not list it; the surrogate id of every row that
      existed is kept, with its identifier and facets. */
  lemma PollTombstones(mode: Mode, s: Store, lines: seq<string>)
    requires Valid(s)
    ensures var r := Poll(mode, s, lines).store;
      && Valid(r)
      && (forall id :: id in r.thermostats ==> (r.thermostats[id].deleted <==> r.thermostats[id].identifier !in Listed(Entries(lines))))
      && (forall id :: id in s.thermostats ==>
            (id in r.thermostats
             && r.thermostats[id].identifier == s.thermostats[id].identifier
             && r.thermostats[id].facets == s.thermostats[id].facets))
      && (forall id :: id in r.thermostats && id !in s.thermostats ==> s.nextThermostatId <= id)
      && (forall x :: x in Listed(Entries(lines)) ==> FindByIdentifier(r.thermostats, r.nextThermostatId, x).Some?)
  {
    var t0 := Tombstone(s.thermostats);
    ProcessFrame(mode, t0, s.nextThermostatId, Entries(lines));
    var p := Process(mode, t0, s.nextThermostatId, Entries(lines));
    DeletedIffUnlisted(t0, s.nextThermostatId, Entries(lines), p);
    assert Poll(mode, s, lines).store.thermostats == p.table;
  }

  /** On a table the tombstone pass left, the loop leaves a row deleted
      exactly when no entry lists its identifier. */
  lemma DeletedIffUnlisted(t0: ThermostatTable, next0: nat, entries: seq<Entry>, p: PollState)
    requires forall id :: id in t0 ==> t0[id].deleted
    requires LoopFrame(t0, next0, entries, p)
    ensures forall id :: id in p.table ==> (p.table[id].deleted <==> p.table[id].identifier !in Listed(entries))
  {
    forall id | id in p.table ensures p.table[id].deleted <==> p.table[id].identifier !in Listed(entries) {
      LastWithListed(entries, p.table[id].identifier);
    }
  }

  /** The store invariant holds after every poll. */
  lemma PollPreservesValid(mode: Mode, s: Store, lines: seq<string>)
    ensures Valid(s) ==> Valid(Poll(mode, s, lines).store)
  {
    if Valid(s) {
      PollTombstones(mode, s, lines);
    }
  }

  /** A listed thermostat takes name, connected flag and revisions from
      the last line for it; an unlisted one keeps every column but the
      deleted flag. */
  lemma PollOverwritesListed(mode: Mode, s: Store, lines: seq<string>)
    requires Valid(s)
    ensures var r := Poll(mode, s, lines).store;
      && (forall id :: id in r.thermostats && LastWith(Entries(lines), r.thermostats[id].identifier).Some? ==>
            Reflects(r.thermostats[id], LastWith(Entries(lines), r.thermostats[id].identifier).value))
      && (forall id :: id in r.thermostats && r.thermostats[id].identifier !in Listed(Entries(lines)) ==>
            id in s.thermostats && r.thermostats[id] == s.thermostats[id].(deleted := true))
  {
    ProcessFrame(mode, Tombstone(s.thermostats), s.nextThermostatId, Entries(lines));
  }

  /** The poll reports one entry per listed thermostat, keyed by the
      surrogate id of its row, and for a reply without repeated
      identifiers each entry is the expected set of changed revisions,
      compared against the stored row as the tombstone pass left it. */
  lemma PollReports(mode: Mode, s: Store, lines: seq<string>)
    requires Valid(s)
    ensures var r := Poll(mode, s, lines);
      && WellOrdered(r.changes)
      && (forall id :: id in r.changes.revisions <==>
            id in r.store.thermostats && r.store.thermostats[id].identifier in Listed(Entries(lines)))
      && (Distinct(Entries(lines)) ==>
            forall i, id ::
              (0 <= i < |lines| && id in r.store.thermostats
               && r.store.thermostats[id].identifier == Entries(lines)[i].identifier) ==>
              r.changes.revisions[id] == Expected(mode, Tombstone(s.thermostats), Entries(lines)[i], id))
  {
    ProcessFrame(mode, Tombstone(s.thermostats), s.nextThermostatId, Entries(lines));
    ProcessChangeKeys(mode, Tombstone(s.thermostats), s.nextThermostatId, Entries(lines));
    if Distinct(Entries(lines)) {
      ProcessChangeValues(mode, Tombstone(s.thermostats), s.nextThermostatId, Entries(lines));
    }
  }

  /** A thermostat seen for the first time reports all four revisions. */
  lemma FirstSightReportsAll(mode: Mode, s: Store, lines: seq<string>, i: nat, id: nat)
    requires Valid(s) && Distinct(Entries(lines)) && i < |lines|
    requires forall j :: j in s.thermostats ==> s.thermostats[j].identifier != Entries(lines)[i].identifier
    requires var r := Poll(mode, s, lines).store;
      id in r.thermostats && r.thermostats[id].identifier == Entries(lines)[i].identifier
    ensures var c := Poll(mode, s, lines).changes;
      id in c.revisions && c.revisions[id].Keys == AllRevisions
  {
    PollReports(mode, s, lines);
    PollTombstones(mode, s, lines);
    assert Entries(lines)[i].identifier in Listed(Entries(lines));
    assert id !in s.thermostats;
  }

  lemma RevisionInRowValues(id: nat, row: Thermostat, f: Revision)
    ensures row.revisions.Get(f) in RowValues(id, row)
  {
  }

  /** An existing thermostat whose four revisions equal the stored ones
      reports nothing, in both readings. */
  lemma SameRevisionsReportNothing(mode: Mode, s: Store, lines: seq<string>, i: nat, id: nat)
    requires Valid(s) && Distinct(Entries(lines)) && i < |lines|
    requires id in s.thermostats && s.thermostats[id].identifier == Entries(lines)[i].identifier
    requires s.thermostats[id].revisions == Entries(lines)[i].revisions
    ensures var c := Poll(mode, s, lines).changes;
      id in c.revisions && c.revisions[id] == map[]
  {
    var e := Entries(lines)[i];
    PollReports(mode, s, lines);
    PollTombstones(mode, s, lines);
    var r := Poll(mode, s, lines);
    assert e.identifier in Listed(Entries(lines));
    assert id in r.store.thermostats && r.store.thermostats[id].identifier == e.identifier;
    var row := Tombstone(s.thermostats)[id];
    var d := r.changes.revisions[id];
    assert d == Diff(mode, e, id, row);
    forall f ensures f !in d {
      RevisionInRowValues(id, row, f);
    }
    assert d == map[];
  }

  /** Polling the same reply twice in a row: the second poll reports an
      empty set for every thermostat. */
  lemma SecondPollIsQuiet(mode: Mode, s: Store, lines: seq<string>)
    requires Valid(s) && Distinct(Entries(lines))
    ensures var once := Poll(mode, s, lines).store;
      forall id :: id in Poll(mode, once, lines).changes.revisions ==> Poll(mode, once, lines).changes.revisions[id] == map[]
  {
    var once := Poll(mode, s, lines).store;
    var twice := Poll(mode, once, lines);
    forall id | id in twice.changes.revisions ensures twice.changes.revisions[id] == map[] {
      QuietAt(mode, s, lines, id);
    }
  }

  /** A thermostat the second poll reports on already had a row after
      the first, under the same surrogate id. */
  lemma ReportedTwiceWasStored(mode: Mode, s: Store, lines: seq<string>, id: nat)
    requires Valid(s)
    requires id in Poll(mode, Poll(mode, s, lines).store, lines).changes.revisions
    ensures var once := Poll(mode, s, lines).store;
      && id in once.thermostats
      && once.thermostats[id].identifier in Listed(Entries(lines))
  {
    PollTombstones(mode, s, lines);
    var once := Poll(mode, s, lines).store;
    PollTombstones(mode, once, lines);
    PollReports(mode, once, lines);
    var twice := Poll(mode, once, lines).store;
    var x := twice.thermostats[id].identifier;
    var j := FindByIdentifier(once.thermostats, once.nextThermostatId, x).value;
    assert j in twice.thermostats && twice.thermostats[j].identifier == x;
  }

  lemma QuietAt(mode: Mode, s: Store, lines: seq<string>, id: nat)
    requires Valid(s) && Distinct(Entries(lines))
    requires id in Poll(mode, Poll(mode, s, lines).store, lines).changes.revisions
    ensures Poll(mode, Poll(mode, s, lines).store, lines).changes.revisions[id] == map[]
  {
    var entries := Entries(lines);
    ReportedTwiceWasStored(mode, s, lines, id);
    PollTombstones(mode, s, lines);
    PollOverwritesListed(mode, s, lines);
    var once := Poll(mode, s, lines).store;
    var x := once.thermostats[id].identifier;
    var i :| 0 <= i < |entries| && entries[i].identifier == x;
    LastOfDistinct(entries, i);
    assert once.thermostats[id].revisions == entries[i].revisions;
    SameRevisionsReportNothing(mode, once, lines, i, id);
  }

  lemma {:induction false} LastOfDistinct(entries: seq<Entry>, i: nat)
    requires Distinct(entries) && i < |entries|
    ensures LastWith(entries, entries[i].identifier) == Some(entries[i])
    decreases |entries|
  {
    if i < |entries| - 1 {
      var prefix := entries[..|entries| - 1];
      assert prefix[i] == entries[i];
      assert Distinct(prefix) by {
        forall a, b | 0 <= a < b < |prefix| ensures prefix[a].identifier != prefix[b].identifier {
          assert prefix[a] == entries[a] && prefix[b] == entries[b];
        }
      }
      LastOfDistinct(prefix, i);
    }
  }

  /** A thermostat that drops out of a reply is marked deleted under the
      same surrogate id, and is un-marked under that id when it
      reappears. */
  lemma TombstoneRoundTrip(mode: Mode, s: Store, without: seq<string>, with: seq<string>, id: nat)
    requires Valid(s) && id in s.thermostats
    requires s.thermostats[id].identifier !in Listed(Entries(without))
    requires s.thermostats[id].identifier in Listed(Entries(with))
    ensures var gone := Poll(mode, s, without).store;
      var back := Poll(mode, gone, with).store;
      && id in gone.thermostats && gone.thermostats[id].deleted
      && id in back.thermostats && !back.thermostats[id].deleted
      && back.thermostats[id].identifier == s.thermostats[id].identifier
  {
    PollTombstones(mode, s, without);
    PollTombstones(mode, Poll(mode, s, without).store, with);
  }

  /** As written, a revision whose new value is "1" is never reported for
      a known thermostat: the tombstone pass has just set the row's
      `deleted` column to 1, and `array_diff` finds the value there. */
  lemma AsWrittenMasksRevisionOne(e: Entry, id: nat, row: Thermostat, f: Revision)
    requires row.deleted && e.revisions.Get(f) == "1"
    ensures f !in Diff(AsWritten, e, id, row)
  {
  }

  /** The known thermostat of the counterexample: revisions A, B, C, D. */
  const KnownRow: Thermostat :=
    Thermostat("411", "Home", true, Revisions("A", "B", "C", "D"), true, map[])

  /** Its next summary line: only the alert revision moved, from B to C,
      which happens to be the stored runtime revision. */
  const MovedAlert: Entry := Entry("411", "Home", true, Revisions("A", "C", "C", "D"))

  /** As written the moved alert revision goes unreported; compared
      column by column it is reported with its new value. */
  lemma CoincidingRevisionMissed()
    ensures Diff(AsWritten, MovedAlert, 7, KnownRow) == map[]
    ensures Diff(Intended, MovedAlert, 7, KnownRow) == map[AlertRevision := "C"]
  {
    var w := Diff(AsWritten, MovedAlert, 7, KnownRow);
    var v := RowValues(7, KnownRow);
    assert "A" in v && "C" in v && "D" in v;
    forall f ensures f !in w {
      assert MovedAlert.revisions.Get(f) in v;
    }
    var d := Diff(Intended, MovedAlert, 7, KnownRow);
    assert AlertRevision in d;
    forall f | f in d ensures f == AlertRevision {
    }
  }

  /** The entry a poll reports for a thermostat already stored and
      listed once: the diff of its line against its row as the tombstone
      pass left it. */
  lemma KnownReport(mode: Mode, s: Store, lines: seq<string>, i: nat, id: nat)
    requires Valid(s) && Distinct(Entries(lines)) && i < |lines|
    requires id in s.thermostats && s.thermostats[id].identifier == Entries(lines)[i].identifier
    ensures var c := Poll(mode, s, lines).changes;
      id in c.revisions && c.revisions[id] == Diff(mode, Entries(lines)[i], id, s.thermostats[id].(deleted := true))
  {
    PollReports(mode, s, lines);
    PollTombstones(mode, s, lines);
    assert Entries(lines)[i].identifier in Listed(Entries(lines));
    assert Tombstone(s.thermostats)[id] == s.thermostats[id].(deleted := true);
  }

  /** Compared column by column, a poll reports a revision of a known
      thermostat exactly when its new value differs from the one stored
      before the poll, whatever the other columns hold. */
  lemma IntendedReportsEveryMove(s: Store, lines: seq<string>, i: nat, id: nat)
    requires Valid(s) && Distinct(Entries(lines)) && i < |lines|
    requires id in s.thermostats && s.thermostats[id].identifier == Entries(lines)[i].identifier
    ensures var c := Poll(Intended, s, lines).changes;
      && id in c.revisions
      && forall f :: f in c.revisions[id] <==> Entries(lines)[i].revisions.Get(f) != s.thermostats[id].revisions.Get(f)
  {
    KnownReport(Intended, s, lines, i, id);
  }

  /** The counterexample at the level of a whole poll: a stored row with
      revisions A, B, C, D and a line moving the alert revision to C. As
      written the poll reports nothing for it; compared column by column
      it reports the alert revision with its new value. */
  lemma PollMissesCoincidingRevision(s: Store, lines: seq<string>, i: nat, id: nat)
    requires Valid(s) && Distinct(Entries(lines)) && i < |lines|
    requires id in s.thermostats && s.thermostats[id] == KnownRow.(deleted := false)
    requires Entries(lines)[i] == MovedAlert
    ensures var c := Poll(AsWritten, s, lines).changes;
      id in c.revisions && c.revisions[id] == map[]
    ensures var c := Poll(Intended, s, lines).changes;
      id in c.revisions && c.revisions[id] == map[AlertRevision := "C"]
  {
    KnownReport(AsWritten, s, lines, i, id);
    KnownReport(Intended, s, lines, i, id);
    assert s.thermostats[id].(deleted := true) == KnownRow;
    CoincidingRevisionMissed();
  }
}
