/** `sync_runtime_report()`: the report window, the wire rows and the
    `insert ... on duplicate key update` into `sqlbee_runtime_report`.

    Times are integer seconds. The server's zone offset (`date('Z')`) is
    taken as 0, so the seconds are UTC and the wall-clock date and time of
    an instant `t` are day `t / 86400` and second `t % 86400` of that day.
    The date/time text of a wire row is turned into seconds by a calendar
    function the caller supplies (PHP's `strtotime`). */
module RuntimeReport {
  import opened Results
  import opened Text
  import opened JsonValues
  import opened Schema

  /** A report column: its name on the wire and its table column. */
  datatype Column = Column(wire: string, name: string)

  /** The mapped columns, in the order the request asks for them and the
      rows return them. */
  const Columns: seq<Column> := [
    Column("auxHeat1", "auxiliary_heat_1"),
    Column("auxHeat2", "auxiliary_heat_2"),
    Column("auxHeat3", "auxiliary_heat_3"),
    Column("compCool1", "compressor_cool_1"),
    Column("compCool2", "compressor_cool_2"),
    Column("compHeat1", "compressor_heat_1"),
    Column("compHeat2", "compressor_heat_2"),
    Column("dehumidifier", "dehumidifier"),
    Column("dmOffset", "demand_management_offset"),
    Column("economizer", "economizer"),
    Column("fan", "fan"),
    Column("humidifier", "humidifier"),
    Column("outdoorHumidity", "outdoor_humidity"),
    Column("outdoorTemp", "outdoor_temperature"),
    Column("sky", "sky"),
    Column("ventilator", "ventilator"),
    Column("wind", "wind"),
    Column("zoneAveTemp", "zone_average_temperature"),
    Column("zoneCalendarEvent", "zone_calendar_event"),
    Column("zoneCoolTemp", "zone_cool_temperature"),
    Column("zoneHeatTemp", "zone_heat_temperature"),
    Column("zoneHumidity", "zone_humidity"),
    Column("zoneHumidityHigh", "zone_humidity_high"),
    Column("zoneHumidityLow", "zone_humidity_low"),
    Column("zoneHvacMode", "zone_hvac_mode"),
    Column("zoneOccupancy", "zone_occupancy")]

  /** The number of metric values a row must carry: one per column. */
  const MetricCount: nat := |Columns|

  function WireNames(): (r: seq<string>)
    ensures |r| == |Columns|
    ensures forall i :: 0 <= i < |r| ==> r[i] == Columns[i].wire
  {
    seq(|Columns|, i requires 0 <= i < |Columns| => Columns[i].wire)
  }

  /** The `columns` member of the request: the wire names joined by
      commas. */
  function ColumnList(): string {
    Join(WireNames(), ',')
  }

  /** How far back the window reaches before the newest stored row. */
  const Lag: int := 3600 * 2

  /** The start of the report window: two hours before the timestamp of
      the most recently inserted report row of ANY thermostat (the query
      is not filtered by thermostat), or two hours before now on an empty
      table. */
  function StartTime(t: ReportTable, now: int): (r: int)
    ensures |t.order| == 0 ==> r == now - Lag
    ensures |t.order| > 0 ==> r + Lag == t.order[|t.order| - 1].timestamp
  {
    if |t.order| == 0 then now - Lag else t.order[|t.order| - 1].timestamp - Lag
  }

  /** The minute of the day an instant falls in. */
  function MinuteOfDay(t: int): (r: nat)
    ensures r < 24 * 60
  {
    (t % 86400) / 60
  }

  /** The five-minute interval of the day an instant is reported in:
      `H * 12 + round(i / 5)` with `H` and `i` the hour and minute of the
      day. The interval index is the five-minute mark nearest to the
      minute (never a tie, since a minute is never exactly halfway
      between two marks), so it ranges over 0..288, 288 being the
      midnight mark reached from 23:58 on. */
  function IntervalIndex(t: int): (r: nat)
    ensures r <= 288
    ensures -2 <= 5 * r - MinuteOfDay(t) <= 2
  {
    var s := t % 86400;
    var hour := s / 3600;
    var minute := (s % 3600) / 60;
    assert MinuteOfDay(t) == hour * 60 + minute;
    hour * 12 + (minute + 2) / 5
  }

  /** The last interval of the day is the midnight mark, 288, which a
      minute index never names on its own. */
  lemma LateMinutesReachMidnightMark(day: int)
    ensures IntervalIndex(day * 86400 + 23 * 3600 + 58 * 60) == 288
    ensures IntervalIndex(day * 86400 + 23 * 3600 + 57 * 60) == 287
  {
    var t := day * 86400 + 23 * 3600 + 58 * 60;
    assert t % 86400 == 23 * 3600 + 58 * 60;
    var u := day * 86400 + 23 * 3600 + 57 * 60;
    assert u % 86400 == 23 * 3600 + 57 * 60;
  }

  /** Within one day the interval index never goes backwards. */
  lemma IntervalMonotone(a: int, b: int)
    requires a <= b && a / 86400 == b / 86400
    ensures IntervalIndex(a) <= IntervalIndex(b)
  {
    assert a % 86400 <= b % 86400;
    assert MinuteOfDay(a) <= MinuteOfDay(b);
  }

  /** A point of the report window: the day number and the interval. */
  datatype Mark = Mark(day: int, interval: nat)

  function MarkOf(t: int): Mark {
    Mark(t / 86400, IntervalIndex(t))
  }

  /** The request body of lines 465-481. Dates travel as day numbers. */
  function WindowBody(identifier: string, start: int, end: int): (r: Json)
    ensures Get(Get(r, "selection"), "selectionType") == JStr("thermostats")
    ensures Get(Get(r, "selection"), "selectionMatch") == JStr(identifier)
    ensures Get(r, "startDate") == JNum(start / 86400) && Get(r, "startInterval") == JNum(IntervalIndex(start))
    ensures Get(r, "endDate") == JNum(end / 86400) && Get(r, "endInterval") == JNum(IntervalIndex(end))
    ensures Get(r, "columns") == JStr(ColumnList())
  {
    JObj(map[
      "selection" := JObj(map["selectionType" := JStr("thermostats"), "selectionMatch" := JStr(identifier)]),
      "startDate" := JNum(MarkOf(start).day),
      "startInterval" := JNum(MarkOf(start).interval),
      "endDate" := JNum(MarkOf(end).day),
      "endInterval" := JNum(MarkOf(end).interval),
      "columns" := JStr(ColumnList())])
  }

  /** A wire row after the trailing comma is dropped, the row exploded on
      commas and every field trimmed. */
  function Fields(raw: string): (r: seq<string>)
    ensures |r| == |Split(DropLast(raw), ',')|
    ensures forall i :: 0 <= i < |r| ==> r[i] == Trim(Split(DropLast(raw), ',')[i])
  {
    var parts := Split(DropLast(raw), ',');
    seq(|parts|, i requires 0 <= i < |parts| => Trim(parts[i]))
  }

  /** `str_replace('""', 'null', ...)`: an empty value is stored as NULL. */
  function Cell(v: string): (r: Option<string>)
    ensures r.None? <==> v == ""
    ensures r.Some? ==> r.value == v
  {
    if v == "" then None else Some(v)
  }

  /** A parsed row: where it goes and the metric values it carries. */
  datatype WireRow = WireRow(key: ReportKey, values: Metrics)

  /** A wire row of thermostat `id`: fields 0 and 1 are date and time
      (read as empty when missing), joined by a space and converted to
      seconds; the remaining fields, in order, are the metric values. */
  function ParseRow(id: nat, raw: string, calendar: string -> int): (r: WireRow)
    ensures r.key.thermostatId == id
    ensures r.key.timestamp == calendar(Field(Fields(raw), 0) + " " + Field(Fields(raw), 1))
    ensures |r.values| == if |Fields(raw)| >= 2 then |Fields(raw)| - 2 else 0
    ensures forall i :: 0 <= i < |r.values| ==> r.values[i] == Cell(Fields(raw)[i + 2])
  {
    var fs := Fields(raw);
    var rest := if |fs| >= 2 then fs[2..] else [];
    WireRow(
      ReportKey(id, calendar(Field(fs, 0) + " " + Field(fs, 1))),
      seq(|rest|, i requires 0 <= i < |rest| => Cell(rest[i])))
  }

  /** A field the service can send so that it survives the parse: no
      comma and no surrounding blanks. */
  predicate Clean(v: string) {
    ',' !in v && (v == [] || (!IsSpace(v[0]) && !IsSpace(v[|v| - 1])))
  }

  function CellText(c: Option<string>): string {
    match c
    case None => ""
    case Some(v) => v
  }

  /** The wire text of a row: date, time and the values, each followed by
      a comma. */
  function FormatRow(date: string, time: string, values: Metrics): string {
    Join([date, time] + ValueTexts(values), ',') + ","
  }

  predicate CleanRow(date: string, time: string, values: Metrics) {
    && Clean(date) && Clean(time)
    && forall i :: 0 <= i < |values| ==> values[i] != Some("") && Clean(CellText(values[i]))
  }

  /** The values of a row as the fields the service sends. */
  function ValueTexts(values: Metrics): (r: seq<string>)
    ensures |r| == |values|
  {
    seq(|values|, i requires 0 <= i < |values| => CellText(values[i]))
  }

  /** A row whose text, less its last character, explodes into clean
      fields has exactly those fields. */
  lemma FieldsOfClean(raw: string, parts: seq<string>)
    requires Split(DropLast(raw), ',') == parts
    requires forall i :: 0 <= i < |parts| ==> Clean(parts[i])
    ensures Fields(raw) == parts
  {
    var fs := Fields(raw);
    forall i | 0 <= i < |parts| ensures fs[i] == parts[i] {
      CleanFieldKept(raw, parts, i);
    }
    SameElements(fs, parts);
  }

  lemma CleanFieldKept(raw: string, parts: seq<string>, i: nat)
    requires Split(DropLast(raw), ',') == parts
    requires i < |parts| && Clean(parts[i])
    ensures Fields(raw)[i] == parts[i]
  {
    TrimmedIsFixed(parts[i]);
  }

  lemma SameElements<T>(a: seq<T>, b: seq<T>)
    requires |a| == |b| && forall i :: 0 <= i < |a| ==> a[i] == b[i]
    ensures a == b
  {
  }

  /** The fields of a formatted clean row are its date, time and values. */
  lemma FieldsOfFormat(date: string, time: string, values: Metrics)
    requires CleanRow(date, time, values)
    ensures Fields(FormatRow(date, time, values)) == [date, time] + ValueTexts(values)
  {
    var parts := [date, time] + ValueTexts(values);
    var raw := FormatRow(date, time, values);
    assert DropLast(raw) == Join(parts, ',');
    forall i | 0 <= i < |parts| ensures Clean(parts[i]) {
      if i >= 2 {
        assert parts[i] == CellText(values[i - 2]);
      }
    }
    SplitJoin(parts, ',');
    FieldsOfClean(raw, parts);
  }

  /** Parsing the wire text of a row gives back its key and values. */
  lemma ParseFormatRow(id: nat, date: string, time: string, values: Metrics, calendar: string -> int)
    requires CleanRow(date, time, values)
    ensures ParseRow(id, FormatRow(date, time, values), calendar) == WireRow(ReportKey(id, calendar(date + " " + time)), values)
  {
    FieldsOfFormat(date, time, values);
    ParseRowOfFields(id, FormatRow(date, time, values), calendar, date, time, values);
  }

  /** A row whose fields are a date, a time and the texts of non-empty
      values parses to that timestamp and those values. */
  lemma ParseRowOfFields(id: nat, raw: string, calendar: string -> int, date: string, time: string, values: Metrics)
    requires Fields(raw) == [date, time] + ValueTexts(values)
    requires forall i :: 0 <= i < |values| ==> values[i] != Some("")
    ensures ParseRow(id, raw, calendar) == WireRow(ReportKey(id, calendar(date + " " + time)), values)
  {
    var fs := Fields(raw);
    assert Field(fs, 0) == date && Field(fs, 1) == time;
    var r := ParseRow(id, raw, calendar);
    assert |r.values| == |values|;
    forall i | 0 <= i < |values| ensures r.values[i] == values[i] {
      assert fs[i + 2] == ValueTexts(values)[i];
      CellOfText(values[i]);
    }
    SameElements(r.values, values);
  }

  lemma CellOfText(c: Option<string>)
    requires c != Some("")
    ensures Cell(CellText(c)) == c
  {
  }

  /** One row of the upsert: a new key is inserted (and gets the next
      surrogate id, so it goes to the end of the insertion order); a
      known key has every column overwritten and keeps its place. */
  function Upsert(t: ReportTable, row: WireRow): (r: ReportTable)
    ensures r.rows.Keys == t.rows.Keys + {row.key}
    ensures r.rows[row.key] == row.values
    ensures forall k :: k in t.rows && k != row.key ==> r.rows[k] == t.rows[k]
    ensures row.key in t.rows ==> r.order == t.order
    ensures row.key !in t.rows ==> r.order == t.order + [row.key]
    ensures OrderCoversRows(t) ==> OrderCoversRows(r)
  {
    ReportTable(
      t.rows[row.key := row.values],
      if row.key in t.rows then t.order else t.order + [row.key])
  }

  /** The rows of one statement, applied in order. */
  function UpsertAll(t: ReportTable, rows: seq<WireRow>): (r: ReportTable)
    ensures OrderCoversRows(t) ==> OrderCoversRows(r)
    ensures t.rows.Keys <= r.rows.Keys
    ensures forall i :: 0 <= i < |rows| ==> rows[i].key in r.rows
    decreases |rows|
  {
    if |rows| == 0 then t else Upsert(UpsertAll(t, rows[..|rows| - 1]), rows[|rows| - 1])
  }

  /** When the last row of a statement is a new key, the next window
      starts two hours before that row's timestamp: the newest inserted
      row is the one `order by ... desc limit 1` reads. */
  lemma NewLastRowSetsStart(t: ReportTable, rows: seq<WireRow>, now: int)
    requires |rows| > 0 && rows[|rows| - 1].key !in UpsertAll(t, rows[..|rows| - 1]).rows
    ensures StartTime(UpsertAll(t, rows), now) == rows[|rows| - 1].key.timestamp - Lag
  {
  }

  /** The values of the last row for a key: the one a statement leaves. */
  function LastFor(rows: seq<WireRow>, k: ReportKey): (r: Option<Metrics>)
    ensures r.None? <==> forall i :: 0 <= i < |rows| ==> rows[i].key != k
    decreases |rows|
  {
    if |rows| == 0 then None
    else if rows[|rows| - 1].key == k then Some(rows[|rows| - 1].values)
    else
      var r := LastFor(rows[..|rows| - 1], k);
      assert forall i :: 0 <= i < |rows| - 1 ==> rows[..|rows| - 1][i] == rows[i];
      r
  }

  /** What a statement leaves under a key: last write wins, and a key no
      row names keeps its stored values. */
  function Merged(t: ReportTable, rows: seq<WireRow>, k: ReportKey): Option<Metrics> {
    match LastFor(rows, k)
    case Some(v) => Some(v)
    case None => if k in t.rows then Some(t.rows[k]) else None
  }

  /** The upsert in closed form. */
  lemma {:induction false} UpsertAllIsLastWriteWins(t: ReportTable, rows: seq<WireRow>)
    ensures forall k :: k in UpsertAll(t, rows).rows <==> Merged(t, rows, k).Some?
    ensures forall k :: k in UpsertAll(t, rows).rows ==> UpsertAll(t, rows).rows[k] == Merged(t, rows, k).value
    decreases |rows|
  {
    if |rows| > 0 {
      UpsertAllIsLastWriteWins(t, rows[..|rows| - 1]);
    }
  }

  /** Rows whose keys are all stored already leave the insertion order
      alone. */
  lemma {:induction false} KnownKeysKeepOrder(t: ReportTable, rows: seq<WireRow>)
    requires forall i :: 0 <= i < |rows| ==> rows[i].key in t.rows
    ensures UpsertAll(t, rows).order == t.order
    decreases |rows|
  {
    if |rows| > 0 {
      var prefix := rows[..|rows| - 1];
      assert forall i :: 0 <= i < |prefix| ==> prefix[i] == rows[i];
      KnownKeysKeepOrder(t, prefix);
      UpsertAllIsLastWriteWins(t, prefix);
    }
  }

  /** Applying the same rows twice leaves what applying them once left. */
  lemma UpsertIdempotent(t: ReportTable, rows: seq<WireRow>)
    ensures UpsertAll(UpsertAll(t, rows), rows) == UpsertAll(t, rows)
  {
    var once := UpsertAll(t, rows);
    KnownKeysKeepOrder(once, rows);
    UpsertAgainKeepsRows(t, rows);
  }

  /** The row map half of `UpsertIdempotent`. */
  lemma UpsertAgainKeepsRows(t: ReportTable, rows: seq<WireRow>)
    ensures UpsertAll(UpsertAll(t, rows), rows).rows == UpsertAll(t, rows).rows
  {
    var once := UpsertAll(t, rows);
    UpsertAllIsLastWriteWins(t, rows);
    UpsertAllIsLastWriteWins(once, rows);
    var twice := UpsertAll(once, rows);
    forall k ensures (k in twice.rows <==> k in once.rows) && (k in twice.rows ==> twice.rows[k] == once.rows[k]) {
      assert Merged(once, rows, k).Some? <==> Merged(t, rows, k).Some?;
    }
  }

  /** Keys already stored come first in the insertion order, unchanged. */
  lemma {:induction false} UpsertAllKeepsOlderOrder(t: ReportTable, rows: seq<WireRow>)
    ensures |t.order| <= |UpsertAll(t, rows).order|
    ensures UpsertAll(t, rows).order[..|t.order|] == t.order
    ensures forall i :: |t.order| <= i < |UpsertAll(t, rows).order| ==>
      UpsertAll(t, rows).order[i] !in t.rows && LastFor(rows, UpsertAll(t, rows).order[i]).Some?
    decreases |rows|
  {
    if |rows| > 0 {
      var prefix := rows[..|rows| - 1];
      UpsertAllKeepsOlderOrder(t, prefix);
      UpsertAllIsLastWriteWins(t, prefix);
      var mid := UpsertAll(t, prefix);
      var r := UpsertAll(t, rows);
      forall i | |t.order| <= i < |r.order| ensures r.order[i] !in t.rows && LastFor(rows, r.order[i]).Some? {
        if i < |mid.order| {
          assert r.order[i] == mid.order[i];
          var k := mid.order[i];
          var j :| 0 <= j < |prefix| && prefix[j].key == k;
          assert rows[j] == prefix[j];
        }
      }
    }
  }

  /** The report statement: every parsed row becomes one value tuple. It
      is invalid SQL when there are no rows, and MySQL rejects it whole
      when any tuple does not have one value per column. */
  function Insert(t: ReportTable, rows: seq<WireRow>): (r: Result<ReportTable>)
    ensures r.Ok? <==> |rows| > 0 && forall i :: 0 <= i < |rows| ==> |rows[i].values| == MetricCount
    ensures r.Err? ==> r.fault == QueryFailed
    ensures r.Ok? ==> r.value == UpsertAll(t, rows)
  {
    if |rows| == 0 then Err(QueryFailed)
    else if exists i :: 0 <= i < |rows| && |rows[i].values| != MetricCount then Err(QueryFailed)
    else Ok(UpsertAll(t, rows))
  }

  /** The wire rows of a reply: `reportList[0].rowList`, each cast to a
      string. */
  function RowTexts(reply: Json): (r: seq<string>)
    ensures |r| == |Items(Get(At(Get(reply, "reportList"), 0), "rowList"))|
  {
    var items := Items(Get(At(Get(reply, "reportList"), 0), "rowList"));
    seq(|items|, i requires 0 <= i < |items| => AsText(items[i]))
  }

  function ParseRows(id: nat, raws: seq<string>, calendar: string -> int): (r: seq<WireRow>)
    ensures |r| == |raws|
    ensures forall i :: 0 <= i < |raws| ==> r[i] == ParseRow(id, raws[i], calendar)
  {
    seq(|raws|, i requires 0 <= i < |raws| => ParseRow(id, raws[i], calendar))
  }

  /** Every row of a report statement is filed under the thermostat the
      report was fetched for. */
  lemma ReportRowsBelongToThermostat(t: ReportTable, id: nat, raws: seq<string>, calendar: string -> int, k: ReportKey)
    requires Insert(t, ParseRows(id, raws, calendar)).Ok?
    requires k in Insert(t, ParseRows(id, raws, calendar)).value.rows && k !in t.rows
    ensures k.thermostatId == id
  {
    var rows := ParseRows(id, raws, calendar);
    UpsertAllIsLastWriteWins(t, rows);
    assert LastFor(rows, k).Some?;
    var i :| 0 <= i < |rows| && rows[i].key == k;
    assert rows[i] == ParseRow(id, raws[i], calendar);
  }

  /** Re-fetching a window that returns rows already stored does not move
      the start of the next window. */
  lemma RefetchKeepsStart(t: ReportTable, rows: seq<WireRow>, now: int)
    requires forall i :: 0 <= i < |rows| ==> rows[i].key in t.rows
    ensures StartTime(UpsertAll(t, rows), now) == StartTime(t, now)
  {
    KnownKeysKeepOrder(t, rows);
  }
}
