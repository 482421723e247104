/** The desktop back end's persistence service (src-tauri/src/api.rs): the SQL codecs of
    `HabitType` and `EventIds`, and `HabitTrackerService` over three tables, each a sequence
    of rows in rowid order. */
module HabitTrackerApi {
  import opened Wrappers
  import opened LocalTime
  import opened Seqs
  import Models
  import Json = JsonStringArray

  type HabitType = Models.HabitType

  /** A column value as SQLite hands it to `FromSql` (rusqlite's `ValueRef`). */
  datatype SqlValue = SqlNull | SqlInteger(i: int) | SqlReal(r: real) | SqlText(text: string) | SqlBlob(bytes: seq<int>)

  datatype FromSqlError = InvalidType

  datatype ServiceError = Conversion(cause: FromSqlError) | QueryReturnedNoRows | ConstraintViolation

  // ---------------------------------------------------------------- codecs

  /** `ToSql for HabitType`. */
  function HabitTypeToSql(t: HabitType): string
  {
    match t
    case Daily => "daily"
    case AppleCalendar => "appleCalendar"
  }

  /** `FromSql for HabitType`: only the two column texts are accepted. */
  function HabitTypeFromSql(v: SqlValue): (r: Result<HabitType, FromSqlError>)
    ensures r == Ok(Models.Daily) <==> v == SqlText("daily")
    ensures r == Ok(Models.AppleCalendar) <==> v == SqlText("appleCalendar")
    ensures r.Err? <==> v != SqlText("daily") && v != SqlText("appleCalendar")
    ensures r.Err? ==> r.error == InvalidType
  {
    match v
    case SqlText(s) =>
      if s == "daily" then Ok(Models.Daily)
      else if s == "appleCalendar" then Ok(Models.AppleCalendar)
      else Err(InvalidType)
    case _ => Err(InvalidType)
  }

  /** Reading back what was written gives the same variant. */
  lemma HabitTypeRoundTrip(t: HabitType)
    ensures HabitTypeFromSql(SqlText(HabitTypeToSql(t))) == Ok(t)
  {
  }

  /** `ToSql for EventIds`: the compact JSON array of the ids. */
  function EventIdsToSql(ids: seq<string>): string
  {
    Json.Encode(ids)
  }

  /** `FromSql for EventIds`: NULL is the empty list, text must be a JSON array of strings,
      anything else is `InvalidType`. */
  function EventIdsFromSql(v: SqlValue): (r: Result<seq<string>, FromSqlError>)
    ensures v == SqlNull ==> r == Ok([])
    ensures !v.SqlNull? && !v.SqlText? ==> r == Err(InvalidType)
    ensures v.SqlText? ==> r.Ok? == Json.Decode(v.text).Ok?
    ensures r.Err? ==> r.error == InvalidType
  {
    match v
    case SqlNull => Ok([])
    case SqlText(s) =>
      (match Json.Decode(s)
       case Ok(values) => Ok(values)
       case Err(_) => Err(InvalidType))
    case _ => Err(InvalidType)
  }

  /** Reading back what was written gives the same list. */
  lemma EventIdsRoundTrip(ids: seq<string>)
    ensures EventIdsFromSql(SqlText(EventIdsToSql(ids))) == Ok(ids)
  {
    Json.DecodeEncode(ids);
  }

  /** The stored text `["1", "2", "3"]` reads as three ids; `invalid json` does not read. */
  lemma EventIdsFromSqlSamples()
    ensures EventIdsFromSql(SqlText("[\"1\", \"2\", \"3\"]")) == Ok(["1", "2", "3"])
    ensures EventIdsFromSql(SqlText("invalid json")) == Err(InvalidType)
    ensures EventIdsToSql(["1", "2"]) == "[\"1\",\"2\"]"
  {
    Json.DecodeAcceptsSpaces();
    Json.DecodeRejectsNonArray();
    Json.EncodeIsCompact();
  }

  // ---------------------------------------------------------------- rows and records

  /** A row of the `habit` table as stored: the type and the event ids are SQL values. */
  datatype HabitRow = HabitRow(id: int, habitType: SqlValue, eventIds: SqlValue, title: string, question: string)

  datatype Habit = Habit(id: int, habitType: HabitType, eventIds: seq<string>, title: string, question: string)

  /** A row of `habitEntry`; `date` is the insertion time (`CURRENT_TIMESTAMP`). */
  datatype HabitEntry = HabitEntry(id: int, habitId: int, completed: bool, date: Instant)

  /** A row of `appleCalendarEvent`. */
  datatype AppleCalendarEvent = AppleCalendarEvent(id: string, name: string, startDate: Instant, recurrence: string)

  datatype CreateHabitRequest = CreateHabitRequest(habitType: HabitType, eventIds: seq<string>, title: string, question: string)

  datatype UpdateHabitRequest = UpdateHabitRequest(id: int, habitType: HabitType, eventIds: seq<string>, title: string, question: string)

  datatype InsertHabitEntryItem = InsertHabitEntryItem(habitId: int, completed: bool)

  /** `Habit::from_row`. */
  function HabitFromRow(row: HabitRow): Result<Habit, FromSqlError>
  {
    match HabitTypeFromSql(row.habitType)
    case Err(e) => Err(e)
    case Ok(t) =>
      match EventIdsFromSql(row.eventIds)
      case Err(e) => Err(e)
      case Ok(ids) => Ok(Habit(row.id, t, ids, row.title, row.question))
  }

  /** The row `INSERT INTO habit` / `UPDATE habit` writes for these fields. */
  function EncodeHabitRow(id: int, t: HabitType, ids: seq<string>, title: string, question: string): HabitRow
  {
    HabitRow(id, SqlText(HabitTypeToSql(t)), SqlText(EventIdsToSql(ids)), title, question)
  }

  /** A written row reads back as exactly the fields written. */
  lemma HabitRowRoundTrip(id: int, t: HabitType, ids: seq<string>, title: string, question: string)
    ensures HabitFromRow(EncodeHabitRow(id, t, ids, title, question)) == Ok(Habit(id, t, ids, title, question))
  {
    HabitTypeRoundTrip(t);
    EventIdsRoundTrip(ids);
  }

  /** SQLite's rowid for a new row of a table without AUTOINCREMENT: one more than the
      largest rowid (the last one, rows being in rowid order), or 1 for an empty table. */
  function NextHabitId(rows: seq<HabitRow>): int
  {
    if rows == [] then 1 else rows[|rows| - 1].id + 1
  }

  function NextEntryId(rows: seq<HabitEntry>): int
  {
    if rows == [] then 1 else rows[|rows| - 1].id + 1
  }

  ghost predicate HabitIdsIncreasing(rows: seq<HabitRow>)
  {
    (forall i :: 0 <= i < |rows| ==> rows[i].id >= 1) &&
    forall i, j :: 0 <= i < j < |rows| ==> rows[i].id < rows[j].id
  }

  ghost predicate EntryIdsIncreasing(rows: seq<HabitEntry>)
  {
    (forall i :: 0 <= i < |rows| ==> rows[i].id >= 1) &&
    forall i, j :: 0 <= i < j < |rows| ==> rows[i].id < rows[j].id
  }

  /** No two events share an id (the table's primary key). */
  predicate DistinctEventIds(events: seq<AppleCalendarEvent>)
  {
    forall i, j :: 0 <= i < j < |events| ==> events[i].id != events[j].id
  }

  predicate HasHabitId(rows: seq<HabitRow>, id: int)
  {
    exists i :: 0 <= i < |rows| && rows[i].id == id
  }

  /** `SELECT * FROM habit WHERE id = ?1` read with `query_row`: the row's record, or
      `QueryReturnedNoRows` when there is none. */
  function SelectHabit(rows: seq<HabitRow>, id: int): (r: Result<Habit, ServiceError>)
    ensures r == Err(QueryReturnedNoRows) <==> !HasHabitId(rows, id)
  {
    match Find(rows, (row: HabitRow) => row.id == id)
    case None => Err(QueryReturnedNoRows)
    case Some(row) =>
      match HabitFromRow(row)
      case Err(e) => Err(Conversion(e))
      case Ok(h) => Ok(h)
  }

  /** A row's decoding error as the service reports it. */
  function ToServiceResult(r: Result<Habit, FromSqlError>): Result<Habit, ServiceError>
  {
    match r
    case Ok(h) => Ok(h)
    case Err(e) => Err(Conversion(e))
  }

  /** With unique ids, selecting a row's id reads that very row. */
  lemma SelectHabitAt(rows: seq<HabitRow>, i: nat)
    requires i < |rows|
    requires forall j, k :: 0 <= j < k < |rows| ==> rows[j].id < rows[k].id
    ensures SelectHabit(rows, rows[i].id) == ToServiceResult(HabitFromRow(rows[i]))
  {
    var p := (row: HabitRow) => row.id == rows[i].id;
    var f := Find(rows, p);
    assert p(rows[i]);
    assert f.Some?;
    var k :| 0 <= k < |rows| && rows[k] == f.value;
    assert rows[k].id == rows[i].id;
  }

  ghost predicate AllHabitsDecode(rows: seq<HabitRow>)
  {
    forall i :: 0 <= i < |rows| ==> HabitFromRow(rows[i]).Ok?
  }

  /** Appending a decodable row under the next id keeps ids increasing and rows decodable. */
  lemma AppendHabitRow(rows: seq<HabitRow>, row: HabitRow)
    requires HabitIdsIncreasing(rows) && AllHabitsDecode(rows)
    requires row.id == NextHabitId(rows) && HabitFromRow(row).Ok?
    ensures HabitIdsIncreasing(rows + [row]) && AllHabitsDecode(rows + [row])
    ensures forall i :: 0 <= i < |rows| ==> rows[i].id < row.id
  {
    var t := rows + [row];
    assert forall i :: 0 <= i < |rows| ==> t[i] == rows[i];
    assert t[|rows|] == row;
  }

  /** Rewriting rows with a decodable row under the same id keeps ids and decodability. */
  lemma UpdateRowsKeepsInvariant(rows: seq<HabitRow>, id: int, row: HabitRow)
    requires HabitIdsIncreasing(rows) && AllHabitsDecode(rows)
    requires row.id == id && HabitFromRow(row).Ok?
    ensures HabitIdsIncreasing(UpdateRows(rows, id, row)) && AllHabitsDecode(UpdateRows(rows, id, row))
  {
    var t := UpdateRows(rows, id, row);
    assert forall i :: 0 <= i < |rows| ==> t[i].id == rows[i].id;
    forall i | 0 <= i < |t|
      ensures HabitFromRow(t[i]).Ok?
    {
      if rows[i].id == id {
        assert t[i] == row;
      } else {
        assert t[i] == rows[i];
      }
    }
  }

  /** After the update, selecting the id reads the new row; with no such id nothing changed. */
  lemma UpdateRowsSelect(rows: seq<HabitRow>, id: int, row: HabitRow)
    requires HabitIdsIncreasing(rows)
    requires row.id == id
    ensures HasHabitId(rows, id) ==> SelectHabit(UpdateRows(rows, id, row), id) == ToServiceResult(HabitFromRow(row))
    ensures !HasHabitId(rows, id) ==> UpdateRows(rows, id, row) == rows
  {
    var t := UpdateRows(rows, id, row);
    assert forall i :: 0 <= i < |rows| ==> t[i].id == rows[i].id;
    if HasHabitId(rows, id) {
      var k :| 0 <= k < |rows| && rows[k].id == id;
      assert t[k] == row;
      SelectHabitAt(t, k);
    } else {
      assert forall i :: 0 <= i < |rows| ==> t[i] == rows[i];
    }
  }

  /** What `update_habit` leaves behind: the table still satisfies its invariant, and the
      select that follows reads the request's fields back when the id exists, or finds no
      row (the table unchanged) when it does not. */
  lemma UpdateHabitOutcome(rows: seq<HabitRow>, request: UpdateHabitRequest)
    requires HabitIdsIncreasing(rows) && AllHabitsDecode(rows)
    ensures var t := UpdateRows(rows, request.id, EncodeHabitRow(request.id, request.habitType, request.eventIds, request.title, request.question));
            HabitIdsIncreasing(t) && AllHabitsDecode(t) &&
            (HasHabitId(rows, request.id) ==>
              SelectHabit(t, request.id) == Ok(Habit(request.id, request.habitType, request.eventIds, request.title, request.question))) &&
            (!HasHabitId(rows, request.id) ==> t == rows && SelectHabit(t, request.id) == Err(QueryReturnedNoRows))
  {
    var row := EncodeHabitRow(request.id, request.habitType, request.eventIds, request.title, request.question);
    HabitRowRoundTrip(request.id, request.habitType, request.eventIds, request.title, request.question);
    UpdateRowsKeepsInvariant(rows, request.id, row);
    UpdateRowsSelect(rows, request.id, row);
  }

  /** `UPDATE habit SET ... WHERE id = ?5`: every row with that id gets the new values. */
  function UpdateRows(rows: seq<HabitRow>, id: int, row: HabitRow): (r: seq<HabitRow>)
    ensures |r| == |rows|
    ensures forall i :: 0 <= i < |rows| ==> r[i] == if rows[i].id == id then row else rows[i]
  {
    if rows == [] then []
    else [if rows[0].id == id then row else rows[0]] + UpdateRows(rows[1..], id, row)
  }

  /** The rows `insert_habit_entries` appends: one per item, in order, with consecutive
      ids from `firstId`, all stamped with the insertion time. */
  function NewEntries(firstId: int, items: seq<InsertHabitEntryItem>, now: Instant): (r: seq<HabitEntry>)
    ensures |r| == |items|
    ensures forall i :: 0 <= i < |items| ==> r[i] == HabitEntry(firstId + i, items[i].habitId, items[i].completed, now)
  {
    seq(|items|, i requires 0 <= i < |items| => HabitEntry(firstId + i, items[i].habitId, items[i].completed, now))
  }

  /** `SELECT * FROM (SELECT * FROM habitEntry ORDER BY id DESC LIMIT n) ORDER BY id ASC`:
      the n rows with the largest ids, in ascending order, i.e. the last n rows. */
  function NewestEntries(rows: seq<HabitEntry>, n: nat): seq<HabitEntry>
  {
    if n <= |rows| then rows[|rows| - n..] else rows
  }

  /** One insert of `insert_habit_entries`: the next row extends the new entries by one,
      with the next id, and keeps the ids increasing. */
  lemma InsertEntryStep(base: seq<HabitEntry>, rows: seq<HabitEntry>, first: int, request: seq<InsertHabitEntryItem>, i: nat, now: Instant)
    requires i < |request|
    requires rows == base + NewEntries(first, request[..i], now)
    requires EntryIdsIncreasing(rows) && NextEntryId(rows) == first + i
    ensures var rows' := rows + [HabitEntry(NextEntryId(rows), request[i].habitId, request[i].completed, now)];
            rows' == base + NewEntries(first, request[..i + 1], now) &&
            EntryIdsIncreasing(rows') && NextEntryId(rows') == first + i + 1
  {
    var e := HabitEntry(first + i, request[i].habitId, request[i].completed, now);
    AppendEntryKeepsIncreasing(rows, e);
    NewEntriesSnoc(first, request, i, now);
  }

  /** A row with the next id keeps the ids increasing. */
  lemma AppendEntryKeepsIncreasing(rows: seq<HabitEntry>, e: HabitEntry)
    requires EntryIdsIncreasing(rows) && e.id == NextEntryId(rows)
    ensures EntryIdsIncreasing(rows + [e]) && NextEntryId(rows + [e]) == e.id + 1
  {
    var t := rows + [e];
    forall a, b | 0 <= a < b < |t|
      ensures t[a].id < t[b].id
    {
      if b < |rows| {
        assert t[a] == rows[a] && t[b] == rows[b];
      } else {
        assert t[a] == rows[a] && a <= |rows| - 1;
        if a < |rows| - 1 {
          assert rows[a].id < rows[|rows| - 1].id;
        }
      }
    }
  }

  /** The new rows for one more item are those for the items before it plus one row. */
  lemma NewEntriesSnoc(first: int, request: seq<InsertHabitEntryItem>, i: nat, now: Instant)
    requires i < |request|
    ensures NewEntries(first, request[..i + 1], now) ==
      NewEntries(first, request[..i], now) + [HabitEntry(first + i, request[i].habitId, request[i].completed, now)]
  {
    assert request[..i + 1] == request[..i] + [request[i]];
  }

  predicate ContainsEventId(events: seq<AppleCalendarEvent>, id: string)
  {
    exists i :: 0 <= i < |events| && events[i].id == id
  }

  /** The insert loop of `insert_habit_entries` inside its transaction: one row per item,
      in request order, each with the next rowid; the result is the table the commit leaves. */
  method InsertEntries(rows: seq<HabitEntry>, request: seq<InsertHabitEntryItem>, now: Instant) returns (staged: seq<HabitEntry>)
    requires EntryIdsIncreasing(rows)
    ensures staged == rows + NewEntries(NextEntryId(rows), request, now)
    ensures EntryIdsIncreasing(staged)
  {
    staged := rows;
    var first := NextEntryId(rows);
    var i := 0;
    while i < |request|
      invariant 0 <= i <= |request|
      invariant staged == rows + NewEntries(first, request[..i], now)
      invariant EntryIdsIncreasing(staged)
      invariant NextEntryId(staged) == first + i
    {
      var item := request[i];
      InsertEntryStep(rows, staged, first, request, i, now);
      staged := staged + [HabitEntry(NextEntryId(staged), item.habitId, item.completed, now)];
      i := i + 1;
    }
    assert request[..i] == request;
  }

  // ---------------------------------------------------------------- the service

  class HabitTrackerService {
    var habits: seq<HabitRow>
    var entries: seq<HabitEntry>
    var events: seq<AppleCalendarEvent>

    /** Rows are in increasing rowid order, every stored habit decodes, event ids are unique. */
    ghost predicate Valid()
      reads this
    {
      HabitIdsIncreasing(habits) &&
      AllHabitsDecode(habits) &&
      EntryIdsIncreasing(entries) &&
      DistinctEventIds(events)
    }

    /** `HabitTrackerService::build` on a new database file: three empty tables. */
    constructor Build()
      ensures Valid()
      ensures habits == [] && entries == [] && events == []
    {
      habits, entries, events := [], [], [];
    }

    /** `create_habit`: inserts one row with a fresh id and returns it as read back, which is
        exactly the request's fields under that id. */
    method CreateHabit(request: CreateHabitRequest) returns (r: Result<Habit, ServiceError>)
      requires Valid()
      modifies this
      ensures Valid()
      ensures habits == old(habits) + [EncodeHabitRow(NextHabitId(old(habits)), request.habitType, request.eventIds, request.title, request.question)]
      ensures r == Ok(Habit(NextHabitId(old(habits)), request.habitType, request.eventIds, request.title, request.question))
      ensures forall i :: 0 <= i < |old(habits)| ==> old(habits)[i].id < NextHabitId(old(habits))
      ensures entries == old(entries) && events == old(events)
    {
      var id := NextHabitId(habits);
      var row := EncodeHabitRow(id, request.habitType, request.eventIds, request.title, request.question);
      HabitRowRoundTrip(id, request.habitType, request.eventIds, request.title, request.question);
      AppendHabitRow(habits, row);
      SelectHabitAt(habits + [row], |habits|);
      habits := habits + [row];
      r := SelectHabit(habits, id);
    }

    /** `get_habit_entries`: every entry, in rowid order. */
    method GetHabitEntries() returns (r: seq<HabitEntry>)
      ensures r == entries
    {
      r := entries;
    }

    /** `get_habits`: every habit row decoded, in rowid order; with the invariant kept by
        the service, decoding never fails. */
    method GetHabits() returns (r: Result<seq<Habit>, FromSqlError>)
      ensures r == MapResults(habits, HabitFromRow)
      ensures Valid() ==> r.Ok? && |r.value| == |habits|
      ensures Valid() ==> forall i :: 0 <= i < |habits| ==> r.value[i].id == habits[i].id
    {
      var decoded: seq<Habit> := [];
      var i := 0;
      while i < |habits|
        invariant 0 <= i <= |habits|
        invariant MapResults(habits[..i], HabitFromRow) == Ok(decoded)
      {
        match HabitFromRow(habits[i])
        case Err(e) =>
          MapResultsPrefixError(habits, i, HabitFromRow, decoded);
          return Err(e);
        case Ok(h) =>
          MapResultsPrefixStep(habits, i, HabitFromRow, decoded, h);
          decoded := decoded + [h];
        i := i + 1;
      }
      assert habits[..i] == habits;
      r := Ok(decoded);
    }

    /** `update_habit`: overwrites type, event ids, title and question of the row with the
        request's id and returns it; no other row changes; with no such row nothing changes
        and the result is `QueryReturnedNoRows`. */
    method UpdateHabit(request: UpdateHabitRequest) returns (r: Result<Habit, ServiceError>)
      requires Valid()
      modifies this
      ensures Valid()
      ensures |habits| == |old(habits)|
      ensures forall i :: 0 <= i < |habits| ==>
        habits[i] == if old(habits)[i].id == request.id
          then EncodeHabitRow(request.id, request.habitType, request.eventIds, request.title, request.question)
          else old(habits)[i]
      ensures HasHabitId(old(habits), request.id) ==>
        r == Ok(Habit(request.id, request.habitType, request.eventIds, request.title, request.question))
      ensures !HasHabitId(old(habits), request.id) ==> r == Err(QueryReturnedNoRows) && habits == old(habits)
      ensures entries == old(entries) && events == old(events)
    {
      var row := EncodeHabitRow(request.id, request.habitType, request.eventIds, request.title, request.question);
      var updated := UpdateRows(habits, request.id, row);
      UpdateHabitOutcome(habits, request);
      r := SelectHabit(updated, request.id);
      habits := updated;
    }

    /** `insert_habit_entries`: one insert per item, in request order, inside one
        transaction; the result is exactly the new rows, with ascending fresh ids and the
        items' habit ids and completion flags. */
    method InsertHabitEntries(request: seq<InsertHabitEntryItem>, now: Instant) returns (r: seq<HabitEntry>)
      requires Valid()
      modifies this
      ensures Valid()
      ensures entries == old(entries) + NewEntries(NextEntryId(old(entries)), request, now)
      ensures r == NewEntries(NextEntryId(old(entries)), request, now)
      ensures forall i :: 0 <= i < |old(entries)| ==> old(entries)[i].id < NextEntryId(old(entries))
      ensures habits == old(habits) && events == old(events)
    {
      var staged := InsertEntries(entries, request, now);
      r := NewestEntries(staged, |request|);
      assert r == staged[|entries|..];
      entries := staged;
    }

    /** `get_apple_calendar_events`: every event, in insertion order. */
    method GetAppleCalendarEvents() returns (r: seq<AppleCalendarEvent>)
      ensures r == events
    {
      r := events;
    }

    /** `reset_apple_calendar_events`: inside one transaction, deletes every event and
        inserts the request's in order. A repeated id violates the primary key: the
        transaction is dropped uncommitted, the table keeps its old events and the call fails.
        Otherwise the table, and the result, are exactly the request. */
    method ResetAppleCalendarEvents(request: seq<AppleCalendarEvent>) returns (r: Result<seq<AppleCalendarEvent>, ServiceError>)
      requires Valid()
      modifies this
      ensures Valid()
      ensures DistinctEventIds(request) ==> events == request && r == Ok(request)
      ensures !DistinctEventIds(request) ==> events == old(events) && r == Err(ConstraintViolation)
      ensures habits == old(habits) && entries == old(entries)
    {
      var table: seq<AppleCalendarEvent> := [];
      var i := 0;
      while i < |request|
        invariant 0 <= i <= |request|
        invariant table == request[..i] && DistinctEventIds(table)
      {
        if ContainsEventId(table, request[i].id) {
          var j :| 0 <= j < |table| && table[j].id == request[i].id;
          assert request[j].id == request[i].id;
          return Err(ConstraintViolation);
        }
        table := table + [request[i]];
        i := i + 1;
      }
      assert table == request;
      events := table;
      r := Ok(events);
    }
  }

  /** The back end's integration test of habits, for any field values: on a new database
      two creates get ids 1 and 2, an update of id 1 rewrites the first, and `get_habits`
      returns the updated first habit and the untouched second, in that order. */
  method HabitMethodsScenario(a: CreateHabitRequest, b: CreateHabitRequest, u: UpdateHabitRequest)
    returns (firstId: int, secondId: int, all: Result<seq<Habit>, FromSqlError>)
    requires u.id == 1
    ensures firstId == 1 && secondId == 2
    ensures all == Ok([Habit(1, u.habitType, u.eventIds, u.title, u.question),
                       Habit(2, b.habitType, b.eventIds, b.title, b.question)])
  {
    var service := new HabitTrackerService.Build();
    var first := service.CreateHabit(a);
    firstId := first.value.id;
    var second := service.CreateHabit(b);
    secondId := second.value.id;
    assert HasHabitId(service.habits, 1) by { assert service.habits[0].id == 1; }
    var updated := service.UpdateHabit(u);
    var one := Habit(1, u.habitType, u.eventIds, u.title, u.question);
    var two := Habit(2, b.habitType, b.eventIds, b.title, b.question);
    assert service.habits[0] == EncodeHabitRow(1, one.habitType, one.eventIds, one.title, one.question);
    assert service.habits[1] == EncodeHabitRow(2, two.habitType, two.eventIds, two.title, two.question);
    HabitRowRoundTrip(1, one.habitType, one.eventIds, one.title, one.question);
    HabitRowRoundTrip(2, two.habitType, two.eventIds, two.title, two.question);
    all := service.GetHabits();
    assert all.value[0] == one && all.value[1] == two;
    assert all.value == [one, two];
  }

  /** The back end's integration test of entries: after two creates, inserting an entry for
      habit 2 and one for habit 1 returns exactly those two, with ids 1 and 2, in order. */
  method EntryMethodsScenario(a: CreateHabitRequest, b: CreateHabitRequest, now: Instant)
    returns (inserted: seq<HabitEntry>)
    ensures inserted == [HabitEntry(1, 2, true, now), HabitEntry(2, 1, false, now)]
  {
    var service := new HabitTrackerService.Build();
    var first := service.CreateHabit(a);
    var second := service.CreateHabit(b);
    inserted := service.InsertHabitEntries([InsertHabitEntryItem(2, true), InsertHabitEntryItem(1, false)], now);
  }

  /** The back end's integration test of calendar events: a reset with three events returns
      those three, and a second reset with one event leaves only that one. */
  method EventMethodsScenario(e1: AppleCalendarEvent, e2: AppleCalendarEvent, e3: AppleCalendarEvent, e4: AppleCalendarEvent)
    returns (firstReset: Result<seq<AppleCalendarEvent>, ServiceError>, secondReset: Result<seq<AppleCalendarEvent>, ServiceError>)
    requires e1.id != e2.id && e1.id != e3.id && e2.id != e3.id
    ensures firstReset == Ok([e1, e2, e3])
    ensures secondReset == Ok([e4])
  {
    var service := new HabitTrackerService.Build();
    firstReset := service.ResetAppleCalendarEvents([e1, e2, e3]);
    secondReset := service.ResetAppleCalendarEvents([e4]);
  }
}
