# Habit tracker core in Dafny

A habit-tracking desktop app: a Rust (Tauri) back end keeps habits, daily entries and
Apple-calendar events in SQLite, and a React front end validates forms, tracks habits and
shows monthly statistics. This project models the deterministic core of both sides and
proves what each part promises.

The model by area:

- **Persistence service.** `HabitTrackerApi` models `src-tauri/src/api.rs`:
  - the SQL codecs of `HabitType` and `EventIds`;
  - `HabitTrackerService` over three tables, each a sequence of rows in rowid order.

  `LegacyApi` models the earlier `src/api.rs`. `JsonStringArray` is the subset of RFC 8259
  that the event-id column uses: a JSON array of strings (section 5 for arrays, section 7
  for strings). It has an encoder, a parser, and the round trip between them.
- **Form rules.** `Schemas` models the two Zod schemas of `src/forms/schemas.ts`:
  - Zod 4's order of checks;
  - which issues abort parsing;
  - the `superRefine` rule that a calendar habit needs an event id.
- **Dialogs, pages and components.**
  - `HabitFormDialog`, `HabitFormComponent`, `HabitFormPage`: the habit forms.
  - `HabitTrackerFormDialog`, `HabitTrackerFormComponent`, `HabitTrackerPage`: the track
    forms.
  - `Dashboard`, `HabitSummaryInfo`, `HabitTrackerCalendar`, `CalendarTile`: the dashboard
    and calendar views.
  - `Navigation` and `HabitStore`: the navigation state and the habit store.

  Code that changes state in place is modelled with classes:
  - the store;
  - the navigation context;
  - the form states;
  - the entry objects that the track forms mutate;
  - the `Date` objects that `datesAreEqual` moves to midnight.

  What a handler does (calling the back end, closing a dialog, navigating) is returned as
  an ordered list of effects.
- **Converters and dates.** `Converters` models `src/api/converters.ts`. `DateHelpers` and
  `Utils` model the date helpers. `LocalTime` gives instants as milliseconds of local
  wall-clock time and a proleptic Gregorian calendar for months.

Two pairs of files repeat each other:

- src/components/ui/Calendar.tsx repeats src/components/Calendar.tsx.
- src/lib/utils.ts has a `datesAreEqual` with the same body as the one in src/date-helpers.ts.

`CalendarTile` and `DateHelpers.DatesAreEqual` model both copies of each.

"Now", the insertion time of entries, and the results of back-end calls are all
parameters.

The files come from several snapshots of the app. Each file is modelled as written:

- `src/api/converters.ts` builds create and update requests without `eventIds`.
- `src-tauri/src/api.rs` and its integration tests carry `event_ids`, so the service model
  does too.

The track forms take their schema as a function parameter, because `getTrackHabitFormSchema`
is not part of this model. Properties that need concrete rules are proved against
`trackHabitFormSchema` (`Schemas.SafeParseTrackForm`).

## Model

| member | source | states |
|---|---|---|
| `HabitTrackerApi.HabitTypeFromSql` | src-tauri/src/api.rs:22-31 | Column text `"daily"` decodes to `Daily` and `"appleCalendar"` to `AppleCalendar` (each an if-and-only-if). Every other value, text or not, is `InvalidType`. |
| `HabitTrackerApi.HabitTypeRoundTrip` | src-tauri/src/api.rs:22-41 | Decoding the text that `to_sql` writes gives back the same variant, for both variants. |
| `HabitTrackerApi.EventIdsFromSql` | src-tauri/src/api.rs:48-57 | NULL decodes to the empty list. Text decodes exactly when it is a JSON array of strings. Any other SQL type is rejected. Every failure is `InvalidType`. |
| `HabitTrackerApi.EventIdsRoundTrip` | src-tauri/src/api.rs:48-65 | Decoding what `to_sql` writes gives back the same list, for every list of ids. |
| `HabitTrackerApi.EventIdsFromSqlSamples` | src-tauri/src/api.rs:317-343 | The stored text `["1", "2", "3"]` reads as three ids, `invalid json` is `InvalidType`, and `["1","2"]` encodes compactly. |
| `HabitTrackerApi.HabitRowRoundTrip` | src-tauri/src/api.rs:76-86 | A row written with some type, event ids, title and question reads back through `Habit::from_row` as exactly those fields. |
| `HabitTrackerApi.SelectHabit` | src-tauri/src/api.rs:186-190 | `query_row` by id fails with `QueryReturnedNoRows` exactly when no row has that id. |
| `HabitTrackerApi.SelectHabitAt` | src-tauri/src/api.rs:216-220 | With unique ids, selecting a row's id reads that very row. |
| `HabitTrackerApi.AppendHabitRow` | src-tauri/src/api.rs:175-185 | A row under the next rowid keeps ids increasing and rows decodable. Its id is larger than every earlier id. |
| `HabitTrackerApi.UpdateRows` | src-tauri/src/api.rs:206-215 | The `UPDATE` keeps the table's length and order. It rewrites every row with the id and leaves every other row as it was. |
| `HabitTrackerApi.UpdateRowsKeepsInvariant` | src-tauri/src/api.rs:206-215 | The update keeps ids increasing and every row decodable. |
| `HabitTrackerApi.UpdateRowsSelect` | src-tauri/src/api.rs:205-221 | After the update, selecting an id that exists reads the new row. An id that does not exist leaves the table unchanged. |
| `HabitTrackerApi.UpdateHabitOutcome` | src-tauri/src/api.rs:205-221 | The result of `update_habit` is the request's fields when the id exists, and `QueryReturnedNoRows` with the table unchanged when it does not. The table invariant holds either way. |
| `HabitTrackerApi.NewEntries` | src-tauri/src/api.rs:231-237 | The inserted rows: one per item, in request order. Ids are consecutive from the first fresh id. Habit id and `completed` are copied from the item. |
| `HabitTrackerApi.InsertEntryStep` | src-tauri/src/api.rs:231-237 | One insert of the loop extends the new rows by the next item under the next id, and keeps ids increasing. |
| `HabitTrackerApi.AppendEntryKeepsIncreasing` | src-tauri/src/api.rs:236 | A row inserted under the next rowid keeps the entry ids increasing. |
| `HabitTrackerApi.InsertEntries` | src-tauri/src/api.rs:227-239 | The insert loop leaves the old rows followed by exactly the new rows, with ids still increasing. |
| `HabitTrackerApi.HabitTrackerService.Build` | src-tauri/src/api.rs:135-173 | A new database has three empty tables, and the service invariant holds. |
| `HabitTrackerApi.HabitTrackerService.CreateHabit` | src-tauri/src/api.rs:175-191 | Appends one row under a fresh id larger than every existing id, and returns exactly the request's fields under that id. The other tables are unchanged. |
| `HabitTrackerApi.HabitTrackerService.GetHabitEntries` | src-tauri/src/api.rs:193-197 | Returns every entry, in rowid order. |
| `HabitTrackerApi.HabitTrackerService.GetHabits` | src-tauri/src/api.rs:199-203 | Returns every row decoded in order, or the first decoding error. While the service invariant holds it always succeeds, with one habit per row and the same ids. |
| `HabitTrackerApi.HabitTrackerService.UpdateHabit` | src-tauri/src/api.rs:205-221 | Overwrites type, event ids, title and question of the row with the request's id, and only that row, then returns those fields. With no such row: nothing changes and the result is `QueryReturnedNoRows`. |
| `HabitTrackerApi.HabitTrackerService.InsertHabitEntries` | src-tauri/src/api.rs:223-246 | Appends one row per item, in request order, with ascending fresh ids. Returns exactly those new rows, the last `n` of the table. Habits and events are unchanged. |
| `HabitTrackerApi.HabitTrackerService.GetAppleCalendarEvents` | src-tauri/src/api.rs:248-253 | Returns every event, in insertion order. |
| `HabitTrackerApi.HabitTrackerService.ResetAppleCalendarEvents` | src-tauri/src/api.rs:255-281 | With distinct ids, the table and the result are exactly the request. A repeated id violates the primary key: the table keeps its old events and the call fails. |
| `HabitTrackerApi.HabitMethodsScenario` | src-tauri/tests/integration_tests.rs:17-65 | For any field values: two creates get ids 1 and 2. An update of id 1 rewrites the first habit. `get_habits` returns the updated first habit and the untouched second. |
| `HabitTrackerApi.EntryMethodsScenario` | src-tauri/tests/integration_tests.rs:69-116 | Inserting entries for habit 2 (done) and habit 1 (not done) returns exactly those two, with ids 1 and 2, in request order. |
| `HabitTrackerApi.EventMethodsScenario` | src-tauri/tests/integration_tests.rs:120-176 | A reset with three events returns those three, and a later reset with one event leaves only that one. |
| `JsonStringArray.DecodeEncode` | src-tauri/src/api.rs:48-65 | `from_str(to_string(v)) == v` for every list of strings. |
| `JsonStringArray.DecodeLayout` | src-tauri/src/api.rs:52 | The parser reads back any list written with any whitespace after the commas. |
| `JsonStringArray.ParseLaidOutElements` | src-tauri/src/api.rs:52 | The elements of such a list, closed by `]`, parse to the list and leave the rest of the text. |
| `JsonStringArray.ParseEncodedString` | src-tauri/src/api.rs:52-61 | Every string, once quoted and escaped, parses back to itself. |
| `JsonStringArray.ParseEscapedString` | src-tauri/src/api.rs:52-61 | The escaped characters of a string, then the closing quote, parse back to the string. |
| `JsonStringArray.ParseEscapedChar` | src-tauri/src/api.rs:61 | Each character's escaped form (a short escape, `\u00xx` for the other control characters, itself otherwise) reads back as that character. |
| `JsonStringArray.EncodeIsCompact` | src-tauri/src/api.rs:330-341 | `["1","2"]` is written with no space after its comma. |
| `JsonStringArray.DecodeAcceptsSpaces` | src-tauri/src/api.rs:319-324 | `["1", "2", "3"]`, with spaces after the commas, reads as three strings. |
| `JsonStringArray.DecodeRejectsNonArray` | src-tauri/src/api.rs:325-328 | The text `invalid json` is rejected. |
| `Seqs.MapResults` | src-tauri/src/api.rs:199-203 | Collecting mapped rows succeeds exactly when every row maps to `Ok`. It then holds each row's value in order. Otherwise it is the error of the first failing row. |
| `LegacyApi.LegacyHabitRowRoundTrip` | src/api.rs:14-52 | A habit row written with some type, label and question label reads back as exactly those fields. |
| `LegacyApi.IntegerAffinitySpec` | src/api.rs:124 | Text bound to the `INTEGER` column `habitId` stays text exactly when it is not a number. A number keeps its exact value: it is stored as an integer when that value is an integer in the 64-bit range, and as a real otherwise. |
| `LegacyApi.DigitTextAffinity` | src/api.rs:124 | A run of decimal digits whose value fits 64 bits is stored as that integer. |
| `LegacyApi.IntegerAffinitySamples` | src/api.rs:124 | `"-1"`, `" +7 "`, `"1.0"`, `"3e2"` and `"3.0e+5"` are stored as the integers -1, 7, 1, 300 and 300000. `"1.5"` is stored as a real, and `"1e"` and `"abc"` stay text. |
| `LegacyApi.CreateTable` | src/api.rs:110-128 | Creating a table succeeds exactly when every name in its CHECK constraints is one of its columns. A failure names a CHECK name that is not a column. |
| `LegacyApi.LegacyBuildFailsOnNewFile` | src/api.rs:113 | As written, `build` fails on a new database file with "no such column: type". It succeeds only when the tables already exist. |
| `LegacyApi.LegacyBuildSucceeds` | src/api.rs:109-129 | With the CHECK naming `habitType`, the only change, `build` creates both tables on a new file. |
| `LegacyApi.LegacyEntryFromRow` | src/api.rs:62-70 | As written (`habit_id: String`), an entry row decodes exactly when its stored habit id is text. |
| `LegacyApi.EntryFromRow` | src/api.rs:62-70 | Reading `habit_id` as an integer, an entry row decodes exactly when its stored habit id is an integer. |
| `LegacyApi.LegacyEntryUnreadable` | src/api.rs:54-70 | As written, an inserted entry reads back exactly when its habit id is not a number. For a numeric habit id (integer or real) the result is `InvalidType`. |
| `LegacyApi.LegacyEntryUnreadableSample` | src/api.rs:165-179 | The entry inserted for habit `"1"` does not read back. |
| `LegacyApi.EntryReadable` | src/api.rs:62-70 | Reading the id as an integer, an inserted entry reads back exactly when SQLite stored its habit id as an integer. It then has that integer, the item's flag and the insertion time. |
| `LegacyApi.MatchCount` | src/api.rs:153-163 | The number of rows the `UPDATE` touches is at most the table size, and zero exactly when no row's id matches the key. |
| `LegacyApi.MatchCountAtMostOne` | src/api.rs:153-163 | With increasing ids, at most one row matches. |
| `LegacyApi.UpdateLegacyRows` | src/api.rs:155 | The table keeps its length and order. Rows whose id matches get the new type, label and question label, and the other rows are unchanged. |
| `LegacyApi.LegacyHabitTrackerService.Build` | src/api.rs:105-132 | With the CHECK naming `habitType`, building on a new file creates both tables, and they are empty. |
| `LegacyApi.LegacyHabitTrackerService.CreateHabit` | src/api.rs:134-139 | Appends one row with the request's type, label and question label under a fresh id, and reports one row changed. |
| `LegacyApi.LegacyHabitTrackerService.UpdateHabit` | src/api.rs:153-163 | Rewrites the row whose id the `habit_id` text denotes under SQLite's numeric affinity (text such as `"1.0"` or `" +7 "` denotes an integer id) and reports the number of changed rows. That number is 1 exactly when such a row exists and 0 otherwise, in which case nothing changes. |
| `LegacyApi.LegacyHabitTrackerService.GetHabits` | src/api.rs:147-151 | Returns every row decoded in order, or the first decoding error. |
| `LegacyApi.LegacyHabitTrackerService.GetHabitEntries` | src/api.rs:141-145 | Returns every entry decoded (habit id as an integer) in order, or the first decoding error. |
| `LegacyApi.LegacyHabitTrackerService.InsertHabitEntries` | src/api.rs:165-179 | Appends one row per item, in request order, with consecutive fresh ids, the item's flag, the insertion time and the habit id as SQLite stores it. Earlier rows and the habits are unchanged. |
| `LegacyApi.InsertThenReadEntries` | src/api.rs:165-179 | With the corrected reader, entries inserted into new tables read back exactly when every habit id was stored as an integer. They come in order, with ids 1, 2, …, those integers and the requested flags. Otherwise the read fails with `InvalidType`. |
| `LegacyApi.ReadInsertedRows` | src/api.rs:141-145 | Rows inserted from id 1 on decode exactly when every habit id was stored as an integer, with those ids and values. Otherwise decoding fails with `InvalidType`. |
| `Schemas.SafeParseHabitForm` | src/forms/schemas.ts:3-26 | A rejected form always carries at least one issue. |
| `Schemas.SafeParseHabitFormSpec` | src/forms/schemas.ts:3-26 | The schema accepts exactly these forms: a type of `"Daily"` or `"AppleCalendar"`, an event id that is a string or absent, a title and a question of 2 to 100 UTF-16 code units, and a non-empty event id when the type is `AppleCalendar`. An accepted form returns those fields. |
| `Schemas.CalendarHabitNeedsEventId` | src/forms/schemas.ts:18-26 | A calendar habit with valid fields but a missing or empty event id is rejected with exactly one issue, a custom one on the path `eventId`. |
| `Schemas.DailyHabitWithoutEventId` | src/forms/schemas.ts:8 | A daily habit with valid fields and no event id is accepted as it is. |
| `Schemas.ShortTitleAndMissingEvent` | src/forms/schemas.ts:9-26 | A title that is too short does not stop the refinement: a calendar habit without an event gets both issues, in order. |
| `Schemas.TrackEntryIssues` | src/forms/schemas.ts:37-40 | An entry has no issue exactly when its `habitId` is a number of at least 1 and `completed` is a boolean. |
| `Schemas.SafeParseTrackForm` | src/forms/schemas.ts:35-42 | The track form is accepted exactly when every entry is valid. It then returns the entries' values in order. Otherwise every issue points to an invalid entry. |
| `Schemas.EmptyTrackFormValid` | src/forms/schemas.ts:36 | The empty entry list is valid. |
| `HabitFormDialog.IsActiveEventIdSpec` | src/forms/HabitFormDialog.tsx:66 | The `find` over the active events succeeds exactly when some active event has the id. |
| `HabitFormDialog.RemoveActiveEventsSpec` | src/forms/HabitFormDialog.tsx:64-68 | `removeActiveEvents` keeps exactly the ids of no active event, each as often as it occurs, in their original order. |
| `HabitFormDialog.SubmittedEventIds` | src/forms/HabitFormDialog.tsx:97-100 | For a new habit the submitted `eventIds` is `[eventId]` when one is set and `[]` otherwise. For an edit it is the habit's ids with those of active events removed, followed by the chosen id when one is set. |
| `HabitFormDialog.SubmittedEventIdsSpec` | src/forms/HabitFormDialog.tsx:97-100 | An edit submits the habit's ids of no active event, each as often and in the order it occurs there, then the chosen id when one is set. No other id appears. |
| `HabitFormDialog.DefaultEventId` | src/forms/HabitFormDialog.tsx:79-81 | The default event is the first active event, in active-list order, whose id is among the habit's event ids. It is undefined exactly when there is none. |
| `HabitFormDialog.DefaultValues` | src/forms/HabitFormDialog.tsx:74-85 | An edited habit's title, question, type and default event are the defaults. A new habit defaults to `Daily` exactly when the calendar feature is off, and has no type when it is on. |
| `HabitFormDialog.OnHabitTypeChange` | src/forms/HabitFormDialog.tsx:146-151 | Choosing a type sets it. Choosing `Daily` also clears the event id, another type keeps it, and the other fields are kept. |
| `HabitFormDialog.OnSubmit` | src/forms/HabitFormDialog.tsx:96-114 | An edit submits the data with the habit's id, then closes. A creation submits the data without an id, resets the form, then closes. |
| `HabitFormDialog.SubmitThenReopenSelectsChosen` | src/forms/HabitFormDialog.tsx:74-106 | After an update that chose an active event, reopening the dialog on the updated habit preselects that event. |
| `HabitFormDialog.SubmitKeepsInactiveIds` | src/forms/HabitFormDialog.tsx:97-100 | An update keeps every previous event id that is not an active event. |
| `HabitFormDialog.SubmitWithoutEventSelectsNone` | src/forms/HabitFormDialog.tsx:97-100 | An update with no event chosen leaves the habit with no active event id, so reopening preselects none. |
| `Dashboard.ActiveCalendarEventsSpec` | src/Dashboard.tsx:56-59 | An event is active exactly when its rule has no `until` or ends after now. Each active event appears as often as in the store, in store order. |
| `Dashboard.FirstTrackedDay` | src/Dashboard.tsx:69-73 | Without entries: the start of today. Otherwise: the midnight of one of the entries, at or before every entry. |
| `Dashboard.GetHabitContext` | src/Dashboard.tsx:61-77 | For the `undefined` first habit of an empty store, the call throws exactly when there is an entry or an event to filter. Otherwise the context carries the habit given. |
| `Dashboard.GetHabitContextSpec` | src/Dashboard.tsx:65-77 | A habit's context holds exactly the entries with its id and exactly the events whose id is among its event ids, each as often as in the store and in store order. Its first tracked day is that of those entries. |
| `Dashboard.ShowWarningIconSpec` | src/Dashboard.tsx:143-151 | The warning shows exactly for a calendar habit none of whose event ids is an active event. That is exactly when its edit dialog preselects no event. |
| `Dashboard.MonthlyEntriesSpec` | src/Dashboard.tsx:234-236 | The monthly summary gets exactly the context's entries in the viewed month, each as often as in the context, in order. |
| `Dashboard.ShowTrackHabitsDialogSpec` | src/Dashboard.tsx:172 | For a context that was computed, the "Track habits" dialog is offered exactly when the context has a habit and nothing was tracked today. The first render of an empty store never offers it. |
| `Dashboard.MonthlyUpperBound` | src/Dashboard.tsx:237-241 | The monthly interval ends at the earlier of the end of the viewed month and the end of today. |
| `Dashboard.DashboardState.constructor` | src/Dashboard.tsx:61-113 | The first render selects the context of the store's first habit and views the current month. |
| `Dashboard.DashboardState.SelectHabit` | src/Dashboard.tsx:137-139 | Clicking a habit selects its context and keeps the viewed month. |
| `Dashboard.DashboardState.OnMonthChange` | src/Dashboard.tsx:230 | A month change sets the viewed month and keeps the context. |
| `HabitSummaryInfo.RoundedPercent` | src/components/HabitSummaryInfo.tsx:20-22 | The percentage is the integer within one half of 100·a/b, with halves rounded up. |
| `HabitSummaryInfo.RoundedPercentRange` | src/components/HabitSummaryInfo.tsx:20-26 | A part of a whole rounds to 0–100. As many entries as days or more gives at least 100: there is no clamp. |
| `HabitSummaryInfo.SummaryInfo` | src/components/HabitSummaryInfo.tsx:19-57 | `totalPossible` is the number of interval days, and the completed count is the number of completed entries (at most the entry count). The tracking rate shows exactly when `totalPossible > 0`, and is entries over days as a rounded percentage. The completion rate shows exactly when there is an entry, and is completed over entries as a rounded percentage. The completion rate and setbacks lie in 0–100. The tracking rate reaches 100 or more with at least as many entries as days. |
| `HabitSummaryInfo.TotalCompletedCounts` | src/components/HabitSummaryInfo.tsx:23 | The completed count is the number of entries marked completed. |
| `HabitSummaryInfo.SummarySamples` | src/components/HabitSummaryInfo.tsx:20-26 | 3 of 4 gives 75, 5 of 4 gives 125, 1 of 3 gives 33 and 2 of 3 gives 67. |
| `HabitTrackerCalendar.TileContent` | src/components/HabitTrackerCalendar.tsx:40-64 | A day outside the viewed month is blank, exactly. Otherwise the tile shows the day of the month and is outlined exactly on today. |
| `HabitTrackerCalendar.TileFillSpec` | src/components/HabitTrackerCalendar.tsx:44-58 | A day with an entry is primary or secondary, by whether the first entry on that day is completed. A day without one is accent exactly when it is in the interval. |
| `HabitTrackerCalendar.FirstEntryDecides` | src/components/HabitTrackerCalendar.tsx:44-46 | With two entries on one day, the first in list order decides the fill. |
| `HabitTrackerCalendar.ArrowsStopAtEnds` | src/components/HabitTrackerCalendar.tsx:29-38 | There is no previous arrow on the first tracked month and no next arrow on the current month. Some arrow shows unless the first tracked day and today fall in the same month. |
| `HabitTrackerCalendar.ForwardMonthChange` | src/components/HabitTrackerCalendar.tsx:65-67 | A month change is forwarded exactly when the new start date is set and a handler is given. |
| `CalendarTile.MarkFor` | src/components/Calendar.tsx:12-19 | No mark exactly when no entry falls on the day. Otherwise ✓ or ✗, by whether the first entry on that day is completed. |
| `CalendarTile.TileContent` | src/components/Calendar.tsx:11-20 | The search compares entries in order until one matches, and the mark is that of the entries as they were. Each compared entry date and the tile date are left at midnight, and every other date is unchanged. |
| `DateHelpers.DatesAreEqual` | src/date-helpers.ts:3-5 | True exactly when the two dates were on the same local day. Both dates are left at the midnight of their day. |
| `DateHelpers.GetFirstTrackedDayOfMonth` | src/date-helpers.ts:7-18 | For a non-empty list: at or after the start of the current month and at or after some entry. The result is either that month start or an entry at or before every entry. |
| `Utils.GetFirstTrackedDayOfMonth` | src/lib/utils.ts:13-29 | Undefined exactly for no entries. Otherwise the later of the month start and the earliest entry: at or after both, and equal to one of them. |
| `LocalTime.SameDayIffSameMidnight` | src/lib/utils.ts:9-11 | Two instants fall on the same day exactly when their midnights are equal. |
| `LocalTime.JsDate.SetToMidnight` | src/lib/utils.ts:10 | `setHours(0, 0, 0, 0)` moves the date to the midnight of its day and returns that timestamp. |
| `LocalTime.StartOfDayIdempotent` | src/date-helpers.ts:4 | Moving a date already at midnight leaves it there. |
| `LocalTime.Earliest` | src/lib/utils.ts:19-21 | `Math.min` of a non-empty list is one of its elements and at most each of them. |
| `HabitStore.ReplaceById` | src/store/habit.ts:31-38 | The update keeps the length. It replaces every habit with the updated id and leaves the others unchanged. |
| `HabitStore.ReplaceByIdKeepsIds` | src/store/habit.ts:33-36 | The ids, in order, are the same after the update. |
| `HabitStore.ReplaceByIdIdempotent` | src/store/habit.ts:33-36 | Applying the same update twice is applying it once. |
| `HabitStore.ReplaceByIdMembership` | src/store/habit.ts:33-36 | When the id is in the list, the updated habit is in the new list. When it is not, the list is unchanged. |
| `HabitStore.HabitStore.constructor` | src/store/habit.ts:20 | The store starts with no habits. |
| `HabitStore.HabitStore.FetchHabits` | src/store/habit.ts:21-24 | The list becomes the fetched habits. |
| `HabitStore.HabitStore.CreateHabit` | src/store/habit.ts:25-30 | The created habit is appended at the end, and earlier habits are unchanged. |
| `HabitStore.HabitStore.UpdateHabit` | src/store/habit.ts:31-38 | The list becomes the replace-by-id of the old one, with the same ids in the same order. |
| `Converters.ConvertFormDataToCreateHabitRequest` | src/api/converters.ts:15-23 | The request copies type, title and question. |
| `Converters.ConvertFormDataToUpdateHabitRequest` | src/api/converters.ts:25-34 | The request copies id, type, title and question. |
| `Converters.ConvertFormDataToInsertHabitEntriesRequest` | src/api/converters.ts:36-45 | One item per entry, in order, with `habit_id` and `completed` copied. |
| `Converters.ConvertDtoToHabit` | src/api/converters.ts:47-54 | The habit copies id, type, title and question. |
| `Converters.ConvertDtoToHabitEntry` | src/api/converters.ts:56-63 | The entry copies id, habit id, `completed` and date. |
| `Converters.CreateRequestDropsEventIds` | src/api/converters.ts:15-23 | Forms that differ only in their event ids give the same create request. |
| `Converters.UpdateRequestExtendsCreate` | src/api/converters.ts:25-34 | The update request is the create request of the same data plus the id. |
| `Converters.TrackedEntriesRoundTrip` | src/api/converters.ts:36-63 | The rows the back end inserts for a converted track form convert back to the form's habit ids and flags, in order, with consecutive ids. |
| `Converters.UpdateRoundTrip` | src/api/converters.ts:25-54 | The habit the back end returns for a converted update request converts back to the form's id, type, title and question. |
| `Navigation.HabitIdParam` | src/pages/HabitForm.tsx:13-14 | `params?.habitId` is set exactly for habit-form params that carry an id, and it is that id. |
| `Navigation.NavigationContext.Provider` | src/Navigation.tsx:27-29 | The provider starts on the dashboard with no params. |
| `Navigation.NavigationContext.Default` | src/Navigation.tsx:21-25 | The context default is the dashboard with no params. |
| `Navigation.NavigationContext.Navigate` | src/Navigation.tsx:31-37 | The provider shows the requested page with exactly the given params. The default's `navigate` changes nothing. The params keep fitting the page. |
| `Navigation.NavigationScenario` | src/Navigation.tsx:31-37 | Opening the habit form for habit 7 gives that page and id. Going back gives the dashboard with no id. |
| `HabitTrackerFormDialog.Coerce` | src/forms/HabitTrackerFormDialog.tsx:84 | `!!checked` is false only for an unchecked box; "indeterminate" counts as checked. |
| `HabitTrackerFormDialog.DefaultEntries` | src/forms/HabitTrackerFormDialog.tsx:44-49 | One entry per habit, in order, with the habit's id and not completed. |
| `HabitTrackerFormDialog.OnCheckedChange` | src/forms/HabitTrackerFormDialog.tsx:81-86 | Only the changed entry's `completed` changes, to the coerced state. Its habit id and every other entry are kept. |
| `HabitTrackerFormDialog.Submit` | src/forms/HabitTrackerFormDialog.tsx:42-55 | Submission passes exactly when every habit id is at least 1. It then calls `trackHabits` with the entries and closes. Otherwise each issue points to an offending entry. |
| `HabitTrackerFormDialog.OnCheckedChangeKeepsValidity` | src/forms/HabitTrackerFormDialog.tsx:81-86 | A checkbox change never changes whether the form submits. |
| `HabitTrackerFormDialog.DefaultEntriesSubmit` | src/forms/HabitTrackerFormDialog.tsx:44-55 | For positive habit ids, submitting the defaults tracks every habit as not completed, in order, then closes. |
| `HabitTrackerFormComponent.ValidateEffects` | src/forms/HabitTrackerForm.tsx:35-46 | An invalid form only logs. A valid one calls `trackHabits` with the parsed data and then closes. It closes exactly when the data is valid. |
| `HabitTrackerFormComponent.HabitTrackerForm.constructor` | src/forms/HabitTrackerForm.tsx:26-33 | The state array holds a fresh object per store habit, in order, with its id and not completed. |
| `HabitTrackerFormComponent.HabitTrackerForm.Toggle` | src/forms/HabitTrackerForm.tsx:63-67 | The toggle sets `completed := !!checked` on element `index`, in place, and changes nothing else. The stored array keeps the same objects. |
| `HabitTrackerFormComponent.HabitTrackerForm.Validate` | src/forms/HabitTrackerForm.tsx:35-46 | The effects are those of the schema's verdict on the current values. |
| `HabitTrackerFormComponent.ToggleIsShared` | src/forms/HabitTrackerForm.tsx:64-65 | After a toggle, the array stored before it shows the same values as the new one: the copy is shallow. |
| `HabitTrackerPage.ValidateEffects` | src/pages/HabitTrackerForm.tsx:25-36 | An invalid form only logs. A valid one inserts the entries and then navigates to the dashboard. It navigates exactly when the data is valid. |
| `HabitTrackerPage.HabitTrackerPage.constructor` | src/pages/HabitTrackerForm.tsx:16-23 | A fresh object per store habit, in order, with `completed` undefined, so no box shows checked. |
| `HabitTrackerPage.HabitTrackerPage.Toggle` | src/pages/HabitTrackerForm.tsx:46-51 | The toggle sets `completed := checked` on element `index`, in place, and changes nothing else. The box then shows checked exactly when `checked` is true. |
| `HabitTrackerPage.HabitTrackerPage.Validate` | src/pages/HabitTrackerForm.tsx:25-36 | The effects are those of the schema's verdict on the current values. |
| `HabitTrackerPage.UntouchedEntryRejected` | src/pages/HabitTrackerForm.tsx:16-32 | Under the track rules, an entry never clicked (`completed` undefined) makes the submit only log. |
| `HabitTrackerPage.ClickedEntriesAccepted` | src/pages/HabitTrackerForm.tsx:25-36 | Under the track schema's per-entry rules (`Schemas.SafeParseTrackForm`), once every entry is clicked and ids are positive, the submit inserts exactly the clicked values, in order, then navigates. |
| `HabitTrackerPage.ClickAllThenSubmit` | src/pages/HabitTrackerForm.tsx:16-56 | Under the track schema's per-entry rules, a page over two habits: clicking both boxes and submitting inserts both values, then shows the dashboard. |
| `HabitTrackerPage.TwoClickedEntries` | src/forms/schemas.ts:35-42 | Two clicked entries with positive ids are accepted as they are. |
| `HabitFormComponent.InitialFormData` | src/forms/HabitForm.tsx:33-37 | The initial state is the habit's type, title and question, or nothing without a habit. The event id is always absent. |
| `HabitFormComponent.ValidateEffects` | src/forms/HabitForm.tsx:39-55 | An invalid form only logs. A valid one calls `updateHabit` exactly when a habit and the callback are given, otherwise `createHabit` exactly when it is given, and always ends by closing. |
| `HabitFormComponent.CalendarHabitRejected` | src/forms/HabitForm.tsx:33-44 | With no event input, a calendar habit is always rejected: the submit only logs. |
| `HabitFormComponent.UnchangedDailyHabitUpdates` | src/forms/HabitForm.tsx:33-55 | Submitting a valid daily habit unchanged updates it with its own fields and closes. |
| `HabitFormComponent.HabitForm.constructor` | src/forms/HabitForm.tsx:22-37 | The form state starts as the habit's fields, or empty. |
| `HabitFormComponent.HabitForm.SetHabitType` | src/forms/HabitForm.tsx:68-70 | The radio group changes only the type. |
| `HabitFormComponent.HabitForm.SetTitle` | src/forms/HabitForm.tsx:88 | The title input changes only the title. |
| `HabitFormComponent.HabitForm.SetQuestion` | src/forms/HabitForm.tsx:97-99 | The question input changes only the question. |
| `HabitFormComponent.HabitForm.Validate` | src/forms/HabitForm.tsx:39-55 | The effects are those of the dispatch on the current state. A calendar type gives only the log. |
| `HabitFormComponent.CreateDailyHabit` | src/forms/HabitForm.tsx:39-55 | Choosing `Daily`, typing a valid title and question and submitting creates that habit, then closes. |
| `HabitFormPage.FindHabit` | src/pages/HabitForm.tsx:14 | The edited habit is the first store habit with the params' id. There is none exactly when the params carry no id or no habit has it. |
| `HabitFormPage.ValidateEffects` | src/pages/HabitForm.tsx:22-39 | An invalid form only logs. A valid one updates the found habit by its id, or creates one, and then navigates to the dashboard. |
| `HabitFormPage.FindHabitById` | src/pages/HabitForm.tsx:14 | With distinct ids, the page opened for a habit's id edits that habit. |
| `HabitFormPage.HabitFormPage.constructor` | src/pages/HabitForm.tsx:13-20 | The page edits the habit found for the params, and its state starts from that habit's fields, or empty. |
| `HabitFormPage.HabitFormPage.SetHabitType` | src/pages/HabitForm.tsx:53-65 | Each radio input sets only the type, to its own value. |
| `HabitFormPage.HabitFormPage.SetTitle` | src/pages/HabitForm.tsx:76 | The title input changes only the title. |
| `HabitFormPage.HabitFormPage.SetQuestion` | src/pages/HabitForm.tsx:86-88 | The question input changes only the question. |
| `HabitFormPage.HabitFormPage.Validate` | src/pages/HabitForm.tsx:22-39 | The effects are those of the dispatch on the current state. A calendar type gives only the log. |
| `HabitFormPage.RenameDailyHabit` | src/pages/HabitForm.tsx:14-39 | Opening the page for a daily store habit and changing its title updates that habit with the new title, then shows the dashboard. |

## Left out

- Recurrence rules (`rrule`, RFC 5545 section 3.3.10) in src/Dashboard.tsx. The `interval` they yield is an input. The track dialog's habit filter (src/Dashboard.tsx:174-178) depends on them entirely, so it is not modelled.
- SQLite internals:
  - I/O and lock errors are not modelled.
  - Foreign keys are not enforced by default, so they are not modelled.
  - `last_insert_rowid` is the next-rowid rule.
  - `CURRENT_TIMESTAMP` is the `now` parameter.
  - Transactions are modelled as all-or-nothing steps.
- LegacyApi.LegacyHabitTrackerService.Build: models `build` with the corrected CHECK (see Findings). As written, it fails on a new file, so the legacy service only opens a database whose tables exist already. `LegacyApi.InsertThenReadEntries` starts from new tables, a state only the corrected schema, or a database created beforehand, reaches.
- LegacyApi.IntegerAffinity: values are exact decimals. SQLite converts a number with a point or an exponent through a double: more than 15 significant digits can round, and a huge exponent becomes infinity. Hexadecimal text is not converted in this model. Other SQLite versions may differ in the range bounds.
- LegacyApi.CreateTable: only the name resolution of CHECK constraints is modelled. The other parts of `CREATE TABLE` are assumed to succeed.
- HabitTrackerApi.HabitTrackerService.Build: always creates the three tables, and `GetAppleCalendarEvents` and `ResetAppleCalendarEvents` are always available. In src-tauri/src/api.rs:159, 248 and 255 the `appleCalendarEvent` table and both methods exist only when building for macOS with the `apple_calendar` feature.
- HabitFormPage.HabitFormPage.habit: fixed when the page is created. src/pages/HabitForm.tsx:14 looks the habit up again on every render, so a store change while the page is open is not reflected.
- serde_json beyond arrays of strings is not modelled.
- Time: no time zones or daylight saving. A local day is a fixed 86 400 000 ms, and "now" is a parameter.
- HabitSummaryInfo.RoundedPercent: exact round-half-up of 100·a/b. Floating-point `Math.round((a / b) * 100)` can differ at exact halves. The `NaN`/`Infinity` of a zero total is `None`, and it is never shown.
- Not modelled because they are I/O, async sequencing or display only:
  - the Tauri RPC client (src/api/habitTracker.ts) and the fetch-only stores (src/store/habitEntry.ts, src/store/appleCalendarEvent.ts);
  - rendering, tooltips and dialog open state (`openDialog`, `calendarEventsLoading`, `form.trigger`);
  - src/App.tsx, src/main.tsx, src/layouts/Main.tsx, src/pages/Dashboard.tsx.
- Awaited calls that reject are not modelled. An effect list assumes each awaited call returns.
- Not modelled because they are process, file-system or bootstrap code:
  - src-tauri/src/bin/cleanup_data.rs and src-tauri/src/bin/habit-sync.rs;
  - src-tauri/src/app_config.rs;
  - src-tauri/src/lib.rs, src/lib.rs, src/main.rs, src/api/connect_db.rs.
- src-tauri/src/requests.rs has no `event_ids`. The service follows src-tauri/src/api.rs and its integration tests, which have them.
- `getTrackHabitFormSchema` is not part of this model. The track form and page take it as the `parse` parameter.
- Zod issue messages and paths beyond the field and the issue code are not modelled.
- DateHelpers.GetFirstTrackedDayOfMonth: requires a non-empty entry list. With none, `Math.min()` is `Infinity` and the result is an invalid date, which this model does not represent.
- HabitTrackerFormDialog.OnCheckedChange: requires `index` in range. HabitTrackerFormComponent.HabitTrackerForm.Toggle and HabitTrackerPage.HabitTrackerPage.Toggle have the same precondition. Checkboxes exist only for the indexes of the rendered habits.
- Dashboard.DashboardState.constructor: requires the first context to succeed. When it fails (an empty store with entries or events), the source throws during render; `Dashboard.GetHabitContext` models that as its error path.
- Navigation.NavigationContext.Navigate: requires params that fit the page, as the TypeScript overloads of `navigate` do.

## Findings

| source | as written | input that shows it | evidently intended | confidence | as-written member | corrected member |
|---|---|---|---|---|---|---|
| src/api.rs:113 | The `habit` table's `CHECK( type IN('daily', 'appleCalendar'))` names `type`, which is not a column of the table. SQLite resolves CHECK names when it creates the table. | Call `build` with a new database file: `CREATE TABLE` fails with "no such column: type", and the service never opens. | `CHECK(habitType IN ('daily', 'appleCalendar'))`, as src-tauri/src/api.rs:142 has it. | not executed; follows SQLite's name resolution for CHECK constraints | `LegacyApi.LegacyBuildFailsOnNewFile` | `LegacyApi.LegacyBuildSucceeds` |
| src/api.rs:57 | `HabitEntry.habit_id` is a `String` read from `habitId INTEGER`. SQLite stores a bound numeric string as an integer, and rusqlite refuses an integer as `String`. | Insert `UpsertHabitEntryItem { habit_id: "1", completed: true }`, then call `get_habit_entries`: the row fails with `InvalidType`. | Read the habit id as an integer, as src-tauri/src/api.rs:91 does with `i64`. | not executed; follows SQLite's integer-affinity rule and rusqlite's `FromSql for String` | `LegacyApi.LegacyEntryUnreadableSample` | `LegacyApi.EntryFromRow` |
