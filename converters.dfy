/** The front end's converters between form data, back-end requests and back-end records
    (src/api/converters.ts). The request and record types are those of the desktop back end
    (`HabitTrackerApi`), except that the create and update requests built here carry no
    event ids and the converted habit has none. */
module Converters {
  import opened Models
  import opened Schemas
  import Api = HabitTrackerApi

  /** The create request as this file builds it: type, title and question. */
  datatype CreateHabitRequestDto = CreateHabitRequestDto(habitType: HabitType, title: string, question: string)

  /** The update request as this file builds it: the create fields plus the id. */
  datatype UpdateHabitRequestDto = UpdateHabitRequestDto(id: int, habitType: HabitType, title: string, question: string)

  /** The habit `convertDtoToHabit` returns: no `eventIds` field. */
  datatype ConvertedHabit = ConvertedHabit(id: int, habitType: HabitType, title: string, question: string)

  function ConvertFormDataToCreateHabitRequest(formData: HabitFormData): (r: CreateHabitRequestDto)
    ensures r.habitType == formData.habitType && r.title == formData.title && r.question == formData.question
  {
    CreateHabitRequestDto(formData.habitType, formData.title, formData.question)
  }

  function ConvertFormDataToUpdateHabitRequest(formData: UpdateHabitFormData): (r: UpdateHabitRequestDto)
    ensures r.id == formData.id
    ensures r.habitType == formData.data.habitType && r.title == formData.data.title && r.question == formData.data.question
  {
    UpdateHabitRequestDto(formData.id, formData.data.habitType, formData.data.title, formData.data.question)
  }

  /** One insert item per tracked entry, in order, with `habit_id` and `completed` copied. */
  function ConvertFormDataToInsertHabitEntriesRequest(entries: seq<TrackedEntry>): (r: seq<Api.InsertHabitEntryItem>)
    ensures |r| == |entries|
    ensures forall i :: 0 <= i < |entries| ==> r[i].habitId == entries[i].habitId && r[i].completed == entries[i].completed
  {
    seq(|entries|, i requires 0 <= i < |entries| => Api.InsertHabitEntryItem(entries[i].habitId, entries[i].completed))
  }

  function ConvertDtoToHabit(dto: Api.Habit): (r: ConvertedHabit)
    ensures r.id == dto.id && r.habitType == dto.habitType && r.title == dto.title && r.question == dto.question
  {
    ConvertedHabit(dto.id, dto.habitType, dto.title, dto.question)
  }

  /** The back end's date is already an instant here (`new Date(dto.date)`). */
  function ConvertDtoToHabitEntry(dto: Api.HabitEntry): (r: HabitEntry)
    ensures r.id == dto.id && r.habitId == dto.habitId && r.completed == dto.completed && r.date == dto.date
  {
    HabitEntry(dto.id, dto.habitId, dto.completed, dto.date)
  }

  /** The create request does not forward event ids: two forms that differ only in their
      event ids give the same request. */
  lemma CreateRequestDropsEventIds(formData: HabitFormData, eventIds: seq<string>)
    ensures ConvertFormDataToCreateHabitRequest(formData.(eventIds := eventIds)) == ConvertFormDataToCreateHabitRequest(formData)
  {
  }

  /** The update request is the create request of the same data, plus the id. */
  lemma UpdateRequestExtendsCreate(formData: UpdateHabitFormData)
    ensures var c := ConvertFormDataToCreateHabitRequest(formData.data);
            ConvertFormDataToUpdateHabitRequest(formData) == UpdateHabitRequestDto(formData.id, c.habitType, c.title, c.question)
  {
  }

  /** Tracking round trip: the entries the back end inserts for a converted track form
      (`NewEntries`, as `insert_habit_entries` returns them) convert back to entries with the
      form's habit ids and completion flags, in form order, with consecutive ids. */
  lemma TrackedEntriesRoundTrip(entries: seq<TrackedEntry>, firstId: int, now: int)
    ensures var inserted := Api.NewEntries(firstId, ConvertFormDataToInsertHabitEntriesRequest(entries), now);
            |inserted| == |entries| &&
            forall i :: 0 <= i < |entries| ==>
              ConvertDtoToHabitEntry(inserted[i]) == HabitEntry(firstId + i, entries[i].habitId, entries[i].completed, now)
  {
  }

  /** Update round trip: the habit `update_habit` returns for a converted update request
      (its fields, whatever event ids the row keeps) converts back to the form's id, type,
      title and question. */
  lemma UpdateRoundTrip(formData: UpdateHabitFormData, eventIds: seq<string>)
    ensures var req := ConvertFormDataToUpdateHabitRequest(formData);
            ConvertDtoToHabit(Api.Habit(req.id, req.habitType, eventIds, req.title, req.question)) ==
            ConvertedHabit(formData.id, formData.data.habitType, formData.data.title, formData.data.question)
  {
  }
}
