/** The front end's form validation (src/forms/schemas.ts): the habit form schema with its
    calendar-event refinement, and the track form schema. Parsing follows Zod 4: every field
    is checked in key order and all issues are collected; a wrong type or enum value is an
    aborting issue, a length bound is not, and the object refinement runs only when no
    aborting issue was raised. */
module Schemas {
  import opened Wrappers
  import opened Models

  /** What a form field holds before validation. */
  datatype FieldValue = Absent | Text(s: string) | NonText

  datatype HabitFormInput = HabitFormInput(habitType: FieldValue, eventId: FieldValue, title: FieldValue, question: FieldValue)

  datatype HabitField = HabitTypeField | EventIdField | TitleField | QuestionField

  datatype IssueCode = InvalidType | InvalidValue | TooSmall | TooBig | Custom

  datatype Issue = Issue(path: HabitField, code: IssueCode)

  /** `z.infer<typeof habitFormSchema>`. */
  datatype HabitFormDataInput = HabitFormDataInput(habitType: HabitType, eventId: Option<string>, title: string, question: string)

  /** `HabitFormData`: the validated input without `eventId`, with an `eventIds` list. */
  datatype HabitFormData = HabitFormData(habitType: HabitType, title: string, question: string, eventIds: seq<string>)

  /** `UpdateHabitFormData`. */
  datatype UpdateHabitFormData = UpdateHabitFormData(id: int, data: HabitFormData)

  /** A JavaScript string's `length`: UTF-16 code units, two for a supplementary character. */
  function Utf16Length(s: string): (r: nat)
    ensures |s| <= r <= 2 * |s|
  {
    if s == [] then 0 else (if s[0] as int >= 0x1_0000 then 2 else 1) + Utf16Length(s[1..])
  }

  /** `z.string().min(2).max(100)` on the string's length. */
  predicate LengthInBounds(s: string)
  {
    2 <= Utf16Length(s) <= 100
  }

  function ParseHabitType(s: string): Option<HabitType>
  {
    if s == "Daily" then Some(Daily) else if s == "AppleCalendar" then Some(AppleCalendar) else None
  }

  /** `z.enum(["Daily", "AppleCalendar"])`. */
  function HabitTypeIssues(v: FieldValue): seq<Issue>
  {
    if v.Text? && ParseHabitType(v.s).Some? then [] else [Issue(HabitTypeField, InvalidValue)]
  }

  /** `z.string().optional()`. */
  function EventIdIssues(v: FieldValue): seq<Issue>
  {
    if v.NonText? then [Issue(EventIdField, InvalidType)] else []
  }

  /** `z.string().min(2).max(100)`. */
  function TextIssues(field: HabitField, v: FieldValue): seq<Issue>
  {
    match v
    case Text(s) =>
      if Utf16Length(s) < 2 then [Issue(field, TooSmall)]
      else if Utf16Length(s) > 100 then [Issue(field, TooBig)]
      else []
    case _ => [Issue(field, InvalidType)]
  }

  predicate Aborting(issue: Issue)
  {
    issue.code == InvalidType || issue.code == InvalidValue
  }

  /** The issues of the object's fields, in key order. */
  function FieldIssues(input: HabitFormInput): seq<Issue>
  {
    HabitTypeIssues(input.habitType) + EventIdIssues(input.eventId) +
    TextIssues(TitleField, input.title) + TextIssues(QuestionField, input.question)
  }

  /** `!data.eventId`: undefined and the empty string both count as missing. */
  predicate EventIdMissing(v: FieldValue)
  {
    !v.Text? || v.s == ""
  }

  /** The `superRefine` rule: a calendar habit needs an event id. */
  function RefineIssues(input: HabitFormInput): seq<Issue>
  {
    if input.habitType == Text("AppleCalendar") && EventIdMissing(input.eventId) then [Issue(EventIdField, Custom)] else []
  }

  function HabitFormIssues(input: HabitFormInput): seq<Issue>
  {
    var fields := FieldIssues(input);
    if exists k :: 0 <= k < |fields| && Aborting(fields[k]) then fields else fields + RefineIssues(input)
  }

  /** `habitFormSchema.safeParse`: the parsed data, or every issue found. */
  function SafeParseHabitForm(input: HabitFormInput): (r: Result<HabitFormDataInput, seq<Issue>>)
    ensures r.Err? ==> |r.error| > 0
  {
    var issues := HabitFormIssues(input);
    if issues != [] then Err(issues)
    else
      HabitFormAcceptsFields(input);
      Ok(HabitFormDataInput(ParseHabitType(input.habitType.s).value,
                            if input.eventId.Text? then Some(input.eventId.s) else None,
                            input.title.s, input.question.s))
  }

  lemma HabitFormAcceptsFields(input: HabitFormInput)
    requires HabitFormIssues(input) == []
    ensures input.habitType.Text? && ParseHabitType(input.habitType.s).Some?
    ensures input.title.Text? && input.question.Text?
  {
  }

  /** The habit form in plain words: a known type; an event id that is a string if present;
      title and question strings of 2 to 100 characters; and a non-empty event id for a
      calendar habit. */
  predicate ValidHabitForm(input: HabitFormInput)
  {
    input.habitType in {Text("Daily"), Text("AppleCalendar")} &&
    !input.eventId.NonText? &&
    input.title.Text? && LengthInBounds(input.title.s) &&
    input.question.Text? && LengthInBounds(input.question.s) &&
    (input.habitType == Text("AppleCalendar") ==> !EventIdMissing(input.eventId))
  }

  /** The schema accepts exactly the valid forms, and then returns their fields. */
  lemma SafeParseHabitFormSpec(input: HabitFormInput)
    ensures SafeParseHabitForm(input).Ok? <==> ValidHabitForm(input)
    ensures ValidHabitForm(input) ==>
      (SafeParseHabitForm(input).value ==
       HabitFormDataInput(if input.habitType == Text("Daily") then Daily else AppleCalendar,
                          if input.eventId.Text? then Some(input.eventId.s) else None,
                          input.title.s, input.question.s))
  {
    var fields := FieldIssues(input);
    if ValidHabitForm(input) {
      assert fields == [];
    } else if fields == [] {
      assert RefineIssues(input) != [];
    }
  }

  /** A calendar habit with valid fields but no (or an empty) event id is rejected with
      exactly one issue, on the path `eventId`. */
  lemma CalendarHabitNeedsEventId(title: string, question: string, eventId: FieldValue)
    requires LengthInBounds(title) && LengthInBounds(question)
    requires eventId == Absent || eventId == Text("")
    ensures SafeParseHabitForm(HabitFormInput(Text("AppleCalendar"), eventId, Text(title), Text(question))) == Err([Issue(EventIdField, Custom)])
  {
    var input := HabitFormInput(Text("AppleCalendar"), eventId, Text(title), Text(question));
    assert ParseHabitType("AppleCalendar") == Some(AppleCalendar);
    assert FieldIssues(input) == [];
    assert RefineIssues(input) == [Issue(EventIdField, Custom)];
    assert HabitFormIssues(input) == [Issue(EventIdField, Custom)];
  }

  /** A daily habit with valid fields needs no event id. */
  lemma DailyHabitWithoutEventId(title: string, question: string)
    requires LengthInBounds(title) && LengthInBounds(question)
    ensures SafeParseHabitForm(HabitFormInput(Text("Daily"), Absent, Text(title), Text(question))) == Ok(HabitFormDataInput(Daily, None, title, question))
  {
    SafeParseHabitFormSpec(HabitFormInput(Text("Daily"), Absent, Text(title), Text(question)));
  }

  /** A title that is too short does not stop the refinement: both issues are reported. */
  lemma ShortTitleAndMissingEvent(question: string)
    requires LengthInBounds(question)
    ensures SafeParseHabitForm(HabitFormInput(Text("AppleCalendar"), Absent, Text("a"), Text(question))) ==
      Err([Issue(TitleField, TooSmall), Issue(EventIdField, Custom)])
  {
    var input := HabitFormInput(Text("AppleCalendar"), Absent, Text("a"), Text(question));
    assert ParseHabitType("AppleCalendar") == Some(AppleCalendar);
    assert Utf16Length("a") == 1 by { assert "a"[1..] == []; }
    assert FieldIssues(input) == [Issue(TitleField, TooSmall)];
    assert HabitFormIssues(input) == [Issue(TitleField, TooSmall), Issue(EventIdField, Custom)];
  }

  // ---------------------------------------------------------------- track form

  /** An entry of the track form before validation: `None` where the value has the wrong type. */
  datatype TrackEntryInput = TrackEntryInput(habitId: Option<int>, completed: Option<bool>)

  /** An entry of `TrackHabitFormData`. */
  datatype TrackedEntry = TrackedEntry(habitId: int, completed: bool)

  datatype TrackField = HabitIdField | CompletedField

  /** An issue at `entries[index].field`. */
  datatype TrackIssue = TrackIssue(index: nat, field: TrackField, code: IssueCode)

  /** `{ habitId: z.number().min(1), completed: z.boolean() }`. */
  predicate ValidTrackEntry(e: TrackEntryInput)
  {
    e.habitId.Some? && e.habitId.value >= 1 && e.completed.Some?
  }

  function TrackEntryIssues(index: nat, e: TrackEntryInput): (r: seq<TrackIssue>)
    ensures r == [] <==> ValidTrackEntry(e)
    ensures forall k :: 0 <= k < |r| ==> r[k].index == index
  {
    (match e.habitId
     case None => [TrackIssue(index, HabitIdField, InvalidType)]
     case Some(n) => if n < 1 then [TrackIssue(index, HabitIdField, TooSmall)] else [])
    +
    (if e.completed.None? then [TrackIssue(index, CompletedField, InvalidType)] else [])
  }

  /** `trackHabitFormSchema.safeParse({ entries })`: every entry, or the issues of every
      invalid entry in index order. Every entry must be valid; an empty list is valid. */
  function SafeParseTrackForm(entries: seq<TrackEntryInput>): (r: Result<seq<TrackedEntry>, seq<TrackIssue>>)
    ensures r.Ok? <==> forall i :: 0 <= i < |entries| ==> ValidTrackEntry(entries[i])
    ensures r.Ok? ==>
      (|r.value| == |entries| &&
       forall i :: 0 <= i < |entries| ==> r.value[i] == TrackedEntry(entries[i].habitId.value, entries[i].completed.value))
    ensures r.Err? ==>
      (|r.error| > 0 &&
       forall k :: 0 <= k < |r.error| ==> r.error[k].index < |entries| && !ValidTrackEntry(entries[r.error[k].index]))
  {
    if entries == [] then Ok([])
    else
      var n := |entries| - 1;
      var last := entries[n];
      var here := TrackEntryIssues(n, last);
      match SafeParseTrackForm(entries[..n])
      case Ok(done) =>
        if here == [] then Ok(done + [TrackedEntry(last.habitId.value, last.completed.value)])
        else Err(here)
      case Err(issues) =>
        Err(issues + here)
  }

  /** The empty entry list is valid. */
  lemma EmptyTrackFormValid()
    ensures SafeParseTrackForm([]) == Ok([])
  {
  }
}
