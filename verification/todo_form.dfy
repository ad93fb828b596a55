/**
 * The todo form dialog's pure logic: filling the form from a todo, turning
 * the picked day and the hour, minute and AM/PM selects into a due time,
 * and the checks and request that a submit produces.
 */
module TodoForm {
  import opened Wrappers
  import opened Text
  import opened WallClock
  import Todos

  /** The hour select's value and the AM/PM toggle. */
  datatype HourChoice = HourChoice(hour: string, amPm: Meridiem)

  /**
   * `to12Hour(hour24)`: an hour select value between 1 and 12 on the same
   * clock face, PM exactly from noon on; midnight is 12 AM and noon 12 PM.
   */
  function To12Hour(hour24: nat): (r: HourChoice)
    ensures r.amPm == PM <==> hour24 >= 12
    ensures ParseDecimal(r.hour).Some?
    ensures 1 <= ParseDecimal(r.hour).value <= 12 && ParseDecimal(r.hour).value % 12 == hour24 % 12
    ensures hour24 == 0 ==> r == HourChoice("12", AM)
    ensures hour24 == 12 ==> r == HourChoice("12", PM)
  {
    ParseNatToString(Hour12(hour24));
    assert NatToString(12) == "12";
    HourChoice(NatToString(Hour12(hour24)), MeridiemOf(hour24))
  }

  /** `parseInt(hour, 10) || 12`: an hour that does not parse, or parses to 0, becomes 12. */
  function HourValue(hour: string): (h: nat)
    ensures h != 0
    ensures ParseDecimal(hour).Some? && ParseDecimal(hour).value != 0 ==> h == ParseDecimal(hour).value
    ensures ParseDecimal(hour).None? || ParseDecimal(hour) == Some(0) ==> h == 12
  {
    match ParseDecimal(hour)
    case Some(n) => if n == 0 then 12 else n
    case None => 12
  }

  /** `parseInt(minute, 10) || 0`: a minute that does not parse reads as 0. */
  function MinuteValue(minute: string): (m: nat)
    ensures ParseDecimal(minute).Some? ==> m == ParseDecimal(minute).value
    ensures ParseDecimal(minute).None? ==> m == 0
  {
    ParseDecimal(minute).GetOr(0)
  }

  /** The hour and minute selects read back the numbers they show. */
  lemma ShownValuesReadBack(n: nat)
    ensures MinuteValue(NatToString(n)) == n
    ensures n != 0 ==> HourValue(NatToString(n)) == n
  {
    ParseNatToString(n);
  }

  /** A day picked in the date picker. */
  datatype Day = Day(year: nat, month: nat, date: nat)

  /**
   * `buildDateTime()` up to its final `toISOString()`: no day picked, no due
   * time; otherwise the picked day at the selected time, where a clock-face
   * hour lands in the chosen half of the day and a missing or zero hour
   * reads as 12.
   */
  function BuildDateTime(dueDate: Option<Day>, hour: string, minute: string, amPm: Meridiem): (r: Option<LocalTime>)
    ensures r.None? <==> dueDate.None?
    ensures r.Some? ==> r.value.year == dueDate.value.year && r.value.month == dueDate.value.month
                        && r.value.date == dueDate.value.date
    ensures r.Some? ==> r.value.minute == MinuteValue(minute)
    ensures r.Some? && HourValue(hour) <= 12 ==>
              r.value.hour < 24 && MeridiemOf(r.value.hour) == amPm && Hour12(r.value.hour) == HourValue(hour)
    ensures r.Some? && (ParseDecimal(hour).None? || ParseDecimal(hour) == Some(0)) ==>
              r.value.hour == if amPm == AM then 0 else 12
  {
    match dueDate
    case None => None
    case Some(day) =>
      var hours := HourValue(hour);
      assert hours <= 12 ==> Hour12(To24(hours, amPm)) == hours by {
        if hours <= 12 {
          Hour12OfTo24(hours, amPm);
        }
      }
      Some(LocalTime(day.year, day.month, day.date, To24(hours, amPm), MinuteValue(minute)))
  }

  /** What the dialog holds. */
  datatype Form = Form(
    title: string,
    description: string,
    dueDate: Option<Day>,
    hour: string,
    minute: string,
    amPm: Meridiem,
    categoryId: string)

  /** The form a new todo starts from: everything empty, the time at 12:00 AM. */
  const Blank := Form("", "", None, "12", "0", AM, "")

  /** `toLocalTime(s)` reads a stored ISO string in the local zone (`dayjs(s)`). */
  type Reader = string -> LocalTime

  /**
   * The effect that fills the form from the todo being edited: its texts, its
   * category, and its due date split into day, hour select, minute and AM/PM.
   */
  function Prefill(todo: Todos.Todo, toLocalTime: Reader): (f: Form)
    ensures f.title == todo.title && f.categoryId == todo.categoryId
    ensures f.description == todo.description.GetOr("")
    ensures f.dueDate.None? <==> !Todos.Truthy(todo.dueDate)
    ensures !Todos.Truthy(todo.dueDate) ==> f == Blank.(title := f.title, description := f.description, categoryId := f.categoryId)
  {
    var description := if todo.description.Some? then todo.description.value else "";
    if Todos.Truthy(todo.dueDate) then
      var t := toLocalTime(todo.dueDate.value);
      var choice := To12Hour(t.hour);
      Form(todo.title, description, Some(Day(t.year, t.month, t.date)), choice.hour, NatToString(t.minute), choice.amPm, todo.categoryId)
    else
      Blank.(title := todo.title, description := description, categoryId := todo.categoryId)
  }

  /** Opening a todo for editing and building its due time again gives back the time it had. */
  lemma {:induction false} PrefillRoundTrip(todo: Todos.Todo, toLocalTime: Reader)
    requires Todos.Truthy(todo.dueDate) && InRange(toLocalTime(todo.dueDate.value))
    ensures var f := Prefill(todo, toLocalTime);
            BuildDateTime(f.dueDate, f.hour, f.minute, f.amPm) == Some(toLocalTime(todo.dueDate.value))
  {
    var t := toLocalTime(todo.dueDate.value);
    var f := Prefill(todo, toLocalTime);
    ParseNatToString(Hour12(t.hour));
    ParseNatToString(t.minute);
    To24OfHour12(t.hour);
    assert HourValue(f.hour) == Hour12(t.hour);
  }

  /** The field errors a submit records; any of them stops the submit before anything is sent. */
  function FieldErrors(form: Form): (e: map<string, string>)
    ensures "title" in e <==> AllWhitespace(form.title)
    ensures "categoryId" in e <==> form.categoryId == ""
    ensures e.Keys <= {"title", "categoryId"}
    ensures "title" in e ==> e["title"] == "Title is required"
    ensures "categoryId" in e ==> e["categoryId"] == "Category is required"
  {
    TrimEmptyIff(form.title);
    assert "title" != "categoryId" by {
      assert "title"[0] != "categoryId"[0];
    }
    var keys := (if Trim(form.title) == "" then {"title"} else {}) + (if form.categoryId == "" then {"categoryId"} else {});
    map k | k in keys :: if k == "title" then "Title is required" else "Category is required"
  }

  /** `description.trim() || undefined`: the trimmed text, or nothing when it is blank. */
  function DescriptionToSend(description: string): (d: Option<string>)
    ensures d.None? <==> AllWhitespace(description)
    ensures d.Some? ==> d.value == Trim(description) && d.value != "" && Trimmed(d.value)
  {
    TrimEmptyIff(description);
    if Trim(description) == "" then None else Some(Trim(description))
  }

  /** `toISOString()` of a local time, left as a parameter. */
  type Writer = LocalTime -> string

  function DueDateToSend(form: Form, toIso: Writer): (d: Option<string>)
    ensures d.None? <==> form.dueDate.None?
  {
    match BuildDateTime(form.dueDate, form.hour, form.minute, form.amPm)
    case None => None
    case Some(t) => Some(toIso(t))
  }

  /** What a submit does: stop with field errors, send a create, or send an update. */
  datatype Submission =
    | Blocked(errors: map<string, string>)
    | SendCreate(request: Todos.CreateTodoRequest)
    | SendUpdate(id: Todos.Id, patch: Todos.UpdateTodoRequest)

  /** An optional value as the JSON body carries it: `undefined` is dropped, so the server sees the field as left out. */
  function AsWritten(v: Option<string>): (p: Todos.Patch<string>)
    ensures v.None? <==> p.Absent?
    ensures v.Some? ==> p == Todos.Set(v.value)
  {
    match v
    case None => Todos.Absent
    case Some(x) => Todos.Set(x)
  }

  /** An optional value sent as `null` when missing, so the server clears the field. */
  function Clearing(v: Option<string>): (p: Todos.Patch<string>)
    ensures v.None? <==> p.Clear?
    ensures v.Some? ==> p == Todos.Set(v.value)
  {
    match v
    case None => Todos.Clear
    case Some(x) => Todos.Set(x)
  }

  /**
   * The submit with the rule for fields the user emptied as a parameter:
   * blocked exactly when the trimmed title or the category is empty;
   * otherwise a create for a new todo, or an update of the edited one that
   * sends the trimmed title, the category and the two optional fields.
   */
  function SubmitWith(form: Form, editing: Option<Todos.Todo>, toIso: Writer, optional: Option<string> -> Todos.Patch<string>)
    : (r: Submission)
    ensures r.Blocked? <==> AllWhitespace(form.title) || form.categoryId == ""
    ensures r.Blocked? ==> r.errors == FieldErrors(form) && |r.errors| > 0
    ensures r.SendCreate? <==> !r.Blocked? && editing.None?
    ensures r.SendCreate? ==>
              r.request == Todos.CreateTodoRequest(Trim(form.title), DescriptionToSend(form.description),
                                                   DueDateToSend(form, toIso), form.categoryId)
    ensures r.SendUpdate? ==>
              && editing.Some? && r.id == editing.value.id
              && r.patch == Todos.UpdateTodoRequest(Some(Trim(form.title)), optional(DescriptionToSend(form.description)),
                                                    optional(DueDateToSend(form, toIso)), None, Some(form.categoryId))
  {
    var errors := FieldErrors(form);
    if |errors| > 0 then
      Blocked(errors)
    else
      assert "title" !in errors && "categoryId" !in errors;
      var title := Trim(form.title);
      var description := DescriptionToSend(form.description);
      var dueDate := DueDateToSend(form, toIso);
      match editing
      case None => SendCreate(Todos.CreateTodoRequest(title, description, dueDate, form.categoryId))
      case Some(todo) =>
        SendUpdate(todo.id, Todos.UpdateTodoRequest(Some(title), optional(description), optional(dueDate), None, Some(form.categoryId)))
  }

  /** `handleSubmit` as written: an emptied description or due date is sent as `undefined`. */
  function Submit(form: Form, editing: Option<Todos.Todo>, toIso: Writer): (r: Submission)
    ensures r.SendUpdate? ==> (r.patch.description.Absent? <==> AllWhitespace(form.description))
    ensures r.SendUpdate? ==> (r.patch.dueDate.Absent? <==> form.dueDate.None?)
  {
    SubmitWith(form, editing, toIso, AsWritten)
  }

  /**
   * As written, emptying the description and the due date of a todo and
   * saving leaves both as they were once the server merges the update.
   */
  lemma {:induction false} EmptiedFieldsSurvive(form: Form, todo: Todos.Todo, toIso: Writer, now: string)
    requires !AllWhitespace(form.title) && form.categoryId != ""
    requires AllWhitespace(form.description) && form.dueDate.None?
    ensures var r := Submit(form, Some(todo), toIso);
            && r.SendUpdate?
            && Todos.Merge(todo, r.patch, now).description == todo.description
            && Todos.Merge(todo, r.patch, now).dueDate == todo.dueDate
  {
    var r := Submit(form, Some(todo), toIso);
  }

  /** The smallest instance: a todo with a description keeps it after the user empties the field. */
  lemma EmptiedDescriptionExample(toIso: Writer)
    ensures var todo := Todos.Todo("t1", "Buy milk", Some("two litres"), None, "2025-01-01T00:00:00.000Z",
                                   "2025-01-01T00:00:00.000Z", false, "c1");
            var form := Form("Buy milk", "", None, "12", "0", AM, "c1");
            Todos.Merge(todo, Submit(form, Some(todo), toIso).patch, "2025-01-02T00:00:00.000Z").description
              == Some("two litres")
  {
    var todo := Todos.Todo("t1", "Buy milk", Some("two litres"), None, "2025-01-01T00:00:00.000Z",
                           "2025-01-01T00:00:00.000Z", false, "c1");
    var form := Form("Buy milk", "", None, "12", "0", AM, "c1");
    assert !AllWhitespace(form.title) by {
      assert !IsWhitespace(form.title[0]);
    }
    EmptiedFieldsSurvive(form, todo, toIso, "2025-01-02T00:00:00.000Z");
  }

  /** The submit with emptied optional fields sent as `null`, so an update clears them. */
  function SubmitCorrected(form: Form, editing: Option<Todos.Todo>, toIso: Writer): (r: Submission)
    ensures r.SendUpdate? ==> (r.patch.description.Clear? <==> AllWhitespace(form.description))
    ensures r.SendUpdate? ==> (r.patch.dueDate.Clear? <==> form.dueDate.None?)
  {
    SubmitWith(form, editing, toIso, Clearing)
  }

  /**
   * With emptied fields sent as `null`, the todo the server keeps after an
   * edit holds exactly what the form showed: trimmed title, description
   * or none, due time or none, and category, with `completed` untouched.
   */
  lemma {:induction false} SubmittedFormSticks(form: Form, todo: Todos.Todo, toIso: Writer, now: string)
    requires !AllWhitespace(form.title) && form.categoryId != ""
    ensures var r := SubmitCorrected(form, Some(todo), toIso);
            var u := Todos.Merge(todo, r.patch, now);
            && r.SendUpdate?
            && u.title == Trim(form.title)
            && u.description == DescriptionToSend(form.description)
            && u.dueDate == DueDateToSend(form, toIso)
            && u.categoryId == form.categoryId
            && u.completed == todo.completed
  {
    var r := SubmitCorrected(form, Some(todo), toIso);
    match DescriptionToSend(form.description)
    case None =>
    case Some(_) =>
  }
}
