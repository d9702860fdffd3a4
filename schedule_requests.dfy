/**
 * The two schedule form requests as predicates over the decoded request
 * body: an integer employee id that exists and owns no other schedule, and
 * exactly seven day entries, each with a Mon..Sun name, a boolean duty flag
 * and four H:i times. The validated days are what the controller stores as
 * schedule_data.
 */
module ScheduleRequests {
  import opened Common
  import opened TimeSchedule

  // -----------------------------------------------------------------------
  // The Laravel rules used by the two requests

  /** `required`: present, not null, not a blank string, not an empty array. */
  predicate Required(v: Option<Value>) {
    && v.Some?
    && !v.value.VNull?
    && !(v.value.VStr? && PhpTrim(v.value.s) == [])
    && !(v.value.VList? && v.value.items == [])
    && !(v.value.VObject? && v.value.fields == map[])
  }

  /** `integer`, for a JSON number: it has no fractional part. */
  predicate IsIntegral(v: Value) {
    v.VNum? && v.n.Floor as real == v.n
  }

  /** `boolean`: one of true, false, 0, 1, "0", "1". */
  predicate IsBooleanLike(v: Value) {
    || v.VBool?
    || v == VNum(0.0) || v == VNum(1.0)
    || v == VStr("0") || v == VStr("1")
  }

  /** The truth value of an accepted boolean. */
  function BooleanValue(v: Value): (b: bool)
    requires IsBooleanLike(v)
    ensures b <==> v == VBool(true) || v == VNum(1.0) || v == VStr("1")
  {
    if v.VBool? then v.b else v == VNum(1.0) || v == VStr("1")
  }

  /** `required|string|date_format:H:i` on one field of a day entry. */
  predicate IsTimeField(entry: Value, key: string) {
    var f := Field(entry, key);
    Required(f) && f.value.VStr? && IsHourMinute(f.value.s)
  }

  /** The `days.*` rules on one entry. */
  predicate ValidDayEntry(entry: Value) {
    var day := Field(entry, "day");
    var duty := Field(entry, "duty");
    && Required(day) && day.value.VStr? && day.value.s in DayNames
    && Required(duty) && IsBooleanLike(duty.value)
    && IsTimeField(entry, "am_in") && IsTimeField(entry, "am_out")
    && IsTimeField(entry, "pm_in") && IsTimeField(entry, "pm_out")
  }

  /** `days`: required, an array of exactly seven entries, every entry valid. */
  predicate ValidDays(days: Option<Value>) {
    && Required(days)
    && days.value.VList?
    && |days.value.items| == 7
    && forall i :: 0 <= i < 7 ==> ValidDayEntry(days.value.items[i])
  }

  // -----------------------------------------------------------------------
  // employee_id

  /** An existing schedule row, as far as uniqueness is concerned. */
  datatype ScheduleOwner = ScheduleOwner(scheduleId: int, employeeId: int)

  /** Whether a row other than `ignored` already belongs to the employee. */
  predicate TakenBy(schedules: seq<ScheduleOwner>, employeeId: int, ignored: Option<int>) {
    exists i :: 0 <= i < |schedules| && schedules[i].employeeId == employeeId
      && !(ignored.Some? && schedules[i].scheduleId == ignored.value)
  }

  /**
   * `required|integer|exists:employees,id|unique:time_schedules,employee_id`,
   * with the row `ignored` left out of the uniqueness test.
   */
  predicate ValidEmployeeId(v: Option<Value>, employees: set<int>, schedules: seq<ScheduleOwner>, ignored: Option<int>) {
    && Required(v)
    && IsIntegral(v.value)
    && v.value.n.Floor in employees
    && !TakenBy(schedules, v.value.n.Floor, ignored)
  }

  /** StoreTimeScheduleRequest::rules. */
  predicate ValidStoreRequest(input: Value, employees: set<int>, schedules: seq<ScheduleOwner>) {
    && ValidEmployeeId(Field(input, "employee_id"), employees, schedules, None)
    && ValidDays(Field(input, "days"))
  }

  /** UpdateTimeScheduleRequest::rules for the schedule `current` named in the route. */
  predicate ValidUpdateRequest(input: Value, employees: set<int>, schedules: seq<ScheduleOwner>, current: int) {
    && ValidEmployeeId(Field(input, "employee_id"), employees, schedules, Some(current))
    && ValidDays(Field(input, "days"))
  }

  /** Whatever the store validator accepts, the update validator accepts for any schedule. */
  lemma StoreAcceptedIsUpdateAccepted(input: Value, employees: set<int>, schedules: seq<ScheduleOwner>, current: int)
    requires ValidStoreRequest(input, employees, schedules)
    ensures ValidUpdateRequest(input, employees, schedules, current)
  {
  }

  /**
   * An update may keep the employee of the schedule being updated, which the
   * store validator refuses, but may not move to an employee who owns
   * another schedule.
   */
  lemma UpdateUniqueness(input: Value, employees: set<int>, schedules: seq<ScheduleOwner>, current: int, e: int)
    requires Field(input, "employee_id") == Some(VNum(e as real)) && e in employees
    requires ValidDays(Field(input, "days"))
    ensures (exists i :: 0 <= i < |schedules| && schedules[i] == ScheduleOwner(current, e))
      ==> !ValidStoreRequest(input, employees, schedules)
    ensures (forall i :: 0 <= i < |schedules| && schedules[i].employeeId == e ==> schedules[i].scheduleId == current)
      ==> ValidUpdateRequest(input, employees, schedules, current)
    ensures (exists i :: 0 <= i < |schedules| && schedules[i].employeeId == e && schedules[i].scheduleId != current)
      ==> !ValidUpdateRequest(input, employees, schedules, current)
  {
    assert (e as real).Floor == e;
  }

  // -----------------------------------------------------------------------
  // The validated days as schedule entries

  /** The schedule entry an accepted day entry denotes. */
  function DecodeDay(entry: Value): (d: DaySchedule)
    requires ValidDayEntry(entry)
    ensures d.day in DayNames && HasValidTimes(d)
  {
    DaySchedule(
      Field(entry, "day").value.s,
      BooleanValue(Field(entry, "duty").value),
      Field(entry, "am_in").value.s, Field(entry, "am_out").value.s,
      Field(entry, "pm_in").value.s, Field(entry, "pm_out").value.s)
  }

  /** The days of an accepted request; None when the days rules fail. */
  function DecodeDays(days: Option<Value>): (r: Option<seq<DaySchedule>>)
    ensures r.Some? <==> ValidDays(days)
    ensures r.Some? ==> |r.value| == 7
    ensures r.Some? ==> forall i :: 0 <= i < 7 ==> r.value[i].day in DayNames && HasValidTimes(r.value[i])
  {
    if ValidDays(days) then Some(seq(7, i requires 0 <= i < 7 => DecodeDay(days.value.items[i])))
    else None
  }

  /** The JSON object the client sends for one day. */
  function EncodeDay(d: DaySchedule): Value {
    VObject(map[
      "day" := VStr(d.day), "duty" := VBool(d.duty),
      "am_in" := VStr(d.amIn), "am_out" := VStr(d.amOut),
      "pm_in" := VStr(d.pmIn), "pm_out" := VStr(d.pmOut)])
  }

  function EncodeDays(days: seq<DaySchedule>): Value {
    VList(seq(|days|, i requires 0 <= i < |days| => EncodeDay(days[i])))
  }

  /** A string that neither starts nor ends with white space is not blank. */
  lemma NotBlank(s: string)
    requires s != [] && !IsPhpSpace(s[0]) && !IsPhpSpace(s[|s| - 1])
    ensures PhpTrim(s) != []
  {
    TrimOfTrimmed(s, IsPhpSpace);
  }

  /** A string time passes `required|string|date_format:H:i` exactly when it is an H:i time. */
  lemma TimeValueAccepted(entry: Value, key: string, t: string)
    requires Field(entry, key) == Some(VStr(t))
    ensures IsTimeField(entry, key) <==> IsHourMinute(t)
  {
    if IsHourMinute(t) {
      NotBlank(t);
    }
  }

  /** A day name passes `required|string|in:Mon,...,Sun` exactly when it is one of the seven. */
  lemma DayValueAccepted(name: string)
    ensures (Required(Some(VStr(name))) && name in DayNames) <==> name in DayNames
  {
    if name in DayNames {
      assert |name| == 3 && 'A' <= name[0] <= 'Z' && 'a' <= name[2] <= 'z';
      NotBlank(name);
    }
  }

  /** The fields of an encoded day. */
  lemma EncodeDayFields(d: DaySchedule)
    ensures Field(EncodeDay(d), "day") == Some(VStr(d.day))
    ensures Field(EncodeDay(d), "duty") == Some(VBool(d.duty))
    ensures Field(EncodeDay(d), "am_in") == Some(VStr(d.amIn))
    ensures Field(EncodeDay(d), "am_out") == Some(VStr(d.amOut))
    ensures Field(EncodeDay(d), "pm_in") == Some(VStr(d.pmIn))
    ensures Field(EncodeDay(d), "pm_out") == Some(VStr(d.pmOut))
  {
  }

  /** A day entry as the client sends it is accepted exactly when its name and times are. */
  lemma EncodeDayAccepted(d: DaySchedule)
    ensures ValidDayEntry(EncodeDay(d)) <==> d.day in DayNames && HasValidTimes(d)
    ensures ValidDayEntry(EncodeDay(d)) ==> DecodeDay(EncodeDay(d)) == d
  {
    var e := EncodeDay(d);
    EncodeDayFields(d);
    TimeValueAccepted(e, "am_in", d.amIn);
    TimeValueAccepted(e, "am_out", d.amOut);
    TimeValueAccepted(e, "pm_in", d.pmIn);
    TimeValueAccepted(e, "pm_out", d.pmOut);
    DayValueAccepted(d.day);
    assert Required(Some(VBool(d.duty))) && IsBooleanLike(VBool(d.duty));
    assert ValidDayEntry(e) <==>
      && (Required(Some(VStr(d.day))) && d.day in DayNames)
      && IsTimeField(e, "am_in") && IsTimeField(e, "am_out")
      && IsTimeField(e, "pm_in") && IsTimeField(e, "pm_out");
  }

  /**
   * The days the client sends are accepted exactly when there are seven of
   * them, each named Mon..Sun (in any order) with four H:i times, and the
   * server then reads back the same days.
   */
  lemma EncodeDaysAccepted(days: seq<DaySchedule>)
    ensures ValidDays(Some(EncodeDays(days))) <==>
      |days| == 7 && forall i :: 0 <= i < 7 ==> days[i].day in DayNames && HasValidTimes(days[i])
    ensures ValidDays(Some(EncodeDays(days))) ==> DecodeDays(Some(EncodeDays(days))) == Some(days)
  {
    var v := EncodeDays(days);
    forall i | 0 <= i < |days|
      ensures ValidDayEntry(v.items[i]) <==> days[i].day in DayNames && HasValidTimes(days[i])
      ensures ValidDayEntry(v.items[i]) ==> DecodeDay(v.items[i]) == days[i]
    {
      EncodeDayAccepted(days[i]);
    }
    if ValidDays(Some(v)) {
      var r := DecodeDays(Some(v)).value;
      assert |r| == |days|;
      forall i | 0 <= i < 7
        ensures r[i] == days[i]
      {
        assert r[i] == DecodeDay(v.items[i]);
      }
      assert r == days;
    }
  }

  /** A week in grid form is always accepted. */
  lemma WeekIsAccepted(days: seq<DaySchedule>)
    requires IsWeek(days)
    ensures ValidDays(Some(EncodeDays(days)))
  {
    EncodeDaysAccepted(days);
  }

  /** The request body the edit form sends. */
  function RequestBody(data: EditFormData): Value {
    VObject(map["employee_id" := VNum(data.employeeId as real), "days" := EncodeDays(data.days)])
  }

  /**
   * Submitting the default grid for an existing employee who has no schedule
   * passes the store validator, and the schedule the server stores is the
   * default grid itself.
   */
  lemma DefaultGridIsStored(e: int, employees: set<int>, schedules: seq<ScheduleOwner>)
    requires e in employees
    requires forall i :: 0 <= i < |schedules| ==> schedules[i].employeeId != e
    ensures ValidStoreRequest(RequestBody(EditFormData(e, DefaultDaySchedules())), employees, schedules)
    ensures DecodeDays(Field(RequestBody(EditFormData(e, DefaultDaySchedules())), "days")) == Some(DefaultDaySchedules())
  {
    var input := RequestBody(EditFormData(e, DefaultDaySchedules()));
    DefaultIsWeek();
    WeekIsAccepted(DefaultDaySchedules());
    EncodeDaysAccepted(DefaultDaySchedules());
    assert Field(input, "days") == Some(EncodeDays(DefaultDaySchedules()));
    assert Field(input, "employee_id") == Some(VNum(e as real));
    assert (e as real).Floor == e;
  }

  /**
   * Editing and saving a uniform week, then listing it, shows the same week in
   * the edit form again: the store rules accept it, the stored data is the
   * week, and the summary parses back to it.
   */
  lemma SavedWeekReopens(row: ScheduleRow, input: Value, days: seq<DaySchedule>)
    requires IsWeek(days)
    requires forall i :: 0 <= i < 7 ==> SameTimes(days[i], days[0])
    requires (exists i :: 0 <= i < 7 && days[i].duty) || HasDefaultTimes(days[0])
    requires Field(input, "days") == Some(EncodeDays(days))
    requires row.scheduleData == DecodeDays(Field(input, "days"))
    ensures ValidDays(Field(input, "days"))
    ensures ScheduleToDays(Summarize(row)) == days
  {
    EncodeDaysAccepted(days);
    SummaryRoundTrip(row, days);
  }
}
