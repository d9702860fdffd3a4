/**
 * Weekly time schedules: the seven-day grid the client edits, the summary
 * the server builds from a stored schedule (duty days plus the morning and
 * afternoon ranges of the first duty day), and the client's parse of that
 * summary back into seven days.
 */
module TimeSchedule {
  import opened Common

  /** One day of a schedule, as stored in schedule_data and edited in the grid. */
  datatype DaySchedule = DaySchedule(
    day: string,
    duty: bool,
    amIn: string,
    amOut: string,
    pmIn: string,
    pmOut: string)

  const DayNames: seq<string> := ["Mon", "Tue", "Wed", "Thu", "Fri", "Sat", "Sun"]

  const DefaultAmIn := "08:00"
  const DefaultAmOut := "12:00"
  const DefaultPmIn := "13:00"
  const DefaultPmOut := "17:00"

  predicate HasDefaultTimes(d: DaySchedule) {
    d.amIn == DefaultAmIn && d.amOut == DefaultAmOut && d.pmIn == DefaultPmIn && d.pmOut == DefaultPmOut
  }

  predicate SameTimes(a: DaySchedule, b: DaySchedule) {
    a.amIn == b.amIn && a.amOut == b.amOut && a.pmIn == b.pmIn && a.pmOut == b.pmOut
  }

  /** A time in PHP's H:i format: two-digit hour 00-23, a colon, two-digit minute 00-59. */
  predicate IsHourMinute(s: string) {
    && |s| == 5
    && IsAsciiDigit(s[0]) && IsAsciiDigit(s[1]) && s[2] == ':' && IsAsciiDigit(s[3]) && IsAsciiDigit(s[4])
    && DigitValue(s[0]) * 10 + DigitValue(s[1]) <= 23
    && DigitValue(s[3]) <= 5
  }

  predicate HasValidTimes(d: DaySchedule) {
    IsHourMinute(d.amIn) && IsHourMinute(d.amOut) && IsHourMinute(d.pmIn) && IsHourMinute(d.pmOut)
  }

  /** Seven days named Mon..Sun in order, every time in H:i format. */
  predicate IsWeek(days: seq<DaySchedule>) {
    && |days| == 7
    && (forall i :: 0 <= i < 7 ==> days[i].day == DayNames[i])
    && (forall i :: 0 <= i < 7 ==> HasValidTimes(days[i]))
  }

  lemma DayNamesDistinct()
    ensures forall i, j :: 0 <= i < 7 && 0 <= j < 7 && DayNames[i] == DayNames[j] ==> i == j
  {
  }

  // -----------------------------------------------------------------------
  // Server-side summary

  /** The employee a schedule row is loaded with. */
  datatype ScheduledEmployee = ScheduledEmployee(employeeId: string, firstName: string, lastName: string)

  /** A time_schedules row; schedule_data may be null. */
  datatype ScheduleRow = ScheduleRow(id: int, employee: ScheduledEmployee, scheduleData: Option<seq<DaySchedule>>)

  datatype Summary = Summary(
    id: int,
    employeeId: string,
    name: string,
    dutyDays: seq<string>,
    morning: string,
    afternoon: string)

  /** The names of the duty days, in stored order. */
  function DutyDays(data: seq<DaySchedule>): (r: seq<string>)
    ensures |r| <= |data|
    ensures forall name :: name in r <==> exists i :: 0 <= i < |data| && data[i].duty && data[i].day == name
    decreases |data|
  {
    if data == [] then []
    else (if data[0].duty then [data[0].day] else []) + DutyDays(data[1..])
  }

  /** Collecting duty days distributes over concatenation, so stored order is kept. */
  lemma {:induction false} DutyDaysAppend(a: seq<DaySchedule>, b: seq<DaySchedule>)
    ensures DutyDays(a + b) == DutyDays(a) + DutyDays(b)
    decreases |a|
  {
    if a != [] {
      var head := if a[0].duty then [a[0].day] else [];
      assert (a + b)[1..] == a[1..] + b;
      DutyDaysAppend(a[1..], b);
      calc {
        DutyDays(a + b);
        head + DutyDays(a[1..] + b);
        head + (DutyDays(a[1..]) + DutyDays(b));
        (head + DutyDays(a[1..])) + DutyDays(b);
        DutyDays(a) + DutyDays(b);
      }
    } else {
      assert a + b == b;
    }
  }

  /** The position of the first duty day (Laravel's firstWhere('duty', true)). */
  function FirstDuty(data: seq<DaySchedule>): (r: Option<nat>)
    ensures r.Some? ==> r.value < |data| && data[r.value].duty
    ensures r.Some? ==> forall j :: 0 <= j < r.value ==> !data[j].duty
    ensures r.None? ==> forall j :: 0 <= j < |data| ==> !data[j].duty
    decreases |data|
  {
    if data == [] then None
    else if data[0].duty then Some(0)
    else match FirstDuty(data[1..])
      case Some(k) => Some(k + 1)
      case None => None
  }

  function TimeRange(from: string, to: string): string {
    from + " - " + to
  }

  /** formatSchedule, and the identical closure of the index page. */
  function Summarize(row: ScheduleRow): (s: Summary)
    ensures s.id == row.id && s.employeeId == row.employee.employeeId
    ensures s.name == PhpTrim(row.employee.firstName + " " + row.employee.lastName)
    ensures s.dutyDays == DutyDays(row.scheduleData.GetOr([]))
    ensures FirstDuty(row.scheduleData.GetOr([])).None? ==>
      s.morning == "08:00 - 12:00" && s.afternoon == "13:00 - 17:00"
    ensures FirstDuty(row.scheduleData.GetOr([])).Some? ==>
      var first := row.scheduleData.GetOr([])[FirstDuty(row.scheduleData.GetOr([])).value];
      s.morning == first.amIn + " - " + first.amOut && s.afternoon == first.pmIn + " - " + first.pmOut
  {
    var data := row.scheduleData.GetOr([]);
    var first := FirstDuty(data);
    Summary(
      row.id,
      row.employee.employeeId,
      PhpTrim(row.employee.firstName + " " + row.employee.lastName),
      DutyDays(data),
      if first.Some? then TimeRange(data[first.value].amIn, data[first.value].amOut) else TimeRange(DefaultAmIn, DefaultAmOut),
      if first.Some? then TimeRange(data[first.value].pmIn, data[first.value].pmOut) else TimeRange(DefaultPmIn, DefaultPmOut))
  }

  /** The deferred schedules list of the index page: one summary per row, in row order. */
  function IndexSchedules(rows: seq<ScheduleRow>): (r: seq<Summary>)
    ensures |r| == |rows|
    ensures forall i :: 0 <= i < |rows| ==> r[i] == Summarize(rows[i])
  {
    seq(|rows|, i requires 0 <= i < |rows| => Summarize(rows[i]))
  }

  /** A null or empty schedule summarises to no duty days and the default ranges. */
  lemma EmptyScheduleSummary(row: ScheduleRow)
    requires row.scheduleData.None? || row.scheduleData == Some([])
    ensures Summarize(row).dutyDays == []
    ensures Summarize(row).morning == "08:00 - 12:00" && Summarize(row).afternoon == "13:00 - 17:00"
  {
  }

  /** An employee without a last name is listed under the first name alone, without a trailing space. */
  lemma NameIsTrimmed(row: ScheduleRow)
    requires row.employee.lastName == ""
    requires row.employee.firstName != []
    requires !IsPhpSpace(row.employee.firstName[0]) && !IsPhpSpace(row.employee.firstName[|row.employee.firstName| - 1])
    ensures Summarize(row).name == row.employee.firstName
  {
    var first := row.employee.firstName;
    assert first + " " + row.employee.lastName == [] + first + " ";
    TrimPadded([], first, " ", IsPhpSpace);
  }

  // -----------------------------------------------------------------------
  // The client's grid

  function DayWithDefaultTimes(day: string, duty: bool): DaySchedule {
    DaySchedule(day, duty, DefaultAmIn, DefaultAmOut, DefaultPmIn, DefaultPmOut)
  }

  /** DEFAULT_DAY_SCHEDULES: Mon..Sun, on duty except Saturday and Sunday, default times. */
  function DefaultDaySchedules(): (r: seq<DaySchedule>)
    ensures |r| == 7
    ensures forall i :: 0 <= i < 7 ==> r[i].day == DayNames[i] && (r[i].duty <==> i < 5) && HasDefaultTimes(r[i])
  {
    seq(|DayNames|, i requires 0 <= i < |DayNames| =>
      DayWithDefaultTimes(DayNames[i], DayNames[i] != "Sat" && DayNames[i] != "Sun"))
  }

  /** The fields a single-day update sets; None leaves a field as it was. */
  datatype DayUpdate = DayUpdate(
    day: Option<string>,
    duty: Option<bool>,
    amIn: Option<string>,
    amOut: Option<string>,
    pmIn: Option<string>,
    pmOut: Option<string>)

  /** `{ ...d, ...u }` */
  function Patched(d: DaySchedule, u: DayUpdate): DaySchedule {
    DaySchedule(
      u.day.GetOr(d.day), u.duty.GetOr(d.duty),
      u.amIn.GetOr(d.amIn), u.amOut.GetOr(d.amOut), u.pmIn.GetOr(d.pmIn), u.pmOut.GetOr(d.pmOut))
  }

  /** updateDay: copy the array and replace slot `index` by `{ ...next[index], ...updates }`. */
  function UpdateDay(days: seq<DaySchedule>, index: nat, u: DayUpdate): (r: seq<DaySchedule>)
    requires index < |days|
    ensures |r| == |days|
    ensures forall j :: 0 <= j < |days| && j != index ==> r[j] == days[j]
    ensures r[index].day == (if u.day.Some? then u.day.value else days[index].day)
    ensures r[index].duty == (if u.duty.Some? then u.duty.value else days[index].duty)
    ensures r[index].amIn == (if u.amIn.Some? then u.amIn.value else days[index].amIn)
    ensures r[index].amOut == (if u.amOut.Some? then u.amOut.value else days[index].amOut)
    ensures r[index].pmIn == (if u.pmIn.Some? then u.pmIn.value else days[index].pmIn)
    ensures r[index].pmOut == (if u.pmOut.Some? then u.pmOut.value else days[index].pmOut)
  {
    days[index := Patched(days[index], u)]
  }

  /** The update that sets no field. */
  const NoUpdate := DayUpdate(None, None, None, None, None, None)

  /** An update that sets nothing leaves the grid as it was. */
  lemma NoUpdateChangesNothing(days: seq<DaySchedule>, index: nat)
    requires index < |days|
    ensures UpdateDay(days, index, NoUpdate) == days
  {
    assert UpdateDay(days, index, NoUpdate)[index] == days[index];
  }

  /** Applying the same single-day update twice is the same as applying it once. */
  lemma UpdateDayIdempotent(days: seq<DaySchedule>, index: nat, u: DayUpdate)
    requires index < |days|
    ensures UpdateDay(UpdateDay(days, index, u), index, u) == UpdateDay(days, index, u)
  {
    var once := UpdateDay(days, index, u);
    assert UpdateDay(once, index, u)[index] == once[index];
  }

  /** Updating a day of a well-formed week with H:i times, without renaming it, keeps a well-formed week. */
  lemma UpdateDayKeepsWeek(days: seq<DaySchedule>, index: nat, u: DayUpdate)
    requires IsWeek(days) && index < 7
    requires u.day.None? || u.day.value == days[index].day
    requires u.amIn.None? || IsHourMinute(u.amIn.value)
    requires u.amOut.None? || IsHourMinute(u.amOut.value)
    requires u.pmIn.None? || IsHourMinute(u.pmIn.value)
    requires u.pmOut.None? || IsHourMinute(u.pmOut.value)
    ensures IsWeek(UpdateDay(days, index, u))
  {
    var r := UpdateDay(days, index, u);
    assert HasValidTimes(r[index]);
  }

  /** The Mon-Fri button: duty on exactly the first five rows, default times everywhere. */
  function ApplyMonFri(days: seq<DaySchedule>): (r: seq<DaySchedule>)
    ensures |r| == |days|
    ensures forall i :: 0 <= i < |days| ==>
      r[i].day == days[i].day && (r[i].duty <==> i < 5) && HasDefaultTimes(r[i])
  {
    seq(|days|, i requires 0 <= i < |days| => DayWithDefaultTimes(days[i].day, i < 5))
  }

  /** The Select All button: every row on duty, default times. */
  function SelectAll(days: seq<DaySchedule>): (r: seq<DaySchedule>)
    ensures |r| == |days|
    ensures forall i :: 0 <= i < |days| ==> r[i].day == days[i].day && r[i].duty && HasDefaultTimes(r[i])
  {
    seq(|days|, i requires 0 <= i < |days| => DayWithDefaultTimes(days[i].day, true))
  }

  /** The Clear All button: no row on duty, default times. */
  function ClearAll(days: seq<DaySchedule>): (r: seq<DaySchedule>)
    ensures |r| == |days|
    ensures forall i :: 0 <= i < |days| ==> r[i].day == days[i].day && !r[i].duty && HasDefaultTimes(r[i])
  {
    seq(|days|, i requires 0 <= i < |days| => DayWithDefaultTimes(days[i].day, false))
  }

  /** The result of a bulk operation depends on the day names alone. */
  lemma {:induction false} BulkDependsOnNamesOnly(a: seq<DaySchedule>, b: seq<DaySchedule>)
    requires |a| == |b| && forall i :: 0 <= i < |a| ==> a[i].day == b[i].day
    ensures ApplyMonFri(a) == ApplyMonFri(b)
    ensures SelectAll(a) == SelectAll(b)
    ensures ClearAll(a) == ClearAll(b)
  {
    assert forall i :: 0 <= i < |a| ==> ApplyMonFri(a)[i] == ApplyMonFri(b)[i];
    assert forall i :: 0 <= i < |a| ==> SelectAll(a)[i] == SelectAll(b)[i];
    assert forall i :: 0 <= i < |a| ==> ClearAll(a)[i] == ClearAll(b)[i];
  }

  /**
   * Each bulk operation is idempotent, and applying it after any bulk
   * operation gives the same grid as applying it alone.
   */
  lemma BulkOperationsAbsorb(days: seq<DaySchedule>)
    ensures ApplyMonFri(ApplyMonFri(days)) == ApplyMonFri(days)
    ensures ApplyMonFri(SelectAll(days)) == ApplyMonFri(days)
    ensures ApplyMonFri(ClearAll(days)) == ApplyMonFri(days)
    ensures SelectAll(ApplyMonFri(days)) == SelectAll(days)
    ensures SelectAll(SelectAll(days)) == SelectAll(days)
    ensures SelectAll(ClearAll(days)) == SelectAll(days)
    ensures ClearAll(ApplyMonFri(days)) == ClearAll(days)
    ensures ClearAll(SelectAll(days)) == ClearAll(days)
    ensures ClearAll(ClearAll(days)) == ClearAll(days)
  {
    BulkDependsOnNamesOnly(ApplyMonFri(days), days);
    BulkDependsOnNamesOnly(SelectAll(days), days);
    BulkDependsOnNamesOnly(ClearAll(days), days);
  }

  /** Mon-Fri on the default grid gives the default grid back. */
  lemma MonFriOfDefault()
    ensures ApplyMonFri(DefaultDaySchedules()) == DefaultDaySchedules()
  {
    var d := DefaultDaySchedules();
    assert forall i :: 0 <= i < 7 ==> ApplyMonFri(d)[i] == d[i];
  }

  /** The default grid is a well-formed week. */
  lemma DefaultIsWeek()
    ensures IsWeek(DefaultDaySchedules())
  {
    assert IsHourMinute(DefaultAmIn) && IsHourMinute(DefaultAmOut);
    assert IsHourMinute(DefaultPmIn) && IsHourMinute(DefaultPmOut);
  }

  // -----------------------------------------------------------------------
  // The client's parse of a summary

  /**
   * `s.includes('-') ? s.split('-').map(trim) : default`, destructured into
   * its first two parts.
   */
  function ParseRange(s: string, default: (string, string)): (r: (string, string))
    ensures '-' !in s ==> r == default
  {
    if '-' in s then
      var parts := Split(s, '-');
      (JsTrim(parts[0]), JsTrim(parts[1]))
    else default
  }

  /**
   * `s` is `a`, a dash, `b` and `rest`, where `a` and `b` hold no dash and
   * `rest` is empty or starts with a dash: `a` and `b` are the first two
   * pieces of `s.split('-')`.
   */
  predicate DashPieces(s: string, a: string, b: string, rest: string) {
    s == a + "-" + b + rest && '-' !in a && '-' !in b && (rest == [] || rest[0] == '-')
  }

  /** A range with a dash parses to the trimmed first two pieces between its dashes. */
  lemma ParseRangeSplitsAtDash(s: string, default: (string, string))
    requires '-' in s
    ensures exists a, b, rest :: DashPieces(s, a, b, rest) && ParseRange(s, default) == (JsTrim(a), JsTrim(b))
  {
    var p := Split(s, '-');
    SplitFirstTwo(s, '-');
    var a, b, rest := p[0], p[1], SplitRest(p, '-');
    assert DashPieces(s, a, b, rest);
  }

  /** A dash-free prefix followed by nothing or a dash is determined by the string. */
  lemma DashFreePrefixUnique(t: string, b1: string, r1: string, b2: string, r2: string)
    requires t == b1 + r1 && t == b2 + r2
    requires '-' !in b1 && '-' !in b2
    requires (r1 == [] || r1[0] == '-') && (r2 == [] || r2[0] == '-')
    ensures b1 == b2 && r1 == r2
  {
    assert forall k :: 0 <= k < |b1| ==> t[k] == b1[k] != '-';
    assert forall k :: 0 <= k < |b2| ==> t[k] == b2[k] != '-';
    assert |b1| == |t| || t[|b1|] == r1[0] == '-';
    assert |b2| == |t| || t[|b2|] == r2[0] == '-';
    assert |b1| == |b2|;
    assert b1 == t[..|b1|] && b2 == t[..|b2|];
    assert r1 == t[|b1|..] && r2 == t[|b2|..];
  }

  /** The pieces are determined by the string, so the property above fixes what ParseRange returns. */
  lemma DashPiecesUnique(s: string, a1: string, b1: string, r1: string, a2: string, b2: string, r2: string)
    requires DashPieces(s, a1, b1, r1) && DashPieces(s, a2, b2, r2)
    ensures a1 == a2 && b1 == b2
  {
    var t1, t2 := "-" + b1 + r1, "-" + b2 + r2;
    assert s == a1 + t1 && s == a2 + t2;
    DashFreePrefixUnique(s, a1, t1, a2, t2);
    assert t1[1..] == b1 + r1 && t2[1..] == b2 + r2;
    DashFreePrefixUnique(b1 + r1, b1, r1, b2, r2);
  }

  /** scheduleToDays: seven days Mon..Sun sharing the parsed times. */
  function ScheduleToDays(s: Summary): (r: seq<DaySchedule>)
    ensures |r| == 7
    ensures forall i :: 0 <= i < 7 ==> r[i].day == DayNames[i] && (r[i].duty <==> DayNames[i] in s.dutyDays)
    ensures forall i :: 0 <= i < 7 ==> SameTimes(r[i], r[0])
    ensures forall i :: 0 <= i < 7 ==>
      && (r[i].amIn, r[i].amOut) == ParseRange(s.morning, (DefaultAmIn, DefaultAmOut))
      && (r[i].pmIn, r[i].pmOut) == ParseRange(s.afternoon, (DefaultPmIn, DefaultPmOut))
  {
    WeekFrom(s.dutyDays, ParseRange(s.morning, (DefaultAmIn, DefaultAmOut)),
      ParseRange(s.afternoon, (DefaultPmIn, DefaultPmOut)))
  }

  /** Seven days, on duty when named in `dutyDays`, all with the given morning and afternoon. */
  function WeekFrom(dutyDays: seq<string>, morning: (string, string), afternoon: (string, string)): seq<DaySchedule> {
    seq(|DayNames|, i requires 0 <= i < |DayNames| =>
      DaySchedule(DayNames[i], DayNames[i] in dutyDays, morning.0, morning.1, afternoon.0, afternoon.1))
  }

  /** An H:i time holds no dash and neither starts nor ends with white space. */
  lemma HourMinuteShape(t: string)
    requires IsHourMinute(t)
    ensures '-' !in t
    ensures !IsJsSpace(t[0]) && !IsJsSpace(t[|t| - 1])
  {
    assert forall i :: 0 <= i < |t| ==> t[i] != '-';
  }

  /** JavaScript's trim removes the single space the server puts beside the dash. */
  lemma TrimAroundDash(from: string, to: string)
    requires IsHourMinute(from) && IsHourMinute(to)
    ensures JsTrim(from + " ") == from && JsTrim(" " + to) == to
  {
    HourMinuteShape(from);
    HourMinuteShape(to);
    var left := from + " ";
    assert left[0] == from[0];
    assert TrimStart(left, IsJsSpace) == left;
    TrimEndPadded(from, " ", IsJsSpace);
    assert TrimStart(" " + to, IsJsSpace) == to by {
      TrimStartPadded(" ", to, IsJsSpace);
    }
    assert TrimEnd(to, IsJsSpace) == to;
  }

  /** Parsing a range the server formatted from two H:i times gives the two times back. */
  lemma ParseTimeRange(from: string, to: string, default: (string, string))
    requires IsHourMinute(from) && IsHourMinute(to)
    ensures ParseRange(TimeRange(from, to), default) == (from, to)
  {
    HourMinuteShape(from);
    HourMinuteShape(to);
    var left, right := from + " ", " " + to;
    assert '-' !in left by {
      assert forall i :: 0 <= i < |left| ==> left[i] != '-';
    }
    assert '-' !in right by {
      assert forall i :: 0 <= i < |right| ==> right[i] != '-';
    }
    assert TimeRange(from, to) == left + ['-'] + right;
    SplitTwo(left, right, '-');
    assert '-' in TimeRange(from, to) by {
      assert TimeRange(from, to)[|left|] == '-';
    }
    TrimAroundDash(from, to);
  }

  /** In a well-formed week, a day name is among the duty days exactly when that day is on duty. */
  lemma DutyDaysOfWeek(days: seq<DaySchedule>)
    requires IsWeek(days)
    ensures forall i :: 0 <= i < 7 ==> (DayNames[i] in DutyDays(days) <==> days[i].duty)
  {
    DayNamesDistinct();
    forall i | 0 <= i < 7
      ensures DayNames[i] in DutyDays(days) <==> days[i].duty
    {
      if DayNames[i] in DutyDays(days) {
        var j :| 0 <= j < |days| && days[j].duty && days[j].day == DayNames[i];
        assert DayNames[j] == DayNames[i];
      }
    }
  }

  /**
   * When every day carries the same times and those are the times the
   * summary shows, the parsed ranges are the week's times.
   */
  lemma SummaryTimesOfWeek(row: ScheduleRow, days: seq<DaySchedule>)
    requires row.scheduleData == Some(days)
    requires IsWeek(days)
    requires forall i :: 0 <= i < 7 ==> SameTimes(days[i], days[0])
    requires (exists i :: 0 <= i < 7 && days[i].duty) || HasDefaultTimes(days[0])
    ensures ParseRange(Summarize(row).morning, (DefaultAmIn, DefaultAmOut)) == (days[0].amIn, days[0].amOut)
    ensures ParseRange(Summarize(row).afternoon, (DefaultPmIn, DefaultPmOut)) == (days[0].pmIn, days[0].pmOut)
  {
    var s := Summarize(row);
    match FirstDuty(days)
    case Some(k) =>
      assert HasValidTimes(days[k]) && SameTimes(days[k], days[0]);
      ParseTimeRange(days[k].amIn, days[k].amOut, (DefaultAmIn, DefaultAmOut));
      ParseTimeRange(days[k].pmIn, days[k].pmOut, (DefaultPmIn, DefaultPmOut));
    case None =>
      assert HasDefaultTimes(days[0]);
      assert IsHourMinute(DefaultAmIn) && IsHourMinute(DefaultAmOut);
      assert IsHourMinute(DefaultPmIn) && IsHourMinute(DefaultPmOut);
      ParseTimeRange(DefaultAmIn, DefaultAmOut, (DefaultAmIn, DefaultAmOut));
      ParseTimeRange(DefaultPmIn, DefaultPmOut, (DefaultPmIn, DefaultPmOut));
  }

  /** A uniform week is rebuilt from its duty days and its times. */
  lemma RebuiltWeek(dutyDays: seq<string>, days: seq<DaySchedule>)
    requires |days| == 7 && forall i :: 0 <= i < 7 ==> days[i].day == DayNames[i]
    requires forall i :: 0 <= i < 7 ==> SameTimes(days[i], days[0])
    requires forall i :: 0 <= i < 7 ==> (DayNames[i] in dutyDays <==> days[i].duty)
    ensures WeekFrom(dutyDays, (days[0].amIn, days[0].amOut), (days[0].pmIn, days[0].pmOut)) == days
  {
    var d0 := days[0];
    var r := WeekFrom(dutyDays, (d0.amIn, d0.amOut), (d0.pmIn, d0.pmOut));
    forall i | 0 <= i < 7
      ensures r[i] == days[i]
    {
      var d := days[i];
      assert r[i] == DaySchedule(DayNames[i], DayNames[i] in dutyDays, d0.amIn, d0.amOut, d0.pmIn, d0.pmOut);
      assert d == DaySchedule(d.day, d.duty, d.amIn, d.amOut, d.pmIn, d.pmOut);
    }
  }

  /**
   * Round trip: a well-formed week whose days all carry the same times is
   * rebuilt exactly from its summary, provided those times are the ones the
   * summary shows (some day is on duty, or the times are the defaults).
   */
  lemma SummaryRoundTrip(row: ScheduleRow, days: seq<DaySchedule>)
    requires row.scheduleData == Some(days)
    requires IsWeek(days)
    requires forall i :: 0 <= i < 7 ==> SameTimes(days[i], days[0])
    requires (exists i :: 0 <= i < 7 && days[i].duty) || HasDefaultTimes(days[0])
    ensures ScheduleToDays(Summarize(row)) == days
  {
    var s := Summarize(row);
    assert s.dutyDays == DutyDays(days);
    DutyDaysOfWeek(days);
    SummaryTimesOfWeek(row, days);
    RebuiltWeek(s.dutyDays, days);
  }

  // -----------------------------------------------------------------------
  // Submitting the edit form

  datatype EditFormData = EditFormData(employeeId: int, days: seq<DaySchedule>)

  /**
   * handleSubmit: nothing is sent without a submit handler, while a submit is
   * in flight, or with no employee selected; otherwise the selected employee
   * and the grid as it stands.
   */
  function SubmitFormData(hasHandler: bool, isSubmitting: bool, selected: Option<int>, days: seq<DaySchedule>): (r: Option<EditFormData>)
    ensures r.None? <==> !hasHandler || isSubmitting || selected.None?
    ensures r.Some? ==> r.value.employeeId == selected.value && r.value.days == days
  {
    if !hasHandler || isSubmitting || selected.None? then None
    else Some(EditFormData(selected.value, days))
  }
}
