/**
 * The per-employee monthly calendar: one status cell per day of the month,
 * classified by the fixed precedence present > holiday > weekend > absent,
 * laid out on a seven-column grid after blank cells for the weekday of the 1st.
 */
module EmployeeCalendar {
  import opened Wrappers
  import opened Dates
  import opened Seqs
  import opened Types

  /** The classification of a grid cell; `Empty` is reserved for padding. */
  datatype Status = Present | Absent | PublicHoliday | Weekend | Empty

  /** One day of the month as the calendar shows it. */
  datatype CalendarDay = CalendarDay(date: Date, dayOfMonth: int, status: Status, description: Option<string>)

  /** The reply of the holiday endpoint. */
  datatype HolidayResponse = HolidayResponse(success: bool, holidays: seq<Holiday>)

  /** The holidays the calendar uses: those of a successful reply, none otherwise. */
  function HolidaysOf(response: HolidayResponse): (hs: seq<Holiday>)
    ensures response.success ==> hs == response.holidays
    ensures !response.success ==> hs == []
  {
    if response.success then response.holidays else []
  }

  /** The holiday falls on `date` (same year, month and day). */
  function HolidayOn(date: Date): Holiday -> bool
  {
    (h: Holiday) => h.date == date
  }

  /** The attendance record was taken on `date` (same year, month and day). */
  function AttendanceOn(date: Date): Attendance -> bool
  {
    (a: Attendance) => a.date == date
  }

  /** The status of a day, by precedence: attended, then holiday, then weekend, else absent. */
  function Classify(attended: bool, isHoliday: bool, isWeekend: bool): (s: Status)
    ensures s != Empty
    ensures s == Present <==> attended
    ensures s == PublicHoliday <==> !attended && isHoliday
    ensures s == Weekend <==> !attended && !isHoliday && isWeekend
    ensures s == Absent <==> !attended && !isHoliday && !isWeekend
  {
    if attended then Present
    else if isHoliday then PublicHoliday
    else if isWeekend then Weekend
    else Absent
  }

  /** Some attendance record was taken on `date`. */
  ghost predicate AttendedOn(attendances: seq<Attendance>, date: Date)
  {
    exists a :: a in attendances && a.date == date
  }

  /** Some holiday falls on `date`. */
  ghost predicate IsHolidayDate(holidays: seq<Holiday>, date: Date)
  {
    exists h :: h in holidays && h.date == date
  }

  /**
   * The cell of day `day` of month `month` of `year`: its date (the year as
   * `Date.UTC` reads it), its number, its status, and the description of the
   * first holiday on that date, whatever the status.
   */
  function DayCell(year: int, month: Month, day: int, holidays: seq<Holiday>, attendances: seq<Attendance>): (c: CalendarDay)
    ensures c.date == Date(FullYear(year), month, day) && c.dayOfMonth == day
    ensures c.status == Present <==> AttendedOn(attendances, c.date)
    ensures c.status == PublicHoliday <==> !AttendedOn(attendances, c.date) && IsHolidayDate(holidays, c.date)
    ensures c.status == Weekend <==>
              !AttendedOn(attendances, c.date) && !IsHolidayDate(holidays, c.date) && IsWeekend(c.date)
    ensures c.status == Absent <==>
              !AttendedOn(attendances, c.date) && !IsHolidayDate(holidays, c.date) && !IsWeekend(c.date)
    ensures c.status != Empty
    ensures c.description.Some? <==> IsHolidayDate(holidays, c.date)
    ensures c.description.Some? ==>
              exists i :: IsFirstMatch(holidays, HolidayOn(c.date), i) && c.description.value == holidays[i].description
  {
    var date := Date(FullYear(year), month, day);
    var holidayInfo := Find(holidays, HolidayOn(date));
    var attendanceRecord := Find(attendances, AttendanceOn(date));
    assert holidayInfo.None? ==> !IsHolidayDate(holidays, date);
    assert attendanceRecord.None? ==> !AttendedOn(attendances, date);
    var status := Classify(attendanceRecord.Some?, holidayInfo.Some?, IsWeekend(date));
    CalendarDay(date, day, status, if holidayInfo.Some? then Some(holidayInfo.value.description) else None)
  }

  /** The cells of a whole month, day 1 first. */
  function MonthCells(year: int, month: Month, holidays: seq<Holiday>, attendances: seq<Attendance>): seq<CalendarDay>
  {
    seq(DaysInMonth(FullYear(year), month), i => DayCell(year, month, i + 1, holidays, attendances))
  }

  /**
   * The loop of the calendar builder: one cell per day of the month, each
   * classified and appended in turn.
   */
  method BuildDays(year: int, month: Month, holidays: seq<Holiday>, attendances: seq<Attendance>)
    returns (days: seq<CalendarDay>)
    ensures days == MonthCells(year, month, holidays, attendances)
    ensures |days| == DaysInMonth(FullYear(year), month)
    ensures forall i :: 0 <= i < |days| ==> days[i].dayOfMonth == i + 1 && days[i].status != Empty
    ensures forall i, j :: 0 <= i < j < |days| ==> days[i].dayOfMonth < days[j].dayOfMonth
  {
    var daysInMonth := DaysInMonth(FullYear(year), month);
    days := [];
    for day := 1 to daysInMonth + 1
      invariant |days| == day - 1
      invariant forall i :: 0 <= i < |days| ==> days[i] == DayCell(year, month, i + 1, holidays, attendances)
    {
      var date := Date(FullYear(year), month, day);
      var holidayInfo := Find(holidays, HolidayOn(date));
      var isHoliday := holidayInfo.Some?;
      var isWeekend := IsWeekend(date);
      var attendanceRecord := Find(attendances, AttendanceOn(date));
      var status := Classify(attendanceRecord.Some?, isHoliday, isWeekend);
      var description := if holidayInfo.Some? then Some(holidayInfo.value.description) else None;
      assert CalendarDay(date, day, status, description) == DayCell(year, month, day, holidays, attendances);
      days := days + [CalendarDay(date, day, status, description)];
    }
  }

  /** February has 29 cells in 2024 and 28 in 2023. */
  lemma FebruaryCellCounts(holidays: seq<Holiday>, attendances: seq<Attendance>)
    ensures |MonthCells(2024, 2, holidays, attendances)| == 29
    ensures |MonthCells(2023, 2, holidays, attendances)| == 28
  {
  }

  /** When the holiday request is unsuccessful, no cell is a holiday and none has a description. */
  lemma NoHolidaysOnFailedResponse(year: int, month: Month, response: HolidayResponse, attendances: seq<Attendance>)
    requires !response.success
    ensures forall c :: c in MonthCells(year, month, HolidaysOf(response), attendances) ==>
              c.status != PublicHoliday && c.description == None
  {
  }

  /** The number of blank cells before day 1: the weekday of the 1st. */
  function FirstDayOfMonth(year: int, month: Month): (pad: int)
    ensures 0 <= pad < 7
  {
    DayOfWeek(Date(FullYear(year), month, 1))
  }

  /**
   * A two-digit year shows the calendar of the same year of the 1900s:
   * the same cells and the same padding.
   */
  lemma TwoDigitYearCalendar(y: int, m: Month, holidays: seq<Holiday>, attendances: seq<Attendance>)
    requires 0 <= y <= 99
    ensures MonthCells(y, m, holidays, attendances) == MonthCells(1900 + y, m, holidays, attendances)
    ensures FirstDayOfMonth(y, m) == FirstDayOfMonth(1900 + y, m)
  {
  }

  /** A position of the seven-column grid. */
  datatype Slot = Blank | Filled(cell: CalendarDay)

  /** The rendered grid: the padding blanks, then the day cells in order. */
  function Grid(year: int, month: Month, cells: seq<CalendarDay>): (g: seq<Slot>)
    ensures |g| == FirstDayOfMonth(year, month) + |cells|
    ensures forall k :: 0 <= k < |g| ==> (g[k] == Blank <==> k < FirstDayOfMonth(year, month))
  {
    seq(FirstDayOfMonth(year, month), _ => Blank) + seq(|cells|, i requires 0 <= i < |cells| => Filled(cells[i]))
  }

  /**
   * Every day lands in the column of its own weekday (column 0 is Sunday), so
   * weekend cells appear only in the first and last columns.
   */
  lemma {:induction false} GridAlignment(year: int, month: Month, holidays: seq<Holiday>, attendances: seq<Attendance>)
    ensures var cells := MonthCells(year, month, holidays, attendances);
            var pad := FirstDayOfMonth(year, month);
            var g := Grid(year, month, cells);
            && |g| == pad + |cells|
            && (forall k :: 0 <= k < pad ==> g[k] == Blank)
            && (forall i :: 0 <= i < |cells| ==>
                  && g[pad + i] == Filled(cells[i])
                  && (pad + i) % 7 == DayOfWeek(cells[i].date)
                  && (cells[i].status == Weekend ==> (pad + i) % 7 == 0 || (pad + i) % 7 == 6))
  {
    var cells := MonthCells(year, month, holidays, attendances);
    var pad := FirstDayOfMonth(year, month);
    forall i | 0 <= i < |cells|
      ensures (pad + i) % 7 == DayOfWeek(cells[i].date)
    {
      DayOfWeekShift(FullYear(year), month, 1, i);
    }
  }

  /** The classes every day cell carries. */
  const DayBaseClasses := "calendar-day min-h-20 flex items-center justify-center text-lg"

  /** The CSS classes of a cell: the shared ones, then one that depends on the status. */
  function DayClass(day: CalendarDay): (cls: string)
    ensures |cls| > |DayBaseClasses| && cls[..|DayBaseClasses|] == DayBaseClasses
  {
    var classes := DayBaseClasses;
    match day.status
    case Present => classes + " bg-green-100"
    case Absent => classes + " bg-red-100"
    case PublicHoliday => classes + " bg-yellow-50"
    case Weekend => classes + " bg-gray-100"
    case Empty => classes + " empty"
  }

  /** Cells look alike exactly when they have the same status. */
  lemma DayClassDistinguishesStatus(c1: CalendarDay, c2: CalendarDay)
    ensures DayClass(c1) == DayClass(c2) <==> c1.status == c2.status
  {
    var classes := DayBaseClasses;
    if c1.status != c2.status {
      assert DayClass(c1)[|classes|..] != DayClass(c2)[|classes|..];
    }
  }

  /**
   * The calendar modal of one employee for one month. `calendarDays` is
   * rebuilt from scratch on every generation; `loading` is set while it runs.
   */
  class CalendarModal {
    const year: int
    const month: Month
    const attendances: seq<Attendance>
    var calendarDays: seq<CalendarDay>
    var loading: bool

    constructor (user: User, month: Month, year: int)
      ensures this.year == year && this.month == month && attendances == user.attendances
      ensures calendarDays == [] && loading
    {
      this.year := year;
      this.month := month;
      this.attendances := user.attendances;
      calendarDays := [];
      loading := true;
    }

    /**
     * Fetches the year's holidays (`response` is `None` when the request
     * throws) and rebuilds the cells; a thrown request leaves them as they were.
     */
    method GenerateCalendar(response: Option<HolidayResponse>)
      modifies this
      ensures !loading
      ensures response.None? ==> calendarDays == old(calendarDays)
      ensures response.Some? ==> calendarDays == MonthCells(year, month, HolidaysOf(response.value), attendances)
    {
      loading := true;
      if response.Some? {
        var holidays := HolidaysOf(response.value);
        var generatedDays := BuildDays(year, month, holidays, attendances);
        calendarDays := generatedDays;
      }
      loading := false;
    }
  }
}
