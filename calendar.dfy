// ui/pages/calendar.c: a month view. The weekday of the first is found by Zeller's congruence;
// LEFT and RIGHT step through the months.

module Calendar {
  import opened CInt
  import opened Wrappers
  import Arith
  import Tiles
  import Input

  /** `days_in_month`, for a year that is not a leap year. */
  const DaysInMonthTable: seq<int> := [31, 28, 31, 30, 31, 30, 31, 31, 30, 31, 30, 31]

  /** `month_names`. */
  const MonthNames: seq<seq<char>> := ["January", "February", "March", "April", "May", "June",
    "July", "August", "September", "October", "November", "December"]

  /** `day_names`: the week starts on Sunday. */
  const DayNames: seq<seq<char>> := ["Sun", "Mon", "Tue", "Wed", "Thu", "Fri", "Sat"]

  /** `is_leap_year`: the Gregorian rule. (C's `%` and Dafny's differ in sign on negative
    * operands, never in being zero: see `LeapYearInC`.) */
  function IsLeapYear(year: int): (leap: bool)
    ensures year % 4 != 0 ==> !leap
    ensures year % 4 == 0 && year % 100 != 0 ==> leap
    // A century year is a leap year only when 400 divides it.
    ensures year % 100 == 0 ==> (leap <==> year % 400 == 0)
  {
    year % 4 == 0 && (year % 100 != 0 || year % 400 == 0)
  }

  /** C's remainder is zero exactly when the Euclidean one is. */
  lemma CModZero(a: int, b: int)
    requires b > 0
    ensures CMod(a, b) == 0 <==> a % b == 0
  {
    var q, r := CDiv(a, b), CMod(a, b);
    if r == 0 {
      Arith.DivUnique(a, b, q, 0);
    } else if a % b == 0 {
      var k := a / b;
      assert a == k * b;
      assert r == k * b - q * b;
      assert r == (k - q) * b;
      SmallMultiple(k - q, b);
    }
  }

  /** The only multiple of `b` strictly between `-b` and `b` is 0. */
  lemma SmallMultiple(d: int, b: int)
    requires b > 0 && -b < d * b < b
    ensures d == 0
  {
    if d >= 1 {
      Arith.MulLe(1, d, b);
    } else if d <= -1 {
      Arith.MulLe(1, -d, b);
    }
  }

  /** `is_leap_year` with C's `%`, as the source computes it, is the rule above for every year. */
  lemma LeapYearInC(year: int)
    ensures IsLeapYear(year) <==>
            CMod(year, 4) == 0 && (CMod(year, 100) != 0 || CMod(year, 400) == 0)
  {
    CModZero(year, 4);
    CModZero(year, 100);
    CModZero(year, 400);
  }

  /** `get_days_in_month`. */
  function DaysInMonth(month: int, year: int): (n: int)
    requires 1 <= month <= 12
    ensures 28 <= n <= 31
    ensures month == 2 ==> (n == 29 <==> IsLeapYear(year))
    ensures month != 2 ==> n == DaysInMonthTable[month - 1]
  {
    if month == 2 && IsLeapYear(year) then 29 else DaysInMonthTable[month - 1]
  }

  // ------------------------------------------------------------ a reference weekday

  /** The days of the year before the first of each month, in a year that is not a leap year. */
  const DaysBefore: seq<int> := [0, 31, 59, 90, 120, 151, 181, 212, 243, 273, 304, 334]

  /** The leap years among years 1 to `y`. */
  function LeapDays(y: nat): int
  {
    y / 4 - y / 100 + y / 400
  }

  /** The day number of a date in the proleptic Gregorian calendar, 1 January of year 1
    * being day 1. */
  function DayNumber(day: int, month: int, year: int): int
    requires year >= 1 && 1 <= month <= 12
  {
    365 * (year - 1) + LeapDays(year - 1) + DaysBefore[month - 1] +
    (if month > 2 && IsLeapYear(year) then 1 else 0) + day
  }

  /** The weekday of a date, Sunday being 0: day 1 was a Monday. */
  function Weekday(day: int, month: int, year: int): (w: int)
    requires year >= 1 && 1 <= month <= 12
    ensures 0 <= w < 7
  {
    DayNumber(day, month, year) % 7
  }

  /** Year `y` adds a leap day exactly when it is a leap year. */
  lemma LeapStep(y: int)
    requires y >= 1
    ensures LeapDays(y) == LeapDays(y - 1) + (if IsLeapYear(y) then 1 else 0)
  {
    DivStep(y, 4);
    DivStep(y, 100);
    DivStep(y, 400);
    if y % 400 == 0 {
      Arith.DivUnique(y, 100, 4 * (y / 400), 0);
    }
    if y % 100 == 0 {
      Arith.DivUnique(y, 4, 25 * (y / 100), 0);
    }
  }

  /** Counting multiples of `n`: `y / n` grows by one exactly at a multiple. */
  lemma DivStep(y: int, n: int)
    requires y >= 1 && n > 0
    ensures y / n == (y - 1) / n + (if y % n == 0 then 1 else 0)
  {
    var q, r := (y - 1) / n, (y - 1) % n;
    if r + 1 < n {
      Arith.DivUnique(y, n, q, r + 1);
    } else {
      Arith.DivUnique(y, n, q + 1, 0);
    }
  }

  /** The day numbers count the days one by one: the day after the last of a month is the
    * first of the next, and the day after 31 December is 1 January of the next year. */
  lemma DayNumberSteps(month: int, year: int)
    requires year >= 1 && 1 <= month <= 12
    ensures month < 12 ==> DayNumber(1, month + 1, year) == DayNumber(DaysInMonth(month, year), month, year) + 1
    ensures month == 12 ==> DayNumber(1, 1, year + 1) == DayNumber(31, 12, year) + 1
  {
    if month == 12 {
      LeapStep(year);
    }
  }

  // ------------------------------------------------------------ get_day_of_week

  /** `get_day_of_week(day, month, year)`: Zeller's congruence with C's truncating `/` and `%`,
    * January and February counted as months 13 and 14 of the year before. */
  function DayOfWeek(day: int, month: int, year: int): (w: int)
    ensures 0 <= w <= 6
  {
    var m, y := ShiftedMonth(month), ShiftedYear(month, year);
    var h := CMod(day + CMonthTerm(m) + CYearTerm(y), 7);
    CMod(h + 6, 7)
  }

  /** The month term of `get_day_of_week`, `(13 * (m + 1)) / 5` with C's `/`. */
  function CMonthTerm(m: int): int
  {
    CDiv(13 * (m + 1), 5)
  }

  /** The year terms of `get_day_of_week`, `k + k/4 + j/4 - 2*j` with `k = y % 100` and
    * `j = y / 100`, all with C's operators. */
  function CYearTerm(y: int): int
  {
    var k := CMod(y, 100);
    var j := CDiv(y, 100);
    k + CDiv(k, 4) + CDiv(j, 4) - 2 * j
  }

  /** On non-negative operands C's `/` and `%` are Dafny's. */
  lemma CNonneg(a: int, b: int)
    requires a >= 0 && b > 0
    ensures CDiv(a, b) == a / b && CMod(a, b) == a % b
  {
  }

  /** `a % 7 == b % 7` when they differ by a multiple of 7. */
  lemma Congruent(a: int, b: int, t: int)
    requires a == b + 7 * t
    ensures a % 7 == b % 7
  {
    Arith.DivUnique(a, 7, b / 7 + t, b % 7);
  }

  /** Zeller's month, January and February counted as months 13 and 14 of the year before. */
  function ShiftedMonth(month: int): int
  {
    if month < 3 then month + 12 else month
  }

  /** Zeller's year. */
  function ShiftedYear(month: int, year: int): int
  {
    if month < 3 then year - 1 else year
  }

  /** The sum Zeller's congruence reduces modulo 7, on a year from 0 on. */
  function ZellerSum(day: int, month: int, year: int): int
    requires 1 <= month <= 12 && ShiftedYear(month, year) >= 0
  {
    var m, y := ShiftedMonth(month), ShiftedYear(month, year);
    var k, j := y % 100, y / 100;
    day + (13 * (m + 1)) / 5 + k + k / 4 + j / 4 - 2 * j
  }

  /** From Zeller's year 0 on, the C operators of `get_day_of_week` are Dafny's, but for the
    * reduction of the sum, which can be negative. */
  lemma DayOfWeekSum(day: int, month: int, year: int)
    requires 1 <= month <= 12 && ShiftedYear(month, year) >= 0
    ensures DayOfWeek(day, month, year) == (CMod(ZellerSum(day, month, year), 7) + 6) % 7
  {
    var m, y := ShiftedMonth(month), ShiftedYear(month, year);
    var c := day + CMonthTerm(m) + CYearTerm(y);
    assert c == ZellerSum(day, month, year) by {
      CNonneg(13 * (m + 1), 5);
      CYearTermNonneg(y);
    }
    var h := CMod(c, 7);
    assert DayOfWeek(day, month, year) == CMod(h + 6, 7);
    CNonneg(h + 6, 7);
  }

  /** From year 0 on, the year terms with C's operators are the ones with Dafny's. */
  lemma CYearTermNonneg(y: int)
    requires y >= 0
    ensures CYearTerm(y) == y % 100 + (y % 100) / 4 + (y / 100) / 4 - 2 * (y / 100)
  {
    CNonneg(y, 100);
    CNonneg(y % 100, 4);
    CNonneg(y / 100, 4);
  }

  /** The days before a month, counted from March 1 of Zeller's year. */
  function MonthStart(month: int): int
    requires 1 <= month <= 12
  {
    if month < 3 then DaysBefore[month - 1] else DaysBefore[month - 1] - 365
  }

  /** The month term of Zeller's congruence against the days before the month: they differ by
    * 6 modulo 7 in every month. */
  lemma MonthTerm(month: int)
    requires 1 <= month <= 12
    ensures (MonthStart(month) - (13 * (ShiftedMonth(month) + 1)) / 5 - 6) % 7 == 0
  {
    if month == 1 {} else if month == 2 {} else if month == 3 {} else if month == 4 {}
    else if month == 5 {} else if month == 6 {} else if month == 7 {} else if month == 8 {}
    else if month == 9 {} else if month == 10 {} else if month == 11 {} else {}
  }

  /** The year terms: `365 y + LeapDays(y)` is Zeller's `k + k/4 + j/4 - 2j` plus a multiple of 7,
    * with `k`, `j` the year's last two digits and its century. */
  lemma YearTerm(y: nat)
    ensures var k, j := y % 100, y / 100;
      365 * y + LeapDays(y) == k + k / 4 + j / 4 - 2 * j + 7 * (5218 * j + 52 * k)
  {
    var k, j := y % 100, y / 100;
    Arith.DivUnique(y, 4, 25 * j + k / 4, k % 4);
    Arith.DivUnique(y, 400, j / 4, 100 * (j % 4) + k);
  }

  /** The day number from Zeller's year: 365 days and the leap days of each year before, and
    * the days of Zeller's year before the date. */
  lemma DayNumberShifted(day: int, month: int, year: int)
    requires year >= 1 && 1 <= month <= 12
    ensures DayNumber(day, month, year) ==
      365 * ShiftedYear(month, year) + LeapDays(ShiftedYear(month, year)) + MonthStart(month) + day
  {
    if month >= 3 {
      LeapStep(year);
    }
  }

  /** From year 1 on, `get_day_of_week` is the weekday with Sunday = 0, as `day_names` has it. */
  lemma DayOfWeekIsWeekday(day: int, month: int, year: int)
    requires year >= 1 && 1 <= month <= 12
    ensures DayOfWeek(day, month, year) == Weekday(day, month, year)
  {
    var y := ShiftedYear(month, year);
    var k, j := y % 100, y / 100;
    var s := ZellerSum(day, month, year);
    var n := DayNumber(day, month, year);
    YearTerm(y);
    MonthTerm(month);
    DayNumberShifted(day, month, year);
    var c := (MonthStart(month) - (13 * (ShiftedMonth(month) + 1)) / 5 - 6) / 7;
    assert n == s + 6 + 7 * (5218 * j + 52 * k + c);
    var h := CMod(s, 7);
    DayOfWeekSum(day, month, year);
    Congruent(n, h + 6, 5218 * j + 52 * k + c + CDiv(s, 7));
  }

  /** Two dates to check the reference weekday by: 1 January 2000 was a Saturday, and
    * 16 October 2026 is a Friday. */
  lemma KnownDates()
    ensures Weekday(1, 1, 2000) == 6 && DayNames[Weekday(1, 1, 2000)] == "Sat"
    ensures Weekday(16, 10, 2026) == 5 && DayNames[Weekday(16, 10, 2026)] == "Fri"
  {
  }

  // ------------------------------------------------------------ month navigation

  /** DPAD_RIGHT: the next month, December going on to January of the next year. */
  function NextMonth(month: int, year: int): (int, int)
  {
    if month + 1 > 12 then (1, year + 1) else (month + 1, year)
  }

  /** DPAD_LEFT: the month before, January going back to December of the year before. */
  function PrevMonth(month: int, year: int): (int, int)
  {
    if month - 1 < 1 then (12, year - 1) else (month - 1, year)
  }

  /** Months counted from January of year 0. */
  function MonthIndex(month: int, year: int): int
  {
    12 * year + month - 1
  }

  /** On a real month the two steps stay on real months, move one month forward and back,
    * and undo each other. */
  lemma NavigateRoundTrip(month: int, year: int)
    requires 1 <= month <= 12
    ensures var (m, y) := NextMonth(month, year); 1 <= m <= 12 && MonthIndex(m, y) == MonthIndex(month, year) + 1
    ensures var (m, y) := PrevMonth(month, year); 1 <= m <= 12 && MonthIndex(m, y) == MonthIndex(month, year) - 1
    ensures PrevMonth(NextMonth(month, year).0, NextMonth(month, year).1) == (month, year)
    ensures NextMonth(PrevMonth(month, year).0, PrevMonth(month, year).1) == (month, year)
  {
  }

  /** The month and year after an input: RIGHT and LEFT step, other events leave them. */
  function Navigate(eventType: int, month: int, year: int): (int, int)
  {
    if eventType == Input.DPAD_RIGHT then NextMonth(month, year)
    else if eventType == Input.DPAD_LEFT then PrevMonth(month, year)
    else (month, year)
  }

  // ------------------------------------------------------------ draw_calendar_grid

  /** A day drawn in the grid: its number, its row and column, and whether it is today. */
  datatype Cell = Cell(day: int, row: int, col: int, today: bool)

  function Min(a: int, b: int): int { if a <= b then a else b }
  function Max(a: int, b: int): int { if a >= b then a else b }

  /** `draw_calendar_grid`'s loops: the days of the month are laid out from column
    * `first_day_of_week` of row 0 on, seven to a row, today's highlighted; `rows` is the
    * number of rows drawn. */
  method DrawGrid(month: int, year: int, today: int) returns (cells: seq<Cell>, rows: int)
    requires 1 <= month <= 12
    ensures |cells| == DaysInMonth(month, year)
    ensures forall i :: 0 <= i < |cells| ==>
      cells[i].day == i + 1 && 0 <= cells[i].col < 7 &&
      cells[i].row * 7 + cells[i].col == DayOfWeek(1, month, year) + i &&
      (cells[i].today <==> i + 1 == today)
    ensures 1 <= rows <= 6
    ensures (rows - 1) * 7 < DayOfWeek(1, month, year) + |cells| <= rows * 7
  {
    var dim := DaysInMonth(month, year);
    var first := DayOfWeek(1, month, year);
    var current := 1;
    var row := 0;
    cells := [];
    while row < 6 && current <= dim
      invariant 0 <= row <= 6 && current - 1 == |cells|
      invariant |cells| == Min(dim, Max(0, row * 7 - first))
      invariant row > 0 ==> (row - 1) * 7 - first < dim
      invariant forall i :: 0 <= i < |cells| ==>
        cells[i].day == i + 1 && 0 <= cells[i].col < 7 && cells[i].row * 7 + cells[i].col == first + i &&
        (cells[i].today <==> i + 1 == today)
    {
      var col := 0;
      while col < 7
        invariant 0 <= col <= 7 && current - 1 == |cells|
        invariant |cells| == Min(dim, Max(0, row * 7 + col - first))
        invariant forall i :: 0 <= i < |cells| ==>
          cells[i].day == i + 1 && 0 <= cells[i].col < 7 && cells[i].row * 7 + cells[i].col == first + i &&
          (cells[i].today <==> i + 1 == today)
      {
        if row == 0 && col < first {
        } else if current <= dim {
          cells := cells + [Cell(current, row, col, current == today)];
          current := current + 1;
        }
        col := col + 1;
      }
      row := row + 1;
    }
    rows := row;
  }

  // ------------------------------------------------------------ the page

  /** The RTC's date: day, month, and year within the century. */
  datatype Date = Date(day: int, month: int, year: int)

  /** What the first `calendar_draw_tile` after a change draws: the title, the days, and the
    * number of rows of the grid. */
  datatype Drawing = Drawing(monthName: seq<char>, year: int, cells: seq<Cell>, rows: int)

  /** `d` is month `month` of `year` as drawn on the day `rtc`: the month's name and the year as
    * title, day `i + 1` at row-major position `first weekday + i` of a grid seven columns wide,
    * highlighted exactly when it is the RTC's day of the RTC's month, and just enough rows (one
    * to six) to hold them. */
  ghost predicate Shows(d: Drawing, month: int, year: int, rtc: Date)
    requires 1 <= month <= 12
  {
    && d.monthName == MonthNames[month - 1]
    && d.year == year
    && |d.cells| == DaysInMonth(month, year)
    && (forall i :: 0 <= i < |d.cells| ==>
          var cell := d.cells[i];
          cell.day == i + 1 && 0 <= cell.col < 7 && cell.row * 7 + cell.col == DayOfWeek(1, month, year) + i &&
          (cell.today <==> month == rtc.month && year == 2000 + rtc.year && i + 1 == rtc.day))
    && 1 <= d.rows <= 6
    && (d.rows - 1) * 7 < DayOfWeek(1, month, year) + |d.cells| <= d.rows * 7
  }

  /** `CalendarState`. */
  class CalendarPage {
    var mounted: bool
    var displayMonth: int
    var displayYear: int

    /** No month before the first draw (0), a real one after. */
    ghost predicate Valid()
      reads this
    {
      0 <= displayMonth <= 12
    }

    /** `calendar_page_create`: nothing mounted and no month chosen. */
    constructor ()
      ensures Valid() && !mounted && displayMonth == 0 && displayYear == 0
    {
      mounted, displayMonth, displayYear := false, 0, 0;
    }

    /** `calendar_handle_input(self, event_type)`: RIGHT and LEFT change the month, unmount
      * the page and mark every tile dirty; other events change nothing. */
    method HandleInput(eventType: int, grid: Tiles.TileGrid)
      requires Valid() && grid.Valid()
      modifies this, grid.dirty
      ensures Valid()
      ensures (displayMonth, displayYear) == Navigate(eventType, old(displayMonth), old(displayYear))
      ensures eventType == Input.DPAD_RIGHT || eventType == Input.DPAD_LEFT ==>
        !mounted && grid.Dirty() == Tiles.AllTiles()
      ensures eventType != Input.DPAD_RIGHT && eventType != Input.DPAD_LEFT ==>
        mounted == old(mounted) && grid.Dirty() == old(grid.Dirty())
    {
      var needRedraw := false;
      if eventType == Input.DPAD_RIGHT {
        displayMonth := displayMonth + 1;
        if displayMonth > 12 {
          displayMonth := 1;
          displayYear := displayYear + 1;
        }
        needRedraw := true;
      } else if eventType == Input.DPAD_LEFT {
        displayMonth := displayMonth - 1;
        if displayMonth < 1 {
          displayMonth := 12;
          displayYear := displayYear - 1;
        }
        needRedraw := true;
      }
      if needRedraw {
        mounted := false;
        grid.MarkAllTilesDirty();
      }
    }

    /** `calendar_draw_tile(self, tx, ty)` with `rtc` the RTC's date: when unmounted, takes the
      * RTC's month if none is chosen yet, draws the month with today highlighted, and mounts. */
    method DrawTile(tx: int, ty: int, rtc: Date) returns (drawn: Option<Drawing>)
      requires Valid() && 1 <= rtc.month <= 12
      modifies this
      ensures Valid() && mounted
      ensures old(mounted) ==> drawn == None && displayMonth == old(displayMonth) && displayYear == old(displayYear)
      ensures !old(mounted) && old(displayMonth) == 0 ==> displayMonth == rtc.month && displayYear == 2000 + rtc.year
      ensures !old(mounted) && old(displayMonth) != 0 ==> displayMonth == old(displayMonth) && displayYear == old(displayYear)
      ensures !old(mounted) ==> drawn.Some? && Shows(drawn.value, displayMonth, displayYear, rtc)
    {
      drawn := None;
      if !mounted {
        if displayMonth == 0 {
          displayMonth := rtc.month;
          displayYear := 2000 + rtc.year;
        }
        var today := if displayMonth == rtc.month && displayYear == 2000 + rtc.year then rtc.day else -1;
        var cells, rows := DrawGrid(displayMonth, displayYear, today);
        drawn := Some(Drawing(MonthNames[displayMonth - 1], displayYear, cells, rows));
        assert Shows(drawn.value, displayMonth, displayYear, rtc);
        mounted := true;
      }
    }
  }
}
