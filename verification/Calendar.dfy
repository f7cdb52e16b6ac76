/** Stepping a DateTime by days and months. Its fields are unsigned bytes, the year counted
    from 1900, the month from 0. */
module Calendar {

  import opened Bytes

  datatype Date = Date(year: Byte, month: Byte, day: Byte)

  /** getDaysInMonth, called with the year minus 1900. */
  function DaysInMonth(month: int, year: int): Byte {
    match month
    case 0 => 31
    case 1 => if year % 4 != 0 then 28 else 29
    case 2 => 31
    case 3 => 30
    case 4 => 31
    case 5 => 30
    case 6 => 31
    case 7 => 31
    case 8 => 30
    case 9 => 31
    case 10 => 30
    case 11 => 31
    case _ => 0
  }

  predicate Valid(d: Date) {
    d.month < 12 && 1 <= d.day <= DaysInMonth(d.month, d.year)
  }

  function NextMonth(d: Date): Date {
    var month := (d.month as int + 1) % 256;
    if month > 11 then d.(year := (d.year as int + 1) % 256, month := 0) else d.(month := month)
  }

  function LastMonth(d: Date): Date {
    if d.month == 0 then d.(month := 11, year := (d.year as int - 1) % 256) else d.(month := d.month - 1)
  }

  function NextDay(d: Date): Date {
    var later := d.(day := (d.day as int + 1) % 256);
    if later.day > DaysInMonth(later.month, later.year) then NextMonth(later).(day := 1) else later
  }

  function LastDay(d: Date): Date {
    if d.day <= 1 then
      var m := LastMonth(d);
      m.(day := DaysInMonth(m.month, m.year))
    else d.(day := d.day - 1)
  }

  class DateTime {
    var year: Byte
    var month: Byte
    var day: Byte

    function Contents(): Date
      reads this
    {
      Date(year, month, day)
    }

    constructor (d: Date)
      ensures Contents() == d
    {
      year, month, day := d.year, d.month, d.day;
    }

    method MoveMonthForward()
      modifies this
      ensures Contents() == NextMonth(old(Contents()))
    {
      month := (month as int + 1) % 256;
      if month > 11 {
        year := (year as int + 1) % 256;
        month := 0;
      }
    }

    method MoveMonthBackward()
      modifies this
      ensures Contents() == LastMonth(old(Contents()))
    {
      if month == 0 {
        month := 11;
        year := (year as int - 1) % 256;
      } else {
        month := month - 1;
      }
    }

    method MoveDayForward()
      modifies this
      ensures Contents() == NextDay(old(Contents()))
    {
      day := (day as int + 1) % 256;
      if day > DaysInMonth(month, year) {
        MoveMonthForward();
        day := 1;
      }
    }

    method MoveDayBackward()
      modifies this
      ensures Contents() == LastDay(old(Contents()))
    {
      if day <= 1 {
        MoveMonthBackward();
        day := DaysInMonth(month, year);
      } else {
        day := day - 1;
      }
    }
  }

  // ----- Day numbers -----

  /** Days of the year before a month. */
  function DaysBefore(month: nat, year: int): nat {
    if month == 0 then 0 else DaysBefore(month - 1, year) + DaysInMonth(month - 1, year)
  }

  /** Days since the eve of the first day the bytes can hold: every year that is a multiple of
      four has one more than 365. */
  function DayNumber(d: Date): int {
    365 * d.year + (d.year + 3) / 4 + DaysBefore(d.month, d.year) + d.day
  }

  const FIRST := Date(0, 0, 1)
  const LAST := Date(255, 11, 31)

  lemma YearLength(year: int)
    ensures DaysBefore(12, year) == if year % 4 == 0 then 366 else 365
  {
    assert DaysBefore(1, year) == 31;
    assert DaysBefore(2, year) == 31 + DaysInMonth(1, year);
    assert DaysBefore(4, year) == DaysBefore(2, year) + 61;
    assert DaysBefore(6, year) == DaysBefore(4, year) + 61;
    assert DaysBefore(8, year) == DaysBefore(6, year) + 62;
    assert DaysBefore(10, year) == DaysBefore(8, year) + 61;
    assert DaysBefore(12, year) == DaysBefore(10, year) + 61;
  }

  lemma MonthLength(month: Byte, year: int)
    ensures month < 12 ==> 28 <= DaysInMonth(month, year) <= 31
    ensures month == 0 || month == 11 ==> DaysInMonth(month, year) == 31
    ensures DaysBefore(month + 1, year) == DaysBefore(month, year) + DaysInMonth(month, year)
  {
  }

  /** A step forward keeps the date valid and adds one to the day number, but for the step over
      the end of the year byte. */
  lemma NextDayCounts(d: Date)
    requires Valid(d)
    ensures Valid(NextDay(d))
    ensures DayNumber(NextDay(d)) == DayNumber(d) + 1 <==> d != LAST
    ensures d == LAST ==> NextDay(d) == FIRST
  {
    hide DaysInMonth, DaysBefore;
    MonthLength(d.month, d.year);
    YearLength(d.year);
    NoDaysBeforeJanuary(d.year);
    if d.day == DaysInMonth(d.month, d.year) {
      var e := NextDay(d);
      MonthLength(e.month, e.year);
      NoDaysBeforeJanuary(e.year);
      if d.month == 11 {
        assert e == Date((d.year as int + 1) % 256, 0, 1);
        if d.year < 255 {
          assert (d.year + 1 + 3) / 4 == (d.year + 3) / 4 + (if d.year % 4 == 0 then 1 else 0);
        }
      } else {
        assert e == Date(d.year, d.month + 1, 1);
      }
    } else {
      assert NextDay(d) == d.(day := d.day + 1);
    }
  }

  lemma NoDaysBeforeJanuary(year: int)
    ensures DaysBefore(0, year) == 0
  {
  }

  lemma MonthStepsUndo(d: Date)
    requires d.month < 12
    ensures LastMonth(NextMonth(d)) == d && NextMonth(LastMonth(d)) == d
    ensures NextMonth(d).month < 12 && LastMonth(d).month < 12
    ensures NextMonth(d).day == d.day && LastMonth(d).day == d.day
  {
  }

  lemma ForwardThenBack(d: Date)
    requires Valid(d)
    ensures LastDay(NextDay(d)) == d
  {
  }

  lemma BackThenForward(d: Date)
    requires Valid(d)
    ensures Valid(LastDay(d)) && NextDay(LastDay(d)) == d
  {
  }

  /** Backward undoes forward and forward undoes backward, at the ends of the year byte too. */
  lemma DayStepsUndo(d: Date)
    requires Valid(d)
    ensures Valid(LastDay(d)) && LastDay(NextDay(d)) == d && NextDay(LastDay(d)) == d
  {
    hide Valid, NextDay, LastDay;
    ForwardThenBack(d);
    BackThenForward(d);
  }

  lemma LastDayCounts(d: Date)
    requires Valid(d)
    ensures DayNumber(LastDay(d)) == DayNumber(d) - 1 <==> d != FIRST
  {
    DayStepsUndo(d);
    NextDayCounts(LastDay(d));
  }

  function Forward(d: Date, n: nat): Date
    decreases n
  {
    if n == 0 then d else Forward(NextDay(d), n - 1)
  }

  function Backward(d: Date, n: nat): Date {
    if n == 0 then d else LastDay(Backward(d, n - 1))
  }

  lemma {:induction false} ThereAndBack(d: Date, n: nat)
    requires Valid(d)
    ensures Valid(Forward(d, n)) && Backward(Forward(d, n), n) == d
    decreases n
  {
    hide Valid, NextDay, LastDay;
    if n > 0 {
      NextDayCounts(d);
      DayStepsUndo(d);
      ThereAndBack(NextDay(d), n - 1);
    }
  }

  lemma {:induction false} InYear(d: Date)
    requires Valid(d)
    ensures 1 <= DaysBefore(d.month, d.year) + d.day <= DaysBefore(12, d.year)
  {
    DaysBeforeGrows(d.month + 1, 12, d.year);
  }

  lemma {:induction false} DaysBeforeGrows(m: nat, n: nat, year: int)
    requires m <= n
    ensures DaysBefore(m, year) <= DaysBefore(n, year)
  {
    if m < n { DaysBeforeGrows(m, n - 1, year); }
  }

  predicate Earlier(a: Date, b: Date) {
    a.year < b.year || (a.year == b.year && (a.month < b.month || (a.month == b.month && a.day < b.day)))
  }

  /** Day numbers order dates by year, month and day; no two valid dates share one. */
  lemma DayNumbersOrder(a: Date, b: Date)
    requires Valid(a) && Valid(b)
    ensures DayNumber(a) < DayNumber(b) <==> Earlier(a, b)
    ensures DayNumber(a) == DayNumber(b) ==> a == b
  {
    if Earlier(a, b) { EarlierCountsLess(a, b); } else if a != b { EarlierCountsLess(b, a); }
  }

  lemma EarlierCountsLess(a: Date, b: Date)
    requires Valid(a) && Valid(b) && Earlier(a, b)
    ensures DayNumber(a) < DayNumber(b)
  {
    if a.year < b.year {
      InYear(a);
      InYear(b);
      YearLength(a.year);
      assert 365 * b.year >= 365 * a.year + 365;
    } else if a.month < b.month {
      DaysBeforeGrows(a.month + 1, b.month, a.year);
    }
  }

  /** n steps forward count n days as long as the year byte does not run over. */
  lemma {:induction false} ForwardCounts(d: Date, n: nat)
    requires Valid(d) && DayNumber(d) + n <= DayNumber(LAST)
    ensures Valid(Forward(d, n)) && DayNumber(Forward(d, n)) == DayNumber(d) + n
    decreases n
  {
    hide Valid, NextDay, DayNumber;
    if n > 0 {
      NextDayCounts(d);
      ForwardCounts(NextDay(d), n - 1);
    }
  }

  // ----- The Gregorian calendar -----

  predicate GregorianLeap(year: int) {
    year % 4 == 0 && (year % 100 != 0 || year % 400 == 0)
  }

  function GregorianDaysInMonth(month: int, year: int): int {
    if month == 1 then (if GregorianLeap(year) then 29 else 28)
    else if month in {3, 5, 8, 10} then 30
    else if 0 <= month < 12 then 31 else 0
  }

  /** The months have their Gregorian lengths but for February of 1900 and of 2100. */
  lemma MonthsAreGregorian(month: Byte, year: Byte)
    ensures DaysInMonth(month, year) == GregorianDaysInMonth(month, 1900 + year)
            <==> !(month == 1 && (year == 0 || year == 200))
  {
  }

  function GregorianDaysBefore(month: nat, year: int): nat {
    if month == 0 then 0 else GregorianDaysBefore(month - 1, year) + GregorianDaysInMonth(month - 1, year)
  }

  /** The day number of a date in the Gregorian calendar, from 1 January of year 1. */
  function GregorianDayNumber(year: int, month: nat, day: int): int {
    var y := year - 1;
    365 * y + y / 4 - y / 100 + y / 400 + GregorianDaysBefore(month, year) + day
  }

  lemma {:induction false} SameDaysBefore(month: nat, year: int)
    requires 1 <= year <= 199 && month <= 12
    ensures DaysBefore(month, year) == GregorianDaysBefore(month, 1900 + year)
  {
    if month > 0 {
      SameDaysBefore(month - 1, year);
      MonthsAreGregorian(month - 1, year);
    }
  }

  lemma LeapDays(n: int)
    requires 1 <= n <= 199
    ensures var y := 1899 + n; y / 4 - y / 100 + y / 400 == (n + 3) / 4 + 459
  {
    assert (1899 + n) / 4 == (n + 3) / 4 + 474;
    assert (1899 + n) / 100 == if n <= 100 then 19 else 20;
  }

  /** From 1901 to 2099 the day numbers are the Gregorian ones, counted from another day. */
  lemma DayNumbersAreGregorian(d: Date)
    requires Valid(d) && 1 <= d.year <= 199
    ensures GregorianDayNumber(1900 + d.year, d.month, d.day) == DayNumber(d) + 693594
  {
    hide DaysBefore, GregorianDaysBefore;
    SameDaysBefore(d.month, d.year);
    LeapDays(d.year);
  }
}
