/** `Date`: day numbers and stepping from day to day in the Gregorian calendar. */
module CalendarDate {

  datatype Ymd = Ymd(year: int, month: int, day: int)

  predicate LeapYear(y: int) {
    y % 400 == 0 || (y % 100 != 0 && y % 4 == 0)
  }

  // ---- The calendar ----

  /** `mdays`. */
  function MonthDays(m: int): int {
    if m == 2 then 28 else if m == 4 || m == 6 || m == 9 || m == 11 then 30 else if 1 <= m <= 12 then 31 else 0
  }

  function MonthLength(y: int, m: int): int {
    if m == 2 && LeapYear(y) then 29 else MonthDays(m)
  }

  function YearLength(y: int): int {
    if LeapYear(y) then 366 else 365
  }

  predicate ValidDate(d: Ymd) {
    d.year >= 1 && 1 <= d.month <= 12 && 1 <= d.day <= MonthLength(d.year, d.month)
  }

  /** The day after. */
  function NextDay(d: Ymd): Ymd {
    if d.day < MonthLength(d.year, d.month) then d.(day := d.day + 1)
    else if d.month < 12 then Ymd(d.year, d.month + 1, 1)
    else Ymd(d.year + 1, 1, 1)
  }

  /** The date `n` days after 1 January of year 1. */
  function DayNumbered(n: nat): Ymd {
    if n == 0 then Ymd(1, 1, 1) else NextDay(DayNumbered(n - 1))
  }

  predicate Earlier(a: Ymd, b: Ymd) {
    a.year < b.year || (a.year == b.year && (a.month < b.month || (a.month == b.month && a.day < b.day)))
  }

  // ---- Day numbers, by counting ----

  function DaysBeforeYear(y: int): int
    decreases y
  {
    if y <= 1 then 0 else DaysBeforeYear(y - 1) + YearLength(y - 1)
  }

  function DaysBeforeMonth(y: int, m: int): int
    decreases m
  {
    if m <= 1 then 0 else DaysBeforeMonth(y, m - 1) + MonthLength(y, m - 1)
  }

  /** The number of the day, 1 January of year 1 being number 1. */
  function EpochDay(d: Ymd): int {
    DaysBeforeYear(d.year) + DaysBeforeMonth(d.year, d.month) + d.day
  }

  // ---- The table and the formula ----

  /** `jdays`. */
  function JDays(leap: bool, m: int): int {
    match m
    case 2 => 31
    case 3 => if leap then 60 else 59
    case 4 => if leap then 91 else 90
    case 5 => if leap then 121 else 120
    case 6 => if leap then 152 else 151
    case 7 => if leap then 182 else 181
    case 8 => if leap then 213 else 212
    case 9 => if leap then 244 else 243
    case 10 => if leap then 274 else 273
    case 11 => if leap then 305 else 304
    case 12 => if leap then 335 else 334
    case _ => 0
  }

  function DayOfYear(year: int, mon: int, mday: int): int {
    mday + JDays(LeapYear(year), mon)
  }

  lemma {:induction false} TableIsRight(y: int, m: int)
    requires 1 <= m <= 12
    ensures JDays(LeapYear(y), m) == DaysBeforeMonth(y, m)
    ensures DaysBeforeMonth(y, 12) + MonthLength(y, 12) == YearLength(y)
    decreases m
  {
    hide LeapYear;
    assert DaysBeforeMonth(y, 1) == 0;
    assert DaysBeforeMonth(y, 2) == 31;
    var f := MonthLength(y, 2);
    assert DaysBeforeMonth(y, 3) == 31 + f;
    assert DaysBeforeMonth(y, 4) == 62 + f;
    assert DaysBeforeMonth(y, 5) == 92 + f;
    assert DaysBeforeMonth(y, 6) == 123 + f;
    assert DaysBeforeMonth(y, 7) == 153 + f;
    assert DaysBeforeMonth(y, 8) == 184 + f;
    assert DaysBeforeMonth(y, 9) == 215 + f;
    assert DaysBeforeMonth(y, 10) == 245 + f;
    assert DaysBeforeMonth(y, 11) == 276 + f;
    assert DaysBeforeMonth(y, 12) == 306 + f;
  }

  /** The days of `n` whole years, by the lengths of 400, 100, 4 and 1 years. */
  function CycleDays(n: nat): int {
    var quad, rest := n / 4, n % 4;
    var cent, q := quad / 25, quad % 25;
    var era, c := cent / 4, cent % 4;
    era * (400 * 365 + 97) + c * (100 * 365 + 24) + q * (4 * 365 + 1) + rest * 365
  }

  lemma {:induction false} CyclesAreRight(y: int)
    requires y >= 1
    ensures CycleDays(y - 1) == DaysBeforeYear(y)
    decreases y
  {
    if y > 1 {
      CyclesAreRight(y - 1);
      OneYearMore(y - 2);
    }
  }

  lemma OneYearMore(n: nat)
    ensures CycleDays(n + 1) == CycleDays(n) + YearLength(n + 1)
  {
    var quad, rest := n / 4, n % 4;
    var cent, q := quad / 25, quad % 25;
    var era, c := cent / 4, cent % 4;
    assert n == 400 * era + 100 * c + 4 * q + rest;
    if rest < 3 {
      assert (n + 1) / 4 == quad && (n + 1) % 4 == rest + 1;
    } else if q < 24 {
      assert (n + 1) / 4 == quad + 1 && (n + 1) % 4 == 0;
      assert (quad + 1) / 25 == cent && (quad + 1) % 25 == q + 1;
    } else if c < 3 {
      assert (n + 1) / 4 == quad + 1 && (n + 1) % 4 == 0;
      assert (quad + 1) / 25 == cent + 1 && (quad + 1) % 25 == 0;
      assert (cent + 1) / 4 == era && (cent + 1) % 4 == c + 1;
    } else {
      assert (n + 1) / 4 == quad + 1 && (n + 1) % 4 == 0;
      assert (quad + 1) / 25 == cent + 1 && (quad + 1) % 25 == 0;
      assert (cent + 1) / 4 == era + 1 && (cent + 1) % 4 == 0;
    }
  }

  /** `dayofepoch` counts the days one by one. */
  method DayOfEpoch(year: int, mon: int, mday: int) returns (doe: int)
    requires ValidDate(Ymd(year, mon, mday))
    ensures doe == EpochDay(Ymd(year, mon, mday))
  {
    var rest := year - 1;
    var quad := rest / 4;
    rest := rest % 4;
    var cent := quad / 25;
    quad := quad % 25;
    var era := cent / 4;
    cent := cent % 4;
    doe := DayOfYear(year, mon, mday);
    doe := doe + era * (400 * 365 + 97);
    doe := doe + cent * (100 * 365 + 24);
    doe := doe + quad * (4 * 365 + 1);
    doe := doe + rest * 365;
    CyclesAreRight(year);
    TableIsRight(year, mon);
  }

  // ---- Counting ----

  /** The next day is valid and has the next number. */
  lemma NextIsNext(d: Ymd)
    requires ValidDate(d)
    ensures ValidDate(NextDay(d)) && EpochDay(NextDay(d)) == EpochDay(d) + 1
  {
    hide LeapYear;
    TableIsRight(d.year, d.month);
  }

  lemma {:induction false} DaysAreNumbered(n: nat)
    ensures ValidDate(DayNumbered(n)) && EpochDay(DayNumbered(n)) == n + 1
  {
    hide LeapYear;
    if n > 0 {
      DaysAreNumbered(n - 1);
      NextIsNext(DayNumbered(n - 1));
    } else {
      assert DaysBeforeYear(1) == 0 && DaysBeforeMonth(1, 1) == 0;
    }
  }

  lemma {:induction false} LaterYears(y: int, y': int)
    requires 1 <= y < y'
    ensures DaysBeforeYear(y) + YearLength(y) <= DaysBeforeYear(y')
    decreases y'
  {
    if y + 1 < y' { LaterYears(y, y' - 1); }
  }

  lemma {:induction false} LaterMonths(y: int, m: int, m': int)
    requires 1 <= m < m' <= 12
    ensures DaysBeforeMonth(y, m) + MonthLength(y, m) <= DaysBeforeMonth(y, m')
    decreases m'
  {
    hide LeapYear;
    if m + 1 < m' { LaterMonths(y, m, m' - 1); }
  }

  lemma {:induction false} InsideYear(d: Ymd)
    requires ValidDate(d)
    ensures 1 <= DaysBeforeMonth(d.year, d.month) + d.day <= YearLength(d.year)
  {
    hide LeapYear;
    TableIsRight(d.year, d.month);
    if d.month < 12 { LaterMonths(d.year, d.month, 12); }
    if d.month > 1 { LaterMonths(d.year, 1, d.month); }
  }

  lemma {:induction false} EarlierIsLess(a: Ymd, b: Ymd)
    requires ValidDate(a) && ValidDate(b) && Earlier(a, b)
    ensures EpochDay(a) < EpochDay(b)
  {
    hide LeapYear;
    InsideYear(a);
    InsideYear(b);
    if a.year < b.year { LaterYears(a.year, b.year); }
    else if a.month < b.month { LaterMonths(a.year, a.month, b.month); }
  }

  /** Two days whose numbers are well known: the first day of 1970, and the leap day of a year divisible by 400. */
  lemma {:induction false} KnownDays()
    ensures EpochDay(Ymd(1970, 1, 1)) == 719163 && EpochDay(Ymd(2000, 2, 29)) == 730179
    ensures ValidDate(Ymd(2000, 2, 29)) && !ValidDate(Ymd(1900, 2, 29)) && ValidDate(Ymd(1996, 2, 29))
  {
    hide DaysBeforeYear;
    CyclesAreRight(1970);
    CyclesAreRight(2000);
    assert CycleDays(1969) == 719162 && CycleDays(1999) == 730119;
    assert DaysBeforeMonth(1970, 1) == 0 && DaysBeforeMonth(2000, 2) == 31;
  }

  /** Day numbers are in the order of the dates, and no two dates share one. */
  lemma {:induction false} NumbersAreOrdered(a: Ymd, b: Ymd)
    requires ValidDate(a) && ValidDate(b)
    ensures EpochDay(a) < EpochDay(b) <==> Earlier(a, b)
    ensures EpochDay(a) == EpochDay(b) <==> a == b
  {
    hide EpochDay, ValidDate;
    if Earlier(a, b) { EarlierIsLess(a, b); } else if Earlier(b, a) { EarlierIsLess(b, a); }
  }

  /** Every valid date is reached by counting, after as many days as its number says. */
  lemma {:induction false} EveryDateIsCounted(d: Ymd)
    requires ValidDate(d)
    ensures EpochDay(d) >= 1 && DayNumbered(EpochDay(d) - 1) == d
  {
    hide LeapYear;
    InsideYear(d);
    YearsBeforeAreNotNegative(d.year);
    var n := EpochDay(d) - 1;
    DaysAreNumbered(n);
    NumbersAreOrdered(DayNumbered(n), d);
  }

  lemma {:induction false} YearsBeforeAreNotNegative(y: int)
    ensures DaysBeforeYear(y) >= 0
    decreases y
  {
    if y > 1 { YearsBeforeAreNotNegative(y - 1); }
  }

  // ---- The class ----

  class Date {
    var year: int
    var month: int
    var day: int

    ghost function Value(): Ymd
      reads this
    {
      Ymd(year, month, day)
    }

    constructor (m: int, d: int, y: int)
      ensures Value() == Ymd(y, m, d)
    {
      year, month, day := y, m, d;
    }

    method EndOfMonth(d: int) returns (b: bool)
      ensures b == (d == MonthLength(year, month))
    {
      if month == 2 && LeapYear(year) { b := d == 29; } else { b := d == MonthDays(month); }
    }

    /** `helpIncrement`, that is `++`. */
    method HelpIncrement()
      requires ValidDate(Value())
      modifies this
      ensures Value() == NextDay(old(Value())) && ValidDate(Value())
      ensures EpochDay(Value()) == EpochDay(old(Value())) + 1
    {
      hide LeapYear;
      NextIsNext(Value());
      var last := EndOfMonth(day);
      if last && month == 12 {
        day := 1;
        month := 1;
        year := year + 1;
      } else if last {
        day := 1;
        month := month + 1;
      } else {
        day := day + 1;
      }
    }

    /** `operator+=`: nothing for a negative number. */
    method Add(ndays: int)
      requires ValidDate(Value())
      modifies this
      ensures ValidDate(Value())
      ensures EpochDay(Value()) == EpochDay(old(Value())) + if ndays > 0 then ndays else 0
    {
      hide ValidDate, EpochDay;
      var i := 0;
      while i < ndays
        invariant 0 <= i && (ndays > 0 ==> i <= ndays) && (ndays <= 0 ==> i == 0)
        invariant ValidDate(Value()) && EpochDay(Value()) == EpochDay(old(Value())) + i
      {
        HelpIncrement();
        i := i + 1;
      }
    }

    /** `operator<`. */
    method Less(d: Date) returns (b: bool)
      ensures b == Earlier(Value(), d.Value())
      ensures ValidDate(Value()) && ValidDate(d.Value()) ==> (b <==> EpochDay(Value()) < EpochDay(d.Value()))
    {
      if ValidDate(Value()) && ValidDate(d.Value()) { NumbersAreOrdered(Value(), d.Value()); }
      hide EpochDay, ValidDate;
      if year < d.year { return true; }
      if year > d.year { return false; }
      if month < d.month { return true; }
      if month > d.month { return false; }
      if day < d.day { return true; }
      return false;
    }
  }
}
