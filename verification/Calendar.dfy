/**
 Julian day numbers: the closed formula and its inverse from Date.cc, proved against a calendar
 that knows only the lengths of months and the 4/100/400 leap-year rule.
 */
module Calendar {
  import opened CppArithmetic

  datatype Date = Date(year: int, month: int, day: int)

  // ---------------------------------------------------------------- the code

  function JulianDayNumber(d: Date): int {
    var a := Quot(14 - d.month, 12);
    var y := d.year + 4800 - a;
    var m := d.month + 12 * a - 3;
    d.day + Quot(153 * m + 2, 5) + y * 365 + Quot(y, 4) - Quot(y, 100) + Quot(y, 400) - 32045
  }

  /** The intermediate values of `getYearMonthDay`, under the code's own names. */
  datatype Parts = Parts(a: int, b: int, c: int, d: int, e: int, m: int)

  function Split(julianDayNumber: int): Parts {
    var a := julianDayNumber + 32044;
    var b := Quot(4 * a + 3, 146097);
    var c := a - Quot(b * 146097, 4);
    var d := Quot(4 * c + 3, 1461);
    var e := c - Quot(1461 * d, 4);
    Parts(a, b, c, d, e, Quot(5 * e + 2, 153))
  }

  function Assemble(p: Parts): Date {
    Date(p.b * 100 + p.d - 4800 + Quot(p.m, 10),
         p.m + 3 - 12 * Quot(p.m, 10),
         p.e - Quot(153 * p.m + 2, 5) + 1)
  }

  function YearMonthDay(julianDayNumber: int): Date {
    Assemble(Split(julianDayNumber))
  }

  const JULIAN_DAY_OF_1970_01_01: int := JulianDayNumber(Date(1970, 1, 1))

  // ---------------------------------------------------------------- the reference calendar

  predicate IsLeap(year: int) {
    year % 4 == 0 && (year % 100 != 0 || year % 400 == 0)
  }

  function MonthLength(year: int, month: int): int {
    if month == 2 then if IsLeap(year) then 29 else 28
    else if month in {4, 6, 9, 11} then 30
    else 31
  }

  function YearLength(year: int): int {
    if IsLeap(year) then 366 else 365
  }

  predicate Valid(d: Date) {
    1 <= d.month <= 12 && 1 <= d.day <= MonthLength(d.year, d.month)
  }

  function NextDay(d: Date): Date {
    if d.day < MonthLength(d.year, d.month) then d.(day := d.day + 1)
    else if d.month < 12 then Date(d.year, d.month + 1, 1)
    else Date(d.year + 1, 1, 1)
  }

  predicate Before(d: Date, d': Date) {
    d.year < d'.year
    || (d.year == d'.year && (d.month < d'.month || (d.month == d'.month && d.day < d'.day)))
  }

  /** Days from 1 January of year -4800 to 1 January of `year`. */
  ghost function DaysBeforeYear(year: int): int
    decreases if year >= -4800 then year + 4800 else -4800 - year
  {
    if year == -4800 then 0
    else if year > -4800 then DaysBeforeYear(year - 1) + YearLength(year - 1)
    else DaysBeforeYear(year + 1) - YearLength(year)
  }

  ghost function DaysBeforeMonth(year: int, month: int): int
    requires 1 <= month
  {
    if month == 1 then 0 else DaysBeforeMonth(year, month - 1) + MonthLength(year, month - 1)
  }

  /** Days from 1 January of year -4800 to `d`, counted year by year and month by month. */
  ghost function DayCount(d: Date): int
    requires Valid(d)
  {
    DaysBeforeYear(d.year) + DaysBeforeMonth(d.year, d.month) + d.day - 1
  }

  /** The first date of the range the formula is meant for. */
  const EPOCH := Date(-4800, 3, 1)

  /** The day count of 1 January of year -4800, on the scale of Julian day numbers. */
  const COUNT_OFFSET: int := -32104

  // ---------------------------------------------------------------- the reference calendar in closed form

  /** The leap years among 1, ..., y for positive y; continued downward for the rest. */
  function Leaps(y: int): int {
    y / 4 - y / 100 + y / 400
  }

  lemma LeapsStep(y: int)
    ensures Leaps(y) - Leaps(y - 1) == if IsLeap(y) then 1 else 0
  {
    FourthYear(y);
    HundredthYear(y);
    FourHundredthYear(y);
  }

  lemma FourthYear(y: int)
    ensures y / 4 - (y - 1) / 4 == if y % 4 == 0 then 1 else 0
  {
  }

  lemma HundredthYear(y: int)
    ensures y / 100 - (y - 1) / 100 == if y % 100 == 0 then 1 else 0
    ensures y % 100 == 0 ==> y % 4 == 0
  {
    var q, r := y / 100, y % 100;
    if r == 0 {
      assert y == 4 * (25 * q);
      assert y - 1 == 100 * (q - 1) + 99;
    } else {
      assert y - 1 == 100 * q + (r - 1);
    }
  }

  lemma FourHundredthYear(y: int)
    ensures y / 400 - (y - 1) / 400 == if y % 400 == 0 then 1 else 0
    ensures y % 400 == 0 ==> y % 100 == 0
  {
    var q, r := y / 400, y % 400;
    if r == 0 {
      assert y == 100 * (4 * q);
      assert y - 1 == 400 * (q - 1) + 399;
    } else {
      assert y - 1 == 400 * q + (r - 1);
    }
  }

  lemma LeapPeriod(y: int)
    ensures IsLeap(y + 4800) == IsLeap(y)
  {
    SameRemainders(y);
  }

  lemma SameRemainders(y: int)
    ensures (y + 4800) % 4 == y % 4 && (y + 4800) % 100 == y % 100 && (y + 4800) % 400 == y % 400
  {
    assert y + 4800 == 4 * (y / 4 + 1200) + y % 4;
    assert y + 4800 == 100 * (y / 100 + 48) + y % 100;
    assert y + 4800 == 400 * (y / 400 + 12) + y % 400;
  }

  lemma {:induction false} DaysBeforeYearClosed(year: int)
    ensures DaysBeforeYear(year) == 365 * (year + 4800) + Leaps(year + 4799) + 1
    decreases if year >= -4800 then year + 4800 else -4800 - year
  {
    if year > -4800 {
      DaysBeforeYearClosed(year - 1);
      LeapsStep(year + 4799);
      LeapPeriod(year - 1);
    } else if year < -4800 {
      DaysBeforeYearClosed(year + 1);
      LeapsStep(year + 4800);
      LeapPeriod(year);
    }
  }

  lemma DaysBeforeMonthClosed(year: int, month: int)
    requires 1 <= month <= 12
    ensures var leap := if IsLeap(year) then 1 else 0;
            DaysBeforeMonth(year, month)
            == if month <= 2 then 31 * (month - 1) else 59 + leap + (153 * (month - 3) + 2) / 5
  {
    var m := 1;
    while m < month
      invariant 1 <= m <= month
      invariant var leap := if IsLeap(year) then 1 else 0;
                DaysBeforeMonth(year, m)
                == if m <= 2 then 31 * (m - 1) else 59 + leap + (153 * (m - 3) + 2) / 5
    {
      m := m + 1;
    }
  }

  /** The year in which the date falls when years begin on 1 March. */
  function MarchYear(d: Date): int {
    if d.month <= 2 then d.year - 1 else d.year
  }

  /** The days the formula gains by rounding quotients toward zero instead of down. */
  function RoundingError(y: int): int {
    Quot(y, 4) - Quot(y, 100) + Quot(y, 400) - Leaps(y)
  }

  lemma RoundingErrorVanishes(y: int)
    ensures RoundingError(y) == if y >= 0 || IsLeap(y) then 0 else 1
  {
    if y < 0 {
      assert Quot(y, 4) == if y % 4 == 0 then y / 4 else y / 4 + 1;
      assert Quot(y, 100) == if y % 100 == 0 then y / 100 else y / 100 + 1;
      assert Quot(y, 400) == if y % 400 == 0 then y / 400 else y / 400 + 1;
      assert y % 400 == 0 ==> y % 100 == 0;
      assert y % 100 == 0 ==> y % 4 == 0;
    }
  }

  /** The days from 1 March to the beginning of a month, in the year that begins in March. */
  function DaysFromMarch(month: int): int {
    if month <= 2 then 306 + 31 * (month - 1) else (153 * (month - 3) + 2) / 5
  }

  lemma FormulaByMarchYear(d: Date)
    requires 1 <= d.month <= 12
    ensures var y := MarchYear(d) + 4800;
            JulianDayNumber(d)
            == d.day + DaysFromMarch(d.month) + y * 365 + Quot(y, 4) - Quot(y, 100) + Quot(y, 400) - 32045
  {
    assert Quot(14 - d.month, 12) == if d.month <= 2 then 1 else 0;
  }

  lemma CountByMarchYear(d: Date)
    requires Valid(d)
    ensures var y := MarchYear(d) + 4800;
            DayCount(d) + COUNT_OFFSET == d.day + DaysFromMarch(d.month) + y * 365 + Leaps(y) - 32045
  {
    DaysBeforeYearClosed(d.year);
    DaysBeforeMonthClosed(d.year, d.month);
    if d.month > 2 {
      LeapsStep(d.year + 4800);
      LeapPeriod(d.year);
    }
  }

  lemma FormulaIsCountPlusError(d: Date)
    requires Valid(d)
    ensures JulianDayNumber(d) == DayCount(d) + COUNT_OFFSET + RoundingError(MarchYear(d) + 4800)
  {
    FormulaByMarchYear(d);
    CountByMarchYear(d);
  }

  // ---------------------------------------------------------------- what the formula computes

  /** The closed formula counts days exactly from 1 March -4800 on; before that it is a day late
      unless the March-based year is a leap year. */
  lemma FormulaCountsDays(d: Date)
    requires Valid(d)
    ensures JulianDayNumber(d) == DayCount(d) + COUNT_OFFSET <==> !Before(d, EPOCH) || IsLeap(MarchYear(d))
    ensures Before(d, EPOCH) && !IsLeap(MarchYear(d)) ==> JulianDayNumber(d) == DayCount(d) + COUNT_OFFSET + 1
  {
    FormulaIsCountPlusError(d);
    RoundingErrorVanishes(MarchYear(d) + 4800);
    LeapPeriod(MarchYear(d));
  }

  lemma YearStep(year: int)
    ensures DaysBeforeYear(year + 1) == DaysBeforeYear(year) + YearLength(year)
  {
  }

  lemma NextDayCounts(d: Date)
    requires Valid(d)
    ensures Valid(NextDay(d)) && Before(d, NextDay(d)) && DayCount(NextDay(d)) == DayCount(d) + 1
  {
    YearStep(d.year);
    DaysBeforeMonthClosed(d.year, 12);
  }

  /** One calendar day later is one Julian day later. */
  lemma NextDayAddsOne(d: Date)
    requires Valid(d) && !Before(d, EPOCH)
    ensures JulianDayNumber(NextDay(d)) == JulianDayNumber(d) + 1
  {
    NextDayCounts(d);
    FormulaCountsDays(d);
    FormulaCountsDays(NextDay(d));
  }

  lemma {:induction false} YearsAreOrdered(year: int, year': int)
    requires year < year'
    ensures DaysBeforeYear(year) + YearLength(year) <= DaysBeforeYear(year')
    decreases year' - year
  {
    YearStep(year);
    if year + 1 < year' {
      YearsAreOrdered(year + 1, year');
    }
  }

  lemma DayWithinYear(d: Date)
    requires Valid(d)
    ensures 0 <= DaysBeforeMonth(d.year, d.month) + d.day - 1 < YearLength(d.year)
  {
    DaysBeforeMonthClosed(d.year, d.month);
  }

  lemma MonthsAreOrdered(d: Date, d': Date)
    requires Valid(d) && Valid(d') && d.year == d'.year && d.month < d'.month
    ensures DayCount(d) < DayCount(d')
  {
    DaysBeforeMonthClosed(d.year, d.month);
    DaysBeforeMonthClosed(d'.year, d'.month);
  }

  /** Counting days puts the valid dates in calendar order, and gives no two the same number. */
  lemma CountOrdersDates(d: Date, d': Date)
    requires Valid(d) && Valid(d')
    ensures Before(d, d') <==> DayCount(d) < DayCount(d')
    ensures d == d' <==> DayCount(d) == DayCount(d')
  {
    DayWithinYear(d);
    DayWithinYear(d');
    if d.year < d'.year {
      YearsAreOrdered(d.year, d'.year);
    } else if d.year > d'.year {
      YearsAreOrdered(d'.year, d.year);
    } else if d.month < d'.month {
      MonthsAreOrdered(d, d');
    } else if d.month > d'.month {
      MonthsAreOrdered(d', d);
    }
  }

  /** Julian day numbers compare as the dates they stand for. */
  lemma FormulaOrdersDates(d: Date, d': Date)
    requires Valid(d) && Valid(d') && !Before(d, EPOCH) && !Before(d', EPOCH)
    ensures Before(d, d') <==> JulianDayNumber(d) < JulianDayNumber(d')
    ensures d == d' <==> JulianDayNumber(d) == JulianDayNumber(d')
  {
    FormulaCountsDays(d);
    FormulaCountsDays(d');
    CountOrdersDates(d, d');
  }

  // ---------------------------------------------------------------- the inverse

  const EPOCH_DAY: int := -32044

  /** Splitting off whole centuries: `c` is the day within century `b` of the 400-year cycle. */
  lemma CenturySplit(a: int, b: int, c: int)
    requires a >= 0 && b == (4 * a + 3) / 146097 && c == a - b * 146097 / 4
    ensures 0 <= b && a == 36524 * b + b / 4 + c
    ensures 0 <= c <= 36524 && (c == 36524 ==> b % 4 == 3)
  {
  }

  /** Splitting off whole years: `e` is the day within year `d` of the century. */
  lemma YearSplit(c: int, d: int, e: int)
    requires 0 <= c <= 36524 && d == (4 * c + 3) / 1461 && e == c - 1461 * d / 4
    ensures 0 <= d <= 99 && c == 365 * d + d / 4 + e
    ensures 0 <= e <= 365 && (e == 365 ==> d % 4 == 3)
    ensures e == 365 && d == 99 ==> c == 36524
  {
  }

  /** Splitting off whole months of the year that begins in March. */
  lemma MonthSplit(e: int, m: int, day: int)
    requires 0 <= e <= 365 && m == (5 * e + 2) / 153 && day == e - (153 * m + 2) / 5 + 1
    ensures 0 <= m <= 11 && 1 <= day <= 31
    ensures m == 11 ==> day <= 29 && (day == 29 <==> e == 365)
    ensures m in {1, 3, 6, 8} ==> day <= 30
  {
  }

  /** What the three splits together say about the intermediate values. */
  ghost predicate Sound(p: Parts) {
    && 0 <= p.b && p.a == 36524 * p.b + p.b / 4 + p.c && 0 <= p.c <= 36524
    && 0 <= p.d <= 99 && p.c == 365 * p.d + p.d / 4 + p.e
    && 0 <= p.e <= 365 && (p.e == 365 ==> p.d % 4 == 3 && (p.d == 99 ==> p.b % 4 == 3))
    && p.m == (5 * p.e + 2) / 153 && 0 <= p.m <= 11
  }

  lemma SplitIsSound(j: int)
    requires j >= EPOCH_DAY
    ensures Sound(Split(j)) && Split(j).a == j + 32044
  {
    var p := Split(j);
    assert p.b == (4 * p.a + 3) / 146097 && p.c == p.a - p.b * 146097 / 4;
    CenturySplit(p.a, p.b, p.c);
    assert p.d == (4 * p.c + 3) / 1461 && p.e == p.c - 1461 * p.d / 4;
    YearSplit(p.c, p.d, p.e);
    MonthSplit(p.e, p.m, p.e - (153 * p.m + 2) / 5 + 1);
  }

  /** A March-based year `100 * b + d` has its 366th day in the next year's February, if that is leap. */
  lemma MarchYearIsLeap(b: int, d: int)
    requires 0 <= d <= 99
    requires d % 4 == 3 && (d == 99 ==> b % 4 == 3)
    ensures IsLeap(b * 100 + d + 1)
  {
    if d == 99 {
      CenturyLeap(b * 100 + d + 1, b / 4 + 1);
    } else {
      OrdinaryLeap(b * 100 + d + 1, b, d / 4 + 1);
    }
  }

  lemma CenturyLeap(year: int, q: int)
    requires year == 400 * q
    ensures IsLeap(year)
  {
  }

  lemma OrdinaryLeap(year: int, b: int, w: int)
    requires year == 100 * b + 4 * w && 0 < w < 25
    ensures IsLeap(year)
  {
    assert year % 100 == 4 * w;
    assert year == 4 * (25 * b + w);
  }

  lemma LeapsOfCentury(b: int, d: int)
    requires 0 <= b && 0 <= d <= 99
    ensures Leaps(b * 100 + d) == 24 * b + b / 4 + d / 4
  {
    assert (b * 100 + d) / 100 == b;
    assert (b * 100 + d) / 400 == b / 4;
    assert (b * 100 + d) / 4 == 25 * b + d / 4;
  }

  /** The date `day` days into month `m` of the March-based year `y`, both counted from March -4800. */
  function MarchDate(y: int, m: int, day: int): Date {
    if m < 10 then Date(y - 4800, m + 3, day) else Date(y - 4799, m - 9, day)
  }

  lemma FormulaOnMarchDate(y: int, m: int, day: int)
    requires 0 <= y && 0 <= m <= 11
    ensures JulianDayNumber(MarchDate(y, m, day)) == day + (153 * m + 2) / 5 + y * 365 + Leaps(y) - 32045
  {
    var month := MarchDate(y, m, day).month;
    assert Quot(14 - month, 12) == if m < 10 then 0 else 1;
  }

  lemma AssembleIsMarchDate(p: Parts)
    requires Sound(p)
    ensures Assemble(p) == MarchDate(p.b * 100 + p.d, p.m, p.e - (153 * p.m + 2) / 5 + 1)
  {
    assert Quot(p.m, 10) == if p.m < 10 then 0 else 1;
  }

  lemma MarchDateIsValid(y: int, e: int, m: int, day: int)
    requires 0 <= y && 0 <= e <= 365 && m == (5 * e + 2) / 153 && day == e - (153 * m + 2) / 5 + 1
    requires e == 365 ==> IsLeap(y - 4799)
    ensures Valid(MarchDate(y, m, day)) && !Before(MarchDate(y, m, day), EPOCH)
  {
    MonthSplit(e, m, day);
  }

  lemma PartsAreValidDate(p: Parts)
    requires Sound(p)
    ensures var d := MarchDate(p.b * 100 + p.d, p.m, p.e - (153 * p.m + 2) / 5 + 1); Valid(d) && !Before(d, EPOCH)
  {
    var y := p.b * 100 + p.d;
    if p.e == 365 {
      MarchYearIsLeap(p.b, p.d);
    }
    MarchDateIsValid(y, p.e, p.m, p.e - (153 * p.m + 2) / 5 + 1);
  }

  lemma PartsAddUp(p: Parts)
    requires Sound(p)
    ensures JulianDayNumber(MarchDate(p.b * 100 + p.d, p.m, p.e - (153 * p.m + 2) / 5 + 1)) == p.a - 32044
  {
    LeapsOfCentury(p.b, p.d);
    FormulaOnMarchDate(p.b * 100 + p.d, p.m, p.e - (153 * p.m + 2) / 5 + 1);
  }

  lemma AssembleIsValid(p: Parts)
    requires Sound(p)
    ensures var d := Assemble(p);
            Valid(d) && !Before(d, EPOCH) && JulianDayNumber(d) == p.a - 32044
  {
    AssembleIsMarchDate(p);
    PartsAreValidDate(p);
    PartsAddUp(p);
  }

  lemma InverseIsValid(j: int)
    requires j >= EPOCH_DAY
    ensures var d := YearMonthDay(j);
            Valid(d) && !Before(d, EPOCH) && JulianDayNumber(d) == j
  {
    SplitIsSound(j);
    AssembleIsValid(Split(j));
  }

  /** Before day -32044 the code yields a day of the month that is zero or negative. */
  lemma InverseFailsBeforeEpoch(j: int)
    requires j < EPOCH_DAY
    ensures YearMonthDay(j).day <= 0
  {
    var p := Split(j);
    assert p.c <= -1 by {
      var b' := -(4 * p.a + 3) / 146097;
      assert p.b == -b' && b' * 146097 <= -4 * p.a - 3;
    }
    assert p.e <= -1 by {
      var d' := -(4 * p.c + 3) / 1461;
      assert p.d == -d' && 1461 * d' <= -4 * p.c - 3;
    }
    NegativeDay(p.e);
  }

  lemma NegativeDay(e: int)
    requires e <= -1
    ensures e - Quot(153 * Quot(5 * e + 2, 153) + 2, 5) + 1 <= 0
  {
    var m' := -(5 * e + 2) / 153;
    assert Quot(5 * e + 2, 153) == -m' && 153 * m' <= -5 * e - 2;
  }

  /** `YearMonthDay` yields a valid date exactly from day -32044 on, and then the one with that number. */
  lemma InverseMeetsFormula(j: int)
    ensures Valid(YearMonthDay(j)) <==> j >= EPOCH_DAY
    ensures Valid(YearMonthDay(j)) ==> JulianDayNumber(YearMonthDay(j)) == j
  {
    if j >= EPOCH_DAY {
      InverseIsValid(j);
    } else {
      InverseFailsBeforeEpoch(j);
    }
  }

  lemma SameNumberSameDate(d: Date, d': Date)
    requires Valid(d) && Valid(d') && !Before(d', EPOCH) && JulianDayNumber(d) == JulianDayNumber(d')
    ensures d == d' <==> !Before(d, EPOCH)
  {
    if !Before(d, EPOCH) {
      FormulaOrdersDates(d, d');
    }
  }

  lemma EpochComesFirst(d: Date)
    requires Valid(d) && !Before(d, EPOCH)
    ensures JulianDayNumber(d) >= EPOCH_DAY
  {
    FormulaOrdersDates(d, EPOCH);
  }

  /** A date survives the trip through its Julian day number exactly when it is not before the epoch. */
  lemma FormulaMeetsInverse(d: Date)
    requires Valid(d)
    ensures YearMonthDay(JulianDayNumber(d)) == d <==> !Before(d, EPOCH)
  {
    var j := JulianDayNumber(d);
    if !Before(d, EPOCH) {
      EpochComesFirst(d);
    }
    if j >= EPOCH_DAY {
      InverseIsValid(j);
      SameNumberSameDate(d, YearMonthDay(j));
    } else {
      InverseFailsBeforeEpoch(j);
    }
  }

  /** The last day before the epoch gets the epoch's own number. */
  lemma DayBeforeEpochCollides()
    ensures NextDay(Date(-4800, 2, 29)) == EPOCH
    ensures JulianDayNumber(Date(-4800, 2, 29)) == JulianDayNumber(EPOCH) == EPOCH_DAY
  {
  }

  // ---------------------------------------------------------------- 32-bit range

  const FIRST_DAY: int := -536902956
  const LAST_DAY: int := 536838867

  /** Every value that `getYearMonthDay` computes on the way fits an int. */
  predicate NoOverflow(p: Parts) {
    && FitsInt(p.a) && FitsInt(4 * p.a) && FitsInt(4 * p.a + 3) && FitsInt(p.b) && FitsInt(p.b * 146097)
    && FitsInt(p.c) && FitsInt(4 * p.c) && FitsInt(4 * p.c + 3) && FitsInt(p.d) && FitsInt(1461 * p.d)
    && FitsInt(p.e) && FitsInt(5 * p.e) && FitsInt(5 * p.e + 2) && FitsInt(p.m) && FitsInt(153 * p.m)
    && FitsInt(153 * p.m + 2) && FitsInt(12 * Quot(p.m, 10)) && FitsInt(p.b * 100)
    && FitsInt(p.b * 100 + p.d) && FitsInt(p.b * 100 + p.d - 4800)
  }

  /** Below the epoch the parts are zero or negative, and no larger than a century's, year's or month's. */
  lemma SplitBelowEpoch(j: int)
    requires j < EPOCH_DAY
    ensures var p := Split(j);
            && p.a == j + 32044 && 4 * p.a + 3 <= p.b * 146097 <= 0
            && -36526 <= p.c <= 0 && -100 <= p.d <= 0 && -367 <= p.e <= 0 && -13 <= p.m <= 0
  {
    var p := Split(j);
    CenturyBelow(p.a, p.b, p.c);
    assert p.d == -(-(4 * p.c + 3) / 1461);
    assert p.m == -(-(5 * p.e + 2) / 153);
  }

  lemma CenturyBelow(a: int, b: int, c: int)
    requires a < 0 && b == Quot(4 * a + 3, 146097) && c == a - Quot(b * 146097, 4)
    ensures 4 * a + 3 <= b * 146097 <= 0 && -36526 <= c <= -1
  {
    var b' := -(4 * a + 3) / 146097;
    assert b == -b' && b' * 146097 <= -4 * a - 3 < b' * 146097 + 146097;
    assert Quot(b * 146097, 4) == -(b' * 146097 / 4);
  }

  /** No intermediate of the inverse overflows an int exactly between days -536902956 and 536838867. */
  lemma InverseFitsInt(j: int)
    ensures NoOverflow(Split(j)) <==> FIRST_DAY <= j <= LAST_DAY
  {
    if j >= EPOCH_DAY {
      FitsIntFromEpoch(j);
    } else {
      SplitBelowEpoch(j);
    }
  }

  lemma FitsIntFromEpoch(j: int)
    requires j >= EPOCH_DAY
    ensures NoOverflow(Split(j)) <==> j <= LAST_DAY
  {
    var p := Split(j);
    SplitIsSound(j);
    assert p.b == (4 * p.a + 3) / 146097;
  }

  /** Every partial sum of `getJulianDayNumber`, taken from the left as C++ does, fits an int. */
  predicate FormulaNoOverflow(d: Date) {
    var a := Quot(14 - d.month, 12);
    FitsInt(d.year + 4800) && SumsFit(d.day, d.year + 4800 - a, d.month + 12 * a - 3)
  }

  predicate SumsFit(day: int, y: int, m: int) {
    var s := day + Quot(153 * m + 2, 5) + y * 365;
    && FitsInt(y) && FitsInt(m) && FitsInt(153 * m + 2) && FitsInt(y * 365) && FitsInt(s)
    && FitsInt(s + Quot(y, 4)) && FitsInt(s + Quot(y, 4) - Quot(y, 100))
    && FitsInt(s + Quot(y, 4) - Quot(y, 100) + Quot(y, 400))
    && FitsInt(s + Quot(y, 4) - Quot(y, 100) + Quot(y, 400) - 32045)
  }

  /** Nor does the formula, for any valid date whose number the inverse can take. */
  lemma FormulaFitsInt(d: Date)
    requires Valid(d) && FIRST_DAY <= JulianDayNumber(d) <= LAST_DAY
    ensures FormulaNoOverflow(d)
  {
    var a := Quot(14 - d.month, 12);
    MarchMonth(d.month);
    SumsOfFormula(d, d.year + 4800 - a, d.month + 12 * a - 3);
  }

  lemma MarchMonth(month: int)
    requires 1 <= month <= 12
    ensures var a := Quot(14 - month, 12); 0 <= a <= 1 && 0 <= month + 12 * a - 3 <= 11
  {
  }

  lemma SumsOfFormula(d: Date, y: int, m: int)
    requires var a := Quot(14 - d.month, 12); y == d.year + 4800 - a && m == d.month + 12 * a - 3
    requires 1 <= d.day <= 31 && 0 <= m <= 11 && FIRST_DAY <= JulianDayNumber(d) <= LAST_DAY
    ensures -1500000 <= y <= 1500000 && SumsFit(d.day, y, m)
  {
    ModerateSumsFit(d.day, y, m);
  }

  lemma ModerateSumsFit(day: int, y: int, m: int)
    requires 1 <= day <= 31 && 0 <= m <= 11
    requires -540000000 <= day + Quot(153 * m + 2, 5) + y * 365 + Quot(y, 4) - Quot(y, 100) + Quot(y, 400) <= 540000000
    ensures -1500000 <= y <= 1500000 && SumsFit(day, y, m)
  {
    assert 0 <= Quot(153 * m + 2, 5) <= 337;
    QuotientsAreSmaller(y);
  }

  lemma QuotientsAreSmaller(y: int)
    ensures y >= 0 ==> 0 <= Quot(y, 4) <= y && 0 <= Quot(y, 100) <= y && 0 <= Quot(y, 400) <= y
    ensures y < 0 ==> y <= Quot(y, 4) <= 0 && y <= Quot(y, 100) <= 0 && y <= Quot(y, 400) <= 0
  {
  }
}
