/**
 Seconds since 1970-01-01 00:00:00 to calendar date and time of day, and back.
 */
module CivilTime {
  import opened CppArithmetic
  import opened Calendar

  /** `DateTime`: a date and a time of day in no particular zone; minutes have 60 seconds. */
  datatype DateTime = DateTime(date: Date, hour: int, minute: int, second: int)

  const SECONDS_PER_DAY: int := 24 * 60 * 60

  predicate ValidTime(dt: DateTime) {
    Valid(dt.date) && 0 <= dt.hour < 24 && 0 <= dt.minute < 60 && 0 <= dt.second < 60
  }

  // ---------------------------------------------------------------- the code

  /** `fillHMS`, on the unsigned seconds within a day. */
  function FillHMS(seconds: nat, date: Date): DateTime {
    var minutes := seconds / 60;
    DateTime(date, minutes / 60, minutes % 60, seconds % 60)
  }

  /** `BreakTime`: both casts keep the low 32 bits; the division truncates and is then corrected. */
  function BreakTime(t: int): DateTime {
    var seconds := ToInt(Rem(t, SECONDS_PER_DAY));
    var days := ToInt(Quot(t, SECONDS_PER_DAY));
    if seconds < 0 then
      FillHMS(seconds + SECONDS_PER_DAY, YearMonthDay(days - 1 + JULIAN_DAY_OF_1970_01_01))
    else
      FillHMS(seconds, YearMonthDay(days + JULIAN_DAY_OF_1970_01_01))
  }

  function FromUtcTime(dt: DateTime): int {
    var secondsInDay := dt.hour * 3600 + dt.minute * 60 + dt.second;
    (JulianDayNumber(dt.date) - JULIAN_DAY_OF_1970_01_01) * SECONDS_PER_DAY + secondsInDay
  }

  // ---------------------------------------------------------------- the range the code can represent

  /** The Julian day on which the instant `t` falls. */
  function DayOf(t: int): int {
    t / SECONDS_PER_DAY + JULIAN_DAY_OF_1970_01_01
  }

  /** The instants whose day `getYearMonthDay` computes without overflow; then nothing else on the way
      overflows an int either. */
  predicate Computable(t: int) {
    FIRST_DAY <= DayOf(t) <= LAST_DAY
  }

  lemma UnixEpoch()
    ensures JULIAN_DAY_OF_1970_01_01 == 2440588
  {
  }

  /** The computable instants are exactly those at which no int overflows on the way through `BreakTime`. */
  lemma BreakTimeFitsInt(t: int)
    ensures Computable(t)
            <==> FitsInt(Quot(t, SECONDS_PER_DAY)) && FitsInt(t / SECONDS_PER_DAY) && FitsInt(DayOf(t))
                 && NoOverflow(Split(DayOf(t)))
  {
    InverseFitsInt(DayOf(t));
    TruncationCorrected(t);
    UnixEpoch();
  }

  lemma TruncationCorrected(t: int)
    ensures var seconds := Rem(t, SECONDS_PER_DAY);
            var days := Quot(t, SECONDS_PER_DAY);
            FitsInt(seconds)
            && if seconds < 0 then days - 1 == t / SECONDS_PER_DAY && seconds + SECONDS_PER_DAY == t % SECONDS_PER_DAY
               else days == t / SECONDS_PER_DAY && seconds == t % SECONDS_PER_DAY
  {
  }

  /** The correction after truncating division amounts to rounding down, for negative instants too. */
  lemma BreakTimeRoundsDown(t: int)
    requires Computable(t)
    ensures BreakTime(t) == FillHMS(t % SECONDS_PER_DAY, YearMonthDay(DayOf(t)))
  {
    TruncationCorrected(t);
    UnixEpoch();
  }

  lemma TimeOfDayRoundTrip(seconds: int, date: Date)
    requires 0 <= seconds < SECONDS_PER_DAY
    ensures var dt := FillHMS(seconds, date);
            0 <= dt.hour < 24 && 0 <= dt.minute < 60 && 0 <= dt.second < 60
            && dt.hour * 3600 + dt.minute * 60 + dt.second == seconds && dt.date == date
  {
  }

  lemma FromUtcTimeRecovers(t: int, date: Date)
    requires JulianDayNumber(date) == DayOf(t)
    ensures FromUtcTime(FillHMS(t % SECONDS_PER_DAY, date)) == t
  {
    TimeOfDayRoundTrip(t % SECONDS_PER_DAY, date);
    assert t == t / SECONDS_PER_DAY * SECONDS_PER_DAY + t % SECONDS_PER_DAY;
  }

  /** As long as nothing overflows, `BreakTime` yields a valid date and time exactly from the calendar's
      epoch on, and then `FromUtcTime` recovers the instant, negative ones included. */
  lemma InstantRoundTrip(t: int)
    requires Computable(t)
    ensures ValidTime(BreakTime(t)) <==> DayOf(t) >= EPOCH_DAY
    ensures ValidTime(BreakTime(t)) ==> FromUtcTime(BreakTime(t)) == t && !Before(BreakTime(t).date, EPOCH)
    ensures var dt := BreakTime(t); 0 <= dt.hour < 24 && 0 <= dt.minute < 60 && 0 <= dt.second < 60
  {
    var date := YearMonthDay(DayOf(t));
    BreakTimeRoundsDown(t);
    TimeOfDayRoundTrip(t % SECONDS_PER_DAY, date);
    InverseMeetsFormula(DayOf(t));
    if DayOf(t) >= EPOCH_DAY {
      InverseIsValid(DayOf(t));
      FromUtcTimeRecovers(t, date);
    }
  }

  lemma DayOfFromUtcTime(dt: DateTime)
    requires ValidTime(dt)
    ensures DayOf(FromUtcTime(dt)) == JulianDayNumber(dt.date)
    ensures FromUtcTime(dt) % SECONDS_PER_DAY == dt.hour * 3600 + dt.minute * 60 + dt.second
  {
    DaysAndSeconds(JulianDayNumber(dt.date) - JULIAN_DAY_OF_1970_01_01, dt.hour * 3600 + dt.minute * 60 + dt.second);
  }

  lemma DaysAndSeconds(days: int, seconds: int)
    requires 0 <= seconds < SECONDS_PER_DAY
    ensures (days * SECONDS_PER_DAY + seconds) / SECONDS_PER_DAY == days
    ensures (days * SECONDS_PER_DAY + seconds) % SECONDS_PER_DAY == seconds
  {
  }

  lemma TimeOfDayIsUnique(dt: DateTime)
    requires 0 <= dt.hour < 24 && 0 <= dt.minute < 60 && 0 <= dt.second < 60
    ensures FillHMS(dt.hour * 3600 + dt.minute * 60 + dt.second, dt.date) == dt
  {
    assert (dt.hour * 3600 + dt.minute * 60 + dt.second) / 60 == dt.hour * 60 + dt.minute;
  }

  /** Nor does an int overflow in `FromUtcTime`, for a valid date and time at a computable instant. */
  lemma FromUtcTimeFitsInt(dt: DateTime)
    requires ValidTime(dt) && Computable(FromUtcTime(dt))
    ensures FormulaNoOverflow(dt.date) && FitsInt(JulianDayNumber(dt.date) - JULIAN_DAY_OF_1970_01_01)
    ensures FitsInt(dt.hour * 3600 + dt.minute * 60 + dt.second)
  {
    DayOfFromUtcTime(dt);
    FormulaFitsInt(dt.date);
    UnixEpoch();
  }

  /** As long as nothing overflows, a valid date and time survives the trip through seconds exactly when
      it is not before the epoch. */
  lemma CivilRoundTrip(dt: DateTime)
    requires ValidTime(dt) && Computable(FromUtcTime(dt))
    ensures BreakTime(FromUtcTime(dt)) == dt <==> !Before(dt.date, EPOCH)
  {
    DayOfFromUtcTime(dt);
    TimeOfDayIsUnique(dt);
    FormulaMeetsInverse(dt.date);
    DateDecides(dt, FromUtcTime(dt), YearMonthDay(JulianDayNumber(dt.date)));
  }

  lemma DateDecides(dt: DateTime, t: int, date: Date)
    requires ValidTime(dt) && Computable(t) && date == YearMonthDay(DayOf(t))
    requires FillHMS(t % SECONDS_PER_DAY, dt.date) == dt
    ensures BreakTime(t) == dt <==> date == dt.date
  {
    BreakTimeRoundsDown(t);
    TimeOfDayRoundTrip(t % SECONDS_PER_DAY, date);
  }

  // ---------------------------------------------------------------- the clock

  /** What a clock on the wall does in a second. */
  function NextSecond(dt: DateTime): DateTime {
    if dt.second < 59 then dt.(second := dt.second + 1)
    else if dt.minute < 59 then dt.(minute := dt.minute + 1, second := 0)
    else if dt.hour < 23 then dt.(hour := dt.hour + 1, minute := 0, second := 0)
    else DateTime(NextDay(dt.date), 0, 0, 0)
  }

  lemma NextSecondIsValid(dt: DateTime)
    requires ValidTime(dt) && !Before(dt.date, EPOCH)
    ensures ValidTime(NextSecond(dt)) && !Before(NextSecond(dt).date, EPOCH)
  {
    NextDayCounts(dt.date);
  }

  lemma FromUtcTimeIs(dt: DateTime, day: int)
    requires day == JulianDayNumber(dt.date)
    ensures FromUtcTime(dt) == (day - 2440588) * SECONDS_PER_DAY + dt.hour * 3600 + dt.minute * 60 + dt.second
  {
    UnixEpoch();
  }

  lemma NextSecondsDay(dt: DateTime)
    requires ValidTime(dt) && !Before(dt.date, EPOCH)
    ensures JulianDayNumber(NextSecond(dt).date)
            == JulianDayNumber(dt.date) + if dt.hour == 23 && dt.minute == 59 && dt.second == 59 then 1 else 0
  {
    NextDayAddsOne(dt.date);
  }

  /** `FromUtcTime` counts the seconds of that clock from midnight on 1 January 1970, */
  lemma FromUtcTimeBegins()
    ensures FromUtcTime(DateTime(Date(1970, 1, 1), 0, 0, 0)) == 0
  {
    FromUtcTimeIs(DateTime(Date(1970, 1, 1), 0, 0, 0), JULIAN_DAY_OF_1970_01_01);
    UnixEpoch();
  }

  /** one by one. */
  lemma FromUtcTimeCounts(dt: DateTime)
    requires ValidTime(dt) && !Before(dt.date, EPOCH)
    ensures FromUtcTime(NextSecond(dt)) == FromUtcTime(dt) + 1
  {
    var day, nextDay := JulianDayNumber(dt.date), JulianDayNumber(NextSecond(dt).date);
    FromUtcTimeIs(dt, day);
    FromUtcTimeIs(NextSecond(dt), nextDay);
    NextSecondsDay(dt);
    CountsFrom(day, nextDay, dt);
  }

  /** The same with the numbers of the two days. */
  lemma CountsFrom(day: int, nextDay: int, dt: DateTime)
    requires 0 <= dt.hour < 24 && 0 <= dt.minute < 60 && 0 <= dt.second < 60
    requires nextDay == if dt.hour == 23 && dt.minute == 59 && dt.second == 59 then day + 1 else day
    ensures var next := NextSecond(dt);
            nextDay * SECONDS_PER_DAY + next.hour * 3600 + next.minute * 60 + next.second
            == day * SECONDS_PER_DAY + dt.hour * 3600 + dt.minute * 60 + dt.second + 1
  {
  }

  /** And `BreakTime` shows it: a second later, the next time on the clock. */
  lemma BreakTimeTicks(t: int)
    requires Computable(t) && Computable(t + 1) && DayOf(t) >= EPOCH_DAY
    ensures BreakTime(t + 1) == NextSecond(BreakTime(t))
  {
    InstantRoundTrip(t);
    NextSecondIsValid(BreakTime(t));
    FromUtcTimeCounts(BreakTime(t));
    CivilRoundTrip(NextSecond(BreakTime(t)));
  }
}
