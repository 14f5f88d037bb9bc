/** The proleptic-Gregorian day count behind every timestamp: one inverse pair on unbounded
    integers, and the specification that steps one day at a time. */
module Calendar {

  datatype Date = Date(year: int, month: int, day: int)

  /** Rust's `/` on signed integers: rounds toward zero. */
  function TruncDiv(a: int, b: int): (q: int)
    requires b > 0
  {
    if a >= 0 then a / b else -((-a) / b)
  }

  // ---------- The calendar rules, stated directly ----------

  predicate Leap(y: int) {
    y % 4 == 0 && (y % 100 != 0 || y % 400 == 0)
  }

  function DaysInMonth(y: int, m: int): (n: int)
  {
    if m == 2 then (if Leap(y) then 29 else 28)
    else if m == 4 || m == 6 || m == 9 || m == 11 then 30
    else 31
  }

  predicate ValidDate(d: Date) {
    1 <= d.month <= 12 && 1 <= d.day <= DaysInMonth(d.year, d.month)
  }

  const EPOCH := Date(1970, 1, 1)

  /** The day after `d`. */
  function NextDay(d: Date): (e: Date)
  {
    if d.day < DaysInMonth(d.year, d.month) then Date(d.year, d.month, d.day + 1)
    else if d.month < 12 then Date(d.year, d.month + 1, 1)
    else Date(d.year + 1, 1, 1)
  }

  /** The day before `d`. */
  function PreviousDay(d: Date): (e: Date)
  {
    if d.day > 1 then Date(d.year, d.month, d.day - 1)
    else if d.month > 1 then Date(d.year, d.month - 1, DaysInMonth(d.year, d.month - 1))
    else Date(d.year - 1, 12, 31)
  }

  /** The date `n` days from 1970-01-01, found by walking there. */
  function DayByDay(n: int): (d: Date)
    decreases if n < 0 then -n else n
  {
    if n == 0 then EPOCH
    else if n > 0 then NextDay(DayByDay(n - 1))
    else PreviousDay(DayByDay(n + 1))
  }

  // ---------- The closed forms ----------

  function DaysFromCivil(year: int, m: int, d: int): (days: int)
  {
    var y := if m <= 2 then year - 1 else year;
    var era := TruncDiv(if y >= 0 then y else y - 399, 400);
    var yoe := y - era * 400;
    var mp := m + (if m > 2 then -3 else 9);
    var doy := TruncDiv(153 * mp + 2, 5) + d - 1;
    var doe := yoe * 365 + yoe / 4 - yoe / 100 + doy;
    era * 146097 + doe - 719468
  }

  function Days(d: Date): (days: int) {
    DaysFromCivil(d.year, d.month, d.day)
  }

  /** Year of the 400-year era that day `doe` of the era falls in. */
  function YearOfEra(doe: int): (yoe: int) {
    (doe - doe / 1460 + doe / 36524 - doe / 146096) / 365
  }

  /** Days of the era before year `yoe` begins (on 1 March). */
  function DaysBeforeYear(yoe: int): (n: int) {
    365 * yoe + yoe / 4 - yoe / 100
  }

  /** Day `doy` of the March-based year `y`, as a date. */
  function FromMarch(y: int, doy: int): (d: Date) {
    var mp := (5 * doy + 2) / 153;
    var d := doy - (153 * mp + 2) / 5 + 1;
    var m := mp + (if mp < 10 then 3 else -9);
    Date(if m <= 2 then y + 1 else y, m, d)
  }

  function CivilFromDays(days: int): (d: Date)
  {
    var z := days + 719468;
    var era := TruncDiv(if z >= 0 then z else z - 146096, 146097);
    var doe := z - era * 146097;
    var yoe := YearOfEra(doe);
    FromMarch(yoe + era * 400, doe - DaysBeforeYear(yoe))
  }

  // ---------- Arithmetic of one era ----------

  /** Last day-of-year (counted from 1 March) of year `yoe` of an era. */
  function LastDayOfYear(yoe: int): (doy: int) {
    if Leap(yoe + 1) then 365 else 364
  }

  lemma EraIsFloor(y: int)
    ensures TruncDiv(if y >= 0 then y else y - 399, 400) == y / 400
  {
  }

  lemma DayEraIsFloor(z: int)
    ensures TruncDiv(if z >= 0 then z else z - 146096, 146097) == z / 146097
  {
  }

  /** Quotient and remainder are determined by their defining equation. */
  lemma QuotientIs(n: int, b: int, q: int, r: int)
    requires b > 0 && 0 <= r < b && n == b * q + r
    ensures n / b == q && n % b == r
  {
    var e := n / b - q;
    assert b * e == r - n % b;
    assert e >= 1 ==> b * e >= b;
    assert e <= -1 ==> b * e <= -b;
  }

  /** `36524 c + 1461 q + 365 r + doy` lists the days of an era by century, 4-year group and year. */
  lemma YearOfEraInverse(c: int, q: int, r: int, doy: int)
    requires 0 <= c < 4 && 0 <= q < 25 && 0 <= r < 4
    requires 0 <= doy <= LastDayOfYear(100 * c + 4 * q + r)
    ensures DaysBeforeYear(100 * c + 4 * q + r) == 36524 * c + 1461 * q + 365 * r
    ensures 0 <= 36524 * c + 1461 * q + 365 * r + doy < 146097
    ensures YearOfEra(36524 * c + 1461 * q + 365 * r + doy) == 100 * c + 4 * q + r
  {
    var yoe := 100 * c + 4 * q + r;
    QuotientIs(yoe, 4, 25 * c + q, r);
    QuotientIs(yoe, 100, c, 4 * q + r);
    var doe := 36524 * c + 1461 * q + 365 * r + doy;
    // Only the 366th day of a leap year pushes the 1460-day quotient up by one.
    var t := 24 * c + q + 365 * r + doy;
    LongYear(c, q, r, doy);
    var extra := if t < 1460 then 0 else 1;
    QuotientIs(doe, 1460, 25 * c + q + extra, t - 1460 * extra);
    if doe == 146096 {
      assert c == 3 && q == 24 && r == 3 && doy == 365;
    } else {
      QuotientIs(doe, 36524, c, 1461 * q + 365 * r + doy);
      QuotientIs(doe, 146096, 0, doe);
    }
    QuotientIs(doe - doe / 1460 + doe / 36524 - doe / 146096, 365, yoe, doy - extra);
  }

  lemma LongYear(c: int, q: int, r: int, doy: int)
    requires 0 <= c < 4 && 0 <= q < 25 && 0 <= r < 4
    requires 0 <= doy <= LastDayOfYear(100 * c + 4 * q + r)
    ensures doy == 365 ==> r == 3 && (q == 24 ==> c == 3)
    ensures doy == 0 ==> 24 * c + q + 365 * r < 1460
  {
  }

  /** Every day of an era has exactly such a listing. */
  lemma EraDayParts(doe: int) returns (c: int, q: int, r: int, doy: int)
    requires 0 <= doe < 146097
    ensures 0 <= c < 4 && 0 <= q < 25 && 0 <= r < 4
    ensures 0 <= doy <= LastDayOfYear(100 * c + 4 * q + r)
    ensures doe == 36524 * c + 1461 * q + 365 * r + doy
  {
    c := if doe / 36524 < 4 then doe / 36524 else 3;
    var inCentury := doe - 36524 * c;
    q := if inCentury / 1461 < 25 then inCentury / 1461 else 24;
    var inGroup := inCentury - 1461 * q;
    r := if inGroup / 365 < 4 then inGroup / 365 else 3;
    doy := inGroup - 365 * r;
    if doy == 365 {
      var next := 100 * c + 4 * q + 4;
      QuotientIs(next, 4, 25 * c + q + 1, 0);
      if q == 24 {
        assert c == 3;
      } else {
        QuotientIs(next, 100, c, 4 * q + 4);
      }
    }
  }

  /** `YearOfEra` finds the year that `doe` lies in. */
  lemma YearOfEraCorrect(doe: int)
    requires 0 <= doe < 146097
    ensures 0 <= YearOfEra(doe) < 400
    ensures 0 <= doe - DaysBeforeYear(YearOfEra(doe)) <= LastDayOfYear(YearOfEra(doe))
  {
    hide YearOfEra, DaysBeforeYear, LastDayOfYear;
    var c, q, r, doy := EraDayParts(doe);
    YearOfEraInverse(c, q, r, doy);
    var yoe := 100 * c + 4 * q + r;
    assert YearOfEra(doe) == yoe && DaysBeforeYear(yoe) + doy == doe;
  }

  lemma YearOfEraOfDay(yoe: int, doy: int)
    requires 0 <= yoe < 400 && 0 <= doy <= LastDayOfYear(yoe)
    ensures 0 <= DaysBeforeYear(yoe) + doy < 146097
    ensures YearOfEra(DaysBeforeYear(yoe) + doy) == yoe
  {
    hide YearOfEra, DaysBeforeYear, LastDayOfYear;
    var c, q, r := yoe / 100, yoe % 100 / 4, yoe % 4;
    assert yoe == 100 * c + 4 * q + r;
    YearOfEraInverse(c, q, r, doy);
  }

  lemma LeapIsPeriodic(y: int)
    ensures Leap(y) == Leap(y % 400)
  {
    var e, m := y / 400, y % 400;
    assert y == 400 * e + m;
    QuotientIs(y, 4, 100 * e + m / 4, m % 4);
    QuotientIs(y, 100, 4 * e + m / 100, m % 100);
  }

  /** Position of a date counted in March-based years: year `y`, month `mp` (0 is March), day. */
  function MarchYear(d: Date): (y: int) { if d.month <= 2 then d.year - 1 else d.year }

  function MarchMonth(d: Date): (mp: int) { d.month + (if d.month > 2 then -3 else 9) }

  function MarchDay(d: Date): (doy: int) { (153 * MarchMonth(d) + 2) / 5 + d.day - 1 }

  lemma LeapAfter(y: int)
    ensures LastDayOfYear(y % 400) == LastDayOfYear(y)
  {
    LeapIsPeriodic(y + 1);
    LeapIsPeriodic(y % 400 + 1);
    NextInEra(y);
  }

  lemma NextInEra(y: int)
    ensures (y + 1) % 400 == (y % 400 + 1) % 400
    ensures (y + 1) / 400 == (if y % 400 == 399 then y / 400 + 1 else y / 400)
  {
  }

  lemma MarchDayInYear(d: Date)
    requires ValidDate(d)
    ensures 0 <= MarchDay(d) <= LastDayOfYear(MarchYear(d))
    ensures (5 * MarchDay(d) + 2) / 153 == MarchMonth(d)
  {
  }

  /** Days from 1 March of year 0 to 1 March of year `y`. */
  function YearStart(y: int): (n: int) { y / 400 * 146097 + DaysBeforeYear(y % 400) }

  /** The day count, by March-based year and day of that year. */
  lemma DaysByMarch(d: Date)
    requires ValidDate(d)
    ensures Days(d) == YearStart(MarchYear(d)) + MarchDay(d) - 719468
  {
    EraIsFloor(MarchYear(d));
  }

  lemma CivilByMarch(era: int, yoe: int, doy: int)
    requires 0 <= yoe < 400 && 0 <= doy <= LastDayOfYear(yoe)
    ensures CivilFromDays(era * 146097 + DaysBeforeYear(yoe) + doy - 719468) == FromMarch(era * 400 + yoe, doy)
  {
    hide YearOfEra, DaysBeforeYear, FromMarch, LastDayOfYear;
    YearOfEraOfDay(yoe, doy);
    var z := era * 146097 + DaysBeforeYear(yoe) + doy;
    DayEraIsFloor(z);
    QuotientIs(z, 146097, era, DaysBeforeYear(yoe) + doy);
  }

  /** Going to the day count and back gives the date again, for every valid Gregorian date. */
  lemma CivilOfDays(d: Date)
    requires ValidDate(d)
    ensures CivilFromDays(Days(d)) == d
  {
    hide CivilFromDays, DaysFromCivil, DaysBeforeYear, LastDayOfYear;
    var y := MarchYear(d);
    MarchDayInYear(d);
    DaysByMarch(d);
    LeapAfter(y);
    CivilByMarch(y / 400, y % 400, MarchDay(d));
    assert y == y / 400 * 400 + y % 400;
    assert FromMarch(y, MarchDay(d)) == d;
  }

  lemma FromMarchIsValid(y: int, doy: int)
    requires 0 <= doy <= LastDayOfYear(y)
    ensures var d := FromMarch(y, doy); ValidDate(d) && MarchYear(d) == y && MarchDay(d) == doy
  {
  }

  /** Every integer day, negative ones included, is a valid date that counts back to it. */
  lemma DaysOfCivil(z: int)
    ensures ValidDate(CivilFromDays(z)) && Days(CivilFromDays(z)) == z
  {
    hide CivilFromDays, DaysFromCivil, DaysBeforeYear, LastDayOfYear, YearOfEra, FromMarch;
    hide ValidDate, MarchYear, MarchDay;
    var t := z + 719468;
    var era, doe := t / 146097, t % 146097;
    YearOfEraCorrect(doe);
    var yoe := YearOfEra(doe);
    var y, doy := era * 400 + yoe, doe - DaysBeforeYear(yoe);
    QuotientIs(y, 400, era, yoe);
    CivilByMarch(era, yoe, doy);
    LeapAfter(y);
    FromMarchIsValid(y, doy);
    DaysByMarch(FromMarch(y, doy));
  }

  // ---------- Agreement with the one-day-at-a-time specification ----------

  lemma YearLength(yoe: int)
    requires 0 <= yoe < 400
    ensures yoe < 399 ==> DaysBeforeYear(yoe + 1) == DaysBeforeYear(yoe) + LastDayOfYear(yoe) + 1
    ensures yoe == 399 ==> DaysBeforeYear(yoe) + LastDayOfYear(yoe) + 1 == 146097
  {
  }

  /** Within a March-based year the next day has the next number; 1 March opens the next year. */
  lemma NextMarchDay(d: Date)
    requires ValidDate(d)
    ensures ValidDate(NextDay(d))
    ensures if NextDay(d).month == 3 && NextDay(d).day == 1 then
              MarchYear(NextDay(d)) == MarchYear(d) + 1 && MarchDay(NextDay(d)) == 0
              && MarchDay(d) == LastDayOfYear(MarchYear(d))
            else
              MarchYear(NextDay(d)) == MarchYear(d) && MarchDay(NextDay(d)) == MarchDay(d) + 1
  {
  }

  lemma YearStartNext(y: int)
    ensures YearStart(y + 1) == YearStart(y) + LastDayOfYear(y) + 1
  {
    hide LastDayOfYear;
    NextInEra(y);
    LeapAfter(y);
    YearLength(y % 400);
  }

  lemma NextDayIsNext(d: Date)
    requires ValidDate(d)
    ensures ValidDate(NextDay(d)) && Days(NextDay(d)) == Days(d) + 1
  {
    hide NextDay, ValidDate, Days, YearStart, LastDayOfYear, MarchDay, MarchYear;
    NextMarchDay(d);
    DaysByMarch(d);
    DaysByMarch(NextDay(d));
    YearStartNext(MarchYear(d));
  }

  lemma PreviousDayUndoesNext(d: Date)
    requires ValidDate(d)
    ensures ValidDate(PreviousDay(d)) && NextDay(PreviousDay(d)) == d
  {
  }

  lemma NextCivil(d: Date)
    requires ValidDate(d)
    ensures CivilFromDays(Days(d) + 1) == NextDay(d)
  {
    NextDayIsNext(d);
    CivilOfDays(NextDay(d));
  }

  lemma PreviousCivil(d: Date)
    requires ValidDate(d)
    ensures CivilFromDays(Days(d) - 1) == PreviousDay(d)
  {
    hide CivilFromDays, DaysFromCivil;
    PreviousDayUndoesNext(d);
    NextDayIsNext(PreviousDay(d));
    CivilOfDays(PreviousDay(d));
  }

  lemma CivilSteps(n: int)
    ensures CivilFromDays(n + 1) == NextDay(CivilFromDays(n))
    ensures CivilFromDays(n - 1) == PreviousDay(CivilFromDays(n))
  {
    hide CivilFromDays, DaysFromCivil, NextDay, PreviousDay;
    DaysOfCivil(n);
    NextCivil(CivilFromDays(n));
    PreviousCivil(CivilFromDays(n));
  }

  lemma CivilOfEpoch()
    ensures CivilFromDays(0) == EPOCH
  {
    hide CivilFromDays;
    assert Days(EPOCH) == 0;
    CivilOfDays(EPOCH);
  }

  /** The closed form is the calendar: on every integer it names the day the walk arrives at. */
  lemma {:induction false} CivilIsDayByDay(n: int)
    ensures CivilFromDays(n) == DayByDay(n)
    decreases if n < 0 then -n else n
  {
    hide CivilFromDays, NextDay, PreviousDay;
    if n == 0 {
      CivilOfEpoch();
    } else if n > 0 {
      CivilIsDayByDay(n - 1);
      CivilSteps(n - 1);
    } else {
      CivilIsDayByDay(n + 1);
      CivilSteps(n + 1);
    }
  }

  // ---------- Order ----------

  /** Year first, then month, then day. */
  predicate Earlier(a: Date, b: Date) {
    a.year < b.year || (a.year == b.year && (a.month < b.month || (a.month == b.month && a.day < b.day)))
  }

  lemma {:induction false} YearsDoNotOverlap(y1: int, y2: int)
    requires y1 < y2
    ensures YearStart(y1) + LastDayOfYear(y1) < YearStart(y2)
    decreases y2 - y1
  {
    hide YearStart;
    YearStartNext(y1);
    if y1 + 1 < y2 {
      YearsDoNotOverlap(y1 + 1, y2);
    }
  }

  lemma EarlierByMarch(a: Date, b: Date)
    requires ValidDate(a) && ValidDate(b) && Earlier(a, b)
    ensures MarchYear(a) < MarchYear(b) || (MarchYear(a) == MarchYear(b) && MarchDay(a) < MarchDay(b))
  {
  }

  lemma EarlierCountsLess(a: Date, b: Date)
    requires ValidDate(a) && ValidDate(b) && Earlier(a, b)
    ensures Days(a) < Days(b)
  {
    hide Days, YearStart, ValidDate, Earlier, MarchYear, MarchDay, LastDayOfYear;
    EarlierByMarch(a, b);
    DaysByMarch(a);
    DaysByMarch(b);
    MarchDayInYear(a);
    MarchDayInYear(b);
    if MarchYear(a) < MarchYear(b) {
      YearsDoNotOverlap(MarchYear(a), MarchYear(b));
    }
  }

  /** The day count orders valid dates exactly as the calendar does. */
  lemma DaysPreserveOrder(a: Date, b: Date)
    requires ValidDate(a) && ValidDate(b)
    ensures Days(a) < Days(b) <==> Earlier(a, b)
  {
    hide Days, ValidDate;
    if Earlier(a, b) {
      EarlierCountsLess(a, b);
    } else if a != b {
      EarlierCountsLess(b, a);
    }
  }

  /** A day's year is at most `y` exactly when the day is no later than 31 December of `y`. */
  lemma YearAtMost(z: int, y: int)
    ensures CivilFromDays(z).year <= y <==> z <= Days(Date(y, 12, 31))
  {
    hide Days, CivilFromDays;
    DaysOfCivil(z);
    DaysPreserveOrder(Date(y, 12, 31), CivilFromDays(z));
  }
}
