/** The copies of `civil_from_days` that run on machine integers. `as` casts wrap and `saturating_*`
    clamp. Other arithmetic that leaves its type's range yields `None` in a build with overflow checks
    and wraps in one without: each type comes in both versions. */
module FixedWidth {
  import opened Text
  import opened Calendar

  const I32_MIN := -0x8000_0000
  const I32_MAX := 0x7fff_ffff
  const U32_MAX := 0xffff_ffff
  const U64_MAX: nat := 0xffff_ffff_ffff_ffff
  const I64_MIN := -0x8000_0000_0000_0000
  const I64_MAX := 0x7fff_ffff_ffff_ffff

  function InRange(lo: int, hi: int, x: int): (r: Option<int>) { if lo <= x <= hi then Some(x) else None }

  function I32(x: int): (r: Option<int>) { InRange(I32_MIN, I32_MAX, x) }
  function U32(x: int): (r: Option<int>) { InRange(0, U32_MAX, x) }
  function I64(x: int): (r: Option<int>) { InRange(I64_MIN, I64_MAX, x) }
  function U64(x: int): (r: Option<int>) { InRange(0, U64_MAX, x) }

  predicate FitsI32(x: int) { I32_MIN <= x <= I32_MAX }

  predicate FitsI64(x: int) { I64_MIN <= x <= I64_MAX }

  function AsU32(x: int): (r: int) { x % 0x1_0000_0000 }

  function AsU64(x: int): (r: int) { x % 0x1_0000_0000_0000_0000 }

  function AsI32(x: int): (r: int) {
    var u := AsU32(x);
    if u <= I32_MAX then u else u - 0x1_0000_0000
  }

  function AsI64(x: int): (r: int) {
    var u := AsU64(x);
    if u <= I64_MAX then u else u - 0x1_0000_0000_0000_0000
  }

  function WrapI32(x: int): (r: Option<int>) { Some(AsI32(x)) }
  function WrapU32(x: int): (r: Option<int>) { Some(AsU32(x)) }
  function WrapI64(x: int): (r: Option<int>) { Some(AsI64(x)) }

  function SaturatingSubU32(a: int, b: int): (r: int) { if a < b then 0 else a - b }

  function SaturatingAddU32(a: int, b: int): (r: int) { if a + b > U32_MAX then U32_MAX else a + b }

  /** Month and day of a March-based day number, on an unsigned type `u`; then the calendar year. */
  function ClosingSteps(u: int -> Option<int>, y: int, doy: int, year: int -> Option<int>): (r: Option<Date>)
  {
    var five :- u(5 * doy);
    var five2 :- u(five + 2);
    var mp := five2 / 153;
    var start :- u(153 * mp);
    var start2 :- u(start + 2);
    var d0 :- u(doy - start2 / 5);
    var d :- u(d0 + 1);
    var m :- if mp < 10 then u(mp + 3) else u(mp - 9);
    var yOut :- if m <= 2 then year(y + 1) else Some(y);
    Some(Date(yOut, m, d))
  }

  /** Day number inside year `yoe` of the era, on an unsigned type `u`. */
  function DayOfYear(u: int -> Option<int>, doe: int, yoe: int): (r: Option<int>)
  {
    var a :- u(365 * yoe);
    var b :- u(a + yoe / 4);
    var before :- u(b - yoe / 100);
    u(doe - before)
  }

  /** Era and day of the era, on the signed type `i`: the opening steps of every copy. */
  function EraAndDay(i: int -> Option<int>, days: int): (r: Option<(int, int)>)
  {
    var z :- i(days + 719468);
    var n :- if z >= 0 then Some(z) else i(z - 146096);
    var era := TruncDiv(n, 146097);
    var whole :- i(era * 146097);
    var doe :- i(z - whole);
    Some((era, doe))
  }

  /** The rejections ledger's copy: `u32` with saturating steps, and the year in `i32`. */
  function CivilSaturating(days: int): (r: Option<Date>)
  {
    var (era, left) :- EraAndDay(I64, days);
    SaturatingInEra(I32, U32, era, AsU32(left))
  }

  /** The same copy in a build without overflow checks. */
  function CivilSaturatingUnchecked(days: int): (r: Option<Date>)
  {
    var (era, left) :- EraAndDay(WrapI64, days);
    SaturatingInEra(WrapI32, WrapU32, era, AsU32(left))
  }

  function SaturatingInEra(i: int -> Option<int>, u: int -> Option<int>, era: int, doe: int): (r: Option<Date>)
  {
    var yoe := SaturatingSubU32(SaturatingAddU32(SaturatingSubU32(doe, doe / 1460), doe / 36524), doe / 146096) / 365;
    var base :- i(AsI32(era) * 400);
    var y :- i(AsI32(yoe) + base);
    var doy :- DayOfYear(u, doe, yoe);
    ClosingSteps(u, y, doy, i)
  }

  /** The session-id and archive copies: `u64` steps, the year in `i64` and cut to `i32` at the end. */
  function CivilTruncating(days: int): (r: Option<Date>)
  {
    var (era, left) :- EraAndDay(I64, days);
    var d :- WideInEra(U64, era, AsU64(left));
    Some(Date(AsI32(d.year), AsU32(d.month), AsU32(d.day)))
  }

  /** The gate module's `i64` copy. */
  function CivilI64(days: int): (r: Option<Date>)
  {
    var (era, doe) :- EraAndDay(I64, days);
    WideInEra(I64, era, doe)
  }

  /** Checked steps inside the era on the type `u`, with the year in `i64`. */
  function WideInEra(u: int -> Option<int>, era: int, doe: int): (r: Option<Date>)
  {
    var minus :- u(doe - doe / 1460);
    var plus :- u(minus + doe / 36524);
    var top :- u(plus - doe / 146096);
    var yoe := top / 365;
    var years :- I64(era * 400);
    var y :- I64(yoe + years);
    var doy :- DayOfYear(u, doe, yoe);
    ClosingSteps(u, y, doy, I64)
  }

  // ---------- The pieces, for any type wide enough ----------

  /** A range check that lets every number the algorithm meets inside one era through. */
  ghost predicate WideEnough(u: int -> Option<int>) {
    forall x :: 0 <= x <= 146097 ==> u(x) == Some(x)
  }

  lemma ClosingStepsAgree(u: int -> Option<int>, y: int, doy: int, year: int -> Option<int>)
    requires WideEnough(u) && 0 <= doy <= 365
    ensures ClosingSteps(u, y, doy, year) ==
            var d := FromMarch(y, doy);
            if d.month <= 2 then (if year(y + 1).None? then None else Some(d.(year := year(y + 1).value))) else Some(d)
  {
    var mp := (5 * doy + 2) / 153;
    assert 0 <= mp <= 11 && 0 <= doy - (153 * mp + 2) / 5 <= 30;
  }

  lemma DayOfYearAgrees(u: int -> Option<int>, doe: int)
    requires WideEnough(u) && 0 <= doe < 146097
    ensures DayOfYear(u, doe, YearOfEra(doe)) == Some(doe - DaysBeforeYear(YearOfEra(doe)))
    ensures 0 <= YearOfEra(doe) < 400 && 0 <= doe - DaysBeforeYear(YearOfEra(doe)) <= 365
  {
    hide YearOfEra;
    YearOfEraCorrect(doe);
    var yoe := YearOfEra(doe);
    assert 0 <= yoe / 100 <= yoe / 4;
  }

  lemma WideTypes()
    ensures WideEnough(U32) && WideEnough(U64) && WideEnough(I64) && WideEnough(WrapU32)
  {
    hide AsU32;
    forall x | 0 <= x <= 146097
      ensures U32(x) == Some(x) && U64(x) == Some(x) && I64(x) == Some(x) && WrapU32(x) == Some(x)
    {
      SmallIsKept(x);
    }
  }

  lemma SmallIsKept(x: int)
    requires 0 <= x <= 146097
    ensures AsU32(x) == x
  {
  }

  lemma EraQuotients(doe: int)
    requires 0 <= doe < 146097
    ensures 0 <= doe - doe / 1460 <= 146097
    ensures 0 <= doe - doe / 1460 + doe / 36524 <= 146097
    ensures 0 <= doe - doe / 1460 + doe / 36524 - doe / 146096 <= 146097
    ensures YearOfEra(doe) == (doe - doe / 1460 + doe / 36524 - doe / 146096) / 365
  {
  }

  lemma FromMarchYear(y: int, doy: int)
    requires 0 <= doy <= 365
    ensures FromMarch(y, doy).year == (if FromMarch(y, doy).month <= 2 then y + 1 else y)
    ensures 1 <= FromMarch(y, doy).month <= 12 && 1 <= FromMarch(y, doy).day <= 31
  {
  }

  /** Year and day of the March-based year that `days` falls in. */
  function YearIn(days: int): (y: int) {
    YearOfEra((days + 719468) % 146097) + (days + 719468) / 146097 * 400
  }

  function DayIn(days: int): (doy: int) {
    (days + 719468) % 146097 - DaysBeforeYear(YearOfEra((days + 719468) % 146097))
  }

  lemma CivilIsFromMarch(days: int)
    ensures CivilFromDays(days) == FromMarch(YearIn(days), DayIn(days))
    ensures 0 <= DayIn(days) <= 365
    ensures YearIn(days) / 400 == (days + 719468) / 146097
    ensures CivilFromDays(days).year == (if CivilFromDays(days).month <= 2 then YearIn(days) + 1 else YearIn(days))
    ensures 1 <= CivilFromDays(days).month <= 12 && 1 <= CivilFromDays(days).day <= 31
  {
    hide YearOfEra, DaysBeforeYear, FromMarch, LastDayOfYear;
    var z := days + 719468;
    DayEraIsFloor(z);
    WideTypes();
    DayOfYearAgrees(I64, z % 146097);
    QuotientIs(YearIn(days), 400, z / 146097, YearOfEra(z % 146097));
    FromMarchYear(YearIn(days), DayIn(days));
  }

  lemma EraAndDayExact(days: int)
    requires FitsI64(days)
    ensures EraAndDay(I64, days) ==
            if days <= I64_MAX - 719468 then Some(((days + 719468) / 146097, (days + 719468) % 146097)) else None
  {
  }

  lemma WideInEraIs(u: int -> Option<int>, era: int, doe: int)
    requires WideEnough(u) && 0 <= doe < 146097 && -0x1000_0000_0000_0000 < 400 * era < 0x1000_0000_0000_0000
    ensures WideInEra(u, era, doe) ==
            Some(FromMarch(YearOfEra(doe) + era * 400, doe - DaysBeforeYear(YearOfEra(doe))))
  {
    hide YearOfEra, DaysBeforeYear, FromMarch, DayOfYear, ClosingSteps;
    EraQuotients(doe);
    DayOfYearAgrees(u, doe);
    var y, doy := YearOfEra(doe) + era * 400, doe - DaysBeforeYear(YearOfEra(doe));
    FromMarchYear(y, doy);
    ClosingStepsAgree(u, y, doy, I64);
  }

  lemma WideInEraAgrees(u: int -> Option<int>, days: int)
    requires WideEnough(u) && FitsI64(days) && days <= I64_MAX - 719468
    ensures WideInEra(u, (days + 719468) / 146097, (days + 719468) % 146097) == Some(CivilFromDays(days))
  {
    hide CivilFromDays, YearOfEra, DaysBeforeYear, FromMarch, WideInEra, WideEnough;
    EraBounds(days);
    WideInEraIs(u, (days + 719468) / 146097, (days + 719468) % 146097);
    CivilIsFromMarch(days);
  }

  lemma EraBounds(days: int)
    requires FitsI64(days)
    ensures -63200000000000 < (days + 719468) / 146097 < 63200000000000
  {
  }

  /** The gate module's copy is the reference wherever the first addition does not overflow. */
  lemma CivilI64Exact(days: int)
    requires FitsI64(days)
    ensures CivilI64(days) == Some(CivilFromDays(days)) <==> days <= I64_MAX - 719468
  {
    hide CivilFromDays, WideInEra, EraAndDay;
    EraAndDayExact(days);
    WideTypes();
    if days <= I64_MAX - 719468 {
      WideInEraAgrees(I64, days);
    }
  }

  lemma CivilTruncatingIs(days: int)
    requires FitsI64(days) && days <= I64_MAX - 719468
    ensures var d := CivilFromDays(days);
            1 <= d.month <= 12 && 1 <= d.day <= 31 && CivilTruncating(days) == Some(d.(year := AsI32(d.year)))
  {
    hide CivilFromDays, WideInEra, EraAndDay, FromMarch, YearIn, DayIn, AsI32;
    EraAndDayExact(days);
    WideTypes();
    CivilIsFromMarch(days);
    WideInEraAgrees(U64, days);
  }

  /** The truncating copies are the reference exactly on the days whose year fits their `i32`. */
  lemma CivilTruncatingExact(days: int)
    requires FitsI64(days)
    ensures CivilTruncating(days) == Some(CivilFromDays(days)) <==> FitsI32(CivilFromDays(days).year)
  {
    hide CivilFromDays, EraAndDay, WideInEra;
    EraAndDayExact(days);
    if days <= I64_MAX - 719468 {
      CivilTruncatingIs(days);
    } else {
      YearAtMost(days, I32_MAX);
    }
  }

  lemma CastKeeps(x: int)
    requires FitsI32(x)
    ensures AsI32(x) == x
  {
  }

  lemma NothingSaturates(doe: int)
    requires 0 <= doe < 146097
    ensures SaturatingSubU32(SaturatingAddU32(SaturatingSubU32(doe, doe / 1460), doe / 36524), doe / 146096) / 365
            == YearOfEra(doe)
  {
  }

  lemma SaturatingInEraAgrees(days: int)
    requires FitsI32(CivilFromDays(days).year)
    ensures SaturatingInEra(I32, U32, (days + 719468) / 146097, (days + 719468) % 146097) ==
            if (days + 719468) / 146097 >= -5368709 then Some(CivilFromDays(days)) else None
  {
    hide CivilFromDays, YearOfEra, DaysBeforeYear, FromMarch, DayOfYear, ClosingSteps;
    hide AsI32, SaturatingAddU32, SaturatingSubU32;
    var era, doe := (days + 719468) / 146097, (days + 719468) % 146097;
    NothingSaturates(doe);
    WideTypes();
    DayOfYearAgrees(U32, doe);
    CivilIsFromMarch(days);
    ClosingStepsAgree(U32, YearIn(days), DayIn(days), I32);
    CastKeeps(era);
    CastKeeps(YearOfEra(doe));
  }

  const FIRST_SATURATING_DAY := Date(-2147483600, 3, 1)
  const LAST_I32_DAY := Date(2147483647, 12, 31)

  /** The saturating copy is the reference exactly between two dates. The lower one is later than the
      first day of the first `i32` year: `era as i32 * 400` leaves the type before the year does. */
  lemma CivilSaturatingExact(days: int)
    requires FitsI64(days)
    ensures CivilSaturating(days) == Some(CivilFromDays(days)) <==>
            Days(FIRST_SATURATING_DAY) <= days <= Days(LAST_I32_DAY)
  {
    hide CivilFromDays, SaturatingInEra, EraAndDay, FromMarch, YearIn, DayIn;
    EraAndDayExact(days);
    CivilIsFromMarch(days);
    YearAtMost(days, I32_MAX);
    assert Days(FIRST_SATURATING_DAY) == -5368709 * 146097 - 719468;
    if FitsI32(CivilFromDays(days).year) {
      SaturatingInEraAgrees(days);
    }
    SaturatingYear(days);
  }

  lemma SaturatingYear(days: int)
    ensures CivilSaturating(days).Some? ==> FitsI32(CivilSaturating(days).value.year)
  {
  }

  /** 1 June of year -2147483648 has a year that fits `i32`, and the checked saturating copy overflows on it. */
  lemma SaturatingOverflowsInsideI32()
    ensures FitsI32(-2147483648) && ValidDate(Date(-2147483648, 6, 1))
    ensures CivilFromDays(Days(Date(-2147483648, 6, 1))) == Date(-2147483648, 6, 1)
    ensures CivilSaturating(Days(Date(-2147483648, 6, 1))).None?
  {
    hide CivilFromDays, SaturatingInEra, EraAndDay, Days;
    var d := Date(-2147483648, 6, 1);
    EarlyDay();
    CivilOfDays(d);
    EraAndDayExact(Days(d));
    SaturatingInEraAgrees(Days(d));
  }

  lemma EarlyDay()
    ensures Days(Date(-2147483648, 6, 1)) == -784353015681
  {
  }

  /** On the days its caller passes, which are never negative, the checked saturating copy is the reference
      exactly while the year fits `i32`. */
  lemma SaturatingSinceEpoch(days: nat)
    requires FitsI64(days)
    ensures CivilSaturating(days) == Some(CivilFromDays(days)) <==> FitsI32(CivilFromDays(days).year)
  {
    hide CivilFromDays, CivilSaturating;
    CivilSaturatingExact(days);
    YearAtMost(days, I32_MAX);
    YearAtMost(days, 1969);
    assert Days(FIRST_SATURATING_DAY) < -1 == Days(Date(1969, 12, 31));
  }

  // ---------- Without overflow checks ----------

  /** Wrapping an intermediate sum is undone by wrapping the total. */
  lemma WrapOfWrap(a: int, b: int)
    ensures AsI32(a + AsI32(b)) == AsI32(a + b)
  {
    var k := (b - AsI32(b)) / 0x1_0000_0000;
    assert b == AsI32(b) + k * 0x1_0000_0000;
    QuotientIs(a + AsI32(b), 0x1_0000_0000, (a + b) / 0x1_0000_0000 - k, (a + b) % 0x1_0000_0000);
  }

  lemma WrapI64Keeps(x: int)
    requires FitsI64(x)
    ensures AsI64(x) == x
  {
  }

  lemma EraAndDayUnchecked(days: int)
    requires FitsI64(days) && days <= I64_MAX - 719468
    ensures EraAndDay(WrapI64, days) == Some(((days + 719468) / 146097, (days + 719468) % 146097))
  {
    hide AsI64, TruncDiv;
    var z := days + 719468;
    var n := if z >= 0 then z else z - 146096;
    DayEraIsFloor(z);
    WrapI64Keeps(z);
    WrapI64Keeps(n);
    WrapI64Keeps(z / 146097 * 146097);
    WrapI64Keeps(z % 146097);
  }

  lemma UncheckedInEraAgrees(days: int)
    requires FitsI32(CivilFromDays(days).year)
    ensures SaturatingInEra(WrapI32, WrapU32, (days + 719468) / 146097, (days + 719468) % 146097) ==
            Some(CivilFromDays(days))
  {
    hide CivilFromDays, YearOfEra, DaysBeforeYear, FromMarch, DayOfYear, ClosingSteps;
    hide AsI32, SaturatingAddU32, SaturatingSubU32;
    var era, doe := (days + 719468) / 146097, (days + 719468) % 146097;
    NothingSaturates(doe);
    WideTypes();
    DayOfYearAgrees(WrapU32, doe);
    CivilIsFromMarch(days);
    var y := YearIn(days);
    CastKeeps(era);
    CastKeeps(YearOfEra(doe));
    WrapOfWrap(YearOfEra(doe), era * 400);
    ClosingStepsAgree(WrapU32, AsI32(y), DayIn(days), WrapI32);
    MonthIgnoresYear(AsI32(y), y, DayIn(days));
    if CivilFromDays(days).month <= 2 {
      WrapOfWrap(1, y);
      CastKeeps(y + 1);
    } else {
      CastKeeps(y);
    }
  }

  lemma MonthIgnoresYear(x: int, y: int, doy: int)
    ensures FromMarch(x, doy).month == FromMarch(y, doy).month && FromMarch(x, doy).day == FromMarch(y, doy).day
  {
  }

  lemma UncheckedYear(days: int)
    ensures CivilSaturatingUnchecked(days).Some? ==> FitsI32(CivilSaturatingUnchecked(days).value.year)
  {
  }

  /** Without overflow checks the wraps cancel: the saturating copy is the reference exactly on the days
      whose year fits `i32`. */
  lemma CivilSaturatingUncheckedExact(days: int)
    requires FitsI64(days)
    ensures CivilSaturatingUnchecked(days) == Some(CivilFromDays(days)) <==> FitsI32(CivilFromDays(days).year)
  {
    hide CivilFromDays, SaturatingInEra, EraAndDay, FromMarch, YearIn, DayIn;
    UncheckedYear(days);
    if FitsI32(CivilFromDays(days).year) {
      CivilIsFromMarch(days);
      YearAtMost(days, I32_MAX);
      EraAndDayUnchecked(days);
      UncheckedInEraAgrees(days);
    }
  }
}
