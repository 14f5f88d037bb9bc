/** Printing, re-reading and parsing the timestamps of session ids and ledger lines. */
module Timestamps {
  import opened Text
  import opened Calendar
  import opened FixedWidth

  const DAY := 86400

  /** Midnight of 1 January 10000, in seconds since the epoch. */
  const YEAR_10000: int := 253402300800

  // ---------- Printers ----------

  /** `{y:04}`: the sign counts toward the width. */
  function PadYear(y: int): (s: string) { if y >= 0 then Pad(y, 4) else "-" + Pad(-y, 3) }

  function ClockText(h: nat, m: nat, s: nat, sep: string): (t: string) { Pad(h, 2) + sep + Pad(m, 2) + sep + Pad(s, 2) }

  function TimeOfDay(s: int, sep: string): (t: string)
    requires 0 <= s < DAY
  {
    ClockText(s / 3600, s % 3600 / 60, s % 60, sep)
  }

  function DateText(d: Date, sep: string): (t: string)
    requires d.month >= 0 && d.day >= 0
  {
    PadYear(d.year) + sep + Pad(d.month, 2) + sep + Pad(d.day, 2)
  }

  function FieldsText(d: Date, h: nat, m: nat, s: nat): (t: string)
    requires d.month >= 0 && d.day >= 0
  {
    DateText(d, "-") + "T" + ClockText(h, m, s, ":") + "Z"
  }

  function IsoText(d: Date, s: int): (t: string)
    requires d.month >= 0 && d.day >= 0 && 0 <= s < DAY
  {
    FieldsText(d, s / 3600, s % 3600 / 60, s % 60)
  }

  function PrintIso(date: Option<Date>, s: int): (r: Option<string>)
    requires 0 <= s < DAY
  {
    if date.Some? && date.value.month >= 0 && date.value.day >= 0 then Some(IsoText(date.value, s)) else None
  }

  /** The pause file's printer: `u64` seconds viewed as `i64`. */
  function FormatSystemTime(secs: nat): (r: Option<string>)
  {
    var i := if secs <= I64_MAX then secs else secs - 0x1_0000_0000_0000_0000;
    PrintIso(CivilI64(i / DAY), i % DAY)
  }

  /** The archive's printer for `finished_at`. */
  function FormatUnixSecs(secs: nat): (r: Option<string>) { PrintIso(CivilTruncating(secs / DAY), secs % DAY) }

  /** The rejections ledger's printer for `ts`. */
  function FormatLedgerTime(secs: nat): (r: Option<string>) { PrintIso(CivilSaturating(secs / DAY), secs % DAY) }

  /** `YYYYMMDD-HHMMSS`. */
  function IdText(d: Date, s: int): (t: string)
    requires d.month >= 0 && d.day >= 0 && 0 <= s < DAY
  {
    DateText(d, "") + "-" + TimeOfDay(s, "")
  }

  function MintSessionId(secs: nat): (r: Option<string>)
  {
    var d :- CivilTruncating(secs / DAY);
    if d.month >= 0 && d.day >= 0 then Some(IdText(d, secs % DAY)) else None
  }

  /** An id begins with eight digits, a dash and six digits. */
  predicate DigitShaped(id: string) {
    |id| >= 15 && AllDigits(id[..8]) && id[8] == '-' && AllDigits(id[9..15])
  }

  /** `started_at` from the first fifteen characters of a session id, or the current time. */
  function StartedAtFromId(id: string, now: string): (r: string)
  {
    if !DigitShaped(id) then now
    else
      id[..4] + "-" + id[4..6] + "-" + id[6..8] + "T" + id[9..11] + ":" + id[11..13] + ":" + id[13..15] + "Z"
  }

  // ---------- Parser ----------

  /** `Overflow`: a step of the day count left `i64`. */
  datatype Parsed = Instant(secs: nat) | Rejected | Overflow

  function ParseI64(s: string): (r: Option<int>)
  {
    var digits := if s != [] && (s[0] == '+' || s[0] == '-') then s[1..] else s;
    if digits == [] || !AllDigits(digits) then None
    else I64(if s[0] == '-' then 0 - Value(digits) else Value(digits))
  }

  function ParseAll(parts: seq<string>): (r: Option<seq<int>>)
  {
    if parts == [] then Some([])
    else
      var n :- ParseI64(parts[0]);
      var rest :- ParseAll(parts[1..]);
      Some([n] + rest)
  }

  /** The opening steps of `days_from_civil` on the March-based year, checked against `i64`. */
  function CheckedEra(y: int): (r: Option<(int, int)>)
  {
    var n :- I64(if y >= 0 then y else y - 399);
    var era := TruncDiv(n, 400);
    var yoe :- I64(y - era * 400);
    Some((era, yoe))
  }

  function CheckedDayOfYear(m: int, d: int): (r: Option<int>)
  {
    var mp :- I64(m + (if m > 2 then -3 else 9));
    var a :- I64(153 * mp);
    var b :- I64(a + 2);
    var c :- I64(TruncDiv(b, 5) + d);
    I64(c - 1)
  }

  /** `days_from_civil` with every step checked against `i64`. */
  function CheckedDays(year: int, m: int, d: int): (r: Option<int>)
  {
    var y :- I64(if m <= 2 then year - 1 else year);
    var (era, yoe) :- CheckedEra(y);
    var doy :- CheckedDayOfYear(m, d);
    var doe :- I64(yoe * 365 + yoe / 4 - yoe / 100 + doy);
    var whole :- I64(era * 146097);
    var sum :- I64(whole + doe);
    I64(sum - 719468)
  }

  function SecondsOf(days: int, time: seq<int>): (r: Option<int>)
    requires |time| == 3
  {
    var a :- I64(days * DAY);
    var h :- I64(time[0] * 3600);
    var b :- I64(a + h);
    var mi :- I64(time[1] * 60);
    var c :- I64(b + mi);
    I64(c + time[2])
  }

  /** Year, month, day, hour, minute and second of a text of the right shape. */
  function ReadNumbers(text: string): (r: Option<seq<int>>)
    ensures r.Some? ==> |r.value| == 6
  {
    var s := if text != [] && text[|text| - 1] == 'Z' then text[..|text| - 1] else text;
    var dateTime := Split(s, 'T');
    if |dateTime| != 2 then None
    else
      var date :- ParseAll(Split(dateTime[0], '-'));
      if |date| != 3 then None
      else
        var time :- ParseAll(Split(Split(dateTime[1], '.')[0], ':'));
        if |time| != 3 then None else Some(date + time)
  }

  function ParseIsoish(text: string): (r: Parsed)
  {
    var n := ReadNumbers(text);
    if n.None? then Rejected
    else
      var days := CheckedDays(n.value[0], n.value[1], n.value[2]);
      if days.None? then Overflow
      else if days.value < 0 then Rejected
      else
        var secs := SecondsOf(days.value, n.value[3..]);
        if secs.None? || secs.value < 0 then Rejected else Instant(secs.value)
  }

  // ---------- What the four printers share ----------

  /** The ISO text of a second before year 10000. */
  function Stamp(secs: nat): (t: string)
    requires secs < YEAR_10000
  {
    DateRange(secs / DAY);
    IsoText(CivilFromDays(secs / DAY), secs % DAY)
  }

  lemma DateRange(days: int)
    requires 0 <= days < YEAR_10000 / DAY
    ensures var d := CivilFromDays(days); ValidDate(d) && Days(d) == days && 1970 <= d.year < 10000
  {
    hide CivilFromDays, Days;
    DaysOfCivil(days);
    YearAtMost(days, 9999);
    YearAtMost(days, 1969);
    LimitDays();
  }

  lemma LimitDays()
    ensures Days(Date(9999, 12, 31)) == YEAR_10000 / DAY - 1
    ensures Days(Date(1969, 12, 31)) == -1
    ensures Days(FIRST_SATURATING_DAY) < 0 && YEAR_10000 / DAY < Days(LAST_I32_DAY)
  {
  }

  /** Before year 10000 all four printers agree, and none of their arithmetic overflows. */
  lemma PrintersAgree(secs: nat)
    requires secs < YEAR_10000
    ensures FormatSystemTime(secs) == Some(Stamp(secs))
    ensures FormatUnixSecs(secs) == Some(Stamp(secs))
    ensures FormatLedgerTime(secs) == Some(Stamp(secs))
    ensures CivilFromDays(secs / DAY).month >= 0 && CivilFromDays(secs / DAY).day >= 0
    ensures MintSessionId(secs) == Some(IdText(CivilFromDays(secs / DAY), secs % DAY))
  {
    hide CivilFromDays, CivilI64, CivilTruncating, CivilSaturating, Days, IsoText, IdText;
    var days := secs / DAY;
    DateRange(days);
    LimitDays();
    CivilI64Exact(days);
    CivilTruncatingExact(days);
    CivilSaturatingExact(days);
  }

  // ---------- Session id to `started_at` ----------

  lemma Widths(n: nat)
    ensures n < 10000 ==> |Pad(n, 4)| == 4
    ensures n < 100 ==> |Pad(n, 2)| == 2
    ensures AllDigits(Pad(n, 4)) && AllDigits(Pad(n, 2))
  {
    assert Pow10(2) == 100 && Pow10(4) == 10000;
    if n < 10000 { PadWidth(n, 4); }
    if n < 100 { PadWidth(n, 2); }
    PadRoundTrip(n, 4);
    PadRoundTrip(n, 2);
  }

  lemma CutDate(y: string, m: string, d: string, rest: string)
    requires |y| == 4 && |m| == |d| == 2 && AllDigits(y) && AllDigits(m) && AllDigits(d)
    ensures var id := y + m + d + rest;
            id[..4] == y && id[4..6] == m && id[6..8] == d && AllDigits(id[..8])
  {
  }

  lemma CutTime(date: string, h: string, mi: string, s: string, suffix: string)
    requires |date| == 8 && |h| == |mi| == |s| == 2 && AllDigits(h) && AllDigits(mi) && AllDigits(s)
    ensures var id := date + "-" + (h + mi + s) + suffix;
            && id[8] == '-' && id[9..11] == h && id[11..13] == mi && id[13..15] == s && AllDigits(id[9..15])
  {
  }

  predicate DateFits(d: Date) { 0 <= d.year < 10000 && 0 <= d.month < 100 && 0 <= d.day < 100 }

  /** Dates and times of day whose fields fit their printed widths. */
  predicate FitsWidths(d: Date, t: int) { DateFits(d) && 0 <= t < DAY }

  /** Cutting six fields out of an id, with any suffix after it, and punctuating them. */
  lemma StartedAtOfFields(d: Date, h: nat, mi: nat, s: nat, suffix: string, now: string)
    requires DateFits(d) && h < 100 && mi < 100 && s < 100
    ensures var id := DateText(d, "") + "-" + ClockText(h, mi, s, "") + suffix;
            DigitShaped(id) && StartedAtFromId(id, now) == FieldsText(d, h, mi, s)
  {
    hide Pad, AllDigits;
    Widths(d.year);
    Widths(d.month);
    Widths(d.day);
    Widths(h);
    Widths(mi);
    Widths(s);
    var y, m, da := Pad(d.year, 4), Pad(d.month, 2), Pad(d.day, 2);
    var hh, mm, ss := Pad(h, 2), Pad(mi, 2), Pad(s, 2);
    NoSeparator(y, m, da);
    NoSeparator(hh, mm, ss);
    var id := DateText(d, "") + "-" + ClockText(h, mi, s, "") + suffix;
    assert id == y + m + da + "-" + (hh + mm + ss) + suffix;
    assert id == y + m + da + ("-" + (hh + mm + ss) + suffix);
    CutDate(y, m, da, "-" + (hh + mm + ss) + suffix);
    CutTime(y + m + da, hh, mm, ss, suffix);
  }

  lemma StartedAtOfIdText(d: Date, t: int, suffix: string, now: string)
    requires FitsWidths(d, t)
    ensures DigitShaped(IdText(d, t) + suffix)
    ensures StartedAtFromId(IdText(d, t) + suffix, now) == IsoText(d, t)
  {
    hide DateText, ClockText, FieldsText, DigitShaped, StartedAtFromId;
    StartedAtOfFields(d, t / 3600, t % 3600 / 60, t % 60, suffix, now);
  }

  lemma NoSeparator(a: string, b: string, c: string)
    ensures a + "" + b + "" + c == a + b + c
  {
  }

  /** Re-reading a minted id, with any suffix after it, prints the second it was minted at. */
  lemma StartedAtOfMintedId(secs: nat, suffix: string, now: string)
    requires secs < YEAR_10000
    ensures MintSessionId(secs).Some?
    ensures StartedAtFromId(MintSessionId(secs).value + suffix, now) == Stamp(secs)
  {
    hide CivilFromDays, Days, MintSessionId, StartedAtFromId, IdText, IsoText;
    DateRange(secs / DAY);
    PrintersAgree(secs);
    StartedAtOfIdText(CivilFromDays(secs / DAY), secs % DAY, suffix, now);
  }

  // ---------- Ids minted from year 10000 on ----------

  /** The year a minted id shows: the year cut to `i32`. */
  function ShownYear(secs: nat): (y: int) { AsI32(CivilFromDays(secs / DAY).year) }

  lemma MintIs(secs: nat)
    requires secs <= U64_MAX
    ensures var d := CivilFromDays(secs / DAY);
            && 1 <= d.month <= 12 && 1 <= d.day <= 31
            && MintSessionId(secs) == Some(IdText(d.(year := ShownYear(secs)), secs % DAY))
  {
    hide CivilFromDays, CivilTruncating, IdText, AsI32;
    CivilTruncatingIs(secs / DAY);
  }

  /** For every `u64` second: the minted id has the shape the re-reader looks for exactly when the year it
      shows has four digits. Otherwise the re-reader falls back to the current time. */
  lemma MintedIdIsReadIff(secs: nat, suffix: string, now: string)
    requires secs <= U64_MAX
    ensures MintSessionId(secs).Some?
    ensures var id := MintSessionId(secs).value + suffix;
            && (DigitShaped(id) <==> 0 <= ShownYear(secs) < 10000)
            && (!DigitShaped(id) ==> StartedAtFromId(id, now) == now)
  {
    hide CivilFromDays, MintSessionId, ShownYear, IdText;
    MintIs(secs);
    var d := CivilFromDays(secs / DAY).(year := ShownYear(secs));
    if 0 <= d.year < 10000 {
      StartedAtOfIdText(d, secs % DAY, suffix, now);
    } else {
      LongYearIsNotRead(d, secs % DAY, suffix);
    }
  }

  lemma LongYearIsNotRead(d: Date, t: int, suffix: string)
    requires !(0 <= d.year < 10000) && 1 <= d.month <= 12 && 1 <= d.day <= 31 && 0 <= t < DAY
    ensures !DigitShaped(IdText(d, t) + suffix)
  {
    hide Pad, TimeOfDay, AllDigits;
    var id, y, m, da := IdText(d, t) + suffix, PadYear(d.year), Pad(d.month, 2), Pad(d.day, 2);
    var rest := "-" + TimeOfDay(t, "") + suffix;
    NoSeparator(y, m, da);
    assert id == y + m + da + rest;
    Widths(d.month);
    Widths(d.day);
    if d.year < 0 {
      assert id[0] == '-';
      DashIsNoDigit(id);
    } else {
      assert Pow10(4) == 10000;
      PadIsLong(d.year, 4);
      PadRoundTrip(d.year, 4);
      NinthIsDigit(y, m, da);
      assert id[8] == (y + m + da)[8];
    }
  }

  lemma DashIsNoDigit(id: string)
    requires id != [] && id[0] == '-'
    ensures !DigitShaped(id)
  {
    assert |id| >= 15 ==> id[..8][0] == '-';
  }

  lemma NinthIsDigit(y: string, m: string, d: string)
    requires |y| > 4 && |m| == 2 && |d| == 2 && AllDigits(y) && AllDigits(m) && AllDigits(d)
    ensures |y + m + d| > 8 && IsDigit((y + m + d)[8])
  {
  }

  // ---------- Parsing a printed stamp ----------

  lemma ParseField(n: nat, w: nat)
    requires n <= I64_MAX
    ensures ParseI64(Pad(n, w)) == Some(n)
    ensures forall c :: !IsDigit(c) ==> c !in Pad(n, w)
  {
    hide Pad, Value;
    PadRoundTrip(n, w);
    assert IsDigit(Pad(n, w)[0]);
  }

  lemma SplitThree(a: string, b: string, c: string, sep: char)
    requires sep !in a && sep !in b && sep !in c
    ensures Split(a + [sep] + b + [sep] + c, sep) == [a, b, c]
  {
    hide Split;
    assert a + [sep] + b + [sep] + c == a + [sep] + (b + [sep] + c);
    SplitFirst(a, b + [sep] + c, sep);
    SplitFirst(b, c, sep);
    SplitOne(c, sep);
  }

  lemma ParseThree(a: string, b: string, c: string, x: int, y: int, z: int)
    requires ParseI64(a) == Some(x) && ParseI64(b) == Some(y) && ParseI64(c) == Some(z)
    ensures ParseAll([a, b, c]) == Some([x, y, z])
  {
    hide ParseI64;
    assert [a, b, c][1..] == [b, c] && [b, c][1..] == [c];
    assert ParseAll([c]) == Some([z]) by { assert [c][1..] == [] && [z] + [] == [z]; }
    assert ParseAll([b, c]) == Some([y, z]) by { assert [y] + [z] == [y, z]; }
    assert [x] + [y, z] == [x, y, z];
  }

  // The day count overflows nowhere but here.

  /** The position in its year that a month and a day name, counted from 1 March; months and days out of
      range count on. */
  function DayNumber(m: int, d: int): (doy: int) { TruncDiv(153 * (m + (if m > 2 then -3 else 9)) + 2, 5) + d - 1 }

  predicate MonthInBounds(m: int) {
    var mp := m + (if m > 2 then -3 else 9);
    I64_MIN <= 153 * mp <= I64_MAX - 2
  }

  /** The dates whose day count stays in `i64` throughout: the month, the day of the year, the day of the
      400-year era, the era's first day and the final count are each in range. */
  predicate InBounds(year: int, m: int, d: int) {
    var y, doy := if m <= 2 then year - 1 else year, DayNumber(m, d);
    && MonthInBounds(m) && I64_MIN <= doy <= I64_MAX - 1
    && DaysBeforeYear(y % 400) + doy <= I64_MAX
    && I64_MIN <= y / 400 * 146097 <= I64_MAX
    && I64_MIN <= DaysFromCivil(year, m, d) <= I64_MAX - 719468
  }

  lemma CheckedEraIs(y: int)
    requires FitsI64(y)
    ensures CheckedEra(y) == if y >= I64_MIN + 399 then Some((y / 400, y % 400)) else None
  {
    hide TruncDiv;
    EraIsFloor(y);
    assert y == y / 400 * 400 + y % 400;
  }

  lemma CheckedDayOfYearIs(m: int, d: int)
    ensures CheckedDayOfYear(m, d) ==
            if MonthInBounds(m) && I64_MIN <= DayNumber(m, d) <= I64_MAX - 1 then Some(DayNumber(m, d)) else None
  {
    hide TruncDiv;
  }

  lemma DaysByEra(year: int, m: int, d: int)
    ensures var y := if m <= 2 then year - 1 else year;
            DaysFromCivil(year, m, d) == y / 400 * 146097 + DaysBeforeYear(y % 400) + DayNumber(m, d) - 719468
  {
    hide TruncDiv;
    var y := if m <= 2 then year - 1 else year;
    EraIsFloor(y);
    assert y - y / 400 * 400 == y % 400;
  }

  lemma EraInRange(y: int)
    requires I64_MIN <= y / 400 * 146097 <= I64_MAX
    ensures I64_MIN + 399 <= y <= I64_MAX
  {
  }

  lemma YearDaysInRange(yoe: int)
    requires 0 <= yoe < 400
    ensures 0 <= DaysBeforeYear(yoe) <= 146097
  {
  }

  /** On all fields, the checked day count is the reference exactly on the dates in bounds, and overflows
      on all others. */
  lemma CheckedDaysExact(year: int, m: int, d: int)
    ensures CheckedDays(year, m, d) == if InBounds(year, m, d) then Some(DaysFromCivil(year, m, d)) else None
  {
    hide CheckedEra, CheckedDayOfYear, DaysFromCivil, DayNumber, MonthInBounds, DaysBeforeYear;
    var y := if m <= 2 then year - 1 else year;
    var era, yoe := y / 400, y % 400;
    DaysByEra(year, m, d);
    CheckedDayOfYearIs(m, d);
    YearDaysInRange(yoe);
    DaysBeforeYearIs(yoe);
    if I64_MIN <= era * 146097 <= I64_MAX {
      EraInRange(y);
      CheckedEraIs(y);
      assert CheckedEra(y) == Some((era, yoe));
    } else if FitsI64(y) {
      CheckedEraIs(y);
    }
  }

  lemma DaysBeforeYearIs(yoe: int)
    ensures DaysBeforeYear(yoe) == yoe * 365 + yoe / 4 - yoe / 100
  {
  }

  /** 32-bit years, months and days are far inside the bounds. */
  lemma ThirtyTwoBitsAreInBounds(y: int, m: int, d: int)
    requires FitsI32(y) && FitsI32(m) && FitsI32(d)
    ensures InBounds(y, m, d)
  {
    hide TruncDiv, DaysFromCivil;
    DaysByEra(y, m, d);
    TruncDivBound(153 * (m + (if m > 2 then -3 else 9)) + 2);
    YearDaysInRange((if m <= 2 then y - 1 else y) % 400);
  }

  lemma TruncDivBound(a: int)
    ensures if a >= 0 then 0 <= TruncDiv(a, 5) <= a else a <= TruncDiv(a, 5) <= 0
  {
  }

  /** The parser overflows exactly on texts of the right shape whose date is out of bounds. */
  predicate OutOfBounds(text: string) {
    var n := ReadNumbers(text);
    n.Some? && !InBounds(n.value[0], n.value[1], n.value[2])
  }

  lemma OverflowIff(text: string)
    ensures ParseIsoish(text).Overflow? <==> OutOfBounds(text)
  {
    hide ReadNumbers, CheckedDays, InBounds, SecondsOf;
    var n := ReadNumbers(text);
    if n.Some? {
      CheckedDaysExact(n.value[0], n.value[1], n.value[2]);
    }
  }

  lemma SecondsOfFields(days: int, h: nat, m: nat, s: nat)
    requires 0 <= days < 10000000 && h < 100 && m < 100 && s < 100
    ensures SecondsOf(days, [h, m, s]) == Some(days * DAY + 3600 * h + 60 * m + s)
  {
  }

  lemma DateTextParses(d: Date)
    requires DateFits(d)
    ensures ParseAll(Split(DateText(d, "-"), '-')) == Some([d.year, d.month, d.day])
    ensures 'T' !in DateText(d, "-")
  {
    hide Pad, ParseI64, ParseAll, Split;
    ParseField(d.year, 4);
    ParseField(d.month, 2);
    ParseField(d.day, 2);
    var y, m, da := Pad(d.year, 4), Pad(d.month, 2), Pad(d.day, 2);
    SplitThree(y, m, da, '-');
    ParseThree(y, m, da, d.year, d.month, d.day);
  }

  lemma ClockTextParses(h: nat, m: nat, s: nat)
    requires h < 100 && m < 100 && s < 100
    ensures ParseAll(Split(ClockText(h, m, s, ":"), ':')) == Some([h, m, s])
    ensures 'T' !in ClockText(h, m, s, ":") && '.' !in ClockText(h, m, s, ":")
  {
    hide Pad, ParseI64, ParseAll, Split;
    ParseField(h, 2);
    ParseField(m, 2);
    ParseField(s, 2);
    SplitThree(Pad(h, 2), Pad(m, 2), Pad(s, 2), ':');
    ParseThree(Pad(h, 2), Pad(m, 2), Pad(s, 2), h, m, s);
  }

  /** The six printed fields are read back. */
  lemma FieldsTextNumbers(d: Date, h: nat, m: nat, s: nat)
    requires DateFits(d) && h < 100 && m < 100 && s < 100
    ensures ReadNumbers(FieldsText(d, h, m, s)) == Some([d.year, d.month, d.day] + [h, m, s])
  {
    hide ParseAll, Split, DateText, ClockText;
    DateTextParses(d);
    ClockTextParses(h, m, s);
    var text, date, time := FieldsText(d, h, m, s), DateText(d, "-"), ClockText(h, m, s, ":");
    SplitFirst(date, time, 'T');
    SplitOne(time, 'T');
    SplitOne(time, '.');
    assert text[..|text| - 1] == date + ['T'] + time;
  }

  /** The last day before year 10000 bounds every printable date, also one that no calendar has. */
  lemma PrintableDays(d: Date)
    requires 0 <= d.year < 10000 && 1 <= d.month <= 12 && 1 <= d.day <= 31
    ensures Days(d) < YEAR_10000 / DAY
  {
  }

  lemma FittingDays(d: Date)
    requires DateFits(d)
    ensures Days(d) < 10000000
  {
    hide DaysFromCivil, TruncDiv;
    DaysByEra(d.year, d.month, d.day);
    TruncDivBound(153 * (d.month + (if d.month > 2 then -3 else 9)) + 2);
    YearDaysInRange((if d.month <= 2 then d.year - 1 else d.year) % 400);
  }

  /** Parsing printed fields counts the date's days and the time's seconds, whether or not a calendar has
      the date and a clock the time, and refuses dates before 1970. */
  lemma ParseOfFields(d: Date, h: nat, m: nat, s: nat)
    requires DateFits(d) && h < 100 && m < 100 && s < 100
    ensures ParseIsoish(FieldsText(d, h, m, s)) ==
            if Days(d) < 0 then Rejected else Instant(Days(d) * DAY + 3600 * h + 60 * m + s)
  {
    hide DaysFromCivil, InBounds, ReadNumbers, CheckedDays, SecondsOf, FieldsText;
    FieldsTextNumbers(d, h, m, s);
    var n := [d.year, d.month, d.day] + [h, m, s];
    assert n[3..] == [h, m, s];
    ThirtyTwoBitsAreInBounds(d.year, d.month, d.day);
    CheckedDaysExact(d.year, d.month, d.day);
    FittingDays(d);
    if Days(d) >= 0 {
      SecondsOfFields(Days(d), h, m, s);
    }
  }

  lemma ParseOfIsoText(d: Date, t: int)
    requires FitsWidths(d, t)
    ensures ParseIsoish(IsoText(d, t)) == if Days(d) < 0 then Rejected else Instant(Days(d) * DAY + t)
  {
    hide ParseIsoish, FieldsText, Days;
    ParseOfFields(d, t / 3600, t % 3600 / 60, t % 60);
    ClockParts(t);
  }

  /** Every printed stamp parses back to its second. */
  lemma ParseOfStamp(secs: nat)
    requires secs < YEAR_10000
    ensures ParseIsoish(Stamp(secs)) == Instant(secs)
  {
    hide CivilFromDays, Days, ParseIsoish, IsoText;
    DateRange(secs / DAY);
    ParseOfIsoText(CivilFromDays(secs / DAY), secs % DAY);
  }

  /** From the clock to a session id, through the ledger's `started_at`, and back to the same second. */
  lemma SessionIdRoundTrip(secs: nat, suffix: string, now: string)
    requires secs < YEAR_10000
    ensures MintSessionId(secs).Some?
    ensures ParseIsoish(StartedAtFromId(MintSessionId(secs).value + suffix, now)) == Instant(secs)
  {
    hide MintSessionId, StartedAtFromId, ParseIsoish, Stamp;
    StartedAtOfMintedId(secs, suffix, now);
    ParseOfStamp(secs);
  }

  /** What the round trip returns, with fallback text `now`. */
  function ReadBack(secs: nat, suffix: string, now: string): (r: Parsed)
    requires MintSessionId(secs).Some?
  {
    ParseIsoish(StartedAtFromId(MintSessionId(secs).value + suffix, now))
  }

  /** For every `u64` second, the round trip returns that second, whatever the fallback, exactly before
      year 10000. Beyond, the id is not recognised, or the wrapped year it shows names another second. */
  lemma RoundTripIff(secs: nat, suffix: string)
    requires secs <= U64_MAX
    ensures MintSessionId(secs).Some?
    ensures (forall now :: ReadBack(secs, suffix, now) == Instant(secs)) <==> secs < YEAR_10000
  {
    hide MintSessionId, StartedAtFromId, ParseIsoish;
    MintedIdIsReadIff(secs, suffix, "");
    if secs < YEAR_10000 {
      forall now
        ensures ReadBack(secs, suffix, now) == Instant(secs)
      {
        SessionIdRoundTrip(secs, suffix, now);
      }
    } else {
      LateRoundTripFails(secs, suffix);
    }
  }

  lemma LateRoundTripFails(secs: nat, suffix: string)
    requires YEAR_10000 <= secs <= U64_MAX && MintSessionId(secs).Some?
    ensures ReadBack(secs, suffix, "") != Instant(secs)
  {
    hide MintSessionId, StartedAtFromId, ParseIsoish, ShownYear, CivilFromDays, IdText, IsoText, Days;
    MintedIdIsReadIff(secs, suffix, "");
    MintIs(secs);
    var d := CivilFromDays(secs / DAY).(year := ShownYear(secs));
    if 0 <= d.year < 10000 {
      StartedAtOfIdText(d, secs % DAY, suffix, "");
      ParseOfIsoText(d, secs % DAY);
      PrintableDays(d);
    } else {
      NothingIsRejected();
    }
  }

  lemma NothingIsRejected()
    ensures ParseIsoish("") == Rejected
  {
    SplitOne("", 'T');
  }

  // ---------- String order is time order ----------

  lemma FieldOrder(m: nat, n: nat, w: nat, b: string, d: string)
    requires w >= 1 && m < Pow10(w) && n < Pow10(w)
    ensures Less(Pad(m, w) + b, Pad(n, w) + d) <==> m < n || (m == n && Less(b, d))
  {
    hide Pad, Less;
    PadWidth(m, w);
    PadWidth(n, w);
    PadPreservesOrder(m, n, w);
    PadIsInjective(m, n, w);
    LessByField(Pad(m, w), b, Pad(n, w), d);
  }

  lemma SkipSeparator(c: char, b: string, d: string)
    ensures Less([c] + b, [c] + d) <==> Less(b, d)
  {
  }

  predicate TimeEarlier(s: int, t: int) {
    var (h1, m1, s1) := (s / 3600, s % 3600 / 60, s % 60);
    var (h2, m2, s2) := (t / 3600, t % 3600 / 60, t % 60);
    h1 < h2 || (h1 == h2 && (m1 < m2 || (m1 == m2 && s1 < s2)))
  }

  lemma TimeEarlierIsLess(s: int, t: int)
    ensures TimeEarlier(s, t) <==> s < t
  {
    ClockParts(s);
    ClockParts(t);
  }

  lemma ClockParts(s: int)
    ensures s == 3600 * (s / 3600) + 60 * (s % 3600 / 60) + s % 60
    ensures 0 <= s % 3600 / 60 < 60 && 0 <= s % 60 < 60
  {
  }

  lemma TimeTextOrder(s: int, t: int, b: string)
    requires 0 <= s < DAY && 0 <= t < DAY
    ensures Less(TimeOfDay(s, ":") + b, TimeOfDay(t, ":") + b) <==> s < t
  {
    hide Pad, Less;
    assert Pow10(2) == 100;
    var h1, m1, s1 := s / 3600, s % 3600 / 60, s % 60;
    var h2, m2, s2 := t / 3600, t % 3600 / 60, t % 60;
    var b1, b2 := Pad(s1, 2) + b, Pad(s2, 2) + b;
    assert TimeOfDay(s, ":") + b == Pad(h1, 2) + ([':'] + (Pad(m1, 2) + ([':'] + b1)));
    assert TimeOfDay(t, ":") + b == Pad(h2, 2) + ([':'] + (Pad(m2, 2) + ([':'] + b2)));
    FieldOrder(h1, h2, 2, [':'] + (Pad(m1, 2) + ([':'] + b1)), [':'] + (Pad(m2, 2) + ([':'] + b2)));
    SkipSeparator(':', Pad(m1, 2) + ([':'] + b1), Pad(m2, 2) + ([':'] + b2));
    FieldOrder(m1, m2, 2, [':'] + b1, [':'] + b2);
    SkipSeparator(':', b1, b2);
    FieldOrder(s1, s2, 2, b, b);
    LessIsTotal(b, b);
    TimeEarlierIsLess(s, t);
  }

  lemma DateTextOrder(d: Date, e: Date, b: string, c: string)
    requires FitsWidths(d, 0) && FitsWidths(e, 0)
    ensures Less(DateText(d, "-") + b, DateText(e, "-") + c) <==> Earlier(d, e) || (d == e && Less(b, c))
  {
    hide Pad, Less;
    assert Pow10(2) == 100 && Pow10(4) == 10000;
    var b1, b2 := Pad(d.day, 2) + b, Pad(e.day, 2) + c;
    var t1, t2 := Pad(d.month, 2) + (['-'] + b1), Pad(e.month, 2) + (['-'] + b2);
    assert DateText(d, "-") + b == Pad(d.year, 4) + (['-'] + t1);
    assert DateText(e, "-") + c == Pad(e.year, 4) + (['-'] + t2);
    FieldOrder(d.year, e.year, 4, ['-'] + t1, ['-'] + t2);
    SkipSeparator('-', t1, t2);
    FieldOrder(d.month, e.month, 2, ['-'] + b1, ['-'] + b2);
    SkipSeparator('-', b1, b2);
    FieldOrder(d.day, e.day, 2, b, c);
  }

  /** Comparing the texts of two valid dates and times as strings is comparing the moments they name. */
  lemma IsoOrderIsTimeOrder(d: Date, t: int, e: Date, u: int)
    requires ValidDate(d) && ValidDate(e) && FitsWidths(d, t) && FitsWidths(e, u)
    ensures Less(IsoText(d, t), IsoText(e, u)) <==> Days(d) * DAY + t < Days(e) * DAY + u
  {
    hide Days, Less, DateText, ClockText, Earlier, ValidDate;
    var b, c := TimeOfDay(t, ":") + "Z", TimeOfDay(u, ":") + "Z";
    assert IsoText(d, t) == DateText(d, "-") + (['T'] + b);
    assert IsoText(e, u) == DateText(e, "-") + (['T'] + c);
    DateTextOrder(d, e, ['T'] + b, ['T'] + c);
    SkipSeparator('T', b, c);
    TimeTextOrder(t, u, "Z");
    DaysPreserveOrder(d, e);
    DaysPreserveOrder(e, d);
    EarlierIsTotal(d, e);
  }

  lemma EarlierIsTotal(d: Date, e: Date)
    ensures d == e || Earlier(d, e) || Earlier(e, d)
  {
  }

  /** Before year 10000, comparing stamps as strings is comparing the seconds they print. */
  lemma StampOrderIsTimeOrder(s: nat, t: nat)
    requires s < YEAR_10000 && t < YEAR_10000
    ensures Less(Stamp(s), Stamp(t)) <==> s < t
  {
    hide CivilFromDays, Days, Less, IsoText;
    DateRange(s / DAY);
    DateRange(t / DAY);
    IsoOrderIsTimeOrder(CivilFromDays(s / DAY), s % DAY, CivilFromDays(t / DAY), t % DAY);
  }

  lemma StampIsInjective(s: nat, t: nat)
    requires s < YEAR_10000 && t < YEAR_10000 && Stamp(s) == Stamp(t)
    ensures s == t
  {
    hide Stamp, ParseIsoish;
    ParseOfStamp(s);
    ParseOfStamp(t);
  }

  // ---------- The texts themselves ----------

  lemma FieldsTextShape(d: Date, h: nat, m: nat, s: nat)
    requires DateFits(d) && h < 100 && m < 100 && s < 100
    ensures var t := FieldsText(d, h, m, s);
            && |t| == 20 && t[4] == '-' && t[7] == '-' && t[10] == 'T' && t[13] == ':' && t[16] == ':' && t[19] == 'Z'
            && t[..4] == Pad(d.year, 4) && t[5..7] == Pad(d.month, 2) && t[8..10] == Pad(d.day, 2)
            && t[11..13] == Pad(h, 2) && t[14..16] == Pad(m, 2) && t[17..19] == Pad(s, 2)
  {
    hide Pad, AllDigits;
    Widths(d.year);
    Widths(d.month);
    Widths(d.day);
    Widths(h);
    Widths(m);
    Widths(s);
    var y, mo, da := Pad(d.year, 4), Pad(d.month, 2), Pad(d.day, 2);
    var hh, mm, ss := Pad(h, 2), Pad(m, 2), Pad(s, 2);
    Punctuated(y, "-", mo, "-", da);
    Punctuated(hh, ":", mm, ":", ss);
    var date, clock := DateText(d, "-"), ClockText(h, m, s, ":");
    var t := FieldsText(d, h, m, s);
    assert t[..10] == date && t[11..19] == clock;
    assert t[..4] == t[..10][..4] && t[5..7] == t[..10][5..7] && t[8..10] == t[..10][8..10];
    assert t[11..13] == t[11..19][..2] && t[14..16] == t[11..19][3..5] && t[17..19] == t[11..19][6..8];
  }

  lemma Punctuated(a: string, x: string, b: string, y: string, c: string)
    requires |x| == 1 && |y| == 1 && |b| == 2 && |c| == 2
    ensures var t := a + x + b + y + c;
            && |t| == |a| + 6 && t[..|a|] == a && t[|a|] == x[0] && t[|a| + 1..|a| + 3] == b && t[|a| + 3] == y[0]
            && t[|a| + 4..] == c && t[|a| + 4..|a| + 6] == c
  {
  }

  /** Digit by digit: a stamp is `YYYY-MM-DDThh:mm:ssZ`, and its fields are the calendar date and the time of
      day of its second. */
  lemma StampShape(secs: nat)
    requires secs < YEAR_10000
    ensures var t, d := Stamp(secs), CivilFromDays(secs / DAY);
            && |t| == 20 && t[4] == '-' && t[7] == '-' && t[10] == 'T' && t[13] == ':' && t[16] == ':' && t[19] == 'Z'
            && AllDigits(t[..4]) && Value(t[..4]) == d.year && AllDigits(t[5..7]) && Value(t[5..7]) == d.month
            && AllDigits(t[8..10]) && Value(t[8..10]) == d.day && AllDigits(t[11..13]) && AllDigits(t[14..16])
            && AllDigits(t[17..19])
            && 3600 * Value(t[11..13]) + 60 * Value(t[14..16]) + Value(t[17..19]) == secs % DAY
            && Value(t[14..16]) < 60 && Value(t[17..19]) < 60
  {
    hide CivilFromDays, Days, Pad, Value, AllDigits, FieldsText;
    DateRange(secs / DAY);
    var d, t := CivilFromDays(secs / DAY), secs % DAY;
    FieldsTextShape(d, t / 3600, t % 3600 / 60, t % 60);
    PadRoundTrip(d.year, 4);
    PadRoundTrip(d.month, 2);
    PadRoundTrip(d.day, 2);
    PadRoundTrip(t / 3600, 2);
    PadRoundTrip(t % 3600 / 60, 2);
    PadRoundTrip(t % 60, 2);
    ClockParts(t);
  }

  /** The parser also takes the text without its `Z`, and with any fraction of a second, which it drops. */
  lemma ParseIsTolerant(d: Date, h: nat, m: nat, s: nat, fraction: string)
    requires DateFits(d) && h < 100 && m < 100 && s < 100 && 'T' !in fraction
    ensures var bare := DateText(d, "-") + "T" + ClockText(h, m, s, ":");
            && ParseIsoish(bare) == ParseIsoish(FieldsText(d, h, m, s))
            && ParseIsoish(bare + "." + fraction + "Z") == ParseIsoish(FieldsText(d, h, m, s))
  {
    hide DateText, ClockText, CheckedDays, SecondsOf, ParseAll, Split;
    var date, time := DateText(d, "-"), ClockText(h, m, s, ":");
    var bare := date + "T" + time;
    DateTextParses(d);
    ClockTextParses(h, m, s);
    FieldsTextNumbers(d, h, m, s);
    ClockEndsInDigit(h, m, s);
    assert bare[|bare| - 1] == time[|time| - 1];
    SplitFirst(date, time, 'T');
    SplitOne(time, 'T');
    SplitOne(time, '.');
    var long := time + "." + fraction;
    SplitFirst(date, long, 'T');
    SplitOne(long, 'T');
    SplitFirst(time, fraction, '.');
    assert (bare + "." + fraction + "Z")[..|bare| + 1 + |fraction|] == date + ['T'] + long;
    assert bare == date + ['T'] + time;
  }

  lemma ClockEndsInDigit(h: nat, m: nat, s: nat)
    ensures var t := ClockText(h, m, s, ":"); t != [] && IsDigit(t[|t| - 1])
  {
    hide Pad;
    PadRoundTrip(s, 2);
    var p, t := Pad(s, 2), ClockText(h, m, s, ":");
    assert t[|t| - 1] == p[|p| - 1];
  }

  /** Numbers are decimal, with an optional sign, and must fit `i64`. */
  lemma NumbersAreSigned(n: nat, w: nat, s: string)
    ensures n <= I64_MAX ==> ParseI64(Pad(n, w)) == Some(n) && ParseI64("+" + Pad(n, w)) == Some(n)
    ensures n <= I64_MAX + 1 ==> ParseI64("-" + Pad(n, w)) == Some(0 - n)
    ensures n > I64_MAX ==> ParseI64(Pad(n, w)).None?
    ensures s == [] || (exists i :: 0 < i < |s| && !IsDigit(s[i])) ==> ParseI64(s).None?
  {
    hide Pad, Value;
    PadRoundTrip(n, w);
    assert IsDigit(Pad(n, w)[0]);
    assert ("+" + Pad(n, w))[1..] == Pad(n, w) && ("-" + Pad(n, w))[1..] == Pad(n, w);
    if i :| 0 < i < |s| && !IsDigit(s[i]) {
      assert s[1..][i - 1] == s[i];
    }
  }

  /** A negative year prints its sign and its digits, four characters at least. */
  lemma NegativeYearText(y: int)
    requires y < 0
    ensures var t := PadYear(y); t != [] && t[0] == '-' && AllDigits(t[1..]) && Value(t[1..]) == 0 - y
    ensures |PadYear(y)| >= 4 && (y > -1000 ==> |PadYear(y)| == 4)
  {
    hide Pad, Value;
    PadRoundTrip(-y, 3);
    assert Pow10(3) == 1000;
    if y > -1000 { PadWidth(-y, 3); }
    assert PadYear(y)[1..] == Pad(-y, 3);
  }

  /** The second that 64 bits mean to a signed reader. */
  function AsSigned(secs: nat): (i: int) {
    if secs <= 0x7FFF_FFFF_FFFF_FFFF then secs else secs - 0x1_0000_0000_0000_0000
  }

  predicate Prints(r: Option<string>, d: Date, s: int) {
    d.month >= 0 && d.day >= 0 && 0 <= s < DAY && r == Some(IsoText(d, s))
  }

  /** On every `u64` second: the pause file's printer reads it as `i64`, the archive's cuts the year to
      `i32`, and the ledger's prints it as it is while the year fits. */
  lemma PrintersBeyond(secs: nat)
    requires secs <= U64_MAX
    ensures Prints(FormatSystemTime(secs), CivilFromDays(AsSigned(secs) / DAY), AsSigned(secs) % DAY)
    ensures var d := CivilFromDays(secs / DAY);
            && Prints(FormatUnixSecs(secs), d.(year := AsI32(d.year)), secs % DAY)
            && (FitsI32(d.year) ==> Prints(FormatLedgerTime(secs), d, secs % DAY))
  {
    hide CivilFromDays, CivilI64, CivilTruncating, CivilSaturating, IsoText, AsI32;
    var i := AsSigned(secs);
    SmallQuotient(i);
    CivilI64Exact(i / DAY);
    CivilIsFromMarch(i / DAY);
    CivilTruncatingIs(secs / DAY);
    SaturatingSinceEpoch(secs / DAY);
  }

  lemma SmallQuotient(i: int)
    requires FitsI64(i)
    ensures FitsI64(i / DAY) && i / DAY <= I64_MAX - 719468
  {
  }
}
