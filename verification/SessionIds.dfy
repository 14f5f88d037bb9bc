/** Session ids an operator chose: what moment their digits name, and when `started_at` sorts by it. */
module SessionIds {
  import opened Text
  import opened Calendar
  import opened Timestamps

  // ---------- The fields of a digit-shaped id ----------

  function IdDate(id: string): (d: Date)
    requires DigitShaped(id)
  {
    Date(Value(id[..8][..4]), Value(id[..8][4..6]), Value(id[..8][6..8]))
  }

  function IdHour(id: string): (h: nat)
    requires DigitShaped(id)
  {
    Value(id[9..15][..2])
  }

  function IdMinute(id: string): (m: nat)
    requires DigitShaped(id)
  {
    Value(id[9..15][2..4])
  }

  function IdSecond(id: string): (s: nat)
    requires DigitShaped(id)
  {
    Value(id[9..15][4..6])
  }

  /** The id's digits are a date of the calendar and a time of day. */
  predicate NamesMoment(id: string) {
    DigitShaped(id) && ValidDate(IdDate(id)) && IdHour(id) < 24 && IdMinute(id) < 60 && IdSecond(id) < 60
  }

  function TimeOfId(id: string): (t: int)
    requires DigitShaped(id)
  {
    3600 * IdHour(id) + 60 * IdMinute(id) + IdSecond(id)
  }

  /** The second the digits count to; fields out of range count on. */
  function MomentOf(id: string): (secs: int)
    requires DigitShaped(id)
  {
    Days(IdDate(id)) * DAY + TimeOfId(id)
  }

  lemma FieldIs(s: string)
    requires AllDigits(s) && (|s| == 2 || |s| == 4)
    ensures Pad(Value(s), |s|) == s && Value(s) < (if |s| == 2 then 100 else 10000)
  {
    PadOfValue(s);
    assert Pow10(2) == 100 && Pow10(4) == 10000;
  }

  lemma DateFieldsAre(a: string)
    requires |a| == 8 && AllDigits(a)
    ensures var d := Date(Value(a[..4]), Value(a[4..6]), Value(a[6..8])); DateFits(d) && DateText(d, "") == a
  {
    hide Pad, Value;
    FieldIs(a[..4]);
    FieldIs(a[4..6]);
    FieldIs(a[6..8]);
    NoSeparator(a[..4], a[4..6], a[6..8]);
    assert a == a[..4] + a[4..6] + a[6..8];
  }

  lemma ClockFieldsAre(b: string)
    requires |b| == 6 && AllDigits(b)
    ensures var (h, m, s) := (Value(b[..2]), Value(b[2..4]), Value(b[4..6]));
            h < 100 && m < 100 && s < 100 && ClockText(h, m, s, "") == b
  {
    hide Pad, Value;
    FieldIs(b[..2]);
    FieldIs(b[2..4]);
    FieldIs(b[4..6]);
    NoSeparator(b[..2], b[2..4], b[4..6]);
    assert b == b[..2] + b[2..4] + b[4..6];
  }

  ghost predicate FieldsFit(id: string) {
    DigitShaped(id) && DateFits(IdDate(id)) && IdHour(id) < 100 && IdMinute(id) < 100 && IdSecond(id) < 100
  }

  /** Every digit-shaped id prints its fields. */
  lemma StartedAtOfId(id: string, now: string)
    requires DigitShaped(id)
    ensures FieldsFit(id)
    ensures StartedAtFromId(id, now) == FieldsText(IdDate(id), IdHour(id), IdMinute(id), IdSecond(id))
  {
    hide DateText, ClockText, FieldsText, StartedAtFromId, Value;
    var a, b := id[..8], id[9..15];
    DateFieldsAre(a);
    ClockFieldsAre(b);
    assert id == a + "-" + b + id[15..];
    StartedAtOfFields(IdDate(id), IdHour(id), IdMinute(id), IdSecond(id), id[15..], now);
  }

  /** And parses to the second its digits count to, unless its date lies before 1970. */
  lemma ParseOfId(id: string, now: string)
    requires DigitShaped(id)
    ensures ParseIsoish(StartedAtFromId(id, now)) == if Days(IdDate(id)) < 0 then Rejected else Instant(MomentOf(id))
  {
    hide ParseIsoish, StartedAtFromId, FieldsText, Days, DigitShaped, IdDate, IdHour, IdMinute, IdSecond;
    StartedAtOfId(id, now);
    ParseOfFields(IdDate(id), IdHour(id), IdMinute(id), IdSecond(id));
  }

  lemma {:induction false} ClockOf(h: nat, m: nat, s: nat)
    requires h < 24 && m < 60 && s < 60
    ensures var t := 3600 * h + 60 * m + s; 0 <= t < DAY && t / 3600 == h && t % 3600 / 60 == m && t % 60 == s
  {
  }

  lemma NamedText(id: string, now: string)
    requires NamesMoment(id)
    ensures FitsWidths(IdDate(id), TimeOfId(id))
    ensures StartedAtFromId(id, now) == IsoText(IdDate(id), TimeOfId(id))
  {
    hide StartedAtFromId, FieldsText, DigitShaped, ValidDate, IdDate, IdHour, IdMinute, IdSecond;
    StartedAtOfId(id, now);
    ClockOf(IdHour(id), IdMinute(id), IdSecond(id));
  }

  /** Equal texts have equal fields. */
  lemma SameTextSameFields(a: string, b: string, now: string)
    requires DigitShaped(a) && DigitShaped(b) && StartedAtFromId(a, now) == StartedAtFromId(b, now)
    ensures IdDate(a) == IdDate(b) && IdHour(a) == IdHour(b) && IdMinute(a) == IdMinute(b) && IdSecond(a) == IdSecond(b)
  {
    hide StartedAtFromId, FieldsText, DigitShaped, IdDate, IdHour, IdMinute, IdSecond, ReadNumbers;
    StartedAtOfId(a, now);
    StartedAtOfId(b, now);
    FieldsTextNumbers(IdDate(a), IdHour(a), IdMinute(a), IdSecond(a));
    FieldsTextNumbers(IdDate(b), IdHour(b), IdMinute(b), IdSecond(b));
    SameNumbers(IdDate(a), IdHour(a), IdMinute(a), IdSecond(a), IdDate(b), IdHour(b), IdMinute(b), IdSecond(b));
  }

  lemma SameNumbers(d: Date, h: nat, m: nat, s: nat, e: Date, i: nat, n: nat, t: nat)
    requires [d.year, d.month, d.day] + [h, m, s] == [e.year, e.month, e.day] + [i, n, t]
    ensures d == e && h == i && m == n && s == t
  {
    var x, y := [d.year, d.month, d.day] + [h, m, s], [e.year, e.month, e.day] + [i, n, t];
    assert x[0] == y[0] && x[1] == y[1] && x[2] == y[2] && x[3] == y[3] && x[4] == y[4] && x[5] == y[5];
  }

  /** The id text of a valid date and a time of day names exactly them. */
  lemma IdTextNames(d: Date, t: int, now: string)
    requires ValidDate(d) && FitsWidths(d, t)
    ensures NamesMoment(IdText(d, t)) && MomentOf(IdText(d, t)) == Days(d) * DAY + t
    ensures StartedAtFromId(IdText(d, t), now) == IsoText(d, t)
  {
    hide StartedAtFromId, FieldsText, ReadNumbers, Days, IdText;
    hide DigitShaped, ValidDate, IdDate, IdHour, IdMinute, IdSecond;
    var id := IdText(d, t);
    assert id + [] == id;
    StartedAtOfIdText(d, t, [], now);
    StartedAtOfId(id, now);
    var h, m, s := t / 3600, t % 3600 / 60, t % 60;
    FieldsTextNumbers(d, h, m, s);
    FieldsTextNumbers(IdDate(id), IdHour(id), IdMinute(id), IdSecond(id));
    SameNumbers(d, h, m, s, IdDate(id), IdHour(id), IdMinute(id), IdSecond(id));
    ClockParts(t);
  }

  // ---------- Order ----------

  /** Among ids that name moments, minted or chosen by an operator, string order of the derived
      `started_at` is time order. */
  lemma IdOrderIsTimeOrder(a: string, b: string, now: string)
    requires NamesMoment(a) && NamesMoment(b)
    ensures Less(StartedAtFromId(a, now), StartedAtFromId(b, now)) <==> MomentOf(a) < MomentOf(b)
  {
    hide StartedAtFromId, IsoText, Less, Days, ValidDate, IdDate, TimeOfId;
    NamedText(a, now);
    NamedText(b, now);
    IsoOrderIsTimeOrder(IdDate(a), TimeOfId(a), IdDate(b), TimeOfId(b));
  }

  /** The two ids compare as strings as their moments do, both ways. */
  predicate SortsRight(a: string, b: string, now: string)
    requires DigitShaped(a) && DigitShaped(b)
  {
    var s, t := StartedAtFromId(a, now), StartedAtFromId(b, now);
    (Less(s, t) <==> MomentOf(a) < MomentOf(b)) && (Less(t, s) <==> MomentOf(b) < MomentOf(a))
  }

  const FIRST_DATE := Date(0, 1, 1)
  const LAST_DATE := Date(9999, 12, 31)

  /** The moments four-digit years have. */
  function FirstMoment(): (secs: int) { Days(FIRST_DATE) * DAY }

  /** The id names a moment; or it counts past the last moment and sorts after the last one's text; or it
      counts to before the first moment and sorts before the first one's text. */
  predicate InPlace(a: string, now: string)
    requires DigitShaped(a)
  {
    var s := StartedAtFromId(a, now);
    || NamesMoment(a)
    || (MomentOf(a) >= YEAR_10000 && Less(IsoText(LAST_DATE, DAY - 1), s))
    || (MomentOf(a) < FirstMoment() && Less(s, IsoText(FIRST_DATE, 0)))
  }

  lemma CalendarEnds()
    ensures ValidDate(FIRST_DATE) && ValidDate(LAST_DATE) && FitsWidths(FIRST_DATE, 0) && FitsWidths(LAST_DATE, DAY - 1)
    ensures Days(LAST_DATE) * DAY + DAY - 1 == YEAR_10000 - 1
    ensures Days(FIRST_DATE) == Days(Date(-1, 12, 31)) + 1
  {
    LimitDays();
    NextDayIsNext(Date(-1, 12, 31));
  }

  lemma NamedMomentIsInCalendar(b: string)
    requires NamesMoment(b)
    ensures FirstMoment() <= MomentOf(b) < YEAR_10000
  {
    hide Days, ValidDate, IdDate, TimeOfId, DigitShaped;
    NamedText(b, "");
    CalendarEnds();
    var d := IdDate(b);
    DaysPreserveOrder(d, FIRST_DATE);
    DaysPreserveOrder(LAST_DATE, d);
    NotBeyond(d);
  }

  lemma NotBeyond(d: Date)
    requires ValidDate(d) && 0 <= d.year < 10000
    ensures !Earlier(d, FIRST_DATE) && !Earlier(LAST_DATE, d)
  {
  }

  /** A second of a four-digit year has an id that names it. */
  lemma MomentHasId(m: int, now: string) returns (b: string)
    requires FirstMoment() <= m < YEAR_10000
    ensures NamesMoment(b) && MomentOf(b) == m
  {
    hide CivilFromDays, Days, ValidDate, IdText, NamesMoment, MomentOf;
    CalendarEnds();
    LimitDays();
    var days, t := m / DAY, m % DAY;
    DaysOfCivil(days);
    YearAtMost(days, 9999);
    YearAtMost(days, -1);
    var d := CivilFromDays(days);
    MonthAndDay(d);
    IdTextNames(d, t, now);
    b := IdText(d, t);
  }

  lemma MonthAndDay(d: Date)
    requires ValidDate(d)
    ensures 1 <= d.month <= 12 && 1 <= d.day <= 31
  {
  }

  /** An id that names no moment but counts to one is out of order with the id that names it: the two
      texts differ, so one is less, and the moments are equal. */
  lemma MisnamedSortsWrong(a: string, now: string) returns (b: string)
    requires DigitShaped(a) && !NamesMoment(a) && FirstMoment() <= MomentOf(a) < YEAR_10000
    ensures NamesMoment(b) && !SortsRight(a, b, now)
  {
    hide StartedAtFromId, Less, MomentOf, FirstMoment, DigitShaped, IdDate, IdHour, IdMinute, IdSecond;
    b := MomentHasId(MomentOf(a), now);
    if StartedAtFromId(a, now) == StartedAtFromId(b, now) {
      SameTextSameFields(a, b, now);
      assert false;
    }
    LessIsTotal(StartedAtFromId(a, now), StartedAtFromId(b, now));
  }

  /** Ids that name moments have texts between the first and the last. */
  lemma NamedTextIsInRange(b: string, now: string)
    requires NamesMoment(b)
    ensures !Less(IsoText(LAST_DATE, DAY - 1), StartedAtFromId(b, now))
    ensures !Less(StartedAtFromId(b, now), IsoText(FIRST_DATE, 0))
  {
    hide StartedAtFromId, IsoText, Less, Days, ValidDate, IdDate, TimeOfId, DigitShaped;
    CalendarEnds();
    NamedText(b, now);
    NamedMomentIsInCalendar(b);
    IsoOrderIsTimeOrder(LAST_DATE, DAY - 1, IdDate(b), TimeOfId(b));
    IsoOrderIsTimeOrder(IdDate(b), TimeOfId(b), FIRST_DATE, 0);
  }

  lemma LessThrough(a: string, b: string, c: string)
    requires Less(a, b) && !Less(c, b)
    ensures Less(a, c) && !Less(c, a)
  {
    hide Less;
    LessIsTotal(b, c);
    if b != c {
      LessIsTransitive(a, b, c);
    }
    LessIsTotal(a, c);
  }

  lemma LessThroughEnd(a: string, b: string, c: string)
    requires !Less(b, a) && Less(b, c)
    ensures Less(a, c) && !Less(c, a)
  {
    hide Less;
    LessIsTotal(a, b);
    if a != b {
      LessIsTransitive(a, b, c);
    }
    LessIsTotal(a, c);
  }

  /** Every id in place sorts right against every id that names a moment. */
  lemma InPlaceSortsRight(a: string, b: string, now: string)
    requires DigitShaped(a) && InPlace(a, now) && NamesMoment(b)
    ensures SortsRight(a, b, now)
  {
    hide StartedAtFromId, IsoText, Less, MomentOf, DigitShaped, FirstMoment, ValidDate;
    var s, t := StartedAtFromId(a, now), StartedAtFromId(b, now);
    if NamesMoment(a) {
      IdOrderIsTimeOrder(a, b, now);
      IdOrderIsTimeOrder(b, a, now);
    } else {
      NamedTextIsInRange(b, now);
      NamedMomentIsInCalendar(b);
      if MomentOf(a) >= YEAR_10000 {
        LessThroughEnd(t, IsoText(LAST_DATE, DAY - 1), s);
      } else {
        LessThrough(s, IsoText(FIRST_DATE, 0), t);
      }
    }
  }

  ghost predicate SortsRightAgainstAll(a: string, now: string)
    requires DigitShaped(a)
  {
    forall b :: NamesMoment(b) ==> SortsRight(a, b, now)
  }

  /** For every digit-shaped id: its `started_at` sorts by time against all ids that name moments if and
      only if it is in place. */
  lemma IdSortsRightIff(a: string, now: string)
    requires DigitShaped(a)
    ensures SortsRightAgainstAll(a, now) <==> InPlace(a, now)
  {
    hide StartedAtFromId, IsoText, IdText, Less, MomentOf, DigitShaped, FirstMoment, ValidDate, IdDate;
    if InPlace(a, now) {
      forall b | NamesMoment(b)
        ensures SortsRight(a, b, now)
      {
        InPlaceSortsRight(a, b, now);
      }
    } else if FirstMoment() <= MomentOf(a) < YEAR_10000 {
      var b := MisnamedSortsWrong(a, now);
    } else {
      CalendarEnds();
      IdTextNames(FIRST_DATE, 0, now);
      IdTextNames(LAST_DATE, DAY - 1, now);
      NamedMomentIsInCalendar(IdText(FIRST_DATE, 0));
      NamedMomentIsInCalendar(IdText(LAST_DATE, DAY - 1));
      assert !SortsRight(a, IdText(FIRST_DATE, 0), now) || !SortsRight(a, IdText(LAST_DATE, DAY - 1), now);
    }
  }

  /** For ids that count to a moment of the calendar, the condition is that they name one. */
  lemma NamingIsNeeded(a: string, now: string)
    requires DigitShaped(a) && FirstMoment() <= MomentOf(a) < YEAR_10000
    ensures SortsRightAgainstAll(a, now) <==> NamesMoment(a)
  {
    hide SortsRightAgainstAll, NamesMoment, MomentOf, FirstMoment, DigitShaped;
    IdSortsRightIff(a, now);
  }

  /** Such an id, as the breaker meets it: in every year, 31 February sorts before 1 March and parses to a
      later second. */
  lemma NoSuchDaySortsWrong(year: int, now: string)
    requires 1970 <= year < 10000
    ensures var a := StartedAtFromId(IdText(Date(year, 2, 31), 0), now);
            var b := StartedAtFromId(IdText(Date(year, 3, 1), 0), now);
            && Less(a, b) && ParseIsoish(a).Instant? && ParseIsoish(b).Instant?
            && ParseIsoish(a).secs > ParseIsoish(b).secs
  {
    hide StartedAtFromId, IdText, ParseIsoish, Days, Less, DateText, ClockText;
    var d, e := Date(year, 2, 31), Date(year, 3, 1);
    StartedAtOfIdText(d, 0, [], now);
    StartedAtOfIdText(e, 0, [], now);
    assert IdText(d, 0) + [] == IdText(d, 0) && IdText(e, 0) + [] == IdText(e, 0);
    ParseOfIsoText(d, 0);
    ParseOfIsoText(e, 0);
    MarchFollows(year);
    assert Less(IsoText(d, 0), IsoText(e, 0)) by {
      assert IsoText(d, 0) == DateText(d, "-") + ("T" + TimeOfDay(0, ":") + "Z");
      assert IsoText(e, 0) == DateText(e, "-") + ("T" + TimeOfDay(0, ":") + "Z");
      DateTextOrder(d, e, "T" + TimeOfDay(0, ":") + "Z", "T" + TimeOfDay(0, ":") + "Z");
    }
  }

  lemma MarchFollows(year: int)
    requires 1970 <= year
    ensures Days(Date(year, 2, 31)) > Days(Date(year, 3, 1)) >= 0
  {
    DaysByEra(year, 2, 31);
    DaysByEra(year, 3, 1);
    hide DaysFromCivil, DaysBeforeYear, LastDayOfYear;
    YearStartNext(year - 1);
    assert LastDayOfYear(year - 1) <= 365 by { LastDayIsBounded(year - 1); }
    DaysPreserveOrder(Date(year, 3, 1), EPOCH);
    EpochIsDayZero();
  }

  lemma LastDayIsBounded(y: int)
    ensures LastDayOfYear(y) <= 365
  {
  }

  lemma EpochIsDayZero()
    ensures Days(EPOCH) == 0
  {
  }
}
