/**
 * NEXRAD dates to civil dates (crates/radar-workstation/src/render/time.rs), against the
 * Gregorian calendar as section 3.2.1 of ISO 8601:2004 defines it.
 */
module Calendar {
  import opened Radar

  // ---------------------------------------------------------------- the calendar

  datatype Date = Date(year: int, month: int, day: int)

  predicate Leap(y: int) {
    y % 4 == 0 && (y % 100 != 0 || y % 400 == 0)
  }

  function DaysInMonth(y: int, m: int): int {
    if m == 2 then (if Leap(y) then 29 else 28)
    else if m == 4 || m == 6 || m == 9 || m == 11 then 30
    else 31
  }

  predicate Valid(d: Date) {
    1 <= d.month <= 12 && 1 <= d.day <= DaysInMonth(d.year, d.month)
  }

  function NextDay(d: Date): Date {
    if d.day < DaysInMonth(d.year, d.month) then d.(day := d.day + 1)
    else if d.month < 12 then Date(d.year, d.month + 1, 1)
    else Date(d.year + 1, 1, 1)
  }

  predicate Before(a: Date, b: Date) {
    || a.year < b.year
    || (a.year == b.year && (a.month < b.month || (a.month == b.month && a.day < b.day)))
  }

  // ---------------------------------------------------------------- the conversion

  /** Division that drops the fraction, as the original's `/` does for negative dividends. */
  function TruncDiv(a: int, b: int): int
    requires b > 0
  {
    if a >= 0 then a / b else -(-a / b)
  }

  /** The year of the era that day `doe` falls in, years running from March to February. */
  function YearOfEra(doe: int): int {
    (doe - doe / 1460 + doe / 36_524 - doe / 146_096) / 365
  }

  /** The civil date of day `doy` of March-year `yoe` of an era. */
  function FromMarchYear(era: int, yoe: int, doy: int): Date {
    var y := yoe + era * 400;
    var mp := (5 * doy + 2) / 153;
    var d := doy - (153 * mp + 2) / 5 + 1;
    var m := if mp < 10 then mp + 3 else mp - 9;
    Date(if m <= 2 then y + 1 else y, m, d)
  }

  function CivilFromDays(z: int): Date {
    var z1 := z + 719_468;
    var era := TruncDiv(if z1 >= 0 then z1 else z1 - 146_096, 146_097);
    FromEraDay(era, z1 - era * 146_097)
  }

  function FromEraDay(era: int, doe: int): Date {
    var yoe := YearOfEra(doe);
    FromMarchYear(era, yoe, doe - (365 * yoe + yoe / 4 - yoe / 100))
  }

  // ---------------------------------------------------------------- eras, years, months

  /** The truncating division with its correction is the floor. */
  lemma EraIsFloor(z: int)
    ensures TruncDiv(if z >= 0 then z else z - 146_096, 146_097) == z / 146_097
    ensures z - (z / 146_097) * 146_097 == z % 146_097
  {
  }

  /** A day of an era as centuries, four-year cycles, years and days, all counted from March. */
  datatype Split = Split(c: int, q: int, a: int, t: int)

  predicate SplitOk(s: Split) {
    && 0 <= s.c <= 3 && 0 <= s.q <= 24 && 0 <= s.a <= 3 && 0 <= s.t <= 365
    && (s.t == 365 ==> s.a == 3 && (s.q < 24 || s.c == 3))
  }

  function DayOf(s: Split): int {
    36_524 * s.c + 1461 * s.q + 365 * s.a + s.t
  }

  function YearOf(s: Split): int {
    100 * s.c + 4 * s.q + s.a
  }

  function SplitDay(doe: int): (s: Split)
    requires 0 <= doe < 146_097
    ensures SplitOk(s) && DayOf(s) == doe
  {
    var c := if doe / 36_524 > 3 then 3 else doe / 36_524;
    var r := doe - 36_524 * c;
    var q := r / 1461;
    var u := r - 1461 * q;
    var a := if u / 365 > 3 then 3 else u / 365;
    Split(c, q, a, u - 365 * a)
  }

  /** The closed form for the year of the era, with its three corrections, finds that year. */
  lemma YearFound(s: Split)
    requires SplitOk(s)
    ensures YearOfEra(DayOf(s)) == YearOf(s)
  {
    var doe := DayOf(s);
    var e := (24 * s.c + s.q + 365 * s.a + s.t) / 1460;
    assert doe == 1460 * (25 * s.c + s.q) + (24 * s.c + s.q + 365 * s.a + s.t);
    assert doe / 1460 == 25 * s.c + s.q + e;
    assert 0 <= s.t - e < 365;
    assert doe / 36_524 - doe / 146_096 == s.c by {
      CenturyOfEra(s);
    }
  }

  lemma CenturyOfEra(s: Split)
    requires SplitOk(s)
    ensures DayOf(s) / 36_524 - DayOf(s) / 146_096 == s.c
  {
    var r := 1461 * s.q + 365 * s.a + s.t;
    assert 0 <= r <= 36_524;
    assert r == 36_524 ==> s.c == 3;
    if s.c == 3 {
      assert DayOf(s) == 109_572 + r;
    }
  }

  lemma DayOfYear(s: Split)
    requires SplitOk(s)
    ensures var y := YearOf(s); DayOf(s) - (365 * y + y / 4 - y / 100) == s.t
  {
    var y := YearOf(s);
    assert y / 4 == 25 * s.c + s.q;
    assert y / 100 == s.c;
  }

  lemma EraDayIs(era: int, doe: int)
    requires 0 <= doe < 146_097
    ensures var s := SplitDay(doe); FromEraDay(era, doe) == FromMarchYear(era, YearOf(s), s.t)
  {
    var s := SplitDay(doe);
    YearFound(s);
    DayOfYear(s);
    hide FromMarchYear, SplitDay, YearOfEra;
  }

  lemma CivilIs(z: int)
    ensures var z1 := z + 719_468; CivilFromDays(z) == FromEraDay(z1 / 146_097, z1 % 146_097)
  {
    hide FromEraDay;
    EraIsFloor(z + 719_468);
  }

  /** Every month but February has the length the multiplication by 153/5 gives it. */
  lemma MonthTable(doy: int, mp: int)
    requires 0 <= doy <= 365 && mp == (5 * doy + 2) / 153
    ensures 0 <= mp <= 11
    ensures var start, next := (153 * mp + 2) / 5, (153 * (mp + 1) + 2) / 5;
            && start <= doy < next
            && (mp < 11 ==> next - start == if mp == 1 || mp == 3 || mp == 6 || mp == 8 then 30 else 31)
            && (mp == 11 ==> start == 337)
  {
    if mp == 0 {} else if mp == 1 {} else if mp == 2 {} else if mp == 3 {}
    else if mp == 4 {} else if mp == 5 {} else if mp == 6 {} else if mp == 7 {}
    else if mp == 8 {} else if mp == 9 {} else if mp == 10 {} else { assert mp == 11; }
  }

  /** February of March-year `y` belongs to the next civil year, which decides its length. */
  lemma FebruaryLength(s: Split, era: int)
    requires SplitOk(s)
    ensures Leap(YearOf(s) + 400 * era + 1) <==> s.a == 3 && (s.q < 24 || s.c == 3)
  {
    var y := YearOf(s) + 1;
    EraKeepsRemainders(y, era);
    assert y == 4 * (25 * s.c + s.q) + (s.a + 1);
    if s.a == 3 {
      assert y == 4 * (25 * s.c + s.q + 1);
      assert y == 100 * s.c + 4 * (s.q + 1);
      assert s.q == 24 ==> y == 100 * (s.c + 1);
    }
  }

  lemma EraKeepsRemainders(y: int, era: int)
    ensures (y + 400 * era) % 4 == y % 4
    ensures (y + 400 * era) % 100 == y % 100
    ensures (y + 400 * era) % 400 == y % 400
  {
    SameRemainder(y, 100 * era, 4);
    SameRemainder(y, 4 * era, 100);
    SameRemainder(y, era, 400);
  }

  lemma SameRemainder(y: int, n: int, k: int)
    requires k == 4 || k == 100 || k == 400
    ensures (y + k * n) % k == y % k
  {
  }

  lemma DateIsValid(era: int, s: Split)
    requires SplitOk(s)
    ensures Valid(FromMarchYear(era, YearOf(s), s.t))
  {
    MonthTable(s.t, (5 * s.t + 2) / 153);
    FebruaryLength(s, era);
  }

  /** Within a March-year the next day of the year is the next day of the calendar. */
  lemma NextInYear(era: int, y: int, doy: int)
    requires 0 <= doy <= 364
    requires doy == 364 ==> Leap(y + 400 * era + 1)
    ensures FromMarchYear(era, y, doy + 1) == NextDay(FromMarchYear(era, y, doy))
  {
    MonthTable(doy, (5 * doy + 2) / 153);
    MonthTable(doy + 1, (5 * (doy + 1) + 2) / 153);
    hide Leap;
  }

  /** After the last day of February comes the first of March. */
  lemma NextYear(era: int, y: int, doy: int, era': int, y': int)
    requires y' + 400 * era' == y + 400 * era + 1
    requires doy == if Leap(y + 400 * era + 1) then 365 else 364
    ensures FromMarchYear(era', y', 0) == NextDay(FromMarchYear(era, y, doy))
  {
  }

  lemma SplitUnique(s: Split, s': Split)
    requires SplitOk(s) && SplitOk(s') && DayOf(s) == DayOf(s')
    ensures YearOf(s) == YearOf(s') && s.t == s'.t
  {
    YearFound(s);
    YearFound(s');
    DayOfYear(s);
    DayOfYear(s');
  }

  lemma NextSplit(s: Split) returns (s': Split)
    requires SplitOk(s) && DayOf(s) < 146_096
    ensures SplitOk(s') && DayOf(s') == DayOf(s) + 1
    ensures if s.t < 364 || (s.t == 364 && s.a == 3 && (s.q < 24 || s.c == 3))
            then YearOf(s') == YearOf(s) && s'.t == s.t + 1
            else YearOf(s') == YearOf(s) + 1 && s'.t == 0
  {
    if s.t < 364 || (s.t == 364 && s.a == 3 && (s.q < 24 || s.c == 3)) {
      s' := s.(t := s.t + 1);
    } else if s.a < 3 {
      s' := Split(s.c, s.q, s.a + 1, 0);
    } else if s.q < 24 {
      s' := Split(s.c, s.q + 1, 0, 0);
    } else {
      s' := Split(s.c + 1, 0, 0, 0);
    }
  }

  // ---------------------------------------------------------------- the theorems

  lemma EpochDay()
    ensures CivilFromDays(0) == Date(1970, 1, 1)
  {
  }

  lemma SuccessorInEra(era: int, doe: int)
    requires 0 <= doe < 146_096
    ensures FromEraDay(era, doe + 1) == NextDay(FromEraDay(era, doe))
  {
    hide FromMarchYear, NextDay, SplitDay, DayOf, YearOf, Leap, FromEraDay;
    var s := SplitDay(doe);
    EraDayIs(era, doe);
    EraDayIs(era, doe + 1);
    FebruaryLength(s, era);
    var s' := NextSplit(s);
    SplitUnique(s', SplitDay(doe + 1));
    if s'.t == 0 {
      NextYear(era, YearOf(s), s.t, era, YearOf(s'));
    } else {
      NextInYear(era, YearOf(s), s.t);
    }
  }

  lemma SplitIs(doe: int, s: Split)
    requires 0 <= doe < 146_097 && SplitOk(s) && DayOf(s) == doe
    ensures YearOf(SplitDay(doe)) == YearOf(s) && SplitDay(doe).t == s.t
  {
    hide SplitDay;
    SplitUnique(SplitDay(doe), s);
  }

  lemma LastAndFirst()
    ensures YearOf(SplitDay(146_096)) == 399 && SplitDay(146_096).t == 365
    ensures YearOf(SplitDay(0)) == 0 && SplitDay(0).t == 0
  {
    SplitIs(146_096, Split(3, 24, 3, 365));
    SplitIs(0, Split(0, 0, 0, 0));
  }

  lemma SuccessorAcrossEras(era: int)
    ensures FromEraDay(era + 1, 0) == NextDay(FromEraDay(era, 146_096))
  {
    hide *;
    EraDayIs(era, 146_096);
    EraDayIs(era + 1, 0);
    LastAndFirst();
    LastLeaps(era);
    NextYear(era, 399, 365, era + 1, 0);
  }

  lemma LastLeaps(era: int)
    ensures Leap(399 + 400 * era + 1)
  {
    EraKeepsRemainders(400, era);
  }

  lemma NextInEra(z1: int)
    ensures z1 % 146_097 < 146_096 ==>
              (z1 + 1) / 146_097 == z1 / 146_097 && (z1 + 1) % 146_097 == z1 % 146_097 + 1
    ensures z1 % 146_097 == 146_096 ==> (z1 + 1) / 146_097 == z1 / 146_097 + 1 && (z1 + 1) % 146_097 == 0
  {
  }

  lemma EraDayIsValid(era: int, doe: int)
    requires 0 <= doe < 146_097
    ensures Valid(FromEraDay(era, doe))
  {
    EraDayIs(era, doe);
    DateIsValid(era, SplitDay(doe));
  }

  lemma SuccessorFromEra(era: int, doe: int, era': int, doe': int)
    requires 0 <= doe < 146_097
    requires if doe < 146_096 then era' == era && doe' == doe + 1 else era' == era + 1 && doe' == 0
    ensures FromEraDay(era', doe') == NextDay(FromEraDay(era, doe))
  {
    if doe < 146_096 {
      SuccessorInEra(era, doe);
    } else {
      SuccessorAcrossEras(era);
    }
  }

  /** Day 0 is 1970-01-01, and each further day, for every integer, is the next day of the calendar. */
  lemma CivilSuccessor(z: int)
    ensures CivilFromDays(0) == Date(1970, 1, 1)
    ensures Valid(CivilFromDays(z))
    ensures CivilFromDays(z + 1) == NextDay(CivilFromDays(z))
  {
    hide CivilFromDays, FromEraDay, NextDay, Valid;
    EpochDay();
    CivilIs(z);
    CivilIs(z + 1);
    var z1 := z + 719_468;
    NextInEra(z1);
    EraDayIsValid(z1 / 146_097, z1 % 146_097);
    SuccessorFromEra(z1 / 146_097, z1 % 146_097, (z1 + 1) / 146_097, (z1 + 1) % 146_097);
  }

  /** Days from 1970-01-01 to a date, counted by years and months. */
  function DaysBeforeYear(y: int): int {
    365 * (y - 1970) + (y - 1) / 4 - (y - 1) / 100 + (y - 1) / 400 - 477
  }

  function DaysBeforeMonth(y: int, m: int): int
    decreases m
  {
    if m <= 1 then 0 else DaysBeforeMonth(y, m - 1) + DaysInMonth(y, m - 1)
  }

  function DaysOf(d: Date): int {
    DaysBeforeYear(d.year) + DaysBeforeMonth(d.year, d.month) + d.day - 1
  }

  lemma MonthsOfYear(y: int)
    ensures DaysBeforeMonth(y, 13) == if Leap(y) then 366 else 365
  {
    hide Leap;
    assert DaysBeforeMonth(y, 4) == DaysInMonth(y, 1) + DaysInMonth(y, 2) + DaysInMonth(y, 3);
    assert DaysBeforeMonth(y, 6) == DaysBeforeMonth(y, 4) + 61;
    assert DaysBeforeMonth(y, 8) == DaysBeforeMonth(y, 6) + 61;
    assert DaysBeforeMonth(y, 10) == DaysBeforeMonth(y, 8) + 61;
    assert DaysBeforeMonth(y, 12) == DaysBeforeMonth(y, 10) + 61;
  }

  lemma YearLength(y: int)
    ensures DaysBeforeYear(y + 1) == DaysBeforeYear(y) + if Leap(y) then 366 else 365
    ensures DaysBeforeMonth(y, 13) == if Leap(y) then 366 else 365
  {
    hide DaysBeforeMonth;
    MonthsOfYear(y);
    Quotient(y, 4);
    Quotient(y, 100);
    Quotient(y, 400);
  }

  lemma Quotient(y: int, k: int)
    requires k == 4 || k == 100 || k == 400
    ensures y / k - (y - 1) / k == if y % k == 0 then 1 else 0
  {
  }

  lemma NextDayCounts(d: Date)
    requires Valid(d)
    ensures DaysOf(NextDay(d)) == DaysOf(d) + 1
  {
    YearLength(d.year);
    if d.day == DaysInMonth(d.year, d.month) && d.month == 12 {
      assert DaysBeforeMonth(d.year, 13) == DaysBeforeMonth(d.year, 12) + 31;
    }
  }

  lemma EpochIsZero()
    ensures DaysOf(Date(1970, 1, 1)) == 0
  {
  }

  /** The conversion inverts the count of days. */
  lemma {:induction false} DaysOfCivil(z: int)
    ensures DaysOf(CivilFromDays(z)) == z
    decreases if z < 0 then -z else z
  {
    CivilSuccessor(0);
    hide CivilFromDays, DaysOf, NextDay, Valid;
    if z == 0 {
      EpochIsZero();
    } else if z > 0 {
      DaysOfCivil(z - 1);
      CivilSuccessor(z - 1);
      NextDayCounts(CivilFromDays(z - 1));
    } else {
      DaysOfCivil(z + 1);
      CivilSuccessor(z);
      NextDayCounts(CivilFromDays(z));
    }
  }

  lemma {:induction false} MonthsGrow(y: int, m: int, m': int)
    requires 1 <= m < m'
    ensures DaysBeforeMonth(y, m) + DaysInMonth(y, m) <= DaysBeforeMonth(y, m')
    decreases m'
  {
    if m + 1 < m' {
      MonthsGrow(y, m, m' - 1);
    }
  }

  lemma {:induction false} YearsGrow(y: int, y': int)
    requires y < y'
    ensures DaysBeforeYear(y) + DaysBeforeMonth(y, 13) <= DaysBeforeYear(y')
    decreases y' - y
  {
    YearLength(y' - 1);
    if y + 1 < y' {
      YearsGrow(y, y' - 1);
    } else {
      YearLength(y);
    }
  }

  lemma CountsInOrder(a: Date, b: Date)
    requires Valid(a) && Valid(b) && Before(a, b)
    ensures DaysOf(a) < DaysOf(b)
  {
    if a.year < b.year {
      MonthsGrow(a.year, a.month, 13);
      YearsGrow(a.year, b.year);
      if b.month > 1 {
        MonthsGrow(b.year, 1, b.month);
      }
    } else if a.month < b.month {
      MonthsGrow(a.year, a.month, b.month);
    }
  }

  /** Every date of the calendar is reached, by exactly one day number. */
  lemma CivilIsBijection(d: Date, z: int)
    requires Valid(d)
    ensures CivilFromDays(DaysOf(d)) == d
    ensures CivilFromDays(z) == d <==> z == DaysOf(d)
  {
    var c := CivilFromDays(DaysOf(d));
    DaysOfCivil(DaysOf(d));
    CivilSuccessor(DaysOf(d));
    if Before(c, d) {
      CountsInOrder(c, d);
    } else if Before(d, c) {
      CountsInOrder(d, c);
    }
    DaysOfCivil(z);
  }

  /** Later days are later dates. */
  lemma CivilIsMonotone(z: int, z': int)
    requires z < z'
    ensures Before(CivilFromDays(z), CivilFromDays(z'))
  {
    var a, b := CivilFromDays(z), CivilFromDays(z');
    DaysOfCivil(z);
    DaysOfCivil(z');
    CivilSuccessor(z);
    CivilSuccessor(z');
    if !Before(a, b) && a != b {
      CountsInOrder(b, a);
    }
  }

  // ---------------------------------------------------------------- date and time of day

  datatype CivilTime = CivilTime(date: Date, hour: nat, minute: nat, second: nat)

  function SecondOfDay(scanTimeMs: nat): nat {
    if scanTimeMs / 1000 < 86_399 then scanTimeMs / 1000 else 86_399
  }

  function UtcFromNexrad(julianDate: nat, scanTimeMs: nat): CivilTime {
    var secs := SecondOfDay(scanTimeMs);
    CivilTime(CivilFromDays(julianDate - 1), secs / 3600, secs % 3600 / 60, secs % 60)
  }

  lemma TimeOfDay(julianDate: nat, scanTimeMs: nat)
    ensures var t := UtcFromNexrad(julianDate, scanTimeMs);
            && t.hour < 24 && t.minute < 60 && t.second < 60
            && t.hour * 3600 + t.minute * 60 + t.second == SecondOfDay(scanTimeMs)
            && (scanTimeMs < 86_400_000 ==>
                  0 <= scanTimeMs - 1000 * (t.hour * 3600 + t.minute * 60 + t.second) < 1000)
            && (scanTimeMs >= 86_400_000 ==> t.hour == 23 && t.minute == 59 && t.second == 59)
  {
    var secs := SecondOfDay(scanTimeMs);
    assert secs == 3600 * (secs / 3600) + secs % 3600;
    assert secs % 3600 == 60 * (secs % 3600 / 60) + secs % 3600 % 60;
    assert secs % 3600 % 60 == secs % 60;
  }

  /** Radar day 1 is 1970-01-01, and each radar day is followed by the next day of the calendar. */
  lemma RadarDays(julianDate: nat, scanTimeMs: nat)
    ensures UtcFromNexrad(1, scanTimeMs).date == Date(1970, 1, 1)
    ensures UtcFromNexrad(julianDate + 1, scanTimeMs).date == NextDay(UtcFromNexrad(julianDate, scanTimeMs).date)
  {
    CivilSuccessor(julianDate - 1);
    hide CivilFromDays, NextDay;
  }

  predicate TimeNotAfter(a: CivilTime, b: CivilTime) {
    || Before(a.date, b.date)
    || (a.date == b.date
        && (a.hour < b.hour
            || (a.hour == b.hour && (a.minute < b.minute || (a.minute == b.minute && a.second <= b.second)))))
  }

  lemma SameDate(a: VolumeId, b: VolumeId)
    requires a.julianDate == b.julianDate && a.scanTimeMs <= b.scanTimeMs
    ensures UtcFromNexrad(a.julianDate, a.scanTimeMs).date == UtcFromNexrad(b.julianDate, b.scanTimeMs).date
    ensures SecondOfDay(a.scanTimeMs) <= SecondOfDay(b.scanTimeMs)
  {
    hide CivilFromDays;
  }

  lemma ClockOrder(a: CivilTime, b: CivilTime)
    requires a.date == b.date
    requires a.minute < 60 && a.second < 60 && b.minute < 60 && b.second < 60
    requires a.hour * 3600 + a.minute * 60 + a.second <= b.hour * 3600 + b.minute * 60 + b.second
    ensures TimeNotAfter(a, b)
  {
    assert a.hour <= b.hour;
  }

  /** A volume that is not newer is not shown with a later time. */
  lemma UtcFollowsVolumeOrder(a: VolumeId, b: VolumeId)
    requires NotNewer(a, b)
    ensures TimeNotAfter(UtcFromNexrad(a.julianDate, a.scanTimeMs), UtcFromNexrad(b.julianDate, b.scanTimeMs))
  {
    hide CivilFromDays, SecondOfDay, Before;
    if a.julianDate < b.julianDate {
      CivilIsMonotone(a.julianDate - 1, b.julianDate - 1);
    } else {
      SameDate(a, b);
      TimeOfDay(a.julianDate, a.scanTimeMs);
      TimeOfDay(b.julianDate, b.scanTimeMs);
      ClockOrder(UtcFromNexrad(a.julianDate, a.scanTimeMs), UtcFromNexrad(b.julianDate, b.scanTimeMs));
    }
  }
}
