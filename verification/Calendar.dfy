/**
 The clock tool's conversion of UNIX seconds to a UTC date and time, and the
 proleptic Gregorian calendar it must agree with day by day.
 */
module Calendar {
  import opened Decimal
  import opened Wrappers

  // ------------------------------------------------------------------
  // The calendar itself, one day at a time.
  // ------------------------------------------------------------------

  datatype Date = Date(year: int, month: int, day: int)

  predicate IsLeap(year: int) {
    year % 4 == 0 && (year % 100 != 0 || year % 400 == 0)
  }

  function DaysInMonth(year: int, month: int): int
    requires 1 <= month <= 12
  {
    if month == 2 then (if IsLeap(year) then 29 else 28)
    else if month == 4 || month == 6 || month == 9 || month == 11 then 30
    else 31
  }

  predicate ValidDate(d: Date) {
    1 <= d.month <= 12 && 1 <= d.day <= DaysInMonth(d.year, d.month)
  }

  function NextDay(d: Date): (r: Date)
    requires ValidDate(d)
    ensures ValidDate(r)
  {
    if d.day < DaysInMonth(d.year, d.month) then d.(day := d.day + 1)
    else if d.month < 12 then Date(d.year, d.month + 1, 1)
    else Date(d.year + 1, 1, 1)
  }

  /** The date `n` days after 1 January 1970, reached by turning `n` pages. */
  function DateAfter(n: nat): (d: Date)
    ensures ValidDate(d)
  {
    if n == 0 then Date(1970, 1, 1) else NextDay(DateAfter(n - 1))
  }

  function DaysBeforeMonth(year: int, month: int): int
    requires 1 <= month <= 12
    decreases month
  {
    if month == 1 then 0 else DaysBeforeMonth(year, month - 1) + DaysInMonth(year, month - 1)
  }

  function DaysBeforeYear(year: int): int {
    var y := year - 1;
    365 * y + y / 4 - y / 100 + y / 400
  }

  /** Days from 1 January 1970 to `d`, counted by whole years and whole months. */
  function DayCount(d: Date): int
    requires ValidDate(d)
  {
    DaysBeforeYear(d.year) + DaysBeforeMonth(d.year, d.month) + d.day - 719_163
  }

  // ------------------------------------------------------------------
  // The closed form: eras of 400 years whose years begin on 1 March.
  // ------------------------------------------------------------------

  const ERA_DAYS := 146_097

  /** Integer division that rounds toward zero. */
  function TruncatedDiv(a: int, b: int): int
    requires b > 0
  {
    if a >= 0 then a / b else -(-a / b)
  }

  function Era(z: int): (era: int)
    ensures 0 <= z - era * ERA_DAYS < ERA_DAYS
  {
    TruncatedDiv(if z >= 0 then z else z - 146_096, ERA_DAYS)
  }

  /** Days from the start of an era to 1 March of its year `yoe`. */
  function YearStart(yoe: nat): nat {
    365 * yoe + yoe / 4 - yoe / 100
  }

  function YearOfEra(doe: nat): nat
    requires doe < ERA_DAYS
  {
    (doe - doe / 1460 + doe / 36_524 - doe / 146_096) / 365
  }

  lemma YearWithinCentury(century: nat, r: nat, a: int, k: int)
    requires century <= 3 && r < 36_524
    requires a == (24 * century + r) / 1460 && k == (r - a) / 365
    ensures 0 <= k < 100
    ensures 365 * k + k / 4 <= r < 365 * (k + 1) + (k + 1) / 4
  {
    assert k == 4 * (k / 4) + k % 4;
    assert a >= k / 4;
  }

  lemma CenturyAndYear(doe: nat) returns (century: nat, r: nat, k: nat)
    requires doe < ERA_DAYS - 1
    ensures doe == 36_524 * century + r && r < 36_524 && century <= 3 && k < 100
    ensures 365 * k + k / 4 <= r < 365 * (k + 1) + (k + 1) / 4
    ensures YearOfEra(doe) == 100 * century + k
  {
    century := doe / 36_524;
    r := doe - 36_524 * century;
    var a := (24 * century + r) / 1460;
    assert doe / 1460 == 25 * century + a;
    k := (r - a) / 365;
    YearWithinCentury(century, r, a, k);
  }

  lemma CenturyYearLength(century: nat, k: nat)
    requires century <= 3 && k < 100
    ensures YearStart(100 * century + k) == 36_524 * century + 365 * k + k / 4
    ensures IsLeap(100 * century + k + 1) == if k == 99 then century == 3 else (k + 1) % 4 == 0
  {
    assert (100 * century + k + 1) % 100 == 0 <==> k == 99;
    assert (100 * century + k + 1) % 4 == (k + 1) % 4;
    if k == 99 {
      assert (100 * (century + 1)) % 400 == 0 <==> century == 3;
    }
  }

  /** The year of the era that the division formula picks starts no later than
      the day, and is long enough (its closing February included) to reach it. */
  lemma YearOfEraBounds(doe: nat)
    requires doe < ERA_DAYS
    ensures var yoe := YearOfEra(doe);
      && yoe < 400
      && YearStart(yoe) <= doe <= YearStart(yoe) + (if IsLeap(yoe + 1) then 365 else 364)
  {
    if doe < ERA_DAYS - 1 {
      var century, r, k := CenturyAndYear(doe);
      CenturyYearLength(century, k);
    }
  }

  function MonthAndDay(doy: nat): (int, int)
    requires doy <= 365
  {
    var mp := (5 * doy + 2) / 153;
    var d := doy - (153 * mp + 2) / 5 + 1;
    (if mp < 10 then mp + 3 else mp - 9, d)
  }

  function CivilFromDays(days: int): Date {
    var z := days + 719_468;
    var era := Era(z);
    var doe := z - era * ERA_DAYS;
    var yoe := YearOfEra(doe);
    YearOfEraBounds(doe);
    var y := yoe + era * 400;
    var doy := doe - YearStart(yoe);
    var (m, d) := MonthAndDay(doy);
    Date(if m <= 2 then y + 1 else y, m, d)
  }

  // ------------------------------------------------------------------
  // The closed form refines the calendar.
  // ------------------------------------------------------------------

  lemma MonthTable(y: int)
    ensures DaysBeforeMonth(y, 2) == 31
    ensures var leap := if IsLeap(y) then 1 else 0;
      && DaysBeforeMonth(y, 3) == 59 + leap && DaysBeforeMonth(y, 4) == 90 + leap
      && DaysBeforeMonth(y, 5) == 120 + leap && DaysBeforeMonth(y, 6) == 151 + leap
      && DaysBeforeMonth(y, 7) == 181 + leap && DaysBeforeMonth(y, 8) == 212 + leap
      && DaysBeforeMonth(y, 9) == 243 + leap && DaysBeforeMonth(y, 10) == 273 + leap
      && DaysBeforeMonth(y, 11) == 304 + leap && DaysBeforeMonth(y, 12) == 334 + leap
  {
    assert DaysBeforeMonth(y, 4) == DaysBeforeMonth(y, 3) + 31;
    assert DaysBeforeMonth(y, 6) == DaysBeforeMonth(y, 5) + 31;
    assert DaysBeforeMonth(y, 8) == DaysBeforeMonth(y, 7) + 31;
    assert DaysBeforeMonth(y, 10) == DaysBeforeMonth(y, 9) + 30;
  }

  /** Where the month arithmetic puts day `doy` of a March-based year in the
      January-based months of the calendar year it lands in. */
  lemma MonthAndDayPosition(doy: nat, year: int)
    requires doy <= 365
    ensures var (m, d) := MonthAndDay(doy);
      && 1 <= m <= 12 && 1 <= d
      && (m <= 2 <==> 306 <= doy)
      && (m <= 2 ==> DaysBeforeMonth(year, m) + d - 1 == doy - 306)
      && (m == 1 ==> d <= 31)
      && (m == 2 ==> d <= 29 && (d == 29 <==> doy == 365))
      && (m > 2 ==> DaysBeforeMonth(year, m) + d - 1 == doy + DaysBeforeMonth(year, 3))
      && (m > 2 ==> d <= DaysInMonth(year, m))
  {
    MonthTable(year);
  }

  lemma YearLength(year: int)
    ensures DaysBeforeYear(year + 1) == DaysBeforeYear(year) + (if IsLeap(year) then 366 else 365)
  {
    QuadStep(year);
    CenturyStep(year);
    EraStep(year);
  }

  lemma QuadStep(year: int)
    ensures year / 4 == (year - 1) / 4 + (if year % 4 == 0 then 1 else 0)
  {
  }

  lemma CenturyStep(year: int)
    ensures year / 100 == (year - 1) / 100 + (if year % 100 == 0 then 1 else 0)
    ensures year % 100 == 0 ==> year % 4 == 0
  {
  }

  lemma EraStep(year: int)
    ensures year / 400 == (year - 1) / 400 + (if year % 400 == 0 then 1 else 0)
    ensures year % 400 == 0 ==> year % 100 == 0
  {
  }

  lemma QuadYearsRepeat(k: int, year: int)
    ensures (k * 4 + year) % 4 == year % 4
  {
  }

  lemma CenturiesRepeat(k: int, year: int)
    ensures (k * 100 + year) % 100 == year % 100
  {
  }

  lemma ErasRepeat(k: int, year: int)
    ensures (k * 400 + year) % 400 == year % 400
  {
  }

  lemma LeapInEra(era: int, year: int)
    ensures IsLeap(era * 400 + year) == IsLeap(year)
  {
    QuadYearsRepeat(era * 100, year);
    CenturiesRepeat(era * 4, year);
    ErasRepeat(era, year);
  }

  lemma YearInEra(era: int, yoe: nat)
    requires yoe < 400
    ensures DaysBeforeYear(era * 400 + yoe + 1) == era * ERA_DAYS + YearStart(yoe)
  {
    var y := era * 400 + yoe;
    assert y / 4 == era * 100 + yoe / 4;
    assert y / 100 == era * 4 + yoe / 100;
    assert y / 400 == era;
  }

  /** The day count of the date at day `doy` of year `yoe` of an era. */
  lemma CountWithinEra(era: int, yoe: nat, doy: nat, d: Date)
    requires yoe < 400 && doy <= (if IsLeap(yoe + 1) then 365 else 364)
    requires (d.month, d.day) == MonthAndDay(doy)
    requires d.year == yoe + era * 400 + (if d.month <= 2 then 1 else 0)
    ensures ValidDate(d)
    ensures DayCount(d) == era * ERA_DAYS + YearStart(yoe) + doy - 719_468
  {
    MonthAndDayPosition(doy, d.year);
    MonthTable(d.year);
    YearInEra(era, yoe);
    LeapInEra(era, yoe + 1);
    if d.month > 2 {
      YearLength(d.year);
    }
  }

  /** On every day the closed form yields a real date, and that date is the
      one the day count numbers with the same day. */
  lemma CivilIsInverseOfDayCount(days: int)
    ensures ValidDate(CivilFromDays(days))
    ensures DayCount(CivilFromDays(days)) == days
  {
    var z := days + 719_468;
    var era := Era(z);
    var doe := z - era * ERA_DAYS;
    YearOfEraBounds(doe);
    var yoe := YearOfEra(doe);
    CountWithinEra(era, yoe, doe - YearStart(yoe), CivilFromDays(days));
  }

  lemma DayCountOfNextDay(d: Date)
    requires ValidDate(d)
    ensures DayCount(NextDay(d)) == DayCount(d) + 1
  {
    MonthTable(d.year);
    YearLength(d.year);
  }

  lemma {:induction false} YearsGrow(year: int, later: int)
    requires year <= later
    ensures DaysBeforeYear(year) <= DaysBeforeYear(later)
    decreases later - year
  {
    if year < later {
      YearLength(year);
      YearsGrow(year + 1, later);
    }
  }

  lemma YearsAreDisjoint(d: Date, e: Date)
    requires ValidDate(d) && ValidDate(e) && d.year < e.year
    ensures DayCount(d) < DayCount(e)
  {
    MonthTable(d.year);
    MonthTable(e.year);
    YearLength(d.year);
    YearsGrow(d.year + 1, e.year);
  }

  lemma DayCountIsInjective(d: Date, e: Date)
    requires ValidDate(d) && ValidDate(e) && DayCount(d) == DayCount(e)
    ensures d == e
  {
    if d.year < e.year {
      YearsAreDisjoint(d, e);
    } else if e.year < d.year {
      YearsAreDisjoint(e, d);
    } else {
      MonthTable(d.year);
    }
  }

  /** Every real date is the closed form of its own day count. */
  lemma DayCountIsInverseOfCivil(d: Date)
    requires ValidDate(d)
    ensures CivilFromDays(DayCount(d)) == d
  {
    CivilIsInverseOfDayCount(DayCount(d));
    DayCountIsInjective(CivilFromDays(DayCount(d)), d);
  }

  /** Day n+1 is the calendar successor of day n, before the epoch as after. */
  lemma CivilOfNextDay(days: int)
    ensures ValidDate(CivilFromDays(days))
    ensures CivilFromDays(days + 1) == NextDay(CivilFromDays(days))
  {
    CivilIsInverseOfDayCount(days);
    DayCountOfNextDay(CivilFromDays(days));
    DayCountIsInverseOfCivil(NextDay(CivilFromDays(days)));
  }

  lemma EpochIsDayZero()
    ensures ValidDate(Date(1970, 1, 1)) && DayCount(Date(1970, 1, 1)) == 0
  {
  }

  lemma {:induction false} DayCountOfDateAfter(n: nat)
    ensures DayCount(DateAfter(n)) == n
  {
    hide DayCount, NextDay, ValidDate;
    EpochIsDayZero();
    if n > 0 {
      DayCountOfDateAfter(n - 1);
      DayCountOfNextDay(DateAfter(n - 1));
    }
  }

  /** The closed form lands where turning the calendar page by page lands. */
  lemma CivilRefinesCalendar(n: nat)
    ensures CivilFromDays(n) == DateAfter(n)
  {
    DayCountOfDateAfter(n);
    DayCountIsInverseOfCivil(DateAfter(n));
  }

  // ------------------------------------------------------------------
  // The tool's two strings.
  // ------------------------------------------------------------------

  function DateText(d: Date): string
    requires d.year >= 0 && d.month >= 0 && d.day >= 0
  {
    DigitText(Padded(d.year, 4)) + "-" + DigitText(Padded(d.month, 2)) + "-" + DigitText(Padded(d.day, 2))
  }

  function TimeText(hour: nat, minute: nat, second: nat): string {
    DigitText(Padded(hour, 2)) + ":" + DigitText(Padded(minute, 2)) + ":" + DigitText(Padded(second, 2))
  }

  function ClockText(secondOfDay: nat): string {
    TimeText(secondOfDay / 3600, (secondOfDay / 60) % 60, secondOfDay % 60)
  }

  function UnixToUtc(secs: nat): (string, string) {
    var date := CivilFromDays(secs / 86_400);
    EpochYearsAreNatural(secs / 86_400);
    (DateText(date), ClockText(secs % 86_400))
  }

  lemma EpochYearsAreNatural(n: nat)
    ensures ValidDate(CivilFromDays(n)) && CivilFromDays(n).year >= 0
  {
    CivilIsInverseOfDayCount(n);
    if CivilFromDays(n).year < 0 {
      YearsAreDisjoint(CivilFromDays(n), Date(1970, 1, 1));
    }
  }

  lemma ClockParts(s: nat)
    ensures s == 3600 * (s / 3600) + 60 * ((s / 60) % 60) + s % 60
  {
    assert (s / 60) / 60 == s / 3600;
  }

  /** Two digits, a colon, two digits, a colon, two digits. */
  ghost predicate ClockReads(s: string, hour: nat, minute: nat, second: nat) {
    && |s| == 8 && s[2] == ':' && s[5] == ':'
    && DecimalValue(s[..2]) == Some(hour) && DecimalValue(s[3..5]) == Some(minute) && DecimalValue(s[6..]) == Some(second)
  }

  /** The year in four digits, or more when it needs them, a hyphen, two digits for
      the month, a hyphen, two for the day. */
  ghost predicate DateReads(s: string, d: Date)
  {
    var n := |s|;
    && n >= 10 && (n == 10 <==> d.year < 10_000) && s[n - 6] == '-' && s[n - 3] == '-'
    && 0 <= d.year && DecimalValue(s[..n - 6]) == Some(d.year)
    && 0 <= d.month && DecimalValue(s[n - 5..n - 3]) == Some(d.month)
    && 0 <= d.day && DecimalValue(s[n - 2..]) == Some(d.day)
  }

  lemma TimeTextReads(hour: nat, minute: nat, second: nat)
    requires hour < 100 && minute < 100 && second < 100
    ensures ClockReads(TimeText(hour, minute, second), hour, minute, second)
  {
    hide Padded, DecimalValue, DigitText;
    FieldReads(hour, 2);
    FieldReads(minute, 2);
    FieldReads(second, 2);
    PaddedLength(hour, 2);
    PaddedLength(minute, 2);
    PaddedLength(second, 2);
    var s := TimeText(hour, minute, second);
    assert s[..2] == DigitText(Padded(hour, 2)) && s[3..5] == DigitText(Padded(minute, 2)) && s[6..] == DigitText(Padded(second, 2));
  }

  lemma DateTextReads(d: Date)
    requires d.year >= 0 && 0 <= d.month < 100 && 0 <= d.day < 100
    ensures DateReads(DateText(d), d)
  {
    hide Padded, DecimalValue, DigitText;
    FieldReads(d.year, 4);
    FieldReads(d.month, 2);
    FieldReads(d.day, 2);
    PaddedLength(d.year, 4);
    PaddedLength(d.month, 2);
    PaddedLength(d.day, 2);
    var s, n := DateText(d), |DateText(d)|;
    assert s[..n - 6] == DigitText(Padded(d.year, 4));
    assert s[n - 5..n - 3] == DigitText(Padded(d.month, 2)) && s[n - 2..] == DigitText(Padded(d.day, 2));
  }

  /** What the two texts say, read field by field: the date that many whole days
      after 1 January 1970, and the rest of the day as hours, minutes and seconds. */
  lemma UnixToUtcReadsBack(secs: nat, hour: nat, minute: nat, second: nat)
    requires minute < 60 && second < 60 && 3600 * hour + 60 * minute + second == secs % 86_400
    ensures DateReads(UnixToUtc(secs).0, DateAfter(secs / 86_400))
    ensures ClockReads(UnixToUtc(secs).1, hour, minute, second)
  {
    hide DateReads, ClockReads, TimeText, DateText, CivilFromDays, DateAfter;
    CivilRefinesCalendar(secs / 86_400);
    EpochYearsAreNatural(secs / 86_400);
    DateTextReads(CivilFromDays(secs / 86_400));
    ClockFields(secs % 86_400, hour, minute, second);
    TimeTextReads(hour, minute, second);
  }

  lemma ClockFields(s: nat, hour: nat, minute: nat, second: nat)
    requires minute < 60 && second < 60 && 3600 * hour + 60 * minute + second == s
    ensures hour == s / 3600 && minute == (s / 60) % 60 && second == s % 60
  {
    assert s / 60 == 60 * hour + minute;
  }

  /** Two second counts print alike only when they are the same second. */
  lemma UnixToUtcIsInjective(s: nat, t: nat)
    requires UnixToUtc(s) == UnixToUtc(t)
    ensures s == t
  {
    hide UnixToUtc, DecimalValue, DateAfter;
    var x, y := s % 86_400, t % 86_400;
    ClockParts(x);
    ClockParts(y);
    UnixToUtcReadsBack(s, x / 3600, (x / 60) % 60, x % 60);
    UnixToUtcReadsBack(t, y / 3600, (y / 60) % 60, y % 60);
    DayCountOfDateAfter(s / 86_400);
    DayCountOfDateAfter(t / 86_400);
  }
}
