/** Gregorian dates and Julian day numbers (muduo/base/Date.cc), and broken-down UTC time
    (muduo/base/TimeZone.cc). The source's integer division truncates towards zero, so it is written
    out as `TruncDiv`; the calendar itself is stated independently, by month lengths and the leap rule. */
module Calendar {
  datatype YearMonthDay = YearMonthDay(year: int, month: int, day: int)

  function TruncDiv(a: int, b: int): int
    requires b > 0
  {
    if a >= 0 then a / b else -((-a) / b)
  }

  function TruncMod(a: int, b: int): int
    requires b > 0
  {
    a - b * TruncDiv(a, b)
  }

  /** `getJulianDayNumber`. */
  function JulianDayNumber(t: YearMonthDay): int {
    var a := TruncDiv(14 - t.month, 12);
    var y := t.year + 4800 - a;
    var m := t.month + 12 * a - 3;
    t.day + TruncDiv(153 * m + 2, 5) + y * 365 + TruncDiv(y, 4) - TruncDiv(y, 100) + TruncDiv(y, 400) - 32045
  }

  /** `getYearMonthDay`. */
  function DateOf(julianDayNumber: int): YearMonthDay {
    var a := julianDayNumber + 32044;
    var b := TruncDiv(4 * a + 3, 146097);
    var c := a - TruncDiv(b * 146097, 4);
    var d := TruncDiv(4 * c + 3, 1461);
    var e := c - TruncDiv(1461 * d, 4);
    var m := TruncDiv(5 * e + 2, 153);
    YearMonthDay(b * 100 + d - 4800 + TruncDiv(m, 10), m + 3 - 12 * TruncDiv(m, 10), e - TruncDiv(153 * m + 2, 5) + 1)
  }

  /** `Date::weekDay`: 0 is Sunday. */
  function WeekDay(julianDayNumber: int): int {
    TruncMod(julianDayNumber + 1, 7)
  }

  // The calendar, stated on its own.

  predicate Leap(year: int) {
    year % 4 == 0 && (year % 100 != 0 || year % 400 == 0)
  }

  function DaysInMonth(year: int, month: int): int {
    if month == 2 then
      if Leap(year) then 29 else 28
    else if month in {4, 6, 9, 11} then 30 else 31
  }

  predicate ValidDate(t: YearMonthDay) {
    1 <= t.month <= 12 && 1 <= t.day <= DaysInMonth(t.year, t.month)
  }

  function NextDay(t: YearMonthDay): YearMonthDay {
    if t.day < DaysInMonth(t.year, t.month) then t.(day := t.day + 1)
    else if t.month < 12 then YearMonthDay(t.year, t.month + 1, 1)
    else YearMonthDay(t.year + 1, 1, 1)
  }

  function DaysBeforeMonth(year: int, month: nat): int {
    if month <= 1 then 0 else DaysBeforeMonth(year, month - 1) + DaysInMonth(year, month - 1)
  }

  /** The first of March of the year -4800 is the day the algorithm counts from. */
  predicate FromEpoch(t: YearMonthDay) {
    t.year > -4800 || (t.year == -4800 && t.month >= 3)
  }

  const FIRST_DAY := -32044

  // Years that begin in March: month 0 is March, month 11 is February, `k` counts days from 0.

  function YearStart(y: nat): int {
    y * 365 + y / 4 - y / 100 + y / 400
  }

  function MonthStart(m: nat): int {
    (153 * m + 2) / 5
  }

  predicate MarchDate(y: nat, m: nat, k: nat) {
    && m <= 11
    && if m == 11 then k < (if Leap(y + 1) then 29 else 28) else k < MonthStart(m + 1) - MonthStart(m)
  }

  function Ordinal(y: nat, m: nat, k: nat): int {
    YearStart(y) + MonthStart(m) + k
  }

  function Civil(y: nat, m: nat, k: nat): YearMonthDay {
    if m >= 10 then YearMonthDay(y - 4799, m - 9, k + 1) else YearMonthDay(y - 4800, m + 3, k + 1)
  }

  /** The year is a whole number of centuries and a rest. */
  lemma YearStartByCentury(b: nat, r: nat)
    requires r < 100
    ensures YearStart(100 * b + r) == (b * 146097) / 4 + (1461 * r) / 4
  {
    var y := 100 * b + r;
    assert y / 4 == 25 * b + r / 4;
    assert y / 100 == b;
    assert y / 400 == b / 4;
    assert (b * 146097) / 4 == 36524 * b + b / 4;
    assert (1461 * r) / 4 == 365 * r + r / 4;
  }

  lemma LeapByCentury(b: nat, r: nat)
    requires r < 100
    ensures Leap(100 * b + r + 1) <==> if r == 99 then b % 4 == 3 else r % 4 == 3
  {
    if r == 99 {
      LeapCentury(b + 1);
      NextIsDivisible(b);
      assert 100 * b + r + 1 == 100 * (b + 1);
    } else {
      LeapWithin(b, r + 1);
      NextIsDivisible(r);
    }
  }

  lemma NextIsDivisible(n: nat)
    ensures (n + 1) % 4 == 0 <==> n % 4 == 3
  {
  }

  lemma LeapCentury(c: nat)
    ensures Leap(100 * c) <==> c % 4 == 0
  {
    assert 100 * c == 4 * (25 * c) && 100 * c % 400 == 100 * (c % 4);
  }

  lemma LeapWithin(b: nat, r: nat)
    requires 0 < r < 100
    ensures Leap(100 * b + r) <==> r % 4 == 0
  {
    ByFour(b, r);
    ByHundred(b, r);
  }

  lemma ByFour(b: nat, r: nat)
    ensures (100 * b + r) % 4 == r % 4
  {
    LowFour(25 * b + r / 4, r % 4);
  }

  lemma LowFour(k: nat, m: nat)
    requires m < 4
    ensures (4 * k + m) % 4 == m
  {
  }

  lemma ByHundred(b: nat, r: nat)
    requires r < 100
    ensures (100 * b + r) % 100 == r
  {
  }

  lemma CenturyOf(a: nat, b: nat)
    requires b == (4 * a + 3) / 146097
    ensures 0 <= a - (b * 146097) / 4 <= (if b % 4 == 3 then 36524 else 36523)
  {
    assert 146097 * b <= 4 * a + 3 < 146097 * (b + 1);
    assert (b * 146097) / 4 == 36524 * b + b / 4;
  }

  lemma YearOfCentury(c: nat, d: nat)
    requires c <= 36524 && d == (4 * c + 3) / 1461
    ensures d <= 99 && 0 <= c - (1461 * d) / 4 <= (if d % 4 == 3 then 365 else 364)
  {
    assert 1461 * d <= 4 * c + 3 < 1461 * (d + 1);
    assert (1461 * d) / 4 == 365 * d + d / 4;
  }

  lemma MonthOfYear(e: nat, m: nat)
    requires e <= 365 && m == (5 * e + 2) / 153
    ensures m <= 11 && 0 <= e - MonthStart(m)
    ensures m < 11 ==> e - MonthStart(m) < MonthStart(m + 1) - MonthStart(m)
    ensures m == 11 ==> e - MonthStart(m) <= e - 337
  {
  }

  /** The numbers `getYearMonthDay` passes through. */
  function Parts(a: nat): (int, int, int) {
    var b := (4 * a + 3) / 146097;
    var c := a - (b * 146097) / 4;
    var d := TruncDiv(4 * c + 3, 1461);
    var e := c - TruncDiv(1461 * d, 4);
    var m := TruncDiv(5 * e + 2, 153);
    (b * 100 + d, m, e - TruncDiv(153 * m + 2, 5))
  }

  lemma FloorsTheSame(n: nat, d: nat)
    requires d > 0
    ensures TruncDiv(n, d) == n / d
  {
  }

  /** The nested truncated divisions are floors, and each finds its century, year or month. */
  lemma PartsByFloors(a: nat, b: nat, c: nat, d: nat, e: nat, m: nat)
    requires b == (4 * a + 3) / 146097 && c == a - (b * 146097) / 4
    requires d == (4 * c + 3) / 1461 && e == c - (1461 * d) / 4 && m == (5 * e + 2) / 153
    ensures Parts(a) == (100 * b + d, m, e - MonthStart(m))
    ensures DateOf(a - 32044)
        == YearMonthDay(100 * b + d - 4800 + m / 10, m + 3 - 12 * (m / 10), e - MonthStart(m) + 1)
  {
    hide TruncDiv;
    FloorsTheSame(4 * a + 3, 146097);
    FloorsTheSame(b * 146097, 4);
    FloorsTheSame(4 * c + 3, 1461);
    FloorsTheSame(1461 * d, 4);
    FloorsTheSame(5 * e + 2, 153);
    FloorsTheSame(153 * m + 2, 5);
    FloorsTheSame(m, 10);
    PartsInTurn(a, b, c, d, e, m);
  }

  /** The numbers one after the other, without dividing. */
  lemma PartsInTurn(a: nat, b: nat, c: nat, d: nat, e: nat, m: nat)
    requires b == TruncDiv(4 * a + 3, 146097) && c == a - TruncDiv(b * 146097, 4)
    requires d == TruncDiv(4 * c + 3, 1461) && e == c - TruncDiv(1461 * d, 4) && m == TruncDiv(5 * e + 2, 153)
    ensures DateOf(a - 32044)
        == YearMonthDay(b * 100 + d - 4800 + TruncDiv(m, 10), m + 3 - 12 * TruncDiv(m, 10),
                        e - TruncDiv(153 * m + 2, 5) + 1)
  {
    hide TruncDiv;
    assert a - 32044 + 32044 == a;
  }

  lemma PartsAreADate(a: nat)
    ensures var (y, m, k) := Parts(a);
            y >= 0 && m >= 0 && k >= 0 && MarchDate(y, m, k) && Ordinal(y, m, k) == a
            && DateOf(a - 32044) == Civil(y, m, k)
  {
    hide YearStart, Leap, Parts, DateOf;
    var b := (4 * a + 3) / 146097;
    var c := a - (b * 146097) / 4;
    CenturyOf(a, b);
    var d := (4 * c + 3) / 1461;
    var e := c - (1461 * d) / 4;
    YearOfCentury(c, d);
    var m := (5 * e + 2) / 153;
    MonthOfYear(e, m);
    PartsByFloors(a, b, c, d, e, m);
    YearStartByCentury(b, d);
    LeapByCentury(b, d);
  }

  lemma DateHasParts(y: nat, m: nat, k: nat)
    requires MarchDate(y, m, k)
    ensures Ordinal(y, m, k) >= 0 && Parts(Ordinal(y, m, k)) == (y, m, k)
  {
    hide YearStart, Leap, Parts, DateOf;
    var b, r := y / 100, y % 100;
    assert y == 100 * b + r;
    YearStartByCentury(b, r);
    LeapByCentury(b, r);
    var e := MonthStart(m) + k;
    assert e <= 365 && (e == 365 ==> if r == 99 then b % 4 == 3 else r % 4 == 3);
    var c := (1461 * r) / 4 + e;
    YearRange(r, e, c);
    var a := Ordinal(y, m, k);
    assert a == (b * 146097) / 4 + c;
    CenturyRange(b, c, a);
    assert (5 * e + 2) / 153 == m;
    PartsByFloors(a, b, c, r, e, m);
  }

  lemma YearRange(r: nat, e: nat, c: nat)
    requires r < 100 && e <= 365 && (e == 365 ==> r % 4 == 3) && c == (1461 * r) / 4 + e
    ensures (4 * c + 3) / 1461 == r
  {
    assert (1461 * r) / 4 == 365 * r + r / 4;
    assert 1461 * r <= 4 * c + 3 < 1461 * (r + 1);
  }

  lemma CenturyRange(b: nat, c: nat, a: nat)
    requires a == (b * 146097) / 4 + c && c <= (if b % 4 == 3 then 36524 else 36523)
    ensures (4 * a + 3) / 146097 == b
  {
    assert (b * 146097) / 4 == 36524 * b + b / 4;
    assert 146097 * b <= 4 * a + 3 < 146097 * (b + 1);
  }

  /** The dates from the first of March of -4800 are the ones of the March years. */
  lemma MarchDateOf(t: YearMonthDay) returns (y: nat, m: nat, k: nat)
    requires ValidDate(t) && FromEpoch(t)
    ensures MarchDate(y, m, k) && Civil(y, m, k) == t
  {
    y := if t.month >= 3 then t.year + 4800 else t.year + 4799;
    m, k := if t.month >= 3 then t.month - 3 else t.month + 9, t.day - 1;
    LeapShift(t.year);
  }

  lemma LeapShift(year: int)
    ensures Leap(year + 4800) <==> Leap(year)
  {
    ShiftByFour(year);
    ShiftByHundred(year);
    ShiftByFourHundred(year);
  }

  lemma ShiftByFour(year: int)
    ensures (year + 4800) % 4 == year % 4
  {
  }

  lemma ShiftByHundred(year: int)
    ensures (year + 4800) % 100 == year % 100
  {
  }

  lemma ShiftByFourHundred(year: int)
    ensures (year + 4800) % 400 == year % 400
  {
  }

  lemma CivilDay(y: nat, m: nat, k: nat)
    requires m <= 11
    ensures JulianDayNumber(Civil(y, m, k)) == Ordinal(y, m, k) + FIRST_DAY
  {
    var t := Civil(y, m, k);
    assert TruncDiv(14 - t.month, 12) == (if m >= 10 then 1 else 0);
  }

  lemma CivilIsValid(y: nat, m: nat, k: nat)
    requires MarchDate(y, m, k)
    ensures ValidDate(Civil(y, m, k)) && FromEpoch(Civil(y, m, k))
    ensures JulianDayNumber(Civil(y, m, k)) == Ordinal(y, m, k) + FIRST_DAY
  {
    CivilDay(y, m, k);
    LeapShift(y - 4799);
    hide JulianDayNumber, Ordinal, Leap;
  }

  /** From the first Julian day on, the two conversions are inverse and yield real dates. */
  lemma JulianDayRoundTrip(j: int)
    requires j >= FIRST_DAY
    ensures ValidDate(DateOf(j)) && FromEpoch(DateOf(j)) && JulianDayNumber(DateOf(j)) == j
  {
    hide JulianDayNumber, DateOf, ValidDate, Civil, Ordinal, MarchDate, Parts, FromEpoch;
    var (y, m, k) := Parts(j + 32044);
    PartsAreADate(j + 32044);
    CivilIsValid(y, m, k);
  }

  lemma DateRoundTrip(t: YearMonthDay)
    requires ValidDate(t) && FromEpoch(t)
    ensures JulianDayNumber(t) >= FIRST_DAY && DateOf(JulianDayNumber(t)) == t
  {
    hide JulianDayNumber, DateOf, ValidDate, Civil, Ordinal, MarchDate, Parts, FromEpoch;
    var y, m, k := MarchDateOf(t);
    CivilIsValid(y, m, k);
    DateHasParts(y, m, k);
    PartsAreADate(Ordinal(y, m, k));
  }

  /** Before it, truncation gives a day of the month that is zero or negative. */
  lemma BeforeTheFirstDay(j: int)
    requires j < FIRST_DAY
    ensures DateOf(j).day <= 0
  {
    var n := -(j + 32044);
    var b := (4 * n - 3) / 146097;
    var c := n - (b * 146097) / 4;
    assert 146097 * b <= 4 * n - 3;
    assert 4 * ((b * 146097) / 4) <= 146097 * b;
    var d := (4 * c - 3) / 1461;
    var e := c - (1461 * d) / 4;
    assert 1461 * d <= 4 * c - 3;
    var m := (5 * e - 2) / 153;
    assert 153 * m <= 5 * e - 2;
  }

  /** A Julian day number is turned into a real date exactly from the first day on. */
  lemma ValidFromTheFirstDay(j: int)
    ensures ValidDate(DateOf(j)) <==> j >= FIRST_DAY
  {
    hide JulianDayNumber, DateOf, FromEpoch;
    if j >= FIRST_DAY {
      JulianDayRoundTrip(j);
    } else {
      BeforeTheFirstDay(j);
    }
  }

  /** A date survives the way to a Julian day number and back exactly from 1 March -4800 on. */
  lemma DateSurvives(t: YearMonthDay)
    requires ValidDate(t)
    ensures DateOf(JulianDayNumber(t)) == t <==> FromEpoch(t)
  {
    hide JulianDayNumber, DateOf, FromEpoch, ValidDate;
    if FromEpoch(t) {
      DateRoundTrip(t);
    } else if DateOf(JulianDayNumber(t)) == t {
      ValidFromTheFirstDay(JulianDayNumber(t));
      JulianDayRoundTrip(JulianDayNumber(t));
    }
  }

  /** The day before collides with it. */
  lemma FirstDayCollides()
    ensures JulianDayNumber(YearMonthDay(-4800, 2, 29)) == JulianDayNumber(YearMonthDay(-4800, 3, 1)) == FIRST_DAY
  {
  }

  lemma NextYearStart(y: nat)
    ensures YearStart(y + 1) == YearStart(y) + (if Leap(y + 1) then 366 else 365)
  {
    hide YearStart, Leap;
    var b, r := y / 100, y % 100;
    assert y == 100 * b + r;
    YearStartByCentury(b, r);
    LeapByCentury(b, r);
    if r < 99 {
      YearStartByCentury(b, r + 1);
      assert (1461 * r) / 4 == 365 * r + r / 4;
      assert (1461 * (r + 1)) / 4 == 365 * (r + 1) + (r + 1) / 4;
    } else {
      YearStartByCentury(b + 1, 0);
      assert y + 1 == 100 * (b + 1) + 0;
      assert ((b + 1) * 146097) / 4 == 36524 * (b + 1) + (b + 1) / 4;
      assert (b * 146097) / 4 == 36524 * b + b / 4;
    }
  }

  /** The day after, in March years. */
  lemma NextMarchDay(y: nat, m: nat, k: nat) returns (y': nat, m': nat, k': nat)
    requires MarchDate(y, m, k)
    ensures MarchDate(y', m', k') && Civil(y', m', k') == NextDay(Civil(y, m, k))
    ensures Ordinal(y', m', k') == Ordinal(y, m, k) + 1
  {
    hide Leap, YearStart;
    LeapShift(y - 4799);
    if MarchDate(y, m, k + 1) {
      y', m', k' := y, m, k + 1;
    } else if m < 11 {
      y', m', k' := y, m + 1, 0;
    } else {
      NextYearStart(y);
      y', m', k' := y + 1, 0, 0;
    }
  }

  lemma NextWeekDay(j: nat)
    ensures WeekDay(j + 1) == (WeekDay(j) + 1) % 7
  {
    assert WeekDay(j) == (j + 1) % 7;
    assert WeekDay(j + 1) == (j + 2) % 7;
  }

  /** Julian day numbers count the days of the Gregorian calendar, and week days follow each other. */
  lemma NextDayIsOneMore(t: YearMonthDay)
    requires ValidDate(t) && FromEpoch(t)
    ensures ValidDate(NextDay(t)) && FromEpoch(NextDay(t)) && JulianDayNumber(NextDay(t)) == JulianDayNumber(t) + 1
    ensures JulianDayNumber(t) >= 0 ==> WeekDay(JulianDayNumber(NextDay(t))) == (WeekDay(JulianDayNumber(t)) + 1) % 7
  {
    hide JulianDayNumber, ValidDate, FromEpoch, Civil, MarchDate, Ordinal, NextDay, WeekDay;
    var y, m, k := MarchDateOf(t);
    var y', m', k' := NextMarchDay(y, m, k);
    CivilIsValid(y, m, k);
    CivilIsValid(y', m', k');
    if JulianDayNumber(t) >= 0 {
      NextWeekDay(JulianDayNumber(t));
    }
  }

  /** Its anchor: the first of January 2000 was the Saturday of Julian day 2451545. */
  lemma Anchor()
    ensures JulianDayNumber(YearMonthDay(2000, 1, 1)) == 2451545 && WeekDay(2451545) == 6
    ensures JulianDayNumber(YearMonthDay(1970, 1, 1)) == UNIX_EPOCH && WeekDay(UNIX_EPOCH) == 4
  {
    assert Civil(6799, 10, 0) == YearMonthDay(2000, 1, 1);
    CivilDay(6799, 10, 0);
    assert Civil(6769, 10, 0) == YearMonthDay(1970, 1, 1);
    CivilDay(6769, 10, 0);
  }

  // Broken-down UTC time.

  const UNIX_EPOCH := 2440588
  const SECONDS_PER_DAY := 86400

  /** The fields of `struct tm` that the conversions write; `yday` is left at 0 unless asked for. */
  datatype Tm = Tm(date: YearMonthDay, hour: int, minute: int, second: int, wday: int, yday: int)

  /** `TimeZone::toUtcTime`, with `fillHMS`. */
  function ToUtcTime(t: int, yday: bool): Tm {
    var rest := TruncMod(t, SECONDS_PER_DAY);
    var seconds := if rest < 0 then rest + SECONDS_PER_DAY else rest;
    var days := if rest < 0 then TruncDiv(t, SECONDS_PER_DAY) - 1 else TruncDiv(t, SECONDS_PER_DAY);
    var julian := days + UNIX_EPOCH;
    var date := DateOf(julian);
    Tm(date, seconds / 60 / 60, seconds / 60 % 60, seconds % 60, WeekDay(julian),
       if yday then julian - JulianDayNumber(YearMonthDay(date.year, 1, 1)) else 0)
  }

  /** `TimeZone::fromUtcTime`. */
  function FromUtcTime(u: Tm): int {
    (JulianDayNumber(u.date) - UNIX_EPOCH) * SECONDS_PER_DAY + (u.hour * 3600 + u.minute * 60 + u.second)
  }

  predicate ValidTime(u: Tm) {
    ValidDate(u.date) && 0 <= u.hour < 24 && 0 <= u.minute < 60 && 0 <= u.second < 60
  }

  const FIRST_SECOND := (FIRST_DAY - UNIX_EPOCH) * SECONDS_PER_DAY

  lemma FloorDay(t: int) returns (days: int, s: nat)
    ensures s < SECONDS_PER_DAY && t == days * SECONDS_PER_DAY + s
    ensures forall yday :: ToUtcTime(t, yday).date == DateOf(days + UNIX_EPOCH)
    ensures forall yday :: var u := ToUtcTime(t, yday);
                           0 <= u.hour < 24 && 0 <= u.minute < 60 && 0 <= u.second < 60
                           && u.hour * 3600 + u.minute * 60 + u.second == s && u.wday == WeekDay(days + UNIX_EPOCH)
  {
    hide DateOf, JulianDayNumber, WeekDay;
    var rest := TruncMod(t, SECONDS_PER_DAY);
    s := if rest < 0 then rest + SECONDS_PER_DAY else rest;
    days := if rest < 0 then TruncDiv(t, SECONDS_PER_DAY) - 1 else TruncDiv(t, SECONDS_PER_DAY);
  }

  /** Seconds, also negative ones, survive the way to broken-down time and back. */
  lemma UtcRoundTrip(t: int, yday: bool)
    requires t >= FIRST_SECOND
    ensures FromUtcTime(ToUtcTime(t, yday)) == t && FromEpoch(ToUtcTime(t, yday).date)
  {
    hide DateOf, JulianDayNumber, WeekDay, ToUtcTime, ValidDate, FromEpoch;
    var days, s := FloorDay(t);
    JulianDayRoundTrip(days + UNIX_EPOCH);
  }

  /** The result is a real time exactly from the first second of 1 March -4800 on. */
  lemma UtcIsValid(t: int, yday: bool)
    ensures ValidTime(ToUtcTime(t, yday)) <==> t >= FIRST_SECOND
  {
    hide DateOf, JulianDayNumber, WeekDay, ToUtcTime, ValidDate;
    var days, s := FloorDay(t);
    ValidFromTheFirstDay(days + UNIX_EPOCH);
  }

  /** Broken-down times survive the way to seconds and back. */
  lemma BrokenDownRoundTrip(u: Tm, yday: bool)
    requires ValidTime(u) && FromEpoch(u.date)
    ensures var v := ToUtcTime(FromUtcTime(u), yday);
            v.date == u.date && v.hour == u.hour && v.minute == u.minute && v.second == u.second
            && v.wday == WeekDay(JulianDayNumber(u.date))
  {
    hide DateOf, JulianDayNumber, WeekDay, ToUtcTime, ValidDate, FromEpoch;
    var t := FromUtcTime(u);
    var days, s := FloorDay(t);
    DateRoundTrip(u.date);
    var v := ToUtcTime(t, yday);
    assert days == JulianDayNumber(u.date) - UNIX_EPOCH;
    assert v.hour == u.hour && v.minute == u.minute && v.second == u.second;
  }

  /** The clock goes on by one second. */
  function NextSecond(u: Tm): Tm {
    if u.second < 59 then u.(second := u.second + 1)
    else if u.minute < 59 then u.(minute := u.minute + 1, second := 0)
    else if u.hour < 23 then u.(hour := u.hour + 1, minute := 0, second := 0)
    else Tm(NextDay(u.date), 0, 0, 0, (u.wday + 1) % 7, u.yday)
  }

  lemma NextDate(j: int)
    requires j >= FIRST_DAY
    ensures DateOf(j + 1) == NextDay(DateOf(j))
  {
    hide DateOf, JulianDayNumber, NextDay, ValidDate, FromEpoch, WeekDay;
    JulianDayRoundTrip(j);
    NextDayIsOneMore(DateOf(j));
    DateRoundTrip(NextDay(DateOf(j)));
  }

  lemma CarryOnce(s: nat, h: nat, m: nat, x: nat, s': nat, h': nat, m': nat, x': nat)
    requires m < 60 && x < 60 && m' < 60 && x' < 60
    requires h * 3600 + m * 60 + x == s && h' * 3600 + m' * 60 + x' == s' == s + 1
    ensures if x < 59 then h' == h && m' == m && x' == x + 1
            else if m < 59 then h' == h && m' == m + 1 && x' == 0
            else h' == h + 1 && m' == 0 && x' == 0
  {
  }

  /** From one second to the next the clock ticks: seconds carry into minutes, minutes into hours, hours into days,
      and days into week days from Julian day 0 on. */
  lemma Ticks(t: int)
    requires t >= FIRST_SECOND
    ensures var u, v := NextSecond(ToUtcTime(t, false)), ToUtcTime(t + 1, false);
            v == u.(wday := v.wday) && (t >= -UNIX_EPOCH * SECONDS_PER_DAY ==> v.wday == u.wday)
  {
    hide DateOf, JulianDayNumber, WeekDay, NextDay, ToUtcTime;
    var days, s := FloorDay(t);
    var days', s' := FloorDay(t + 1);
    var u, v := ToUtcTime(t, false), ToUtcTime(t + 1, false);
    NoYearDay(t);
    NoYearDay(t + 1);
    if s + 1 < SECONDS_PER_DAY {
      assert days' == days && s' == s + 1;
      CarryOnce(s, u.hour, u.minute, u.second, s', v.hour, v.minute, v.second);
    } else {
      assert days' == days + 1 && s' == 0;
      NextDate(days + UNIX_EPOCH);
      if days + UNIX_EPOCH >= 0 {
        NextWeekDay(days + UNIX_EPOCH);
      }
    }
  }

  lemma NoYearDay(t: int)
    ensures ToUtcTime(t, false).yday == 0
  {
    hide DateOf, JulianDayNumber, WeekDay;
  }

  /** The clock stands at midnight of Thursday, 1 January 1970, at second 0. */
  lemma ClockStarts()
    ensures ToUtcTime(0, false) == Tm(YearMonthDay(1970, 1, 1), 0, 0, 0, 4, 0)
  {
    hide DateOf, JulianDayNumber, WeekDay, ToUtcTime;
    var days, s := FloorDay(0);
    NoYearDay(0);
    Anchor();
    FirstOfSeventy();
  }

  lemma FirstOfSeventy()
    ensures DateOf(UNIX_EPOCH) == YearMonthDay(1970, 1, 1)
  {
    hide DateOf, JulianDayNumber, WeekDay;
    Anchor();
    DateRoundTrip(YearMonthDay(1970, 1, 1));
  }

  lemma DaysBeforeMonths(year: int)
    ensures var f := if Leap(year) then 1 else 0;
            && DaysBeforeMonth(year, 1) == 0 && DaysBeforeMonth(year, 2) == 31 && DaysBeforeMonth(year, 3) == 59 + f
            && DaysBeforeMonth(year, 4) == 90 + f && DaysBeforeMonth(year, 5) == 120 + f
            && DaysBeforeMonth(year, 6) == 151 + f
            && DaysBeforeMonth(year, 7) == 181 + f && DaysBeforeMonth(year, 8) == 212 + f
            && DaysBeforeMonth(year, 9) == 243 + f
            && DaysBeforeMonth(year, 10) == 273 + f && DaysBeforeMonth(year, 11) == 304 + f
            && DaysBeforeMonth(year, 12) == 334 + f
  {
    assert DaysBeforeMonth(year, 1) == 0;
    assert DaysBeforeMonth(year, 2) == 31;
    assert DaysBeforeMonth(year, 3) == DaysBeforeMonth(year, 2) + DaysInMonth(year, 2);
    assert DaysBeforeMonth(year, 4) == DaysBeforeMonth(year, 3) + 31;
    assert DaysBeforeMonth(year, 5) == DaysBeforeMonth(year, 4) + 30;
    assert DaysBeforeMonth(year, 6) == DaysBeforeMonth(year, 5) + 31;
    assert DaysBeforeMonth(year, 7) == DaysBeforeMonth(year, 6) + 30;
    assert DaysBeforeMonth(year, 8) == DaysBeforeMonth(year, 7) + 31;
    assert DaysBeforeMonth(year, 9) == DaysBeforeMonth(year, 8) + 31;
    assert DaysBeforeMonth(year, 10) == DaysBeforeMonth(year, 9) + 30;
    assert DaysBeforeMonth(year, 11) == DaysBeforeMonth(year, 10) + 31;
  }

  /** `tm_yday` is the number of days of the year that went before, except in the year -4800 itself,
      whose first of January lies before the days the algorithm can count. */
  lemma YearDay(t: int)
    requires t >= FIRST_SECOND
    ensures var u := ToUtcTime(t, true);
            u.yday == DaysBeforeMonth(u.date.year, u.date.month) + u.date.day - 1 <==> u.date.year > -4800
  {
    hide DateOf, JulianDayNumber, WeekDay, ToUtcTime, ValidDate, FromEpoch, DaysBeforeMonth;
    var days, s := FloorDay(t);
    JulianDayRoundTrip(days + UNIX_EPOCH);
    YearDayField(t);
    var u := ToUtcTime(t, true);
    DaysSinceNewYear(u.date);
    NoEarlierYear(u.date);
  }

  lemma YearDayField(t: int)
    ensures var days := if TruncMod(t, SECONDS_PER_DAY) < 0 then TruncDiv(t, SECONDS_PER_DAY) - 1
        else TruncDiv(t, SECONDS_PER_DAY);
            var u := ToUtcTime(t, true);
            && u.date == DateOf(days + UNIX_EPOCH)
            && u.yday == days + UNIX_EPOCH - JulianDayNumber(YearMonthDay(u.date.year, 1, 1))
  {
  }

  lemma NoEarlierYear(t: YearMonthDay)
    requires FromEpoch(t)
    ensures t.year >= -4800
  {
  }

  /** The first of January of March year `y`, and the start of the next; a year too early, the count is off by one. */
  lemma NewYear(y: int)
    requires y >= -1
    ensures var j := JulianDayNumber(YearMonthDay(y - 4799, 1, 1));
            && j == YearStart(y + 1) - (if Leap(y + 1) then 60 else 59) + FIRST_DAY + (if y == -1 then 1 else 0)
  {
    hide Leap, YearStart, JulianDayNumber, MonthStart;
    if y >= 0 {
      CivilDay(y, 10, 0);
      NextYearStart(y);
      JanuaryStart();
    } else {
      FirstNewYear();
    }
  }

  lemma JanuaryStart()
    ensures MonthStart(10) == 306
  {
  }

  lemma FirstNewYear()
    ensures YearStart(0) == 0 && Leap(0) && JulianDayNumber(YearMonthDay(-4800, 1, 1)) == FIRST_DAY - 59
  {
    hide TruncDiv, JulianDayNumber;
    FirstJanuary();
  }

  lemma FirstJanuary()
    ensures JulianDayNumber(YearMonthDay(-4800, 1, 1)) == FIRST_DAY - 59
  {
    hide TruncDiv;
    FloorsTheSame(13, 12);
    FloorsTheSame(153 * 10 + 2, 5);
    TruncMinusOne(4);
    TruncMinusOne(100);
    TruncMinusOne(400);
  }

  lemma TruncMinusOne(d: nat)
    requires d > 1
    ensures TruncDiv(-1, d) == 0
  {
  }

  lemma DaysSinceNewYear(t: YearMonthDay)
    requires ValidDate(t) && FromEpoch(t)
    ensures JulianDayNumber(t) - JulianDayNumber(YearMonthDay(t.year, 1, 1))
            == DaysBeforeMonth(t.year, t.month) + t.day - 1 - (if t.year == -4800 then 1 else 0)
  {
    hide JulianDayNumber, YearStart, DaysBeforeMonth;
    var y, m, k := MarchDateOf(t);
    CivilIsValid(y, m, k);
    DaysBeforeMonths(t.year);
    NewYear(t.year + 4799);
    LeapShift(t.year);
    if t.month < 3 {
      CivilIsValid(y, 10, 0);
    } else {
      assert y == t.year + 4800 && m == t.month - 3;
    }
  }
}
