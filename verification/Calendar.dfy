/** The UTC clock stamp that the host puts on the guest kernel command line.

    `CivilFromDays` is the closed-form day-to-date arithmetic of the source; `CountDays`
    is the obvious definition, one Gregorian day after another from 1970-01-01.  The main
    result is that the closed form refines the counting, for every day. */
module Calendar {

  datatype Date = Date(year: int, month: int, day: int)

  datatype Stamp = Stamp(date: Date, hours: nat, mins: nat, secs: nat)

  /** Division of signed machine integers, which truncates toward zero. */
  function TruncDiv(a: int, b: int): int
    requires b > 0
  {
    if a >= 0 then a / b else -((-a) / b)
  }

  function YearOfEra(doe: int): int {
    (doe - doe / 1460 + doe / 36524 - doe / 146096) / 365
  }

  /** Years are counted from March, in eras of 400 years (146097 days). */
  function CivilFromDays(days: nat): Date {
    var z := days + 719468;
    var era := TruncDiv(if z >= 0 then z else z - 146096, 146097);
    var doe := z - era * 146097;
    var yoe := YearOfEra(doe);
    var y := yoe + era * 400;
    var doy := doe - (365 * yoe + yoe / 4 - yoe / 100);
    var mp := (5 * doy + 2) / 153;
    var d := doy - (153 * mp + 2) / 5 + 1;
    var m := if mp < 10 then mp + 3 else mp - 9;
    Date(if m <= 2 then y + 1 else y, m, d)
  }

  /** The stamp of `now`, the seconds since the Unix epoch. */
  function ClockUtc(now: nat): Stamp {
    Stamp(CivilFromDays(now / 86400), (now / 3600) % 24, (now / 60) % 60, now % 60)
  }

  // ---- The Gregorian calendar, by counting -----------------------------------------------

  predicate Leap(y: int) {
    y % 4 == 0 && (y % 100 != 0 || y % 400 == 0)
  }

  function MonthLength(y: int, m: int): int {
    if m == 2 then (if Leap(y) then 29 else 28)
    else if m == 4 || m == 6 || m == 9 || m == 11 then 30
    else 31
  }

  predicate ValidDate(d: Date) {
    1 <= d.month <= 12 && 1 <= d.day <= MonthLength(d.year, d.month)
  }

  function NextDay(d: Date): Date {
    if d.day < MonthLength(d.year, d.month) then Date(d.year, d.month, d.day + 1)
    else if d.month < 12 then Date(d.year, d.month + 1, 1)
    else Date(d.year + 1, 1, 1)
  }

  function CountDays(n: nat): Date {
    if n == 0 then Date(1970, 1, 1) else NextDay(CountDays(n - 1))
  }

  /** Days from 1 January of year `y0` to the same day of year `y`. */
  function DaysInYears(y0: int, y: int): nat
    requires y0 <= y
    decreases y - y0
  {
    if y == y0 then 0 else DaysInYears(y0, y - 1) + (if Leap(y - 1) then 366 else 365)
  }

  function DaysInMonths(y: int, m: int): int
    decreases m
  {
    if m <= 1 then 0 else DaysInMonths(y, m - 1) + MonthLength(y, m - 1)
  }

  /** The number of whole days from 1970-01-01 to a date not before it. */
  function DayNumber(d: Date): int
    requires 1970 <= d.year
  {
    DaysInYears(1970, d.year) + DaysInMonths(d.year, d.month) + d.day - 1
  }

  // ---- The closed form refines the counting ----------------------------------------------

  /** First day of March-year `y` within its era. */
  function YearStart(y: int): int {
    365 * y + y / 4 - y / 100
  }

  function MarchYearLength(y: int): int {
    if Leap(y + 1) then 366 else 365
  }

  /** Any `y` whose March-year contains day `doe` is the one that the closed form computes. */
  lemma YearOfEraIs(y: int, doe: int)
    requires 0 <= y < 400 && YearStart(y) <= doe < YearStart(y) + MarchYearLength(y)
    ensures YearOfEra(doe) == y
  {
    var c, q, r := y / 100, y % 100 / 4, y % 4;
    assert y == 100 * c + 4 * q + r && y / 4 == 25 * c + q;
    var x := doe - YearStart(y);
    assert doe == 36524 * c + 1461 * q + 365 * r + x;
    LeapInEra(y, c, q, r);
    hide YearStart, Leap, YearOfEra;
    YearOfParts(c, q, r, x);
  }

  /** Day x of year r of group q of century c. */
  lemma YearOfParts(c: int, q: int, r: int, x: int)
    requires 0 <= c < 4 && 0 <= q < 25 && 0 <= r < 4
    requires 0 <= x < if r == 3 && (q < 24 || c == 3) then 366 else 365
    ensures YearOfEra(36524 * c + 1461 * q + 365 * r + x) == 100 * c + 4 * q + r
  {
    var y, doe := 100 * c + 4 * q + r, 36524 * c + 1461 * q + 365 * r + x;
    var w := 24 * c + q + 365 * r + x;
    var e := if w >= 1460 then 1 else 0;
    Quotient(doe, 1460, 25 * c + q + e);
    if doe != 146096 {
      Quotient(doe, 36524, c);
      Quotient(doe, 146096, 0);
    }
    Quotient(365 * y + x - e, 365, y);
  }

  lemma Quotient(a: int, b: int, k: int)
    requires b > 0 && b * k <= a < b * k + b
    ensures a / b == k
  {
    var q := a / b;
    assert a == b * q + a % b;
    assert b * (q - k) == b * q - b * k;
    OnlyZeroMultiple(b, q - k);
  }

  lemma OnlyZeroMultiple(b: int, t: int)
    requires b > 0 && -b < b * t < b
    ensures t == 0
  {
  }

  lemma LeapInEra(y: int, c: int, q: int, r: int)
    requires y == 100 * c + 4 * q + r && 0 <= c < 4 && 0 <= q < 25 && 0 <= r < 4
    ensures Leap(y + 1) <==> r == 3 && (q < 24 || c == 3)
  {
    if r == 3 {
      Quotient(y + 1, 4, 25 * c + q + 1);
    }
    Quotient(y + 1, 100, if q == 24 && r == 3 then c + 1 else c);
  }

  /** The year of the era really contains the day. */
  lemma YearOfEraContains(doe: int)
    requires 0 <= doe < 146097
    ensures 0 <= YearOfEra(doe) < 400
    ensures YearStart(YearOfEra(doe)) <= doe
    ensures doe < YearStart(YearOfEra(doe)) + MarchYearLength(YearOfEra(doe))
  {
    var c := if doe == 146096 then 3 else doe / 36524;
    var u := doe - 36524 * c;
    assert 0 <= c <= 3 && 0 <= u <= 36524;
    var q := u / 1461;
    var v := u % 1461;
    var r := if v == 1460 then 3 else v / 365;
    var y := 100 * c + 4 * q + r;
    assert 0 <= q <= 24 && 0 <= r <= 3;
    assert y / 100 == c && y / 4 == 25 * c + q && y % 4 == r;
    assert YearStart(y) == 36524 * c + 1461 * q + 365 * r;
    YearOfEraIs(y, doe);
  }

  /** The day of the March-year on which its month `mp` starts. */
  function MonthStart(mp: int): int {
    (153 * mp + 2) / 5
  }

  function MonthOf(mp: int): int {
    if mp < 10 then mp + 3 else mp - 9
  }

  /** Day `doy` of the year that starts on 1 March of year `y`. */
  function MarchDate(y: int, doy: int): Date {
    var mp := (5 * doy + 2) / 153;
    var m := MonthOf(mp);
    Date(if m <= 2 then y + 1 else y, m, doy - MonthStart(mp) + 1)
  }

  lemma MonthHolds(doy: int, mp: int)
    ensures (5 * doy + 2) / 153 == mp <==> MonthStart(mp) <= doy < MonthStart(mp + 1)
  {
  }

  /** Every month but the last, February, ends where the next starts. */
  lemma MonthsFollow(y: int, mp: int)
    requires 0 <= mp < 11
    ensures MonthStart(mp + 1) == MonthStart(mp) + MonthLength(if MonthOf(mp) <= 2 then y + 1 else y, MonthOf(mp))
  {
    hide Leap;
    assert mp == 0 || mp == 1 || mp == 2 || mp == 3 || mp == 4 || mp == 5
        || mp == 6 || mp == 7 || mp == 8 || mp == 9 || mp == 10;
  }

  lemma MarchDateNext(y: int, doy: int)
    requires 0 <= doy < MarchYearLength(y)
    ensures ValidDate(MarchDate(y, doy))
    ensures NextDay(MarchDate(y, doy))
         == if doy + 1 < MarchYearLength(y) then MarchDate(y, doy + 1) else MarchDate(y + 1, 0)
  {
    hide Leap;
    var mp := (5 * doy + 2) / 153;
    assert 0 <= mp <= 11;
    MonthHolds(doy, mp);
    if mp < 11 {
      MonthsFollow(y, mp);
    }
    hide MonthStart;
    MonthHolds(doy + 1, mp);
    MonthHolds(doy + 1, mp + 1);
    MonthEdges();
  }

  lemma MonthEdges()
    ensures MonthStart(0) == 0 && MonthStart(11) == 337 && MonthStart(12) == 367
  {
  }

  lemma LeapEveryEra(y: int, era: int)
    ensures Leap(y + 400 * era) <==> Leap(y)
  {
    Quotient(y + 400 * era, 400, y / 400 + era);
    Quotient(y + 400 * era, 100, y / 100 + 4 * era);
    Quotient(y + 400 * era, 4, y / 4 + 100 * era);
  }

  /** Days from 1 March of year 0 to 1 March of year `y`. */
  function MarchFirst(y: int): int {
    365 * y + y / 4 - y / 100 + y / 400
  }

  lemma MarchFirstNext(y: int)
    ensures MarchFirst(y + 1) == MarchFirst(y) + MarchYearLength(y)
  {
    NextMultiple(y, 4);
    NextMultiple(y, 100);
    NextMultiple(y, 400);
    Quotient(y + 1, 4, 25 * ((y + 1) / 100) + (y + 1) % 100 / 4);
    Quotient(y + 1, 100, 4 * ((y + 1) / 400) + (y + 1) % 400 / 100);
  }

  lemma NextMultiple(y: int, b: int)
    requires b > 1
    ensures (y + 1) / b == if (y + 1) % b == 0 then y / b + 1 else y / b
  {
    if (y + 1) % b == 0 {
      Quotient(y, b, (y + 1) / b - 1);
    } else {
      Quotient(y, b, (y + 1) / b);
    }
  }

  lemma {:induction false} MarchFirstOrdered(y: int, y': int)
    requires y <= y'
    ensures MarchFirst(y) <= MarchFirst(y')
    decreases y' - y
  {
    if y < y' {
      MarchFirstOrdered(y, y' - 1);
      MarchFirstNext(y' - 1);
    }
  }

  lemma MarchFirstInEra(era: int, yoe: int)
    requires 0 <= yoe < 400
    ensures MarchFirst(yoe + 400 * era) == 146097 * era + YearStart(yoe)
  {
    Quotient(yoe + 400 * era, 4, yoe / 4 + 100 * era);
    Quotient(yoe + 400 * era, 100, yoe / 100 + 4 * era);
    Quotient(yoe + 400 * era, 400, era);
  }

  /** 1 January 1970 is day 306 of the year that starts on 1 March 1969. */
  lemma EpochInMarchYear(y: int, doy: int)
    requires 719468 == MarchFirst(y) + doy && 0 <= doy < MarchYearLength(y)
    ensures MarchDate(y, doy) == Date(1970, 1, 1)
  {
    assert MarchFirst(1969) == 719162 && MarchFirst(1970) == 719527;
    hide MarchFirst, Leap;
    MarchFirstNext(y);
    if y < 1969 {
      MarchFirstOrdered(y + 1, 1969);
    } else if y > 1969 {
      MarchFirstOrdered(1970, y);
    }
  }

  lemma {:induction false} CountingInMarchYear(n: nat, y: int, doy: int)
    requires n + 719468 == MarchFirst(y) + doy && 0 <= doy < MarchYearLength(y)
    ensures CountDays(n) == MarchDate(y, doy)
    decreases n
  {
    hide MarchFirst, MarchDate, NextDay, Leap;
    if n == 0 {
      EpochInMarchYear(y, doy);
    } else if doy > 0 {
      CountingInMarchYear(n - 1, y, doy - 1);
      MarchDateNext(y, doy - 1);
    } else {
      MarchFirstNext(y - 1);
      CountingInMarchYear(n - 1, y - 1, MarchYearLength(y - 1) - 1);
      MarchDateNext(y - 1, MarchYearLength(y - 1) - 1);
    }
  }

  lemma CivilInMarchYear(n: nat) returns (y: int, doy: int)
    ensures n + 719468 == MarchFirst(y) + doy && 0 <= doy < MarchYearLength(y)
    ensures CivilFromDays(n) == MarchDate(y, doy)
  {
    hide MarchFirst, CivilFromDays, MarchDate, YearOfEra;
    var era, doe := (n + 719468) / 146097, (n + 719468) % 146097;
    YearOfEraContains(doe);
    var yoe := YearOfEra(doe);
    MarchFirstInEra(era, yoe);
    LeapEveryEra(yoe + 1, era);
    y, doy := yoe + 400 * era, doe - YearStart(yoe);
    CivilOf(n, era, doe);
  }

  lemma CivilOf(n: nat, era: nat, doe: nat)
    requires n + 719468 == 146097 * era + doe && doe < 146097
    ensures CivilFromDays(n) == MarchDate(YearOfEra(doe) + 400 * era, doe - YearStart(YearOfEra(doe)))
  {
    hide YearOfEra;
    Quotient(n + 719468, 146097, era);
  }

  /** The closed form is the date reached by counting days one by one, and a valid one. */
  lemma CivilRefinesCounting(n: nat)
    ensures CivilFromDays(n) == CountDays(n)
    ensures ValidDate(CivilFromDays(n))
  {
    var y, doy := CivilInMarchYear(n);
    CountingInMarchYear(n, y, doy);
    MarchDateNext(y, doy);
  }

  // ---- The stamp determines the instant --------------------------------------------------

  lemma NextDayNumber(d: Date)
    requires 1970 <= d.year && ValidDate(d)
    ensures 1970 <= NextDay(d).year && ValidDate(NextDay(d))
    ensures DayNumber(NextDay(d)) == DayNumber(d) + 1
  {
    if d.day == MonthLength(d.year, d.month) && d.month == 12 {
      var y := d.year;
      assert DaysInMonths(y, 12) == DaysInMonths(y, 6) + 30 + 31 + 31 + 30 + 31 + 30 by {
        assert DaysInMonths(y, 7) == DaysInMonths(y, 6) + 30;
        assert DaysInMonths(y, 9) == DaysInMonths(y, 7) + 31 + 31;
        assert DaysInMonths(y, 11) == DaysInMonths(y, 9) + 30 + 31;
      }
      assert DaysInMonths(y, 2) == 31;
      assert DaysInMonths(y, 4) == 31 + MonthLength(y, 2) + 31;
      assert DaysInMonths(y, 6) == DaysInMonths(y, 4) + 30 + 31;
    }
  }

  lemma {:induction false} CountingIsNumbering(n: nat)
    ensures 1970 <= CountDays(n).year && ValidDate(CountDays(n))
    ensures DayNumber(CountDays(n)) == n
  {
    if n > 0 {
      CountingIsNumbering(n - 1);
      NextDayNumber(CountDays(n - 1));
    }
  }

  /** Nothing is lost: from the stamp alone the second it was taken at is recovered, so two
      different seconds never get the same stamp. */
  lemma StampRoundTrip(now: nat)
    ensures var s := ClockUtc(now);
            && 1970 <= s.date.year && ValidDate(s.date)
            && s.hours < 24 && s.mins < 60 && s.secs < 60
            && DayNumber(s.date) * 86400 + s.hours * 3600 + s.mins * 60 + s.secs == now
  {
    CivilRefinesCounting(now / 86400);
    CountingIsNumbering(now / 86400);
    SecondsRecombine(now);
  }

  lemma SecondsRecombine(now: nat)
    ensures now == now / 86400 * 86400 + now / 3600 % 24 * 3600 + now / 60 % 60 * 60 + now % 60
  {
    var m := now / 60;
    var h := m / 60;
    Quotient(now, 3600, h);
    Quotient(now, 86400, h / 24);
  }
}
