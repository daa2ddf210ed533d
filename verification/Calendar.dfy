/**
  Dates out of milliseconds, and what the text of one sorts like.
 */
module Calendar {
  datatype Date = Date(y: nat, m: nat, d: nat)

  // ---- The Gregorian calendar, a day at a time ----

  predicate Leap(y: nat) {
    y % 4 == 0 && (y % 100 != 0 || y % 400 == 0)
  }

  function DaysIn(y: nat, m: nat): nat {
    if m == 2 then (if Leap(y) then 29 else 28)
    else if m == 4 || m == 6 || m == 9 || m == 11 then 30
    else 31
  }

  predicate IsDate(x: Date) {
    1 <= x.m <= 12 && 1 <= x.d <= DaysIn(x.y, x.m)
  }

  function NextDay(x: Date): Date {
    if x.d < DaysIn(x.y, x.m) then Date(x.y, x.m, x.d + 1)
    else if x.m < 12 then Date(x.y, x.m + 1, 1)
    else Date(x.y + 1, 1, 1)
  }

  /** The first of January 1970, and from there one day after another. */
  function DayAfterEpoch(days: nat): Date {
    if days == 0 then Date(1970, 1, 1) else NextDay(DayAfterEpoch(days - 1))
  }

  predicate Earlier(a: Date, b: Date) {
    a.y < b.y || (a.y == b.y && (a.m < b.m || (a.m == b.m && a.d < b.d)))
  }

  // ---- The arithmetic ----

  function YearOfEra(doe: nat): nat {
    (doe - doe / 1460 + doe / 36_524 - doe / 146_096) / 365
  }

  /** The first day, in an era of four hundred years that begin in March, of a year. */
  function YearStart(yoe: nat): nat {
    365 * yoe + yoe / 4 - yoe / 100
  }

  function MonthFromMarch(doy: nat): nat {
    (5 * doy + 2) / 153
  }

  function MonthStart(mp: nat): nat {
    (153 * mp + 2) / 5
  }

  function FromParts(era: nat, yoe: nat, doy: nat): Date
    requires doy <= 365
  {
    MonthIsOne(doy);
    var mp := MonthFromMarch(doy);
    var d := doy - MonthStart(mp) + 1;
    var m := if mp < 10 then mp + 3 else mp - 9;
    var y := yoe + era * 400;
    Date(if m <= 2 then y + 1 else y, m, d)
  }

  /** The calendar date of a day, counted from the first of January 1970. */
  function Civil(days: nat): Date {
    var z := days + 719_468;
    var era := z / 146_097;
    var doe := z - era * 146_097;
    YearHoldsDay(doe);
    FromParts(era, YearOfEra(doe), doe - YearStart(YearOfEra(doe)))
  }

  // ---- The arithmetic is the calendar ----

  /** How long the year from March to February is. */
  function YearLength(yoe: nat): nat {
    if Leap(yoe + 1) then 366 else 365
  }

  lemma MonthIsOne(doy: nat)
    requires doy <= 365
    ensures MonthFromMarch(doy) <= 11 && MonthStart(MonthFromMarch(doy)) <= doy
    ensures MonthFromMarch(doy) < 11 ==> doy < MonthStart(MonthFromMarch(doy) + 1)
  {
  }

  /** Four centuries, each of them 25 times four years, of which the last day may be missing. */
  lemma YearByParts(c: nat, q: nat, s: nat)
    requires c <= 3 && q <= 24 && s <= 1460 && 1461 * q + s < 36_524
    ensures YearOfEra(36_524 * c + 1461 * q + s) == 100 * c + 4 * q + (if s == 1460 then 3 else s / 365)
  {
    var doe := 36_524 * c + 1461 * q + s;
    var e := if 24 * c + q + s >= 1460 then 1 else 0;
    assert doe / 1460 == 25 * c + q + e;
    assert doe / 36_524 == c;
    assert doe / 146_096 == 0;
    assert (s - e) / 365 == if s == 1460 then 3 else s / 365;
  }

  lemma YearStartByParts(c: nat, q: nat, t: nat)
    requires c <= 3 && q <= 24 && t <= 3
    ensures YearStart(100 * c + 4 * q + t) == 36_524 * c + 1461 * q + 365 * t
    ensures YearLength(100 * c + 4 * q + t) == if t == 3 && (q < 24 || c == 3) then 366 else 365
  {
    var y := 100 * c + 4 * q + t;
    assert y / 4 == 25 * c + q;
    assert y / 100 == c;
    assert (y + 1) % 4 == (t + 1) % 4;
    if t == 3 {
      assert (y + 1) % 100 == (4 * q + 4) % 100;
    }
  }

  lemma PartsOfEra(doe: nat) returns (c: nat, q: nat, s: nat)
    requires doe < 146_096
    ensures c <= 3 && q <= 24 && s <= 1460 && 1461 * q + s < 36_524
    ensures doe == 36_524 * c + 1461 * q + s
  {
    c := doe / 36_524;
    q, s := doe % 36_524 / 1461, doe % 36_524 % 1461;
  }

  /** The year the arithmetic names is the one the day lies in. */
  lemma YearHoldsDay(doe: nat)
    requires doe < 146_097
    ensures var yoe := YearOfEra(doe);
      yoe < 400 && YearStart(yoe) <= doe < YearStart(yoe) + YearLength(yoe)
  {
    if doe == 146_096 {
      YearStartByParts(3, 24, 3);
    } else {
      var c, q, s := PartsOfEra(doe);
      YearByParts(c, q, s);
      YearStartByParts(c, q, if s == 1460 then 3 else s / 365);
    }
  }

  /** One year begins where the one before it ends. */
  lemma YearsFollow(yoe: nat)
    requires yoe < 399
    ensures YearStart(yoe + 1) == YearStart(yoe) + YearLength(yoe)
  {
    var c, q, t := yoe / 100, yoe % 100 / 4, yoe % 4;
    assert yoe == 100 * c + 4 * q + t;
    YearStartByParts(c, q, t);
    if t < 3 {
      YearStartByParts(c, q, t + 1);
    } else if q < 24 {
      YearStartByParts(c, q + 1, 0);
    } else {
      YearStartByParts(c + 1, 0, 0);
    }
  }

  lemma {:induction false} YearsRise(a: nat, b: nat)
    requires a < b < 400
    ensures YearStart(a) + YearLength(a) <= YearStart(b)
  {
    YearsFollow(b - 1);
    if a < b - 1 {
      YearsRise(a, b - 1);
    }
  }

  /** No other year of the era holds it. */
  lemma YearIsOne(doe: nat, yoe: nat)
    requires doe < 146_097 && yoe < 400 && YearStart(yoe) <= doe < YearStart(yoe) + YearLength(yoe)
    ensures YearOfEra(doe) == yoe
  {
    YearHoldsDay(doe);
    if yoe < YearOfEra(doe) {
      YearsRise(yoe, YearOfEra(doe));
    } else if YearOfEra(doe) < yoe {
      YearsRise(YearOfEra(doe), yoe);
    }
  }

  lemma MonthIs(doy: nat, mp: nat)
    requires doy <= 365 && mp <= 11 && MonthStart(mp) <= doy && (mp < 11 ==> doy < MonthStart(mp + 1))
    ensures MonthFromMarch(doy) == mp
  {
  }

  function MonthName(mp: nat): nat
    requires mp <= 11
  {
    if mp < 10 then mp + 3 else mp - 9
  }

  /** March to January are as long as they are; the year ends with February. */
  lemma MonthLength(y: nat, mp: nat)
    requires mp < 11
    ensures MonthStart(mp + 1) == MonthStart(mp) + DaysIn(y, MonthName(mp))
  {
  }

  /** What month and day a day of the year from March is. */
  lemma DateInMonth(era: nat, yoe: nat, doy: nat, mp: nat)
    requires doy <= 365 && mp <= 11 && MonthStart(mp) <= doy && (mp < 11 ==> doy < MonthStart(mp + 1))
    ensures FromParts(era, yoe, doy) ==
      Date(yoe + era * 400 + (if mp < 10 then 0 else 1), MonthName(mp), doy - MonthStart(mp) + 1)
  {
    MonthIs(doy, mp);
  }

  lemma NextInYear(era: nat, yoe: nat, doy: nat)
    requires doy + 1 < YearLength(yoe)
    ensures NextDay(FromParts(era, yoe, doy)) == FromParts(era, yoe, doy + 1)
  {
    var mp := MonthFromMarch(doy);
    MonthIsOne(doy);
    DateInMonth(era, yoe, doy, mp);
    if mp < 11 {
      MonthLength(yoe + era * 400 + (if mp < 10 then 0 else 1), mp);
      DateInMonth(era, yoe, doy + 1, if doy + 1 == MonthStart(mp + 1) then mp + 1 else mp);
    } else {
      LeapIsOfTheEra(yoe + 1, era);
      DateInMonth(era, yoe, doy + 1, 11);
    }
  }

  lemma NextAcrossYears(era: nat, yoe: nat, era': nat, yoe': nat)
    requires yoe' + 400 * era' == yoe + 400 * era + 1
    ensures NextDay(FromParts(era, yoe, YearLength(yoe) - 1)) == FromParts(era', yoe', 0)
  {
    LeapIsOfTheEra(yoe + 1, era);
  }

  lemma LeapIsOfTheEra(y: nat, era: nat)
    ensures Leap(y + 400 * era) == Leap(y)
  {
    Remainder(y + 400 * era, 4, y / 4 + 100 * era, y % 4);
    Remainder(y + 400 * era, 100, y / 100 + 4 * era, y % 100);
    Remainder(y + 400 * era, 400, y / 400 + era, y % 400);
  }

  lemma NoSmallMultiple(k: int, divisor: nat)
    requires k != 0
    ensures k * divisor >= divisor || k * divisor + divisor <= 0
  {
    if k > 0 {
      assert (k - 1) * divisor >= 0;
    } else {
      assert (-k - 1) * divisor >= 0;
    }
  }

  lemma Remainder(n: nat, divisor: nat, q: nat, r: nat)
    requires r < divisor && n == q * divisor + r
    ensures n % divisor == r && n / divisor == q
  {
    var k := n / divisor;
    assert (k - q) * divisor == r - n % divisor;
    if k != q {
      NoSmallMultiple(k - q, divisor);
    }
  }

  /** Where a day lies, given away in parts: the arithmetic finds just these. */
  lemma CivilFromParts(days: nat, era: nat, yoe: nat, doy: nat)
    requires LiesAt(days, era, yoe, doy)
    ensures doy <= 365 && Civil(days) == FromParts(era, yoe, doy)
  {
    LastYearEnds(yoe);
    Remainder(days + 719_468, 146_097, era, YearStart(yoe) + doy);
    YearIsOne(YearStart(yoe) + doy, yoe);
  }

  lemma PartsOf(days: nat) returns (era: nat, yoe: nat, doy: nat)
    ensures LiesAt(days, era, yoe, doy)
  {
    var z := days + 719_468;
    YearHoldsDay(z % 146_097);
    era, yoe := z / 146_097, YearOfEra(z % 146_097);
    doy := z % 146_097 - YearStart(yoe);
  }

  predicate LiesAt(days: nat, era: nat, yoe: nat, doy: nat) {
    yoe < 400 && doy < YearLength(yoe) && days + 719_468 == 146_097 * era + YearStart(yoe) + doy
  }

  lemma NextDayInParts(days: nat, era: nat, yoe: nat, doy: nat, era': nat, yoe': nat, doy': nat)
    requires LiesAt(days, era, yoe, doy) && LiesAt(days + 1, era', yoe', doy')
    requires FromParts(era', yoe', doy') == NextDay(FromParts(era, yoe, doy))
    ensures Civil(days + 1) == NextDay(Civil(days))
  {
    CivilFromParts(days, era, yoe, doy);
    CivilFromParts(days + 1, era', yoe', doy');
  }

  lemma CivilTakesTheNextDay(days: nat)
    ensures Civil(days + 1) == NextDay(Civil(days))
  {
    var era, yoe, doy := PartsOf(days);
    if doy + 1 < YearLength(yoe) {
      NextInYear(era, yoe, doy);
      NextDayInParts(days, era, yoe, doy, era, yoe, doy + 1);
    } else if yoe < 399 {
      YearsFollow(yoe);
      NextAcrossYears(era, yoe, era, yoe + 1);
      NextDayInParts(days, era, yoe, doy, era, yoe + 1, 0);
    } else {
      LastYearEnds(yoe);
      NextAcrossYears(era, yoe, era + 1, 0);
      NextDayInParts(days, era, yoe, doy, era + 1, 0, 0);
    }
  }

  lemma LastYearEnds(yoe: nat)
    requires yoe < 400
    ensures YearStart(yoe) + YearLength(yoe) <= 146_097
    ensures yoe == 399 ==> YearStart(yoe) + YearLength(yoe) == 146_097
  {
    YearStartByParts(3, 24, 3);
    if yoe < 399 {
      YearsRise(yoe, 399);
    }
  }

  /** For every day there is: the date the arithmetic gives is the one the calendar has come to. */
  lemma {:induction false} CivilIsTheCalendar(days: nat)
    ensures Civil(days) == DayAfterEpoch(days)
  {
    if days == 0 {
      CivilAtTheEpoch();
    } else {
      var before := days - 1;
      CivilIsTheCalendar(before);
      CivilTakesTheNextDay(before);
      assert DayAfterEpoch(days) == NextDay(DayAfterEpoch(before));
      assert before + 1 == days;
    }
  }

  lemma CivilAtTheEpoch()
    ensures Civil(0) == Date(1970, 1, 1)
  {
    YearStartByParts(3, 17, 1);
    CivilFromParts(0, 4, 369, 306);
    DateInMonth(4, 369, 306, 10);
  }

  lemma {:induction false} EveryDayIsADate(days: nat)
    ensures IsDate(DayAfterEpoch(days))
  {
    if days > 0 {
      EveryDayIsADate(days - 1);
    }
  }

  lemma {:induction false} LaterDaysHaveLaterDates(a: nat, b: nat)
    requires a < b
    ensures Earlier(DayAfterEpoch(a), DayAfterEpoch(b))
    decreases b
  {
    EveryDayIsADate(b - 1);
    if a < b - 1 {
      LaterDaysHaveLaterDates(a, b - 1);
    }
  }

  /** Dates go up as the days do: one of each, and none for two. */
  lemma CivilKeepsOrder(a: nat, b: nat)
    ensures IsDate(Civil(a))
    ensures a < b <==> Earlier(Civil(a), Civil(b))
    ensures a == b <==> Civil(a) == Civil(b)
  {
    CivilIsTheCalendar(a);
    CivilIsTheCalendar(b);
    EveryDayIsADate(a);
    if a < b {
      LaterDaysHaveLaterDates(a, b);
    } else if b < a {
      LaterDaysHaveLaterDates(b, a);
    }
  }
}
