/**
  Moments as text, and the order of that text: what a directory of backups is
  sorted by.
 */
module Stamps {
  import opened Calendar

  const DAY_MS := 86_400_000
  const YEAR_10000_MS := 253_402_300_800_000

  // ---- Text ----

  /** How the source compares strings: by their first difference, and a prefix first. */
  predicate Before(a: string, b: string) {
    b != [] && (a == [] || a[0] < b[0] || (a[0] == b[0] && Before(a[1..], b[1..])))
  }

  function Digit(n: nat): char
    requires n < 10
  {
    ('0' as int + n) as char
  }

  function Decimal(n: nat): string {
    if n < 10 then [Digit(n)] else Decimal(n / 10) + [Digit(n % 10)]
  }

  function Padded(n: nat, width: nat): string {
    var text := Decimal(n);
    if |text| < width then Zeros(width - |text|) + text else text
  }

  function Zeros(count: nat): string {
    seq(count, _ => '0')
  }

  predicate IsDigit(c: char) { '0' <= c <= '9' }

  predicate AllDigits(s: string) {
    forall i :: 0 <= i < |s| ==> IsDigit(s[i])
  }

  /** What a text of digits reads as. */
  function Number(s: string): nat
    requires AllDigits(s)
  {
    if s == [] then 0 else 10 * Number(s[..|s| - 1]) + (s[|s| - 1] as int - '0' as int)
  }

  function DateText(x: Date): string {
    Padded(x.y, 4) + ("-" + (Padded(x.m, 2) + ("-" + Padded(x.d, 2))))
  }

  /** `YYYY-MM-DD-HHMMSS`. */
  function Stamp(ms: nat): string {
    DateText(Civil(ms / DAY_MS)) + ("-" + Clock(ms / 1000 % 86_400))
  }

  function Clock(seconds: nat): string {
    ClockText(seconds / 3600, seconds / 60 % 60, seconds % 60)
  }

  function ClockText(hours: nat, minutes: nat, seconds: nat): string {
    Padded(hours, 2) + (Padded(minutes, 2) + Padded(seconds, 2))
  }

  // ---- The order of text ----

  lemma {:induction false} BeforeIsAnOrder(a: string, b: string)
    ensures !(Before(a, b) && Before(b, a))
    ensures Before(a, b) || Before(b, a) || a == b
    ensures !Before(a, a)
  {
    if a != [] && b != [] {
      BeforeIsAnOrder(a[1..], b[1..]);
      if a[0] == b[0] && a[1..] == b[1..] {
        assert a == [a[0]] + a[1..];
        assert b == [b[0]] + b[1..];
      }
    }
    if a != [] {
      BeforeIsAnOrder(a[1..], a[1..]);
    }
  }

  lemma {:induction false} BeforeGoesOn(a: string, b: string, c: string)
    requires !Before(b, a) && !Before(c, b)
    ensures !Before(c, a)
  {
    if a != [] && b != [] && c != [] && a[0] == b[0] == c[0] {
      BeforeGoesOn(a[1..], b[1..], c[1..]);
    }
  }

  lemma {:induction false} BeforeByParts(a: string, b: string, restA: string, restB: string)
    requires |a| == |b|
    ensures Before(a + restA, b + restB) <==> Before(a, b) || (a == b && Before(restA, restB))
  {
    if a == [] {
      assert a + restA == restA && b + restB == restB;
    } else {
      assert (a + restA)[1..] == a[1..] + restA;
      assert (b + restB)[1..] == b[1..] + restB;
      BeforeByParts(a[1..], b[1..], restA, restB);
      assert a[0] == b[0] && a[1..] == b[1..] ==> a == [a[0]] + a[1..] == b;
    }
  }

  // ---- Numbers of a fixed width ----

  function Power(width: nat): nat {
    if width == 0 then 1 else 10 * Power(width - 1)
  }

  /** The last `width` digits. */
  function Fixed(n: nat, width: nat): (text: string)
    ensures |text| == width
  {
    if width == 0 then "" else Fixed(n / 10, width - 1) + [Digit(n % 10)]
  }

  lemma {:induction false} FixedZero(width: nat)
    ensures Fixed(0, width) == Zeros(width)
  {
    if width > 0 {
      FixedZero(width - 1);
      assert Zeros(width - 1) + ['0'] == Zeros(width);
    }
  }

  lemma {:induction false} PaddedIsFixed(n: nat, width: nat)
    requires width > 0 && n < Power(width)
    ensures Padded(n, width) == Fixed(n, width) && |Decimal(n)| <= width
  {
    if n < 10 {
      FixedZero(width - 1);
      assert n / 10 == 0;
    } else {
      PaddedIsFixed(n / 10, width - 1);
      var text := Decimal(n / 10);
      assert Padded(n / 10, width - 1) == Zeros(width - 1 - |text|) + text;
      assert Zeros(width - 1 - |text|) + (text + [Digit(n % 10)])
          == (Zeros(width - 1 - |text|) + text) + [Digit(n % 10)];
    }
  }

  lemma {:induction false} FixedKeepsOrder(a: nat, b: nat, width: nat)
    requires a < Power(width) && b < Power(width)
    ensures Before(Fixed(a, width), Fixed(b, width)) <==> a < b
    ensures Fixed(a, width) == Fixed(b, width) <==> a == b
  {
    if width > 0 {
      FixedKeepsOrder(a / 10, b / 10, width - 1);
      var headA, headB := Fixed(a / 10, width - 1), Fixed(b / 10, width - 1);
      BeforeByParts(headA, headB, [Digit(a % 10)], [Digit(b % 10)]);
      assert Before([Digit(a % 10)], [Digit(b % 10)]) <==> a % 10 < b % 10;
      SameByParts(headA, headB, [Digit(a % 10)], [Digit(b % 10)]);
    }
  }

  lemma SameByParts(a: string, b: string, restA: string, restB: string)
    requires |a| == |b|
    ensures a + restA == b + restB <==> a == b && restA == restB
  {
    if a + restA == b + restB {
      assert a == (a + restA)[..|a|] == b;
      assert restA == (a + restA)[|a|..] == restB;
    }
  }

  /** A number written to its width decides, and what follows decides between equals. */
  lemma FieldDecides(a: nat, b: nat, width: nat, restA: string, restB: string)
    requires width > 0 && a < Power(width) && b < Power(width)
    ensures Before(Padded(a, width) + restA, Padded(b, width) + restB) <==> a < b || (a == b && Before(restA, restB))
    ensures Padded(a, width) + restA == Padded(b, width) + restB <==> a == b && restA == restB
  {
    PaddedIsFixed(a, width);
    PaddedIsFixed(b, width);
    FixedKeepsOrder(a, b, width);
    BeforeByParts(Padded(a, width), Padded(b, width), restA, restB);
    SameByParts(Padded(a, width), Padded(b, width), restA, restB);
  }

  lemma DashDecidesNothing(restA: string, restB: string)
    ensures Before("-" + restA, "-" + restB) <==> Before(restA, restB)
    ensures "-" + restA == "-" + restB <==> restA == restB
  {
    BeforeByParts("-", "-", restA, restB);
    SameByParts("-", "-", restA, restB);
  }

  lemma Powers()
    ensures Power(1) == 10 && Power(2) == 100 && Power(4) == 10_000
  {
    assert Power(3) == 1000;
  }

  // ---- Dates and times ----

  lemma DateDecides(a: Date, b: Date, restA: string, restB: string)
    requires IsDate(a) && IsDate(b) && a.y < 10_000 && b.y < 10_000
    ensures Before(DateText(a) + restA, DateText(b) + restB) <==> Earlier(a, b) || (a == b && Before(restA, restB))
    ensures DateText(a) + restA == DateText(b) + restB <==> a == b && restA == restB
  {
    Powers();
    var dayA, dayB := Padded(a.d, 2) + restA, Padded(b.d, 2) + restB;
    FieldDecides(a.d, b.d, 2, restA, restB);
    DashDecidesNothing(dayA, dayB);
    var monthA, monthB := Padded(a.m, 2) + ("-" + dayA), Padded(b.m, 2) + ("-" + dayB);
    FieldDecides(a.m, b.m, 2, "-" + dayA, "-" + dayB);
    DashDecidesNothing(monthA, monthB);
    FieldDecides(a.y, b.y, 4, "-" + monthA, "-" + monthB);
    DateTextEndsWith(a, restA);
    DateTextEndsWith(b, restB);
  }

  lemma DateTextEndsWith(x: Date, rest: string)
    ensures DateText(x) + rest == Padded(x.y, 4) + ("-" + (Padded(x.m, 2) + ("-" + (Padded(x.d, 2) + rest))))
  {
    var d := Padded(x.d, 2);
    assert ("-" + d) + rest == "-" + (d + rest);
    var md := Padded(x.m, 2) + ("-" + d);
    assert md + rest == Padded(x.m, 2) + ("-" + (d + rest));
    assert ("-" + md) + rest == "-" + (md + rest);
    assert DateText(x) + rest == Padded(x.y, 4) + (("-" + md) + rest);
  }

  lemma ClockTextDecides(h: nat, m: nat, s: nat, h': nat, m': nat, s': nat)
    requires h < 24 && m < 60 && s < 60 && h' < 24 && m' < 60 && s' < 60
    ensures Before(ClockText(h, m, s), ClockText(h', m', s')) <==>
      h < h' || (h == h' && (m < m' || (m == m' && s < s')))
    ensures ClockText(h, m, s) == ClockText(h', m', s') <==> h == h' && m == m' && s == s'
  {
    Powers();
    SecondKeepsOrder(s, s');
    FieldDecides(m, m', 2, Padded(s, 2), Padded(s', 2));
    FieldDecides(h, h', 2, Padded(m, 2) + Padded(s, 2), Padded(m', 2) + Padded(s', 2));
  }

  lemma ClockParts(seconds: nat)
    requires seconds < 86_400
    ensures seconds == 3600 * (seconds / 3600) + 60 * (seconds / 60 % 60) + seconds % 60
    ensures seconds / 3600 < 24
  {
    assert seconds / 60 / 60 == seconds / 3600;
  }

  lemma ClockKeepsOrder(a: nat, b: nat)
    requires a < 86_400 && b < 86_400
    ensures Before(Clock(a), Clock(b)) <==> a < b
    ensures Clock(a) == Clock(b) <==> a == b
  {
    ClockParts(a);
    ClockParts(b);
    ClockTextDecides(a / 3600, a / 60 % 60, a % 60, b / 3600, b / 60 % 60, b % 60);
  }

  lemma SecondKeepsOrder(a: nat, b: nat)
    requires a < 60 && b < 60
    ensures Before(Padded(a, 2), Padded(b, 2)) <==> a < b
    ensures Padded(a, 2) == Padded(b, 2) <==> a == b
  {
    Powers();
    FieldDecides(a, b, 2, "", "");
    assert Padded(a, 2) + "" == Padded(a, 2) && Padded(b, 2) + "" == Padded(b, 2);
  }

  /** The year runs to four digits until the year 10000, and not a day longer. */
  lemma FourDigitYears(days: nat)
    ensures days < YEAR_10000_MS / DAY_MS <==> Civil(days).y < 10_000
  {
    var last := YEAR_10000_MS / DAY_MS;
    NewYear10000();
    CivilKeepsOrder(days, last);
    CivilKeepsOrder(last, days);
  }

  lemma NewYear10000()
    ensures Civil(YEAR_10000_MS / DAY_MS) == Date(10_000, 1, 1)
    ensures Civil(YEAR_10000_MS / DAY_MS - 1) == Date(9999, 12, 31)
  {
    YearStartByParts(3, 24, 3);
    CivilFromParts(YEAR_10000_MS / DAY_MS, 24, 399, 306);
    DateInMonth(24, 399, 306, 10);
    CivilFromParts(YEAR_10000_MS / DAY_MS - 1, 24, 399, 305);
    DateInMonth(24, 399, 305, 9);
  }

  lemma SecondsOfMoment(ms: nat)
    ensures ms / 1000 == 86_400 * (ms / DAY_MS) + ms / 1000 % 86_400
  {
    assert ms / 1000 / 86_400 == ms / DAY_MS;
  }

  // ---- Reading a stamp back ----

  lemma {:induction false} FixedIsRead(n: nat, width: nat)
    requires n < Power(width)
    ensures AllDigits(Fixed(n, width)) && Number(Fixed(n, width)) == n
  {
    if width > 0 {
      var text := Fixed(n, width);
      FixedIsRead(n / 10, width - 1);
      assert text[..width - 1] == Fixed(n / 10, width - 1) && text[width - 1] == Digit(n % 10);
    }
  }

  lemma FieldIsRead(n: nat, width: nat)
    requires width > 0 && n < Power(width)
    ensures |Padded(n, width)| == width && AllDigits(Padded(n, width)) && Number(Padded(n, width)) == n
  {
    PaddedIsFixed(n, width);
    FixedIsRead(n, width);
  }

  /** A part of a text that reads as this number. */
  predicate ReadsAs(text: string, from: nat, to: nat, n: nat) {
    from <= to <= |text| && AllDigits(text[from..to]) && Number(text[from..to]) == n
  }

  lemma DateIsRead(x: Date, rest: string)
    requires IsDate(x) && x.y < 10_000
    ensures
      var text := DateText(x) + rest;
      && |text| == 10 + |rest| && text[4] == text[7] == '-' && text[10..] == rest
      && ReadsAs(text, 0, 4, x.y) && ReadsAs(text, 5, 7, x.m) && ReadsAs(text, 8, 10, x.d)
  {
    Powers();
    FieldIsRead(x.y, 4);
    FieldIsRead(x.m, 2);
    FieldIsRead(x.d, 2);
    var text := DateText(x) + rest;
    assert text[0..4] == Padded(x.y, 4) && text[5..7] == Padded(x.m, 2) && text[8..10] == Padded(x.d, 2);
  }

  lemma ClockIsRead(hours: nat, minutes: nat, seconds: nat)
    requires hours < 24 && minutes < 60 && seconds < 60
    ensures
      var text := ClockText(hours, minutes, seconds);
      |text| == 6 && ReadsAs(text, 0, 2, hours) && ReadsAs(text, 2, 4, minutes) && ReadsAs(text, 4, 6, seconds)
  {
    Powers();
    FieldIsRead(hours, 2);
    FieldIsRead(minutes, 2);
    FieldIsRead(seconds, 2);
    var text := ClockText(hours, minutes, seconds);
    assert text[0..2] == Padded(hours, 2) && text[2..4] == Padded(minutes, 2) && text[4..6] == Padded(seconds, 2);
  }

  lemma PartsAreRead(x: Date, h: nat, m: nat, s: nat)
    requires IsDate(x) && x.y < 10_000 && h < 24 && m < 60 && s < 60
    ensures
      var text := DateText(x) + ("-" + ClockText(h, m, s));
      && |text| == 17 && text[4] == text[7] == text[10] == '-'
      && ReadsAs(text, 0, 4, x.y) && ReadsAs(text, 5, 7, x.m) && ReadsAs(text, 8, 10, x.d)
      && ReadsAs(text, 11, 13, h) && ReadsAs(text, 13, 15, m) && ReadsAs(text, 15, 17, s)
  {
    var clock := ClockText(h, m, s);
    DateIsRead(x, "-" + clock);
    ClockIsRead(h, m, s);
    var text := DateText(x) + ("-" + clock);
    assert text[10..] == "-" + clock;
    assert text[11..13] == clock[0..2] && text[13..15] == clock[2..4] && text[15..17] == clock[4..6];
  }

  /**
    Before the year 10000 a stamp is seventeen characters, dashes at three
    fixed places, and reads back as the date of its day and as hours, minutes
    and seconds that add up to the second of the day.
   */
  lemma StampIsRead(ms: nat)
    requires ms < 253_402_300_800_000
    ensures
      var text, day := Stamp(ms), ms / 86_400_000;
      && |text| == 17 && text[4] == text[7] == text[10] == '-'
      && ReadsAs(text, 0, 4, DayAfterEpoch(day).y) && ReadsAs(text, 5, 7, DayAfterEpoch(day).m)
      && ReadsAs(text, 8, 10, DayAfterEpoch(day).d)
      && exists h: nat, m: nat, s: nat ::
           && ReadsAs(text, 11, 13, h) && ReadsAs(text, 13, 15, m) && ReadsAs(text, 15, 17, s)
           && h < 24 && m < 60 && s < 60 && 3600 * h + 60 * m + s == ms / 1000 % 86_400
  {
    var day, second := ms / DAY_MS, ms / 1000 % 86_400;
    var h, m, s := second / 3600, second / 60 % 60, second % 60;
    CivilIsTheCalendar(day);
    CivilKeepsOrder(day, day);
    FourDigitYears(day);
    ClockParts(second);
    PartsAreRead(Civil(day), h, m, s);
    assert ReadsAs(Stamp(ms), 11, 13, h) && ReadsAs(Stamp(ms), 13, 15, m) && ReadsAs(Stamp(ms), 15, 17, s);
  }

  /** Before the year 10000 a stamp sorts as its second does, and two are the same only within one second. */
  lemma StampKeepsOrder(a: nat, b: nat)
    requires a < YEAR_10000_MS && b < YEAR_10000_MS
    ensures Before(Stamp(a), Stamp(b)) <==> a / 1000 < b / 1000
    ensures Stamp(a) == Stamp(b) <==> a / 1000 == b / 1000
  {
    var dayA, dayB := a / DAY_MS, b / DAY_MS;
    var secondsA, secondsB := a / 1000 % 86_400, b / 1000 % 86_400;
    SecondsOfMoment(a);
    SecondsOfMoment(b);
    FourDigitYears(dayA);
    FourDigitYears(dayB);
    CivilKeepsOrder(dayA, dayB);
    CivilKeepsOrder(dayB, dayA);
    ClockKeepsOrder(secondsA, secondsB);
    DashDecidesNothing(Clock(secondsA), Clock(secondsB));
    DateDecides(Civil(dayA), Civil(dayB), "-" + Clock(secondsA), "-" + Clock(secondsB));
  }

  predicate SortsAsTime(a: nat, b: nat) {
    Before(Stamp(a), Stamp(b)) <==> a / 1000 < b / 1000
  }

  ghost predicate StampsSortBelow(limit: nat) {
    forall a: nat, b: nat {:trigger SortsAsTime(a, b)} :: a < limit && b < limit ==> SortsAsTime(a, b)
  }

  /** The stamps of all moments up to some limit sort as the moments do just when that is not past the year 9999. */
  lemma StampsSortUntilYear10000(limit: nat)
    ensures StampsSortBelow(limit) <==> limit <= YEAR_10000_MS
  {
    if limit <= YEAR_10000_MS {
      forall a: nat, b: nat {:trigger SortsAsTime(a, b)} | a < limit && b < limit
        ensures SortsAsTime(a, b)
      {
        StampKeepsOrder(a, b);
      }
    } else {
      Year10000SortsFirst();
      assert !SortsAsTime(YEAR_10000_MS, YEAR_10000_MS - 1);
    }
  }

  /** The first stamp of the year 10000 sorts before the last of the year before. */
  lemma Year10000SortsFirst()
    ensures Before(Stamp(YEAR_10000_MS), Stamp(YEAR_10000_MS - 1))
    ensures !SortsAsTime(YEAR_10000_MS, YEAR_10000_MS - 1)
  {
    NewYear10000();
    DecimalOf10000();
    StampsByYears(YEAR_10000_MS, YEAR_10000_MS / DAY_MS, YEAR_10000_MS - 1, YEAR_10000_MS / DAY_MS - 1);
  }

  /** Whatever the year: if its first digit is the smaller, the stamp sorts first. */
  lemma StampsByYears(a: nat, dayA: nat, b: nat, dayB: nat)
    requires dayA == a / DAY_MS && dayB == b / DAY_MS
    requires Padded(Civil(dayA).y, 4) != [] && Padded(Civil(dayB).y, 4) != []
    requires Padded(Civil(dayA).y, 4)[0] < Padded(Civil(dayB).y, 4)[0]
    ensures Before(Stamp(a), Stamp(b))
  {
    StampBegins(a, Civil(dayA));
    StampBegins(b, Civil(dayB));
  }

  lemma StampBegins(ms: nat, x: Date)
    requires x == Civil(ms / DAY_MS) && Padded(x.y, 4) != []
    ensures Stamp(ms) != [] && Stamp(ms)[0] == Padded(x.y, 4)[0]
  {
    DateTextEndsWith(x, "-" + Clock(ms / 1000 % 86_400));
  }

  lemma DecimalOf10000()
    ensures Padded(10_000, 4) == "10000" && Padded(9999, 4) == "9999"
  {
    assert Decimal(10) == "10" && Decimal(100) == "100" && Decimal(1000) == "1000" && Decimal(10_000) == "10000";
    assert Decimal(99) == "99" && Decimal(999) == "999" && Decimal(9999) == "9999";
  }
}
