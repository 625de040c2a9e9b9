/**
 * Times in milliseconds and their ISO text: the civil calendar of sections 21.4.1.3 to 21.4.1.5,
 * 21.4.1.32 and 21.4.4.36 of ECMA-262 (2024), on the range of years 0001 to 9999 the job stores accept.
 */
module Calendar {
  import opened Wrappers
  import opened Texts

  const MS_PER_DAY: int := 86_400_000

  const EARLIEST: int := -62_135_596_800_000

  const LATEST: int := 253_402_300_799_999

  predicate InRange(t: int) {
    EARLIEST <= t <= LATEST
  }

  // ---- years ----

  function DayFromYear(y: int): int {
    365 * (y - 1970) + (y - 1969) / 4 - (y - 1901) / 100 + (y - 1601) / 400
  }

  predicate Leap(y: int) {
    (y % 4 == 0 && y % 100 != 0) || y % 400 == 0
  }

  function DaysInYear(y: int): int {
    if Leap(y) then 366 else 365
  }

  lemma EveryFour(y: int)
    ensures (y - 1968) / 4 == (y - 1969) / 4 + if y % 4 == 0 then 1 else 0
  {
  }

  lemma EveryHundred(y: int)
    ensures (y - 1900) / 100 == (y - 1901) / 100 + if y % 100 == 0 then 1 else 0
  {
  }

  lemma EveryFourHundred(y: int)
    ensures (y - 1600) / 400 == (y - 1601) / 400 + if y % 400 == 0 then 1 else 0
  {
  }

  lemma Multiples(y: int)
    ensures y % 400 == 0 ==> y % 100 == 0
    ensures y % 100 == 0 ==> y % 4 == 0
  {
  }

  lemma LeapSteps(y: int)
    ensures DaysInYear(y) == 365 + (if y % 4 == 0 then 1 else 0) - (if y % 100 == 0 then 1 else 0)
            + (if y % 400 == 0 then 1 else 0)
    ensures (y - 1968) / 4 == (y - 1969) / 4 + if y % 4 == 0 then 1 else 0
    ensures (y - 1900) / 100 == (y - 1901) / 100 + if y % 100 == 0 then 1 else 0
    ensures (y - 1600) / 400 == (y - 1601) / 400 + if y % 400 == 0 then 1 else 0
  {
    EveryFour(y);
    EveryHundred(y);
    EveryFourHundred(y);
    Multiples(y);
  }

  lemma YearLength(y: int)
    ensures DayFromYear(y + 1) == DayFromYear(y) + DaysInYear(y)
  {
    hide Leap;
    LeapSteps(y);
  }

  lemma {:induction false} YearsAscend(y: int, z: int)
    requires y < z
    ensures DayFromYear(y) + DaysInYear(y) <= DayFromYear(z)
    decreases z - y
  {
    YearLength(y);
    if y + 1 < z {
      YearsAscend(y + 1, z);
    }
  }

  /** The largest year that starts no later than the day, searched upwards. */
  function YearFrom(day: int, y: int): (r: int)
    requires DayFromYear(y) <= day
    ensures y <= r && DayFromYear(r) <= day < DayFromYear(r) + DaysInYear(r)
    decreases day - DayFromYear(y)
  {
    YearLength(y);
    if DayFromYear(y + 1) <= day then YearFrom(day, y + 1) else y
  }

  // ---- months ----

  /** Days of the year before a month, months counted from 0; month 12 is the end of the year. */
  function DaysBefore(month: int, leap: bool): int
    requires 0 <= month <= 12
  {
    [0, 31, 59, 90, 120, 151, 181, 212, 243, 273, 304, 334, 365][month] + if leap && month >= 2 then 1 else 0
  }

  function MonthFrom(dayInYear: int, leap: bool, month: int): (r: int)
    requires 0 <= month < 12 && DaysBefore(month, leap) <= dayInYear < DaysBefore(12, leap)
    ensures month <= r < 12 && DaysBefore(r, leap) <= dayInYear < DaysBefore(r + 1, leap)
    decreases 12 - month
  {
    if DaysBefore(month + 1, leap) <= dayInYear then MonthFrom(dayInYear, leap, month + 1) else month
  }

  lemma MonthsAscend(m: int, n: int, leap: bool)
    requires 0 <= m < n <= 12
    ensures DaysBefore(m + 1, leap) <= DaysBefore(n, leap)
  {
  }

  // ---- a time as civil fields ----

  datatype Civil = Civil(year: int, month: int, date: int, hour: int, minute: int, second: int, milli: int)

  predicate Proper(c: Civil) {
    && 1 <= c.year <= 9999 && 1 <= c.month <= 12
    && 1 <= c.date <= DaysBefore(c.month, Leap(c.year)) - DaysBefore(c.month - 1, Leap(c.year))
    && 0 <= c.hour < 24 && 0 <= c.minute < 60 && 0 <= c.second < 60 && 0 <= c.milli < 1000
  }

  function DayOf(c: Civil): int
    requires Proper(c)
  {
    DayFromYear(c.year) + DaysBefore(c.month - 1, Leap(c.year)) + c.date - 1
  }

  function InDay(c: Civil): int {
    c.hour * 3_600_000 + c.minute * 60_000 + c.second * 1_000 + c.milli
  }

  function TimeOf(c: Civil): int
    requires Proper(c)
  {
    DayOf(c) * MS_PER_DAY + InDay(c)
  }

  lemma YearBounds(day: int)
    requires DayFromYear(1) <= day < DayFromYear(10000)
    ensures 1 <= YearFrom(day, 1) <= 9999
  {
    var y := YearFrom(day, 1);
    if y > 9999 && y != 10000 {
      YearsAscend(10000, y);
    }
  }

  lemma RangeIsYears(t: int)
    requires InRange(t)
    ensures DayFromYear(1) <= t / MS_PER_DAY < DayFromYear(10000)
  {
    assert DayFromYear(1) == -719162 && DayFromYear(10000) == 2932897;
    assert EARLIEST == -719162 * MS_PER_DAY && LATEST + 1 == 2932897 * MS_PER_DAY;
  }

  function CivilOf(t: int): (c: Civil)
    requires InRange(t)
    ensures Proper(c)
  {
    RangeIsYears(t);
    var day, ms := t / MS_PER_DAY, t % MS_PER_DAY;
    YearBounds(day);
    var year := YearFrom(day, 1);
    var dayInYear := day - DayFromYear(year);
    var month := MonthFrom(dayInYear, Leap(year), 0);
    Civil(year, month + 1, dayInYear - DaysBefore(month, Leap(year)) + 1,
          ms / 3_600_000, ms / 60_000 % 60, ms / 1_000 % 60, ms % 1_000)
  }

  lemma InDayRoundTrip(ms: int)
    requires 0 <= ms < MS_PER_DAY
    ensures ms / 3_600_000 * 3_600_000 + ms / 60_000 % 60 * 60_000 + ms / 1_000 % 60 * 1_000 + ms % 1_000 == ms
  {
    assert ms / 1_000 / 60 == ms / 60_000;
    assert ms / 60_000 / 60 == ms / 3_600_000;
  }

  /** The civil fields determine the time they were taken from. */
  lemma CivilRoundTrip(t: int)
    requires InRange(t)
    ensures TimeOf(CivilOf(t)) == t
  {
    InDayRoundTrip(t % MS_PER_DAY);
  }

  // ---- order of civil fields ----

  predicate DateBefore(a: Civil, b: Civil) {
    a.year < b.year || (a.year == b.year && (a.month < b.month || (a.month == b.month && a.date < b.date)))
  }

  predicate SameDate(a: Civil, b: Civil) {
    a.year == b.year && a.month == b.month && a.date == b.date
  }

  predicate Earlier(a: Civil, b: Civil) {
    || DateBefore(a, b)
    || (SameDate(a, b)
        && (|| a.hour < b.hour
            || (a.hour == b.hour && (|| a.minute < b.minute
                || (a.minute == b.minute && (a.second < b.second || (a.second == b.second && a.milli < b.milli)))))))
  }

  lemma EndOfYear(a: Civil)
    requires Proper(a)
    ensures DayOf(a) < DayFromYear(a.year) + DaysInYear(a.year)
  {
    if a.month < 12 {
      MonthsAscend(a.month - 1, 12, Leap(a.year));
    }
  }

  lemma DateBeforeMeansEarlierDay(a: Civil, b: Civil)
    requires Proper(a) && Proper(b) && DateBefore(a, b)
    ensures DayOf(a) < DayOf(b)
  {
    if a.year < b.year {
      YearsAscend(a.year, b.year);
      EndOfYear(a);
    } else if a.month < b.month {
      MonthsAscend(a.month - 1, b.month - 1, Leap(a.year));
    }
  }

  lemma EarlierMeansBefore(a: Civil, b: Civil)
    requires Proper(a) && Proper(b) && Earlier(a, b)
    ensures TimeOf(a) < TimeOf(b)
  {
    if DateBefore(a, b) {
      DateBeforeMeansEarlierDay(a, b);
    }
  }

  /** Fields compare, most significant first, exactly as the times they stand for. */
  lemma EarlierIffBefore(t: int, u: int)
    requires InRange(t) && InRange(u)
    ensures Earlier(CivilOf(t), CivilOf(u)) <==> t < u
  {
    var a, b := CivilOf(t), CivilOf(u);
    CivilRoundTrip(t);
    CivilRoundTrip(u);
    if Earlier(a, b) {
      EarlierMeansBefore(a, b);
    } else if Earlier(b, a) {
      EarlierMeansBefore(b, a);
    } else {
      assert a == b;
    }
  }

  // ---- ISO text ----

  function Digit(d: int): char
    requires 0 <= d < 10
  {
    ('0' as int + d) as char
  }

  function Pow10(width: nat): nat
  {
    if width == 0 then 1 else 10 * Pow10(width - 1)
  }

  function Pad(n: int, width: nat): (s: string)
    requires 0 <= n < Pow10(width)
    ensures |s| == width
  {
    if width == 0 then "" else Pad(n / 10, width - 1) + [Digit(n % 10)]
  }

  /** Zero-padded numbers of one width compare as numbers. */
  lemma {:induction false} PadOrders(m: int, n: int, width: nat)
    requires 0 <= m < Pow10(width) && 0 <= n < Pow10(width)
    ensures Less(Pad(m, width), Pad(n, width)) <==> m < n
    ensures Pad(m, width) == Pad(n, width) <==> m == n
  {
    if width > 0 {
      PadOrders(m / 10, n / 10, width - 1);
      LessConcat(Pad(m / 10, width - 1), Pad(n / 10, width - 1), [Digit(m % 10)], [Digit(n % 10)]);
      assert Less([Digit(m % 10)], [Digit(n % 10)]) <==> m % 10 < n % 10;
      if Pad(m, width) == Pad(n, width) {
        assert Pad(m, width)[..width - 1] == Pad(m / 10, width - 1)
          && Pad(n, width)[..width - 1] == Pad(n / 10, width - 1);
        assert Pad(m, width)[width - 1] == Digit(m % 10) && Pad(n, width)[width - 1] == Digit(n % 10);
      }
    }
  }

  /** A zero-padded field, its separator, and what follows. */
  function Field(n: int, width: nat, separator: char, rest: string): string
    requires 0 <= n < Pow10(width)
  {
    Pad(n, width) + ([separator] + rest)
  }

  lemma FieldOrders(m: int, n: int, width: nat, separator: char, a: string, b: string)
    requires 0 <= m < Pow10(width) && 0 <= n < Pow10(width)
    ensures Less(Field(m, width, separator, a), Field(n, width, separator, b)) <==> m < n || (m == n && Less(a, b))
  {
    PadOrders(m, n, width);
    LessConcat(Pad(m, width), Pad(n, width), [separator] + a, [separator] + b);
    LessConcat([separator], [separator], a, b);
    Trichotomy([separator], [separator]);
  }

  lemma Widths()
    ensures Pow10(2) == 100 && Pow10(3) == 1000 && Pow10(4) == 10000
  {
    assert Pow10(1) == 10;
    assert Pow10(2) == 10 * Pow10(1);
    assert Pow10(3) == 10 * Pow10(2);
  }

  function ClockText(c: Civil): string
    requires Proper(c)
  {
    Widths();
    Field(c.hour, 2, ':', Field(c.minute, 2, ':', Field(c.second, 2, '.', Field(c.milli, 3, 'Z', ""))))
  }

  /** YYYY-MM-DDTHH:mm:ss.sssZ */
  function CivilText(c: Civil): string
    requires Proper(c)
  {
    Widths();
    Field(c.year, 4, '-', Field(c.month, 2, '-', Field(c.date, 2, 'T', ClockText(c))))
  }

  function Iso(t: int): string
    requires InRange(t)
  {
    CivilText(CivilOf(t))
  }

  lemma ClockOrders(a: Civil, b: Civil)
    requires Proper(a) && Proper(b)
    ensures Less(ClockText(a), ClockText(b)) <==>
              (|| a.hour < b.hour
               || (a.hour == b.hour && (|| a.minute < b.minute
                   || (a.minute == b.minute && (a.second < b.second || (a.second == b.second && a.milli < b.milli))))))
  {
    hide Field, Pad;
    Widths();
    var m, n := Field(a.milli, 3, 'Z', ""), Field(b.milli, 3, 'Z', "");
    FieldOrders(a.milli, b.milli, 3, 'Z', "", "");
    FieldOrders(a.second, b.second, 2, '.', m, n);
    FieldOrders(a.minute, b.minute, 2, ':', Field(a.second, 2, '.', m), Field(b.second, 2, '.', n));
    FieldOrders(a.hour, b.hour, 2, ':', Field(a.minute, 2, ':', Field(a.second, 2, '.', m)),
                Field(b.minute, 2, ':', Field(b.second, 2, '.', n)));
  }

  lemma CivilTextOrders(a: Civil, b: Civil)
    requires Proper(a) && Proper(b)
    ensures Less(CivilText(a), CivilText(b)) <==> Earlier(a, b)
  {
    hide Field, ClockText, Less, Pad;
    Widths();
    ClockOrders(a, b);
    FieldOrders(a.date, b.date, 2, 'T', ClockText(a), ClockText(b));
    FieldOrders(a.month, b.month, 2, '-', Field(a.date, 2, 'T', ClockText(a)), Field(b.date, 2, 'T', ClockText(b)));
    FieldOrders(a.year, b.year, 4, '-', Field(a.month, 2, '-', Field(a.date, 2, 'T', ClockText(a))),
                Field(b.month, 2, '-', Field(b.date, 2, 'T', ClockText(b))));
  }

  /** Comparing the stored text decides the order of the times, and equal text means equal times. */
  lemma IsoOrders(t: int, u: int)
    requires InRange(t) && InRange(u)
    ensures t <= u <==> AtMost(Iso(t), Iso(u))
    ensures t < u <==> Less(Iso(t), Iso(u))
    ensures t == u <==> Iso(t) == Iso(u)
  {
    CivilTextOrders(CivilOf(t), CivilOf(u));
    CivilTextOrders(CivilOf(u), CivilOf(t));
    EarlierIffBefore(t, u);
    EarlierIffBefore(u, t);
    Trichotomy(Iso(t), Iso(u));
  }

  // ---- reading the text back ----

  predicate AllDigits(s: string) {
    forall i | 0 <= i < |s| :: '0' <= s[i] <= '9'
  }

  function Number(s: string): int
    requires AllDigits(s)
  {
    if s == "" then 0 else 10 * Number(s[..|s| - 1]) + (s[|s| - 1] as int - '0' as int)
  }

  lemma {:induction false} NumberOfPad(n: int, width: nat)
    requires 0 <= n < Pow10(width)
    ensures AllDigits(Pad(n, width)) && Number(Pad(n, width)) == n
  {
    if width > 0 {
      NumberOfPad(n / 10, width - 1);
      var s := Pad(n, width);
      assert s[..width - 1] == Pad(n / 10, width - 1) && s[width - 1] == Digit(n % 10);
    }
  }

  /** Reads one field and its separator off the front of the text. */
  function ReadField(s: string, width: nat, separator: char): Option<(int, string)> {
    if |s| <= width || s[width] != separator || !AllDigits(s[..width]) then None
    else Some((Number(s[..width]), s[width + 1..]))
  }

  lemma ReadFieldBack(n: int, width: nat, separator: char, rest: string)
    requires 0 <= n < Pow10(width)
    ensures ReadField(Field(n, width, separator, rest), width, separator) == Some((n, rest))
  {
    NumberOfPad(n, width);
    var s := Field(n, width, separator, rest);
    assert s[..width] == Pad(n, width) && s[width] == separator && s[width + 1..] == rest;
  }

  function ReadClock(year: int, month: int, date: int, s: string): Option<int> {
    match ReadField(s, 2, ':') case None => None case Some((hour, s1)) =>
    match ReadField(s1, 2, ':') case None => None case Some((minute, s2)) =>
    match ReadField(s2, 2, '.') case None => None case Some((second, s3)) =>
    match ReadField(s3, 3, 'Z') case None => None case Some((milli, s4)) =>
      var c := Civil(year, month, date, hour, minute, second, milli);
      if s4 == "" && Proper(c) then Some(TimeOf(c)) else None
  }

  /** The time a stored text stands for. */
  function Parse(s: string): Option<int> {
    match ReadField(s, 4, '-') case None => None case Some((year, s1)) =>
    match ReadField(s1, 2, '-') case None => None case Some((month, s2)) =>
    match ReadField(s2, 2, 'T') case None => None case Some((date, s3)) =>
      ReadClock(year, month, date, s3)
  }

  lemma ReadClockBack(c: Civil)
    requires Proper(c)
    ensures ReadClock(c.year, c.month, c.date, ClockText(c)) == Some(TimeOf(c))
  {
    Widths();
    var milli := Field(c.milli, 3, 'Z', "");
    var second := Field(c.second, 2, '.', milli);
    ReadFieldBack(c.milli, 3, 'Z', "");
    ReadFieldBack(c.second, 2, '.', milli);
    ReadFieldBack(c.minute, 2, ':', second);
    ReadFieldBack(c.hour, 2, ':', Field(c.minute, 2, ':', second));
  }

  lemma ReadDateBack(c: Civil)
    requires Proper(c)
    ensures Parse(CivilText(c)) == ReadClock(c.year, c.month, c.date, ClockText(c))
  {
    Widths();
    var rest := ClockText(c);
    var date := Field(c.date, 2, 'T', rest);
    var month := Field(c.month, 2, '-', date);
    ReadFieldBack(c.date, 2, 'T', rest);
    ReadFieldBack(c.month, 2, '-', date);
    ReadFieldBack(c.year, 4, '-', month);
  }

  /** Decoding a stored timestamp gives back the time it was written from. */
  lemma ParseInvertsIso(t: int)
    requires InRange(t)
    ensures Parse(Iso(t)) == Some(t)
  {
    ReadDateBack(CivilOf(t));
    ReadClockBack(CivilOf(t));
    CivilRoundTrip(t);
  }

  // ---- the calendar itself ----

  /** The years divisible by 4, but of the hundreds only those divisible by 400. */
  ghost predicate HasLeapDay(year: int) {
    year % 4 == 0 && (year % 100 == 0 ==> year % 400 == 0)
  }

  ghost function MonthLength(year: int, month: int): int {
    if month == 2 then (if HasLeapDay(year) then 29 else 28)
    else if month in {4, 6, 9, 11} then 30
    else 31
  }

  /** The next date, at the same time of day. */
  ghost function DayAfter(c: Civil): Civil {
    if c.date < MonthLength(c.year, c.month) then c.(date := c.date + 1)
    else if c.month < 12 then c.(month := c.month + 1, date := 1)
    else c.(year := c.year + 1, month := 1, date := 1)
  }

  lemma MonthLengthIs(year: int, month: int)
    requires 1 <= month <= 12
    ensures DaysBefore(month, Leap(year)) - DaysBefore(month - 1, Leap(year)) == MonthLength(year, month)
  {
    Multiples(year);
  }

  /** Different fields stand for different times. */
  lemma FieldsAreUnique(a: Civil, b: Civil)
    requires Proper(a) && Proper(b) && TimeOf(a) == TimeOf(b)
    ensures a == b
  {
    hide TimeOf;
    if Earlier(a, b) {
      EarlierMeansBefore(a, b);
    } else if Earlier(b, a) {
      EarlierMeansBefore(b, a);
    }
  }

  lemma DayAfterIsNext(c: Civil)
    requires Proper(c) && (c.year < 9999 || c.month < 12 || c.date < 31)
    ensures Proper(DayAfter(c)) && TimeOf(DayAfter(c)) == TimeOf(c) + 86_400_000
  {
    MonthLengthIs(c.year, c.month);
    if c.date == MonthLength(c.year, c.month) {
      if c.month < 12 {
        MonthLengthIs(c.year, c.month + 1);
      } else {
        MonthLengthIs(c.year + 1, 1);
        YearLength(c.year);
      }
    }
  }

  lemma FirstDays()
    ensures DayFromYear(1) == -719_162 && DayFromYear(1970) == 0 && DayFromYear(9999) == 2_932_532
  {
  }

  lemma NewYearsDay(c: Civil)
    requires 1 <= c.year <= 9999 && c.month == 1 && c.date == 1
    requires c.hour == 0 && c.minute == 0 && c.second == 0 && c.milli == 0
    ensures Proper(c) && TimeOf(c) == DayFromYear(c.year) * MS_PER_DAY
  {
    hide DayFromYear;
    MonthLengthIs(c.year, 1);
  }

  lemma NewYearsEve(c: Civil)
    requires c.year == 9999 && c.month == 12 && c.date == 31
    ensures DaysBefore(12, Leap(c.year)) - DaysBefore(11, Leap(c.year)) == 31
    ensures Proper(c) ==> DayOf(c) == DayFromYear(9999) + 364
  {
    hide DayFromYear;
    MonthLengthIs(9999, 12);
  }

  lemma LastMoment(c: Civil)
    requires c == Civil(9999, 12, 31, 23, 59, 59, 999)
    ensures Proper(c) && TimeOf(c) == LATEST
  {
    hide DayFromYear, DaysBefore, Leap, DayOf;
    FirstDays();
    NewYearsEve(c);
  }

  /** The range accepted begins with the first millisecond of year 1 and ends with the last of year 9999. */
  lemma RangeEnds()
    ensures Proper(Civil(1, 1, 1, 0, 0, 0, 0)) && TimeOf(Civil(1, 1, 1, 0, 0, 0, 0)) == EARLIEST
    ensures Proper(Civil(9999, 12, 31, 23, 59, 59, 999)) && TimeOf(Civil(9999, 12, 31, 23, 59, 59, 999)) == LATEST
  {
    hide Proper, TimeOf;
    FirstDays();
    NewYearsDay(Civil(1, 1, 1, 0, 0, 0, 0));
    LastMoment(Civil(9999, 12, 31, 23, 59, 59, 999));
  }

  lemma NothingAfterLastDay(c: Civil)
    requires Proper(c) && c.year == 9999 && c.month == 12 && c.date == 31
    ensures TimeOf(c) + 86_400_000 > LATEST
  {
    hide DayFromYear, DaysBefore, Leap, DayOf;
    FirstDays();
    NewYearsEve(c);
  }

  lemma LastDay(t: int)
    requires InRange(t) && InRange(t + 86_400_000)
    ensures var c := CivilOf(t); c.year < 9999 || c.month < 12 || c.date < 31
  {
    var c := CivilOf(t);
    CivilRoundTrip(t);
    if c.year == 9999 && c.month == 12 && c.date >= 31 {
      MonthLengthIs(9999, 12);
      NothingAfterLastDay(c);
    }
  }

  /** A day later the date is the next one of the calendar, at the same time of day. */
  lemma DaysFollow(t: int)
    requires InRange(t) && InRange(t + 86_400_000)
    ensures CivilOf(t + 86_400_000) == DayAfter(CivilOf(t))
  {
    LastDay(t);
    DayAfterIsNext(CivilOf(t));
    CivilRoundTrip(t);
    CivilRoundTrip(t + 86_400_000);
    FieldsAreUnique(CivilOf(t + 86_400_000), DayAfter(CivilOf(t)));
  }

  /** The time of day is what is left of the time beyond whole days. */
  lemma ClockIs(t: int)
    requires InRange(t)
    ensures var c := CivilOf(t);
            && 0 <= c.hour < 24 && 0 <= c.minute < 60 && 0 <= c.second < 60 && 0 <= c.milli < 1000
            && t % 86_400_000 == ((c.hour * 60 + c.minute) * 60 + c.second) * 1000 + c.milli
  {
    CivilRoundTrip(t);
  }

  lemma TwoDigits(n: int)
    requires 0 <= n < 100
    ensures Pow10(2) == 100 && Pad(n, 2) == [Digit(n / 10), Digit(n % 10)]
  {
    assert Pad(n / 10, 1) == [Digit(n / 10)] by {
      assert Pad(0, 0) == "";
    }
  }

  lemma DigitsOf(n: int)
    requires 0 <= n
    ensures n / 10 / 10 == n / 100 && n % 100 / 10 == n / 10 % 10 && n % 100 % 10 == n % 10
  {
  }

  lemma PadLast(n: int, width: nat)
    requires 0 <= n < Pow10(width + 1)
    ensures Pad(n, width + 1) == Pad(n / 10, width) + [Digit(n % 10)]
  {
  }

  lemma FourDigits(n: int)
    requires 0 <= n < 10000
    ensures Pow10(4) == 10000 && Pad(n, 4) == Pad(n / 100, 2) + Pad(n % 100, 2)
  {
    TwoDigits(n % 100);
    Widths();
    DigitsOf(n);
    hide Pad, Digit, Pow10;
    PadLast(n, 3);
    PadLast(n / 10, 2);
  }

  lemma NoMilliseconds()
    ensures Pow10(3) == 1000 && Pad(0, 3) == "000"
  {
    TwoDigits(0);
  }

  lemma MidnightText(c: Civil)
    requires Proper(c) && c.hour == 0 && c.minute == 0 && c.second == 0 && c.milli == 0
    ensures ClockText(c) == "00:00:00.000Z"
  {
    TwoDigits(0);
    NoMilliseconds();
    assert Field(0, 3, 'Z', "") == "000Z";
    assert Field(0, 2, '.', "000Z") == "00.000Z";
    assert Field(0, 2, ':', "00.000Z") == "00:00.000Z";
  }

  lemma EpochFields()
    ensures Pow10(2) == 100 && Pow10(4) == 10000 && Pad(1, 2) == "01" && Pad(1970, 4) == "1970"
  {
    TwoDigits(1);
    TwoDigits(19);
    TwoDigits(70);
    FourDigits(1970);
  }

  lemma EpochText(c: Civil)
    requires Proper(c) && c == Civil(1970, 1, 1, 0, 0, 0, 0)
    ensures CivilText(c) == "1970-01-01T00:00:00.000Z"
  {
    hide Pad, ClockText, Proper, Pow10;
    MidnightText(c);
    EpochFields();
    assert Field(1, 2, 'T', "00:00:00.000Z") == "01T00:00:00.000Z";
    assert Field(1, 2, '-', "01T00:00:00.000Z") == "01-01T00:00:00.000Z";
  }

  lemma EpochTime(c: Civil)
    requires c == Civil(1970, 1, 1, 0, 0, 0, 0)
    ensures Proper(c) && TimeOf(c) == 0
  {
    hide DayFromYear, DaysBefore, Leap, TimeOf, Proper;
    FirstDays();
    NewYearsDay(c);
  }

  /** Where the calendar is anchored, and what a text looks like. */
  lemma EpochIs()
    ensures CivilOf(0) == Civil(1970, 1, 1, 0, 0, 0, 0)
    ensures Iso(0) == "1970-01-01T00:00:00.000Z"
  {
    hide CivilOf, CivilText, TimeOf, Proper;
    var c := Civil(1970, 1, 1, 0, 0, 0, 0);
    EpochTime(c);
    CivilRoundTrip(0);
    FieldsAreUnique(CivilOf(0), c);
    EpochText(c);
  }
}
