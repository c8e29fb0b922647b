/**
 mkgmtime: seconds since 1970 from a broken-down UTC time, against the Gregorian calendar counted month
 by month and day by day.
 */
module Calendar {
  import opened Bits

  /** struct tm: `year` counts from 1900, `mon` from 0. */
  datatype Tm = Tm(year: int, mon: int, mday: int, hour: int, min: int, sec: int)

  /** C's division and remainder, which truncate toward zero. */
  function CDiv(a: int, b: int): int
    requires b > 0
  {
    if a >= 0 then a / b else -((-a) / b)
  }

  function CMod(a: int, b: int): int
    requires b > 0
  {
    a - b * CDiv(a, b)
  }

  /** Conversion to a 16-bit short. */
  function ToShort(x: int): int {
    (x + 0x8000) % 0x1_0000 - 0x8000
  }

  lemma ShortSame(x: int)
    requires -0x8000 <= x < 0x8000
    ensures ToShort(x) == x
  {
  }

  const MONTH_DAYS: seq<int> := [0, 31, 59, 90, 120, 151, 181, 212, 243, 273, 304, 334]

  // ---------------------------------------------------------------- the calendar

  predicate IsLeap(y: int) {
    y % 4 == 0 && (y % 100 != 0 || y % 400 == 0)
  }

  function DaysInMonth(y: int, m: int): (n: int)
    requires 0 <= m < 12
    ensures 28 <= n <= 31
  {
    if m == 1 then if IsLeap(y) then 29 else 28
    else if m == 3 || m == 5 || m == 8 || m == 10 then 30
    else 31
  }

  /** The months of the Gregorian calendar. */
  lemma {:induction false} MonthLengths(y: int, m: int)
    requires 0 <= m < 12
    ensures var february := if y % 400 == 0 then 29 else if y % 100 == 0 then 28 else if y % 4 == 0 then 29 else 28;
            DaysInMonth(y, m) == [31, february, 31, 30, 31, 30, 31, 31, 30, 31, 30, 31][m]
  {
    if y % 400 == 0 {
      assert y == 4 * (100 * (y / 400));
    }
  }

  /** Days from 1 January 1970 to the first day of the month k months later (earlier, if negative). */
  function MonthStart(k: int): int
    decreases if k >= 0 then k else -k
  {
    if k == 0 then 0
    else if k > 0 then MonthStart(k - 1) + DaysInMonth(1970 + (k - 1) / 12, (k - 1) % 12)
    else MonthStart(k + 1) - DaysInMonth(1970 + k / 12, k % 12)
  }

  lemma MonthStep(j: int)
    ensures MonthStart(j + 1) == MonthStart(j) + DaysInMonth(1970 + j / 12, j % 12)
  {
  }

  /** Months from January 1970 to the month of t, whatever the value of its month field. */
  function MonthIndex(t: Tm): int {
    12 * (t.year - 70) + t.mon
  }

  /** The reference: seconds since 1970 by the calendar. */
  function Reference(t: Tm): int {
    (((MonthStart(MonthIndex(t)) + t.mday - 1) * 24 + t.hour) * 60 + t.min) * 60 + t.sec
  }

  // ---------------------------------------------------------------- the formula

  /** The year of the leap-day count: January and February belong to the year before. */
  function LeapYear(k: int): int {
    1970 + k / 12 - (if k % 12 <= 1 then 1 else 0)
  }

  /** Leap days up to the end of year y, with divisions that round down. */
  function LeapDays(y: int): int {
    (y - 1968) / 4 - (y - 1900) / 100 + (y - 1600) / 400
  }

  /** The formula for the first day of month m of year y. */
  function Formula(y: int, m: int): int
    requires 0 <= m < 12
  {
    (y - 1970) * 365 + MONTH_DAYS[m] + LeapDays(if m <= 1 then y - 1 else y)
  }

  lemma StepMultiple(x: int, b: int)
    requires b > 1
    ensures x / b == (x - 1) / b + if x % b == 0 then 1 else 0
  {
    var q, r := x / b, x % b;
    assert x == b * q + r;
    if r == 0 {
      assert x - 1 == b * (q - 1) + (b - 1) by {
        assert b * (q - 1) == b * q - b;
      }
      ModUnique(x - 1, b, q - 1, b - 1);
    } else {
      ModUnique(x - 1, b, q, r - 1);
    }
  }

  lemma {:induction false} LeapStep(y: int)
    ensures LeapDays(y) == LeapDays(y - 1) + if IsLeap(y) then 1 else 0
  {
    StepMultiple(y - 1968, 4);
    StepMultiple(y - 1900, 100);
    StepMultiple(y - 1600, 400);
    SameRemainders(y);
    Multiples(y);
  }

  /** The base years of the divisions do not change the remainders. */
  lemma SameRemainders(y: int)
    ensures (y - 1968) % 4 == y % 4
    ensures (y - 1900) % 100 == y % 100
    ensures (y - 1600) % 400 == y % 400
  {
    ModUnique(y - 1968, 4, y / 4 - 492, y % 4);
    ModUnique(y - 1900, 100, y / 100 - 19, y % 100);
    ModUnique(y - 1600, 400, y / 400 - 4, y % 400);
  }

  lemma Multiples(y: int)
    ensures y % 400 == 0 ==> y % 100 == 0
    ensures y % 100 == 0 ==> y % 4 == 0
  {
    if y % 400 == 0 {
      ModUnique(y, 100, 4 * (y / 400), 0);
    }
    if y % 100 == 0 {
      ModUnique(y, 4, 25 * (y / 100), 0);
    }
  }

  lemma {:induction false} FormulaStep(y: int, m: int)
    requires 0 <= m < 12
    ensures (if m < 11 then Formula(y, m + 1) else Formula(y + 1, 0)) == Formula(y, m) + DaysInMonth(y, m)
  {
    if m == 1 {
      LeapStep(y);
    }
  }

  lemma {:induction false} NextMonth(k: int)
    ensures (k + 1) / 12 == k / 12 + (if k % 12 == 11 then 1 else 0)
    ensures (k + 1) % 12 == if k % 12 == 11 then 0 else k % 12 + 1
  {
  }

  /** The formula at month index k. */
  function FloorDays(k: int): int {
    Formula(1970 + k / 12, k % 12)
  }

  lemma {:induction false} FloorDaysStep(k: int)
    ensures FloorDays(k + 1) == FloorDays(k) + DaysInMonth(1970 + k / 12, k % 12)
  {
    NextMonth(k);
    FormulaStep(1970 + k / 12, k % 12);
  }

  lemma FirstDay()
    ensures FloorDays(0) == 0
  {
    assert LeapDays(1969) == 0;
  }

  lemma {:induction false} SameStep(j: int)
    ensures FloorDays(j + 1) - FloorDays(j) == MonthStart(j + 1) - MonthStart(j)
  {
    FloorDaysStep(j);
    MonthStep(j);
  }

  lemma {:induction false} FloorDaysCount(k: int)
    ensures FloorDays(k) == MonthStart(k)
    decreases if k >= 0 then k else -k
  {
    if k == 0 {
      FirstDay();
    } else if k > 0 {
      FloorDaysCount(k - 1);
      SameStep(k - 1);
    } else {
      FloorDaysCount(k + 1);
      SameStep(k);
    }
  }

  /** Rounding toward zero instead of down adds a day for each division that is off. */
  function Excess(y: int): int {
    (if y < 1968 && (y - 1968) % 4 != 0 then 1 else 0)
    - (if y < 1900 && (y - 1900) % 100 != 0 then 1 else 0)
    + (if y < 1600 && (y - 1600) % 400 != 0 then 1 else 0)
  }

  lemma CDivFloor(a: int, b: int)
    requires b > 0
    ensures CDiv(a, b) == a / b + if a < 0 && a % b != 0 then 1 else 0
  {
    if a < 0 {
      var q, r := a / b, a % b;
      assert -a == b * (-q) - r;
      if r == 0 {
        ModUnique(-a, b, -q, 0);
      } else {
        assert -a == b * (-q - 1) + (b - r) by {
          assert b * (-q - 1) == b * (-q) - b;
        }
        ModUnique(-a, b, -q - 1, b - r);
      }
    }
  }

  // ---------------------------------------------------------------- mkgmtime

  /** The month and the years computed on the way are 16-bit numbers. */
  predicate InShort(t: Tm) {
    && -0x8000 <= t.mon < 0x8000
    && -0x8000 < t.year + t.mon / 12 + 1900 && t.year + CDiv(t.mon, 12) + 1900 < 0x8000
  }

  /** The date that is left of t in 16-bit variables. */
  function Narrow(t: Tm): Tm {
    var month := ToShort(t.mon);
    var year := ToShort(t.year + CDiv(month, 12) + 1900);
    t.(mon := month, year := year - CDiv(month, 12) - 1900)
  }

  /** A date in range is left as it is. */
  lemma {:induction false} NarrowInRange(t: Tm)
    requires InShort(t)
    ensures Narrow(t) == t
  {
    CDivFloor(t.mon, 12);
    ShortSame(t.mon);
    ShortSame(t.year + CDiv(t.mon, 12) + 1900);
  }

  /** Month and year after normalisation. */
  method Normalise(t: Tm) returns (month: int, year: int)
    ensures InShort(Narrow(t)) ==>
              month == MonthIndex(Narrow(t)) % 12 && year == 1970 + MonthIndex(Narrow(t)) / 12
    ensures 0 <= month < 12 && -0x8000 <= year < 0x8000
  {
    month := ToShort(t.mon);
    CDivFloor(month, 12);
    year := ToShort(t.year + CDiv(month, 12) + 1900);
    month := ToShort(CMod(month, 12));
    if month < 0 {
      year := ToShort(year - 1);
      month := ToShort(month + 12);
    }
    MonthSplit(Narrow(t));
  }

  /** The leap-day terms as the source divides. */
  method TruncatedLeapDays(year: int) returns (days: int)
    ensures days == LeapDays(year) + Excess(year)
  {
    days := CDiv(year - 1968, 4);
    days := days - CDiv(year - 1900, 100);
    days := days + CDiv(year - 1600, 400);
    CDivFloor(year - 1968, 4);
    CDivFloor(year - 1900, 100);
    CDivFloor(year - 1600, 400);
  }

  /** Days up to the first of the month. */
  method DaysToMonth(t: Tm) returns (days: int)
    ensures var n := Narrow(t);
            InShort(n) ==> days == MonthStart(MonthIndex(n)) + Excess(LeapYear(MonthIndex(n)))
  {
    var month, year := Normalise(t);
    if InShort(Narrow(t)) {
      DaysByFormula(MonthIndex(Narrow(t)), year, month);
      ShortSame(year - 1);
    }
    days := (year - 1970) * 365 + MONTH_DAYS[month];
    if month <= 1 {
      year := ToShort(year - 1);
    }
    var leap := TruncatedLeapDays(year);
    days := days + leap;
  }

  lemma {:induction false} DaysByFormula(k: int, year: int, month: int)
    requires year == 1970 + k / 12 && month == k % 12
    ensures (year - 1970) * 365 + MONTH_DAYS[month] + LeapDays(LeapYear(k)) == MonthStart(k)
    ensures LeapYear(k) == if month <= 1 then year - 1 else year
  {
    FloorDaysCount(k);
  }

  /** What mkgmtime makes of a date that fits 16 bits: the seconds by the calendar and the excess days. */
  function Seconds(t: Tm): int {
    Reference(t) + 86400 * Excess(LeapYear(MonthIndex(t)))
  }

  /** The source's computation, in its own steps: that of the narrowed date, unless its normalised year
      lies below the range of a short. */
  method MkGmTime(t: Tm) returns (result: int)
    ensures var n := Narrow(t);
            InShort(n) ==>
              && result == Seconds(n)
              && (result == Reference(n) <==> DivisionsHarmless(LeapYear(MonthIndex(n))))
  {
    NoExcess(LeapYear(MonthIndex(Narrow(t))));
    result := DaysToMonth(t);
    result := result + t.mday;
    result := result - 1;
    result := result * 24;
    result := result + t.hour;
    result := result * 60;
    result := result + t.min;
    result := result * 60;
    result := result + t.sec;
  }

  lemma MonthSplit(t: Tm)
    ensures MonthIndex(t) / 12 == t.year - 70 + t.mon / 12
    ensures MonthIndex(t) % 12 == t.mon % 12
  {
    ModUnique(MonthIndex(t), 12, t.year - 70 + t.mon / 12, t.mon % 12);
  }

  /** The years, counted from March, for which the truncating divisions are harmless. */
  predicate DivisionsHarmless(y: int) {
    if y >= 1968 then true
    else if y >= 1900 then y % 4 == 0
    else if y >= 1600 then y % 4 != 0 || y % 100 == 0
    else IsLeap(y)
  }

  /** No excess days exactly for these years. */
  lemma {:induction false} NoExcess(y: int)
    ensures Excess(y) == 0 <==> DivisionsHarmless(y)
  {
    SameRemainders(y);
    Multiples(y);
    ExcessCases(y, y % 4 != 0, y % 100 != 0, y % 400 != 0);
  }

  lemma ExcessCases(y: int, a: bool, b: bool, c: bool)
    requires (a ==> b) && (b ==> c)
    ensures (if y < 1968 && a then 1 else 0) - (if y < 1900 && b then 1 else 0) + (if y < 1600 && c then 1 else 0) == 0
            <==>
            if y >= 1968 then true
            else if y >= 1900 then !a
            else if y >= 1600 then a || !b
            else !a && (b || !c)
  {
  }

  /** From March 1968 on there is no excess, whatever the month field is; so for every year from 1970. */
  lemma {:induction false} ExactFrom1968(t: Tm)
    requires MonthIndex(t) >= 12 * (1968 - 1970) + 2
    ensures DivisionsHarmless(LeapYear(MonthIndex(t)))
  {
    assert MonthIndex(t) / 12 >= -2;
    assert MonthIndex(t) / 12 == -2 ==> MonthIndex(t) % 12 >= 2;
  }

  /** In February 1968 there is one. */
  lemma {:induction false} NotBeforeMarch1968()
    ensures Excess(LeapYear(MonthIndex(Tm(68, 1, 29, 0, 0, 0)))) == 1
  {
  }

  // ---------------------------------------------------------------- day by day

  datatype Date = Date(year: int, month: int, day: int)

  predicate ValidDate(d: Date) {
    0 <= d.month < 12 && 1 <= d.day <= DaysInMonth(d.year, d.month)
  }

  function NextDay(d: Date): Date
    requires ValidDate(d)
  {
    if d.day < DaysInMonth(d.year, d.month) then Date(d.year, d.month, d.day + 1)
    else if d.month < 11 then Date(d.year, d.month + 1, 1)
    else Date(d.year + 1, 0, 1)
  }

  /** The date n days after 1 January 1970. */
  function DateAfter(n: nat): (d: Date)
    ensures ValidDate(d)
  {
    if n == 0 then Date(1970, 0, 1) else NextDay(DateAfter(n - 1))
  }

  function TmOf(d: Date, hour: int, min: int, sec: int): Tm {
    Tm(d.year - 1900, d.month, d.day, hour, min, sec)
  }

  /** Days from 1 January 1970 to d by the calendar. */
  function DayNumber(d: Date): int {
    MonthStart(12 * (d.year - 1970) + d.month) + d.day - 1
  }

  lemma {:induction false} NextDayAddsOne(d: Date)
    requires ValidDate(d)
    ensures DayNumber(NextDay(d)) == DayNumber(d) + 1
  {
    if d.day == DaysInMonth(d.year, d.month) {
      var k := 12 * (d.year - 1970) + d.month;
      ModUnique(k, 12, d.year - 1970, d.month);
      MonthStep(k);
    }
  }

  lemma {:induction false} DaysCounted(n: nat)
    ensures DayNumber(DateAfter(n)) == n
  {
    if n > 0 {
      DaysCounted(n - 1);
      NextDayAddsOne(DateAfter(n - 1));
    }
  }

  lemma ReferenceOfDate(d: Date, hour: int, min: int, sec: int)
    ensures Reference(TmOf(d, hour, min, sec)) == 86400 * DayNumber(d) + 3600 * hour + 60 * min + sec
  {
    assert MonthIndex(TmOf(d, hour, min, sec)) == 12 * (d.year - 1970) + d.month;
  }

  /** Counting days one by one from 1 January 1970 gives the reference. */
  lemma {:induction false} ReferenceCountsDays(n: nat, hour: int, min: int, sec: int)
    ensures Reference(TmOf(DateAfter(n), hour, min, sec)) == 86400 * n + 3600 * hour + 60 * min + sec
  {
    DaysCounted(n);
    ReferenceOfDate(DateAfter(n), hour, min, sec);
  }

  // ---------------------------------------------------------------- monotone

  predicate ValidTime(t: Tm) {
    ValidDate(Date(t.year + 1900, t.mon, t.mday)) && 0 <= t.hour < 24 && 0 <= t.min < 60 && 0 <= t.sec < 60
  }

  predicate Earlier(a: Tm, b: Tm) {
    a.year < b.year || (a.year == b.year && (a.mon < b.mon || (a.mon == b.mon && (a.mday < b.mday || (a.mday == b.mday
    && (a.hour < b.hour || (a.hour == b.hour && (a.min < b.min || (a.min == b.min && a.sec < b.sec)))))))))
  }

  /** From the end of month j to the start of month k there are at least 28 days a month. */
  lemma {:induction false} MonthsAdvance(j: int, k: int)
    requires j < k
    ensures MonthStart(j) + DaysInMonth(1970 + j / 12, j % 12) + 28 * (k - j - 1) <= MonthStart(k)
    decreases k - j
  {
    MonthStep(j);
    if j + 1 < k {
      MonthsAdvance(j + 1, k);
    }
  }

  function TimeOfDay(t: Tm): int {
    (t.hour * 60 + t.min) * 60 + t.sec
  }

  lemma {:induction false} MonthOf(t: Tm)
    requires ValidTime(t)
    ensures MonthIndex(t) / 12 == t.year - 70 && MonthIndex(t) % 12 == t.mon
  {
    ModUnique(MonthIndex(t), 12, t.year - 70, t.mon);
  }

  /** On valid dates the calendar is strictly increasing, by days and months apart. */
  lemma {:induction false} CalendarIncreases(a: Tm, b: Tm)
    requires ValidTime(a) && ValidTime(b) && Earlier(a, b)
    ensures Reference(a) < Reference(b)
    ensures MonthIndex(a) <= MonthIndex(b)
    ensures MonthIndex(a) + 1 < MonthIndex(b) ==> Reference(a) + 28 * 86400 < Reference(b)
  {
    var j, k := MonthIndex(a), MonthIndex(b);
    MonthOf(a);
    if j < k {
      MonthsAdvance(j, k);
    } else {
      assert j == k;
    }
  }

  /** The excess lies between -1 and 1, and from one year to the next it drops, by one, exactly into the
      leap years up to 1968. */
  lemma {:induction false} ExcessDrops(y: int)
    ensures -1 <= Excess(y) <= 1
    ensures Excess(y - 1) - Excess(y) <= 1
    ensures Excess(y - 1) > Excess(y) <==> y <= 1968 && IsLeap(y)
  {
    NextRemainders(y);
    Multiples(y);
    Multiples(y - 1);
    SameRemainders(y);
    SameRemainders(y - 1);
  }

  lemma NextRemainders(y: int)
    ensures y % 4 == 0 ==> (y - 1) % 4 != 0 && (y - 1) % 100 != 0 && (y - 1) % 400 != 0
  {
  }

  /** 29 February of a leap year up to 1968 against 1 March at no later a time of day. */
  predicate Collides(a: Tm, b: Tm) {
    && a.year == b.year && a.year + 1900 <= 1968
    && a.mon == 1 && a.mday == 29 && b.mon == 2 && b.mday == 1
    && TimeOfDay(b) <= TimeOfDay(a)
  }

  /** From February into March. */
  lemma {:induction false} IntoMarch(a: Tm, b: Tm)
    requires ValidTime(a) && ValidTime(b) && a.year == b.year && a.mon == 1 && b.mon == 2
    ensures Seconds(a) < Seconds(b) <==> !Collides(a, b)
    ensures Collides(a, b) ==> Seconds(b) - Seconds(a) == TimeOfDay(b) - TimeOfDay(a)
  {
    MonthOf(a);
    MonthOf(b);
    MonthStep(MonthIndex(a));
    ExcessDrops(b.year + 1900);
    assert LeapYear(MonthIndex(a)) == b.year + 1899 && LeapYear(MonthIndex(b)) == b.year + 1900;
    var days := DaysInMonth(a.year + 1900, 1) - a.mday + b.mday;
    assert Reference(b) - Reference(a) == days * 86400 + TimeOfDay(b) - TimeOfDay(a);
  }

  /** Without narrowing, the result is strictly increasing on two valid dates if and only if they are not
      such a pair. */
  lemma {:induction false} SecondsIncrease(a: Tm, b: Tm)
    requires ValidTime(a) && ValidTime(b) && Earlier(a, b)
    ensures Seconds(a) < Seconds(b) <==> !Collides(a, b)
    ensures Collides(a, b) ==> Seconds(b) - Seconds(a) == TimeOfDay(b) - TimeOfDay(a)
  {
    if a.year == b.year && a.mon == 1 && b.mon == 2 {
      IntoMarch(a, b);
    } else {
      NotIntoMarch(a, b);
    }
  }

  lemma {:induction false} NotIntoMarch(a: Tm, b: Tm)
    requires ValidTime(a) && ValidTime(b) && Earlier(a, b)
    requires !(a.year == b.year && a.mon == 1 && b.mon == 2)
    ensures Seconds(a) < Seconds(b)
  {
    CalendarIncreases(a, b);
    MonthOf(a);
    MonthOf(b);
    ExcessDrops(LeapYear(MonthIndex(a)));
    ExcessDrops(LeapYear(MonthIndex(b)));
    if MonthIndex(a) + 1 >= MonthIndex(b) {
      assert LeapYear(MonthIndex(a)) == LeapYear(MonthIndex(b));
    }
  }

  // ---------------------------------------------------------------- the order of results, in 16 bits

  /** The result of mkgmtime, where MkGmTime determines it. */
  function Result(t: Tm): int {
    Seconds(Narrow(t))
  }

  /** A 29 February of a year that is no leap year is 1 March. */
  function Settled(t: Tm): Tm {
    if t.mon == 1 && t.mday == 29 && !IsLeap(t.year + 1900) then t.(mon := 2, mday := 1) else t
  }

  /** Which of two valid dates has the smaller seconds. */
  predicate Smaller(x: Tm, y: Tm) {
    (Earlier(x, y) && !Collides(x, y)) || (Earlier(y, x) && Collides(y, x) && TimeOfDay(x) < TimeOfDay(y))
  }

  lemma {:induction false} SecondsOrder(x: Tm, y: Tm)
    requires ValidTime(x) && ValidTime(y)
    ensures Seconds(x) < Seconds(y) <==> Smaller(x, y)
  {
    if Earlier(x, y) {
      SecondsIncrease(x, y);
    } else if Earlier(y, x) {
      SecondsIncrease(y, x);
    } else {
      assert x == y;
    }
  }

  /** Narrowing a year keeps its remainder modulo 4. */
  lemma {:induction false} NarrowYear(y: int)
    ensures -0x8000 <= ToShort(y) < 0x8000 && ToShort(y) % 4 == y % 4
  {
    var q := (y + 0x8000) / 0x1_0000;
    assert ToShort(y) == y - 0x1_0000 * q;
    ModUnique(ToShort(y), 4, y / 4 - 0x4000 * q, y % 4);
  }

  /** The day from February into March without a leap day leaves the excess alone. */
  lemma {:induction false} SameExcess(y: int)
    requires y % 4 == 0 && !IsLeap(y)
    ensures Excess(y - 1) == Excess(y)
  {
    NextRemainders(y);
    SameRemainders(y);
    SameRemainders(y - 1);
  }

  lemma {:induction false} SettledSame(t: Tm)
    requires t.mon == 1 && t.mday == 29 && (t.year + 1900) % 4 == 0
    ensures Seconds(Settled(t)) == Seconds(t)
  {
    if !IsLeap(t.year + 1900) {
      var k, s := MonthIndex(t), Settled(t);
      ModUnique(k, 12, t.year - 70, 1);
      ModUnique(k + 1, 12, t.year - 70, 2);
      MonthStep(k);
      SameExcess(t.year + 1900);
      assert LeapYear(k) == t.year + 1899 && LeapYear(MonthIndex(s)) == t.year + 1900;
      assert Reference(s) == Reference(t);
    }
  }

  /** What is left of a valid date in 16 bits. */
  lemma {:induction false} NarrowValid(t: Tm)
    requires ValidTime(t)
    ensures var n := Narrow(t);
            && n == t.(year := ToShort(t.year + 1900) - 1900)
            && ValidTime(Settled(n)) && Seconds(Settled(n)) == Seconds(n)
  {
    var n := Narrow(t);
    NarrowYear(t.year + 1900);
    if t.mon == 1 && t.mday == 29 {
      Multiples(t.year + 1900);
      SettledSame(n);
    }
  }

  /** Any two valid dates: their results are in the order of what is left of the dates in 16 bits. */
  lemma {:induction false} OrderExact(a: Tm, b: Tm)
    requires ValidTime(a) && ValidTime(b)
    ensures Result(a) < Result(b) <==> Smaller(Settled(Narrow(a)), Settled(Narrow(b)))
  {
    NarrowValid(a);
    NarrowValid(b);
    SecondsOrder(Settled(Narrow(a)), Settled(Narrow(b)));
  }

  /** Two valid dates that fit 16 bits: mkgmtime is strictly increasing on them if and only if they are not
      29 February of a leap year up to 1968 and the 1 March behind it, at no later a time of day. */
  lemma {:induction false} IncreasingExact(a: Tm, b: Tm)
    requires ValidTime(a) && ValidTime(b) && Earlier(a, b) && InShort(a) && InShort(b)
    ensures Result(a) < Result(b) <==> !Collides(a, b)
  {
    NarrowInRange(a);
    NarrowInRange(b);
    SecondsIncrease(a, b);
  }

  /** In particular from March 1968 on, up to the last year that fits. */
  lemma {:induction false} StrictlyIncreasing(a: Tm, b: Tm)
    requires ValidTime(a) && ValidTime(b) && Earlier(a, b) && InShort(a) && InShort(b)
    requires MonthIndex(a) >= 12 * (1968 - 1970) + 2
    ensures Result(a) < Result(b)
  {
    IncreasingExact(a, b);
  }

  predicate Midnight(t: Tm, year: int, mon: int, mday: int) {
    t.year + 1900 == year && t.mon == mon && t.mday == mday && t.hour == t.min == t.sec == 0
  }

  /** 29 February 1968 and the day behind it come out equal. */
  lemma {:induction false} LeapDayMeetsMarch(a: Tm, b: Tm)
    requires Midnight(a, 1968, 1, 29) && Midnight(b, 1968, 2, 1)
    ensures ValidTime(a) && ValidTime(b) && Earlier(a, b) && InShort(a) && InShort(b) && Result(a) == Result(b)
  {
    NarrowInRange(a);
    NarrowInRange(b);
    IntoMarch(a, b);
  }

  /** 1 January 32769 comes out before 1 January 1970. */
  lemma {:induction false} YearBeyondShort(a: Tm, b: Tm)
    requires Midnight(a, 1970, 0, 1) && Midnight(b, 32769, 0, 1)
    ensures ValidTime(a) && ValidTime(b) && Earlier(a, b) && InShort(Narrow(a)) && InShort(Narrow(b))
    ensures Result(b) < Result(a)
  {
    NarrowValid(b);
    NarrowInRange(a);
    OrderExact(b, a);
  }

  function JanuarySeconds(y: int, mday: int, hour: int, min: int, sec: int): int {
    ((((y - 1970) * 365 + LeapDays(y - 1) + mday - 1) * 24 + hour) * 60 + min) * 60 + sec
  }

  /** A day of January, from 1970 on. */
  lemma {:induction false} JanuaryResult(t: Tm, y: int)
    requires 1970 <= y < 0x7FFF && t.year + 1900 == y && t.mon == 0
    ensures Result(t) == JanuarySeconds(y, t.mday, t.hour, t.min, t.sec)
  {
    var k := MonthIndex(t);
    NarrowInRange(t);
    FloorDaysCount(k);
    JanuaryDays(k, y);
    ExactFrom1968(t);
    NoExcess(LeapYear(k));
  }

  lemma JanuaryDays(k: int, y: int)
    requires k == 12 * (y - 1970)
    ensures FloorDays(k) == (y - 1970) * 365 + LeapDays(y - 1)
  {
  }

  /** Two dates known from elsewhere: the start of the year 2000, and the last second of a 32-bit time_t. */
  lemma {:induction false} KnownDates(a: Tm, b: Tm)
    requires Midnight(a, 2000, 0, 1)
    requires b.year + 1900 == 2038 && b.mon == 0 && b.mday == 19 && b.hour == 3 && b.min == 14 && b.sec == 7
    ensures Result(a) == 946684800 && Result(b) == 2147483647
  {
    JanuaryResult(a, 2000);
    JanuaryResult(b, 2038);
    KnownSeconds();
  }

  lemma KnownSeconds()
    ensures JanuarySeconds(2000, 1, 0, 0, 0) == 946684800
    ensures JanuarySeconds(2038, 19, 3, 14, 7) == 2147483647
  {
  }
}
