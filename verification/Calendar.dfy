/** Dates as the scheduler holds them: ISO text (`YYYY-MM-DD`, RFC 3339 section 5.1) compared
    as strings and shifted through the time values of ECMA-262 section 21.4.1. The proleptic
    Gregorian day number of a date (day 0 is 1970-01-01) is its meaning throughout the project. */
module Calendar {

  // ---------- Day numbers (ECMA-262 section 21.4.1) ----------

  datatype Civil = Civil(year: int, month: int, day: int)

  /** The day number of 1 January of year `y`. Dafny's `/` floors for a positive divisor. */
  function DayFromYear(y: int): int {
    365 * (y - 1970) + (y - 1969) / 4 - (y - 1901) / 100 + (y - 1601) / 400
  }

  predicate LeapYear(y: int) {
    y % 4 == 0 && (y % 100 != 0 || y % 400 == 0)
  }

  function YearLength(y: int): int {
    if LeapYear(y) then 366 else 365
  }

  /** Days of the year before month `m`; month 13 gives the length of the year. */
  function MonthStart(m: int, leap: bool): int
    requires 1 <= m <= 13
  {
    [0, 31, 59, 90, 120, 151, 181, 212, 243, 273, 304, 334, 365][m - 1] + if leap && m > 2 then 1 else 0
  }

  predicate ValidCivil(c: Civil) {
    1 <= c.month <= 12 &&
    1 <= c.day <= MonthStart(c.month + 1, LeapYear(c.year)) - MonthStart(c.month, LeapYear(c.year))
  }

  /** MakeDay for a month in range; the day of the month may be any integer. */
  function MakeDay(year: int, month: int, day: int): int
    requires 1 <= month <= 12
  {
    DayFromYear(year) + MonthStart(month, LeapYear(year)) + day - 1
  }

  function DayNumber(c: Civil): int
    requires ValidCivil(c)
  {
    MakeDay(c.year, c.month, c.day)
  }

  /** YearFromTime: the largest year starting on or before day `n`, searched from `y`. */
  function YearFromDay(n: int, y: int): (r: int)
    ensures DayFromYear(r) <= n < DayFromYear(r + 1)
    decreases if n < DayFromYear(y) then DayFromYear(y) - n
              else if DayFromYear(y + 1) <= n then n - DayFromYear(y) else 0
  {
    YearStep(y - 1);
    YearStep(y);
    YearStep(y + 1);
    if n < DayFromYear(y) then YearFromDay(n, y - 1)
    else if DayFromYear(y + 1) <= n then YearFromDay(n, y + 1)
    else y
  }

  /** The month holding day `d` of the year, searched upwards from `m`. */
  function MonthFromDay(d: int, leap: bool, m: int): (r: int)
    requires 1 <= m <= 12 && MonthStart(m, leap) <= d < MonthStart(13, leap)
    ensures 1 <= r <= 12 && MonthStart(r, leap) <= d < MonthStart(r + 1, leap)
    decreases 13 - m
  {
    if d < MonthStart(m + 1, leap) then m else MonthFromDay(d, leap, m + 1)
  }

  function CivilOf(n: int): (c: Civil)
    ensures ValidCivil(c) && DayNumber(c) == n
  {
    var y := YearFromDay(n, 1970);
    YearStep(y);
    var leap := LeapYear(y);
    var m := MonthFromDay(n - DayFromYear(y), leap, 1);
    Civil(y, m, n - DayFromYear(y) - MonthStart(m, leap) + 1)
  }

  /** Consecutive years are a year's length apart. */
  lemma YearStep(y: int)
    ensures DayFromYear(y + 1) == DayFromYear(y) + YearLength(y)
  {
    FourthYears(y);
    Centuries(y);
    FourthCenturies(y);
  }

  lemma FourthYears(y: int)
    ensures (y - 1968) / 4 - (y - 1969) / 4 == if y % 4 == 0 then 1 else 0
  {
  }

  lemma Centuries(y: int)
    ensures (y - 1900) / 100 - (y - 1901) / 100 == if y % 100 == 0 then 1 else 0
  {
  }

  lemma FourthCenturies(y: int)
    ensures (y - 1600) / 400 - (y - 1601) / 400 == if y % 400 == 0 then 1 else 0
    ensures y % 400 == 0 ==> y % 100 == 0
    ensures y % 100 == 0 ==> y % 4 == 0
  {
  }

  lemma {:induction false} YearsIncrease(y: int, z: int)
    requires y <= z
    ensures DayFromYear(y) + 365 * (z - y) <= DayFromYear(z)
    decreases z - y
  {
    if y < z {
      YearsIncrease(y, z - 1);
      YearStep(z - 1);
    }
  }

  predicate CivilLess(a: Civil, b: Civil) {
    a.year < b.year || (a.year == b.year && (a.month < b.month || (a.month == b.month && a.day < b.day)))
  }

  /** Day numbers order dates exactly as (year, month, day) does; in particular each day has one date. */
  lemma DayNumberOrder(a: Civil, b: Civil)
    requires ValidCivil(a) && ValidCivil(b)
    ensures DayNumber(a) < DayNumber(b) <==> CivilLess(a, b)
    ensures DayNumber(a) == DayNumber(b) <==> a == b
  {
    DayNumberLess(a, b);
    DayNumberLess(b, a);
  }

  lemma DayNumberLess(a: Civil, b: Civil)
    requires ValidCivil(a) && ValidCivil(b)
    ensures CivilLess(a, b) ==> DayNumber(a) < DayNumber(b)
  {
    if a.year < b.year {
      YearStep(a.year);
      YearsIncrease(a.year + 1, b.year);
    }
  }

  /** The length of a month, as everyone knows it. */
  function DaysInMonth(year: int, month: int): int {
    if month in {4, 6, 9, 11} then 30
    else if month != 2 then 31
    else if year % 400 == 0 || (year % 4 == 0 && year % 100 != 0) then 29 else 28
  }

  function Tomorrow(c: Civil): Civil {
    if c.day < DaysInMonth(c.year, c.month) then c.(day := c.day + 1)
    else if c.month < 12 then Civil(c.year, c.month + 1, 1)
    else Civil(c.year + 1, 1, 1)
  }

  /** Day numbers count days: day 0 is 1 January 1970 and the next number is the next date. */
  lemma DaysCountOn(n: int)
    ensures CivilOf(0) == Civil(1970, 1, 1)
    ensures CivilOf(n + 1) == Tomorrow(CivilOf(n))
  {
    hide CivilOf, DayNumber, ValidCivil, Tomorrow;
    var c := CivilOf(n);
    TomorrowIsNext(c);
    DayNumberOrder(CivilOf(n + 1), Tomorrow(c));
    DayZero();
    DayNumberOrder(CivilOf(0), Civil(1970, 1, 1));
  }

  lemma DayZero()
    ensures ValidCivil(Civil(1970, 1, 1)) && DayNumber(Civil(1970, 1, 1)) == 0
  {
  }

  lemma TomorrowIsNext(c: Civil)
    requires ValidCivil(c)
    ensures ValidCivil(Tomorrow(c)) && DayNumber(Tomorrow(c)) == DayNumber(c) + 1
  {
    YearStep(c.year);
    MonthLengths(c.year, c.month);
    MonthLengths(c.year, 12);
  }

  lemma MonthLengths(year: int, month: int)
    requires 1 <= month <= 12
    ensures MonthStart(month + 1, LeapYear(year)) - MonthStart(month, LeapYear(year)) == DaysInMonth(year, month)
    ensures MonthStart(1, LeapYear(year)) == 0 && MonthStart(13, LeapYear(year)) == YearLength(year)
  {
  }

  // ---------- ISO text ----------

  predicate IsDigit(c: char) { '0' <= c <= '9' }

  ghost predicate AllDigits(s: string) { forall i :: 0 <= i < |s| ==> IsDigit(s[i]) }

  function DigitChar(d: int): (c: char)
    requires 0 <= d <= 9
    ensures IsDigit(c)
  {
    '0' + d as char
  }

  /** The number read so far is `acc`; read the digits of `s` after it. */
  function Numeral(acc: int, s: string): int
    requires AllDigits(s)
    decreases s
  {
    if s == "" then acc else Numeral(10 * acc + (s[0] as int - '0' as int), s[1..])
  }

  function Digits2(n: int): (s: string)
    requires 0 <= n < 100
    ensures |s| == 2 && AllDigits(s)
  {
    [DigitChar(n / 10), DigitChar(n % 10)]
  }

  function Digits4(n: int): (s: string)
    requires 0 <= n < 10000
    ensures |s| == 4 && AllDigits(s)
  {
    Digits2(n / 100) + Digits2(n % 100)
  }

  /** `toISOString().slice(0, 10)`: outside the years 0 to 9999 the year has a sign and six
      digits, so the slice no longer holds a date. */
  function IsoSlice(c: Civil): string
    requires ValidCivil(c) && -1000000 < c.year < 1000000
  {
    if 0 <= c.year < 10000 then Digits4(c.year) + "-" + Digits2(c.month) + "-" + Digits2(c.day)
    else
      var y := if c.year < 0 then -c.year else c.year;
      [if c.year < 0 then '-' else '+'] + Digits2(y / 10000) + Digits4(y % 10000) + "-" + Digits2(c.month)
  }

  predicate IsoShape(s: string) {
    |s| == 10 && s[4] == '-' && s[7] == '-' && (forall i :: 0 <= i < 10 && i != 4 && i != 7 ==> IsDigit(s[i]))
  }

  function CivilOfText(s: string): Civil
    requires IsoShape(s)
  {
    Civil(Numeral(0, s[0..4]), Numeral(0, s[5..7]), Numeral(0, s[8..10]))
  }

  /** The texts PostgreSQL's `to_char(..., 'YYYY-MM-DD')` and `Intl` produce for four-digit years. */
  predicate IsDate(s: string) {
    IsoShape(s) && ValidCivil(CivilOfText(s))
  }

  function DayOf(s: string): int
    requires IsDate(s)
  {
    DayNumber(CivilOfText(s))
  }

  /** Day `n` lies in the years 0 to 9999, whose dates have an ISO text. */
  predicate InTextRange(n: int) {
    DayFromYear(0) <= n < DayFromYear(10000)
  }

  /** The ISO text of a day. */
  function TextOf(n: int): (s: string)
    requires InTextRange(n)
    ensures IsDate(s) && DayOf(s) == n
  {
    YearInRange(n);
    TextHoldsDate(CivilOf(n));
    IsoSlice(CivilOf(n))
  }

  lemma YearHoldsDay(n: int)
    ensures DayFromYear(CivilOf(n).year) <= n < DayFromYear(CivilOf(n).year + 1)
  {
    hide DayFromYear, YearFromDay, LeapYear, MonthFromDay, MonthStart, DayNumber, ValidCivil;
    assert CivilOf(n).year == YearFromDay(n, 1970);
  }

  lemma YearInRange(n: int)
    ensures InTextRange(n) <==> 0 <= CivilOf(n).year < 10000
  {
    YearHoldsDay(n);
    hide CivilOf, DayFromYear, DayNumber, ValidCivil;
    var c := CivilOf(n);
    if c.year < 0 { YearsIncrease(c.year + 1, 0); } else { YearsIncrease(0, c.year); }
    if c.year < 10000 { YearsIncrease(c.year + 1, 10000); } else { YearsIncrease(10000, c.year); }
  }

  /** Two digits and four digits are read back as the number they print. */
  lemma DigitsReadBack(n: int)
    ensures 0 <= n < 100 ==> Numeral(0, Digits2(n)) == n
    ensures 0 <= n < 10000 ==> Numeral(0, Digits4(n)) == n
  {
    if 0 <= n < 100 {
      assert Digits2(n)[1..][1..] == "";
      assert Numeral(0, Digits2(n)) == Numeral(10 * (n / 10) + n % 10, "");
    }
    if 0 <= n < 10000 {
      var s := Digits4(n);
      var a, b := n / 100, n % 100;
      assert s[0] == DigitChar(a / 10) && s[1..][0] == DigitChar(a % 10);
      assert s[1..][1..] == Digits2(b);
      assert Numeral(0, s) == Numeral(a, Digits2(b));
      assert Digits2(b)[1..][1..] == "";
      assert Numeral(a, Digits2(b)) == Numeral(10 * (10 * a + b / 10) + b % 10, "");
    }
  }

  lemma TextHoldsDate(c: Civil)
    requires ValidCivil(c) && 0 <= c.year < 10000
    ensures IsDate(IsoSlice(c)) && CivilOfText(IsoSlice(c)) == c
  {
    var s := IsoSlice(c);
    assert s[0..4] == Digits4(c.year) && s[5..7] == Digits2(c.month) && s[8..10] == Digits2(c.day);
    DigitsReadBack(c.year);
    DigitsReadBack(c.month);
    DigitsReadBack(c.day);
  }

  // ---------- String order is day order ----------

  /** JavaScript's `a <= b` on strings: code-unit order, a proper prefix first. */
  predicate StringLe(a: string, b: string) {
    a == "" || (b != "" && (a[0] < b[0] || (a[0] == b[0] && StringLe(a[1..], b[1..]))))
  }

  lemma {:induction false} NumeralLess(p: int, q: int, a: string, b: string)
    requires p < q && |a| == |b| && AllDigits(a) && AllDigits(b)
    ensures Numeral(p, a) < Numeral(q, b)
    decreases a
  {
    if a != "" {
      NumeralLess(10 * p + (a[0] as int - '0' as int), 10 * q + (b[0] as int - '0' as int), a[1..], b[1..]);
    }
  }

  /** Equally long numerals compare as numbers, and leave what follows them to decide a tie. */
  lemma {:induction false} NumeralOrder(p: int, a: string, b: string, x: string, y: string)
    requires |a| == |b| && AllDigits(a) && AllDigits(b)
    ensures StringLe(a + x, b + y) <==>
            Numeral(p, a) < Numeral(p, b) || (Numeral(p, a) == Numeral(p, b) && StringLe(x, y))
    decreases a
  {
    if a == "" {
      assert a + x == x && b + y == y;
    } else {
      assert (a + x)[1..] == a[1..] + x && (b + y)[1..] == b[1..] + y;
      var p', q' := 10 * p + (a[0] as int - '0' as int), 10 * p + (b[0] as int - '0' as int);
      if p' < q' {
        NumeralLess(p', q', a[1..], b[1..]);
      } else if q' < p' {
        NumeralLess(q', p', b[1..], a[1..]);
      } else {
        NumeralOrder(p', a[1..], b[1..], x, y);
      }
    }
  }

  lemma DateParts(s: string)
    requires IsoShape(s)
    ensures AllDigits(s[0..4]) && AllDigits(s[5..7]) && AllDigits(s[8..10])
    ensures s == s[0..4] + ("-" + (s[5..7] + ("-" + (s[8..10] + ""))))
  {
  }

  lemma DashOrder(x: string, y: string)
    ensures StringLe("-" + x, "-" + y) <==> StringLe(x, y)
  {
    assert ("-" + x)[1..] == x && ("-" + y)[1..] == y;
  }

  lemma StringLeIsDayLe(a: string, b: string)
    requires IsDate(a) && IsDate(b)
    ensures StringLe(a, b) <==> DayOf(a) <= DayOf(b)
  {
    DateParts(a);
    DateParts(b);
    var ad, bd := a[8..10] + "", b[8..10] + "";
    var am, bm := a[5..7] + ("-" + ad), b[5..7] + ("-" + bd);
    NumeralOrder(0, a[8..10], b[8..10], "", "");
    DashOrder(ad, bd);
    NumeralOrder(0, a[5..7], b[5..7], "-" + ad, "-" + bd);
    DashOrder(am, bm);
    NumeralOrder(0, a[0..4], b[0..4], "-" + am, "-" + bm);
    DayNumberOrder(CivilOfText(a), CivilOfText(b));
  }

  lemma {:induction false} StringLeAntisymmetric(a: string, b: string)
    requires |a| == |b| && StringLe(a, b) && StringLe(b, a)
    ensures a == b
  {
    if a != "" {
      StringLeAntisymmetric(a[1..], b[1..]);
      assert a == [a[0]] + a[1..] && b == [b[0]] + b[1..];
    }
  }

  /** Comparing two ISO dates as strings compares their days, and a day has one ISO text. */
  lemma StringOrderIsDayOrder(a: string, b: string)
    requires IsDate(a) && IsDate(b)
    ensures StringLe(a, b) <==> DayOf(a) <= DayOf(b)
    ensures a == b <==> DayOf(a) == DayOf(b)
  {
    StringLeIsDayLe(a, b);
    StringLeIsDayLe(b, a);
    if DayOf(a) == DayOf(b) {
      StringLeAntisymmetric(a, b);
    }
  }

  // ---------- addDays ----------

  /** The day number `Date.UTC(year, month - 1, day + days)` stands for: it reads the years 0 to
      99 as 1900 to 1999, and an overflowing day of the month carries. */
  function UtcDay(value: string, days: int): int
    requires IsDate(value)
  {
    var c := CivilOfText(value);
    MakeDay(if 0 <= c.year <= 99 then 1900 + c.year else c.year, c.month, c.day + days)
  }

  /** `addDays`. The bound on `days` keeps the time value within the 100,000,000 days either side
      of day 0 that it may span; beyond them `toISOString` throws. */
  function AddDays(value: string, days: int): string
    requires IsDate(value) && -90000000 <= days <= 90000000
  {
    UtcDayBound(value, days);
    YearBound(UtcDay(value, days));
    IsoSlice(CivilOf(UtcDay(value, days)))
  }

  lemma DateYear(s: string)
    requires IsDate(s)
    ensures 0 <= CivilOfText(s).year < 10000
  {
    DateParts(s);
    var t := s[0..4];
    assert t[1..][1..][1..][1..] == "";
    var a := 10 * (t[0] as int - '0' as int) + (t[1] as int - '0' as int);
    var b := 10 * a + (t[2] as int - '0' as int);
    assert Numeral(0, t) == Numeral(a, t[1..][1..]) == Numeral(b, t[1..][1..][1..])
        == Numeral(10 * b + (t[3] as int - '0' as int), "");
  }

  /** A date's text is the text of its day. */
  lemma TextOfDay(s: string)
    requires IsDate(s)
    ensures InTextRange(DayOf(s)) && TextOf(DayOf(s)) == s
  {
    DateYear(s);
    DayNumberOrder(CivilOf(DayOf(s)), CivilOfText(s));
    YearInRange(DayOf(s));
    StringOrderIsDayOrder(TextOf(DayOf(s)), s);
  }

  lemma UtcDayBound(value: string, days: int)
    requires IsDate(value)
    ensures -800000 <= UtcDay(value, days) - days <= 3000000
  {
    var y := CivilOfText(value).year;
    DateYear(value);
    YearsIncrease(0, y);
    YearsIncrease(y, 10000);
    YearsIncrease(1900, 1900 + y);
    YearsIncrease(1900 + y, 20000);
  }

  lemma YearBound(n: int)
    requires -100000000 <= n <= 100000000
    ensures -1000000 < CivilOf(n).year < 1000000
  {
    var y := CivilOf(n).year;
    YearStep(y);
    if y < 1970 { YearsIncrease(y + 1, 1970); } else { YearsIncrease(1970, y); }
  }

  /** Exactly when `addDays` is addition on day numbers: the given year is at least 100 and the
      sum still has a four-digit year. */
  lemma AddDaysIsAddition(s: string, k: int)
    requires IsDate(s) && -90000000 <= k <= 90000000
    ensures (IsDate(AddDays(s, k)) && DayOf(AddDays(s, k)) == DayOf(s) + k)
            <==> CivilOfText(s).year >= 100 && InTextRange(DayOf(s) + k)
  {
    var n := UtcDay(s, k);
    var y := CivilOfText(s).year;
    DateYear(s);
    YearInRange(n);
    if InTextRange(n) {
      TextHoldsDate(CivilOf(n));
      assert AddDays(s, k) == TextOf(n);
    } else {
      assert !IsDigit(AddDays(s, k)[0]);
    }
    if y < 100 {
      YearStep(y);
      YearsIncrease(y + 1, 1900 + y);
    }
  }

  /** A date's year is at least 100 exactly when its day is. */
  lemma HundredYears(t: string)
    requires IsDate(t)
    ensures CivilOfText(t).year >= 100 <==> DayOf(t) >= DayFromYear(100)
  {
    var y := CivilOfText(t).year;
    YearStep(y);
    if y < 100 { YearsIncrease(y + 1, 100); } else { YearsIncrease(100, y); }
  }

  /** Days of the years 100 to 9999, where ISO text and day arithmetic agree. */
  predicate Supported(n: int) {
    DayFromYear(100) <= n < DayFromYear(10000)
  }

  lemma SupportedInRange(n: int)
    requires Supported(n)
    ensures InTextRange(n)
  {
    YearsIncrease(0, 100);
  }

  /** Shifting a date shifts its day. */
  lemma AddDaysShifts(s: string, k: int)
    requires IsDate(s) && Supported(DayOf(s)) && InTextRange(DayOf(s) + k) && -90000000 <= k <= 90000000
    ensures AddDays(s, k) == TextOf(DayOf(s) + k)
  {
    HundredYears(s);
    AddDaysIsAddition(s, k);
    StringOrderIsDayOrder(AddDays(s, k), TextOf(DayOf(s) + k));
  }

  /** Shifts compose and cancel while the dates between stay in the years 100 to 9999. */
  lemma AddDaysComposes(s: string, t: string, a: int, b: int)
    requires IsDate(s) && -40000000 <= a <= 40000000 && -40000000 <= b <= 40000000
    requires Supported(DayOf(s)) && Supported(DayOf(s) + a) && InTextRange(DayOf(s) + a + b)
    requires t == AddDays(s, a)
    ensures IsDate(t)
    ensures AddDays(t, b) == AddDays(s, a + b)
    ensures b == -a ==> AddDays(t, b) == s
  {
    hide *;
    var n := DayOf(s);
    SupportedInRange(n);
    SupportedInRange(n + a);
    AddDaysShifts(s, a);
    AddDaysShifts(t, b);
    AddDaysShifts(s, a + b);
    if b == -a { TextOfDay(s); }
  }
}
