/** The closed-form days-to-civil conversion of acp/src/grok_account.rs, against
    the proleptic Gregorian calendar written down independently of it. */
module Calendar {

  datatype Date = Date(year: int, month: int, day: int)

  // ----- the calendar -------------------------------------------------------

  predicate IsLeap(y: int) { y % 4 == 0 && (y % 100 != 0 || y % 400 == 0) }

  function DaysInMonth(y: int, m: int): int
    requires 1 <= m <= 12
  {
    if m == 2 then (if IsLeap(y) then 29 else 28)
    else if m == 4 || m == 6 || m == 9 || m == 11 then 30
    else 31
  }

  predicate ValidDate(d: Date) {
    1 <= d.month <= 12 && 1 <= d.day <= DaysInMonth(d.year, d.month)
  }

  function NextDay(d: Date): (r: Date)
    requires ValidDate(d)
    ensures ValidDate(r)
  {
    if d.day < DaysInMonth(d.year, d.month) then d.(day := d.day + 1)
    else if d.month < 12 then Date(d.year, d.month + 1, 1)
    else Date(d.year + 1, 1, 1)
  }

  predicate Earlier(a: Date, b: Date) {
    || a.year < b.year
    || (a.year == b.year && a.month < b.month)
    || (a.year == b.year && a.month == b.month && a.day < b.day)
  }

  // ----- counting days by the calendar -------------------------------------

  /** Days from 0001-01-01 to the first of January of year `y`. */
  function DaysBeforeYear(y: int): int {
    365 * (y - 1) + (y - 1) / 4 - (y - 1) / 100 + (y - 1) / 400
  }

  function DaysBeforeMonth(y: int, m: int): int
    requires 1 <= m <= 13
    decreases m
  {
    if m == 1 then 0 else DaysBeforeMonth(y, m - 1) + DaysInMonth(y, m - 1)
  }

  /** Days since 1970-01-01, summing year and month lengths. */
  function DaysFromCivil(d: Date): int
    requires ValidDate(d)
  {
    DaysBeforeYear(d.year) + DaysBeforeMonth(d.year, d.month) + d.day - 1 - 719162
  }

  lemma YearLength(y: int)
    ensures DaysBeforeYear(y + 1) - DaysBeforeYear(y) == DaysBeforeMonth(y, 13)
    ensures DaysBeforeMonth(y, 13) == if IsLeap(y) then 366 else 365
  {
    hide DaysBeforeMonth;
    MonthTable(y);
    FoursPassed(y);
    HundredsPassed(y);
    FourHundredsPassed(y);
    LeapCycles(y);
  }

  lemma FoursPassed(y: int)
    ensures y / 4 - (y - 1) / 4 == if y % 4 == 0 then 1 else 0
  {
  }

  lemma HundredsPassed(y: int)
    ensures y / 100 - (y - 1) / 100 == if y % 100 == 0 then 1 else 0
  {
  }

  lemma FourHundredsPassed(y: int)
    ensures y / 400 - (y - 1) / 400 == if y % 400 == 0 then 1 else 0
  {
  }

  lemma LeapCycles(y: int)
    ensures y % 400 == 0 ==> y % 100 == 0
    ensures y % 100 == 0 ==> y % 4 == 0
  {
  }

  lemma MonthTable(y: int)
    ensures var l := if IsLeap(y) then 1 else 0;
            && DaysBeforeMonth(y, 1) == 0 && DaysBeforeMonth(y, 2) == 31
            && DaysBeforeMonth(y, 3) == 59 + l && DaysBeforeMonth(y, 4) == 90 + l
            && DaysBeforeMonth(y, 5) == 120 + l && DaysBeforeMonth(y, 6) == 151 + l
            && DaysBeforeMonth(y, 7) == 181 + l && DaysBeforeMonth(y, 8) == 212 + l
            && DaysBeforeMonth(y, 9) == 243 + l && DaysBeforeMonth(y, 10) == 273 + l
            && DaysBeforeMonth(y, 11) == 304 + l && DaysBeforeMonth(y, 12) == 334 + l
            && DaysBeforeMonth(y, 13) == 365 + l
  {
    assert DaysBeforeMonth(y, 4) == 90 + (if IsLeap(y) then 1 else 0);
    assert DaysBeforeMonth(y, 7) == DaysBeforeMonth(y, 4) + 91;
    assert DaysBeforeMonth(y, 10) == DaysBeforeMonth(y, 7) + 92;
  }

  lemma {:induction false} YearsMonotone(y: int, k: nat)
    ensures DaysBeforeYear(y) + 365 * k <= DaysBeforeYear(y + k)
    decreases k
  {
    if k > 0 {
      YearsMonotone(y, k - 1);
      YearLength(y + k - 1);
    }
  }

  lemma {:induction false} MonthsMonotone(y: int, m: int, n: int)
    requires 1 <= m < n <= 13
    ensures DaysBeforeMonth(y, m) + DaysInMonth(y, m) <= DaysBeforeMonth(y, n)
    decreases n
  {
    if m + 1 < n { MonthsMonotone(y, m, n - 1); }
  }

  lemma {:induction false} MonthsNonnegative(y: int, m: int)
    requires 1 <= m <= 13
    ensures DaysBeforeMonth(y, m) >= 0
    decreases m
  {
    if m > 1 { MonthsNonnegative(y, m - 1); }
  }

  lemma WithinYear(d: Date)
    requires ValidDate(d)
    ensures DaysBeforeYear(d.year) <= DaysFromCivil(d) + 719162 < DaysBeforeYear(d.year + 1)
  {
    MonthsNonnegative(d.year, d.month);
    MonthsMonotone(d.year, d.month, 13);
    YearLength(d.year);
  }

  /** Earlier dates have smaller day numbers. */
  lemma DaysFromCivilMonotone(a: Date, b: Date)
    requires ValidDate(a) && ValidDate(b) && Earlier(a, b)
    ensures DaysFromCivil(a) < DaysFromCivil(b)
  {
    hide DaysBeforeYear, DaysBeforeMonth;
    if a.year < b.year {
      WithinYear(a);
      WithinYear(b);
      YearsMonotone(a.year + 1, b.year - a.year - 1);
    } else if a.month < b.month {
      MonthsMonotone(a.year, a.month, b.month);
    }
  }

  lemma DaysFromCivilOrder(a: Date, b: Date)
    requires ValidDate(a) && ValidDate(b)
    ensures DaysFromCivil(a) < DaysFromCivil(b) <==> Earlier(a, b)
    ensures DaysFromCivil(a) == DaysFromCivil(b) <==> a == b
  {
    if Earlier(a, b) {
      DaysFromCivilMonotone(a, b);
    } else if Earlier(b, a) {
      DaysFromCivilMonotone(b, a);
    }
  }

  lemma NextDayIsOneLater(d: Date)
    requires ValidDate(d)
    ensures DaysFromCivil(NextDay(d)) == DaysFromCivil(d) + 1
  {
    if d.day == DaysInMonth(d.year, d.month) && d.month == 12 {
      YearLength(d.year);
    }
  }

  // ----- the conversion under study ----------------------------------------

  /** Rust's `/`, which rounds toward zero. */
  function TruncatingDiv(a: int, b: int): int
    requires b > 0
  {
    if a >= 0 then a / b else -(-a / b)
  }

  function Era(z: int): int {
    TruncatingDiv(if z >= 0 then z else z - 146096, 146097)
  }

  function DayOfEra(z: int): int { z - Era(z) * 146097 }

  function YearOfEra(doe: int): int {
    (doe - doe / 1460 + doe / 36524 - doe / 146096) / 365
  }

  /** Month and day from the day count `doy` since 1 March of year `y`. */
  function DateOfMarchYear(y: int, doy: int): Date {
    var mp := (5 * doy + 2) / 153;
    var d := doy - (153 * mp + 2) / 5 + 1;
    var m := if mp < 10 then mp + 3 else mp - 9;
    Date(if m <= 2 then y + 1 else y, m, d)
  }

  /** Day `doe` of the 400-year era `era`. */
  function DateOfEra(era: int, doe: int): Date {
    var yoe := YearOfEra(doe);
    DateOfMarchYear(yoe + era * 400, doe - (365 * yoe + yoe / 4 - yoe / 100))
  }

  /** `civil_from_days` before the year is cut down to 32 bits. */
  function Civil(days: int): Date {
    var z := days + 719468;
    DateOfEra(Era(z), DayOfEra(z))
  }

  /** Rust's `as i32`. */
  function AsI32(n: int): int {
    (n + 0x8000_0000) % 0x1_0000_0000 - 0x8000_0000
  }

  function CivilFromDays(days: int): Date {
    var c := Civil(days);
    c.(year := AsI32(c.year))
  }

  lemma EraIsFloor(z: int)
    ensures 0 <= DayOfEra(z) < 146097
    ensures z == Era(z) * 146097 + DayOfEra(z)
  {
  }

  /** Days from 1 March of year 0 to 1 March of year `n`. */
  function MarchStart(n: int): int { 365 * n + n / 4 - n / 100 + n / 400 }

  /** Splitting day `doe` of the era into centuries, four-year cycles, years and days. */
  lemma YearOfEraFormula(c: int, q: int, t: int, doy: int)
    requires 0 <= c <= 3 && 0 <= q <= 24 && 0 <= t <= 3 && 0 <= doy <= 365
    requires doy == 365 ==> t == 3
    requires 1461 * q + 365 * t + doy == 36524 ==> c == 3
    requires 1461 * q + 365 * t + doy <= 36524
    ensures YearOfEra(36524 * c + 1461 * q + 365 * t + doy) == 100 * c + 4 * q + t
  {
    var r := 1461 * q + 365 * t + doy;
    var doe := 36524 * c + r;
    var x := 24 * c + q + 365 * t + doy;
    assert doe == 1460 * (25 * c + q) + x;
    var carry := if x >= 1460 then 1 else 0;
    assert doe / 1460 == 25 * c + q + carry by { QuotientIs(doe, 1460, 25 * c + q + carry); }
    var last := if r == 36524 then 1 else 0;
    assert doe / 36524 == c + last by { QuotientIs(doe, 36524, c + last); }
    assert doe / 146096 == last by { QuotientIs(doe, 146096, last); }
    QuotientIs(365 * (100 * c + 4 * q + t) + doy - carry, 365, 100 * c + 4 * q + t);
  }

  lemma QuotientIs(n: int, d: int, k: int)
    requires d > 0 && d * k <= n < d * k + d
    ensures n / d == k
  {
    assert n == d * (n / d) + n % d;
    MultipleOf(d, n / d - k);
    assert d * (n / d - k) == n - n % d - d * k;
  }

  lemma MultipleOf(d: int, j: int)
    requires d > 0
    ensures j >= 1 ==> d * j >= d
    ensures j <= -1 ==> d * j <= -d
  {
  }

  lemma MarchStartAt(c: int, q: int, t: int)
    requires 0 <= c <= 3 && 0 <= q <= 24 && 0 <= t <= 3
    ensures MarchStart(100 * c + 4 * q + t) == 36524 * c + 1461 * q + 365 * t
  {
    var n := 100 * c + 4 * q + t;
    QuotientIs(n, 4, 25 * c + q);
    QuotientIs(n, 100, c);
    QuotientIs(n, 400, 0);
  }

  lemma SplitDayOfEra(doe: int) returns (c: int, q: int, t: int, doy: int)
    requires 0 <= doe < 146097
    ensures 0 <= c <= 3 && 0 <= q <= 24 && 0 <= t <= 3 && 0 <= doy <= 365
    ensures doe == 36524 * c + 1461 * q + 365 * t + doy
    ensures doy == 365 ==> t == 3 && (q == 24 ==> c == 3)
    ensures 1461 * q + 365 * t + doy == 36524 ==> c == 3
    ensures 1461 * q + 365 * t + doy <= 36524
  {
    c := if doe == 146096 then 3 else doe / 36524;
    var r := doe - 36524 * c;
    assert 0 <= r <= 36524 && (r == 36524 ==> c == 3);
    q := r / 1461;
    var s := r - 1461 * q;
    assert 0 <= q <= 24 && 0 <= s <= 1460;
    t := if s == 1460 then 3 else s / 365;
    doy := s - 365 * t;
  }

  /** `YearOfEra` picks the March-based year that contains day `doe` of the era,
      and the 366th day of a year exists only before a leap February ends. */
  lemma YearOfEraBrackets(doe: int)
    requires 0 <= doe < 146097
    ensures var n := YearOfEra(doe);
            0 <= n < 400 && 0 <= doe - MarchStart(n) <= if IsLeap(n + 1) then 365 else 364
  {
    var c, q, t, doy := SplitDayOfEra(doe);
    YearOfEraFormula(c, q, t, doy);
    MarchStartAt(c, q, t);
    LeapAfter(c, q, t);
  }

  lemma LeapAfter(c: int, q: int, t: int)
    requires 0 <= c <= 3 && 0 <= q <= 24 && 0 <= t <= 3
    ensures IsLeap(100 * c + 4 * q + t + 1) <==> t == 3 && (q == 24 ==> c == 3)
  {
    var n := 100 * c + 4 * q + t + 1;
    assert n % 4 == (t + 1) % 4;
    if t == 3 {
      assert n == 100 * c + (4 * q + 4);
      assert n % 100 == 0 <==> q == 24;
    }
  }

  /** 1 March of year `y`, counted by the calendar. */
  lemma MarchFirst(y: int)
    ensures DaysBeforeYear(y) + DaysBeforeMonth(y, 3) == MarchStart(y) - 306
  {
    MonthTable(y);
    YearLength(y);
    assert DaysBeforeYear(y + 1) == MarchStart(y);
  }

  lemma MarchStartShift(n: int, era: int)
    ensures MarchStart(n + 400 * era) == MarchStart(n) + 146097 * era
    ensures IsLeap(n + 400 * era) <==> IsLeap(n)
  {
    QuotientIs(n + 400 * era, 4, n / 4 + 100 * era);
    QuotientIs(n + 400 * era, 100, n / 100 + 4 * era);
    QuotientIs(n + 400 * era, 400, n / 400 + era);
  }

  /** `(5 * doy + 2) / 153` is the month, counted from March, that contains `doy`. */
  lemma MonthBrackets(doy: int)
    requires 0 <= doy <= 365
    ensures var mp := (5 * doy + 2) / 153;
            0 <= mp <= 11 && (153 * mp + 2) / 5 <= doy < (153 * (mp + 1) + 2) / 5
  {
  }

  /** `(153 * mp + 2) / 5` is the day, counted from 1 March, on which month `mp` starts. */
  lemma MonthStart(y: int, mp: int)
    requires 0 <= mp <= 11
    ensures var m := if mp < 10 then mp + 3 else mp - 9;
            var year := if m <= 2 then y + 1 else y;
            && DaysBeforeYear(year) + DaysBeforeMonth(year, m)
               == MarchStart(y) - 306 + (153 * mp + 2) / 5
            && (mp < 11 ==> DaysInMonth(year, m) == (153 * (mp + 1) + 2) / 5 - (153 * mp + 2) / 5)
            && (mp == 11 ==> DaysInMonth(year, m) == if IsLeap(y + 1) then 29 else 28)
  {
    MarchFirst(y);
    MonthTable(y);
    MonthTable(y + 1);
    YearLength(y);
  }

  /** Day `doy` counted from 1 March of year `y` is the date the table yields. */
  lemma MonthFromDayOfYear(y: int, doy: int)
    requires 0 <= doy <= if IsLeap(y + 1) then 365 else 364
    ensures ValidDate(DateOfMarchYear(y, doy))
    ensures DaysFromCivil(DateOfMarchYear(y, doy)) == MarchStart(y) - 306 + doy - 719162
  {
    MonthBrackets(doy);
    MonthStart(y, (5 * doy + 2) / 153);
  }

  lemma MarchYearRoundTrip(era: int, yoe: int, doy: int)
    requires 0 <= doy <= if IsLeap(yoe + 1) then 365 else 364
    ensures ValidDate(DateOfMarchYear(yoe + era * 400, doy))
    ensures DaysFromCivil(DateOfMarchYear(yoe + era * 400, doy))
            == era * 146097 + MarchStart(yoe) + doy - 719468
  {
    MarchStartShift(yoe, era);
    MarchStartShift(yoe + 1, era);
    MonthFromDayOfYear(yoe + 400 * era, doy);
  }

  lemma EraRoundTrip(era: int, doe: int)
    requires 0 <= doe < 146097
    ensures ValidDate(DateOfEra(era, doe))
    ensures DaysFromCivil(DateOfEra(era, doe)) == era * 146097 + doe - 719468
  {
    var yoe := YearOfEra(doe);
    YearOfEraBrackets(doe);
    QuotientIs(yoe, 400, 0);
    var doy := doe - (365 * yoe + yoe / 4 - yoe / 100);
    assert doy == doe - MarchStart(yoe);
    assert DateOfEra(era, doe) == DateOfMarchYear(yoe + era * 400, doy);
    MarchYearRoundTrip(era, yoe, doy);
  }

  /** For every day number the conversion yields a valid date whose day number,
      counted by the calendar, is the one it was given. */
  lemma CivilRoundTrip(days: int)
    ensures ValidDate(Civil(days))
    ensures DaysFromCivil(Civil(days)) == days
  {
    var z := days + 719468;
    EraIsFloor(z);
    EraRoundTrip(Era(z), DayOfEra(z));
  }

  /** The other direction: every date comes back from its day number. */
  lemma DaysRoundTrip(d: Date)
    requires ValidDate(d)
    ensures Civil(DaysFromCivil(d)) == d
  {
    CivilRoundTrip(DaysFromCivil(d));
    DaysFromCivilOrder(Civil(DaysFromCivil(d)), d);
  }

  lemma CivilOfEpoch()
    ensures Civil(0) == Date(1970, 1, 1)
  {
  }

  /** Consecutive day numbers are consecutive calendar days. */
  lemma CivilSuccessor(days: int)
    ensures ValidDate(Civil(days)) && Civil(days + 1) == NextDay(Civil(days))
  {
    CivilRoundTrip(days);
    var d := Civil(days);
    NextDayIsOneLater(d);
    DaysRoundTrip(NextDay(d));
  }

  /** Day order is date order. */
  lemma CivilOrder(a: int, b: int)
    ensures a < b <==> Earlier(Civil(a), Civil(b))
  {
    CivilRoundTrip(a);
    CivilRoundTrip(b);
    DaysFromCivilOrder(Civil(a), Civil(b));
  }

  // The day numbers of -2147483648-01-01 and 2147483647-12-31.
  const MIN_I32_DAY: int := -784353015833
  const MAX_I32_DAY: int := 784351576776

  /** The returned year is an `i32`: the result denotes the day asked for exactly
      when that day lies in the years an `i32` can name. */
  lemma CivilFromDaysExact(days: int)
    ensures ValidDate(CivilFromDays(days)) && DaysFromCivil(CivilFromDays(days)) == days
            <==> MIN_I32_DAY <= days <= MAX_I32_DAY
  {
    CivilRoundTrip(days);
    I32Years(Civil(days));
    var w := CivilFromDays(days);
    if ValidDate(w) {
      DaysFromCivilOrder(w, Civil(days));
    }
  }

  lemma AsI32Exact(n: int)
    ensures AsI32(n) == n <==> -0x8000_0000 <= n <= 0x7fff_ffff
  {
  }

  lemma I32Years(c: Date)
    requires ValidDate(c)
    ensures AsI32(c.year) == c.year <==> MIN_I32_DAY <= DaysFromCivil(c) <= MAX_I32_DAY
  {
    AsI32Exact(c.year);
    var lo, hi := Date(-0x8000_0000, 1, 1), Date(0x7fff_ffff, 12, 31);
    I32Bounds();
    DaysFromCivilOrder(c, lo);
    DaysFromCivilOrder(hi, c);
  }

  lemma I32Bounds()
    ensures DaysFromCivil(Date(-0x8000_0000, 1, 1)) == MIN_I32_DAY
    ensures DaysFromCivil(Date(0x7fff_ffff, 12, 31)) == MAX_I32_DAY
  {
    MonthTable(0x7fff_ffff);
  }
}
