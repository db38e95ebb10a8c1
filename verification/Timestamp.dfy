/** `chrono_like_now` and `is_expired` of acp/src/grok_account.rs: a UTC
    timestamp is printed and then compared as a string. */
module Timestamp {
  import opened Text
  import opened Calendar

  // ----- zero-padded numerals ----------------------------------------------

  function Pow10(k: nat): (p: nat)
    ensures p > 0
  {
    if k == 0 then 1 else 10 * Pow10(k - 1)
  }

  function Zeros(k: nat): string { if k == 0 then "" else ['0'] + Zeros(k - 1) }

  /** `format!("{n:0width$}")` for a non-negative number. */
  function Pad(n: nat, width: nat): string {
    var s := Decimal(n);
    if |s| >= width then s else Zeros(width - |s|) + s
  }

  /** The last `width` decimal digits of `n`. */
  function FixedDigits(n: nat, width: nat): (s: string)
    ensures |s| == width
    ensures forall i :: 0 <= i < |s| ==> IsDigit(s[i])
  {
    if width == 0 then "" else FixedDigits(n / 10, width - 1) + [DigitChar(n % 10)]
  }

  lemma {:induction false} FixedOrder(m: nat, n: nat, width: nat)
    requires m < Pow10(width) && n < Pow10(width)
    ensures LexLess(FixedDigits(m, width), FixedDigits(n, width)) <==> m < n
    ensures FixedDigits(m, width) == FixedDigits(n, width) <==> m == n
  {
    if width > 0 {
      FixedOrder(m / 10, n / 10, width - 1);
      DigitOrder(m % 10, n % 10);
      LexLessConcat(FixedDigits(m / 10, width - 1), FixedDigits(n / 10, width - 1),
                    [DigitChar(m % 10)], [DigitChar(n % 10)]);
      var a, b := FixedDigits(m, width), FixedDigits(n, width);
      assert a == b <==> a[..width - 1] == b[..width - 1] && a[width - 1] == b[width - 1];
    }
  }

  lemma {:induction false} FixedZero(k: nat)
    ensures FixedDigits(0, k) == Zeros(k)
  {
    if k > 0 {
      FixedZero(k - 1);
      ZerosSnoc(k - 1);
    }
  }

  lemma {:induction false} ZerosSnoc(k: nat)
    ensures Zeros(k) + ['0'] == ['0'] + Zeros(k)
  {
    if k > 0 { ZerosSnoc(k - 1); }
  }

  lemma {:induction false} PadIsFixed(n: nat, width: nat)
    requires |Decimal(n)| <= width
    ensures Zeros(width - |Decimal(n)|) + Decimal(n) == FixedDigits(n, width)
  {
    if n < 10 {
      FixedZero(width - 1);
    } else {
      PadIsFixed(n / 10, width - 1);
      var z, s, d := Zeros(width - |Decimal(n)|), Decimal(n / 10), [DigitChar(n % 10)];
      assert z + (s + d) == (z + s) + d;
    }
  }

  /** A number of `k` digits lies between consecutive powers of ten. */
  lemma {:induction false} DecimalLength(n: nat)
    ensures n < Pow10(|Decimal(n)|)
    ensures n > 0 ==> Pow10(|Decimal(n)| - 1) <= n
  {
    if n >= 10 { DecimalLength(n / 10); }
  }

  lemma {:induction false} Pow10Monotone(j: nat, k: nat)
    requires j <= k
    ensures 1 <= Pow10(j) <= Pow10(k)
    decreases k
  {
    if j < k { Pow10Monotone(j, k - 1); } else if j > 0 { Pow10Monotone(j - 1, k - 1); }
  }

  lemma DecimalLengthAtMost(n: nat, k: nat)
    requires k > 0 && n < Pow10(k)
    ensures |Decimal(n)| <= k
  {
    DecimalLength(n);
    if |Decimal(n)| > k { Pow10Monotone(k, |Decimal(n)| - 1); }
  }

  lemma PadShort(n: nat, width: nat)
    requires width > 0 && n < Pow10(width)
    ensures Pad(n, width) == FixedDigits(n, width)
  {
    DecimalLengthAtMost(n, width);
    PadIsFixed(n, width);
  }

  // ----- the printed instant ------------------------------------------------

  const LAST_SECOND_OF_9999: nat := 253402300799
  const I32_SECONDS: nat := (MAX_I32_DAY + 1) * 86400

  function YearOf(secs: nat): int { Civil(secs / 86400).year }

  /** `{year:04}`; the sign counts toward the width. */
  function FormatYear(y: int): string {
    if y >= 0 then Pad(y, 4) else "-" + Pad(-y, 3)
  }

  function TwoDigits(n: int): string { if n >= 0 then Pad(n, 2) else "-" + Decimal(-n) }

  /** One two-digit field, its separator, and what follows. */
  function Field(n: int, sep: string, rest: string): string { TwoDigits(n) + (sep + rest) }

  /** `{hours:02}:{minutes:02}:{seconds:02}Z` */
  function FormatClock(rem: nat): string {
    Field(rem / 3600, ":", Field(rem % 3600 / 60, ":", Field(rem % 60, "Z", "")))
  }

  /** `-{month:02}-{day:02}T` and the clock. */
  function FormatTail(month: int, day: int, rem: nat): string {
    "-" + Field(month, "-", Field(day, "T", FormatClock(rem)))
  }

  /** `chrono_like_now` at `secs` seconds after the Unix epoch. */
  function Format(secs: nat): string {
    var date := CivilFromDays(secs / 86400);
    FormatYear(date.year) + FormatTail(date.month, date.day, secs % 86400)
  }

  /** `is_expired` for a present `expires_at`; the absent one never expires. */
  predicate IsExpired(expiresAt: Option<string>, now: nat) {
    expiresAt.Some? && expiresAt.value != "" && LexLess(expiresAt.value, Format(now))
  }

  // ----- the part after the year -------------------------------------------

  lemma TwoDigitOrder(m: int, n: int)
    requires 0 <= m < 100 && 0 <= n < 100
    ensures |TwoDigits(m)| == 2 == |TwoDigits(n)|
    ensures LexLess(TwoDigits(m), TwoDigits(n)) <==> m < n
    ensures TwoDigits(m) == TwoDigits(n) <==> m == n
  {
    assert Pow10(2) == 100;
    PadShort(m, 2);
    PadShort(n, 2);
    FixedOrder(m, n, 2);
  }

  lemma FieldOrder(m: int, n: int, sep: string, x: string, y: string)
    requires 0 <= m < 100 && 0 <= n < 100
    ensures LexLess(Field(m, sep, x), Field(n, sep, y)) <==> m < n || (m == n && LexLess(x, y))
  {
    TwoDigitOrder(m, n);
    LexLessConcat(TwoDigits(m), TwoDigits(n), sep + x, sep + y);
    LexLessConcat(sep, sep, x, y);
    LexIrreflexive(sep);
  }

  lemma ClockOrder(r: nat, s: nat)
    requires r < 86400 && s < 86400
    ensures LexLess(FormatClock(r), FormatClock(s)) <==> r < s
  {
    FieldOrder(r % 60, s % 60, "Z", "", "");
    var x, y := Field(r % 60, "Z", ""), Field(s % 60, "Z", "");
    FieldOrder(r % 3600 / 60, s % 3600 / 60, ":", x, y);
    FieldOrder(r / 3600, s / 3600, ":", Field(r % 3600 / 60, ":", x), Field(s % 3600 / 60, ":", y));
    ClockDigits(r);
    ClockDigits(s);
  }

  lemma ClockDigits(r: nat)
    ensures r == 3600 * (r / 3600) + 60 * (r % 3600 / 60) + r % 60
    ensures 0 <= r % 3600 / 60 < 60 && 0 <= r % 60 < 60
  {
    var q := r % 3600;
    assert r == 3600 * (r / 3600) + q && q == 60 * (q / 60) + q % 60;
    assert r == 60 * (60 * (r / 3600) + q / 60) + q % 60;
    QuotientIs(r, 60, 60 * (r / 3600) + q / 60);
  }

  lemma TailOrder(a: Date, r: nat, b: Date, s: nat)
    requires ValidDate(a) && ValidDate(b) && r < 86400 && s < 86400
    ensures LexLess(FormatTail(a.month, a.day, r), FormatTail(b.month, b.day, s)) <==>
            || a.month < b.month
            || (a.month == b.month && a.day < b.day)
            || (a.month == b.month && a.day == b.day && r < s)
  {
    ClockOrder(r, s);
    FieldOrder(a.day, b.day, "T", FormatClock(r), FormatClock(s));
    var x, y := Field(a.day, "T", FormatClock(r)), Field(b.day, "T", FormatClock(s));
    FieldOrder(a.month, b.month, "-", x, y);
    LexLessConcat("-", "-", Field(a.month, "-", x), Field(b.month, "-", y));
  }

  lemma TailLength(d: Date, rem: nat)
    requires ValidDate(d) && rem < 86400
    ensures |FormatTail(d.month, d.day, rem)| == 16
  {
    TwoDigitOrder(d.month, d.day);
    ClockDigits(rem);
    TwoDigitOrder(rem / 3600, rem % 3600 / 60);
    TwoDigitOrder(rem % 60, 0);
  }

  // ----- order --------------------------------------------------------------

  lemma DateOf(secs: nat)
    requires secs < I32_SECONDS
    ensures ValidDate(CivilFromDays(secs / 86400)) && CivilFromDays(secs / 86400) == Civil(secs / 86400)
    ensures 1970 <= YearOf(secs)
  {
    CivilFromDaysExact(secs / 86400);
    CivilRoundTrip(secs / 86400);
    DaysFromCivilOrder(CivilFromDays(secs / 86400), Civil(secs / 86400));
    CivilOfEpoch();
    CivilOrder(secs / 86400, 0);
  }

  /** Instants are ordered by year, then by the printed tail. */
  lemma InstantOrder(s: nat, t: nat)
    requires s < I32_SECONDS && t < I32_SECONDS
    ensures var a, b := Civil(s / 86400), Civil(t / 86400);
            var x, y := FormatTail(a.month, a.day, s % 86400), FormatTail(b.month, b.day, t % 86400);
            s < t <==> a.year < b.year || (a.year == b.year && LexLess(x, y))
  {
    DateOf(s);
    DateOf(t);
    CivilOrder(s / 86400, t / 86400);
    CivilOrder(t / 86400, s / 86400);
    TailOrder(Civil(s / 86400), s % 86400, Civil(t / 86400), t % 86400);
  }

  /** What is left of `n` without its last `drop` digits. */
  function Leading(n: nat, drop: nat): nat { if drop == 0 then n else Leading(n / 10, drop - 1) }

  /** The leading `k` digits of a `j`-digit number. */
  lemma {:induction false} FixedPrefix(n: nat, j: nat, k: nat)
    requires k <= j
    ensures FixedDigits(n, j)[..k] == FixedDigits(Leading(n, j - k), k)
    decreases j
  {
    if k < j {
      FixedPrefix(n / 10, j - 1, k);
      assert FixedDigits(n, j)[..k] == FixedDigits(n / 10, j - 1)[..k];
    }
  }

  function YearDigits(y: nat): nat { if |Decimal(y)| < 4 then 4 else |Decimal(y)| }

  /** Comparing years as strings looks at no more digits than the shorter one has:
      an earlier year `y` sorts first when it does not exceed the leading digits
      of the later year. */
  predicate LeadingDigitsAgree(y: int, later: int) {
    0 <= y && 0 <= later &&
    YearDigits(y) <= YearDigits(later) && y <= Leading(later, YearDigits(later) - YearDigits(y))
  }

  lemma YearText(y: nat)
    ensures FormatYear(y) == FixedDigits(y, YearDigits(y))
    ensures y < Pow10(YearDigits(y))
    ensures YearDigits(y) > 4 ==> Pow10(YearDigits(y) - 1) <= y
  {
    DecimalLength(y);
    Pow10Monotone(|Decimal(y)|, YearDigits(y));
    if |Decimal(y)| >= 4 {
      PadIsFixed(y, |Decimal(y)|);
      assert Zeros(0) + Decimal(y) == Decimal(y);
    } else {
      PadIsFixed(y, 4);
    }
  }

  lemma MoreDigits(y: nat, later: nat)
    requires y <= later
    ensures YearDigits(y) <= YearDigits(later)
  {
    YearText(y);
    YearText(later);
    if YearDigits(later) < YearDigits(y) {
      Pow10Monotone(YearDigits(later), YearDigits(y) - 1);
    }
  }

  /** A year followed by `-` against a later year that starts with `head`. */
  lemma ShorterYearOrder(year: string, head: string, rest: string, x: string, z: string)
    requires |year| == |head| && (year == head ==> rest != "" && IsDigit(rest[0]))
    ensures LexLess(year + ("-" + x), head + (rest + z)) <==> LexLess(year, head) || year == head
    ensures year + ("-" + x) != head + (rest + z)
  {
    LexLessConcat(year, head, "-" + x, rest + z);
    if year == head {
      assert (rest + z)[0] == rest[0];
      assert (year + ("-" + x))[|year|] != (head + (rest + z))[|year|];
    } else {
      assert (year + ("-" + x))[..|year|] == year && (head + (rest + z))[..|year|] == head;
    }
  }

  lemma LeadingOrder(y: nat, later: nat, k: nat, j: nat)
    requires k <= j && y < later && y < Pow10(k) && later < Pow10(j)
    ensures var a, head := FixedDigits(y, k), FixedDigits(later, j)[..k];
            && (LexLess(a, head) || a == head <==> y <= Leading(later, j - k))
            && (a == head ==> k < j)
  {
    FixedPrefix(later, j, k);
    LeadingBound(later, j, k);
    FixedOrder(y, Leading(later, j - k), k);
  }

  lemma SplitLaterYear(y: nat, later: nat) returns (head: string, rest: string)
    requires y < later
    ensures FormatYear(later) == head + rest && |head| == |FormatYear(y)|
    ensures LexLess(FormatYear(y), head) || FormatYear(y) == head <==> LeadingDigitsAgree(y, later)
    ensures FormatYear(y) == head ==> rest != "" && IsDigit(rest[0])
  {
    hide FixedDigits, FormatYear, YearDigits, Pow10, Leading, LexLess, Decimal;
    YearText(y);
    YearText(later);
    MoreDigits(y, later);
    var k, j := YearDigits(y), YearDigits(later);
    LeadingOrder(y, later, k, j);
    var full := FixedDigits(later, j);
    head, rest := full[..k], full[k..];
    assert rest != "" ==> rest[0] == full[k];
  }

  /** String order of two texts that start with years `y < later`. */
  lemma YearOrder(y: nat, later: nat, x: string, z: string)
    requires y < later
    ensures LexLess(FormatYear(y) + ("-" + x), FormatYear(later) + z) <==> LeadingDigitsAgree(y, later)
    ensures FormatYear(y) + ("-" + x) != FormatYear(later) + z
  {
    hide *;
    var head, rest := SplitLaterYear(y, later);
    ShorterYearOrder(FormatYear(y), head, rest, x, z);
    assert head + (rest + z) == FormatYear(later) + z;
  }

  lemma {:induction false} LeadingBound(n: nat, j: nat, k: nat)
    requires k <= j && n < Pow10(j)
    ensures Leading(n, j - k) < Pow10(k)
    decreases j
  {
    if k < j { LeadingBound(n / 10, j - 1, k); }
  }

  /** For every pair of instants an `i32` year can print, string order is time
      order exactly when the years agree on the digits both have. */
  lemma FormatOrder(s: nat, t: nat)
    requires s < t < I32_SECONDS
    ensures LexLess(Format(s), Format(t)) <==> YearOf(s) == YearOf(t) || LeadingDigitsAgree(YearOf(s), YearOf(t))
    ensures Format(s) != Format(t)
  {
    DateOf(s);
    DateOf(t);
    InstantOrder(s, t);
    var a, b := Civil(s / 86400), Civil(t / 86400);
    var x, y := FormatTail(a.month, a.day, s % 86400), FormatTail(b.month, b.day, t % 86400);
    if a.year == b.year {
      LexLessConcat(FormatYear(a.year), FormatYear(b.year), x, y);
      LexIrreflexive(FormatYear(a.year));
      LexIrreflexive(Format(s));
    } else {
      assert x == "-" + x[1..];
      YearOrder(a.year, b.year, x[1..], y);
    }
  }

  lemma FourDigitYear(secs: nat)
    requires secs <= LAST_SECOND_OF_9999
    ensures secs < I32_SECONDS && 1970 <= YearOf(secs) <= 9999
    ensures |Format(secs)| == 20
  {
    DateOf(secs);
    CivilOrder(2932896, secs / 86400);
    LastDayOf9999();
    var y := YearOf(secs);
    assert Pow10(4) == 10000;
    PadShort(y, 4);
    TailLength(Civil(secs / 86400), secs % 86400);
  }

  lemma LastDayOf9999()
    ensures Civil(2932896) == Date(9999, 12, 31)
  {
  }

  /** Up to the year 9999 every timestamp has twenty characters and string order
      is the order of the instants. */
  lemma FourDigitFormatOrder(s: nat, t: nat)
    requires s <= LAST_SECOND_OF_9999 && t <= LAST_SECOND_OF_9999
    ensures |Format(s)| == |Format(t)| == 20
    ensures LexLess(Format(s), Format(t)) <==> s < t
    ensures Format(s) == Format(t) <==> s == t
  {
    FourDigitYear(s);
    FourDigitYear(t);
    LexTrichotomy(Format(s), Format(t));
    LexIrreflexive(Format(s));
    if s < t {
      FourDigitPair(s, t);
    } else if t < s {
      FourDigitPair(t, s);
    }
  }

  lemma FourDigitPair(s: nat, t: nat)
    requires s < t <= LAST_SECOND_OF_9999
    ensures LexLess(Format(s), Format(t)) && Format(s) != Format(t)
  {
    FourDigitYear(s);
    FourDigitYear(t);
    FormatOrder(s, t);
    InstantOrder(s, t);
    SameDigits(YearOf(s), YearOf(t));
  }

  lemma SameDigits(y: nat, later: nat)
    requires y <= later <= 9999
    ensures LeadingDigitsAgree(y, later)
  {
    assert Pow10(4) == 10000;
    DecimalLengthAtMost(y, 4);
    DecimalLengthAtMost(later, 4);
  }

  lemma FifthDigit()
    ensures !LeadingDigitsAgree(9999, 10000)
  {
    assert |Decimal(9999)| == 4 && |Decimal(10000)| == 5;
    assert Leading(10000, 1) == 1000;
  }

  /** A timestamp in the printed format is expired exactly when it is earlier than now. */
  lemma ExpiredIsEarlier(expires: nat, now: nat)
    requires expires <= LAST_SECOND_OF_9999 && now <= LAST_SECOND_OF_9999
    ensures IsExpired(Some(Format(expires)), now) <==> expires < now
  {
    FourDigitFormatOrder(expires, now);
  }

  /** The year 10000 sorts before the year 9999. */
  lemma FifthDigitBreaksOrder()
    ensures LAST_SECOND_OF_9999 < LAST_SECOND_OF_9999 + 1
    ensures IsExpired(Some(Format(LAST_SECOND_OF_9999 + 1)), LAST_SECOND_OF_9999)
  {
    var s, t := LAST_SECOND_OF_9999, LAST_SECOND_OF_9999 + 1;
    LastDayOf9999();
    CivilSuccessor(2932896);
    assert s / 86400 == 2932896 && t / 86400 == 2932897;
    assert YearOf(s) == 9999 && YearOf(t) == 10000;
    FormatOrder(s, t);
    LexTrichotomy(Format(s), Format(t));
    FifthDigit();
  }

  // ----- fractional seconds -------------------------------------------------

  /** The same instant plus a fraction of a second, as section 5.6 of RFC 3339 writes it. */
  function FormatFraction(secs: nat, digits: string): string
    requires Format(secs) != ""
  {
    Format(secs)[..|Format(secs)| - 1] + "." + digits + "Z"
  }

  /** With a fraction the comparison answers "not later than the current second".
      The instant itself, `secs` plus a fraction, is earlier than `now` only when
      `secs < now`, so the two part ways exactly during the second of expiry. */
  lemma FractionExpiry(secs: nat, digits: string, now: nat)
    requires secs <= LAST_SECOND_OF_9999 && now <= LAST_SECOND_OF_9999
    ensures |Format(secs)| == 20
    ensures IsExpired(Some(FormatFraction(secs, digits)), now) <==> secs <= now
    ensures (IsExpired(Some(FormatFraction(secs, digits)), now) <==> secs < now) <==> secs != now
  {
    FourDigitFormatOrder(secs, now);
    EndsInZ(secs);
    EndsInZ(now);
    FractionOrder(Format(secs), Format(now), digits);
  }

  /** `.` sorts before `Z`. */
  lemma FractionOrder(f: string, g: string, digits: string)
    requires |f| == |g| == 20 && f[19] == g[19] == 'Z'
    ensures LexLess(f[..|f| - 1] + "." + digits + "Z", g) <==> LexLess(f, g) || f == g
  {
    var a, b := f[..19], g[..19];
    assert f == a + "Z" && g == b + "Z";
    LexLessConcat(a, b, "Z", "Z");
    assert a + "." + digits + "Z" == a + ("." + digits + "Z");
    LexLessConcat(a, b, "." + digits + "Z", "Z");
  }

  lemma EndsInZ(secs: nat)
    requires |Format(secs)| == 20
    ensures Format(secs)[19] == 'Z'
  {
    FieldLast(secs % 86400 % 60, "Z", "");
    var r := secs % 86400;
    FieldLast(r % 3600 / 60, ":", Field(r % 60, "Z", ""));
    FieldLast(r / 3600, ":", Field(r % 3600 / 60, ":", Field(r % 60, "Z", "")));
    var d := CivilFromDays(secs / 86400);
    FieldLast(d.day, "T", FormatClock(r));
    FieldLast(d.month, "-", Field(d.day, "T", FormatClock(r)));
  }

  lemma FieldLast(n: int, sep: string, rest: string)
    requires sep != ""
    ensures Field(n, sep, rest) != ""
    ensures var f, t := Field(n, sep, rest), if rest == "" then sep else rest;
            f[|f| - 1] == t[|t| - 1]
  {
  }
}
