/** Reading a UTC timestamp of twenty characters as the instant it denotes, which is what the
    texts printed and compared in acp/src/grok_account.rs stand for. */
module TimestampReader {
  import opened Text
  import opened Calendar
  import opened Timestamp

  // ----- numerals -----------------------------------------------------------

  predicate Digits(s: string) { forall i :: 0 <= i < |s| ==> IsDigit(s[i]) }

  /** The number a row of digits denotes. */
  function Number(s: string): nat
    requires Digits(s)
  {
    DecimalValue(s)
  }

  lemma {:induction false} NumberOrder(a: string, b: string)
    requires Digits(a) && Digits(b) && |a| == |b|
    ensures LexLess(a, b) <==> Number(a) < Number(b)
    ensures a == b <==> Number(a) == Number(b)
    decreases |a|
  {
    if a != "" {
      var n := |a| - 1;
      NumberOrder(a[..n], b[..n]);
      assert a == a[..n] + [a[n]] && b == b[..n] + [b[n]];
      LexLessConcat(a[..n], b[..n], [a[n]], [b[n]]);
      OneChar(a[n], b[n]);
    }
  }

  lemma OneChar(x: char, y: char)
    ensures LexLess([x], [y]) <==> x < y
  {
  }

  lemma NumberSnoc(front: string, d: nat)
    requires Digits(front) && d < 10
    ensures Digits(front + [DigitChar(d)]) && Number(front + [DigitChar(d)]) == 10 * Number(front) + d
  {
    assert (front + [DigitChar(d)])[..|front|] == front;
  }

  /** Printing a number in a fixed width and reading it gives it back. */
  lemma {:induction false} NumberOfFixed(n: nat, width: nat)
    requires n < Pow10(width)
    ensures Digits(FixedDigits(n, width)) && Number(FixedDigits(n, width)) == n
  {
    if width > 0 {
      hide Pow10, DigitChar;
      NumberOfFixed(n / 10, width - 1);
      NumberSnoc(FixedDigits(n / 10, width - 1), n % 10);
    }
  }

  // ----- the twenty characters ---------------------------------------------

  /** `dddd-dd-ddTdd:dd:ddZ` */
  predicate Shaped(s: string) {
    && |s| == 20 && s[4] == '-' && s[7] == '-' && s[10] == 'T' && s[13] == ':' && s[16] == ':' && s[19] == 'Z'
    && Digits(s[0..4]) && Digits(s[5..7]) && Digits(s[8..10])
    && Digits(s[11..13]) && Digits(s[14..16]) && Digits(s[17..19])
  }

  function DateIn(s: string): Date
    requires Shaped(s)
  {
    Date(Number(s[0..4]), Number(s[5..7]), Number(s[8..10]))
  }

  predicate ClockOk(s: string)
    requires Shaped(s)
  {
    Number(s[11..13]) < 24 && Number(s[14..16]) < 60 && Number(s[17..19]) < 60
  }

  function ClockIn(s: string): nat
    requires Shaped(s)
  {
    3600 * Number(s[11..13]) + 60 * Number(s[14..16]) + Number(s[17..19])
  }

  /** The text is a valid date and time of day, and denotes the instant `t` seconds after the epoch. */
  predicate Reads(s: string, t: int) {
    && Shaped(s) && ValidDate(DateIn(s)) && ClockOk(s)
    && t == 86400 * DaysFromCivil(DateIn(s)) + ClockIn(s)
  }

  /** A part, the separator behind it, and the rest. */
  function Then(part: string, sep: string, rest: string): string { part + (sep + rest) }

  function ClockText(h: string, mi: string, s: string): string {
    var tail := Then(mi, ":", Then(s, "Z", ""));
    Then(h, ":", tail)
  }

  function DateText(y: string, mo: string, d: string, clock: string): string {
    var tail := Then(mo, "-", Then(d, "T", clock));
    Then(y, "-", tail)
  }

  function Assembled(y: string, mo: string, d: string, h: string, mi: string, s: string): string {
    DateText(y, mo, d, ClockText(h, mi, s))
  }

  lemma Parts(s: string)
    requires Shaped(s)
    ensures s == Assembled(s[0..4], s[5..7], s[8..10], s[11..13], s[14..16], s[17..19])
  {
  }

  lemma PartsOf(y: string, mo: string, d: string, h: string, mi: string, s: string)
    requires |y| == 4 && |mo| == |d| == |h| == |mi| == |s| == 2
    requires Digits(y) && Digits(mo) && Digits(d) && Digits(h) && Digits(mi) && Digits(s)
    ensures var t := Assembled(y, mo, d, h, mi, s);
            && Shaped(t) && t[0..4] == y && t[5..7] == mo && t[8..10] == d
            && t[11..13] == h && t[14..16] == mi && t[17..19] == s
  {
    hide ClockText, DateText, Digits;
    var clock := ClockText(h, mi, s);
    var t := DateText(y, mo, d, clock);
    ClockParts(h, mi, s);
    DateParts(y, mo, d, clock);
    assert t[11..13] == t[11..][0..2] && t[14..16] == t[11..][3..5] && t[17..19] == t[11..][6..8];
    assert t[13] == t[11..][2] && t[16] == t[11..][5] && t[19] == t[11..][8];
  }

  lemma ClockParts(h: string, mi: string, s: string)
    requires |h| == |mi| == |s| == 2
    ensures var t := ClockText(h, mi, s);
            && |t| == 9 && t[0..2] == h && t[2] == ':' && t[3..5] == mi && t[5] == ':' && t[6..8] == s && t[8] == 'Z'
  {
  }

  lemma DateParts(y: string, mo: string, d: string, clock: string)
    requires |y| == 4 && |mo| == |d| == 2
    ensures var t := DateText(y, mo, d, clock);
            && |t| == 11 + |clock| && t[0..4] == y && t[4] == '-' && t[5..7] == mo && t[7] == '-' && t[8..10] == d
            && t[10] == 'T' && t[11..] == clock
  {
  }

  // ----- what is printed ----------------------------------------------------

  lemma TwoDigitsRead(n: int)
    requires 0 <= n < 100
    ensures |TwoDigits(n)| == 2 && Digits(TwoDigits(n)) && Number(TwoDigits(n)) == n
  {
    assert Pow10(2) == 100;
    PadShort(n, 2);
    NumberOfFixed(n, 2);
  }

  lemma FourDigitsRead(y: int)
    requires 0 <= y <= 9999
    ensures |FormatYear(y)| == 4 && Digits(FormatYear(y)) && Number(FormatYear(y)) == y
  {
    assert Pow10(4) == 10000;
    PadShort(y, 4);
    NumberOfFixed(y, 4);
  }

  /** Through the year 9999 the printed text reads as the instant it was printed for. */
  lemma PrintedReads(secs: nat)
    requires secs <= LAST_SECOND_OF_9999
    ensures Reads(Format(secs), secs)
  {
    hide FormatYear, TwoDigits, Number, Digits, CivilFromDays, Civil, DaysFromCivil, ValidDate, Format, Shaped;
    var day, r := secs / 86400, secs % 86400;
    FourDigitYear(secs);
    DateOf(secs);
    CivilRoundTrip(day);
    ClockDigits(r);
    var d := Civil(day);
    InMonth(d);
    FourDigitsRead(d.year);
    TwoDigitsRead(d.month);
    TwoDigitsRead(d.day);
    TwoDigitsRead(r / 3600);
    TwoDigitsRead(r % 3600 / 60);
    TwoDigitsRead(r % 60);
    PartsOf(FormatYear(d.year), TwoDigits(d.month), TwoDigits(d.day), TwoDigits(r / 3600), TwoDigits(r % 3600 / 60),
            TwoDigits(r % 60));
    FormatIs(secs);
  }

  lemma InMonth(d: Date)
    requires ValidDate(d)
    ensures 1 <= d.month <= 12 && 1 <= d.day <= 31
  {
  }

  lemma FormatIs(secs: nat)
    ensures var d, r := CivilFromDays(secs / 86400), secs % 86400;
            Format(secs) == Assembled(FormatYear(d.year), TwoDigits(d.month), TwoDigits(d.day), TwoDigits(r / 3600),
                                      TwoDigits(r % 3600 / 60), TwoDigits(r % 60))
  {
    hide FormatYear, TwoDigits, CivilFromDays;
  }

  // ----- order of readings --------------------------------------------------

  lemma {:induction false} FieldFirst(a: string, b: string, sep: string, x: string, y: string)
    requires Digits(a) && Digits(b) && |a| == |b|
    ensures LexLess(Then(a, sep, x), Then(b, sep, y)) <==> Number(a) < Number(b) || (Number(a) == Number(b) && LexLess(x, y))
  {
    hide Number, LexLess;
    NumberOrder(a, b);
    LexLessConcat(a, b, sep + x, sep + y);
    LexLessConcat(sep, sep, x, y);
    LexIrreflexive(sep);
  }

  lemma ClockNumbers(h: nat, mi: nat, s: nat, h': nat, mi': nat, s': nat)
    requires mi < 60 && s < 60 && mi' < 60 && s' < 60
    ensures 3600 * h + 60 * mi + s < 3600 * h' + 60 * mi' + s' <==> ClockBefore(h, mi, s, h', mi', s')
  {
  }

  predicate ClockBefore(h: nat, mi: nat, s: nat, h': nat, mi': nat, s': nat) {
    h < h' || (h == h' && (mi < mi' || (mi == mi' && s < s')))
  }

  lemma {:induction false} SecondsOrder(s: string, s': string)
    requires Digits(s) && Digits(s') && |s| == |s'|
    ensures LexLess(Then(s, "Z", ""), Then(s', "Z", "")) <==> Number(s) < Number(s')
  {
    hide Number, LexLess, Digits, Then;
    FieldFirst(s, s', "Z", "", "");
    LexIrreflexive("");
  }

  lemma {:induction false} ClockTextOrder(h: string, mi: string, s: string, h': string, mi': string, s': string)
    requires Digits(h) && Digits(mi) && Digits(s) && Digits(h') && Digits(mi') && Digits(s')
    requires |h| == |h'| && |mi| == |mi'| && |s| == |s'|
    ensures LexLess(ClockText(h, mi, s), ClockText(h', mi', s')) <==>
              ClockBefore(Number(h), Number(mi), Number(s), Number(h'), Number(mi'), Number(s'))
  {
    hide Number, LexLess, Digits, Then;
    SecondsOrder(s, s');
    var x, x' := Then(s, "Z", ""), Then(s', "Z", "");
    FieldFirst(mi, mi', ":", x, x');
    FieldFirst(h, h', ":", Then(mi, ":", x), Then(mi', ":", x'));
  }

  lemma {:induction false} TextOrder(y: string, mo: string, d: string, c: string, y': string, mo': string, d': string, c': string)
    requires Digits(y) && Digits(mo) && Digits(d) && Digits(y') && Digits(mo') && Digits(d')
    requires |y| == |y'| && |mo| == |mo'| && |d| == |d'|
    ensures var a, b := Date(Number(y), Number(mo), Number(d)), Date(Number(y'), Number(mo'), Number(d'));
            LexLess(DateText(y, mo, d, c), DateText(y', mo', d', c')) <==>
              Earlier(a, b) || (a == b && LexLess(c, c'))
  {
    hide Number, LexLess, Digits, Then;
    FieldFirst(d, d', "T", c, c');
    var x, x' := Then(d, "T", c), Then(d', "T", c');
    FieldFirst(mo, mo', "-", x, x');
    FieldFirst(y, y', "-", Then(mo, "-", x), Then(mo', "-", x'));
  }

  /** Texts that read as instants are ordered as their instants, and no two of them read alike. */
  lemma ReadingOrder(s: string, t: int, s': string, t': int)
    requires Reads(s, t) && Reads(s', t')
    ensures LexLess(s, s') <==> t < t'
    ensures s == s' <==> t == t'
  {
    ReadingLess(s, t, s', t');
    ReadingLess(s', t', s, t);
    LexTrichotomy(s, s');
  }

  lemma ReadingLess(s: string, t: int, s': string, t': int)
    requires Reads(s, t) && Reads(s', t')
    ensures LexLess(s, s') <==> t < t'
  {
    hide Number, LexLess, Digits, DaysFromCivil, ValidDate, Earlier, ClockText, DateText, ClockBefore;
    Parts(s);
    Parts(s');
    ClockNumbers(Number(s[11..13]), Number(s[14..16]), Number(s[17..19]),
                 Number(s'[11..13]), Number(s'[14..16]), Number(s'[17..19]));
    ClockTextOrder(s[11..13], s[14..16], s[17..19], s'[11..13], s'[14..16], s'[17..19]);
    TextOrder(s[0..4], s[5..7], s[8..10], ClockText(s[11..13], s[14..16], s[17..19]),
              s'[0..4], s'[5..7], s'[8..10], ClockText(s'[11..13], s'[14..16], s'[17..19]));
    DaysFromCivilOrder(DateIn(s), DateIn(s'));
  }

  /** Any stored text of this form, whoever wrote it, is expired exactly when the instant it denotes is
      earlier than now. */
  lemma ExpiredByReading(s: string, t: int, now: nat)
    requires Reads(s, t) && now <= LAST_SECOND_OF_9999
    ensures IsExpired(Some(s), now) <==> t < now
  {
    hide Number, LexLess, Digits, DaysFromCivil, ValidDate, Format;
    PrintedReads(now);
    ReadingOrder(s, t, Format(now), now);
  }
}
