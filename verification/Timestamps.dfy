/**
 UTC timestamps as Python's `isoformat` writes them: six fractional digits, or none at all when the
 microseconds are zero. SQLite compares them as text; the main result is that text order is time order.
 */
module Timestamps {
  datatype Moment = Moment(year: nat, month: nat, day: nat, hour: nat, minute: nat, second: nat, micro: nat)
  {
    predicate Valid() {
      && 1 <= year <= 9999 && 1 <= month <= 12 && 1 <= day <= DaysInMonth(year, month)
      && hour < 24 && minute < 60 && second < 60 && micro < 1_000_000
    }
  }

  /* ------------------------------------------------------------ calendar */

  predicate Leap(year: nat) {
    year % 4 == 0 && (year % 100 != 0 || year % 400 == 0)
  }

  function DaysInMonth(year: nat, month: nat): nat {
    if month == 2 then (if Leap(year) then 29 else 28)
    else if month in {4, 6, 9, 11} then 30 else 31
  }

  function DaysBeforeMonth(year: nat, month: nat): nat {
    if month <= 1 then 0 else DaysBeforeMonth(year, month - 1) + DaysInMonth(year, month - 1)
  }

  function DaysBeforeYear(year: nat): int
    requires year >= 1
  {
    365 * (year - 1) + (year - 1) / 4 - (year - 1) / 100 + (year - 1) / 400
  }

  /** Days since the start of year 1. */
  function Ordinal(m: Moment): int
    requires m.Valid()
  {
    DaysBeforeYear(m.year) + DaysBeforeMonth(m.year, m.month) + m.day
  }

  function SecondOfDay(m: Moment): nat {
    (m.hour * 60 + m.minute) * 60 + m.second
  }

  /** Microseconds on one time axis. */
  function Instant(m: Moment): int
    requires m.Valid()
  {
    (Ordinal(m) * 86_400 + SecondOfDay(m)) * 1_000_000 + m.micro
  }

  /** The calendar, month by month, and two days whose numbers are well known. */
  lemma CalendarMeans(year: nat, month: nat)
    requires 1 <= month <= 12
    ensures DaysInMonth(year, month) == [31, if Leap(year) then 29 else 28, 31, 30, 31, 30, 31, 31, 30, 31, 30, 31][month - 1]
    ensures Leap(2000) && Leap(2024) && !Leap(2023) && !Leap(1900)
    ensures DaysBeforeYear(1970) == 719_162 && DaysBeforeYear(2000) == 730_119
  {
  }

  /** A day has 86400 seconds of a million microseconds. */
  lemma ClockMeans(m: Moment)
    requires m.Valid()
    ensures Instant(m) == Instant(m.(hour := 0, minute := 0, second := 0, micro := 0))
                        + m.hour * 3_600_000_000 + m.minute * 60_000_000 + m.second * 1_000_000 + m.micro
    ensures m.day > 1 ==> Instant(m) == Instant(m.(day := m.day - 1)) + 86_400_000_000
  {
    hide DaysBeforeYear, DaysBeforeMonth, Leap;
  }

  lemma YearLength(year: nat)
    requires year >= 1
    ensures DaysBeforeMonth(year, 13) == if Leap(year) then 366 else 365
    ensures DaysBeforeYear(year + 1) == DaysBeforeYear(year) + DaysBeforeMonth(year, 13)
  {
    MonthSums(year);
    LeapDay(year);
    hide DaysBeforeMonth, DaysInMonth, Leap, DaysBeforeYear;
  }

  lemma LeapDay(year: nat)
    requires year >= 1
    ensures DaysBeforeYear(year + 1) == DaysBeforeYear(year) + if Leap(year) then 366 else 365
  {
    CenturySteps(year);
    Divisors(year);
    LeapSum(year, year % 4 == 0, year % 100 == 0, year % 400 == 0,
      year / 4, (year - 1) / 4, year / 100, (year - 1) / 100, year / 400, (year - 1) / 400);
  }

  lemma Divisors(year: nat)
    ensures year % 100 == 0 ==> year % 4 == 0
    ensures year % 400 == 0 ==> year % 100 == 0
  {
    if year % 100 == 0 {
      assert year == 4 * (25 * (year / 100));
    }
    if year % 400 == 0 {
      assert year == 100 * (4 * (year / 400));
    }
  }

  lemma LeapSum(year: nat, four: bool, hundred: bool, fourHundred: bool, a: int, a0: int, b: int, b0: int, c: int, c0: int)
    requires (hundred ==> four) && (fourHundred ==> hundred)
    requires a == a0 + (if four then 1 else 0) && b == b0 + (if hundred then 1 else 0) && c == c0 + (if fourHundred then 1 else 0)
    ensures 365 * year + a - b + c
      == 365 * (year - 1) + a0 - b0 + c0 + (if four && (!hundred || fourHundred) then 366 else 365)
  {
  }

  lemma MonthSums(year: nat)
    ensures DaysBeforeMonth(year, 13) == if Leap(year) then 366 else 365
  {
    assert DaysInMonth(year, 2) == if Leap(year) then 29 else 28;
    hide Leap;
    assert DaysBeforeMonth(year, 1) == 0;
    assert DaysBeforeMonth(year, 2) == 31;
    assert DaysBeforeMonth(year, 3) == 31 + DaysInMonth(year, 2);
    assert DaysBeforeMonth(year, 5) == DaysBeforeMonth(year, 3) + 61;
    assert DaysBeforeMonth(year, 7) == DaysBeforeMonth(year, 5) + 61;
    assert DaysBeforeMonth(year, 9) == DaysBeforeMonth(year, 7) + 62;
    assert DaysBeforeMonth(year, 11) == DaysBeforeMonth(year, 9) + 61;
    assert DaysBeforeMonth(year, 13) == DaysBeforeMonth(year, 11) + 61;
  }

  lemma CenturySteps(year: nat)
    requires year >= 1
    ensures year / 4 == (year - 1) / 4 + if year % 4 == 0 then 1 else 0
    ensures year / 100 == (year - 1) / 100 + if year % 100 == 0 then 1 else 0
    ensures year / 400 == (year - 1) / 400 + if year % 400 == 0 then 1 else 0
  {
  }

  lemma {:induction false} LaterMonth(year: nat, a: nat, b: nat)
    requires 1 <= a < b
    ensures DaysBeforeMonth(year, a) + DaysInMonth(year, a) <= DaysBeforeMonth(year, b)
  {
    if a + 1 < b {
      LaterMonth(year, a, b - 1);
    }
  }

  lemma {:induction false} LaterYear(a: nat, b: nat)
    requires 1 <= a < b
    ensures DaysBeforeYear(a) + DaysBeforeMonth(a, 13) <= DaysBeforeYear(b)
  {
    YearLength(b - 1);
    if a + 1 < b {
      LaterYear(a, b - 1);
    }
  }

  /** Days are ordered as their calendar dates. */
  lemma LaterDay(a: Moment, b: Moment)
    requires a.Valid() && b.Valid()
    requires a.year < b.year || (a.year == b.year && (a.month < b.month || (a.month == b.month && a.day < b.day)))
    ensures Ordinal(a) < Ordinal(b)
  {
    if a.year < b.year {
      LaterYear(a.year, b.year);
      LaterMonth(a.year, a.month, 13);
    } else if a.month < b.month {
      LaterMonth(a.year, a.month, b.month);
    }
  }

  /** Field by field, the most significant first. */
  predicate Before(a: Moment, b: Moment) {
    || a.year < b.year
    || (a.year == b.year &&
        (|| a.month < b.month
         || (a.month == b.month &&
             (|| a.day < b.day
              || (a.day == b.day &&
                  (|| a.hour < b.hour
                   || (a.hour == b.hour &&
                       (|| a.minute < b.minute
                        || (a.minute == b.minute &&
                            (|| a.second < b.second
                             || (a.second == b.second && a.micro < b.micro)))))))))))
  }

  lemma BeforeIsEarlier(a: Moment, b: Moment)
    requires a.Valid() && b.Valid() && Before(a, b)
    ensures Instant(a) < Instant(b)
  {
    if a.year == b.year && a.month == b.month && a.day == b.day {
      assert Ordinal(a) == Ordinal(b);
      assert SecondOfDay(a) < SecondOfDay(b) || (SecondOfDay(a) == SecondOfDay(b) && a.micro < b.micro);
    } else {
      LaterDay(a, b);
      assert SecondOfDay(a) < 86_400;
    }
    hide Ordinal, SecondOfDay;
  }

  /* ------------------------------------------------------------ text */

  /** Byte order of ASCII text, a proper prefix first. */
  predicate Less(s: string, t: string) {
    if t == [] then false
    else if s == [] then true
    else s[0] < t[0] || (s[0] == t[0] && Less(s[1..], t[1..]))
  }

  function Pow10(k: nat): nat {
    if k == 0 then 1 else 10 * Pow10(k - 1)
  }

  function DigitChar(d: nat): char
    requires d < 10
  {
    (48 + d) as char
  }

  /** `x` in exactly `k` decimal digits. */
  function Digits(k: nat, x: nat): string {
    if k == 0 then "" else Digits(k - 1, x / 10) + [DigitChar(x % 10)]
  }

  function Fraction(micro: nat): string {
    if micro == 0 then "+00:00" else ['.'] + (Digits(6, micro) + "+00:00")
  }

  /** A fixed-width number, a separator, and the rest. */
  function Field(k: nat, x: nat, separator: char, rest: string): string {
    Digits(k, x) + ([separator] + rest)
  }

  function Iso(m: Moment): string {
    Field(4, m.year, '-', Field(2, m.month, '-', Field(2, m.day, 'T',
      Field(2, m.hour, ':', Field(2, m.minute, ':', Digits(2, m.second) + Fraction(m.micro))))))
  }

  lemma {:induction false} DigitsLength(k: nat, x: nat)
    ensures |Digits(k, x)| == k
  {
    if k > 0 {
      DigitsLength(k - 1, x / 10);
    }
  }

  lemma FieldParts(k: nat, x: nat, separator: char, rest: string)
    ensures var s := Field(k, x, separator, rest);
            |s| == k + 1 + |rest| && s[..k] == Digits(k, x) && s[k] == separator && s[k + 1..] == rest
  {
    DigitsLength(k, x);
    hide Digits;
  }

  /** A timestamp, read from the left: year, month, day, hour and minute, each up to its separator, then seconds and the rest. */
  lemma IsoLayout(m: Moment)
    ensures |Iso(m)| >= 19
    ensures var s := Iso(m);
            var t := s[5..];
            var d := t[3..];
            var h := d[3..];
            var n := h[3..];
            && s[..4] == Digits(4, m.year) && s[4] == '-'
            && t[..2] == Digits(2, m.month) && t[2] == '-'
            && d[..2] == Digits(2, m.day) && d[2] == 'T'
            && h[..2] == Digits(2, m.hour) && h[2] == ':'
            && n[..2] == Digits(2, m.minute) && n[2] == ':'
            && n[3..] == Digits(2, m.second) + Fraction(m.micro)
  {
    DigitsLength(2, m.second);
    hide Digits, Fraction, Field;
    var n := Digits(2, m.second) + Fraction(m.micro);
    var h := Field(2, m.minute, ':', n);
    FieldParts(2, m.minute, ':', n);
    var d := Field(2, m.hour, ':', h);
    FieldParts(2, m.hour, ':', h);
    var t := Field(2, m.day, 'T', d);
    FieldParts(2, m.day, 'T', d);
    var s := Field(2, m.month, '-', t);
    FieldParts(2, m.month, '-', t);
    FieldParts(4, m.year, '-', s);
  }

  lemma DigitsMean(d: nat, tens: nat)
    requires d < 10 && tens < 10
    ensures DigitChar(d) == "0123456789"[d] && Digits(2, 10 * tens + d) == ["0123456789"[tens], "0123456789"[d]]
    ensures Fraction(0) == "+00:00"
  {
    assert (10 * tens + d) / 10 == tens && (10 * tens + d) % 10 == d;
    assert Digits(1, tens) == [DigitChar(tens)];
  }

  lemma HeadLess(c: char, d: char, s: string, t: string)
    ensures Less([c] + s, [d] + t) <==> c < d || (c == d && Less(s, t))
  {
    assert ([c] + s)[1..] == s && ([d] + t)[1..] == t;
  }

  lemma {:induction false} DigitsLess(k: nat, x: nat, y: nat, s: string, t: string)
    requires x < Pow10(k) && y < Pow10(k)
    ensures Less(Digits(k, x) + s, Digits(k, y) + t) <==> x < y || (x == y && Less(s, t))
  {
    if k == 0 {
      assert Digits(0, x) + s == s && Digits(0, y) + t == t;
    } else {
      var c, d := DigitChar(x % 10), DigitChar(y % 10);
      assert Digits(k, x) + s == Digits(k - 1, x / 10) + ([c] + s);
      assert Digits(k, y) + t == Digits(k - 1, y / 10) + ([d] + t);
      DigitsLess(k - 1, x / 10, y / 10, [c] + s, [d] + t);
      HeadLess(c, d, s, t);
    }
  }

  lemma FieldLess(k: nat, x: nat, y: nat, separator: char, s: string, t: string)
    requires x < Pow10(k) && y < Pow10(k)
    ensures Less(Field(k, x, separator, s), Field(k, y, separator, t)) <==> x < y || (x == y && Less(s, t))
  {
    DigitsLess(k, x, y, [separator] + s, [separator] + t);
    HeadLess(separator, separator, s, t);
  }

  lemma Powers()
    ensures Pow10(2) == 100 && Pow10(4) == 10_000 && Pow10(6) == 1_000_000
  {
    assert Pow10(1) == 10;
    assert Pow10(3) == 1_000;
    assert Pow10(5) == 100_000;
  }

  lemma {:induction false} NotLessThanItself(s: string)
    ensures !Less(s, s)
  {
    if s != [] {
      NotLessThanItself(s[1..]);
    }
  }

  /** A missing fraction sorts before every fraction, because `+` sorts before the full stop. */
  lemma FractionLess(a: nat, b: nat)
    requires a < 1_000_000 && b < 1_000_000
    ensures Less(Fraction(a), Fraction(b)) <==> a < b
  {
    Powers();
    var zone := "+00:00";
    if a == 0 || b == 0 {
      assert zone == ['+'] + "00:00";
      NotLessThanItself(zone);
    } else {
      HeadLess('.', '.', Digits(6, a) + zone, Digits(6, b) + zone);
      DigitsLess(6, a, b, zone, zone);
      NotLessThanItself(zone);
    }
  }

  lemma TextIsFieldOrder(a: Moment, b: Moment)
    requires a.Valid() && b.Valid()
    ensures Less(Iso(a), Iso(b)) <==> Before(a, b)
  {
    Powers();
    FractionLess(a.micro, b.micro);
    DigitsLess(2, a.second, b.second, Fraction(a.micro), Fraction(b.micro));
    var s0, t0 := Digits(2, a.second) + Fraction(a.micro), Digits(2, b.second) + Fraction(b.micro);
    FieldLess(2, a.minute, b.minute, ':', s0, t0);
    var s1, t1 := Field(2, a.minute, ':', s0), Field(2, b.minute, ':', t0);
    FieldLess(2, a.hour, b.hour, ':', s1, t1);
    var s2, t2 := Field(2, a.hour, ':', s1), Field(2, b.hour, ':', t1);
    FieldLess(2, a.day, b.day, 'T', s2, t2);
    var s3, t3 := Field(2, a.day, 'T', s2), Field(2, b.day, 'T', t2);
    FieldLess(2, a.month, b.month, '-', s3, t3);
    FieldLess(4, a.year, b.year, '-', Field(2, a.month, '-', s3), Field(2, b.month, '-', t3));
    hide Less, Field, Digits, Fraction;
  }

  /** Comparing timestamps as text is comparing them as instants. */
  lemma TextOrderIsTimeOrder(a: Moment, b: Moment)
    requires a.Valid() && b.Valid()
    ensures Less(Iso(a), Iso(b)) <==> Instant(a) < Instant(b)
  {
    hide Iso, Less, Instant;
    TextIsFieldOrder(a, b);
    if Before(a, b) {
      BeforeIsEarlier(a, b);
    } else if a != b {
      BeforeIsEarlier(b, a);
    }
  }
}
