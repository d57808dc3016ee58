/**
 Timestamps stored as RFC 3339 text with a trimmed fraction, compared as text: where that agrees with
 time (sections 5.1 and 5.6 of RFC 3339) and where it does not.
 */
module Timestamps {
  import opened ByteStrings
  import opened Text
  import opened TextGrammar
  import opened ByteOrder

  const ZERO: byte := 48
  const COLON: byte := 58
  const LETTER_T: byte := 84
  const LETTER_Z: byte := 90
  const POINT: byte := 46

  // The calendar

  datatype DateTime = DateTime(year: nat, month: nat, day: nat, hour: nat, minute: nat, second: nat, nano: nat)

  predicate IsLeap(y: nat) {
    y % 4 == 0 && (y % 100 != 0 || y % 400 == 0)
  }

  function MonthLength(y: nat, m: nat): nat {
    if m == 2 then (if IsLeap(y) then 29 else 28)
    else if m == 4 || m == 6 || m == 9 || m == 11 then 30
    else 31
  }

  function YearLength(y: nat): nat {
    if IsLeap(y) then 366 else 365
  }

  predicate Valid(t: DateTime) {
    && t.year <= 9999 && 1 <= t.month <= 12 && 1 <= t.day <= MonthLength(t.year, t.month)
    && t.hour < 24 && t.minute < 60 && t.second < 60 && t.nano < 1_000_000_000
  }

  function DaysBeforeYear(y: nat): nat {
    if y == 0 then 0 else DaysBeforeYear(y - 1) + YearLength(y - 1)
  }

  function DaysBeforeMonth(y: nat, m: nat): nat {
    if m <= 1 then 0 else DaysBeforeMonth(y, m - 1) + MonthLength(y, m - 1)
  }

  /** Whole seconds since the start of year 0. */
  function Seconds(t: DateTime): int {
    (DaysBeforeYear(t.year) + DaysBeforeMonth(t.year, t.month) + t.day - 1) * 86400 + t.hour * 3600 + t.minute * 60 + t.second
  }

  predicate Earlier(a: DateTime, b: DateTime) {
    Seconds(a) < Seconds(b) || (Seconds(a) == Seconds(b) && a.nano < b.nano)
  }

  lemma {:induction false} MonthsAdd(y: nat, m: nat, n: nat)
    requires 1 <= m < n
    ensures DaysBeforeMonth(y, m) + MonthLength(y, m) <= DaysBeforeMonth(y, n)
    decreases n
  {
    if m < n - 1 {
      MonthsAdd(y, m, n - 1);
    }
  }

  lemma MonthsFillYear(y: nat)
    ensures DaysBeforeMonth(y, 13) == YearLength(y)
  {
    MonthsTo(y, 12);
    assert DaysBeforeMonth(y, 13) == DaysBeforeMonth(y, 12) + MonthLength(y, 12);
  }

  /** The days before each month of a common year, and a day more behind February of a leap year. */
  const BEFORE_MONTH: seq<nat> := [0, 0, 31, 59, 90, 120, 151, 181, 212, 243, 273, 304, 334]

  lemma {:induction false} MonthsTo(y: nat, m: nat)
    requires 1 <= m <= 12
    ensures DaysBeforeMonth(y, m) == BEFORE_MONTH[m] + (if m > 2 && IsLeap(y) then 1 else 0)
  {
    if m > 1 {
      MonthsTo(y, m - 1);
    }
  }

  lemma {:induction false} YearsAdd(y: nat, z: nat)
    requires y < z
    ensures DaysBeforeYear(y) + YearLength(y) <= DaysBeforeYear(z)
    decreases z
  {
    if y < z - 1 {
      YearsAdd(y, z - 1);
    }
  }

  /** The days of the years before `y` in closed form, by the leap years among them. */
  lemma {:induction false} YearsCount(y: nat)
    ensures DaysBeforeYear(y) == 365 * y + (y + 3) / 4 - (y + 99) / 100 + (y + 399) / 400
  {
    if y > 0 {
      YearsCount(y - 1);
      LeapYearCounted(y - 1);
    }
  }

  lemma LeapYearCounted(z: nat)
    ensures
      (z + 4) / 4 - (z + 100) / 100 + (z + 400) / 400
      == (z + 3) / 4 - (z + 99) / 100 + (z + 399) / 400 + (if IsLeap(z) then 1 else 0)
  {
    CountedUp(z, 4);
    CountedUp(z, 100);
    CountedUp(z, 400);
    hide IsLeap;
    LeapCases(z);
  }

  lemma LeapCases(z: nat)
    ensures IsLeap(z) <==> z % 4 == 0 && (z % 100 == 0 ==> z % 400 == 0)
    ensures z % 100 == 0 ==> z % 4 == 0
    ensures z % 400 == 0 ==> z % 100 == 0
  {
    if z % 100 == 0 {
      FactorDivides(z / 100, 25, 4);
    }
    if z % 400 == 0 {
      FactorDivides(z / 400, 4, 100);
    }
  }

  lemma FactorDivides(q: nat, k: nat, d: nat)
    requires (k == 25 && d == 4) || (k == 4 && d == 100)
    ensures q * (k * d) % d == 0
  {
    assert q * (k * d) == q * k * d;
  }

  lemma CountedUp(z: nat, n: nat)
    requires n == 4 || n == 100 || n == 400
    ensures (z + n) / n == (z + n - 1) / n + (if z % n == 0 then 1 else 0)
  {
  }

  /** Seconds in Unix time: 1970-01-01 is 62,167,219,200 seconds from the start of year 0, and a day has 86,400. */
  lemma UnixTime(t: DateTime)
    requires Valid(t)
    ensures Seconds(DateTime(1970, 1, 1, 0, 0, 0, 0)) == 62_167_219_200
    ensures
      var leapYears := (t.year + 3) / 4 - (t.year + 99) / 100 + (t.year + 399) / 400;
      var dayOfYear := BEFORE_MONTH[t.month] + (if t.month > 2 && IsLeap(t.year) then 1 else 0) + t.day - 1;
      Seconds(t) == (365 * t.year + leapYears + dayOfYear) * 86_400 + t.hour * 3600 + t.minute * 60 + t.second
  {
    hide DaysBeforeYear, DaysBeforeMonth;
    YearsCount(1970);
    MonthsTo(1970, 1);
    YearsCount(t.year);
    MonthsTo(t.year, t.month);
  }

  function DayNumber(t: DateTime): int {
    DaysBeforeYear(t.year) + DaysBeforeMonth(t.year, t.month) + t.day - 1
  }

  /** The date order is the order of the day numbers. */
  lemma DateOrder(a: DateTime, b: DateTime)
    requires Valid(a) && Valid(b)
    requires a.year < b.year || (a.year == b.year && (a.month < b.month || (a.month == b.month && a.day < b.day)))
    ensures DayNumber(a) < DayNumber(b)
  {
    if a.year < b.year {
      YearsAdd(a.year, b.year);
      MonthsFillYear(a.year);
      MonthsAdd(a.year, a.month, 13);
    } else if a.month < b.month {
      MonthsAdd(a.year, a.month, b.month);
    }
  }

  predicate SameDay(a: DateTime, b: DateTime) {
    a.year == b.year && a.month == b.month && a.day == b.day
  }

  /** Comparing year, month, day, hour, minute and second in turn. */
  predicate CalendarBefore(a: DateTime, b: DateTime) {
    || a.year < b.year
    || (a.year == b.year &&
        (|| a.month < b.month
         || (a.month == b.month &&
             (|| a.day < b.day
              || (a.day == b.day &&
                  (|| a.hour < b.hour
                   || (a.hour == b.hour &&
                       (a.minute < b.minute || (a.minute == b.minute && a.second < b.second)))))))))
  }

  predicate SameSecond(a: DateTime, b: DateTime) {
    SameDay(a, b) && a.hour == b.hour && a.minute == b.minute && a.second == b.second
  }

  /** The calendar order is the order in time. */
  lemma CalendarOrder(a: DateTime, b: DateTime)
    requires Valid(a) && Valid(b)
    ensures CalendarBefore(a, b) <==> Seconds(a) < Seconds(b)
    ensures SameSecond(a, b) <==> Seconds(a) == Seconds(b)
  {
    hide DaysBeforeYear, DaysBeforeMonth;
    if !SameDay(a, b) {
      if a.year < b.year || (a.year == b.year && (a.month < b.month || (a.month == b.month && a.day < b.day))) {
        DateOrder(a, b);
      } else {
        DateOrder(b, a);
      }
    }
    assert Seconds(a) == DayNumber(a) * 86400 + a.hour * 3600 + a.minute * 60 + a.second;
    assert Seconds(b) == DayNumber(b) * 86400 + b.hour * 3600 + b.minute * 60 + b.second;
  }

  // The text

  /** `n` in decimal, padded with zeros to `width` digits. */
  function Pad(n: nat, width: nat): (s: bytes)
    ensures |s| == width
  {
    if width == 0 then [] else Pad(n / 10, width - 1) + [ZERO + n % 10]
  }

  function Pow10(w: nat): nat {
    if w == 0 then 1 else 10 * Pow10(w - 1)
  }

  function TrimZeros(s: bytes): bytes {
    if s != [] && s[|s| - 1] == ZERO then TrimZeros(s[..|s| - 1]) else s
  }

  /** The digits of the fraction without trailing zeros; none for a whole second. */
  function FractionDigits(nano: nat): bytes {
    TrimZeros(Pad(nano, 9))
  }

  function Fraction(nano: nat): bytes {
    (if nano == 0 then [] else [POINT] + FractionDigits(nano)) + [LETTER_Z]
  }

  function WholeSecond(t: DateTime): bytes {
    Pad(t.year, 4) + ([DASH] + (Pad(t.month, 2) + ([DASH] + (Pad(t.day, 2) + ([LETTER_T] + (Pad(t.hour, 2)
    + ([COLON] + (Pad(t.minute, 2) + ([COLON] + Pad(t.second, 2))))))))))
  }

  function Format(t: DateTime): bytes {
    WholeSecond(t) + Fraction(t.nano)
  }

  // What the text says

  lemma {:induction false} PadParses(n: nat, width: nat)
    requires n < Pow10(width)
    ensures ParseDigits(Pad(n, width), 10) == Some(n)
  {
    if width > 0 {
      var front := Pad(n / 10, width - 1);
      PadParses(n / 10, width - 1);
      var s := front + [ZERO + n % 10];
      assert s[..|s| - 1] == front;
      assert n == n / 10 * 10 + n % 10;
    }
  }

  lemma PadIsNatural(n: nat, width: nat)
    requires n < Pow10(width) && 0 < width
    ensures IsNatural(Pad(n, width), 10, n)
  {
    hide Pad;
    PadParses(n, width);
    NaturalParses(Pad(n, width), 10, n);
  }

  /** Date, `T`, time, with two digits a field and four for the year. */
  ghost predicate ReadsAs(text: bytes, t: DateTime) {
    && |text| >= 20
    && IsNatural(text[0..4], 10, t.year) && text[4] == '-' as int
    && IsNatural(text[5..7], 10, t.month) && text[7] == '-' as int
    && IsNatural(text[8..10], 10, t.day) && text[10] == 'T' as int
    && IsNatural(text[11..13], 10, t.hour) && text[13] == ':' as int
    && IsNatural(text[14..16], 10, t.minute) && text[16] == ':' as int
    && IsNatural(text[17..19], 10, t.second)
  }

  /** `Z`, behind a point and the fraction's digits up to the last one that is not zero, if there is any. */
  ghost predicate FractionReadsAs(text: bytes, nano: nat) {
    if nano == 0 then text == ['Z' as int]
    else
      exists digits, zeros: bytes ::
        && text == ['.' as int] + digits + ['Z' as int]
        && |digits| + |zeros| == 9 && IsNatural(digits + zeros, 10, nano)
        && digits != [] && digits[|digits| - 1] != '0' as int && forall i | 0 <= i < |zeros| :: zeros[i] == '0' as int
  }

  lemma FieldsAt(y: bytes, m: bytes, d: bytes, h: bytes, i: bytes, s: bytes, rest: bytes)
    requires |y| == 4 && |m| == |d| == |h| == |i| == |s| == 2
    ensures
      var text := y + ([DASH] + (m + ([DASH] + (d + ([LETTER_T] + (h + ([COLON] + (i + ([COLON] + s))))))))) + rest;
      && |text| == 19 + |rest| && text[0..4] == y && text[4] == DASH && text[5..7] == m && text[7] == DASH
      && text[8..10] == d && text[10] == LETTER_T && text[11..13] == h && text[13] == COLON
      && text[14..16] == i && text[16] == COLON && text[17..19] == s && text[19..] == rest
  {
  }

  /** The stored text is the timestamp's. */
  lemma FormatReads(t: DateTime)
    requires Valid(t)
    ensures ReadsAs(Format(t), t) && FractionReadsAs(Format(t)[19..], t.nano)
  {
    hide Pad, IsNatural, Fraction;
    Powers();
    PadIsNatural(t.year, 4);
    PadIsNatural(t.month, 2);
    PadIsNatural(t.day, 2);
    PadIsNatural(t.hour, 2);
    PadIsNatural(t.minute, 2);
    PadIsNatural(t.second, 2);
    FractionReads(t.nano);
    FieldsAt(Pad(t.year, 4), Pad(t.month, 2), Pad(t.day, 2), Pad(t.hour, 2), Pad(t.minute, 2), Pad(t.second, 2),
             Fraction(t.nano));
  }

  lemma FractionReads(nano: nat)
    requires nano < 1_000_000_000
    ensures FractionReadsAs(Fraction(nano), nano) && |Fraction(nano)| >= 1
  {
    hide Pad, IsNatural, TrimZeros;
    if nano != 0 {
      Powers();
      PadIsNatural(nano, 9);
      var all := Pad(nano, 9);
      TrimMeans(all);
      var digits := FractionDigits(nano);
      var zeros := all[|digits|..];
      assert all == digits + zeros;
      assert digits != [] by {
        if digits == [] {
          OnlyZeroTrims(nano);
        }
      }
      assert Fraction(nano) == ['.' as int] + digits + ['Z' as int];
    } else {
      assert Fraction(0) == ['Z' as int];
    }
  }

  // Text order

  lemma {:induction false} LessAligned(a: bytes, x: bytes, b: bytes, y: bytes)
    requires |a| == |b|
    ensures Less(a + x, b + y) <==> Less(a, b) || (a == b && Less(x, y))
  {
    if a == [] {
      assert a + x == x && b + y == y;
    } else {
      assert (a + x)[1..] == a[1..] + x && (b + y)[1..] == b[1..] + y;
      LessAligned(a[1..], x, b[1..], y);
      assert a == [a[0]] + a[1..] && b == [b[0]] + b[1..];
      LessIrreflexive(b);
    }
  }

  lemma {:induction false} PadOrder(m: nat, n: nat, width: nat)
    requires m < Pow10(width) && n < Pow10(width)
    ensures Less(Pad(m, width), Pad(n, width)) <==> m < n
    ensures Pad(m, width) == Pad(n, width) <==> m == n
  {
    if width > 0 {
      PadOrder(m / 10, n / 10, width - 1);
      var a, b := Pad(m / 10, width - 1), Pad(n / 10, width - 1);
      LessAligned(a, [ZERO + m % 10], b, [ZERO + n % 10]);
      assert (a + [ZERO + m % 10])[..width - 1] == a && (b + [ZERO + n % 10])[..width - 1] == b;
      assert (a + [ZERO + m % 10])[width - 1] == ZERO + m % 10 && (b + [ZERO + n % 10])[width - 1] == ZERO + n % 10;
    }
  }

  lemma Behind(c: byte, x: bytes, y: bytes)
    ensures Less([c] + x, [c] + y) <==> Less(x, y)
    ensures [c] + x == [c] + y <==> x == y
  {
    LessBehind([c], x, y);
    assert ([c] + x)[1..] == x && ([c] + y)[1..] == y;
  }

  lemma Field(m: nat, n: nat, width: nat, x: bytes, y: bytes)
    requires m < Pow10(width) && n < Pow10(width)
    ensures Less(Pad(m, width) + x, Pad(n, width) + y) <==> m < n || (m == n && Less(x, y))
    ensures Pad(m, width) + x == Pad(n, width) + y <==> m == n && x == y
  {
    PadOrder(m, n, width);
    LessAligned(Pad(m, width), x, Pad(n, width), y);
    assert (Pad(m, width) + x)[..width] == Pad(m, width) && (Pad(n, width) + y)[..width] == Pad(n, width);
    assert (Pad(m, width) + x)[width..] == x && (Pad(n, width) + y)[width..] == y;
  }

  function TimeText(t: DateTime): bytes {
    Pad(t.hour, 2) + ([COLON] + (Pad(t.minute, 2) + ([COLON] + Pad(t.second, 2))))
  }

  lemma Powers()
    ensures Pow10(2) == 100 && Pow10(4) == 10_000 && Pow10(9) == 1_000_000_000
  {
    assert Pow10(5) == 100_000 && Pow10(7) == 10_000_000;
  }

  lemma TimeOrder(a: DateTime, b: DateTime)
    requires Valid(a) && Valid(b)
    ensures
      Less(TimeText(a), TimeText(b)) <==>
        || a.hour < b.hour
        || (a.hour == b.hour && (a.minute < b.minute || (a.minute == b.minute && a.second < b.second)))
    ensures TimeText(a) == TimeText(b) <==> a.hour == b.hour && a.minute == b.minute && a.second == b.second
  {
    hide Pad, Less;
    Powers();
    PadOrder(a.second, b.second, 2);
    Behind(COLON, Pad(a.second, 2), Pad(b.second, 2));
    Field(a.minute, b.minute, 2, [COLON] + Pad(a.second, 2), [COLON] + Pad(b.second, 2));
    var x, y := Pad(a.minute, 2) + ([COLON] + Pad(a.second, 2)), Pad(b.minute, 2) + ([COLON] + Pad(b.second, 2));
    Behind(COLON, x, y);
    Field(a.hour, b.hour, 2, [COLON] + x, [COLON] + y);
  }

  lemma WholeSecondOrder(a: DateTime, b: DateTime)
    requires Valid(a) && Valid(b)
    ensures Less(WholeSecond(a), WholeSecond(b)) <==> CalendarBefore(a, b)
    ensures WholeSecond(a) == WholeSecond(b) <==> SameSecond(a, b)
  {
    hide Pad, Less;
    Powers();
    TimeOrder(a, b);
    var x, y := TimeText(a), TimeText(b);
    Behind(LETTER_T, x, y);
    Field(a.day, b.day, 2, [LETTER_T] + x, [LETTER_T] + y);
    var x1, y1 := Pad(a.day, 2) + ([LETTER_T] + x), Pad(b.day, 2) + ([LETTER_T] + y);
    Behind(DASH, x1, y1);
    Field(a.month, b.month, 2, [DASH] + x1, [DASH] + y1);
    var x2, y2 := Pad(a.month, 2) + ([DASH] + x1), Pad(b.month, 2) + ([DASH] + y1);
    Behind(DASH, x2, y2);
    Field(a.year, b.year, 4, [DASH] + x2, [DASH] + y2);
  }

  /** Between different whole seconds, text order is time order. */
  lemma DifferentSecondsAgree(a: DateTime, b: DateTime)
    requires Valid(a) && Valid(b) && Seconds(a) != Seconds(b)
    ensures Less(Format(a), Format(b)) <==> Earlier(a, b)
  {
    hide Less, WholeSecond, Fraction, Seconds, CalendarBefore, SameSecond;
    CalendarOrder(a, b);
    WholeSecondOrder(a, b);
    WholeSecondSize(a);
    WholeSecondSize(b);
    LessAligned(WholeSecond(a), Fraction(a.nano), WholeSecond(b), Fraction(b.nano));
  }

  lemma WholeSecondSize(t: DateTime)
    ensures |WholeSecond(t)| == 19
  {
  }

  // Within one second

  lemma {:induction false} TrimMeans(s: bytes)
    ensures TrimZeros(s) <= s && (TrimZeros(s) == [] || TrimZeros(s)[|TrimZeros(s)| - 1] != ZERO)
    ensures forall i | |TrimZeros(s)| <= i < |s| :: s[i] == ZERO
  {
    if s != [] && s[|s| - 1] == ZERO {
      TrimMeans(s[..|s| - 1]);
    }
  }

  lemma {:induction false} PadDigits(n: nat, width: nat, i: nat)
    requires i < width
    ensures ZERO <= Pad(n, width)[i] <= 57
  {
    if i < width - 1 {
      PadDigits(n / 10, width - 1, i);
    }
  }

  /** The position where two texts of one length first differ decides. */
  lemma {:induction false} FirstDifference(s: bytes, t: bytes) returns (i: nat)
    requires |s| == |t| && s != t
    ensures i < |s| && s[..i] == t[..i] && s[i] != t[i] && (Less(s, t) <==> s[i] < t[i])
  {
    if s[0] != t[0] {
      i := 0;
    } else {
      assert s == [s[0]] + s[1..] && t == [t[0]] + t[1..];
      var j := FirstDifference(s[1..], t[1..]);
      i := j + 1;
      assert s[..i] == [s[0]] + s[1..][..j] && t[..i] == [t[0]] + t[1..][..j];
    }
  }

  lemma LessAt(s: bytes, t: bytes, i: nat)
    requires i < |s| && i < |t| && s[..i] == t[..i] && s[i] != t[i]
    ensures Less(s, t) <==> s[i] < t[i]
  {
    assert s == s[..i] + s[i..] && t == t[..i] + t[i..];
    LessBehind(s[..i], s[i..], t[i..]);
  }

  function Tail(digits: bytes): bytes {
    (if digits == [] then [] else [POINT] + digits) + [LETTER_Z]
  }

  predicate AllDigits(s: bytes) {
    forall c | c in s :: ZERO <= c <= 57
  }

  /** A fraction that extends another one comes before it as text: digits are below the letter that ends it. */
  lemma PrefixMisorders(d: bytes, e: bytes)
    requires AllDigits(d) && AllDigits(e) && d < e
    ensures Less(Tail(e), Tail(d)) && !Less(Tail(d), Tail(e))
  {
    if d == [] {
      LessAt(Tail(e), Tail(d), 0);
    } else {
      var i := 1 + |d|;
      assert e[|d|] in e;
      assert Tail(d)[..i] == [POINT] + d == Tail(e)[..i];
      assert Tail(d)[i] == LETTER_Z && Tail(e)[i] == e[|d|];
      LessAt(Tail(e), Tail(d), i);
    }
    LessAsymmetric(Tail(e), Tail(d));
  }

  /** Otherwise the first digit that differs decides, as it does for the numbers. */
  lemma DigitsDecide(d: bytes, e: bytes, i: nat)
    requires i < |d| && i < |e| && d[..i] == e[..i] && d[i] < e[i]
    ensures Less(Tail(d), Tail(e))
  {
    var j := 1 + i;
    assert Tail(d)[..j] == [POINT] + d[..i] == Tail(e)[..j];
    LessAt(Tail(d), Tail(e), j);
  }

  lemma FractionIsTail(nano: nat)
    requires nano < 1_000_000_000
    ensures Fraction(nano) == Tail(FractionDigits(nano)) && AllDigits(FractionDigits(nano))
  {
    hide Pow10, Less;
    Powers();
    var p := Pad(nano, 9);
    TrimMeans(p);
    forall i | 0 <= i < 9
      ensures ZERO <= p[i] <= 57
    {
      PadDigits(nano, 9, i);
    }
    ZeroPads(9);
    if FractionDigits(nano) == [] {
      OnlyZeroTrims(nano);
    }
  }

  lemma OnlyZeroTrims(nano: nat)
    requires nano < 1_000_000_000 && TrimZeros(Pad(nano, 9)) == []
    ensures nano == 0
  {
    hide Less, Pad;
    Powers();
    TrimMeans(Pad(nano, 9));
    ZeroPads(9);
    PadOrder(nano, 0, 9);
    assert Pad(nano, 9) == Pad(0, 9);
  }

  lemma {:induction false} ZeroPads(w: nat)
    ensures TrimZeros(Pad(0, w)) == [] && forall i | 0 <= i < w :: Pad(0, w)[i] == ZERO
  {
    if w > 0 {
      ZeroPads(w - 1);
    }
  }

  /** Within one second the text order is right exactly when the earlier fraction's digits are no prefix of the later's. */
  lemma SameSecondExactly(a: DateTime, b: DateTime)
    requires Valid(a) && Valid(b) && Seconds(a) == Seconds(b) && a.nano < b.nano
    ensures Less(Format(a), Format(b)) <==> !(FractionDigits(a.nano) <= FractionDigits(b.nano))
    ensures !Less(Format(a), Format(b)) ==> Less(Format(b), Format(a))
  {
    hide Less, WholeSecond, Fraction, Seconds, CalendarBefore, SameSecond, FractionDigits;
    CalendarOrder(a, b);
    WholeSecondOrder(a, b);
    LessAligned(WholeSecond(a), Fraction(a.nano), WholeSecond(b), Fraction(b.nano));
    LessAligned(WholeSecond(b), Fraction(b.nano), WholeSecond(a), Fraction(a.nano));
    LessIrreflexive(WholeSecond(a));
    FractionOrder(a.nano, b.nano);
  }

  lemma FractionOrder(m: nat, n: nat)
    requires m < n < 1_000_000_000
    ensures Less(Fraction(m), Fraction(n)) <==> !(FractionDigits(m) <= FractionDigits(n))
    ensures !Less(Fraction(m), Fraction(n)) ==> Less(Fraction(n), Fraction(m))
  {
    hide Less, Pad, Tail, AllDigits, TrimZeros;
    Powers();
    FractionIsTail(m);
    FractionIsTail(n);
    var p, q := Pad(m, 9), Pad(n, 9);
    var d, e := TrimZeros(p), TrimZeros(q);
    TrimMeans(p);
    TrimMeans(q);
    PadOrder(m, n, 9);
    if d <= e {
      if d == e {
        TrimmedAlike(p, q);
      }
      PrefixMisorders(d, e);
    } else {
      var i := FirstDifference(p, q);
      PadDigits(m, 9, i);
      assert i < |e|;
      assert i < |d|;
      assert d[..i] == p[..i] && e[..i] == q[..i];
      DigitsDecide(d, e, i);
    }
  }

  lemma TrimmedAlike(p: bytes, q: bytes)
    requires |p| == |q| && TrimZeros(p) == TrimZeros(q)
    ensures p == q
  {
    TrimMeans(p);
    TrimMeans(q);
    forall i | 0 <= i < |p|
      ensures p[i] == q[i]
    {
      if i < |TrimZeros(p)| {
        assert p[i] == TrimZeros(p)[i] == q[i];
      }
    }
  }

  // The janitor's query

  datatype UploadTime = UploadTime(id: string, createdAt: DateTime)

  /** The uploads whose stored text is below the cutoff's, in the order of the rows. */
  function StaleOf(rows: seq<UploadTime>, before: DateTime): seq<UploadTime> {
    if rows == [] then []
    else
      var last := rows[|rows| - 1];
      StaleOf(rows[..|rows| - 1], before) + (if Less(Format(last.createdAt), Format(before)) then [last] else [])
  }

  /** The rows come in the order of the stored text. */
  method StaleMultipartUploads(rows: seq<UploadTime>, before: DateTime) returns (stale: seq<UploadTime>)
    ensures stale == StaleOf(rows, before)
  {
    stale := [];
    var cutoff := Format(before);
    for i := 0 to |rows|
      invariant stale == StaleOf(rows[..i], before)
    {
      assert rows[..i + 1][..i] == rows[..i];
      if Less(Format(rows[i].createdAt), cutoff) {
        stale := stale + [rows[i]];
      }
    }
    assert rows[..|rows|] == rows;
  }

  /** Every stored upload of an earlier second is swept, and none of a later second is. */
  lemma {:induction false} SweptExactly(rows: seq<UploadTime>, before: DateTime, u: UploadTime)
    requires Valid(u.createdAt) && Valid(before) && Seconds(u.createdAt) != Seconds(before)
    ensures u in StaleOf(rows, before) <==> u in rows && Earlier(u.createdAt, before)
  {
    hide Less, Format, Seconds;
    if rows != [] {
      var n := |rows| - 1;
      SweptExactly(rows[..n], before, u);
      DifferentSecondsAgree(u.createdAt, before);
      assert rows == rows[..n] + [rows[n]];
    }
  }

  /**
   What the sweep decides about one upload: by time, except in the cutoff's own second, where an older upload is
   missed, or a younger one taken, exactly when the older fraction's digits are a proper prefix of the younger's.
   */
  lemma StaleExactly(created: DateTime, before: DateTime)
    requires Valid(created) && Valid(before)
    ensures Seconds(created) != Seconds(before) ==> (Less(Format(created), Format(before)) <==> Earlier(created, before))
    ensures
      var d, e := FractionDigits(created.nano), FractionDigits(before.nano);
      Seconds(created) == Seconds(before) ==>
        (Less(Format(created), Format(before))
         <==> if created.nano < before.nano then !(d <= e) else created.nano != before.nano && e <= d)
  {
    hide Less, Format, Seconds, FractionDigits;
    if Seconds(created) != Seconds(before) {
      DifferentSecondsAgree(created, before);
    } else if created.nano < before.nano {
      SameSecondExactly(created, before);
    } else if created.nano > before.nano {
      SameSecondExactly(before, created);
      NotBoth(created, before);
    } else {
      SameText(created, before);
    }
  }

  lemma NotBoth(a: DateTime, b: DateTime)
    ensures !(Less(Format(a), Format(b)) && Less(Format(b), Format(a)))
  {
    hide Less, Format;
    if Less(Format(a), Format(b)) {
      LessAsymmetric(Format(a), Format(b));
    }
  }

  lemma SameText(a: DateTime, b: DateTime)
    requires Valid(a) && Valid(b) && Seconds(a) == Seconds(b) && a.nano == b.nano
    ensures !Less(Format(a), Format(b))
  {
    hide Seconds, WholeSecond, Less;
    CalendarOrder(a, b);
    WholeSecondOrder(a, b);
    LessIrreflexive(Format(a));
  }

  /** Half a second before the cutoff and still not stale. */
  lemma MissedWithinSecond()
    ensures
      var created := DateTime(2024, 1, 1, 0, 0, 0, 0);
      var before := DateTime(2024, 1, 1, 0, 0, 0, 500_000_000);
      Earlier(created, before) && !Less(Format(created), Format(before))
  {
    var created := DateTime(2024, 1, 1, 0, 0, 0, 0);
    var before := DateTime(2024, 1, 1, 0, 0, 0, 500_000_000);
    hide Less, Format, DaysBeforeYear, Pad;
    ZeroPads(9);
    SameSecondExactly(created, before);
  }
}
