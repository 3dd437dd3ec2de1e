/**
 * Rendering of numbers and days as text, as JavaScript does it: `toString`
 * of an integer, of a decimal with at most two fractional digits, `padStart`,
 * and the day part of `Date.prototype.toISOString` (`YYYY-MM-DD`).  Each
 * rendering comes with the parse that reads it back (`parseInt`, `parseFloat`).
 */
module Text {

  function Digit(d: nat): (c: char)
    requires d < 10
    ensures '0' <= c <= '9'
  {
    ('0' as int + d) as char
  }

  function DigitValue(c: char): nat
  {
    if '0' <= c <= '9' then (c as int - '0' as int) else 0
  }

  ghost predicate AllDigits(s: string)
  {
    forall i :: 0 <= i < |s| ==> '0' <= s[i] <= '9'
  }

  /** Only digits, signs and the decimal point: what numbers and dates render to. */
  ghost predicate NumericText(s: string)
  {
    forall i :: 0 <= i < |s| ==> ('0' <= s[i] <= '9') || s[i] == '-' || s[i] == '+' || s[i] == '.'
  }

  lemma NumericConcat(a: string, b: string)
    ensures NumericText(a) && NumericText(b) ==> NumericText(a + b)
  {
    if NumericText(a) && NumericText(b) {
      forall i | 0 <= i < |a + b|
        ensures ('0' <= (a + b)[i] <= '9') || (a + b)[i] == '-' || (a + b)[i] == '+' || (a + b)[i] == '.'
      {
        if i >= |a| {
          assert (a + b)[i] == b[i - |a|];
        }
      }
    }
  }

  /** Decimal notation of a natural number, without leading zeros. */
  function NatText(n: nat): (r: string)
    ensures r != [] && AllDigits(r)
  {
    if n < 10 then [Digit(n)] else NatText(n / 10) + [Digit(n % 10)]
  }

  /** The value of a string of decimal digits. */
  function ParseNat(s: string): nat
  {
    if s == [] then 0 else ParseNat(s[..|s| - 1]) * 10 + DigitValue(s[|s| - 1])
  }

  lemma {:induction false} ParseNatText(n: nat)
    ensures ParseNat(NatText(n)) == n
  {
    if n >= 10 {
      var t := NatText(n / 10) + [Digit(n % 10)];
      assert t[..|t| - 1] == NatText(n / 10);
      ParseNatText(n / 10);
    }
  }

  lemma DigitsNumeric(s: string)
    ensures AllDigits(s) ==> NumericText(s)
  {
  }

  /** `String(i)` for an integer. */
  function IntText(i: int): (r: string)
    ensures r != [] && r[0] != '.'
  {
    if i < 0 then "-" + NatText(-i) else NatText(i)
  }

  lemma IntTextNumeric(i: int)
    ensures NumericText(IntText(i))
  {
    if i < 0 {
      NumericConcat("-", NatText(-i));
    }
  }

  /** A whole amount in hundredths renders like the integer: `String(n) == String(n * 100 / 100)`. */
  lemma DecimalWhole(n: int)
    ensures DecimalText(n * 100) == IntText(n)
  {
    var m := if n < 0 then -n else n;
    assert (m * 100) % 100 == 0 && (m * 100) / 100 == m;
    assert n < 0 ==> -(n * 100) == m * 100;
  }

  /** A character that no number or date renders to. */
  lemma NotNumeric(s: string, c: char)
    requires NumericText(s)
    requires !('0' <= c <= '9') && c != '-' && c != '+' && c != '.'
    ensures c !in s
  {
    assert forall i :: 0 <= i < |s| ==> s[i] != c;
  }

  /** `parseInt` on an optionally signed string of digits. */
  function ParseInt(s: string): int
  {
    if s != [] && s[0] == '-' then -(ParseNat(s[1..]) as int) else ParseNat(s)
  }

  lemma IntTextRoundTrip(i: int)
    ensures ParseInt(IntText(i)) == i
  {
    if i < 0 {
      assert IntText(i)[1..] == NatText(-i);
      ParseNatText(-i);
    } else {
      ParseNatText(i);
    }
  }

  /**
   * `String(h / 100)` for an amount kept in hundredths: the whole part, then
   * the fractional digits without trailing zeros ("135", "135.5", "0.25").
   */
  function DecimalText(h: int): (r: string)
    ensures r != []
  {
    if h < 0 then "-" + UnsignedDecimalText(-h) else UnsignedDecimalText(h)
  }

  /** The fractional part of an amount in hundredths, without trailing zeros. */
  function Fraction(frac: nat): string
    requires 0 < frac < 100
  {
    if frac % 10 == 0 then "." + [Digit(frac / 10)] else "." + [Digit(frac / 10), Digit(frac % 10)]
  }

  function UnsignedDecimalText(h: nat): (r: string)
    ensures r != [] && '0' <= r[0] <= '9'
  {
    if h % 100 == 0 then NatText(h / 100) else NatText(h / 100) + Fraction(h % 100)
  }

  lemma FractionNumeric(frac: nat)
    requires 0 < frac < 100
    ensures NumericText(Fraction(frac))
  {
  }

  lemma UnsignedNumeric(h: nat)
    ensures NumericText(UnsignedDecimalText(h))
  {
    var w := NatText(h / 100);
    DigitsNumeric(w);
    if h % 100 != 0 {
      FractionNumeric(h % 100);
      NumericConcat(w, Fraction(h % 100));
    }
  }

  lemma DecimalTextNumeric(h: int)
    ensures NumericText(DecimalText(h))
  {
    UnsignedNumeric(if h < 0 then -h else h);
    NumericConcat("-", UnsignedDecimalText(if h < 0 then -h else h));
  }

  /** Index of the first `c` in `s`, or `|s|` when there is none. */
  function IndexOf(s: string, c: char): (i: nat)
    ensures i <= |s|
    ensures i < |s| ==> s[i] == c
    ensures forall j :: 0 <= j < i ==> s[j] != c
  {
    if s == [] then 0
    else if s[0] == c then 0
    else 1 + IndexOf(s[1..], c)
  }

  /** Searching past a prefix that does not hold `c`. */
  lemma {:induction false} IndexOfPrefix(p: string, rest: string, c: char)
    requires c !in p
    ensures IndexOf(p + rest, c) == |p| + IndexOf(rest, c)
    decreases |p|
  {
    if p != [] {
      assert (p + rest)[1..] == p[1..] + rest;
      IndexOfPrefix(p[1..], rest, c);
    } else {
      assert p + rest == rest;
    }
  }

  /** `parseFloat` on text of the form `[-]digits[.d[d]]`, in hundredths. */
  function ParseDecimal(s: string): int
  {
    if s != [] && s[0] == '-' then -(ParseUnsignedDecimal(s[1..]) as int) else ParseUnsignedDecimal(s)
  }

  function ParseUnsignedDecimal(s: string): nat
  {
    var i := IndexOf(s, '.');
    var frac := if i < |s| then s[i + 1..] else "";
    ParseNat(s[..i]) * 100
      + (if |frac| == 0 then 0
         else if |frac| == 1 then DigitValue(frac[0]) * 10
         else DigitValue(frac[0]) * 10 + DigitValue(frac[1]))
  }

  lemma IndexOfAfterDigits(w: string, rest: string)
    requires AllDigits(w)
    ensures IndexOf(w + rest, '.') == |w| + IndexOf(rest, '.')
    decreases |w|
  {
    if w != [] {
      assert (w + rest)[1..] == w[1..] + rest;
      IndexOfAfterDigits(w[1..], rest);
    } else {
      assert w + rest == rest;
    }
  }

  lemma UnsignedDecimalRoundTrip(h: nat)
    ensures ParseUnsignedDecimal(UnsignedDecimalText(h)) == h
  {
    var whole, frac := h / 100, h % 100;
    var w := NatText(whole);
    ParseNatText(whole);
    var s := UnsignedDecimalText(h);
    if frac == 0 {
      IndexOfAfterDigits(w, "");
      assert w + "" == w;
      assert s[..|w|] == w;
    } else {
      var tail := Fraction(frac);
      assert s == w + tail;
      IndexOfAfterDigits(w, tail);
      assert s[..|w|] == w;
      assert s[|w| + 1..] == tail[1..];
    }
  }

  /** Reading back a rendered amount gives the amount: `parseFloat(String(x)) == x`. */
  lemma DecimalRoundTrip(h: int)
    ensures ParseDecimal(DecimalText(h)) == h
  {
    var u := UnsignedDecimalText(if h < 0 then -h else h);
    ParseSigned(u);
    UnsignedDecimalRoundTrip(if h < 0 then -h else h);
  }

  /** A leading minus sign negates what follows it. */
  lemma ParseSigned(u: string)
    requires u != [] && u[0] != '-'
    ensures ParseDecimal(u) == ParseUnsignedDecimal(u)
    ensures ParseDecimal("-" + u) == -(ParseUnsignedDecimal(u) as int)
  {
    assert ("-" + u)[1..] == u;
  }

  /** `s.padStart(width, fill)`: `fill` repeated on the left up to `width` characters. */
  function PadStart(s: string, width: nat, fill: char): (r: string)
    ensures |r| == if |s| < width then width else |s|
    ensures r[|r| - |s|..] == s
    decreases width - |s|
  {
    if |s| < width then PadStart([fill] + s, width, fill) else s
  }

  /** Padding digits with a digit gives digits. */
  lemma {:induction false} PadStartDigits(s: string, width: nat, fill: char)
    requires AllDigits(s) && '0' <= fill <= '9'
    ensures AllDigits(PadStart(s, width, fill))
    decreases width - |s|
  {
    if |s| < width {
      assert AllDigits([fill] + s);
      PadStartDigits([fill] + s, width, fill);
    }
  }

  datatype CivilDate = CivilDate(year: int, month: int, day: int)

  /** A leap year of the proleptic Gregorian calendar. */
  predicate IsLeap(year: int)
  {
    year % 4 == 0 && (year % 100 != 0 || year % 400 == 0)
  }

  function DaysInYear(year: int): int
  {
    if IsLeap(year) then 366 else 365
  }

  function DaysInMonth(year: int, month: int): int
    requires 1 <= month <= 12
  {
    if month == 2 then (if IsLeap(year) then 29 else 28)
    else if month == 4 || month == 6 || month == 9 || month == 11 then 30
    else 31
  }

  /** The days of the months of `year` before `month`. */
  function DaysBeforeMonth(year: int, month: int): int
    requires 1 <= month <= 12
  {
    (if month == 1 then 0 else if month == 2 then 31 else if month == 3 then 59
     else if month == 4 then 90 else if month == 5 then 120 else if month == 6 then 151
     else if month == 7 then 181 else if month == 8 then 212 else if month == 9 then 243
     else if month == 10 then 273 else if month == 11 then 304 else 334)
    + (if month > 2 && IsLeap(year) then 1 else 0)
  }

  /** Each month ends where the next begins, and December ends the year. */
  lemma MonthEnds(year: int, month: int)
    requires 1 <= month <= 12
    ensures DaysBeforeMonth(year, month) + DaysInMonth(year, month)
         == if month == 12 then DaysInYear(year) else DaysBeforeMonth(year, month + 1)
  {
  }

  /** The days from 1970-01-01 to the first of January of `year` (negative before 1970). */
  function DaysBeforeYear(year: int): int
    decreases if year < 1970 then 1970 - year else year - 1970
  {
    if year == 1970 then 0
    else if year > 1970 then DaysBeforeYear(year - 1) + DaysInYear(year - 1)
    else DaysBeforeYear(year + 1) - DaysInYear(year)
  }

  lemma NextYear(year: int)
    ensures DaysBeforeYear(year + 1) == DaysBeforeYear(year) + DaysInYear(year)
  {
  }

  /** A later year starts after the whole of an earlier one. */
  lemma {:induction false} YearsApart(earlier: int, later: int)
    requires earlier < later
    ensures DaysBeforeYear(later) >= DaysBeforeYear(earlier) + DaysInYear(earlier)
    decreases later - earlier
  {
    NextYear(later - 1);
    if earlier < later - 1 {
      YearsApart(earlier, later - 1);
    }
  }

  /**
   * The year holding the day `offset` days after the first of January of
   * `year`, and that day's index within it.
   */
  function YearOf(year: int, offset: int): (r: (int, int))
    ensures 0 <= r.1 < DaysInYear(r.0)
    ensures DaysBeforeYear(r.0) + r.1 == DaysBeforeYear(year) + offset
    decreases if offset < 0 then 400 - offset else offset
  {
    if offset < 0 then
      NextYear(year - 1);
      YearOf(year - 1, offset + DaysInYear(year - 1))
    else if offset >= DaysInYear(year) then
      NextYear(year);
      YearOf(year + 1, offset - DaysInYear(year))
    else (year, offset)
  }

  /** The month of `year` holding its day number `doy`, searching from `month` on. */
  function MonthOf(year: int, doy: int, month: int): (m: int)
    requires 0 <= doy < DaysInYear(year) && 1 <= month <= 12 && DaysBeforeMonth(year, month) <= doy
    ensures month <= m <= 12 && DaysBeforeMonth(year, m) <= doy < DaysBeforeMonth(year, m) + DaysInMonth(year, m)
    decreases 12 - month
  {
    MonthEnds(year, month);
    if doy < DaysBeforeMonth(year, month) + DaysInMonth(year, month) then month
    else MonthOf(year, doy, month + 1)
  }

  /** A date the calendar has. */
  predicate ValidDate(d: CivilDate)
  {
    1 <= d.month <= 12 && 1 <= d.day <= DaysInMonth(d.year, d.month)
  }

  /** The day number, counted from 1970-01-01, of a calendar date. */
  function DaysFromCivil(d: CivilDate): int
    requires 1 <= d.month <= 12
  {
    DaysBeforeYear(d.year) + DaysBeforeMonth(d.year, d.month) + d.day - 1
  }

  /**
   * The proleptic Gregorian date of a day counted from 1970-01-01: whole
   * years are counted off from 1970, then whole months.
   */
  function CivilFromDays(days: int): (d: CivilDate)
    ensures 1 <= d.month <= 12 && 1 <= d.day <= 31
    ensures ValidDate(d) && DaysFromCivil(d) == days
  {
    var yd := YearOf(1970, days);
    var month := MonthOf(yd.0, yd.1, 1);
    CivilDate(yd.0, month, yd.1 - DaysBeforeMonth(yd.0, month) + 1)
  }

  /** Every calendar date is the date of its own day number. */
  lemma CivilRoundTrip(d: CivilDate)
    requires ValidDate(d)
    ensures CivilFromDays(DaysFromCivil(d)) == d
  {
    var c := CivilFromDays(DaysFromCivil(d));
    var cDay := DaysBeforeMonth(c.year, c.month) + c.day - 1;
    var dDay := DaysBeforeMonth(d.year, d.month) + d.day - 1;
    MonthsApart(c.year, c.month, 12);
    MonthsApart(d.year, d.month, 12);
    YearUnique(c.year, cDay, d.year, dDay);
    MonthUnique(d.year, c.month, d.month, dDay);
  }

  /** A day number falls in one year only. */
  lemma YearUnique(y1: int, o1: int, y2: int, o2: int)
    requires 0 <= o1 < DaysInYear(y1) && 0 <= o2 < DaysInYear(y2)
    requires DaysBeforeYear(y1) + o1 == DaysBeforeYear(y2) + o2
    ensures y1 == y2 && o1 == o2
  {
    if y1 < y2 {
      YearsApart(y1, y2);
    } else if y2 < y1 {
      YearsApart(y2, y1);
    }
  }

  /** A day of the year falls in one month only. */
  lemma MonthUnique(year: int, m1: int, m2: int, doy: int)
    requires 1 <= m1 <= 12 && DaysBeforeMonth(year, m1) <= doy < DaysBeforeMonth(year, m1) + DaysInMonth(year, m1)
    requires 1 <= m2 <= 12 && DaysBeforeMonth(year, m2) <= doy < DaysBeforeMonth(year, m2) + DaysInMonth(year, m2)
    ensures m1 == m2
  {
    if m1 < m2 {
      MonthsApart(year, m1, m2);
    } else if m2 < m1 {
      MonthsApart(year, m2, m1);
    }
  }

  /** A month ends no later than any later month begins, or than the year ends. */
  lemma {:induction false} MonthsApart(year: int, earlier: int, later: int)
    requires 1 <= earlier <= later <= 12
    ensures earlier < later ==> DaysBeforeMonth(year, earlier) + DaysInMonth(year, earlier) <= DaysBeforeMonth(year, later)
    ensures DaysBeforeMonth(year, earlier) + DaysInMonth(year, earlier) <= DaysInYear(year)
    decreases later - earlier
  {
    MonthEnds(year, earlier);
    if earlier < later {
      MonthsApart(year, earlier + 1, later);
    }
  }

  /** The year of an ISO date: four digits, or a sign and six digits outside 0000-9999. */
  function YearText(year: int): string
  {
    if 0 <= year <= 9999 then PadStart(NatText(year), 4, '0')
    else (if year < 0 then "-" else "+") + PadStart(NatText(if year < 0 then -year else year), 6, '0')
  }

  /** `YYYY-MM-DD` for a civil date. */
  function DateText(d: CivilDate): string
    requires 1 <= d.month && 1 <= d.day
  {
    YearText(d.year) + "-" + PadStart(NatText(d.month), 2, '0') + "-" + PadStart(NatText(d.day), 2, '0')
  }

  /** `toISOString().split('T')[0]` of an instant on the given day. */
  function IsoDate(days: int): string
  {
    DateText(CivilFromDays(days))
  }

  lemma YearTextNumeric(year: int)
    ensures NumericText(YearText(year))
  {
    if 0 <= year <= 9999 {
      PadStartDigits(NatText(year), 4, '0');
      DigitsNumeric(YearText(year));
    } else {
      var digits := PadStart(NatText(if year < 0 then -year else year), 6, '0');
      PadStartDigits(NatText(if year < 0 then -year else year), 6, '0');
      DigitsNumeric(digits);
      NumericConcat(if year < 0 then "-" else "+", digits);
    }
  }

  lemma DateTextNumeric(d: CivilDate)
    requires 1 <= d.month && 1 <= d.day
    ensures NumericText(DateText(d))
  {
    var year, month, day := YearText(d.year), PadStart(NatText(d.month), 2, '0'), PadStart(NatText(d.day), 2, '0');
    YearTextNumeric(d.year);
    PadStartDigits(NatText(d.month), 2, '0');
    PadStartDigits(NatText(d.day), 2, '0');
    DigitsNumeric(month);
    DigitsNumeric(day);
    NumericConcat(year, "-");
    NumericConcat(year + "-", month);
    NumericConcat(year + "-" + month, "-");
    NumericConcat(year + "-" + month + "-", day);
  }

  /** A rendered day holds only digits, signs and dashes. */
  lemma IsoDateNumeric(days: int)
    ensures NumericText(IsoDate(days))
  {
    DateTextNumeric(CivilFromDays(days));
  }

  /** `toLowerCase` on one character, restricted to ASCII. */
  function LowerChar(c: char): char
  {
    if 'A' <= c <= 'Z' then (c as int + 32) as char else c
  }

  /** `toLowerCase`, restricted to ASCII. */
  function Lower(s: string): (r: string)
    ensures |r| == |s| && forall i :: 0 <= i < |s| ==> r[i] == LowerChar(s[i])
  {
    seq(|s|, i requires 0 <= i < |s| => LowerChar(s[i]))
  }

  /** Two characters are the same letter up to ASCII case, or the same character. */
  predicate SameIgnoringCase(x: char, y: char)
  {
    || x == y
    || ('A' <= x <= 'Z' && y as int == x as int + 32)
    || ('A' <= y <= 'Z' && x as int == y as int + 32)
  }

  /** Comparing lower-cased strings is comparing them character by character up to case. */
  lemma LowerEqual(a: string, b: string)
    ensures Lower(a) == Lower(b) <==> |a| == |b| && forall i :: 0 <= i < |a| ==> SameIgnoringCase(a[i], b[i])
  {
    if |a| == |b| && forall i :: 0 <= i < |a| ==> SameIgnoringCase(a[i], b[i]) {
      assert forall i :: 0 <= i < |a| ==> Lower(a)[i] == Lower(b)[i];
    }
    if Lower(a) == Lower(b) {
      forall i | 0 <= i < |a|
        ensures SameIgnoringCase(a[i], b[i])
      {
        assert LowerChar(a[i]) == LowerChar(b[i]);
      }
    }
  }
}
