/**
 Dates as Python's `datetime.date` handles them: the proleptic Gregorian
 calendar from 0001-01-01 to 9999-12-31, `d + timedelta(days=1)`, and
 `d.isoformat()` ("YYYY-MM-DD").
 */
module Calendar {
  import opened Wrappers
  import opened Text

  datatype Date = Date(year: int, month: int, day: int)

  const MaxYear: int := 9999

  predicate IsLeap(y: int) {
    y % 4 == 0 && (y % 100 != 0 || y % 400 == 0)
  }

  function DaysIn(y: int, m: int): (n: int)
    requires 1 <= m <= 12
    ensures 28 <= n <= 31
  {
    if m == 2 then (if IsLeap(y) then 29 else 28)
    else if m == 4 || m == 6 || m == 9 || m == 11 then 30
    else 31
  }

  /** A date `datetime.date` can represent. */
  predicate Valid(d: Date) {
    1 <= d.year <= MaxYear && 1 <= d.month <= 12 && 1 <= d.day <= DaysIn(d.year, d.month)
  }

  /** Strict chronological order. */
  predicate Before(a: Date, b: Date) {
    || a.year < b.year
    || (a.year == b.year && a.month < b.month)
    || (a.year == b.year && a.month == b.month && a.day < b.day)
  }

  /** `d + timedelta(days=1)`; None where Python raises OverflowError. */
  function NextDay(d: Date): (r: Option<Date>)
    requires Valid(d)
    ensures r.None? <==> d == Date(MaxYear, 12, 31)
    ensures r.Some? ==> Valid(r.value) && Before(d, r.value)
  {
    if d.day < DaysIn(d.year, d.month) then Some(Date(d.year, d.month, d.day + 1))
    else if d.month < 12 then Some(Date(d.year, d.month + 1, 1))
    else if d.year < MaxYear then Some(Date(d.year + 1, 1, 1))
    else None
  }

  /** `d - timedelta(days=1)`; None before 0001-01-01. */
  function PrevDay(d: Date): (r: Option<Date>)
    requires Valid(d)
    ensures r.None? <==> d == Date(1, 1, 1)
    ensures r.Some? ==> Valid(r.value) && Before(r.value, d)
  {
    if d.day > 1 then Some(Date(d.year, d.month, d.day - 1))
    else if d.month > 1 then Some(Date(d.year, d.month - 1, DaysIn(d.year, d.month - 1)))
    else if d.year > 1 then Some(Date(d.year - 1, 12, 31))
    else None
  }

  /** One day forward and one day back is the identity. */
  lemma NextThenPrev(d: Date)
    requires Valid(d) && d != Date(MaxYear, 12, 31)
    ensures PrevDay(NextDay(d).value) == Some(d)
  {
  }

  /** The day after `d` is the earliest valid date after `d`: no date is skipped. */
  lemma NextDayIsImmediate(d: Date, e: Date)
    requires Valid(d) && Valid(e) && Before(d, e) && d != Date(MaxYear, 12, 31)
    ensures !Before(e, NextDay(d).value)
  {
  }

  /** `k` zero digits. */
  function Zeros(k: nat): (r: string)
    ensures |r| == k && forall i :: 0 <= i < k ==> r[i] == '0'
  {
    if k == 0 then "" else "0" + Zeros(k - 1)
  }

  /** Leading zeros do not change a decimal number. */
  lemma {:induction false} ParseLeadingZero(s: string)
    requires forall i :: 0 <= i < |s| ==> IsDigit(s[i])
    ensures ParseNat("0" + s) == ParseNat(s)
  {
    if |s| > 0 {
      var t := "0" + s;
      assert t[..|t| - 1] == "0" + s[..|s| - 1];
      ParseLeadingZero(s[..|s| - 1]);
    }
  }

  lemma {:induction false} ParseLeadingZeros(k: nat, s: string)
    requires forall i :: 0 <= i < |s| ==> IsDigit(s[i])
    ensures forall i :: 0 <= i < |Zeros(k) + s| ==> IsDigit((Zeros(k) + s)[i])
    ensures ParseNat(Zeros(k) + s) == ParseNat(s)
  {
    if k > 0 {
      var t := Zeros(k - 1) + s;
      assert Zeros(k) + s == "0" + t;
      ParseLeadingZeros(k - 1, s);
      ParseLeadingZero(t);
    } else {
      assert Zeros(k) + s == s;
    }
  }

  /** `'%0{width}d' % n`: the decimal digits of `n`, left-padded with zeros to `width`. */
  function ZeroPad(n: nat, width: nat): (r: string)
    ensures |r| >= width && forall i :: 0 <= i < |r| ==> IsDigit(r[i])
    ensures ParseNat(r) == n
    ensures |NatToString(n)| <= width ==> |r| == width
  {
    var digits := NatToString(n);
    var k := if |digits| >= width then 0 else width - |digits|;
    NatToStringRoundTrip(n);
    ParseLeadingZeros(k, digits);
    Zeros(k) + digits
  }

  /** Numbers below 10, 100, 1000 and 10000 have at most 1, 2, 3 and 4 digits. */
  lemma {:induction false} DigitCount(n: nat)
    ensures n < 10 ==> |NatToString(n)| == 1
    ensures n < 100 ==> |NatToString(n)| <= 2
    ensures n < 1000 ==> |NatToString(n)| <= 3
    ensures n < 10000 ==> |NatToString(n)| <= 4
  {
    if n >= 10 {
      DigitCount(n / 10);
    }
  }

  /** `d.isoformat()` */
  function IsoFormat(d: Date): (r: string)
    requires Valid(d)
    ensures |r| == 10 && r[4] == '-' && r[7] == '-'
  {
    DigitCount(d.year);
    DigitCount(d.month);
    DigitCount(d.day);
    var y, m, dd := ZeroPad(d.year, 4), ZeroPad(d.month, 2), ZeroPad(d.day, 2);
    y + "-" + m + "-" + dd
  }

  /** `date.fromisoformat(s)` on the fixed "YYYY-MM-DD" shape. */
  function ParseIso(s: string): Date
    requires |s| == 10
    requires forall i :: 0 <= i < 10 && i != 4 && i != 7 ==> IsDigit(s[i])
  {
    Date(ParseNat(s[..4]), ParseNat(s[5..7]), ParseNat(s[8..]))
  }

  /** The ISO rendering of a date reads back as the same date. */
  lemma IsoRoundTrip(d: Date)
    requires Valid(d)
    ensures var s := IsoFormat(d);
      (forall i :: 0 <= i < 10 && i != 4 && i != 7 ==> IsDigit(s[i])) && ParseIso(s) == d
  {
    var s := IsoFormat(d);
    DigitCount(d.year);
    DigitCount(d.month);
    DigitCount(d.day);
    var y, m, dd := ZeroPad(d.year, 4), ZeroPad(d.month, 2), ZeroPad(d.day, 2);
    assert s == y + "-" + m + "-" + dd;
    assert s[..4] == y && s[5..7] == m && s[8..] == dd;
  }
}
