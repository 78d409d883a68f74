/** Naive date-times as Python's `datetime.datetime` has them: seven fields,
    compared field by field; their ISO text form (`isoformat` and
    `fromisoformat`) and the `%y%m%d` folder name the organizers use. */
module DateTimes {
  import opened Wrappers
  import opened Text

  datatype DateTime = DateTime(year: nat, month: nat, day: nat,
                               hour: nat, minute: nat, second: nat,
                               microsecond: nat)

  predicate IsLeapYear(y: nat) {
    y % 4 == 0 && (y % 100 != 0 || y % 400 == 0)
  }

  function DaysInMonth(y: nat, m: nat): nat {
    if m == 2 then (if IsLeapYear(y) then 29 else 28)
    else if m == 4 || m == 6 || m == 9 || m == 11 then 30
    else 31
  }

  /** The values `datetime` accepts: years 1..9999 and the usual calendar. */
  predicate Valid(d: DateTime) {
    && 1 <= d.year <= 9999
    && 1 <= d.month <= 12
    && 1 <= d.day <= DaysInMonth(d.year, d.month)
    && d.hour < 24 && d.minute < 60 && d.second < 60
    && d.microsecond < 1000000
  }

  // ---------------------------------------------------------------------
  // Order
  // ---------------------------------------------------------------------

  function Fields(d: DateTime): (r: seq<nat>)
    ensures |r| == 7
  {
    [d.year, d.month, d.day, d.hour, d.minute, d.second, d.microsecond]
  }

  predicate LexLess(a: seq<nat>, b: seq<nat>)
    requires |a| == |b|
    decreases |a|
  {
    |a| > 0 && (a[0] < b[0] || (a[0] == b[0] && LexLess(a[1..], b[1..])))
  }

  /** `a < b` on datetimes. */
  predicate Before(a: DateTime, b: DateTime) {
    LexLess(Fields(a), Fields(b))
  }

  /** `a <= b` on datetimes. */
  predicate NotAfter(a: DateTime, b: DateTime) {
    !Before(b, a)
  }

  lemma {:induction false} LexLessIsStrictTotal(a: seq<nat>, b: seq<nat>, c: seq<nat>)
    requires |a| == |b| == |c|
    ensures !LexLess(a, a)
    ensures LexLess(a, b) && LexLess(b, c) ==> LexLess(a, c)
    ensures a == b || LexLess(a, b) || LexLess(b, a)
    ensures !(LexLess(a, b) && LexLess(b, a))
    decreases |a|
  {
    if |a| > 0 {
      LexLessIsStrictTotal(a[1..], b[1..], c[1..]);
      if a[0] == b[0] && a[1..] == b[1..] {
        assert a == [a[0]] + a[1..] && b == [b[0]] + b[1..];
      }
    }
  }

  /** `<` on datetimes is a strict total order, so `<=` is its reflexive
      closure. */
  lemma BeforeIsStrictTotalOrder(a: DateTime, b: DateTime, c: DateTime)
    ensures !Before(a, a)
    ensures Before(a, b) && Before(b, c) ==> Before(a, c)
    ensures a == b || Before(a, b) || Before(b, a)
    ensures NotAfter(a, b) <==> (a == b || Before(a, b))
  {
    LexLessIsStrictTotal(Fields(a), Fields(b), Fields(c));
    LexLessIsStrictTotal(Fields(b), Fields(a), Fields(c));
    if Fields(a) == Fields(b) {
      assert a.year == b.year && a.month == b.month && a.day == b.day;
      assert a.hour == b.hour && a.minute == b.minute;
      assert a.second == b.second && a.microsecond == b.microsecond;
    }
  }

  // ---------------------------------------------------------------------
  // ISO text form
  // ---------------------------------------------------------------------

  function DatePart(d: DateTime): string {
    PadNat(d.year, 4) + "-" + PadNat(d.month, 2) + "-" + PadNat(d.day, 2)
  }

  function ClockPart(d: DateTime): string {
    PadNat(d.hour, 2) + ":" + PadNat(d.minute, 2) + ":" + PadNat(d.second, 2)
  }

  /** `d.isoformat()`: `YYYY-MM-DDTHH:MM:SS`, followed by `.ffffff` when
      the microsecond is not zero. */
  function ToIso(d: DateTime): string {
    DatePart(d) + "T" + ClockPart(d) + Fraction(d)
  }

  /** Reads a two-digit field at `s[i..i + 2]`. */
  function Field2(s: string, i: nat): Option<nat>
    requires i + 2 <= |s|
  {
    if AllDigits(s[i..i + 2]) then Some(DigitsValue(s[i..i + 2])) else None
  }

  /** The time after the date in `datetime.fromisoformat` (Python 3.7 to
      3.10, without a UTC offset): nothing, or one separator character
      followed by `HH`, `HH:MM`, `HH:MM:SS`, `HH:MM:SS.fff` or
      `HH:MM:SS.ffffff`. */
  function ParseTime(t: string): Option<(nat, nat, nat, nat)> {
    if t == [] then Some((0, 0, 0, 0))
    else
      var u := t[1..];
      if |u| == 2 then
        (match Field2(u, 0)
         case Some(h) => Some((h, 0, 0, 0))
         case None => None)
      else if |u| == 5 && u[2] == ':' then
        (match (Field2(u, 0), Field2(u, 3))
         case (Some(h), Some(m)) => Some((h, m, 0, 0))
         case _ => None)
      else if (|u| == 8 || |u| == 12 || |u| == 15) && u[2] == ':' && u[5] == ':' then
        (match (Field2(u, 0), Field2(u, 3), Field2(u, 6))
         case (Some(h), Some(m), Some(sec)) =>
           if |u| == 8 then Some((h, m, sec, 0))
           else if u[8] == '.' && AllDigits(u[9..]) then
             var frac := DigitsValue(u[9..]);
             Some((h, m, sec, if |u| == 12 then frac * 1000 else frac))
           else None
         case _ => None)
      else None
  }

  /** `datetime.fromisoformat(s)`; `None` stands for the `ValueError` it
      raises. */
  function FromIso(s: string): Option<DateTime> {
    if |s| < 10 || s[4] != '-' || s[7] != '-' || !AllDigits(s[..4]) then None
    else
      match (Field2(s, 5), Field2(s, 8), ParseTime(s[10..]))
      case (Some(mo), Some(dd), Some(tm)) =>
        var d := DateTime(DigitsValue(s[..4]), mo, dd, tm.0, tm.1, tm.2, tm.3);
        if Valid(d) then Some(d) else None
      case _ => None
  }

  lemma PadNat2(n: nat)
    requires n < 100
    ensures |PadNat(n, 2)| == 2 && AllDigits(PadNat(n, 2)) && DigitsValue(PadNat(n, 2)) == n
  {
    PadNatValue(n, 2);
  }

  lemma DatePartFields(d: DateTime)
    requires Valid(d)
    ensures var s := DatePart(d);
      |s| == 10 && s[4] == '-' && s[7] == '-' && AllDigits(s[..4]) &&
      DigitsValue(s[..4]) == d.year && Field2(s, 5) == Some(d.month) && Field2(s, 8) == Some(d.day)
  {
    var s := DatePart(d);
    PadNatValue(d.year, 4);
    PadNat2(d.month);
    PadNat2(d.day);
    assert s[..4] == PadNat(d.year, 4);
    assert s[5..7] == PadNat(d.month, 2);
    assert s[8..10] == PadNat(d.day, 2);
  }

  lemma ClockPartFields(d: DateTime)
    requires Valid(d)
    ensures var s := ClockPart(d);
      |s| == 8 && s[2] == ':' && s[5] == ':' &&
      Field2(s, 0) == Some(d.hour) && Field2(s, 3) == Some(d.minute) && Field2(s, 6) == Some(d.second)
  {
    var s := ClockPart(d);
    PadNat2(d.hour);
    PadNat2(d.minute);
    PadNat2(d.second);
    assert s[0..2] == PadNat(d.hour, 2);
    assert s[3..5] == PadNat(d.minute, 2);
    assert s[6..8] == PadNat(d.second, 2);
  }

  /** The time reader on a separator, a clock `HH:MM:SS` and an optional
      six-digit fraction. */
  lemma ParseClockAndFraction(c: string, frac: string, h: nat, m: nat, sec: nat, us: nat)
    requires |c| == 8 && c[2] == ':' && c[5] == ':'
    requires Field2(c, 0) == Some(h) && Field2(c, 3) == Some(m) && Field2(c, 6) == Some(sec)
    requires frac == [] ==> us == 0
    requires frac != [] ==> |frac| == 7 && frac[0] == '.' && AllDigits(frac[1..]) && DigitsValue(frac[1..]) == us
    ensures ParseTime("T" + c + frac) == Some((h, m, sec, us))
  {
    var t := "T" + c + frac;
    var u := t[1..];
    assert u == c + frac;
    assert u[0..2] == c[0..2] && u[3..5] == c[3..5] && u[6..8] == c[6..8];
    assert Field2(u, 0) == Some(h) && Field2(u, 3) == Some(m) && Field2(u, 6) == Some(sec);
    if frac != [] {
      assert u[8] == '.';
      assert u[9..] == frac[1..];
    }
  }

  function Fraction(d: DateTime): string {
    if d.microsecond == 0 then "" else "." + PadNat(d.microsecond, 6)
  }

  lemma FractionDigits(d: DateTime)
    requires Valid(d)
    ensures var f := Fraction(d);
      (f == [] ==> d.microsecond == 0) &&
      (f != [] ==> |f| == 7 && f[0] == '.' && AllDigits(f[1..]) && DigitsValue(f[1..]) == d.microsecond)
  {
    if d.microsecond != 0 {
      PadNatValue(d.microsecond, 6);
      assert Fraction(d)[1..] == PadNat(d.microsecond, 6);
    }
  }

  lemma TimeRoundTrip(d: DateTime)
    requires Valid(d)
    ensures ParseTime(ToIso(d)[10..]) == Some((d.hour, d.minute, d.second, d.microsecond))
  {
    var c := ClockPart(d);
    var dp := DatePart(d);
    DatePartFields(d);
    ClockPartFields(d);
    FractionDigits(d);
    assert ToIso(d) == dp + ("T" + c + Fraction(d));
    assert ToIso(d)[10..] == "T" + c + Fraction(d);
    ParseClockAndFraction(c, Fraction(d), d.hour, d.minute, d.second, d.microsecond);
  }

  /** The date reader on a ten-character date and any tail. */
  lemma ParseDatePrefix(dp: string, rest: string)
    requires |dp| == 10
    ensures var s := dp + rest;
      s[4] == dp[4] && s[7] == dp[7] && s[..4] == dp[..4] &&
      Field2(s, 5) == Field2(dp, 5) && Field2(s, 8) == Field2(dp, 8) && s[10..] == rest
  {
    var s := dp + rest;
    assert s[5..7] == dp[5..7] && s[8..10] == dp[8..10];
  }

  /** `datetime.fromisoformat(d.isoformat()) == d`. */
  lemma IsoRoundTrip(d: DateTime)
    requires Valid(d)
    ensures FromIso(ToIso(d)) == Some(d)
  {
    var dp := DatePart(d);
    var rest := "T" + ClockPart(d) + Fraction(d);
    assert ToIso(d) == dp + rest;
    DatePartFields(d);
    ParseDatePrefix(dp, rest);
    TimeRoundTrip(d);
  }

  // ---------------------------------------------------------------------
  // The `%y%m%d` bucket
  // ---------------------------------------------------------------------

  /** `d.strftime("%y%m%d")`. */
  function Bucket(d: DateTime): string {
    PadNat(d.year % 100, 2) + PadNat(d.month, 2) + PadNat(d.day, 2)
  }

  /** The bucket of a valid date is six digits: the year modulo 100, the
      month and the day, two digits each. */
  lemma BucketDigits(d: DateTime)
    requires Valid(d)
    ensures var b := Bucket(d);
      |b| == 6 && AllDigits(b) &&
      DigitsValue(b[0..2]) == d.year % 100 &&
      DigitsValue(b[2..4]) == d.month &&
      DigitsValue(b[4..6]) == d.day
  {
    var b := Bucket(d);
    PadNat2(d.year % 100);
    PadNat2(d.month);
    PadNat2(d.day);
    assert b[0..2] == PadNat(d.year % 100, 2);
    assert b[2..4] == PadNat(d.month, 2);
    assert b[4..6] == PadNat(d.day, 2);
  }

  /** Two valid dates share a bucket exactly when they agree on the year
      modulo 100, the month and the day; the time of day plays no part. */
  lemma SameBucketIffSameDay(a: DateTime, b: DateTime)
    requires Valid(a) && Valid(b)
    ensures Bucket(a) == Bucket(b) <==>
            (a.year % 100 == b.year % 100 && a.month == b.month && a.day == b.day)
  {
    BucketDigits(a);
    BucketDigits(b);
  }
}
