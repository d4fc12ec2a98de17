/**
 * The part of Python's `datetime` the issuer relies on: `replace(year=…)`,
 * the leap-day fallback of `QWEDCertificateIssuer._add_years`, and
 * `isoformat()`.
 */
module Calendar {
  import opened Values

  /** A naive `datetime`. */
  datatype DateTime = DateTime(
    year: int, month: int, day: int,
    hour: int, minute: int, second: int, microsecond: int)

  /** The Gregorian leap-year rule. */
  predicate IsLeap(y: int) {
    y % 4 == 0 && (y % 100 != 0 || y % 400 == 0)
  }

  function DaysIn(y: int, m: int): int
    requires 1 <= m <= 12
  {
    if m == 2 then (if IsLeap(y) then 29 else 28)
    else if m == 4 || m == 6 || m == 9 || m == 11 then 30
    else 31
  }

  /** `datetime.MINYEAR <= y <= datetime.MAXYEAR`. */
  predicate YearInRange(y: int) {
    1 <= y <= 9999
  }

  /** The values `datetime` accepts. */
  predicate Valid(d: DateTime) {
    && YearInRange(d.year)
    && 1 <= d.month <= 12
    && 1 <= d.day <= DaysIn(d.year, d.month)
    && 0 <= d.hour < 24 && 0 <= d.minute < 60 && 0 <= d.second < 60
    && 0 <= d.microsecond < 1000000
  }

  /** `d.replace(year=y, day=day)`: the year is checked first, then the day. */
  function Replace(d: DateTime, y: int, day: int): (r: Result<DateTime, PyError>)
    requires 1 <= d.month <= 12
  {
    if !YearInRange(y) then Err(ValueError("year " + DecimalString(y) + " is out of range"))
    else if !(1 <= day <= DaysIn(y, d.month)) then Err(ValueError("day is out of range for month"))
    else Ok(d.(year := y, day := day))
  }

  /** `QWEDCertificateIssuer._add_years`: replace the year; when that raises
      ValueError, replace the year and set the day to 28. A second ValueError
      (the year out of range) propagates. */
  function AddYears(d: DateTime, years: int): (r: Result<DateTime, PyError>)
    requires Valid(d)
    ensures r.Ok? ==> Valid(r.value)
  {
    var y := d.year + years;
    match Replace(d, y, d.day)
    case Ok(r) => Ok(r)
    case Err(_) => Replace(d, y, 28)
  }

  /** The only failure is a target year outside 1..9999, with its message. */
  lemma AddYearsFails(d: DateTime, years: int)
    requires Valid(d)
    ensures AddYears(d, years).Err? <==> !YearInRange(d.year + years)
    ensures AddYears(d, years).Err? ==>
      AddYears(d, years).error == ValueError("year " + DecimalString(d.year + years) + " is out of range")
  {
  }

  /** In range, the result is a valid date in year `year + years`, same month
      and time of day; the day is kept except Feb 29 landing in a common
      year, which becomes Feb 28. */
  lemma AddYearsFields(d: DateTime, years: int)
    requires Valid(d) && YearInRange(d.year + years)
    ensures AddYears(d, years).Ok?
    ensures var r := AddYears(d, years).value;
      && Valid(r)
      && r.year == d.year + years
      && r.month == d.month
      && (r.hour, r.minute, r.second, r.microsecond) == (d.hour, d.minute, d.second, d.microsecond)
      && (if d.month == 2 && d.day == 29 && !IsLeap(d.year + years) then r.day == 28 else r.day == d.day)
  {
  }

  /** The day changes exactly for Feb 29 into a common year. */
  lemma AddYearsDayChanges(d: DateTime, years: int)
    requires Valid(d) && YearInRange(d.year + years)
    ensures AddYears(d, years).Ok?
    ensures AddYears(d, years).value.day != d.day <==>
      d.month == 2 && d.day == 29 && !IsLeap(d.year + years)
  {
    AddYearsFields(d, years);
  }

  /** Adding zero years changes nothing. */
  lemma AddZeroYears(d: DateTime)
    requires Valid(d)
    ensures AddYears(d, 0) == Ok(d)
  {
  }

  // ---------------------------------------------------------------------
  // isoformat()

  function Pow10(k: nat): nat {
    if k == 0 then 1 else 10 * Pow10(k - 1)
  }

  /** n in decimal, left-padded with zeros to w digits (`%0wd`). */
  function ZeroPad(n: nat, w: nat): string {
    var s := Digits(n);
    if |s| >= w then s else seq(w - |s|, _ => '0') + s
  }

  lemma {:induction false} DigitsLength(n: nat, w: nat)
    requires 1 <= w && n < Pow10(w)
    ensures |Digits(n)| <= w
  {
    if n >= 10 {
      DigitsLength(n / 10, w - 1);
    }
  }

  lemma {:induction false} ZerosValue(k: nat)
    ensures DigitsValue(seq(k, _ => '0')) == 0
  {
    if k > 0 {
      assert seq(k, _ => '0')[..k - 1] == seq(k - 1, _ => '0');
      ZerosValue(k - 1);
    }
  }

  lemma {:induction false} LeadingZerosValue(k: nat, s: string)
    ensures DigitsValue(seq(k, _ => '0') + s) == DigitsValue(s)
    decreases |s|
  {
    var z := seq(k, _ => '0');
    if |s| == 0 {
      assert z + s == z;
      ZerosValue(k);
    } else {
      var t := z + s;
      assert t[..|t| - 1] == z + s[..|s| - 1];
      LeadingZerosValue(k, s[..|s| - 1]);
    }
  }

  /** A zero-padded field has exactly w characters, all digits, and reads back as n. */
  lemma ZeroPadFits(n: nat, w: nat)
    requires 1 <= w && n < Pow10(w)
    ensures |ZeroPad(n, w)| == w
    ensures forall i :: 0 <= i < w ==> '0' <= ZeroPad(n, w)[i] <= '9'
    ensures DigitsValue(ZeroPad(n, w)) == n
  {
    DigitsLength(n, w);
    DigitsRoundTrip(n);
    LeadingZerosValue(w - |Digits(n)|, Digits(n));
  }

  /** `datetime.isoformat()`: `YYYY-MM-DDTHH:MM:SS`, and `.ffffff` only when
      the microsecond is not zero. */
  function IsoFormat(d: DateTime): string
    requires Valid(d)
  {
    ZeroPad(d.year, 4) + "-" + ZeroPad(d.month, 2) + "-" + ZeroPad(d.day, 2)
    + "T" + ZeroPad(d.hour, 2) + ":" + ZeroPad(d.minute, 2) + ":" + ZeroPad(d.second, 2)
    + (if d.microsecond == 0 then "" else "." + ZeroPad(d.microsecond, 6))
  }

  /** Where the fields of an ISO date-time text sit. */
  lemma IsoLayout(y: string, mo: string, da: string, h: string, mi: string, se: string, tail: string)
    requires |y| == 4 && |mo| == 2 && |da| == 2 && |h| == 2 && |mi| == 2 && |se| == 2
    ensures var s := y + "-" + mo + "-" + da + "T" + h + ":" + mi + ":" + se + tail;
      && |s| == 19 + |tail|
      && s[4] == '-' && s[7] == '-' && s[10] == 'T' && s[13] == ':' && s[16] == ':'
      && s[..4] == y && s[5..7] == mo && s[8..10] == da
      && s[11..13] == h && s[14..16] == mi && s[17..19] == se && s[19..] == tail
  {
    var s := y + "-" + mo + "-" + da + "T" + h + ":" + mi + ":" + se + tail;
    assert s[5..7] == [s[5], s[6]] == mo;
    assert s[8..10] == [s[8], s[9]] == da;
    assert s[11..13] == [s[11], s[12]] == h;
    assert s[14..16] == [s[14], s[15]] == mi;
    assert s[17..19] == [s[17], s[18]] == se;
  }

  /** The text has its fields at fixed positions and each reads back as the
      field's value; it is 19 characters long, 26 with microseconds. */
  lemma IsoFormatFields(d: DateTime)
    requires Valid(d)
    ensures var s := IsoFormat(d);
      && |s| == (if d.microsecond == 0 then 19 else 26)
      && s[4] == '-' && s[7] == '-' && s[10] == 'T' && s[13] == ':' && s[16] == ':'
      && DigitsValue(s[..4]) == d.year
      && DigitsValue(s[5..7]) == d.month
      && DigitsValue(s[8..10]) == d.day
      && DigitsValue(s[11..13]) == d.hour
      && DigitsValue(s[14..16]) == d.minute
      && DigitsValue(s[17..19]) == d.second
      && (d.microsecond != 0 ==> s[19] == '.' && DigitsValue(s[20..]) == d.microsecond)
  {
    ZeroPadFits(d.year, 4);
    ZeroPadFits(d.month, 2);
    ZeroPadFits(d.day, 2);
    ZeroPadFits(d.hour, 2);
    ZeroPadFits(d.minute, 2);
    ZeroPadFits(d.second, 2);
    var tail := if d.microsecond == 0 then "" else "." + ZeroPad(d.microsecond, 6);
    IsoLayout(ZeroPad(d.year, 4), ZeroPad(d.month, 2), ZeroPad(d.day, 2),
              ZeroPad(d.hour, 2), ZeroPad(d.minute, 2), ZeroPad(d.second, 2), tail);
    if d.microsecond != 0 {
      ZeroPadFits(d.microsecond, 6);
      assert tail[1..] == ZeroPad(d.microsecond, 6);
    }
  }
}
