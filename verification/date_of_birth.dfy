/**
 * The date-of-birth validator of a patient record. It accepts exactly the
 * strings that `datetime.strptime(val, '%Y-%m-%d')` parses: the directives
 * `%Y`, `%m` and `%d` match the alternatives written out below, the whole
 * string must be consumed, and the result must be a real day of the
 * proleptic Gregorian calendar between the years 1 and 9999.
 */
module DateOfBirth {
  import opened Wrappers
  import opened Text

  const DobError: string := "start_date must be in YYYY-MM-DD format"

  datatype CalendarDate = CalendarDate(year: int, month: int, day: int)

  /** `%Y`: exactly four digits. */
  predicate IsYearField(s: string) {
    |s| == 4 && AllDigits(s)
  }

  /** `%m`: `1[0-2]|0[1-9]|[1-9]`. */
  predicate IsMonthField(s: string) {
    || (|s| == 2 && s[0] == '1' && '0' <= s[1] <= '2')
    || (|s| == 2 && s[0] == '0' && '1' <= s[1] <= '9')
    || (|s| == 1 && '1' <= s[0] <= '9')
  }

  /** `%d`: `3[01]|[12]\d|0[1-9]|[1-9]| [1-9]` (a space may stand for a leading zero). */
  predicate IsDayField(s: string) {
    || (|s| == 2 && s[0] == '3' && '0' <= s[1] <= '1')
    || (|s| == 2 && '1' <= s[0] <= '2' && IsAsciiDigit(s[1]))
    || (|s| == 2 && s[0] == '0' && '1' <= s[1] <= '9')
    || (|s| == 1 && '1' <= s[0] <= '9')
    || (|s| == 2 && s[0] == ' ' && '1' <= s[1] <= '9')
  }

  /** `int(s)` of a day field; `int` ignores the leading space. */
  function DayFieldValue(s: string): (day: nat)
    requires IsDayField(s)
  {
    if s[0] == ' ' then DigitValue(s[1]) else DecimalValue(s)
  }

  /** The year, month and day fields start at 0, 5 and `p + 1`, and `-` separates them. */
  predicate FieldsAt(v: string, p: int) {
    && 5 < p < |v|
    && v[4] == '-' && v[p] == '-'
    && IsYearField(v[..4]) && IsMonthField(v[5..p]) && IsDayField(v[p + 1..])
  }

  function FieldsDate(v: string, p: int): (dt: CalendarDate)
    requires FieldsAt(v, p)
  {
    CalendarDate(DecimalValue(v[..4]), DecimalValue(v[5..p]), DayFieldValue(v[p + 1..]))
  }

  predicate IsLeapYear(y: int) {
    y % 4 == 0 && (y % 100 != 0 || y % 400 == 0)
  }

  function DaysInMonth(y: int, m: int): (days: int)
    requires 1 <= m <= 12
  {
    if m == 2 then (if IsLeapYear(y) then 29 else 28)
    else if m == 4 || m == 6 || m == 9 || m == 11 then 30
    else 31
  }

  /** A day `datetime.date` accepts. */
  predicate IsCalendarDate(dt: CalendarDate) {
    1 <= dt.year <= 9999 && 1 <= dt.month <= 12 && 1 <= dt.day <= DaysInMonth(dt.year, dt.month)
  }

  /**
   * Splits `v` into its three fields: the month ends at the first `-` after
   * index 5, which (the month having one or two digits) is index 6 or 7.
   */
  function ParseYmd(v: string): (dt: Option<CalendarDate>) {
    if |v| < 7 then None
    else
      var p := if v[6] == '-' then 6 else 7;
      if FieldsAt(v, p) then Some(FieldsDate(v, p)) else None
  }

  /** The split finds the only way of reading `v` as `%Y-%m-%d`. */
  lemma ParseYmdIff(v: string, dt: CalendarDate)
    ensures ParseYmd(v) == Some(dt) <==> exists p :: FieldsAt(v, p) && FieldsDate(v, p) == dt
  {
    if exists p :: FieldsAt(v, p) && FieldsDate(v, p) == dt {
      var p :| FieldsAt(v, p) && FieldsDate(v, p) == dt;
      assert p == 6 || p == 7;
      if p == 7 {
        assert v[5..p][1] == v[6];
      }
    }
  }

  /** `datetime.strptime(v, '%Y-%m-%d')` returns without raising. */
  ghost predicate StrptimeAccepts(v: string) {
    exists p :: FieldsAt(v, p) && IsCalendarDate(FieldsDate(v, p))
  }

  /** `BasePatient.validate_date_format`: blank becomes `""`, a parsable date is returned unchanged. */
  function ValidateDateFormat(v: Option<string>): (r: Result<string, string>)
    ensures v.None? || v == Some("") ==> r == Success("")
    ensures v.Some? && v.value != "" && r.Success? ==> r.value == v.value
    ensures r.Failure? ==> r.error == DobError
  {
    if v.None? || v.value == "" then Success("")
    else
      match ParseYmd(v.value)
      case Some(dt) => if IsCalendarDate(dt) then Success(v.value) else Failure(DobError)
      case None => Failure(DobError)
  }

  /** A non-blank date of birth is accepted exactly when `strptime` would accept it. */
  lemma ValidateDateFormatAccepts(v: string)
    requires v != ""
    ensures ValidateDateFormat(Some(v)).Success? <==> StrptimeAccepts(v)
  {
    if ParseYmd(v).Some? {
      ParseYmdIff(v, ParseYmd(v).value);
    }
    if StrptimeAccepts(v) {
      var p :| FieldsAt(v, p) && IsCalendarDate(FieldsDate(v, p));
      ParseYmdIff(v, FieldsDate(v, p));
    }
  }

  /** Validating an already validated date of birth changes nothing. */
  lemma ValidateDateFormatIdempotent(v: Option<string>)
    requires ValidateDateFormat(v).Success?
    ensures ValidateDateFormat(Some(ValidateDateFormat(v).value)) == ValidateDateFormat(v)
  {
  }

  /** Two digits, zero-padded, as `date.isoformat` writes a month or day. */
  function Pad2(n: nat): (s: string)
    requires n < 100
    ensures |s| == 2 && AllDigits(s)
  {
    [DigitChar(n / 10), DigitChar(n % 10)]
  }

  /** Four digits, zero-padded, as `date.isoformat` writes a year. */
  function Pad4(n: nat): (s: string)
    requires n < 10000
    ensures |s| == 4 && AllDigits(s)
  {
    [DigitChar(n / 1000), DigitChar(n / 100 % 10), DigitChar(n / 10 % 10), DigitChar(n % 10)]
  }

  /** `date(y, m, d).isoformat()`: the canonical `YYYY-MM-DD` spelling of a day. */
  function IsoDate(dt: CalendarDate): (s: string)
    requires IsCalendarDate(dt)
  {
    Pad4(dt.year) + "-" + Pad2(dt.month) + "-" + Pad2(dt.day)
  }

  lemma Pad2Value(n: nat)
    requires n < 100
    ensures DecimalValue(Pad2(n)) == n
  {
    var s := Pad2(n);
    assert s[..1] == [s[0]];
    assert DecimalValue(s[..1]) == DigitValue(s[0]);
  }

  lemma Pad4Value(n: nat)
    requires n < 10000
    ensures DecimalValue(Pad4(n)) == n
  {
    var s := Pad4(n);
    FourDigitValue(s);
    TwoDigitValue(s[..2]);
    assert s[..2][0] == s[0] && s[..2][1] == s[1];
    FourDigitSplit(n);
  }

  /** A four-digit number is the sum of its digits times their place values. */
  lemma FourDigitSplit(n: nat)
    requires n < 10000
    ensures n == 100 * (10 * (n / 1000) + n / 100 % 10) + 10 * (n / 10 % 10) + n % 10
  {
    assert n / 100 == 10 * (n / 1000) + n / 100 % 10;
    assert n / 10 == 10 * (n / 100) + n / 10 % 10;
    assert n == 10 * (n / 10) + n % 10;
  }

  /**
   * Round trip: every calendar day, written as `YYYY-MM-DD`, parses back to
   * itself and passes the validator unchanged.
   */
  lemma IsoDateRoundTrip(dt: CalendarDate)
    requires IsCalendarDate(dt)
    ensures ParseYmd(IsoDate(dt)) == Some(dt)
    ensures ValidateDateFormat(Some(IsoDate(dt))) == Success(IsoDate(dt))
  {
    var v := IsoDate(dt);
    var y, m, d := Pad4(dt.year), Pad2(dt.month), Pad2(dt.day);
    assert v[..4] == y && v[5..7] == m && v[8..] == d;
    assert v[4] == '-' && v[7] == '-' && v[6] == m[1];
    Pad4Value(dt.year);
    Pad2Value(dt.month);
    Pad2Value(dt.day);
    assert IsMonthField(m);
    assert IsDayField(d);
    assert FieldsAt(v, 7);
    assert FieldsDate(v, 7) == dt;
  }

  lemma TwoDigitValue(s: string)
    requires |s| == 2 && AllDigits(s)
    ensures DecimalValue(s) == 10 * DigitValue(s[0]) + DigitValue(s[1])
  {
    assert s[..1][..0] == [];
    assert DecimalValue(s[..1]) == DigitValue(s[0]);
  }

  lemma FourDigitValue(s: string)
    requires |s| == 4 && AllDigits(s)
    ensures DecimalValue(s) == 100 * DecimalValue(s[..2]) + 10 * DigitValue(s[2]) + DigitValue(s[3])
  {
    assert s[..3][..2] == s[..2];
  }

  /** A string read as `%Y-%m-%d` at split `p` is accepted or rejected by the calendar alone. */
  lemma DecidedAt(v: string, p: int)
    requires FieldsAt(v, p)
    ensures ValidateDateFormat(Some(v)).Success? <==> IsCalendarDate(FieldsDate(v, p))
  {
    ParseYmdIff(v, FieldsDate(v, p));
  }

  /** `YYYY-02-29` reads as `%Y-%m-%d` at split 7, as February 29th of year `y`. */
  lemma LeapDayFields(y: int)
    requires 1 <= y <= 9999
    ensures FieldsAt(Pad4(y) + "-02-29", 7)
    ensures FieldsDate(Pad4(y) + "-02-29", 7) == CalendarDate(y, 2, 29)
  {
    var v := Pad4(y) + "-02-29";
    assert v[..4] == Pad4(y) && v[5..7] == "02" && v[8..] == "29";
    Pad4Value(y);
    TwoDigitValue("02");
    TwoDigitValue("29");
  }

  /** A century year is a leap year exactly when it is divisible by 400. */
  lemma CenturyLeapYear(y: int)
    requires y % 100 == 0
    ensures IsLeapYear(y) <==> y % 400 == 0
  {
    assert y == 100 * (y / 100);
    if y % 400 == 0 {
      assert y == 4 * (100 * (y / 400));
    }
  }

  /**
   * The leap-day rule over every year: February 29th of year `y`, written
   * `YYYY-02-29`, is accepted exactly in leap years, so a century year only
   * when it is divisible by 400.
   */
  lemma LeapDayAccepted(y: int)
    requires 1 <= y <= 9999
    ensures ValidateDateFormat(Some(Pad4(y) + "-02-29")).Success? <==> IsLeapYear(y)
    ensures y % 100 == 0 ==> (ValidateDateFormat(Some(Pad4(y) + "-02-29")).Success? <==> y % 400 == 0)
  {
    LeapDayFields(y);
    DecidedAt(Pad4(y) + "-02-29", 7);
    if y % 100 == 0 {
      CenturyLeapYear(y);
    }
  }

  /** The leap-day rule: 2024 is a leap year. */
  lemma LeapDayInLeapYear()
    ensures ValidateDateFormat(Some("2024-02-29")).Success?
  {
    assert Pad4(2024) == "2024";
    LeapDayAccepted(2024);
    assert Pad4(2024) + "-02-29" == "2024-02-29";
  }

  /** The leap-day rule: 2023 is not a leap year. */
  lemma LeapDayInCommonYear()
    ensures ValidateDateFormat(Some("2023-02-29")).Failure?
  {
    assert Pad4(2023) == "2023";
    LeapDayAccepted(2023);
    assert Pad4(2023) + "-02-29" == "2023-02-29";
  }

  /** `%m` and `%d` each take a single digit. */
  lemma ShortFieldsAccepted()
    ensures ValidateDateFormat(Some("2024-3-5")).Success?
  {
    var short := "2024-3-5";
    assert short[..4] == "2024" && short[..4][..2] == "20" && short[5..6] == "3" && short[7..] == "5";
    FourDigitValue(short[..4]);
    TwoDigitValue("20");
    assert DecimalValue("3") == 3 && DecimalValue("5") == 5;
    assert FieldsAt(short, 6);
    DecidedAt(short, 6);
  }

  /** `%d` takes a space in place of a leading zero. */
  lemma SpacePaddedDayAccepted()
    ensures ValidateDateFormat(Some("2024-03- 5")).Success?
  {
    var spaced := "2024-03- 5";
    assert spaced[..4] == "2024" && spaced[..4][..2] == "20" && spaced[5..7] == "03" && spaced[8..] == " 5";
    FourDigitValue(spaced[..4]);
    TwoDigitValue("20");
    TwoDigitValue("03");
    assert FieldsAt(spaced, 7);
    DecidedAt(spaced, 7);
  }
}
