/**
 * The field normalisers of a patient record: phone numbers, the social
 * security number and the e-mail address. Each takes the raw field value
 * (`None` when the caller passed `None`) and either returns the normalised
 * string or fails with the message of the `ValueError` it raises.
 * Digits are ASCII digits.
 */
module PatientFields {
  import opened Wrappers
  import opened Text

  /** The placeholder the portal's masked phone input shows when it is empty. */
  const PhoneMask: string := "(___) ___-____"
  /** The placeholder the portal's masked SSN input shows when it is empty. */
  const SsnMask: string := "___-__-____"

  const PhoneError: string := "Phone number must be a valid US number (10 digits)"
  const SsnError: string := "SSN must be 9 digits"
  const EmailError: string := "Invalid email format"

  /** Python's `not v` for an optional string: `None` or empty. */
  predicate IsBlank(v: Option<string>) {
    v.None? || v.value == ""
  }

  // ---------------------------------------------------------------- phone

  /** `(ddd) ddd-dddd`, the literal layout the validator writes out. */
  function PhoneLayout(d: string): (s: string)
    requires |d| == 10
  {
    "(" + d[..3] + ") " + d[3..6] + "-" + d[6..]
  }

  /** A formatted US phone number: ten digits in the `(XXX) XXX-XXXX` layout. */
  predicate IsPhoneShape(r: string) {
    && |r| == 14
    && r[0] == '(' && r[4] == ')' && r[5] == ' ' && r[9] == '-'
    && AllDigits(r[1..4]) && AllDigits(r[6..9]) && AllDigits(r[10..])
  }

  /** The ten national digits the validator keeps: all ten, or the last ten after a leading `1`. */
  function NationalDigits(v: string): (d: string) {
    var d := Digits(v);
    if |d| == 11 && d[0] == '1' then d[1..] else d
  }

  /** The validator accepts a non-placeholder value exactly when it has ten digits, or eleven with a leading `1`. */
  predicate IsUsPhoneDigitCount(v: string) {
    var d := Digits(v);
    |d| == 10 || (|d| == 11 && d[0] == '1')
  }

  /** `BasePatient.format_phone`. */
  function FormatPhone(v: Option<string>): (r: Result<string, string>)
    ensures IsBlank(v) || v == Some(PhoneMask) ==> r == Success(PhoneMask)
    ensures r.Failure? <==> !IsBlank(v) && v.value != PhoneMask && !IsUsPhoneDigitCount(v.value)
    ensures r.Failure? ==> r.error == PhoneError
  {
    if IsBlank(v) || v.value == PhoneMask then Success(PhoneMask)
    else
      var digits := Digits(v.value);
      if |digits| == 10 then Success(PhoneLayout(digits))
      else if |digits| == 11 && digits[0] == '1' then Success(PhoneLayout(digits[1..]))
      else Failure(PhoneError)
  }

  /** The layout is in phone shape and filtering its digits gives the ten digits back. */
  lemma PhoneLayoutDigits(d: string)
    requires |d| == 10 && AllDigits(d)
    ensures IsPhoneShape(PhoneLayout(d))
    ensures Digits(PhoneLayout(d)) == d
  {
    var r := PhoneLayout(d);
    assert r == "(" + d[..3] + ") " + d[3..6] + "-" + d[6..];
    DigitsAppend("(" + d[..3] + ") " + d[3..6] + "-", d[6..]);
    DigitsAppend("(" + d[..3] + ") " + d[3..6], "-");
    DigitsAppend("(" + d[..3] + ") ", d[3..6]);
    DigitsAppend("(" + d[..3], ") ");
    DigitsAppend("(", d[..3]);
    DigitsOfNoDigits("(");
    DigitsOfNoDigits(") ");
    DigitsOfNoDigits("-");
    DigitsOfDigits(d[..3]);
    DigitsOfDigits(d[3..6]);
    DigitsOfDigits(d[6..]);
    assert d == d[..3] + d[3..6] + d[6..];
    assert r[1..4] == d[..3] && r[6..9] == d[3..6] && r[10..] == d[6..];
  }

  /** Every string in phone shape is the layout of its own digits. */
  lemma PhoneShapeIsLayout(r: string)
    requires IsPhoneShape(r)
    ensures |Digits(r)| == 10 && PhoneLayout(Digits(r)) == r
  {
    var d := r[1..4] + r[6..9] + r[10..];
    assert AllDigits(d) by {
      forall i | 0 <= i < |d| ensures IsAsciiDigit(d[i]) {
        if i < 3 { assert d[i] == r[1..4][i]; }
        else if i < 6 { assert d[i] == r[6..9][i - 3]; }
        else { assert d[i] == r[10..][i - 6]; }
      }
    }
    assert d[..3] == r[1..4] && d[3..6] == r[6..9] && d[6..] == r[10..];
    assert PhoneLayout(d) == r;
    PhoneLayoutDigits(d);
  }

  /**
   * What a successful phone normalisation means: either the placeholder for
   * a blank or placeholder input, or the input's national digits, in order,
   * laid out as `(XXX) XXX-XXXX`.
   */
  lemma FormatPhoneKeepsDigits(v: string)
    requires FormatPhone(Some(v)).Success?
    ensures v == "" || v == PhoneMask ==> FormatPhone(Some(v)).value == PhoneMask
    ensures v != "" && v != PhoneMask ==>
      var r := FormatPhone(Some(v)).value;
      IsPhoneShape(r) && |r| == 14 && Digits(r) == NationalDigits(v) && |NationalDigits(v)| == 10
  {
    if v != "" && v != PhoneMask {
      PhoneLayoutDigits(NationalDigits(v));
    }
  }

  /** Normalising an already normalised phone value changes nothing. */
  lemma FormatPhoneIdempotent(v: Option<string>)
    requires FormatPhone(v).Success?
    ensures FormatPhone(Some(FormatPhone(v).value)) == FormatPhone(v)
  {
    var r := FormatPhone(v).value;
    if r != PhoneMask {
      var d := NationalDigits(v.value);
      PhoneLayoutDigits(d);
      assert r[1] != PhoneMask[1];
    }
  }

  // ------------------------------------------------------------------ SSN

  /** `ddd-dd-dddd`, the literal layout the validator writes out. */
  function SsnLayout(d: string): (s: string)
    requires |d| == 9
  {
    d[..3] + "-" + d[3..5] + "-" + d[5..]
  }

  /** A formatted SSN: nine digits in the `XXX-XX-XXXX` layout. */
  predicate IsSsnShape(r: string) {
    && |r| == 11
    && r[3] == '-' && r[6] == '-'
    && AllDigits(r[..3]) && AllDigits(r[4..6]) && AllDigits(r[7..])
  }

  /** `BasePatient.format_ssn`. */
  function FormatSsn(v: Option<string>): (r: Result<string, string>)
    ensures IsBlank(v) || v == Some(SsnMask) ==> r == Success(SsnMask)
    ensures r.Failure? <==> !IsBlank(v) && v.value != SsnMask && |Digits(v.value)| != 9
    ensures r.Failure? ==> r.error == SsnError
  {
    if IsBlank(v) || v.value == SsnMask then Success(SsnMask)
    else
      var digits := Digits(v.value);
      if |digits| != 9 then Failure(SsnError)
      else Success(SsnLayout(digits))
  }

  /** The layout is in SSN shape and filtering its digits gives the nine digits back. */
  lemma SsnLayoutDigits(d: string)
    requires |d| == 9 && AllDigits(d)
    ensures IsSsnShape(SsnLayout(d))
    ensures Digits(SsnLayout(d)) == d
  {
    var r := SsnLayout(d);
    DigitsAppend(d[..3] + "-" + d[3..5] + "-", d[5..]);
    DigitsAppend(d[..3] + "-" + d[3..5], "-");
    DigitsAppend(d[..3] + "-", d[3..5]);
    DigitsAppend(d[..3], "-");
    DigitsOfNoDigits("-");
    DigitsOfDigits(d[..3]);
    DigitsOfDigits(d[3..5]);
    DigitsOfDigits(d[5..]);
    assert d == d[..3] + d[3..5] + d[5..];
    assert r[..3] == d[..3] && r[4..6] == d[3..5] && r[7..] == d[5..];
  }

  /** Every string in SSN shape is the layout of its own digits. */
  lemma SsnShapeIsLayout(r: string)
    requires IsSsnShape(r)
    ensures |Digits(r)| == 9 && SsnLayout(Digits(r)) == r
  {
    var d := r[..3] + r[4..6] + r[7..];
    assert AllDigits(d) by {
      forall i | 0 <= i < |d| ensures IsAsciiDigit(d[i]) {
        if i < 3 { assert d[i] == r[..3][i]; }
        else if i < 5 { assert d[i] == r[4..6][i - 3]; }
        else { assert d[i] == r[7..][i - 5]; }
      }
    }
    assert d[..3] == r[..3] && d[3..5] == r[4..6] && d[5..] == r[7..];
    assert SsnLayout(d) == r;
    SsnLayoutDigits(d);
  }

  /**
   * What a successful SSN normalisation means: the placeholder for a blank
   * or placeholder input, or the input's nine digits, in order, laid out as
   * `XXX-XX-XXXX`.
   */
  lemma FormatSsnKeepsDigits(v: string)
    requires FormatSsn(Some(v)).Success?
    ensures v == "" || v == SsnMask ==> FormatSsn(Some(v)).value == SsnMask
    ensures v != "" && v != SsnMask ==>
      var r := FormatSsn(Some(v)).value;
      IsSsnShape(r) && |r| == 11 && Digits(r) == Digits(v)
  {
    if v != "" && v != SsnMask {
      SsnLayoutDigits(Digits(v));
    }
  }

  /** Normalising an already normalised SSN changes nothing. */
  lemma FormatSsnIdempotent(v: Option<string>)
    requires FormatSsn(v).Success?
    ensures FormatSsn(Some(FormatSsn(v).value)) == FormatSsn(v)
  {
    var r := FormatSsn(v).value;
    if r != SsnMask {
      SsnLayoutDigits(Digits(v.value));
      assert r[0] != SsnMask[0];
    }
  }

  // ---------------------------------------------------------------- e-mail

  predicate NoAt(s: string) {
    forall q :: 0 <= q < |s| ==> s[q] != '@'
  }

  /**
   * The pattern `[^@]+@[^@]+\.[^@]+` matches `v[..k]` with its `@` at index
   * `i` and its `.` at index `j`.
   */
  ghost predicate EmailPatternAt(v: string, i: int, j: int, k: int) {
    && 1 <= i && i + 2 <= j && j + 2 <= k <= |v|
    && v[i] == '@' && v[j] == '.'
    && NoAt(v[..i]) && NoAt(v[i + 1..j]) && NoAt(v[j + 1..k])
  }

  /** `re.match` semantics: the pattern matches some prefix of `v`; what follows is not looked at. */
  ghost predicate EmailPatternMatches(v: string) {
    exists i, j, k :: EmailPatternAt(v, i, j, k)
  }

  /** The index of the first `@` at or after `from`, or `|v|` when there is none. */
  function NextAt(v: string, from: nat): (p: nat)
    requires from <= |v|
    ensures from <= p <= |v|
    ensures p < |v| ==> v[p] == '@'
    ensures forall q :: from <= q < p ==> v[q] != '@'
    decreases |v| - from
  {
    if from == |v| || v[from] == '@' then from else NextAt(v, from + 1)
  }

  /** Whether some index in `[lo, hi)` holds a `.`. */
  function HasDotIn(v: string, lo: nat, hi: nat): (b: bool)
    requires hi <= |v|
    ensures b <==> exists q :: lo <= q < hi && v[q] == '.'
    decreases hi - lo
  {
    if lo >= hi then false else v[lo] == '.' || HasDotIn(v, lo + 1, hi)
  }

  /**
   * A scan deciding the pattern: the first `@` is not at the start, and the
   * run of non-`@` characters after it has a `.` with at least one character
   * on each side.
   */
  function EmailPrefixMatches(v: string): bool {
    var at := NextAt(v, 0);
    && 1 <= at < |v|
    && var end := NextAt(v, at + 1);
       HasDotIn(v, at + 2, end - 1)
  }

  /** The scan and the pattern agree on every string. */
  lemma EmailPrefixMatchesIff(v: string)
    ensures EmailPrefixMatches(v) <==> EmailPatternMatches(v)
  {
    var at := NextAt(v, 0);
    if EmailPrefixMatches(v) {
      var end := NextAt(v, at + 1);
      var j :| at + 2 <= j < end - 1 && v[j] == '.';
      assert EmailPatternAt(v, at, j, j + 2);
    }
    if EmailPatternMatches(v) {
      var i, j, k :| EmailPatternAt(v, i, j, k);
      assert at == i;
      var end := NextAt(v, at + 1);
      assert end >= k;
      assert HasDotIn(v, at + 2, end - 1);
    }
  }

  /** The pattern is anchored at the start only: text after a match is never checked. */
  lemma EmailPatternIgnoresTrailingText(v: string, t: string)
    requires EmailPatternMatches(v)
    ensures EmailPatternMatches(v + t)
  {
    var i, j, k :| EmailPatternAt(v, i, j, k);
    var w := v + t;
    assert w[..i] == v[..i] && w[i + 1..j] == v[i + 1..j] && w[j + 1..k] == v[j + 1..k];
    assert EmailPatternAt(w, i, j, k);
  }

  /** `BasePatient.validate_email`: blank becomes `""`, a match is returned unchanged. */
  function ValidateEmail(v: Option<string>): (r: Result<string, string>)
    ensures IsBlank(v) ==> r == Success("")
    ensures !IsBlank(v) && r.Success? ==> r.value == v.value
    ensures r.Failure? ==> r.error == EmailError
  {
    if IsBlank(v) then Success("")
    else if EmailPrefixMatches(v.value) then Success(v.value)
    else Failure(EmailError)
  }

  /** A non-blank e-mail value is accepted exactly when the pattern matches a prefix of it. */
  lemma ValidateEmailAccepts(v: string)
    requires v != ""
    ensures ValidateEmail(Some(v)).Success? <==> EmailPatternMatches(v)
  {
    EmailPrefixMatchesIff(v);
  }

  /** Validating an already validated e-mail value changes nothing. */
  lemma ValidateEmailIdempotent(v: Option<string>)
    requires ValidateEmail(v).Success?
    ensures ValidateEmail(Some(ValidateEmail(v).value)) == ValidateEmail(v)
  {
  }
}
