// What the client forms share: the error map they build (`tempErrors`),
// the loop over required fields, the clearing of a field's error on edit,
// and the digit masks on their inputs.
module Forms {
  import opened Common
  import Calendar

  /** `errors` / `tempErrors`: a message per field name. */
  type Errors = map<string, string>

  const RequiredMessage := "This field is required"

  /**
   * `if (errors[name]) setErrors({ ...errors, [name]: '' })`: a field that
   * shows a message has it blanked; the map is otherwise left alone.
   */
  function Cleared(errors: Errors, name: string): (e: Errors)
    ensures e.Keys == errors.Keys
    ensures name in e ==> e[name] == ""
    ensures forall k :: k in errors && k != name ==> e[k] == errors[k]
  {
    if name in errors && errors[name] != "" then errors[name := ""] else errors
  }

  /** `setErrors({ ...errors, [name]: '' })` of the login forms: the entry is written even if absent. */
  function Blanked(errors: Errors, name: string): (e: Errors)
    ensures e.Keys == errors.Keys + {name} && e[name] == ""
    ensures forall k :: k in errors && k != name ==> e[k] == errors[k]
  {
    errors[name := ""]
  }

  /** `/^\d*$/.test(value) && value.length <= n` */
  predicate DigitsUpTo(value: string, n: nat)
  {
    AllDigits(value) && |value| <= n
  }

  /** `parseInt(age) < 18`; a text `parseInt` cannot read (NaN) is never under age. */
  predicate Underage(age: string)
  {
    ParseInt(age).Some? && ParseInt(age).value < 18
  }

  /** Field `k` carries a message exactly when `bad`, and then the message `msg`. */
  predicate Flagged(errors: Errors, k: string, bad: bool, msg: string)
  {
    (k in errors <==> bad) && (bad ==> errors[k] == msg)
  }

  /** The field names of a list of (name, value) pairs. */
  function Names(fields: seq<(string, string)>): set<string>
  {
    set i | 0 <= i < |fields| :: fields[i].0
  }

  predicate DistinctNames(fields: seq<(string, string)>)
  {
    forall i, j :: 0 <= i < j < |fields| ==> fields[i].0 != fields[j].0
  }

  /** One field of the `forEach` over required fields keeps the loop's facts, one field further on. */
  lemma RequireStep(fields: seq<(string, string)>, n: nat, errors: Errors, isValid: bool,
                    errors': Errors, isValid': bool)
    requires n < |fields| && DistinctNames(fields)
    requires errors.Keys <= Names(fields[..n])
    requires forall i :: 0 <= i < n ==> Flagged(errors, fields[i].0, fields[i].1 == "", RequiredMessage)
    requires isValid <==> forall i :: 0 <= i < n ==> fields[i].1 != ""
    requires isValid <==> errors == map[]
    requires errors' == if fields[n].1 == "" then errors[fields[n].0 := RequiredMessage] else errors
    requires isValid' == (isValid && fields[n].1 != "")
    ensures errors'.Keys <= Names(fields[..n + 1])
    ensures forall i :: 0 <= i < n + 1 ==> Flagged(errors', fields[i].0, fields[i].1 == "", RequiredMessage)
    ensures isValid' <==> forall i :: 0 <= i < n + 1 ==> fields[i].1 != ""
    ensures isValid' <==> errors' == map[]
  {
    assert fields[..n + 1][n] == fields[n];
    assert forall i :: 0 <= i < n ==> fields[..n + 1][i] == fields[..n][i];
    if fields[n].1 == "" {
      assert fields[n].0 in errors';
    }
  }

  /**
   * The `forEach` over required fields: every empty value gets the
   * "required" message and clears the flag; the others get nothing.
   */
  method RequireAll(fields: seq<(string, string)>) returns (errors: Errors, isValid: bool)
    requires DistinctNames(fields)
    ensures errors.Keys <= Names(fields)
    ensures forall i :: 0 <= i < |fields| ==> Flagged(errors, fields[i].0, fields[i].1 == "", RequiredMessage)
    ensures isValid <==> forall i :: 0 <= i < |fields| ==> fields[i].1 != ""
    ensures isValid <==> errors == map[]
  {
    errors, isValid := map[], true;
    for n := 0 to |fields|
      invariant errors.Keys <= Names(fields[..n])
      invariant forall i :: 0 <= i < n ==> Flagged(errors, fields[i].0, fields[i].1 == "", RequiredMessage)
      invariant isValid <==> forall i :: 0 <= i < n ==> fields[i].1 != ""
      invariant isValid <==> errors == map[]
    {
      var blank := fields[n].1 == "";
      ghost var errors0, isValid0 := errors, isValid;
      errors := if blank then errors[fields[n].0 := RequiredMessage] else errors;
      isValid := isValid && !blank;
      RequireStep(fields, n, errors0, isValid0, errors, isValid);
    }
    assert fields[..|fields|] == fields;
  }

  /** A two-digit or four-digit decimal field at `s[i..j]`. */
  function DecimalAt(s: string, i: nat, j: nat): Option<int>
    requires i <= j <= |s|
  {
    if i < j && AllDigits(s[i..j]) then Some(DecimalValue(s[i..j])) else None
  }

  /**
   * `new Date(value)` for the value of a date input (`YYYY-MM-DD`), read as
   * a UTC date; `None` for a string that is not a date (an `Invalid Date`).
   */
  function DateInput(s: string): (r: Option<Calendar.Date>)
    ensures r.Some? ==> Calendar.ValidDate(r.value)
  {
    if |s| != 10 || s[4] != '-' || s[7] != '-' then None
    else
      var y := DecimalAt(s, 0, 4);
      var m := DecimalAt(s, 5, 7);
      var d := DecimalAt(s, 8, 10);
      if y.None? || m.None? || d.None? then None
      else if Calendar.ValidDate(Calendar.Date(y.value, m.value, d.value)) then Some(Calendar.Date(y.value, m.value, d.value))
      else None
  }

  /** The last `width` decimal digits of `n`, zeros in front where `n` is shorter. */
  function Padded(n: nat, width: nat): (r: string)
    ensures |r| == width && AllDigits(r)
    ensures n < Pow10(width) ==> DecimalValue(r) == n
  {
    if width == 0 then ""
    else
      var r := Padded(n / 10, width - 1) + [(('0' as int) + n % 10) as char];
      assert r[..|r| - 1] == Padded(n / 10, width - 1);
      assert n < Pow10(width) ==> n / 10 < Pow10(width - 1);
      r
  }

  /**
   * The date part of `toISOString()` for the instant `t` (what
   * `split('T')[0]` keeps): four year digits for the years 0 to 9999, a
   * sign and six digits for the others.
   */
  function IsoDay(t: int): (r: string)
    ensures 0 <= Calendar.DateOf(t).year <= 9999 ==> |r| == 10
  {
    var d := Calendar.DateOf(t);
    var year :=
      if 0 <= d.year <= 9999 then Padded(d.year, 4)
      else (if d.year < 0 then "-" else "+") + Padded(if d.year < 0 then -d.year else d.year, 6);
    year + "-" + Padded(d.month, 2) + "-" + Padded(d.day, 2)
  }

  /** A date input reads an ISO day of the years 0 to 9999 back as that day. */
  lemma IsoDayReadsBack(t: int)
    ensures 0 <= Calendar.DateOf(t).year <= 9999 ==> DateInput(IsoDay(t)) == Some(Calendar.DateOf(t))
  {
    if 0 <= Calendar.DateOf(t).year <= 9999 {
      FourDigitYear(t);
    }
  }

  lemma FourDigitYear(t: int)
    requires 0 <= Calendar.DateOf(t).year <= 9999
    ensures DateInput(IsoDay(t)) == Some(Calendar.DateOf(t))
  {
    var d := Calendar.DateOf(t);
    var s := IsoDay(t);
    var y, m, dd := Padded(d.year, 4), Padded(d.month, 2), Padded(d.day, 2);
    assert s == y + "-" + m + "-" + dd;
    assert s[0..4] == y && s[5..7] == m && s[8..10] == dd;
    assert s[4] == '-' && s[7] == '-';
  }

  /** A forgot-password page's `step`: 1 shows the e-mail form, 2 the code form. */
  datatype Step = EmailStep | CodeStep

  /** The inputs of a forgot-password page. */
  datatype ResetField = EmailInput | OtpInput | NewPasswordInput | ConfirmInput

  /** The step whose form holds the input. */
  function StepOf(f: ResetField): Step
  {
    if f == EmailInput then EmailStep else CodeStep
  }
}
