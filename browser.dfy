// The constraint validation a browser runs before it lets a form's `submit`
// event through (no form here sets `novalidate`): `required` refuses an
// empty value, an `<input type="email">` a value that is not an e-mail
// address, and an `<input type="number">` with no `step` a value that is not
// a whole number. A refused form fires no handler and sends nothing.
module Browser {
  import opened Common
  import Numbers

  // ---------------------------------------------------------------------
  // <input type="number">
  // ---------------------------------------------------------------------

  /** One or more decimal digits. */
  predicate DigitRun(t: string)
  {
    t != [] && AllDigits(t)
  }

  /** The significand of a floating-point number: digits, digits and a point and digits, or a point and digits. */
  predicate Significand(m: string)
  {
    DigitRun(m)
    || (exists k :: 0 <= k < |m| - 1 && m[k] == '.' && AllDigits(m[..k]) && DigitRun(m[k + 1..]))
  }

  /** `e` or `E`, an optional sign, and digits. */
  predicate ExponentPart(x: string)
  {
    |x| >= 2 && (x[0] == 'e' || x[0] == 'E')
    && (DigitRun(x[1..]) || ((x[1] == '-' || x[1] == '+') && DigitRun(x[2..])))
  }

  /**
   * A valid floating-point number of HTML: an optional `-`, a significand
   * and an optional exponent. No white space, no `+` in front, no point at
   * the end.
   */
  predicate FloatText(s: string)
  {
    var u := if s != [] && s[0] == '-' then s[1..] else s;
    Significand(u) || (exists k :: 0 < k < |u| && Significand(u[..k]) && ExponentPart(u[k..]))
  }

  /**
   * A number input with no `step`, `min` or `max` passes: it is empty, or it
   * holds a number whose value is whole (the default step is 1 from 0).
   */
  predicate NumberValue(s: string)
  {
    s == "" || (FloatText(s) && Numbers.Cast(s).Some?)
  }

  /** Typed digits pass, and the server stores their decimal value. */
  lemma DigitsPass(s: string)
    requires s != "" && AllDigits(s)
    ensures NumberValue(s) && Numbers.Cast(s) == Some(DecimalValue(s) as int)
  {
    Numbers.CastDigits(s);
  }

  /** A minus sign and digits pass, and the server stores a negative number. */
  lemma NegativePasses(t: string)
    requires |t| > 1 && t[0] == '-' && AllDigits(t[1..])
    ensures NumberValue(t) && Numbers.Cast(t) == Some(-(DecimalValue(t[1..]) as int))
  {
    Numbers.CastNegated(t);
  }

  /** Digits, a point and digits form a significand. */
  lemma PointedSignificand(d: string, f: string)
    requires DigitRun(d) && DigitRun(f)
    ensures Significand(d + "." + f)
  {
    var m := d + "." + f;
    assert m[..|d|] == d && m[|d|] == '.' && m[|d| + 1..] == f;
  }

  /** A significand that starts with a digit, then `e` and digits, is a floating-point number. */
  lemma WithExponent(m: string, e: string)
    requires Significand(m) && IsDigit(m[0]) && DigitRun(e)
    ensures FloatText(m + "e" + e)
  {
    var s := m + "e" + e;
    assert s[0] == m[0];
    assert s[..|m|] == m;
    assert s[|m|..] == "e" + e && s[|m|..][1..] == e;
    assert Significand(s[..|m|]) && ExponentPart(s[|m|..]);
    assert 0 < |m| < |s|;
  }

  /** Digits, a point and a fraction pass exactly when the fraction is worth zero. */
  lemma PointedPasses(d: string, f: string)
    requires DigitRun(d) && DigitRun(f)
    ensures NumberValue(d + "." + f) <==> DecimalValue(f) == 0
    ensures DecimalValue(f) == 0 ==> Numbers.Cast(d + "." + f) == Some(DecimalValue(d) as int)
  {
    var s := d + "." + f;
    Numbers.CastPointed(d, f);
    assert s[0] == d[0];
    PointedSignificand(d, f);
  }

  /** Digits, a point, digits, `e` and digits pass when the exponent makes the value whole. */
  lemma ScientificPasses(d: string, f: string, e: string)
    requires DigitRun(d) && DigitRun(f) && DigitRun(e) && |f| <= DecimalValue(e)
    ensures NumberValue(d + "." + f + "e" + e)
    ensures Numbers.Cast(d + "." + f + "e" + e) == Some(DecimalValue(d + f) * Pow10(DecimalValue(e) - |f|) as int)
  {
    Numbers.CastScientific(d, f, e);
    PointedSignificand(d, f);
    assert (d + "." + f)[0] == d[0];
    WithExponent(d + "." + f, e);
  }

  /**
   * Three spellings of one number of two or more digits: the digits, the
   * digits with a zero fraction, and the first digit, a point, the others
   * and an exponent `e` that shifts them back.
   */
  lemma SameNumberSpellings(d: string, e: string)
    requires |d| >= 2 && AllDigits(d) && DigitRun(e) && DecimalValue(e) == |d| - 1
    ensures var sci := d[..1] + "." + d[1..] + "e" + e;
      NumberValue(d) && NumberValue(d + ".0") && NumberValue(sci)
      && Numbers.Cast(d + ".0") == Numbers.Cast(d) && Numbers.Cast(sci) == Numbers.Cast(d)
  {
    DigitsPass(d);
    ZeroFractionSpelling(d);
    ExponentSpelling(d, e);
  }

  lemma ZeroFractionSpelling(d: string)
    requires DigitRun(d)
    ensures NumberValue(d + ".0") && Numbers.Cast(d + ".0") == Some(DecimalValue(d) as int)
  {
    assert DecimalValue("0") == 0;
    assert d + "." + "0" == d + ".0";
    PointedPasses(d, "0");
  }

  lemma ExponentSpelling(d: string, e: string)
    requires |d| >= 2 && AllDigits(d) && DigitRun(e) && DecimalValue(e) == |d| - 1
    ensures var sci := d[..1] + "." + d[1..] + "e" + e;
      NumberValue(sci) && Numbers.Cast(sci) == Some(DecimalValue(d) as int)
  {
    ScientificPasses(d[..1], d[1..], e);
    assert d[..1] + d[1..] == d;
    assert DecimalValue(d) * Pow10(0) == DecimalValue(d);
  }

  // ---------------------------------------------------------------------
  // <input type="email">
  // ---------------------------------------------------------------------

  /** The characters HTML allows before the `@` of an e-mail address. */
  predicate IsLocalChar(c: char)
  {
    IsAsciiLetter(c) || IsDigit(c) || c in ".!#$%&'*+/=?^_`{|}~-"
  }

  predicate IsLetterOrDigit(c: char)
  {
    IsAsciiLetter(c) || IsDigit(c)
  }

  /** `[a-zA-Z0-9]([a-zA-Z0-9-]{0,61}[a-zA-Z0-9])?` */
  predicate DomainLabel(t: string)
  {
    1 <= |t| <= 63 && IsLetterOrDigit(t[0]) && IsLetterOrDigit(t[|t| - 1])
    && forall k :: 0 <= k < |t| ==> IsLetterOrDigit(t[k]) || t[k] == '-'
  }

  /** Labels separated by single dots. */
  predicate DomainName(t: string)
    decreases |t|
  {
    DomainLabel(t)
    || (exists k :: 0 < k < |t| - 1 && t[k] == '.' && DomainLabel(t[..k]) && DomainName(t[k + 1..]))
  }

  /** A valid e-mail address of HTML: allowed characters, `@`, and a domain name; no dot is needed. */
  predicate EmailText(s: string)
  {
    exists i :: 0 < i < |s| - 1 && s[i] == '@' && (forall k :: 0 <= k < i ==> IsLocalChar(s[k]))
      && DomainName(s[i + 1..])
  }

  /** An e-mail input with no `required` passes: empty, or an e-mail address. */
  predicate EmailValue(s: string)
  {
    s == "" || EmailText(s)
  }

  /**
   * The browser's rule and the forms' own pattern differ both ways: an
   * address without a dot passes the browser and fails the pattern, and a
   * parenthesis before the `@` fails the browser and passes the pattern.
   */
  lemma EmailRulesDiffer()
    ensures EmailText("a@b") && !FormEmail("a@b")
    ensures FormEmail("a(b@c.de") && !EmailText("a(b@c.de")
  {
    var s := "a@b";
    assert s[2..] == "b" && DomainLabel("b");
    assert s[1] == '@';
    var t := "a(b@c.de";
    assert t[3] == '@' && t[5] == '.';
    assert forall k :: 0 <= k < |t| && k != 3 ==> !IsSpace(t[k]) && t[k] != '@';
    assert !IsLocalChar(t[1]);
    assert forall i :: 0 < i < |t| - 1 && t[i] == '@' ==> i == 3;
  }
}
