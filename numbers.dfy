// JavaScript's `Number(text)` as Mongoose applies it when a string reaches a
// `Number` path (`castNumber`): the empty string is no value, anything else
// is read as a decimal literal with optional sign, point, fraction and
// exponent, surrounded by optional white space.
module Numbers {
  import opened Common

  /** A decimal literal taken apart: the sign, the digits around the point, and the exponent. */
  datatype Literal = Literal(negative: bool, whole: string, fraction: string, exponent: int)

  /** The optional sign `[+-]` at the head of a text, and the text after it. */
  function Unsigned(t: string): (bool, string)
  {
    if t != [] && (t[0] == '-' || t[0] == '+') then (t[0] == '-', t[1..]) else (false, t)
  }

  /** The exponent after `e`/`E`: `[+-]?digits` and nothing else. */
  function ExponentValue(t: string): Option<int>
  {
    var (negative, u) := Unsigned(t);
    if u != [] && AllDigits(u) then Some(if negative then -(DecimalValue(u) as int) else DecimalValue(u))
    else None
  }

  /**
   * The decimal literal of `StringToNumber` (`Infinity` and the `0x`, `0o`
   * and `0b` forms aside): `[+-]?`, digits with an optional point and an
   * optional fraction, at least one digit in all, then an optional
   * `[eE][+-]?digits`; nothing may follow.
   */
  function ParseLiteral(t: string): Option<Literal>
  {
    var (negative, u) := Unsigned(t);
    var whole := DigitPrefix(u);
    AfterWhole(negative, whole, u[|whole|..])
  }

  /** What follows the whole part: a point and a fraction, or directly the exponent. */
  function AfterWhole(negative: bool, whole: string, rest: string): Option<Literal>
  {
    if rest != [] && rest[0] == '.' then
      var fraction := DigitPrefix(rest[1..]);
      AfterFraction(negative, whole, fraction, rest[1 + |fraction|..])
    else AfterFraction(negative, whole, [], rest)
  }

  /** The end of the literal: nothing, or `e`/`E` and the exponent. */
  function AfterFraction(negative: bool, whole: string, fraction: string, tail: string): Option<Literal>
  {
    if whole == [] && fraction == [] then None
    else if tail == [] then Some(Literal(negative, whole, fraction, 0))
    else if tail[0] != 'e' && tail[0] != 'E' then None
    else match ExponentValue(tail[1..])
      case None => None
      case Some(e) => Some(Literal(negative, whole, fraction, e))
  }

  /** The literal's value, when it is a whole number. */
  function WholeValue(l: Literal): Option<int>
  {
    match Scaled(DecimalValue(l.whole + l.fraction), l.exponent - |l.fraction|)
    case None => None
    case Some(v) => Some(if l.negative then -(v as int) else v)
  }

  /** `m * 10^shift`, when that is a whole number. */
  function Scaled(m: nat, shift: int): Option<nat>
  {
    if shift >= 0 then Some(m * Pow10(shift))
    else if m % Pow10(-shift) == 0 then Some(m / Pow10(-shift))
    else None
  }

  /**
   * The number a string stores in a `Number` path. `None` for the empty
   * string (no value), for a text that is not a number (the cast fails) and
   * for one whose value is not whole; blank text is 0.
   */
  function Cast(s: string): (r: Option<int>)
    ensures s == "" ==> r.None?
    ensures s != "" && Blank(s) ==> r == Some(0)
  {
    BlankTrim(s);
    if s == "" then None else ReadNumber(Trim(s))
  }

  /** `Number` of a text with no white space around it: the empty text is 0. */
  function ReadNumber(t: string): Option<int>
  {
    if t == "" then Some(0)
    else match ParseLiteral(t)
      case None => None
      case Some(l) => WholeValue(l)
  }

  // ---------------------------------------------------------------------
  // Digits, concatenation and division
  // ---------------------------------------------------------------------

  /** The value of two digit strings written one after the other. */
  lemma {:induction false} DecimalValueAppend(a: string, b: string)
    ensures DecimalValue(a + b) == DecimalValue(a) * Pow10(|b|) + DecimalValue(b)
    decreases |b|
  {
    if b == [] {
      assert a + b == a;
    } else {
      var b', c := b[..|b| - 1], DigitValue(b[|b| - 1]);
      assert (a + b)[..|a + b| - 1] == a + b';
      assert (a + b)[|a + b| - 1] == b[|b| - 1];
      DecimalValueAppend(a, b');
      assert DecimalValue(a + b) == DecimalValue(a + b') * 10 + c;
      assert DecimalValue(b) == DecimalValue(b') * 10 + c;
      assert Pow10(|b|) == 10 * Pow10(|b'|);
      Shift(DecimalValue(a), Pow10(|b'|), DecimalValue(b'), c);
    }
  }

  lemma Shift(x: int, p: int, y: int, c: int)
    ensures (x * p + y) * 10 + c == x * (10 * p) + (y * 10 + c)
  {
  }

  /** A positive multiple of `p` is at least `p`. */
  lemma MultipleAtLeast(k: int, p: nat)
    requires k >= 1
    ensures k * p >= p
  {
    assert k * p == (k - 1) * p + p;
  }

  /** Euclidean division of `a * p + b` by `p` when `b < p`. */
  lemma DivModOf(a: nat, b: nat, p: nat)
    requires b < p
    ensures (a * p + b) / p == a && (a * p + b) % p == b
  {
    var n := a * p + b;
    var q, r := n / p, n % p;
    assert q * p + r == n;
    if q > a {
      MultipleAtLeast(q - a, p);
    } else if q < a {
      MultipleAtLeast(a - q, p);
    }
  }

  /** The digits of a string of digits stop at the first character that is not one. */
  lemma {:induction false} DigitPrefixStops(d: string, rest: string)
    requires AllDigits(d) && rest != [] && !IsDigit(rest[0])
    ensures DigitPrefix(d + rest) == d
    decreases |d|
  {
    if d != [] {
      assert (d + rest)[1..] == d[1..] + rest;
      DigitPrefixStops(d[1..], rest);
      assert [d[0]] + d[1..] == d;
    } else {
      assert d + rest == rest;
    }
  }

  lemma Associative(a: string, b: string, c: string)
    ensures a + b + c == a + (b + c)
  {
  }

  /** A text with no white space at either end is its own trim. */
  lemma TrimKeeps(s: string)
    requires s != [] && !IsSpace(s[0]) && !IsSpace(s[|s| - 1])
    ensures Trim(s) == s
  {
    TrimStartKeeps(s);
  }

  /** An unsigned run of digits is a literal with no fraction and no exponent. */
  lemma LiteralOfDigits(negative: bool, d: string)
    requires d != "" && AllDigits(d)
    ensures AfterWhole(negative, DigitPrefix(d), d[|DigitPrefix(d)|..]) == Some(Literal(negative, d, [], 0))
  {
    DigitPrefixOfDigits(d);
    assert d[|d|..] == [];
  }

  /** A literal with neither fraction nor exponent is the value of its digits. */
  lemma WholeOfDigits(negative: bool, d: string)
    ensures WholeValue(Literal(negative, d, [], 0))
         == Some(if negative then -(DecimalValue(d) as int) else DecimalValue(d))
  {
    assert d + [] == d;
  }

  // ---------------------------------------------------------------------
  // What the cast makes of the texts a form or a client sends
  // ---------------------------------------------------------------------

  /** A non-empty run of digits is its decimal value. */
  lemma CastDigits(s: string)
    requires s != "" && AllDigits(s)
    ensures Cast(s) == Some(DecimalValue(s) as int)
  {
    TrimKeeps(s);
    assert Unsigned(s) == (false, s);
    LiteralOfDigits(false, s);
    WholeOfDigits(false, s);
  }

  /** A minus sign before a run of digits negates its value. */
  lemma CastNegated(t: string)
    requires |t| > 1 && t[0] == '-' && AllDigits(t[1..])
    ensures Cast(t) == Some(-(DecimalValue(t[1..]) as int))
  {
    var d := t[1..];
    assert t[|t| - 1] == d[|d| - 1];
    TrimKeeps(t);
    assert Unsigned(t) == (true, d);
    LiteralOfDigits(true, d);
    WholeOfDigits(true, d);
  }

  /** `String(n)` of a whole number is cast back to `n`. */
  lemma CastNumberText(n: int)
    ensures Cast(NumberText(n)) == Some(n)
  {
    if n < 0 {
      var t := NumberText(n);
      assert t[1..] == Digits(-n);
      CastNegated(t);
    } else {
      CastDigits(Digits(n));
    }
  }

  /** White space around a number does not change it. */
  lemma CastTrimmed(s: string)
    requires Trim(s) != ""
    ensures Cast(s) == Cast(Trim(s))
  {
    TrimIdempotent(s);
  }

  /** A literal that starts with a run of digits (or with its point) reads those digits first. */
  lemma WholeHead(d: string, rest: string)
    requires AllDigits(d) && rest != [] && !IsDigit(rest[0]) && rest[0] != '-' && rest[0] != '+'
    ensures ParseLiteral(d + rest) == AfterWhole(false, d, rest)
  {
    var s := d + rest;
    assert s[0] == if d == "" then rest[0] else d[0];
    assert Unsigned(s) == (false, s);
    DigitPrefixStops(d, rest);
    assert s[|d|..] == rest;
  }

  /** A point and a run of digits before the end of the literal or its exponent. */
  lemma PointHead(negative: bool, d: string, f: string, tail: string)
    requires AllDigits(f) && (tail == [] || !IsDigit(tail[0]))
    ensures AfterWhole(negative, d, "." + f + tail) == AfterFraction(negative, d, f, tail)
  {
    var rest := "." + f + tail;
    Associative(".", f, tail);
    assert rest[1..] == f + tail;
    if tail == [] {
      assert f + tail == f;
      DigitPrefixOfDigits(f);
    } else {
      DigitPrefixStops(f, tail);
    }
    assert rest[1 + |f|..] == tail;
  }

  /** `e` and a run of digits end the literal. */
  lemma ExponentTail(negative: bool, d: string, f: string, e: string)
    requires (d != "" || f != "") && e != "" && AllDigits(e)
    ensures AfterFraction(negative, d, f, "e" + e) == Some(Literal(negative, d, f, DecimalValue(e)))
  {
    assert ("e" + e)[1..] == e;
    assert Unsigned(e) == (false, e);
  }

  /** The parts of digits, a point and more digits. */
  lemma LiteralPointed(d: string, f: string)
    requires AllDigits(d) && AllDigits(f) && (d != "" || f != "")
    ensures ParseLiteral(d + "." + f) == Some(Literal(false, d, f, 0))
  {
    Associative(d, ".", f);
    WholeHead(d, "." + f);
    PointHead(false, d, f, []);
    assert "." + f + [] == "." + f;
  }

  /** A whole part and a fraction, no exponent: whole exactly when the fraction is worth zero. */
  lemma WholeOfPointed(d: string, f: string)
    requires AllDigits(f)
    ensures WholeValue(Literal(false, d, f, 0)) == if DecimalValue(f) == 0 then Some(DecimalValue(d) as int) else None
  {
    var m := DecimalValue(d + f);
    if f == "" {
      assert d + f == d;
      ScaledUp(m, 0);
    } else {
      DecimalValueAppend(d, f);
      DecimalValueBound(f);
      ScaledDown(DecimalValue(d), DecimalValue(f), |f|, m);
    }
  }

  /** A shift to the left is always whole. */
  lemma ScaledUp(m: nat, k: nat)
    ensures Scaled(m, k) == Some(m * Pow10(k))
  {
  }

  /** Dividing `a * 10^k + b` by `10^k`, with `b` below `10^k`. */
  lemma ScaledDown(a: nat, b: nat, k: nat, n: nat)
    requires k > 0 && b < Pow10(k) && n == a * Pow10(k) + b
    ensures Scaled(n, -(k as int)) == if b == 0 then Some(a) else None
  {
    DivModOf(a, b, Pow10(k));
  }

  /**
   * Digits, a point and more digits: the whole part when the fraction is
   * all zeros, and no whole number otherwise.
   */
  lemma CastPointed(d: string, f: string)
    requires AllDigits(d) && AllDigits(f) && (d != "" || f != "")
    ensures Cast(d + "." + f) == if DecimalValue(f) == 0 then Some(DecimalValue(d) as int) else None
  {
    var s := d + "." + f;
    assert s[|s| - 1] == if f == "" then '.' else f[|f| - 1];
    assert s[0] == if d == "" then '.' else d[0];
    TrimKeeps(s);
    LiteralPointed(d, f);
    WholeOfPointed(d, f);
  }

  /** The parts of digits, a point, more digits, `e` and the exponent's digits. */
  lemma LiteralScientific(d: string, f: string, e: string)
    requires AllDigits(d) && AllDigits(f) && (d != "" || f != "")
    requires e != "" && AllDigits(e)
    ensures ParseLiteral(d + "." + f + "e" + e) == Some(Literal(false, d, f, DecimalValue(e)))
  {
    var rest := "." + f + ("e" + e);
    assert d + "." + f + "e" + e == d + rest by {
      Associative(d, ".", f);
      Associative(d, "." + f, "e");
      Associative(d, "." + f + "e", e);
      Associative("." + f, "e", e);
    }
    WholeHead(d, rest);
    PointHead(false, d, f, "e" + e);
    ExponentTail(false, d, f, e);
  }

  /** Digits, a point, a fraction no longer than the exponent, then `e` and the exponent's digits. */
  lemma CastScientific(d: string, f: string, e: string)
    requires AllDigits(d) && AllDigits(f) && (d != "" || f != "")
    requires e != "" && AllDigits(e) && |f| <= DecimalValue(e)
    ensures Cast(d + "." + f + "e" + e)
         == Some(DecimalValue(d + f) * Pow10(DecimalValue(e) - |f|) as int)
  {
    ScientificParsed(d, f, e);
    ScientificValue(d, f, e);
  }

  /** The scientific text has no white space around it and is cast as its literal. */
  lemma ScientificParsed(d: string, f: string, e: string)
    requires AllDigits(d) && AllDigits(f) && (d != "" || f != "")
    requires e != "" && AllDigits(e)
    ensures Cast(d + "." + f + "e" + e) == WholeValue(Literal(false, d, f, DecimalValue(e)))
  {
    var s := d + "." + f + "e" + e;
    assert s[|s| - 1] == e[|e| - 1];
    assert s[0] == if d == "" then '.' else d[0];
    TrimKeeps(s);
    LiteralScientific(d, f, e);
  }

  /** The value of the scientific literal, when its exponent covers its fraction. */
  lemma ScientificValue(d: string, f: string, e: string)
    requires |f| <= DecimalValue(e)
    ensures WholeValue(Literal(false, d, f, DecimalValue(e)))
         == Some(DecimalValue(d + f) * Pow10(DecimalValue(e) - |f|) as int)
  {
    ScaledUp(DecimalValue(d + f), DecimalValue(e) - |f|);
  }

  // ---------------------------------------------------------------------
  // `body.x || stored` on a `Number` path
  // ---------------------------------------------------------------------

  /** A value a JSON request body holds for a `Number` path: a JSON number or a JSON string. */
  datatype BodyNumber = JsonNumber(n: int) | JsonText(text: string)

  /** JavaScript truthiness: of these values only the number 0 and the empty string are falsy. */
  predicate Truthy(v: BodyNumber)
  {
    match v
    case JsonNumber(n) => n != 0
    case JsonText(t) => t != ""
  }

  /** What the path holds once the value is assigned: a number as it is, a string through `Number`. */
  function CastBody(v: BodyNumber): Option<int>
  {
    match v
    case JsonNumber(n) => Some(n)
    case JsonText(t) => Cast(t)
  }

  /**
   * `body.x || stored` assigned to a `Number` path: a missing or falsy value
   * keeps the stored number, any other value is cast; `None` is a cast that
   * fails, which makes the following `save` fail.
   */
  function OrCast(v: Option<BodyNumber>, stored: int): (r: Option<int>)
    ensures v.None? || !Truthy(v.value) ==> r == Some(stored)
    ensures v.Some? && v.value.JsonNumber? && v.value.n != 0 ==> r == Some(v.value.n)
    ensures v.Some? && v.value.JsonText? && v.value.text != "" ==> r == Cast(v.value.text)
  {
    if v.None? || !Truthy(v.value) then Some(stored) else CastBody(v.value)
  }

  /**
   * Truthiness is decided before the cast: the text "0" is truthy and stores
   * 0, while the number 0 is falsy and keeps the stored value.
   */
  lemma ZeroTextWrites(stored: int)
    ensures OrCast(Some(JsonText("0")), stored) == Some(0)
    ensures OrCast(Some(JsonNumber(0)), stored) == Some(stored)
  {
    CastDigits("0");
  }

  /** Assigning the same body value again keeps what the first assignment stored. */
  lemma OrCastIdempotent(v: Option<BodyNumber>, stored: int)
    requires OrCast(v, stored).Some?
    ensures OrCast(v, OrCast(v, stored).value) == OrCast(v, stored)
  {
  }

  /** The decimal text of a stored number, sent back, stores that number again whatever it replaces. */
  lemma NumberTextStores(n: int, stored: int)
    ensures OrCast(Some(JsonText(NumberText(n))), stored) == Some(n)
  {
    CastNumberText(n);
    assert NumberText(n) != "" by { CastNumberText(n); }
  }
}
