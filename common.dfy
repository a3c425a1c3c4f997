// Shared vocabulary: optional values, document ids, and the JavaScript string
// and number behaviour the controllers and forms rely on (character classes of
// regular expressions, `trim`, `toLowerCase`, `includes`, `String.replace`
// with a string pattern, `parseInt`, and `||` fallbacks).
module Common {

  /** `undefined`/`null` versus a present value. */
  datatype Option<T> = None | Some(value: T)

  /** A MongoDB ObjectId; every collection draws from one id space. */
  type Id = nat

  /** The `gender` enum every schema declares: "Male", "Female" or "Other". */
  datatype Gender = Male | Female | Other

  function GenderName(g: Gender): string
  {
    match g
    case Male => "Male"
    case Female => "Female"
    case Other => "Other"
  }

  /** Every gender's name passes the enum check as that gender. */
  lemma GenderRoundTrip(g: Gender)
    ensures ParseGender(GenderName(g)) == Some(g)
  {
    match g
    case Male =>
    case Female =>
    case Other =>
  }

  /** The enum check of a `gender` field: exact match. */
  function ParseGender(s: string): (r: Option<Gender>)
    ensures r.Some? <==> s in {"Male", "Female", "Other"}
    ensures r.Some? ==> GenderName(r.value) == s
  {
    if s == "Male" then Some(Male)
    else if s == "Female" then Some(Female)
    else if s == "Other" then Some(Other)
    else None
  }

  // ---------------------------------------------------------------------
  // Character classes of JavaScript regular expressions
  // ---------------------------------------------------------------------

  predicate IsAsciiLetter(c: char) { 'a' <= c <= 'z' || 'A' <= c <= 'Z' }

  /** `\d` and `[0-9]`. */
  predicate IsDigit(c: char) { '0' <= c <= '9' }

  /** `\w`: ASCII letters, digits and underscore. */
  predicate IsWordChar(c: char) { IsAsciiLetter(c) || IsDigit(c) || c == '_' }

  /** `\s`, which is also the set `String.prototype.trim` and `parseInt` skip. */
  predicate IsSpace(c: char)
  {
    c == ' ' || c == '\t' || c == '\n' || c == '\U{0B}' || c == '\U{0C}' || c == '\r'
    || c == '\U{A0}' || c == '\U{1680}' || ('\U{2000}' <= c <= '\U{200A}')
    || c == '\U{2028}' || c == '\U{2029}' || c == '\U{202F}' || c == '\U{205F}'
    || c == '\U{3000}' || c == '\U{FEFF}'
  }

  /** `/^[a-zA-Z\s]*$/` */
  predicate LettersAndSpaces(s: string)
  {
    forall i :: 0 <= i < |s| ==> IsAsciiLetter(s[i]) || IsSpace(s[i])
  }

  /** `/^\d*$/` */
  predicate AllDigits(s: string)
  {
    forall i :: 0 <= i < |s| ==> IsDigit(s[i])
  }

  /** `/^[0-9]{lo,hi}$/` */
  predicate DigitsBetween(s: string, lo: nat, hi: nat)
  {
    lo <= |s| <= hi && AllDigits(s)
  }

  // ---------------------------------------------------------------------
  // Case mapping (ASCII letters; other characters are left alone)
  // ---------------------------------------------------------------------

  function LowerChar(c: char): (r: char)
    ensures 'A' <= c <= 'Z' ==> 'a' <= r <= 'z'
    ensures !('A' <= c <= 'Z') ==> r == c
  {
    if 'A' <= c <= 'Z' then (c as int + 32) as char else c
  }

  function UpperChar(c: char): (r: char)
    ensures 'a' <= c <= 'z' ==> 'A' <= r <= 'Z'
    ensures !('a' <= c <= 'z') ==> r == c
  {
    if 'a' <= c <= 'z' then (c as int - 32) as char else c
  }

  /** `toLowerCase` */
  function ToLower(s: string): (r: string)
    ensures |r| == |s|
    ensures forall i :: 0 <= i < |s| ==> r[i] == LowerChar(s[i])
  {
    seq(|s|, i requires 0 <= i < |s| => LowerChar(s[i]))
  }

  /** `toUpperCase` */
  function ToUpper(s: string): (r: string)
    ensures |r| == |s|
    ensures forall i :: 0 <= i < |s| ==> r[i] == UpperChar(s[i])
  {
    seq(|s|, i requires 0 <= i < |s| => UpperChar(s[i]))
  }

  /** Lower-casing twice is lower-casing once. */
  lemma ToLowerIdempotent(s: string)
    ensures ToLower(ToLower(s)) == ToLower(s)
  {
  }

  // ---------------------------------------------------------------------
  // trim
  // ---------------------------------------------------------------------

  function TrimStart(s: string): (r: string)
    ensures |r| <= |s| && r == s[|s| - |r|..]
    ensures r == [] || !IsSpace(r[0])
    ensures forall i :: 0 <= i < |s| - |r| ==> IsSpace(s[i])
    decreases |s|
  {
    if |s| > 0 && IsSpace(s[0]) then TrimStart(s[1..]) else s
  }

  function TrimEnd(s: string): (r: string)
    ensures |r| <= |s| && r == s[..|r|]
    ensures r == [] || !IsSpace(r[|r| - 1])
    ensures forall i :: |r| <= i < |s| ==> IsSpace(s[i])
    decreases |s|
  {
    if |s| > 0 && IsSpace(s[|s| - 1]) then TrimEnd(s[..|s| - 1]) else s
  }

  /** `String.prototype.trim`: the longest infix with no white space at either end. */
  function Trim(s: string): (r: string)
    ensures r == [] || (!IsSpace(r[0]) && !IsSpace(r[|r| - 1]))
    ensures |r| <= |s|
  {
    TrimEnd(TrimStart(s))
  }

  /** A `value || fallback` field sent again with the same value stays as it is. */
  lemma OrStringIdempotent(v: Option<string>, x: string)
    ensures OrString(v, OrString(v, x)) == OrString(v, x)
  {
  }

  /** A trimmed `value || fallback` field sent again with the same value stays as it is. */
  lemma TrimmedOrIdempotent(v: Option<string>, x: string)
    ensures Trim(OrString(v, Trim(OrString(v, x)))) == Trim(OrString(v, x))
  {
    if v.Some? && v.value != "" {
      TrimIdempotent(v.value);
    } else {
      TrimIdempotent(x);
    }
  }

  /** Trimming twice is trimming once, so a setter re-applied to a stored value leaves it alone. */
  lemma TrimIdempotent(s: string)
    ensures Trim(Trim(s)) == Trim(s)
  {
    var r := Trim(s);
    if r != [] {
      assert TrimStart(r) == r;
      assert TrimEnd(r) == r;
    }
  }

  /** Nothing but white space: what `!value.trim()` tests. */
  predicate Blank(s: string)
  {
    forall i :: 0 <= i < |s| ==> IsSpace(s[i])
  }

  /** A text trims to nothing exactly when it is all white space. */
  lemma BlankTrim(s: string)
    ensures Blank(s) <==> Trim(s) == ""
  {
    if Blank(s) {
      BlankTrimsAway(s);
    }
    if Trim(s) == "" {
      TrimmedAwayBlank(s);
    }
  }

  lemma BlankTrimsAway(s: string)
    requires Blank(s)
    ensures TrimStart(s) == ""
  {
  }

  lemma TrimmedAwayBlank(s: string)
    requires Trim(s) == ""
    ensures Blank(s)
  {
    var t := TrimStart(s);
    assert t == [];
  }

  // ---------------------------------------------------------------------
  // includes and String.replace with a string pattern
  // ---------------------------------------------------------------------

  predicate OccursAt(s: string, pat: string, i: int)
  {
    0 <= i && i + |pat| <= |s| && s[i..i + |pat|] == pat
  }

  /** `hay.includes(needle)` */
  predicate Contains(hay: string, needle: string)
  {
    exists i :: 0 <= i <= |hay| - |needle| && OccursAt(hay, needle, i)
  }

  /**
   * `s.replace(pat, rep)` with a non-empty string pattern: only the first
   * occurrence is replaced.
   */
  function ReplaceFirst(s: string, pat: string, rep: string): string
    requires |pat| > 0
    decreases |s|
  {
    if |s| < |pat| then s
    else if s[..|pat|] == pat then rep + s[|pat|..]
    else [s[0]] + ReplaceFirst(s[1..], pat, rep)
  }

  /** A pattern whose first or last character never appears is not replaced. */
  lemma {:induction false} ReplaceAbsent(s: string, pat: string, rep: string)
    requires |pat| > 0
    requires pat[0] !in s || pat[|pat| - 1] !in s
    ensures ReplaceFirst(s, pat, rep) == s
    decreases |s|
  {
    if |s| >= |pat| {
      assert s[..|pat|] != pat by {
        assert s[0] in s && s[|pat| - 1] in s;
      }
      assert forall c :: c in s[1..] ==> c in s;
      ReplaceAbsent(s[1..], pat, rep);
      assert [s[0]] + s[1..] == s;
    }
  }

  /** The first occurrence, preceded by a prefix that cannot start one, is the one replaced. */
  lemma {:induction false} ReplaceAfter(a: string, pat: string, b: string, rep: string)
    requires |pat| > 0
    requires pat[0] !in a
    ensures ReplaceFirst(a + pat + b, pat, rep) == a + rep + b
    decreases |a|
  {
    var s := a + pat + b;
    if |a| == 0 {
      assert s == pat + b;
      assert s[..|pat|] == pat;
      assert s[|pat|..] == b;
    } else {
      assert s[0] == a[0] != pat[0];
      assert s[1..] == a[1..] + pat + b;
      assert forall c :: c in a[1..] ==> c in a;
      ReplaceAfter(a[1..], pat, b, rep);
      assert [a[0]] + (a[1..] + rep + b) == a + rep + b;
    }
  }

  /** The first position `k` of a one-character pattern is the one replaced. */
  lemma {:induction false} ReplaceChar(s: string, c: char, rep: string) returns (k: nat)
    requires c in s
    ensures k < |s| && s[k] == c && c !in s[..k] && ReplaceFirst(s, [c], rep) == s[..k] + rep + s[k + 1..]
    decreases |s|
  {
    if s[0] == c {
      k := 0;
      ReplaceAtHead(s, c, rep);
    } else {
      HeadTail(s, c);
      var j := ReplaceChar(s[1..], c, rep);
      k := j + 1;
      ReplaceAfterHead(s, c, rep, j);
    }
  }

  lemma ReplaceAtHead(s: string, c: char, rep: string)
    requires s != [] && s[0] == c
    ensures c !in s[..0] && ReplaceFirst(s, [c], rep) == s[..0] + rep + s[1..]
  {
    assert s[..1] == [c];
  }

  lemma ReplaceAfterHead(s: string, c: char, rep: string, j: nat)
    requires s != [] && s[0] != c && j < |s| - 1
    requires s[1..][j] == c && c !in s[1..][..j]
    requires ReplaceFirst(s[1..], [c], rep) == s[1..][..j] + rep + s[1..][j + 1..]
    ensures s[j + 1] == c && c !in s[..j + 1] && ReplaceFirst(s, [c], rep) == s[..j + 1] + rep + s[j + 2..]
  {
    assert s[..1] != [c] by {
      assert s[..1][0] == s[0];
    }
    assert ReplaceFirst(s, [c], rep) == [s[0]] + ReplaceFirst(s[1..], [c], rep);
    assert s[..j + 1] == [s[0]] + s[1..][..j];
    assert s[j + 2..] == s[1..][j + 1..];
  }

  lemma HeadTail(s: string, c: char)
    requires s != [] && s[0] != c
    ensures c in s <==> c in s[1..]
  {
    assert s == [s[0]] + s[1..];
  }

  // ---------------------------------------------------------------------
  // parseInt (radix 10) and || fallbacks
  // ---------------------------------------------------------------------

  function DigitValue(c: char): nat
  {
    if IsDigit(c) then c as int - '0' as int else 0
  }

  /** The value of a string of decimal digits. */
  function DecimalValue(s: string): nat
    decreases |s|
  {
    if s == [] then 0 else DecimalValue(s[..|s| - 1]) * 10 + DigitValue(s[|s| - 1])
  }

  /** The longest prefix made of decimal digits. */
  function DigitPrefix(s: string): (r: string)
    ensures |r| <= |s| && r == s[..|r|] && AllDigits(r)
    ensures |r| < |s| ==> !IsDigit(s[|r|])
    decreases |s|
  {
    if |s| > 0 && IsDigit(s[0]) then [s[0]] + DigitPrefix(s[1..]) else []
  }

  /**
   * `parseInt(s)`: skip leading white space, read an optional sign and the
   * longest run of digits after it; `None` stands for `NaN`.
   */
  function ParseInt(s: string): (r: Option<int>)
  {
    var t := TrimStart(s);
    var negative := |t| > 0 && t[0] == '-';
    var u := if |t| > 0 && (t[0] == '-' || t[0] == '+') then t[1..] else t;
    var d := DigitPrefix(u);
    if d == [] then None
    else Some(if negative then -(DecimalValue(d) as int) else DecimalValue(d))
  }

  /** `parseInt` of a non-empty digit string is its decimal value. */
  lemma ParseIntOfDigits(s: string)
    requires s != [] && AllDigits(s)
    ensures ParseInt(s) == Some(DecimalValue(s) as int)
  {
    TrimStartKeeps(s);
    DigitPrefixOfDigits(s);
  }

  /** `parseInt` of a string that does not start with a digit, sign or space is `NaN`. */
  lemma ParseIntNaN(s: string)
    requires s == [] || (!IsDigit(s[0]) && !IsSpace(s[0]) && s[0] != '-' && s[0] != '+')
    ensures ParseInt(s) == None
  {
  }

  /** A string of at most `n` digits is worth less than `10^n`. */
  lemma {:induction false} DecimalValueBound(s: string)
    requires AllDigits(s)
    ensures DecimalValue(s) < Pow10(|s|)
    decreases |s|
  {
    if s != [] {
      DecimalValueBound(s[..|s| - 1]);
    }
  }

  /** The decimal digits of a natural number, most significant first. */
  function Digits(n: nat): (r: string)
    ensures r != [] && AllDigits(r) && DecimalValue(r) == n
    decreases n
  {
    var last := [(('0' as int) + n % 10) as char];
    if n < 10 then last
    else
      var r := Digits(n / 10) + last;
      assert r[..|r| - 1] == Digits(n / 10);
      r
  }

  /** `String(n)` for an integer-valued number. */
  function NumberText(n: int): string
  {
    if n < 0 then "-" + Digits(-n) else Digits(n)
  }

  /** `parseInt(String(n))` gives `n` back: a number sent in a JSON body reads as itself. */
  lemma ParseIntOfNumber(n: int)
    ensures ParseInt(NumberText(n)) == Some(n)
  {
    if n < 0 {
      var t := NumberText(n);
      assert t[0] == '-' && t[1..] == Digits(-n);
      ParseIntOfNegated(t);
    } else {
      ParseIntOfDigits(Digits(n));
    }
  }

  /** `parseInt` of a minus sign followed by digits is the negated decimal value. */
  lemma ParseIntOfNegated(t: string)
    requires |t| > 1 && t[0] == '-' && AllDigits(t[1..])
    ensures ParseInt(t) == Some(-(DecimalValue(t[1..]) as int))
  {
    TrimStartKeeps(t);
    DigitPrefixOfDigits(t[1..]);
  }

  /** Text that does not start with white space is left as it is by `TrimStart`. */
  lemma TrimStartKeeps(s: string)
    requires s != [] && !IsSpace(s[0])
    ensures TrimStart(s) == s
  {
  }

  /** A string made only of digits is its own digit prefix. */
  lemma DigitPrefixOfDigits(s: string)
    requires AllDigits(s)
    ensures DigitPrefix(s) == s
  {
  }

  function Pow10(n: nat): (r: nat)
    ensures r >= 1
  {
    if n == 0 then 1 else 10 * Pow10(n - 1)
  }

  /** `value || fallback` for a string field that may be absent. */
  function OrString(value: Option<string>, fallback: string): (r: string)
    ensures (value.Some? && value.value != "") ==> r == value.value
    ensures (value.None? || value.value == "") ==> r == fallback
  {
    if value.Some? && value.value != "" then value.value else fallback
  }

  /** `value || fallback` for a number field that may be absent (0 is falsy). */
  function OrNumber(value: Option<int>, fallback: int): (r: int)
    ensures (value.Some? && value.value != 0) ==> r == value.value
    ensures (value.None? || value.value == 0) ==> r == fallback
  {
    if value.Some? && value.value != 0 then value.value else fallback
  }

  // ---------------------------------------------------------------------
  // The e-mail patterns of the code base
  // ---------------------------------------------------------------------

  /**
   * The forms' anchored pattern `/^[^\s@]+@[^\s@]+\.[^\s@]+$/`: exactly one
   * `@`, no white space, and a dot with at least one character on each side
   * somewhere after the `@`.
   */
  predicate FormEmail(s: string)
  {
    (exists i, j :: 0 < i && i + 1 < j < |s| - 1 && s[i] == '@' && s[j] == '.'
       && (forall k :: 0 <= k < |s| && k != i ==> !IsSpace(s[k]) && s[k] != '@'))
  }

  /**
   * The login forms' unanchored pattern `/\S+@\S+\.\S+/`: somewhere in the
   * string, a non-space character, `@`, a non-empty run of non-space
   * characters, a dot and a non-space character.
   */
  predicate LooseEmail(s: string)
  {
    exists i, j :: 0 < i && i + 1 < j && j + 1 < |s| && s[i] == '@' && s[j] == '.'
       && !IsSpace(s[i - 1]) && !IsSpace(s[j + 1]) && NoSpaceIn(s[i + 1..j])
  }

  predicate NoSpaceIn(t: string)
  {
    forall k :: 0 <= k < |t| ==> !IsSpace(t[k])
  }

  predicate IsEmailSeparator(c: char) { c == '.' || c == '-' }

  /**
   * `\w+([.-]?\w+)*`: word characters, single `.` or `-` separators between
   * them, starting and ending with a word character.
   */
  predicate Words(t: string)
  {
    |t| > 0 && IsWordChar(t[0]) && IsWordChar(t[|t| - 1])
    && (forall k :: 0 <= k < |t| ==> IsWordChar(t[k]) || IsEmailSeparator(t[k]))
    && (forall k :: 0 < k < |t| ==> IsWordChar(t[k - 1]) || IsWordChar(t[k]))
  }

  /** `(\.\w{2,3})+` */
  predicate DomainSuffixes(t: string)
    decreases |t|
  {
    |t| >= 3 && t[0] == '.' && IsWordChar(t[1]) && IsWordChar(t[2])
    && (|t| == 3
        || (IsWordChar(t[3]) && (|t| == 4 || DomainSuffixes(t[4..])))
        || DomainSuffixes(t[3..]))
  }

  /** The schemas' pattern `/^\w+([.-]?\w+)*@\w+([.-]?\w+)*(\.\w{2,3})+$/`. */
  predicate SchemaEmail(s: string)
  {
    exists i, k :: 0 < i < k < |s| && s[i] == '@' && Words(s[..i])
      && Words(s[i + 1..k]) && DomainSuffixes(s[k..])
  }

  /** How the schemas store an e-mail (`lowercase: true, trim: true`); queries on it are normalised the same way. */
  function NormEmail(s: string): string
  {
    ToLower(Trim(s))
  }

  /** A missing value normalises to the empty string, which `required` refuses. */
  lemma EmptyNormalises()
    ensures Trim("") == "" && NormEmail("") == ""
  {
    assert TrimStart("") == "";
  }
  // ---------------------------------------------------------------------
  // List helpers: `findIndex`/`findOne` in natural order, `filter`, counting
  // ---------------------------------------------------------------------

  /** The first position whose element satisfies `p`. */
  function FirstIndex<T>(xs: seq<T>, p: T -> bool): (r: Option<nat>)
    ensures r.Some? ==> r.value < |xs| && p(xs[r.value])
    ensures r.Some? ==> forall j :: 0 <= j < r.value ==> !p(xs[j])
    ensures r.None? ==> forall j :: 0 <= j < |xs| ==> !p(xs[j])
  {
    if |xs| == 0 then None
    else if p(xs[0]) then Some(0)
    else match FirstIndex(xs[1..], p)
      case None => None
      case Some(i) => Some(i + 1)
  }

  /** `xs.filter(p)`: the elements satisfying `p`, in their original order. */
  function Filter<T>(xs: seq<T>, p: T -> bool): (r: seq<T>)
    ensures |r| <= |xs|
    ensures forall i :: 0 <= i < |r| ==> p(r[i]) && r[i] in xs
    ensures forall i :: 0 <= i < |xs| && p(xs[i]) ==> xs[i] in r
  {
    if |xs| == 0 then []
    else (if p(xs[0]) then [xs[0]] else []) + Filter(xs[1..], p)
  }

  lemma FilterMember<T>(xs: seq<T>, p: T -> bool, x: T)
    ensures x in Filter(xs, p) <==> x in xs && p(x)
  {
    if x in xs && p(x) {
      var i :| 0 <= i < |xs| && xs[i] == x;
    }
  }

  /** A predicate every element passes keeps the whole list. */
  lemma {:induction false} FilterKeepsAll<T>(xs: seq<T>, p: T -> bool)
    requires forall i :: 0 <= i < |xs| ==> p(xs[i])
    ensures Filter(xs, p) == xs
  {
    if |xs| > 0 {
      FilterKeepsAll(xs[1..], p);
    }
  }

  /** Filtering distributes over concatenation. */
  lemma {:induction false} FilterAppend<T>(xs: seq<T>, ys: seq<T>, p: T -> bool)
    ensures Filter(xs + ys, p) == Filter(xs, p) + Filter(ys, p)
  {
    if |xs| == 0 {
      assert xs + ys == ys;
    } else {
      assert (xs + ys)[1..] == xs[1..] + ys;
      FilterAppend(xs[1..], ys, p);
    }
  }

  /** The number of elements satisfying `p`. */
  function Count<T>(xs: seq<T>, p: T -> bool): (n: nat)
    ensures n <= |xs|
    ensures n == 0 <==> forall i :: 0 <= i < |xs| ==> !p(xs[i])
  {
    if |xs| == 0 then 0
    else (if p(xs[0]) then 1 else 0) + Count(xs[1..], p)
  }

  /** Counting is the length of the filtered list. */
  lemma {:induction false} CountIsFilterLength<T>(xs: seq<T>, p: T -> bool)
    ensures Count(xs, p) == |Filter(xs, p)|
  {
    if |xs| > 0 {
      CountIsFilterLength(xs[1..], p);
    }
  }

  /** A response status a client call resolves on; any other one makes `axios` throw. */
  predicate Succeeded(code: int) { 200 <= code < 300 }

  /** `xs.slice(0, n)`. */
  function Take<T>(xs: seq<T>, n: nat): (r: seq<T>)
    ensures |r| == if |xs| < n then |xs| else n
    ensures forall i :: 0 <= i < |r| ==> r[i] == xs[i]
  {
    if |xs| <= n then xs else xs[..n]
  }
}
