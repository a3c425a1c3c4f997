// The login form shared, line for line, by the requester, donor and
// hospital login pages: two inputs, an error map built by sequential
// checks, and a submit that only goes out with an empty map.
module LoginForm {
  import opened Common
  import opened Forms

  datatype Credentials = Credentials(email: string, password: string)

  datatype Field = EmailField | PasswordField

  function Name(f: Field): string
  {
    match f
    case EmailField => "email"
    case PasswordField => "password"
  }

  /** `{ ...formData, [name]: value }` */
  function SetField(c: Credentials, f: Field, value: string): Credentials
  {
    match f
    case EmailField => c.(email := value)
    case PasswordField => c.(password := value)
  }

  /**
   * The messages `validate` leaves: for the e-mail "required" when empty and
   * "invalid" when it fails the unanchored pattern; for the password
   * "required" when empty; nothing else.
   */
  predicate Reports(c: Credentials, errors: Errors)
  {
    errors.Keys <= {"email", "password"}
    && ("email" in errors <==> c.email == "" || !LooseEmail(c.email))
    && (c.email == "" ==> errors["email"] == "Email is required")
    && (c.email != "" && !LooseEmail(c.email) ==> errors["email"] == "Invalid email format")
    && ("password" in errors <==> c.password == "")
    && (c.password == "" ==> errors["password"] == "Password is required")
  }

  /** `validate`: sequential checks into `tempErrors`; valid when it has no key. */
  method Validate(c: Credentials) returns (errors: Errors, isValid: bool)
    ensures Reports(c, errors)
    ensures isValid <==> |errors.Keys| == 0
  {
    var tempErrors: Errors := map[];
    if c.email == "" {
      tempErrors := tempErrors["email" := "Email is required"];
    } else if !LooseEmail(c.email) {
      tempErrors := tempErrors["email" := "Invalid email format"];
    }
    if c.password == "" {
      tempErrors := tempErrors["password" := "Password is required"];
    }
    errors := tempErrors;
    isValid := |tempErrors.Keys| == 0;
  }

  /** The form goes out exactly when the e-mail passes the pattern and a password is typed. */
  lemma ValidExactly(c: Credentials, errors: Errors)
    requires Reports(c, errors)
    ensures |errors.Keys| == 0 <==> LooseEmail(c.email) && c.password != ""
  {
    if LooseEmail(c.email) && c.password != "" {
      assert "email" !in errors && "password" !in errors;
      assert errors.Keys == {};
    } else {
      assert "email" in errors.Keys || "password" in errors.Keys;
    }
  }

  /** Every address the registration forms accept also passes the login pattern. */
  lemma FormEmailLogsIn(s: string)
    requires FormEmail(s)
    ensures LooseEmail(s)
  {
    var i, j :| 0 < i && i + 1 < j < |s| - 1 && s[i] == '@' && s[j] == '.'
       && (forall k :: 0 <= k < |s| && k != i ==> !IsSpace(s[k]) && s[k] != '@');
    LooseAt(s, i, j);
  }

  lemma LooseAt(s: string, i: int, j: int)
    requires 0 < i && i + 1 < j < |s| - 1 && s[i] == '@' && s[j] == '.'
    requires forall k :: 0 <= k < |s| && k != i ==> !IsSpace(s[k])
    ensures LooseEmail(s)
  {
    var t := s[i + 1..j];
    forall k | 0 <= k < |t| ensures !IsSpace(t[k]) {
      assert t[k] == s[i + 1 + k];
    }
    assert !IsSpace(s[i - 1]) && !IsSpace(s[j + 1]) && NoSpaceIn(t);
  }

  /** The login pattern is unanchored: text with a space before the name still passes it. */
  lemma LoosePatternAllowsSpaces()
    ensures LooseEmail("a b@c.d") && !FormEmail("a b@c.d")
  {
    var s := "a b@c.d";
    assert s[2] == 'b' && s[3] == '@' && s[5] == '.' && s[6] == 'd';
    assert NoSpaceIn(s[4..5]) by {
      assert s[4..5] == "c";
    }
    assert IsSpace(s[1]);
  }

  class Page {
    var formData: Credentials
    var errors: Errors

    constructor ()
      ensures formData == Credentials("", "") && errors == map[]
    {
      formData, errors := Credentials("", ""), map[];
    }

    /** `handleChange`: the value is stored and the field's message blanked. */
    method HandleChange(f: Field, value: string)
      modifies this
      ensures formData == SetField(old(formData), f, value)
      ensures errors == Blanked(old(errors), Name(f))
    {
      formData := SetField(formData, f, value);
      errors := Blanked(errors, Name(f));
    }

    /**
     * `handleSubmit`: the messages of `validate` replace the shown ones, and
     * the credentials are sent only when there are none.
     */
    method HandleSubmit() returns (sent: bool)
      modifies this
      ensures formData == old(formData) && Reports(formData, errors)
      ensures sent <==> LooseEmail(formData.email) && formData.password != ""
    {
      var isValid;
      errors, isValid := Validate(formData);
      ValidExactly(formData, errors);
      sent := isValid;
    }
  }
}
