// The admin's forgot-password page: the same two steps as the donor's, but
// its reset form only checks that the two passwords match, so an empty code
// and a short or empty password reach the server, which alone enforces the
// schema's six-character minimum.
module AdminForgotPasswordPage {
  import opened Common
  import Numbers
  import Browser
  import opened Store
  import opened Forms
  import AdminController

  const MismatchMessage := "Passwords do not match"

  /** The toast `handleReset` stops with, if any. */
  function ResetRefusal(newPassword: string, confirmPassword: string): (r: Option<string>)
    ensures r.None? <==> newPassword == confirmPassword
    ensures r.Some? ==> r.value == MismatchMessage
  {
    if newPassword != confirmPassword then Some(MismatchMessage) else None
  }

  /** `POST /Admin/forgot-password` with `{ email }`. */
  method SendForgot(db: Database, email: string, n: nat, d: nat, now: int, delivered: bool) returns (code: int)
    requires db.Valid() && n < d
    modifies db
    ensures db.Valid()
    ensures AdminController.Reply(code, db.admins)
         == AdminController.Forgot(old(db.admins), Some(email), n, d, now, delivered)
    ensures db.requests == old(db.requests) && db.users == old(db.users)
    ensures db.hospitals == old(db.hospitals) && db.donors == old(db.donors)
  {
    code := AdminController.ForgotPassword(db, Some(email), n, d, now, delivered);
  }

  /** `POST /Admin/reset-password` with `{ email, otp, newPassword }`. */
  method SendReset(db: Database, email: string, otp: string, newPassword: string, now: int) returns (code: int)
    requires db.Valid()
    modifies db
    ensures db.Valid()
    ensures AdminController.Reply(code, db.admins)
         == AdminController.Reset(old(db.admins), Some(email), Numbers.Cast(otp), Some(newPassword), now)
    ensures db.requests == old(db.requests) && db.users == old(db.users)
    ensures db.hospitals == old(db.hospitals) && db.donors == old(db.donors)
  {
    code := AdminController.ResetPassword(db, Some(email), Numbers.Cast(otp), Some(newPassword), now);
  }

  /**
   * A password shorter than six characters, the empty one included, passes
   * the page; the server then never reports success and changes no admin.
   */
  lemma ShortPasswordRefusedByServer(admins: seq<Admin>, email: string, otp: string, newPassword: string, now: int)
    requires |newPassword| < 6
    ensures ResetRefusal(newPassword, newPassword).None?
    ensures var r := AdminController.Reset(admins, Some(email), Numbers.Cast(otp), Some(newPassword), now);
      !Succeeded(r.code) && r.admins == admins
  {
    var t := AdminController.ResetTarget(admins, Some(email), Numbers.Cast(otp), now);
    if t.Some? {
      var a := admins[t.value].(password := newPassword, otp := Otp.Cleared);
      assert !AdminController.AdminValid(a);
    }
  }

  /**
   * A successful reset from the page stores the password typed twice, of
   * at least six characters, on the admin whose e-mail and live code
   * matched, and spends that code.
   */
  lemma ResetStoresTyped(admins: seq<Admin>, email: string, otp: string, newPassword: string,
                         confirmPassword: string, now: int)
    requires ResetRefusal(newPassword, confirmPassword).None?
    requires Succeeded(AdminController.Reset(admins, Some(email), Numbers.Cast(otp), Some(newPassword), now).code)
    ensures |confirmPassword| >= 6
    ensures exists i :: (0 <= i < |admins| && admins[i].email == NormEmail(email)
      && AdminController.Reset(admins, Some(email), Numbers.Cast(otp), Some(newPassword), now).admins
         == admins[i := admins[i].(password := confirmPassword, otp := Otp.Cleared)])
  {
    var i := AdminController.ResetTarget(admins, Some(email), Numbers.Cast(otp), now).value;
    assert admins[i].email == NormEmail(email);
  }

  /**
   * The code reaches the query as a number: typed with a zero fraction or in
   * exponent form, it passes the browser and resets exactly as its plain
   * digits do.
   */
  lemma OtpSpellings(admins: seq<Admin>, email: string, otp: string, e: string, newPassword: string, now: int)
    requires |otp| >= 2 && AllDigits(otp) && Browser.DigitRun(e) && DecimalValue(e) == |otp| - 1
    ensures var sci := otp[..1] + "." + otp[1..] + "e" + e;
      Browser.NumberValue(otp + ".0") && Browser.NumberValue(sci)
      && AdminController.Reset(admins, Some(email), Numbers.Cast(otp + ".0"), Some(newPassword), now)
         == AdminController.Reset(admins, Some(email), Numbers.Cast(otp), Some(newPassword), now)
      && AdminController.Reset(admins, Some(email), Numbers.Cast(sci), Some(newPassword), now)
         == AdminController.Reset(admins, Some(email), Numbers.Cast(otp), Some(newPassword), now)
  {
    Browser.SameNumberSpellings(otp, e);
  }

  class Page {
    var step: Step
    var email: string
    var otp: string
    var newPassword: string
    var confirmPassword: string

    constructor ()
      ensures step == EmailStep && email == "" && otp == "" && newPassword == "" && confirmPassword == ""
    {
      step, email, otp, newPassword, confirmPassword := EmailStep, "", "", "", "";
    }

    /** An input's `onChange`, offered only on the step that shows it: the text is stored as typed. */
    method HandleChange(f: ResetField, value: string)
      requires step == StepOf(f)
      modifies this
      ensures step == old(step)
      ensures email == (if f == EmailInput then value else old(email))
      ensures otp == (if f == OtpInput then value else old(otp))
      ensures newPassword == (if f == NewPasswordInput then value else old(newPassword))
      ensures confirmPassword == (if f == ConfirmInput then value else old(confirmPassword))
    {
      match f
      case EmailInput => email := value;
      case OtpInput => otp := value;
      case NewPasswordInput => newPassword := value;
      case ConfirmInput => confirmPassword := value;
    }

    /**
     * `handleSendOtp`, behind the browser's check of the e-mail input: text
     * that is not an e-mail address never reaches the handler, and an empty
     * e-mail only raises a toast; otherwise the server issues a code, and a
     * success moves to the code form.
     */
    method HandleSendOtp(db: Database, n: nat, d: nat, now: int, delivered: bool) returns (code: Option<int>)
      requires step == EmailStep && db.Valid() && n < d
      modifies this, db
      ensures db.Valid()
      ensures email == old(email) && otp == old(otp)
      ensures newPassword == old(newPassword) && confirmPassword == old(confirmPassword)
      ensures code.None? <==> email == "" || !Browser.EmailText(email)
      ensures code.None? ==> db.admins == old(db.admins)
      ensures code.Some? ==> AdminController.Reply(code.value, db.admins)
                             == AdminController.Forgot(old(db.admins), Some(email), n, d, now, delivered)
      ensures step == (if code.Some? && Succeeded(code.value) then CodeStep else EmailStep)
      ensures db.requests == old(db.requests) && db.users == old(db.users)
      ensures db.hospitals == old(db.hospitals) && db.donors == old(db.donors)
    {
      if email == "" || !Browser.EmailText(email) {
        code := None;
        return;
      }
      var c := SendForgot(db, email, n, d, now, delivered);
      code := Some(c);
      Advance(c);
    }

    /** After the answer: a success moves to the code form. */
    method Advance(c: int)
      modifies this
      ensures email == old(email) && otp == old(otp)
      ensures newPassword == old(newPassword) && confirmPassword == old(confirmPassword)
      ensures step == if Succeeded(c) then CodeStep else old(step)
    {
      if Succeeded(c) {
        step := CodeStep;
      }
    }

    /**
     * `handleReset`, behind the browser's check of the number input: a code
     * that is not a whole number never reaches the handler; mismatching
     * passwords send nothing; anything else, empty fields included, asks the
     * server to reset.
     */
    method HandleReset(db: Database, now: int) returns (code: Option<int>)
      requires step == CodeStep && db.Valid()
      modifies db
      ensures db.Valid()
      ensures code.None? <==> !Browser.NumberValue(otp) || ResetRefusal(newPassword, confirmPassword).Some?
      ensures code.None? ==> db.admins == old(db.admins)
      ensures code.Some? ==> AdminController.Reply(code.value, db.admins)
                             == AdminController.Reset(old(db.admins), Some(email), Numbers.Cast(otp), Some(newPassword), now)
      ensures db.requests == old(db.requests) && db.users == old(db.users)
      ensures db.hospitals == old(db.hospitals) && db.donors == old(db.donors)
    {
      if !Browser.NumberValue(otp) || ResetRefusal(newPassword, confirmPassword).Some? {
        code := None;
        return;
      }
      var c := SendReset(db, email, otp, newPassword, now);
      code := Some(c);
    }

    /** The "Resend OTP?" link goes back to the e-mail form, keeping what was typed. */
    method ResendOtp()
      requires step == CodeStep
      modifies this
      ensures step == EmailStep && email == old(email) && otp == old(otp)
      ensures newPassword == old(newPassword) && confirmPassword == old(confirmPassword)
    {
      step := EmailStep;
    }
  }
}
