// The donor's forgot-password page: step 1 asks for the e-mail and requests
// a code, step 2 takes the code and the new password twice, checks them in
// order (all typed, matching, at least six characters) and only then asks
// the server to reset.
module DonorForgotPasswordPage {
  import opened Common
  import Numbers
  import Browser
  import opened Store
  import opened Forms
  import DonorSchema
  import DonorController

  const MinPasswordLength := 6

  const AllRequiredMessage := "All fields are required."
  const MismatchMessage := "Passwords do not match."
  const ShortMessage := "Password must be at least 6 characters."

  /**
   * The toast `handleResetPassword` stops with, if any: the three checks
   * are tried in this order and the first that fails decides the message.
   */
  function ResetRefusal(otp: string, newPassword: string, confirmPassword: string): (r: Option<string>)
    ensures r.None? <==> otp != "" && newPassword == confirmPassword && |newPassword| >= MinPasswordLength
    ensures r == Some(AllRequiredMessage) <==> otp == "" || newPassword == "" || confirmPassword == ""
    ensures r == Some(MismatchMessage) ==> newPassword != confirmPassword
    ensures r == Some(ShortMessage) ==> newPassword == confirmPassword && 0 < |newPassword| < MinPasswordLength
  {
    if otp == "" || newPassword == "" || confirmPassword == "" then Some(AllRequiredMessage)
    else if newPassword != confirmPassword then Some(MismatchMessage)
    else if |newPassword| < MinPasswordLength then Some(ShortMessage)
    else None
  }

  /** `POST /Donor/forgot-password` with `{ email }`. */
  method SendForgot(db: Database, email: string, n: nat, d: nat, now: int, delivered: bool) returns (code: int)
    requires db.Valid() && n < d
    modifies db
    ensures db.Valid()
    ensures DonorController.Reply(code, db.donors)
         == DonorController.Forgot(old(db.donors), Some(email), n, d, now, delivered)
    ensures db.requests == old(db.requests) && db.users == old(db.users)
    ensures db.hospitals == old(db.hospitals) && db.admins == old(db.admins)
  {
    code := DonorController.ForgotPassword(db, Some(email), n, d, now, delivered);
  }

  /** `POST /Donor/reset-password` with `{ email, otp, newPassword }`. */
  method SendReset(db: Database, email: string, otp: string, newPassword: string, now: int) returns (code: int)
    requires db.Valid()
    modifies db
    ensures db.Valid()
    ensures DonorController.Reply(code, db.donors)
         == DonorController.Reset(old(db.donors), Some(email), Numbers.Cast(otp), Some(newPassword), now)
    ensures db.requests == old(db.requests) && db.users == old(db.users)
    ensures db.hospitals == old(db.hospitals) && db.admins == old(db.admins)
  {
    code := DonorController.ResetPassword(db, Some(email), Numbers.Cast(otp), Some(newPassword), now);
  }

  /** A password the page lets through already meets the schema's minimum length. */
  lemma SentPasswordAsSchema(otp: string, newPassword: string, confirmPassword: string)
    requires ResetRefusal(otp, newPassword, confirmPassword).None?
    ensures |newPassword| >= 6 && newPassword == confirmPassword
  {
  }

  /**
   * A successful reset from the page stores the password typed twice on
   * exactly one donor, the one whose e-mail and live code matched, and
   * spends that code.
   */
  lemma ResetStoresTyped(donors: seq<DonorSchema.Donor>, email: string, otp: string, newPassword: string,
                         confirmPassword: string, now: int)
    requires ResetRefusal(otp, newPassword, confirmPassword).None?
    requires Succeeded(DonorController.Reset(donors, Some(email), Numbers.Cast(otp), Some(newPassword), now).code)
    ensures exists i :: (0 <= i < |donors| && donors[i].email == NormEmail(email)
      && DonorController.Reset(donors, Some(email), Numbers.Cast(otp), Some(newPassword), now).donors
         == donors[i := donors[i].(password := confirmPassword, otp := Otp.Cleared)])
  {
    var i := DonorController.ResetTarget(donors, Some(email), Numbers.Cast(otp), now).value;
    assert donors[i].email == NormEmail(email);
  }

  class Page {
    var step: Step
    var email: string
    var otp: string
    var newPassword: string
    var confirmPassword: string

    constructor ()
      ensures step == EmailStep && email == "" && otp == "" && newPassword == "" && confirmPassword == ""
    {
      step, email, otp, newPassword, confirmPassword := EmailStep, "", "", "", "";
    }

    /** An input's `onChange`, offered only on the step that shows it: the text is stored as typed. */
    method HandleChange(f: ResetField, value: string)
      requires step == StepOf(f)
      modifies this
      ensures step == old(step)
      ensures email == (if f == EmailInput then value else old(email))
      ensures otp == (if f == OtpInput then value else old(otp))
      ensures newPassword == (if f == NewPasswordInput then value else old(newPassword))
      ensures confirmPassword == (if f == ConfirmInput then value else old(confirmPassword))
    {
      match f
      case EmailInput => email := value;
      case OtpInput => otp := value;
      case NewPasswordInput => newPassword := value;
      case ConfirmInput => confirmPassword := value;
    }

    /**
     * `handleSendOtp`, behind the browser's check of the e-mail input: text
     * that is not an e-mail address never reaches the handler, and an empty
     * e-mail only raises a toast; otherwise the server issues a code, and a
     * success moves to the code form.
     */
    method HandleSendOtp(db: Database, n: nat, d: nat, now: int, delivered: bool) returns (code: Option<int>)
      requires step == EmailStep && db.Valid() && n < d
      modifies this, db
      ensures db.Valid()
      ensures email == old(email) && otp == old(otp)
      ensures newPassword == old(newPassword) && confirmPassword == old(confirmPassword)
      ensures code.None? <==> email == "" || !Browser.EmailText(email)
      ensures code.None? ==> db.donors == old(db.donors)
      ensures code.Some? ==> DonorController.Reply(code.value, db.donors)
                             == DonorController.Forgot(old(db.donors), Some(email), n, d, now, delivered)
      ensures step == (if code.Some? && Succeeded(code.value) then CodeStep else EmailStep)
      ensures db.requests == old(db.requests) && db.users == old(db.users)
      ensures db.hospitals == old(db.hospitals) && db.admins == old(db.admins)
    {
      if email == "" || !Browser.EmailText(email) {
        code := None;
        return;
      }
      var c := SendForgot(db, email, n, d, now, delivered);
      code := Some(c);
      Advance(c);
    }

    /** After the answer: a success moves to the code form. */
    method Advance(c: int)
      modifies this
      ensures email == old(email) && otp == old(otp)
      ensures newPassword == old(newPassword) && confirmPassword == old(confirmPassword)
      ensures step == if Succeeded(c) then CodeStep else old(step)
    {
      if Succeeded(c) {
        step := CodeStep;
      }
    }

    /**
     * `handleResetPassword`, behind the browser's check of the number input:
     * a code that is not a whole number never reaches the handler; a form
     * the handler's checks refuse sends nothing; an accepted one asks the
     * server to reset with the e-mail of step 1.
     */
    method HandleReset(db: Database, now: int) returns (code: Option<int>)
      requires step == CodeStep && db.Valid()
      modifies db
      ensures db.Valid()
      ensures code.None? <==> !Browser.NumberValue(otp) || ResetRefusal(otp, newPassword, confirmPassword).Some?
      ensures code.None? ==> db.donors == old(db.donors)
      ensures code.Some? ==> DonorController.Reply(code.value, db.donors)
                             == DonorController.Reset(old(db.donors), Some(email), Numbers.Cast(otp), Some(newPassword), now)
      ensures db.requests == old(db.requests) && db.users == old(db.users)
      ensures db.hospitals == old(db.hospitals) && db.admins == old(db.admins)
    {
      if !Browser.NumberValue(otp) || ResetRefusal(otp, newPassword, confirmPassword).Some? {
        code := None;
        return;
      }
      var c := SendReset(db, email, otp, newPassword, now);
      code := Some(c);
    }

    /** The "Change Email?" link goes back to the e-mail form, keeping what was typed. */
    method ChangeEmail()
      requires step == CodeStep
      modifies this
      ensures step == EmailStep && email == old(email) && otp == old(otp)
      ensures newPassword == old(newPassword) && confirmPassword == old(confirmPassword)
    {
      step := EmailStep;
    }
  }
}
