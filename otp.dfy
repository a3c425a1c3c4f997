// The one-time-password reset rules shared by the hospital, donor and admin
// controllers: a 6-digit code drawn from `Math.random`, valid for ten minutes,
// redeemable only by an exact match before it expires, and cleared on use or
// when the e-mail carrying it cannot be sent.
module Otp {
  import opened Common

  const OtpMin: int := 100000
  const OtpMax: int := 999999

  /** `10 * 60 * 1000` milliseconds. */
  const Lifetime: int := 600000

  /** `resetPasswordOtp` and `resetPasswordExpire` (both `null` by default). */
  datatype OtpState = OtpState(code: Option<int>, expire: Option<int>)

  const Cleared: OtpState := OtpState(None, None)

  /**
   * `Math.floor(100000 + Math.random() * 900000)` where the random draw is
   * the fraction `n / d` (so `0 <= n / d < 1`).
   */
  function CodeFromDraw(n: nat, d: nat): (r: int)
    requires n < d
    ensures OtpMin <= r <= OtpMax
  {
    DrawBound(n, d);
    OtpMin + (900000 * n) / d
  }

  lemma DrawBound(n: nat, d: nat)
    requires n < d
    ensures 0 <= (900000 * n) / d <= 899999
  {
    assert 900000 * n < 900000 * d;
    assert 900000 * n <= 900000 * d - 900000;
    assert (900000 * n) / d * d <= 900000 * n;
  }

  /** The two fields a forgot-password request writes at time `now`. */
  function Issue(now: int, n: nat, d: nat): (s: OtpState)
    requires n < d
    ensures s.code.Some? && OtpMin <= s.code.value <= OtpMax
    ensures s.expire == Some(now + Lifetime)
  {
    OtpState(Some(CodeFromDraw(n, d)), Some(now + Lifetime))
  }

  /**
   * The reset query `{ resetPasswordOtp: otp, resetPasswordExpire: { $gt: now } }`
   * on one account: the stored code equals the submitted one (an absent
   * code only equals an absent code) and the expiry is strictly later.
   */
  predicate Redeemable(s: OtpState, otp: Option<int>, now: int)
  {
    s.code == otp && s.expire.Some? && s.expire.value > now
  }

  /** A freshly issued code is accepted exactly when it is re-entered within ten minutes. */
  lemma IssuedRedeemable(t: int, n: nat, d: nat, otp: Option<int>, later: int)
    requires n < d
    ensures Redeemable(Issue(t, n, d), otp, later)
      <==> otp == Some(CodeFromDraw(n, d)) && later < t + Lifetime
  {
  }

  /** Cleared fields never match, whatever code is submitted. */
  lemma ClearedNeverRedeemable(otp: Option<int>, now: int)
    ensures !Redeemable(Cleared, otp, now)
  {
  }

  /** A redeemable code is a 6-digit one when it was issued by `Issue`. */
  lemma RedeemedCodeInRange(t: int, n: nat, d: nat, otp: Option<int>, now: int)
    requires n < d
    requires Redeemable(Issue(t, n, d), otp, now)
    ensures otp.Some? && OtpMin <= otp.value <= OtpMax
    ensures now < t + Lifetime
  {
  }
}
