/** Properties that relate several operations: the token lifecycle from issuance through
    validation, rotation and expiry, and the password flows across consecutive requests. */
module Lifecycle {
  import opened Wrappers
  import opened Entities
  import opened Encoding
  import opened Tokens
  import opened Store
  import opened Links
  import opened UserService
  import opened RegistrationListener
  import C = RegistrationController

  /** A verification token issued at `created` validates as Valid, and enables its user, strictly
      inside the 10-minute window; from the end of the window on it validates as Expired and the
      record is gone afterwards. */
  lemma IssueThenValidate(s: State, user: User, token: string, created: Millis, now: Millis)
    requires Wf(s) && user.id in s.users && token !in s.verificationTokens
    ensures
      var s1 := SaveVerificationTokenForUser(s, token, user, created);
      var (st, s2) := ValidateVerificationToken(s1, token, now);
      && (now < created + 600_000 ==>
            st == Valid && s2.users[user.id].enabled && token in s2.verificationTokens)
      && (now >= created + 600_000 ==>
            st == Expired && token !in s2.verificationTokens && s2.users == s.users)
  {
  }

  /** Expired is final: after a verification token is reported expired, validating the same
      string at any time answers Invalid. */
  lemma VerificationExpiryIsFinal(s: State, token: string, now: Millis, later: Millis)
    requires Wf(s) && ValidateVerificationToken(s, token, now).0 == Expired
    ensures ValidateVerificationToken(ValidateVerificationToken(s, token, now).1, token, later).0 == Invalid
  {
  }

  /** Expired is final for reset tokens too. */
  lemma ResetExpiryIsFinal(s: State, token: string, now: Millis, later: Millis)
    requires ValidatePasswordResetToken(s, token, now).0 == Expired
    ensures ValidatePasswordResetToken(ValidatePasswordResetToken(s, token, now).1, token, later).0 == Invalid
  {
  }

  /** Enabling is idempotent: a token that validated stays in the store, and validating it again
      at the same time answers Valid and changes nothing further. */
  lemma RevalidationIsIdempotent(s: State, token: string, now: Millis)
    requires Wf(s) && ValidateVerificationToken(s, token, now).0 == Valid
    ensures
      var s1 := ValidateVerificationToken(s, token, now).1;
      ValidateVerificationToken(s1, token, now) == (Valid, s1)
  {
    var s1 := ValidateVerificationToken(s, token, now).1;
    var owner := s1.verificationTokens[token].user.value;
    assert s1.users[owner := s1.users[owner].(enabled := true)] == s1.users;
  }

  /** A reset token that validates can be resolved to its owner right afterwards. */
  lemma ValidResetTokenResolvesOwner(s: State, token: string, now: Millis)
    requires Wf(s) && ValidatePasswordResetToken(s, token, now).0 == Valid
    ensures
      var s1 := ValidatePasswordResetToken(s, token, now).1;
      GetUserByPasswordResetToken(s1, token) == Success(Some(s.users[s.resetTokens[token].user.value]))
  {
  }

  /** Rotation keeps the expiry: resending the link for an expired token yields a token that is
      itself already expired, and the old string no longer verifies either. */
  lemma ResendOfExpiredTokenStaysExpired(s: State, oldToken: string, req: Request, newToken: string, now: Millis, later: Millis)
    requires Wf(s) && newToken !in s.verificationTokens
    requires oldToken in s.verificationTokens && IsExpired(s.verificationTokens[oldToken], now)
    ensures
      var r := C.ResendVerificationToken(s, oldToken, req, newToken);
      && r.Success?
      && C.VerifyRegistration(r.value.2, newToken, now).0 == C.BAD_USER
      && C.VerifyRegistration(r.value.2, oldToken, later).0 == C.BAD_USER
  {
  }

  /** The registration flow end to end: the new user starts disabled, the mailed link carries
      the token issued during registration, and following that link inside the window verifies
      the user. */
  lemma RegistrationThenVerification(
    s: State, enc: PasswordEncoder, m: UserModel, req: Request, token: string, created: Millis, now: Millis)
    requires Wf(s)
    requires forall id :: id in s.users ==> s.users[id].email != m.email
    requires token !in s.verificationTokens
    requires now < created + 600_000
    ensures
      var r := C.RegisterUser(s, enc, m, req, token, created);
      && r.Success?
      && var (_, url, s1) := r.value;
      && var id := s1.verificationTokens[token].user.value;
      && !s1.users[id].enabled
      && TokenOfLink(ApplicationUrl(req), VERIFY_PATH, url) == Some(token)
      && var (msg, s2) := C.VerifyRegistration(s1, token, now);
      && msg == C.VERIFIED
      && s2.users[id].enabled
  {
  }

  /** The reset token is not consumed: after a successful password save, the same link works
      again while the window lasts. */
  lemma ResetTokenIsReusable(s: State, enc: PasswordEncoder, token: string, pm: PasswordModel, pm2: PasswordModel, now: Millis)
    requires Wf(s) && C.SavePassword(s, enc, token, pm, now).0 == C.PASSWORD_RESET
    ensures C.SavePassword(C.SavePassword(s, enc, token, pm, now).1, enc, token, pm2, now).0 == C.PASSWORD_RESET
  {
  }

  /** After a password change, the next change for the same email passes the old-password gate
      exactly when the encoder matches the offered password against the new hash. */
  lemma ChangedPasswordGatesNextChange(s: State, enc: PasswordEncoder, pm: PasswordModel, pm2: PasswordModel)
    requires Wf(s)
    requires C.ChangePassword(s, enc, pm).Success? && C.ChangePassword(s, enc, pm).value.0 == C.PASSWORD_CHANGED
    requires pm2.email == pm.email
    ensures
      var s1 := C.ChangePassword(s, enc, pm).value.1;
      var r := C.ChangePassword(s1, enc, pm2);
      && r.Success?
      && (r.value.0 == C.INVALID_OLD_PASSWORD <==> !enc.matches(pm2.oldPassword, enc.encode(pm.newPassword)))
  {
  }

  /** `checkIfValidOldPassword` reads only the stored hash: after `changePassword` it answers for
      every candidate exactly what the encoder says about the new hash. */
  lemma CheckAfterChange(s: State, enc: PasswordEncoder, user: User, newPassword: string, candidate: string)
    requires user.id in s.users
    ensures
      var s1 := UserService.ChangePassword(s, enc, user, newPassword);
      CheckIfValidOldPassword(enc, s1.users[user.id], candidate) == enc.matches(candidate, enc.encode(newPassword))
  {
  }

  /** A registered user is what the email lookup finds afterwards. */
  lemma RegisteredUserIsFound(s: State, enc: PasswordEncoder, m: UserModel)
    requires Wf(s) && UserService.RegisterUser(s, enc, m).Success?
    ensures
      var (u, s1) := UserService.RegisterUser(s, enc, m).value;
      FindUserByEmail(s1, m.email) == Some(u)
  {
  }

  /** Rotation moves a verification token to its new string without changing what validation
      decides: the new string validates as the old one would have, with the same effect on the
      owner, and the old string becomes Invalid. */
  lemma RotationPreservesValidation(s: State, oldToken: string, newToken: string, now: Millis)
    requires Wf(s) && newToken !in s.verificationTokens && oldToken in s.verificationTokens
    ensures
      var s1 := GenerateNewVerificationToken(s, oldToken, newToken).value.1;
      var (before, sb) := ValidateVerificationToken(s, oldToken, now);
      var (after, sa) := ValidateVerificationToken(s1, newToken, now);
      && after == before
      && sa.users == sb.users
      && ValidateVerificationToken(s1, oldToken, now) == (Invalid, s1)
  {
    var s1 := GenerateNewVerificationToken(s, oldToken, newToken).value.1;
    assert s1.verificationTokens[newToken] == s.verificationTokens[oldToken].(token := newToken);
    assert s1.users == s.users;
  }

  /** The reset flow end to end: the link answered for a registered email, followed strictly
      inside the window, re-encodes that user's password. */
  lemma ResetLinkResetsPassword(
    s: State, enc: PasswordEncoder, pm: PasswordModel, req: Request, token: string,
    created: Millis, now: Millis, pm2: PasswordModel)
    requires Wf(s) && token !in s.resetTokens
    requires exists id :: id in s.users && s.users[id].email == pm.email
    requires now < created + 600_000
    ensures
      var (url, s1) := C.ResetPassword(s, pm, req, token, created);
      && TokenOfLink(ApplicationUrl(req), SAVE_PASSWORD_PATH, url) == Some(token)
      && var (msg, s2) := C.SavePassword(s1, enc, token, pm2, now);
      && msg == C.PASSWORD_RESET
      && forall id :: id in s.users && s.users[id].email == pm.email ==>
           s2.users[id].password == enc.encode(pm2.newPassword)
  {
  }
}
