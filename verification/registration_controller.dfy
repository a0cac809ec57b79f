/** The HTTP endpoints, as functions from the request data (plus the clock reading and the
    generated token string) to the response text and the next store state. */
module RegistrationController {
  import opened Wrappers
  import opened Text
  import opened Entities
  import opened Encoding
  import opened Tokens
  import opened Store
  import opened Links
  import opened RegistrationListener
  import UserService

  const REGISTERED := "Success"
  const VERIFIED := "Utilisateur vérifié avec success"
  const BAD_USER := "Bad User"
  const VERIFICATION_LINK_SENT := "Lien de verification envoyé"
  const INVALID_TOKEN := "Invalid Token"
  const PASSWORD_RESET := "Password Reset Successfully"
  const INVALID_OLD_PASSWORD := "Invalid Old Password"
  const PASSWORD_CHANGED := "Password Modifié avec Success"

  /** `registerUser`: stores the new user and publishes the registration event. The listener
      runs within the same call (the event multicaster is synchronous), so the answer "Success"
      comes back with a verification token with the generated string already saved for the new
      user. Returns the text, the verification link the listener builds, and the next state. */
  function RegisterUser(s: State, enc: PasswordEncoder, m: UserModel, req: Request, token: string, now: Millis)
    : (r: Result<(string, string, State), Error>)
    requires Wf(s)
    requires token !in s.verificationTokens
    ensures r.Failure? <==> exists id :: id in s.users && s.users[id].email == m.email
    ensures r.Failure? ==> r.error == DuplicateEmail
    ensures r.Success? ==>
      var (msg, url, s') := r.value;
      && msg == REGISTERED
      && s'.verificationTokens.Keys == s.verificationTokens.Keys + {token}
      && s'.verificationTokens[token].user.Some?
      && var id := s'.verificationTokens[token].user.value;
      && id !in s.users && s'.users.Keys == s.users.Keys + {id}
      && s'.users[id].email == m.email
      && s'.users[id].firstName == m.firstName && s'.users[id].lastName == m.lastName
      && s'.users[id].role == USER_ROLE && s'.users[id].password == enc.encode(m.password)
      && !s'.users[id].enabled
      && (forall k :: k in s.users ==> s'.users[k] == s.users[k])
      && s'.verificationTokens[token].expirationTime == now + 600_000
      && (forall k :: k in s.verificationTokens ==> s'.verificationTokens[k] == s.verificationTokens[k])
      && s'.resetTokens == s.resetTokens
      && TokenOfLink(ApplicationUrl(req), VERIFY_PATH, url) == Some(token)
      && Wf(s')
  {
    match UserService.RegisterUser(s, enc, m)
    case Failure(e) => Failure(e)
    case Success((u, s1)) =>
      var (url, s2) := OnApplicationEvent(s1, RegistrationCompleteEvent(u, ApplicationUrl(req)), token, now);
      Success((REGISTERED, url, s2))
  }

  /** `verifyRegistration`: the success text exactly when the service answers "valid" (compared
      ignoring case), "Bad User" otherwise. */
  function VerifyRegistration(s: State, token: string, now: Millis): (r: (string, State))
    requires Wf(s)
    ensures r.0 == VERIFIED <==>
      token in s.verificationTokens && !IsExpired(s.verificationTokens[token], now)
    ensures r.0 != VERIFIED ==> r.0 == BAD_USER
    ensures r.1.users.Keys == s.users.Keys
    ensures r.0 == VERIFIED ==> r.1.users[s.verificationTokens[token].user.value].enabled
    ensures r.0 == VERIFIED ==>
      var owner := s.verificationTokens[token].user.value;
      r.1 == s.(users := s.users[owner := s.users[owner].(enabled := true)])
    ensures token !in s.verificationTokens ==> r.1 == s
    ensures token in s.verificationTokens && IsExpired(s.verificationTokens[token], now) ==>
      r.1 == s.(verificationTokens := s.verificationTokens - {token})
    ensures Wf(r.1)
  {
    var (st, s') := UserService.ValidateVerificationToken(s, token, now);
    if EqualsIgnoreCase(UserService.StatusString(st), "valid") then (VERIFIED, s')
    else (BAD_USER, s')
  }

  /** `resendVerificationTokenMail`: the verification link for the token record's string. The
      owning user is only needed for the mail itself, which is not modelled. */
  function ResendVerificationTokenMail(appUrl: string, t: Token): (url: string)
    ensures TokenOfLink(appUrl, VERIFY_PATH, url) == Some(t.token)
  {
    VerificationLink(appUrl, t.token)
  }

  /** `resendVerificationToken`: rotates the token string and answers with a fixed text; the
      link to be mailed carries the new string. A missing old token is an error. Returns the
      text, the link and the next state. */
  function ResendVerificationToken(s: State, oldToken: string, req: Request, newToken: string)
    : (r: Result<(string, string, State), Error>)
    requires newToken !in s.verificationTokens
    ensures r.Failure? <==> oldToken !in s.verificationTokens
    ensures r.Success? ==>
      var (msg, url, s') := r.value;
      && msg == VERIFICATION_LINK_SENT
      && TokenOfLink(ApplicationUrl(req), VERIFY_PATH, url) == Some(newToken)
      && oldToken !in s'.verificationTokens
      && s'.verificationTokens.Keys == s.verificationTokens.Keys - {oldToken} + {newToken}
      && (forall k :: k in s'.verificationTokens && k != newToken ==>
            s'.verificationTokens[k] == s.verificationTokens[k])
      && s'.verificationTokens[newToken].user == s.verificationTokens[oldToken].user
      && s'.verificationTokens[newToken].expirationTime == s.verificationTokens[oldToken].expirationTime
      && s' == s.(verificationTokens := s'.verificationTokens)
    ensures r.Failure? ==> r.error == NotFound
    ensures r.Success? && Wf(s) ==> Wf(r.value.2)
  {
    match UserService.GenerateNewVerificationToken(s, oldToken, newToken)
    case Failure(e) => Failure(e)
    case Success((t, s')) =>
      Success((VERIFICATION_LINK_SENT, ResendVerificationTokenMail(ApplicationUrl(req), t), s'))
  }

  /** `passwordResetTokenMail`: the save-password link carrying `token`. The user is only needed
      for the mail itself, which is not modelled. */
  function PasswordResetTokenMail(appUrl: string, token: string): (url: string)
    ensures TokenOfLink(appUrl, SAVE_PASSWORD_PATH, url) == Some(token)
  {
    PasswordResetLink(appUrl, token)
  }

  /** `resetPassword`: for an unknown email, the empty string and no write; otherwise a reset
      token with the generated string is saved for that user and the save-password link carrying
      it is returned. */
  function ResetPassword(s: State, pm: PasswordModel, req: Request, newToken: string, now: Millis)
    : (r: (string, State))
    requires Wf(s)
    requires newToken !in s.resetTokens
    ensures r.0 == "" <==> forall id :: id in s.users ==> s.users[id].email != pm.email
    ensures r.0 == "" ==> r.1 == s
    ensures r.0 != "" ==>
      && TokenOfLink(ApplicationUrl(req), SAVE_PASSWORD_PATH, r.0) == Some(newToken)
      && r.1.resetTokens.Keys == s.resetTokens.Keys + {newToken}
      && r.1.resetTokens[newToken].user.Some?
      && var id := r.1.resetTokens[newToken].user.value;
      && id in s.users && s.users[id].email == pm.email
      && r.1.resetTokens[newToken].expirationTime == now + 600_000
      && (forall k :: k in s.resetTokens ==> r.1.resetTokens[k] == s.resetTokens[k])
      && r.1 == s.(resetTokens := r.1.resetTokens)
    ensures Wf(r.1)
  {
    match UserService.FindUserByEmail(s, pm.email)
    case None => ("", s)
    case Some(u) =>
      var s' := UserService.CreatePasswordResetTokenForUser(s, u, newToken, now);
      var url := PasswordResetTokenMail(ApplicationUrl(req), newToken);
      assert url[..7] == "http://";
      (url, s')
  }

  /** `savePassword`: the password of the reset token's owner is re-encoded only when the token
      validates as "valid"; every other case answers "Invalid Token" and changes no password.
      The reset token is left in the store after use. */
  function SavePassword(s: State, enc: PasswordEncoder, token: string, pm: PasswordModel, now: Millis)
    : (r: (string, State))
    requires Wf(s)
    ensures r.0 == PASSWORD_RESET <==> token in s.resetTokens && !IsExpired(s.resetTokens[token], now)
    ensures r.0 != PASSWORD_RESET ==> r.0 == INVALID_TOKEN && r.1.users == s.users
    ensures token !in s.resetTokens ==> r.1 == s
    ensures token in s.resetTokens && IsExpired(s.resetTokens[token], now) ==>
      r.1 == s.(resetTokens := s.resetTokens - {token})
    ensures r.0 == PASSWORD_RESET ==>
      var owner := s.resetTokens[token].user.value;
      && r.1 == s.(users := r.1.users)
      && r.1.users.Keys == s.users.Keys
      && r.1.users[owner] == s.users[owner].(password := enc.encode(pm.newPassword))
      && (forall id :: id in s.users && id != owner ==> r.1.users[id] == s.users[id])
      && token in r.1.resetTokens
    ensures Wf(r.1)
  {
    var (st, s') := UserService.ValidatePasswordResetToken(s, token, now);
    if !EqualsIgnoreCase(UserService.StatusString(st), "valid") then (INVALID_TOKEN, s')
    else
      match UserService.GetUserByPasswordResetToken(s', token)
      case Failure(_) =>
        // a valid answer means the record is still there
        assert false; (INVALID_TOKEN, s')
      case Success(None) => (INVALID_TOKEN, s')
      case Success(Some(u)) => (PASSWORD_RESET, UserService.ChangePassword(s', enc, u, pm.newPassword))
  }

  /** `changePassword`: the new password is stored only when the old one matches the stored
      hash; an unknown email is an error. */
  function ChangePassword(s: State, enc: PasswordEncoder, pm: PasswordModel): (r: Result<(string, State), Error>)
    requires Wf(s)
    ensures r.Failure? <==> forall id :: id in s.users ==> s.users[id].email != pm.email
    ensures r.Failure? ==> r.error == NotFound
    ensures r.Success? ==> forall id :: id in s.users && s.users[id].email == pm.email ==>
      var (msg, s') := r.value;
      && (msg == INVALID_OLD_PASSWORD <==> !enc.matches(pm.oldPassword, s.users[id].password))
      && (msg == INVALID_OLD_PASSWORD ==> s' == s)
      && (msg != INVALID_OLD_PASSWORD ==>
            && msg == PASSWORD_CHANGED
            && s' == s.(users := s.users[id := s.users[id].(password := enc.encode(pm.newPassword))]))
    ensures r.Success? ==> Wf(r.value.1)
  {
    match UserService.FindUserByEmail(s, pm.email)
    case None => Failure(NotFound)
    case Some(u) =>
      if !UserService.CheckIfValidOldPassword(enc, u, pm.oldPassword) then
        Success((INVALID_OLD_PASSWORD, s))
      else
        Success((PASSWORD_CHANGED, UserService.ChangePassword(s, enc, u, pm.newPassword)))
  }
}
