/** The reaction to a completed registration: issue a verification token for the new user and
    build the link that would be mailed to them. */
module RegistrationListener {
  import opened Wrappers
  import opened Entities
  import opened Tokens
  import opened Store
  import opened Links
  import UserService

  /** The notification published once a user is stored: the user and the base URL of the
      request that registered them. */
  datatype RegistrationCompleteEvent = RegistrationCompleteEvent(user: User, applicationUrl: string)

  /** `onApplicationEvent`: saves a verification token with the generated string `token` for
      exactly the event's user and returns the verification link carrying that same string. */
  function OnApplicationEvent(s: State, event: RegistrationCompleteEvent, token: string, now: Millis)
    : (r: (string, State))
    requires token !in s.verificationTokens
    ensures r.1.verificationTokens.Keys == s.verificationTokens.Keys + {token}
    ensures r.1.verificationTokens[token].user == Some(event.user.id)
    ensures r.1.verificationTokens[token].expirationTime == now + 600_000
    ensures forall k :: k in s.verificationTokens ==> r.1.verificationTokens[k] == s.verificationTokens[k]
    ensures r.1 == s.(verificationTokens := r.1.verificationTokens)
    ensures TokenOfLink(event.applicationUrl, VERIFY_PATH, r.0) == Some(token)
    ensures r.1.verificationTokens[token].token == token
    ensures Wf(s) && event.user.id in s.users ==> Wf(r.1)
  {
    var s' := UserService.SaveVerificationTokenForUser(s, token, event.user, now);
    (VerificationLink(event.applicationUrl, token), s')
  }
}
