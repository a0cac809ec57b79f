/** The service layer: registration, token issuance, validation and rotation, and password
    changes, each a function from the store state (and the clock reading or the generated token
    string the code would obtain itself) to a result and the next state. */
module UserService {
  import opened Wrappers
  import opened Text
  import opened Entities
  import opened Encoding
  import opened Tokens
  import opened Store

  /** The three answers of token validation. */
  datatype Status = Valid | Expired | Invalid

  /** The strings the service returns for each answer. */
  function StatusString(st: Status): (r: string)
    ensures EqualsIgnoreCase(r, "valid") <==> st == Valid
    ensures r == "expired" <==> st == Expired
    ensures r == "invalid" <==> st == Invalid
  {
    match st
    case Valid => "valid"
    case Expired => "expired"
    case Invalid => "invalid"
  }

  /** `registerUser`: stores a new disabled user with role "USER" and the encoded password. */
  function RegisterUser(s: State, enc: PasswordEncoder, m: UserModel): (r: Result<(User, State), Error>)
    requires Wf(s)
    ensures r.Failure? <==> exists id :: id in s.users && s.users[id].email == m.email
    ensures r.Failure? ==> r.error == DuplicateEmail
    ensures r.Success? ==>
      var (u, s') := r.value;
      && u.id !in s.users
      && u.email == m.email && u.firstName == m.firstName && u.lastName == m.lastName
      && u.role == "USER" && u.password == enc.encode(m.password) && !u.enabled
      && s'.users.Keys == s.users.Keys + {u.id} && s'.users[u.id] == u
      && (forall id :: id in s.users ==> s'.users[id] == s.users[id])
      && s'.verificationTokens == s.verificationTokens && s'.resetTokens == s.resetTokens
      && Wf(s')
  {
    match FindByEmail(s, m.email)
    case Some(_) => Failure(DuplicateEmail)
    case None =>
      var u := User(s.nextUserId, m.email, m.firstName, m.lastName, enc.encode(m.password), USER_ROLE, false);
      AddUserWf(s, u);
      Success((u, s.(users := s.users[u.id := u], nextUserId := s.nextUserId + 1)))
  }

  /** `saveVerificationTokenForUser`: stores a new verification token for `user`; tokens issued
      earlier, for this user or any other, stay in the store. */
  function SaveVerificationTokenForUser(s: State, token: string, user: User, now: Millis): (s': State)
    requires token !in s.verificationTokens
    ensures s'.verificationTokens.Keys == s.verificationTokens.Keys + {token}
    ensures s'.verificationTokens[token].token == token
    ensures s'.verificationTokens[token].user == Some(user.id)
    ensures s'.verificationTokens[token].expirationTime == now + 600_000
    ensures forall k :: k in s.verificationTokens ==> s'.verificationTokens[k] == s.verificationTokens[k]
    ensures s' == s.(verificationTokens := s'.verificationTokens)
    ensures Wf(s) && user.id in s.users ==> Wf(s')
  {
    s.(verificationTokens := s.verificationTokens[token := NewToken(user.id, token, now)])
  }

  /** `validateVerificationToken`: no record gives Invalid and changes nothing; an expired record
      is deleted and gives Expired; a live record enables its owner and gives Valid, and the
      record itself stays in the store. */
  function ValidateVerificationToken(s: State, token: string, now: Millis): (r: (Status, State))
    requires Wf(s)
    ensures r.0 == Invalid <==> token !in s.verificationTokens
    ensures r.0 == Expired <==> token in s.verificationTokens && IsExpired(s.verificationTokens[token], now)
    ensures r.0 == Invalid ==> r.1 == s
    ensures r.0 == Expired ==>
      && r.1 == s.(verificationTokens := r.1.verificationTokens)
      && r.1.verificationTokens.Keys == s.verificationTokens.Keys - {token}
      && forall k :: k in r.1.verificationTokens ==> r.1.verificationTokens[k] == s.verificationTokens[k]
    ensures r.0 == Valid ==>
      var owner := s.verificationTokens[token].user.value;
      && r.1 == s.(users := r.1.users)
      && r.1.users.Keys == s.users.Keys
      && r.1.users[owner] == s.users[owner].(enabled := true)
      && forall id :: id in s.users && id != owner ==> r.1.users[id] == s.users[id]
    ensures Wf(r.1)
  {
    if token !in s.verificationTokens then (Invalid, s)
    else
      var t := s.verificationTokens[token];
      if IsExpired(t, now) then
        (Expired, s.(verificationTokens := s.verificationTokens - {token}))
      else
        var owner := t.user.value;
        (Valid, s.(users := s.users[owner := s.users[owner].(enabled := true)]))
  }

  /** `generateNewVerificationToken`: the record found under `oldToken` gets the string `newToken`;
      its user and its expiration time are kept as they were. No record is an error. */
  function GenerateNewVerificationToken(s: State, oldToken: string, newToken: string)
    : (r: Result<(Token, State), Error>)
    requires newToken !in s.verificationTokens
    ensures r.Failure? <==> oldToken !in s.verificationTokens
    ensures r.Failure? ==> r.error == NotFound
    ensures r.Success? ==>
      var (t, s') := r.value;
      var before := s.verificationTokens[oldToken];
      && t.token == newToken && t.user == before.user && t.expirationTime == before.expirationTime
      && s'.verificationTokens.Keys == s.verificationTokens.Keys - {oldToken} + {newToken}
      && s'.verificationTokens[newToken] == t
      && (forall k :: k in s'.verificationTokens && k != newToken ==>
            s'.verificationTokens[k] == s.verificationTokens[k])
      && s' == s.(verificationTokens := s'.verificationTokens)
    ensures r.Success? && Wf(s) ==> Wf(r.value.1)
  {
    if oldToken !in s.verificationTokens then Failure(NotFound)
    else
      var t := s.verificationTokens[oldToken].(token := newToken);
      Success((t, s.(verificationTokens := (s.verificationTokens - {oldToken})[newToken := t])))
  }

  /** `findUserByEmail`. */
  function FindUserByEmail(s: State, email: string): (r: Option<User>)
    requires Wf(s)
    ensures r.Some? <==> exists id :: id in s.users && s.users[id].email == email
    ensures r.Some? ==> r.value.email == email && r.value.id in s.users && s.users[r.value.id] == r.value
  {
    FindByEmail(s, email)
  }

  /** `createPasswordResetTokenForUser`: stores a new reset token for `user`; earlier reset
      tokens stay in the store. */
  function CreatePasswordResetTokenForUser(s: State, user: User, token: string, now: Millis): (s': State)
    requires token !in s.resetTokens
    ensures s'.resetTokens.Keys == s.resetTokens.Keys + {token}
    ensures s'.resetTokens[token].token == token
    ensures s'.resetTokens[token].user == Some(user.id)
    ensures s'.resetTokens[token].expirationTime == now + 600_000
    ensures forall k :: k in s.resetTokens ==> s'.resetTokens[k] == s.resetTokens[k]
    ensures s' == s.(resetTokens := s'.resetTokens)
    ensures Wf(s) && user.id in s.users ==> Wf(s')
  {
    s.(resetTokens := s.resetTokens[token := NewToken(user.id, token, now)])
  }

  /** `validatePasswordResetToken`: the same three outcomes as verification, but the user store
      is never touched, and a Valid answer changes nothing at all. */
  function ValidatePasswordResetToken(s: State, token: string, now: Millis): (r: (Status, State))
    ensures r.0 == Invalid <==> token !in s.resetTokens
    ensures r.0 == Expired <==> token in s.resetTokens && IsExpired(s.resetTokens[token], now)
    ensures r.0 != Expired ==> r.1 == s
    ensures r.0 == Expired ==>
      && r.1 == s.(resetTokens := r.1.resetTokens)
      && r.1.resetTokens.Keys == s.resetTokens.Keys - {token}
      && forall k :: k in r.1.resetTokens ==> r.1.resetTokens[k] == s.resetTokens[k]
    ensures r.1.users == s.users
    ensures Wf(s) ==> Wf(r.1)
  {
    if token !in s.resetTokens then (Invalid, s)
    else if IsExpired(s.resetTokens[token], now) then
      (Expired, s.(resetTokens := s.resetTokens - {token}))
    else
      (Valid, s)
  }

  /** `getUserByPasswordResetToken`: the current record of the token's owner. No record is an
      error (the code dereferences the missing row). */
  function GetUserByPasswordResetToken(s: State, token: string): (r: Result<Option<User>, Error>)
    requires Wf(s)
    ensures r.Failure? <==> token !in s.resetTokens
    ensures r.Failure? ==> r.error == NotFound
    ensures r.Success? ==>
      && r.value.Some?
      && s.resetTokens[token].user == Some(r.value.value.id)
      && r.value.value.id in s.users && s.users[r.value.value.id] == r.value.value
  {
    if token !in s.resetTokens then Failure(NotFound)
    else
      match s.resetTokens[token].user
      case None => Success(None)
      case Some(id) => Success(Some(s.users[id]))
  }

  /** `changePassword`: saves `user` with its password replaced by the encoding of
      `newPassword`; no other user and no token changes. */
  function ChangePassword(s: State, enc: PasswordEncoder, user: User, newPassword: string): (s': State)
    requires user.id in s.users
    ensures s'.users.Keys == s.users.Keys
    ensures s'.users[user.id].password == enc.encode(newPassword)
    ensures s'.users[user.id] == user.(password := s'.users[user.id].password)
    ensures forall id :: id in s.users && id != user.id ==> s'.users[id] == s.users[id]
    ensures s' == s.(users := s'.users)
    ensures Wf(s) && s.users[user.id] == user ==> Wf(s')
  {
    s.(users := s.users[user.id := user.(password := enc.encode(newPassword))])
  }

  /** `checkIfValidOldPassword`: asks the encoder whether `oldPassword` matches the stored hash. */
  function CheckIfValidOldPassword(enc: PasswordEncoder, user: User, oldPassword: string): (r: bool)
    ensures r == enc.matches(oldPassword, user.password)
  {
    enc.matches(oldPassword, user.password)
  }
}
