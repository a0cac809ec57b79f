# Token lifecycle of the Spring registration client, in Dafny

This project models the core of a small Spring Boot user-registration service: the
email-verification and password-reset tokens, and the credential changes they gate.

The model is a pure state machine over three repositories, held in `Store.State`:

- users by id,
- verification tokens by token string,
- password-reset tokens by token string.

Every service call and every endpoint is a function. It takes the state and returns its answer
together with the next state. The wall clock (`now`, milliseconds since the epoch) and the random
UUID string a call would generate are passed in as parameters. The password encoder is a
parameter too: `Encoding.PasswordEncoder` holds two function values. Beyond being functions,
which makes encoding deterministic (see "## Left out"), nothing is assumed about them.

Modules, leaf first:

- `Wrappers`: `Option` (for Java `null` and `Optional`) and `Result` (for calls that throw).
- `Text`: decimal rendering of the port number, digit scanning, character search, and the
  ASCII form of `equalsIgnoreCase`.
- `Entities`: the user row, the two request bodies and the error kinds.
- `Encoding`: the abstract password encoder.
- `Tokens`: the token entity, its two constructors and the 10-minute window.
  `VerificationToken.java` and `PasswordResetToken.java` are the same class under two names,
  so one datatype serves both stores.
- `Store`: the state, its well-formedness invariant `Wf`, and `findByEmail`.
- `UserService`: the service implementation.
- `Links`: the base URL built from the request, and the mailed links.
- `RegistrationListener`: the registration event and the listener that issues the first
  verification token.
- `RegistrationController`: the six endpoints.
- `Lifecycle`: properties that relate several calls.

`Store.Wf` says three things. Each user is stored under its own id, and that id is below the
next identity value. No two users share an email. Each token is stored under its own string and
points at an existing user. `Wf` is preserved by registration, by validation, by rotation and by
every endpoint. The two token-saving service calls and the registration listener preserve it
when the user they are given has the id of a stored user. `UserService.ChangePassword`
preserves it when the user it is given is the stored one. The endpoints only ever pass such
users.

The model follows the code as written, also where it differs from its own comments:

- A valid verification enables the user but does not delete the token, although the comment on
  `validateVerificationToken` says it does.
- Rotating a verification token replaces only its string. The expiry is not recomputed, so a
  resend for an expired token hands out a link that is already expired
  (`Lifecycle.ResendOfExpiredTokenStaysExpired`).
- Issuing a token never removes earlier tokens of the same user.
- `savePassword` leaves the reset token in the store, so the link can be replayed while the
  window lasts (`Lifecycle.ResetTokenIsReusable`).

## Model

| member | source | states |
|---|---|---|
| Tokens.NewToken | src/main/java/com/itns/springsecurityclient/entity/VerificationToken.java:35-40 | the token keeps exactly the given string and user, and expires 600000 ms (10 minutes) after the creation time |
| Tokens.NewUnboundToken | src/main/java/com/itns/springsecurityclient/entity/PasswordResetToken.java:42-46 | the one-argument constructor keeps the string, sets no user, and gives the same 600000 ms expiry |
| Tokens.FreshTokenWindow | src/main/java/com/itns/springsecurityclient/entity/VerificationToken.java:54-59 | a token built at time c reads as expired at time t exactly when t >= c + 600000, so it is live strictly inside the window and the boundary counts as expired |
| Tokens.ExpiryIsMonotone | src/main/java/com/itns/springsecurityclient/service/UserServiceImpl.java:161-162 | once `expirationTime - now <= 0` holds, it holds at every later time |
| Store.FindByEmail | src/main/java/com/itns/springsecurityclient/repository/UserRepository.java:11 | answers the stored user with that email, the only one; answers nothing exactly when no stored user has that email |
| UserService.RegisterUser | src/main/java/com/itns/springsecurityclient/service/UserServiceImpl.java:47-58 | the new user gets a fresh id, the submitted email and names, role "USER", the encoder's output for the password, and is disabled; no other user and no token changes; a taken email is refused |
| UserService.SaveVerificationTokenForUser | src/main/java/com/itns/springsecurityclient/service/UserServiceImpl.java:66-72 | adds one verification token with the given string for the given user, expiring 10 minutes after now; every earlier token stays, and nothing else changes |
| UserService.ValidateVerificationToken | src/main/java/com/itns/springsecurityclient/service/UserServiceImpl.java:79-100 | Invalid exactly when no record has the string, and then nothing changes; Expired exactly when the remaining time is <= 0, and then only that record is deleted; otherwise Valid, only the owner's enabled flag becomes true, and the record stays |
| UserService.GenerateNewVerificationToken | src/main/java/com/itns/springsecurityclient/service/UserServiceImpl.java:109-116 | fails exactly when the old string has no record; otherwise the record moves to the new string with the same user and the same expiry, and nothing else changes |
| UserService.FindUserByEmail | src/main/java/com/itns/springsecurityclient/service/UserServiceImpl.java:123-126 | finds a user exactly when one has that email, and the one found is the stored record |
| UserService.CreatePasswordResetTokenForUser | src/main/java/com/itns/springsecurityclient/service/UserServiceImpl.java:134-139 | adds one reset token with the given string for the given user, expiring 10 minutes after now; earlier reset tokens stay |
| UserService.ValidatePasswordResetToken | src/main/java/com/itns/springsecurityclient/service/UserServiceImpl.java:149-168 | the same Invalid/Expired/Valid conditions as verification; the user store never changes, and only an Expired answer changes anything (it deletes that record) |
| UserService.GetUserByPasswordResetToken | src/main/java/com/itns/springsecurityclient/service/UserServiceImpl.java:176-179 | fails exactly when the token has no record; otherwise it answers the current stored record of the token's owner |
| UserService.ChangePassword | src/main/java/com/itns/springsecurityclient/service/UserServiceImpl.java:188-192 | the user's stored password becomes the encoding of the new password; no other field, no other user and no token changes |
| Lifecycle.CheckAfterChange | src/main/java/com/itns/springsecurityclient/service/UserServiceImpl.java:202-205 | after a password change, the old-password check accepts a candidate exactly when the encoder matches it against the new hash |
| Text.NatToDecimal | src/main/java/com/itns/springsecurityclient/controller/RegistrationController.java:199 | the port is rendered as a non-empty run of decimal digits with no leading zero, except that zero is rendered as "0" |
| Text.EqualsIgnoreCase | src/main/java/com/itns/springsecurityclient/controller/RegistrationController.java:65 | two strings compare equal exactly when they have the same length and each pair of characters is equal or is the upper- and lower-case form of one ASCII letter; in particular equal strings compare equal |
| Links.ApplicationUrl | src/main/java/com/itns/springsecurityclient/controller/RegistrationController.java:195-201 | the base URL starts with "http://", and for a colon-free server name, a non-negative port and a context path that is empty or starts with "/" it parses back to exactly the request's server name, port and context path |
| Links.ParseApplicationUrlSound | src/main/java/com/itns/springsecurityclient/controller/RegistrationController.java:195-201 | any text that parses as a base URL is exactly the base URL built from the parts it parses to; the port is accepted only without leading zeros, as `Integer.toString` renders it |
| Text.CanonicalDecimal | src/main/java/com/itns/springsecurityclient/controller/RegistrationController.java:199 | a non-empty digit string without a leading zero, other than "0", is the rendering of its own value, so the rendering is the only such spelling of a number |
| Tokens.CalculateExpirationDate | src/main/java/com/itns/springsecurityclient/entity/VerificationToken.java:54-59 | the expiry lies exactly the given number of minutes, counted as 60000 ms each, after now; a positive number of minutes puts it strictly in the future |
| Tokens.IsExpired | src/main/java/com/itns/springsecurityclient/service/UserServiceImpl.java:91-92 | the remaining-time test `expirationTime - now <= 0` holds exactly when now has reached the expiry |
| UserService.StatusString | src/main/java/com/itns/springsecurityclient/service/UserServiceImpl.java:84-99 | the answer matches "valid" ignoring case exactly for a Valid outcome, and is "expired" exactly for Expired and "invalid" exactly for Invalid |
| UserService.CheckIfValidOldPassword | src/main/java/com/itns/springsecurityclient/service/UserServiceImpl.java:203-205 | the check accepts exactly when the encoder matches the offered password against the user's stored hash |
| Text.DecimalRoundTrip | src/main/java/com/itns/springsecurityclient/controller/RegistrationController.java:199 | reading the rendered port back as a decimal number gives the port |
| Links.LinkRoundTrip | src/main/java/com/itns/springsecurityclient/event/listener/RegistrationCompleteEventListener.java:39-42 | stripping base URL and endpoint path from a link gives back the token it was built with |
| Links.TokenOfLinkSound | src/main/java/com/itns/springsecurityclient/event/listener/RegistrationCompleteEventListener.java:39-42 | a URL from which a token can be recovered is exactly the link for that token |
| Links.VerificationLink | src/main/java/com/itns/springsecurityclient/event/listener/RegistrationCompleteEventListener.java:39-42 | the verification link starts with the base URL and carries exactly the given token after "/verifyRegistration?token=" |
| Links.PasswordResetLink | src/main/java/com/itns/springsecurityclient/controller/RegistrationController.java:159-163 | the reset link starts with the base URL and carries exactly the given token after "/savePassword?token=" |
| RegistrationListener.OnApplicationEvent | src/main/java/com/itns/springsecurityclient/event/listener/RegistrationCompleteEventListener.java:33-47 | saves one verification token with the generated string for exactly the event's user, expiring in 10 minutes; the returned link carries that stored string; users and reset tokens are untouched |
| RegistrationController.RegisterUser | src/main/java/com/itns/springsecurityclient/controller/RegistrationController.java:47-54 | refuses a taken email and then fails; otherwise answers "Success", stores one new disabled user with the submitted email and names, role "USER" and the encoded password, leaves every other user alone, adds exactly one verification token for that user expiring 10 minutes after now, keeps every earlier token, and returns a verification link that carries that token under the request's base URL |
| RegistrationController.VerifyRegistration | src/main/java/com/itns/springsecurityclient/controller/RegistrationController.java:63-69 | answers the success text exactly when the token has a live record, and then the only change is that its owner is enabled; otherwise "Bad User", with nothing changed for an unknown token and only the record deleted for an expired one |
| RegistrationController.ResendVerificationTokenMail | src/main/java/com/itns/springsecurityclient/controller/RegistrationController.java:178-182 | the resend link carries the rotated record's token string |
| RegistrationController.ResendVerificationToken | src/main/java/com/itns/springsecurityclient/controller/RegistrationController.java:80-87 | fails exactly when the old string has no record; otherwise answers the fixed text, the link carries the new string, the record keeps its user and expiry under the new string, the old string is gone, every other token is unchanged, and nothing else in the state changes; a failure is `NotFound` |
| RegistrationController.PasswordResetTokenMail | src/main/java/com/itns/springsecurityclient/controller/RegistrationController.java:159-169 | the returned link carries exactly the given token after the base URL and "/savePassword?token=" |
| RegistrationController.ResetPassword | src/main/java/com/itns/springsecurityclient/controller/RegistrationController.java:98-107 | answers "" exactly for an unknown email, and then writes nothing; otherwise it saves one reset token with the generated string for that user and answers the save-password link carrying it |
| RegistrationController.SavePassword | src/main/java/com/itns/springsecurityclient/controller/RegistrationController.java:118-131 | re-encodes the owner's password exactly when the token has a live record, and keeps the token; every other case answers "Invalid Token" and changes no password: nothing changes for an unknown token, and only the record is deleted for an expired one |
| RegistrationController.ChangePassword | src/main/java/com/itns/springsecurityclient/controller/RegistrationController.java:141-149 | fails for an unknown email; answers "Invalid Old Password" and changes nothing exactly when the old password does not match; otherwise stores the encoding of the new password and changes nothing else |
| Lifecycle.IssueThenValidate | src/main/java/com/itns/springsecurityclient/service/UserServiceImpl.java:91-99 | a verification token issued at c validates as Valid and enables its user before c + 10 minutes, and as Expired, with the record gone, from then on |
| Lifecycle.VerificationExpiryIsFinal | src/main/java/com/itns/springsecurityclient/service/UserServiceImpl.java:91-95 | after an Expired answer the same string validates as Invalid at any time: no token becomes valid again |
| Lifecycle.ResetExpiryIsFinal | src/main/java/com/itns/springsecurityclient/service/UserServiceImpl.java:161-165 | the same finality for reset tokens |
| Lifecycle.RevalidationIsIdempotent | src/main/java/com/itns/springsecurityclient/service/UserServiceImpl.java:97-99 | validating a Valid verification token again at the same time answers Valid and changes nothing more |
| Lifecycle.ValidResetTokenResolvesOwner | src/main/java/com/itns/springsecurityclient/service/UserServiceImpl.java:149-179 | right after a Valid reset-token answer, resolving the token yields its owner |
| Lifecycle.ResendOfExpiredTokenStaysExpired | src/main/java/com/itns/springsecurityclient/service/UserServiceImpl.java:110-116 | resending for an expired token succeeds, but the new link does not verify at that time, and the old link never verifies again |
| Lifecycle.RegistrationThenVerification | src/main/java/com/itns/springsecurityclient/controller/RegistrationController.java:47-69 | registration stores a disabled user and returns a link carrying the issued token, and following it inside the window verifies and enables that user |
| Lifecycle.ResetTokenIsReusable | src/main/java/com/itns/springsecurityclient/controller/RegistrationController.java:124-127 | after a successful password save the same reset link saves again while the window lasts |
| Lifecycle.RegisteredUserIsFound | src/main/java/com/itns/springsecurityclient/service/UserServiceImpl.java:123-126 | after a registration, looking up the submitted email finds exactly the new user |
| Lifecycle.RotationPreservesValidation | src/main/java/com/itns/springsecurityclient/service/UserServiceImpl.java:110-116 | after rotation the new string validates exactly as the old one would have, with the same effect on users, and the old string validates as Invalid without changing anything |
| Lifecycle.ResetLinkResetsPassword | src/main/java/com/itns/springsecurityclient/controller/RegistrationController.java:98-131 | for a registered email, the reset link carries the issued token, and following it strictly inside the window re-encodes that user's password |
| Lifecycle.ChangedPasswordGatesNextChange | src/main/java/com/itns/springsecurityclient/controller/RegistrationController.java:141-149 | after a password change, the next change for that email passes the old-password check exactly when the encoder matches the offered password against the new hash |

## Left out

- Password hashing: the encoder is an abstract pair of functions. No property of the hash
  (one-wayness, the work factor) is assumed.
- Salting: `encode` is a mathematical function, so the model encodes a password the same way on
  every call. The application's BCrypt encoder (`WebSecurityConfig.java`, strength 11) draws a
  fresh salt on every call, so two encodings of one password differ in the program. A contract
  such as `password == enc.encode(m.password)` therefore stands for "the hash that call produced".
- Clock and UUIDs: `now` and the generated token string are parameters. That a generated string
  is not already in its store is a precondition of the issuing and rotating calls, because the
  code relies on UUIDs not colliding.
- Tokens.IsExpired: `expirationTime - now` is computed on unbounded integers; the 64-bit
  overflow of `Date.getTime()` arithmetic, reachable only for dates about 292 million years
  away, is not modelled.
- Text.EqualsIgnoreCase: compares letters case-insensitively only in ASCII. Java also folds
  non-ASCII letters. This makes no difference here, because it only ever compares the three
  status strings with "valid".
- Links.ApplicationUrl: the parse-back is promised only for colon-free server names,
  non-negative ports and context paths that are empty or start with "/". Other inputs make the
  URL ambiguous.
- `User.java` is not part of this model. That a new user starts with `enabled` false, and that
  saving a second user with an existing email fails, are assumptions about its mapping.
- Schema constraints beyond the not-null foreign key from a token to its user, such as a unique
  `user_id` column on the one-to-one mappings, are not modelled. Issuing keeps every earlier
  token, as the service code does.
- UserService.ChangePassword: requires the user to be in the store already. Saving a detached
  user whose row does not exist, which JPA would turn into an insert, is not modelled.
- The `User` argument of the two private mail helpers is dropped. It is used only by the
  commented-out mail sending.
- Mail delivery and logging: links are returned instead of logged.
- The Spring event bus: `publishEvent` runs the listener synchronously, inside the request. The
  controller's `RegisterUser` therefore calls `RegistrationListener.OnApplicationEvent` directly
  with the event, within the same call; the dispatch mechanism itself is not modelled.
- Null request bodies: strings in request bodies are never null in the model. In the code a
  missing password, old password or new password is `null`, and the encoder's `encode` or
  `matches` then throws.
- Thrown exceptions: a `null` that the code dereferences becomes `Failure(NotFound)`. The
  exceptions themselves and HTTP status codes are not modelled.
- Concurrency and transaction boundaries: every call runs alone.
- The OAuth2 web-client configuration and the security filter chain are framework
  configuration.
