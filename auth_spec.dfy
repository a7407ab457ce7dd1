/** The seven handlers of controllers/authControllers.js as pure functions
    from the stores before the request to the response and the stores
    after it. Each handler runs its guards in the source's order and
    answers at the first one that fails, leaving the stores as they were.

    Collaborators are inputs: `valid` is the verdict of the handler's Joi
    schema, `salt` the salt `passwordEncrypt` draws, `newId` the ObjectId
    the store assigns, `newToken` the value `randomTokenGen` draws, and
    `userId` the `_id` claim the JWT middleware put on `req.user`. */
module AuthSpec {
  import opened Wrappers
  import opened Crypto
  import opened Store

  const EmailExists := "E-Mail already exists"
  const LoginNoUser := "Email or password is wrong"
  const LoginBadPassword := "Invalid password"
  const NoMatchingToken := "Unable to find a matching token"
  const VerifyNoUser := "User not found "
  const TokenMismatch := "Token does not match user"
  const AlreadyVerified := "User already verified"
  const NoUserWithEmail := "User with this email not found"
  const ResendAlreadyVerified := "This user is already verified"
  const PasswordReused := "You can't use this password again"
  const SamePassword := "New and Current password is the same, use a new password"
  const ChangeNoUser := "User not found"
  const WrongCurrentPassword := "Current password is wrong"
  const Verified := "success"
  const ResetDone := "Success"
  const PasswordChanged := "Password changed successfully"

  /** What a handler sends back. */
  datatype Reply =
    | Invalid                           // 400, the schema's own message
    | Rejected(msg: string)             // 400, { error_msg: msg }
    | Fault                             // 400, { error_msg: err } from a catch block
    | Created(id: UserId, user: Account) // 201, { data: savedUser }
    | LoggedIn(session: SessionToken)   // the token, in the 'auth-token' header and the body
    | Issued(token: TokenValue)         // 200, { data: token }
    | Done(data: string)                // 200, { data: ... }
    | Plain(text: string)               // 200, a bare JSON string
  {
    function Status(): nat
    {
      match this
      case Invalid | Rejected(_) | Fault => 400
      case Created(_, _) => 201
      case _ => 200
    }

    predicate Failed()
    {
      Status() == 400
    }
  }

  datatype Outcome = Outcome(reply: Reply, next: Store)

  /** `randomTokenGen(user)`: inserts a `{ _userId, token }` row. */
  function IssueToken(s: Store, id: UserId, token: TokenValue): (r: Store)
    ensures r.accounts == s.accounts
    ensures r.tokens.Keys == s.tokens.Keys + {token} && r.tokens[token] == id
    ensures forall t :: t in s.tokens && t != token ==> r.tokens[t] == s.tokens[t]
  {
    s.(tokens := s.tokens[token := id])
  }

  /** `registerUser` (lines 18-55). */
  function Register(s: Store, valid: bool, email: string, password: string,
                    newId: UserId, salt: Salt, newToken: TokenValue): (o: Outcome)
    requires s.Valid()
    requires newId !in s.accounts && newToken !in s.tokens
    ensures o.next.Valid()
    ensures o.reply.Failed() ==> o.next == s
    ensures !valid ==> o.reply == Invalid
    ensures valid && (exists id :: HasEmail(s.accounts, id, email)) ==> o.reply == Rejected(EmailExists)
    ensures !o.reply.Failed() <==> valid && forall id :: id in s.accounts ==> s.accounts[id].email != email
    ensures !o.reply.Failed() ==>
      && o.next.accounts.Keys == s.accounts.Keys + {newId}
      && o.reply == Created(newId, o.next.accounts[newId])
      && (forall id :: id in s.accounts ==> o.next.accounts[id] == s.accounts[id])
      && o.next.accounts[newId] == Account(email, Hash(password, salt), false)
      && Compare(password, o.next.accounts[newId].password)
      && o.next.tokens.Keys == s.tokens.Keys + {newToken}
      && (forall t :: t in s.tokens ==> o.next.tokens[t] == s.tokens[t])
      && TokensOf(o.next.tokens, newId) == {newToken}
  {
    if !valid then Outcome(Invalid, s)
    else if FindByEmail(s.accounts, email).Some? then Outcome(Rejected(EmailExists), s)
    else
      var user := Account(email, Hash(password, salt), false);
      var next := IssueToken(s.(accounts := s.accounts[newId := user]), newId, newToken);
      InsertAccount(s, newId, user, newToken);
      Outcome(Created(newId, user), next)
  }

  /** `loginUser` (lines 57-80); it only reads the stores. */
  function Login(s: Store, secret: string, valid: bool, email: string, password: string): (r: Reply)
    requires s.Valid()
    ensures r.LoggedIn? <==>
      valid && exists id :: HasEmail(s.accounts, id, email) && Compare(password, s.accounts[id].password)
    ensures r.LoggedIn? ==> HasEmail(s.accounts, r.session.subject, email) && r.session.secret == secret
    ensures valid && (forall id :: id in s.accounts ==> s.accounts[id].email != email) ==> r == Rejected(LoginNoUser)
    ensures valid && (exists id :: HasEmail(s.accounts, id, email) && !Compare(password, s.accounts[id].password))
      ==> r == Rejected(LoginBadPassword)
    ensures r.Failed() || r.LoggedIn?
    ensures !valid ==> r == Invalid
  {
    if !valid then Invalid
    else match FindByEmail(s.accounts, email)
      case None => Rejected(LoginNoUser)
      case Some(id) =>
        if !Compare(password, s.accounts[id].password) then Rejected(LoginBadPassword)
        else LoggedIn(Sign(id, secret))
  }

  /** `verifyUserRegistration` (lines 82-122). The owner check of line 106
      is kept as written: it rejects when the token's owner IS the account
      found by email. */
  function Verify(s: Store, valid: bool, email: string, token: TokenValue): (o: Outcome)
    requires s.Valid()
    ensures o.next.Valid()
    ensures o.reply.Failed() ==> o.next == s
    ensures !valid ==> o.reply == Invalid
    ensures o.reply.Failed() || o.reply == Done(Verified)
    ensures valid && token !in s.tokens ==> o.reply == Rejected(NoMatchingToken)
    ensures valid && token in s.tokens && (forall id :: id in s.accounts ==> s.accounts[id].email != email)
      ==> o.reply == Rejected(VerifyNoUser)
    ensures valid && token in s.tokens && HasEmail(s.accounts, s.tokens[token], email)
      ==> o.reply == Rejected(TokenMismatch)
    ensures valid && token in s.tokens &&
      (exists id :: HasEmail(s.accounts, id, email) && s.tokens[token] != id && s.accounts[id].isActive)
      ==> o.reply == Rejected(AlreadyVerified)
    ensures !o.reply.Failed() <==>
      valid && token in s.tokens &&
      exists id :: HasEmail(s.accounts, id, email) && s.tokens[token] != id && !s.accounts[id].isActive
    ensures !o.reply.Failed() ==>
      && o.next.tokens == s.tokens - {token}
      && exists id :: HasEmail(s.accounts, id, email) && o.next.accounts == s.accounts[id := s.accounts[id].(isActive := true)]
    ensures o.next.accounts.Keys == s.accounts.Keys
    ensures forall id :: id in s.accounts ==>
      o.next.accounts[id] == s.accounts[id] || o.next.accounts[id] == s.accounts[id].(isActive := true)
  {
    if !valid then Outcome(Invalid, s)
    else if token !in s.tokens then Outcome(Rejected(NoMatchingToken), s)
    else match FindByEmail(s.accounts, email)
      case None => Outcome(Rejected(VerifyNoUser), s)
      case Some(id) =>
        if s.tokens[token] == id then Outcome(Rejected(TokenMismatch), s)
        else if s.accounts[id].isActive then Outcome(Rejected(AlreadyVerified), s)
        else
          var activated := s.accounts[id].(isActive := true);
          Outcome(Done(Verified), Store(s.accounts[id := activated], s.tokens - {token}))
  }

  /** `resendVerificationToken` (lines 124-152). Earlier tokens stay. */
  function Resend(s: Store, valid: bool, email: string, newToken: TokenValue): (o: Outcome)
    requires s.Valid()
    requires newToken !in s.tokens
    ensures o.next.Valid()
    ensures o.reply.Failed() ==> o.next == s
    ensures !valid ==> o.reply == Invalid
    ensures valid && (forall id :: id in s.accounts ==> s.accounts[id].email != email) ==> o.reply == Rejected(NoUserWithEmail)
    ensures valid && (exists id :: HasEmail(s.accounts, id, email) && s.accounts[id].isActive)
      ==> o.reply == Rejected(ResendAlreadyVerified)
    ensures !o.reply.Failed() <==> valid && exists id :: HasEmail(s.accounts, id, email) && !s.accounts[id].isActive
    ensures !o.reply.Failed() ==>
      && o.reply == Issued(newToken)
      && o.next.accounts == s.accounts
      && o.next.tokens.Keys == s.tokens.Keys + {newToken}
      && HasEmail(s.accounts, o.next.tokens[newToken], email)
      && (forall t :: t in s.tokens ==> o.next.tokens[t] == s.tokens[t])
  {
    if !valid then Outcome(Invalid, s)
    else match FindByEmail(s.accounts, email)
      case None => Outcome(Rejected(NoUserWithEmail), s)
      case Some(id) =>
        if s.accounts[id].isActive then Outcome(Rejected(ResendAlreadyVerified), s)
        else Outcome(Issued(newToken), IssueToken(s, id, newToken))
  }

  /** `sendPasswordResetToken` (lines 154-177); it does not look at
      `isActive`. */
  function SendResetToken(s: Store, valid: bool, email: string, newToken: TokenValue): (o: Outcome)
    requires s.Valid()
    requires newToken !in s.tokens
    ensures o.next.Valid()
    ensures o.reply.Failed() ==> o.next == s
    ensures !valid ==> o.reply == Invalid
    ensures !o.reply.Failed() <==> valid && exists id :: HasEmail(s.accounts, id, email)
    ensures valid && !(exists id :: HasEmail(s.accounts, id, email)) ==> o.reply == Rejected(NoUserWithEmail)
    ensures !o.reply.Failed() ==>
      && o.reply == Issued(newToken)
      && o.next.accounts == s.accounts
      && o.next.tokens.Keys == s.tokens.Keys + {newToken}
      && HasEmail(s.accounts, o.next.tokens[newToken], email)
      && (forall t :: t in s.tokens ==> o.next.tokens[t] == s.tokens[t])
  {
    if !valid then Outcome(Invalid, s)
    else match FindByEmail(s.accounts, email)
      case None => Outcome(Rejected(NoUserWithEmail), s)
      case Some(id) => Outcome(Issued(newToken), IssueToken(s, id, newToken))
  }

  /** `passwordReset` (lines 179-221). The token's owner is never compared
      with the account found by email, and line 212 hashes the body's
      `password` field, not `newPassword`. When the body has no `password`
      field, `passwordEncrypt` throws and the catch at lines 218-219
      answers before anything is saved. */
  function PasswordReset(s: Store, valid: bool, email: string, reqToken: TokenValue,
                         newPassword: string, password: Option<string>, salt: Salt): (o: Outcome)
    requires s.Valid()
    ensures o.next.Valid()
    ensures o.reply.Failed() ==> o.next == s
    ensures !valid ==> o.reply == Invalid
    ensures o.reply.Failed() || o.reply == Done(ResetDone)
    ensures valid && reqToken !in s.tokens ==> o.reply == Rejected(NoMatchingToken)
    ensures valid && reqToken in s.tokens && (forall id :: id in s.accounts ==> s.accounts[id].email != email)
      ==> o.reply == Rejected(NoUserWithEmail)
    ensures valid && reqToken in s.tokens && password.None? &&
      (exists id :: HasEmail(s.accounts, id, email) && !Compare(newPassword, s.accounts[id].password))
      ==> o.reply == Fault
    ensures valid && reqToken in s.tokens &&
      (exists id :: HasEmail(s.accounts, id, email) && Compare(newPassword, s.accounts[id].password))
      ==> o.reply == Rejected(PasswordReused)
    ensures !o.reply.Failed() <==>
      valid && reqToken in s.tokens && password.Some? &&
      exists id :: HasEmail(s.accounts, id, email) && !Compare(newPassword, s.accounts[id].password)
    ensures !o.reply.Failed() ==>
      && o.next.tokens == s.tokens - {reqToken}
      && exists id :: HasEmail(s.accounts, id, email) &&
           o.next.accounts == s.accounts[id := s.accounts[id].(password := Hash(password.value, salt))]
  {
    if !valid then Outcome(Invalid, s)
    else if reqToken !in s.tokens then Outcome(Rejected(NoMatchingToken), s)
    else match FindByEmail(s.accounts, email)
      case None => Outcome(Rejected(NoUserWithEmail), s)
      case Some(id) =>
        if Compare(newPassword, s.accounts[id].password) then Outcome(Rejected(PasswordReused), s)
        else if password.None? then Outcome(Fault, s)
        else
          var updated := s.accounts[id].(password := Hash(password.value, salt));
          Outcome(Done(ResetDone), Store(s.accounts[id := updated], s.tokens - {reqToken}))
  }

  /** `changePassword` (lines 223-256), for the account `userId` that the
      session token names. */
  function ChangePassword(s: Store, valid: bool, userId: UserId, oldPassword: string,
                          newPassword: string, salt: Salt): (o: Outcome)
    ensures s.Valid() ==> o.next.Valid()
    ensures o.reply.Failed() ==> o.next == s
    ensures !valid ==> o.reply == Invalid
    ensures valid && newPassword == oldPassword ==> o.reply == Rejected(SamePassword)
    ensures valid && newPassword != oldPassword && userId !in s.accounts ==> o.reply == Rejected(ChangeNoUser)
    ensures valid && newPassword != oldPassword && userId in s.accounts &&
      !Compare(oldPassword, s.accounts[userId].password)
      ==> o.reply == Rejected(WrongCurrentPassword)
    ensures !o.reply.Failed() <==>
      valid && newPassword != oldPassword && userId in s.accounts && Compare(oldPassword, s.accounts[userId].password)
    ensures !o.reply.Failed() ==>
      && o.reply == Plain(PasswordChanged)
      && o.next.tokens == s.tokens
      && o.next.accounts == s.accounts[userId := s.accounts[userId].(password := Hash(newPassword, salt))]
  {
    if !valid then Outcome(Invalid, s)
    else if newPassword == oldPassword then Outcome(Rejected(SamePassword), s)
    else if userId !in s.accounts then Outcome(Rejected(ChangeNoUser), s)
    else if !Compare(oldPassword, s.accounts[userId].password) then Outcome(Rejected(WrongCurrentPassword), s)
    else
      var updated := s.accounts[userId].(password := Hash(newPassword, salt));
      Outcome(Plain(PasswordChanged), s.(accounts := s.accounts[userId := updated]))
  }
}
