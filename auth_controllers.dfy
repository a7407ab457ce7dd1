/** controllers/authControllers.js as a class over the two collections.
    Each handler looks records up, returns at the first failing guard, and
    only then writes: it inserts a document, updates the fetched account in
    place and saves it, or deletes a token row. Every method is proved to
    do exactly what the matching function of AuthSpec describes. */
module AuthControllers {
  import opened Wrappers
  import opened Crypto
  import opened Store
  import opened AuthSpec

  class AuthController {
    /** The `User` collection. */
    var accounts: map<UserId, Account>
    /** The `Token` collection. */
    var tokens: map<TokenValue, UserId>
    /** `process.env.TOKEN_SECRET`. */
    const secret: string

    function State(): Store
      reads this
    {
      Store(accounts, tokens)
    }

    ghost predicate Valid()
      reads this
    {
      State().Valid()
    }

    constructor (secret: string)
      ensures Valid() && State() == Store(map[], map[]) && this.secret == secret
    {
      accounts := map[];
      tokens := map[];
      this.secret := secret;
    }

    /** Inserts the `{ _userId, token }` row of `randomTokenGen`. */
    method SaveToken(id: UserId, token: TokenValue)
      modifies this
      ensures accounts == old(accounts) && tokens == old(tokens)[token := id]
    {
      tokens := tokens[token := id];
    }

    method RegisterUser(valid: bool, email: string, password: string,
                        newId: UserId, salt: Salt, newToken: TokenValue) returns (reply: Reply)
      requires Valid()
      requires newId !in accounts && newToken !in tokens
      modifies this
      ensures Valid()
      ensures Outcome(reply, State()) == Register(old(State()), valid, email, password, newId, salt, newToken)
    {
      if !valid {
        return Invalid;
      }
      var emailExist := FindByEmail(accounts, email);
      if emailExist.Some? {
        return Rejected(EmailExists);
      }
      var hashed := Hash(password, salt);
      var user := Account(email, hashed, false);
      accounts := accounts[newId := user];
      SaveToken(newId, newToken);
      return Created(newId, user);
    }

    method LoginUser(valid: bool, email: string, password: string) returns (reply: Reply)
      requires Valid()
      ensures reply == Login(State(), secret, valid, email, password)
    {
      if !valid {
        return Invalid;
      }
      var found := FindByEmail(accounts, email);
      if found.None? {
        return Rejected(LoginNoUser);
      }
      var user := accounts[found.value];
      var validPass := Compare(password, user.password);
      if !validPass {
        return Rejected(LoginBadPassword);
      }
      return LoggedIn(Sign(found.value, secret));
    }

    method VerifyUserRegistration(valid: bool, email: string, token: TokenValue) returns (reply: Reply)
      requires Valid()
      modifies this
      ensures Valid()
      ensures Outcome(reply, State()) == Verify(old(State()), valid, email, token)
    {
      if !valid {
        return Invalid;
      }
      if token !in tokens {
        return Rejected(NoMatchingToken);
      }
      var owner := tokens[token];
      var found := FindByEmail(accounts, email);
      if found.None? {
        return Rejected(VerifyNoUser);
      }
      var id := found.value;
      var user := accounts[id];
      if owner == id {
        return Rejected(TokenMismatch);
      }
      if user.isActive {
        return Rejected(AlreadyVerified);
      }
      user := user.(isActive := true);
      accounts := accounts[id := user];
      tokens := tokens - {token};
      return Done(Verified);
    }

    method ResendVerificationToken(valid: bool, email: string, newToken: TokenValue) returns (reply: Reply)
      requires Valid()
      requires newToken !in tokens
      modifies this
      ensures Valid()
      ensures Outcome(reply, State()) == Resend(old(State()), valid, email, newToken)
    {
      if !valid {
        return Invalid;
      }
      var found := FindByEmail(accounts, email);
      if found.None? {
        return Rejected(NoUserWithEmail);
      }
      if accounts[found.value].isActive {
        return Rejected(ResendAlreadyVerified);
      }
      SaveToken(found.value, newToken);
      return Issued(newToken);
    }

    method SendPasswordResetToken(valid: bool, email: string, newToken: TokenValue) returns (reply: Reply)
      requires Valid()
      requires newToken !in tokens
      modifies this
      ensures Valid()
      ensures Outcome(reply, State()) == SendResetToken(old(State()), valid, email, newToken)
    {
      if !valid {
        return Invalid;
      }
      var found := FindByEmail(accounts, email);
      if found.None? {
        return Rejected(NoUserWithEmail);
      }
      SaveToken(found.value, newToken);
      return Issued(newToken);
    }

    method PasswordReset(valid: bool, email: string, reqToken: TokenValue, newPassword: string,
                         password: Option<string>, salt: Salt) returns (reply: Reply)
      requires Valid()
      modifies this
      ensures Valid()
      ensures Outcome(reply, State()) == AuthSpec.PasswordReset(old(State()), valid, email, reqToken, newPassword, password, salt)
    {
      if !valid {
        return Invalid;
      }
      if reqToken !in tokens {
        return Rejected(NoMatchingToken);
      }
      var found := FindByEmail(accounts, email);
      if found.None? {
        return Rejected(NoUserWithEmail);
      }
      var id := found.value;
      var user := accounts[id];
      var passwordCompare := Compare(newPassword, user.password);
      if passwordCompare {
        return Rejected(PasswordReused);
      }
      if password.None? {
        return Fault;
      }
      user := user.(password := Hash(password.value, salt));
      accounts := accounts[id := user];
      tokens := tokens - {reqToken};
      return Done(ResetDone);
    }

    method ChangePassword(valid: bool, userId: UserId, oldPassword: string, newPassword: string,
                          salt: Salt) returns (reply: Reply)
      requires Valid()
      modifies this
      ensures Valid()
      ensures Outcome(reply, State()) == AuthSpec.ChangePassword(old(State()), valid, userId, oldPassword, newPassword, salt)
    {
      if !valid {
        return Invalid;
      }
      if newPassword == oldPassword {
        return Rejected(SamePassword);
      }
      if userId !in accounts {
        return Rejected(ChangeNoUser);
      }
      var user := accounts[userId];
      var validPass := Compare(oldPassword, user.password);
      if !validPass {
        return Rejected(WrongCurrentPassword);
      }
      user := user.(password := Hash(newPassword, salt));
      accounts := accounts[userId := user];
      return Plain(PasswordChanged);
    }
  }
}
