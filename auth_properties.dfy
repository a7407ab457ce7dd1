/** Properties that relate several handler calls, stated over AuthSpec. */
module AuthProperties {
  import opened Wrappers
  import opened Crypto
  import opened Store
  import opened AuthSpec

  /** The owner check of line 106 as written: an account's own token can
      never verify it. */
  lemma VerifyRejectsOwnToken(s: Store, email: string, token: TokenValue)
    requires s.Valid() && token in s.tokens && HasEmail(s.accounts, s.tokens[token], email)
    ensures Verify(s, true, email, token) == Outcome(Rejected(TokenMismatch), s)
  {
  }

  /** ... and a token owned by ANOTHER account verifies this one, consuming
      the other account's token. */
  lemma VerifyAcceptsForeignToken(s: Store, email: string, token: TokenValue, id: UserId)
    requires s.Valid() && token in s.tokens && HasEmail(s.accounts, id, email)
    requires s.tokens[token] != id && !s.accounts[id].isActive
    ensures Verify(s, true, email, token).reply == Done(Verified)
    ensures Verify(s, true, email, token).next.accounts[id].isActive
    ensures token !in Verify(s, true, email, token).next.tokens
  {
  }

  /** A token is single-use: after a successful verification the same
      request is answered as if the token never existed. */
  lemma VerifyConsumesToken(s: Store, valid: bool, email: string, token: TokenValue)
    requires s.Valid()
    requires !Verify(s, valid, email, token).reply.Failed()
    ensures var s' := Verify(s, valid, email, token).next;
      Verify(s', valid, email, token) == Outcome(Rejected(NoMatchingToken), s')
  {
  }

  /** Once active, an account stays active and cannot be verified again:
      every later verification attempt fails and changes nothing. */
  lemma VerifyActiveAccountFails(s: Store, valid: bool, email: string, token: TokenValue, id: UserId)
    requires s.Valid() && HasEmail(s.accounts, id, email) && s.accounts[id].isActive
    ensures Verify(s, valid, email, token).reply.Failed()
    ensures Verify(s, valid, email, token).next == s
  {
  }

  /** Resending leaves every earlier token usable: a verification with an
      old token is answered exactly as it would have been before. */
  lemma ResendKeepsEarlierTokens(s: Store, valid: bool, email: string, newToken: TokenValue,
                                 email': string, token: TokenValue)
    requires s.Valid() && newToken !in s.tokens && token in s.tokens
    ensures var s' := Resend(s, valid, email, newToken).next;
      token in s'.tokens && Verify(s', true, email', token).reply == Verify(s, true, email', token).reply
  {
    var s' := Resend(s, valid, email, newToken).next;
    assert s'.accounts == s.accounts && s'.tokens[token] == s.tokens[token];
  }

  /** A password reset never looks at whose token it is given: a token of
      any account resets the password of the account named by email. */
  lemma ResetIgnoresTokenOwner(s: Store, email: string, reqToken: TokenValue, newPassword: string,
                               password: string, salt: Salt, id: UserId)
    requires s.Valid() && reqToken in s.tokens && HasEmail(s.accounts, id, email)
    requires !Compare(newPassword, s.accounts[id].password)
    ensures PasswordReset(s, true, email, reqToken, newPassword, Some(password), salt).reply == Done(ResetDone)
  {
  }

  /** Line 212 stores the hash of the body's `password`, so after a reset
      the account logs in with that field and not with `newPassword`
      (when the two differ). */
  lemma ResetStoresBodyPassword(s: Store, secret: string, email: string, reqToken: TokenValue,
                                newPassword: string, password: string, salt: Salt)
    requires s.Valid()
    requires !PasswordReset(s, true, email, reqToken, newPassword, Some(password), salt).reply.Failed()
    ensures var s' := PasswordReset(s, true, email, reqToken, newPassword, Some(password), salt).next;
      && Login(s', secret, true, email, password).LoggedIn?
      && (newPassword != password ==> Login(s', secret, true, email, newPassword) == Rejected(LoginBadPassword))
  {
  }

  /** After a successful password change, the account logs in with the new
      password and no longer with the old one. */
  lemma ChangePasswordSwitchesLogin(s: Store, secret: string, userId: UserId, oldPassword: string,
                                    newPassword: string, salt: Salt)
    requires s.Valid()
    requires !ChangePassword(s, true, userId, oldPassword, newPassword, salt).reply.Failed()
    ensures var s' := ChangePassword(s, true, userId, oldPassword, newPassword, salt).next;
      var email := s.accounts[userId].email;
      && Login(s', secret, true, email, newPassword) == LoggedIn(Sign(userId, secret))
      && Login(s', secret, true, email, oldPassword) == Rejected(LoginBadPassword)
  {
    var s' := ChangePassword(s, true, userId, oldPassword, newPassword, salt).next;
    assert HasEmail(s'.accounts, userId, s.accounts[userId].email);
    CompareHash(newPassword, oldPassword, salt);
  }

  /** `changePassword` rejects an unchanged password before touching the
      stores: the answer is the same whatever they hold. */
  lemma ChangeSamePasswordIgnoresStores(s1: Store, s2: Store, userId: UserId, password: string, salt: Salt)
    ensures ChangePassword(s1, true, userId, password, password, salt).reply
         == ChangePassword(s2, true, userId, password, password, salt).reply
         == Rejected(SamePassword)
  {
  }
}
