/** Concrete runs of the handlers from an empty database, showing what the
    controllers do as written. */
module Scenarios {
  import opened Wrappers
  import opened Crypto
  import opened Store
  import opened AuthSpec

  const Alice := "alice@example.com"
  const Bob := "bob@example.com"
  const Secret := "token-secret"

  /** Register alice; her own verification token is then refused by the
      owner check of line 106 and she stays inactive; login, and a password
      change followed by logins with both passwords, answer as the handlers say;
      registering alice again is refused. */
  lemma AliceWalkthrough()
    ensures var s0 := Store(map[], map[]);
      var r1 := Register(s0, true, Alice, "Secret123!", "u1", "salt1", "tok1");
      var s1 := r1.next;
      && r1.reply == Created("u1", Account(Alice, Hash("Secret123!", "salt1"), false))
      && s1.tokens == map["tok1" := "u1"]
      && Verify(s1, true, Alice, "tok1") == Outcome(Rejected(TokenMismatch), s1)
      && Login(s1, Secret, true, Alice, "Secret123!") == LoggedIn(Sign("u1", Secret))
      && var r2 := ChangePassword(s1, true, "u1", "Secret123!", "NewSecret456!", "salt2");
         && r2.reply == Plain(PasswordChanged)
         && Login(r2.next, Secret, true, Alice, "Secret123!") == Rejected(LoginBadPassword)
         && Login(r2.next, Secret, true, Alice, "NewSecret456!") == LoggedIn(Sign("u1", Secret))
         && Login(r2.next, Secret, true, Bob, "NewSecret456!") == Rejected(LoginNoUser)
         && Register(r2.next, true, Alice, "x", "u2", "salt3", "tok2").reply == Rejected(EmailExists)
  {
  }

  /** The database after alice and then bob register. */
  function TwoRegistered(): Store
  {
    var s1 := Register(Store(map[], map[]), true, Alice, "pa", "u1", "sa", "tok1").next;
    assert HasEmail(s1.accounts, "u1", Alice);
    Register(s1, true, Bob, "pb", "u2", "sb", "tok2").next
  }

  /** Each registration adds its inactive account and its one token. */
  lemma TwoRegisteredState()
    ensures TwoRegistered() == Store(
      map["u1" := AliceAccount, "u2" := BobAccount],
      map["tok1" := "u1", "tok2" := "u2"])
  {
  }

  const AliceAccount := Account(Alice, Hash("pa", "sa"), false)
  const BobAccount := Account(Bob, Hash("pb", "sb"), false)

  /** Alice verifies with bob's token (in the database `TwoRegistered`
      describes): she is activated and his token is gone. */
  lemma CrossActivationAlice()
    ensures
      var s := Store(map["u1" := AliceAccount, "u2" := BobAccount], map["tok1" := "u1", "tok2" := "u2"]);
      Verify(s, true, Alice, "tok2") == Outcome(Done(Verified),
        Store(map["u1" := AliceAccount.(isActive := true), "u2" := BobAccount], map["tok1" := "u1"]))
  {
    var s := Store(map["u1" := AliceAccount, "u2" := BobAccount], map["tok1" := "u1", "tok2" := "u2"]);
    assert HasEmail(s.accounts, "u1", Alice);
    assert s.tokens - {"tok2"} == map["tok1" := "u1"];
  }

  /** Bob then verifies with alice's token, which empties the token store. */
  lemma CrossActivationBob()
    ensures
      var s := Store(map["u1" := AliceAccount.(isActive := true), "u2" := BobAccount], map["tok1" := "u1"]);
      Verify(s, true, Bob, "tok1") == Outcome(Done(Verified),
        Store(map["u1" := AliceAccount.(isActive := true), "u2" := BobAccount.(isActive := true)], map[]))
  {
    var s := Store(map["u1" := AliceAccount.(isActive := true), "u2" := BobAccount], map["tok1" := "u1"]);
    assert HasEmail(s.accounts, "u2", Bob);
    assert s.tokens - {"tok1"} == map[];
  }

  /** A verification token serves as a password-reset token; the reset
      fails with nothing changed when the body has no `password` field, and
      otherwise installs that field and burns the token. */
  lemma ResetWithVerificationToken()
    ensures var s1 := Register(Store(map[], map[]), true, Alice, "old", "u1", "sa", "tok1").next;
      && PasswordReset(s1, true, Alice, "tok1", "new", None, "sb") == Outcome(Fault, s1)
      && PasswordReset(s1, true, Alice, "tok1", "old", Some("body"), "sb") == Outcome(Rejected(PasswordReused), s1)
      && var r := PasswordReset(s1, true, Alice, "tok1", "new", Some("body"), "sb");
         && r.reply == Done(ResetDone)
         && r.next.tokens == map[]
         && r.next.accounts["u1"].password == Hash("body", "sb")
  {
  }
}
