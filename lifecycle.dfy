/** Sequences of requests against the two collections: every handler keeps
    the store invariant, `isActive` only ever moves to true, accounts are
    never removed and keep their email, and a token disappears only through
    a successful verification or password reset that names it. */
module Lifecycle {
  import opened Wrappers
  import opened Crypto
  import opened Store
  import opened AuthSpec

  /** One request to one of the seven handlers, with the values its
      collaborators supply. */
  datatype Request =
    | RegisterRequest(valid: bool, email: string, password: string, newId: UserId, salt: Salt, newToken: TokenValue)
    | LoginRequest(valid: bool, email: string, password: string)
    | VerifyRequest(valid: bool, email: string, token: TokenValue)
    | ResendRequest(valid: bool, email: string, newToken: TokenValue)
    | ResetTokenRequest(valid: bool, email: string, newToken: TokenValue)
    | ResetRequest(valid: bool, email: string, reqToken: TokenValue, newPassword: string,
                   bodyPassword: Option<string>, salt: Salt)
    | ChangeRequest(valid: bool, userId: UserId, oldPassword: string, newPassword: string, salt: Salt)

  /** The values the ObjectId and token generators draw are unused. */
  predicate Fresh(s: Store, r: Request)
  {
    match r
    case RegisterRequest(_, _, _, newId, _, newToken) => newId !in s.accounts && newToken !in s.tokens
    case ResendRequest(_, _, newToken) => newToken !in s.tokens
    case ResetTokenRequest(_, _, newToken) => newToken !in s.tokens
    case _ => true
  }

  /** The request removes token `t` if it succeeds. */
  predicate Consumes(r: Request, t: TokenValue)
  {
    (r.VerifyRequest? && r.token == t) || (r.ResetRequest? && r.reqToken == t)
  }

  function Step(secret: string, s: Store, r: Request): (o: Outcome)
    requires s.Valid() && Fresh(s, r)
    ensures o.next.Valid()
  {
    match r
    case RegisterRequest(valid, email, password, newId, salt, newToken) =>
      Register(s, valid, email, password, newId, salt, newToken)
    case LoginRequest(valid, email, password) => Outcome(Login(s, secret, valid, email, password), s)
    case VerifyRequest(valid, email, token) => Verify(s, valid, email, token)
    case ResendRequest(valid, email, newToken) => Resend(s, valid, email, newToken)
    case ResetTokenRequest(valid, email, newToken) => SendResetToken(s, valid, email, newToken)
    case ResetRequest(valid, email, reqToken, newPassword, password, salt) =>
      PasswordReset(s, valid, email, reqToken, newPassword, password, salt)
    case ChangeRequest(valid, userId, oldPassword, newPassword, salt) =>
      ChangePassword(s, valid, userId, oldPassword, newPassword, salt)
  }

  /** Every generated value in the sequence is fresh when it is drawn. */
  ghost predicate Admissible(secret: string, s: Store, reqs: seq<Request>)
    requires s.Valid()
    decreases |reqs|
  {
    reqs == [] || (Fresh(s, reqs[0]) && Admissible(secret, Step(secret, s, reqs[0]).next, reqs[1..]))
  }

  /** The store after the whole sequence. */
  function Run(secret: string, s: Store, reqs: seq<Request>): (t: Store)
    requires s.Valid() && Admissible(secret, s, reqs)
    ensures t.Valid()
    decreases |reqs|
  {
    if reqs == [] then s else Run(secret, Step(secret, s, reqs[0]).next, reqs[1..])
  }

  /** The replies, one per request. */
  function Replies(secret: string, s: Store, reqs: seq<Request>): (rs: seq<Reply>)
    requires s.Valid() && Admissible(secret, s, reqs)
    ensures |rs| == |reqs|
    decreases |reqs|
  {
    if reqs == [] then []
    else [Step(secret, s, reqs[0]).reply] + Replies(secret, Step(secret, s, reqs[0]).next, reqs[1..])
  }

  /** From `s` to `t` no account was removed, none changed its email, and
      none went from active back to inactive. */
  ghost predicate Grows(s: Store, t: Store)
  {
    forall id :: id in s.accounts ==>
      && id in t.accounts
      && t.accounts[id].email == s.accounts[id].email
      && (s.accounts[id].isActive ==> t.accounts[id].isActive)
  }

  /** One step of any handler. */
  lemma StepGrows(secret: string, s: Store, r: Request)
    requires s.Valid() && Fresh(s, r)
    ensures Grows(s, Step(secret, s, r).next)
  {
    var o := Step(secret, s, r);
    forall id | id in s.accounts
      ensures id in o.next.accounts && o.next.accounts[id].email == s.accounts[id].email
      ensures s.accounts[id].isActive ==> o.next.accounts[id].isActive
    {
      if r.ResetRequest? && !o.reply.Failed() {
        var x :| HasEmail(s.accounts, x, r.email) &&
          o.next.accounts == s.accounts[x := s.accounts[x].(password := Hash(r.bodyPassword.value, r.salt))];
      }
    }
  }

  /** A failed request, and any login, leaves both collections unchanged. */
  lemma StepFailureChangesNothing(secret: string, s: Store, r: Request)
    requires s.Valid() && Fresh(s, r)
    requires Step(secret, s, r).reply.Failed() || r.LoginRequest?
    ensures Step(secret, s, r).next == s
  {
  }

  /** A token row goes away only through a successful request that names
      it, and no request but a verification activates an account. */
  lemma StepConsumes(secret: string, s: Store, r: Request, t: TokenValue, id: UserId)
    requires s.Valid() && Fresh(s, r)
    ensures t in s.tokens && t !in Step(secret, s, r).next.tokens ==>
      Consumes(r, t) && !Step(secret, s, r).reply.Failed()
    ensures id in s.accounts && !s.accounts[id].isActive && Step(secret, s, r).next.accounts[id].isActive ==>
      r.VerifyRequest? && Step(secret, s, r).reply == Done(Verified)
  {
  }

  lemma GrowsTransitive(a: Store, b: Store, c: Store)
    requires Grows(a, b) && Grows(b, c)
    ensures Grows(a, c)
  {
  }

  /** Over any sequence of requests, accounts are never removed, keep their
      email, and stay active once active. */
  lemma {:induction false} RunGrows(secret: string, s: Store, reqs: seq<Request>)
    requires s.Valid() && Admissible(secret, s, reqs)
    ensures Grows(s, Run(secret, s, reqs))
    decreases |reqs|
  {
    if reqs != [] {
      var s1 := Step(secret, s, reqs[0]).next;
      assert Run(secret, s, reqs) == Run(secret, s1, reqs[1..]);
      StepGrows(secret, s, reqs[0]);
      RunGrows(secret, s1, reqs[1..]);
      GrowsTransitive(s, s1, Run(secret, s1, reqs[1..]));
    }
  }

  /** `Run` after the first request. */
  lemma RunUnfold(secret: string, s: Store, reqs: seq<Request>)
    requires s.Valid() && Admissible(secret, s, reqs) && reqs != []
    ensures Fresh(s, reqs[0]) && Admissible(secret, Step(secret, s, reqs[0]).next, reqs[1..])
    ensures Run(secret, s, reqs) == Run(secret, Step(secret, s, reqs[0]).next, reqs[1..])
  {
  }

  /** `Replies` after the first request. */
  lemma RepliesUnfold(secret: string, s: Store, reqs: seq<Request>, k: nat)
    requires s.Valid() && Admissible(secret, s, reqs) && reqs != []
    ensures Replies(secret, s, reqs)[0] == Step(secret, s, reqs[0]).reply
    ensures k < |reqs| - 1 ==>
      Replies(secret, s, reqs)[k + 1] == Replies(secret, Step(secret, s, reqs[0]).next, reqs[1..])[k]
  {
    var rest := Replies(secret, Step(secret, s, reqs[0]).next, reqs[1..]);
    assert Replies(secret, s, reqs) == [Step(secret, s, reqs[0]).reply] + rest;
  }

  /** Over any sequence of requests, a token that was present and is gone
      was consumed by a successful verification or reset naming it. */
  lemma {:induction false} RunConsumes(secret: string, s: Store, reqs: seq<Request>, t: TokenValue)
    requires s.Valid() && Admissible(secret, s, reqs)
    requires t in s.tokens && t !in Run(secret, s, reqs).tokens
    ensures exists k :: 0 <= k < |reqs| && Consumes(reqs[k], t) && !Replies(secret, s, reqs)[k].Failed()
    decreases |reqs|
  {
    var s1 := Step(secret, s, reqs[0]).next;
    StepConsumes(secret, s, reqs[0], t, "");
    RunUnfold(secret, s, reqs);
    if t !in s1.tokens {
      RepliesUnfold(secret, s, reqs, 0);
    } else {
      RunConsumes(secret, s1, reqs[1..], t);
      var k :| 0 <= k < |reqs[1..]| && Consumes(reqs[1..][k], t) && !Replies(secret, s1, reqs[1..])[k].Failed();
      RepliesUnfold(secret, s, reqs, k);
    }
  }

  /** Over any sequence of requests, an account that became active was
      activated by a successful verification. */
  lemma {:induction false} RunActivates(secret: string, s: Store, reqs: seq<Request>, id: UserId)
    requires s.Valid() && Admissible(secret, s, reqs)
    requires id in s.accounts && !s.accounts[id].isActive
    requires id in Run(secret, s, reqs).accounts && Run(secret, s, reqs).accounts[id].isActive
    ensures exists k :: 0 <= k < |reqs| && reqs[k].VerifyRequest? && Replies(secret, s, reqs)[k] == Done(Verified)
    decreases |reqs|
  {
    var s1 := Step(secret, s, reqs[0]).next;
    RunUnfold(secret, s, reqs);
    StepConsumes(secret, s, reqs[0], "", id);
    StepGrows(secret, s, reqs[0]);
    assert id in s1.accounts;
    if s1.accounts[id].isActive {
      RepliesUnfold(secret, s, reqs, 0);
    } else {
      RunActivates(secret, s1, reqs[1..], id);
      var k :| 0 <= k < |reqs[1..]| && reqs[1..][k].VerifyRequest? && Replies(secret, s1, reqs[1..])[k] == Done(Verified);
      RepliesUnfold(secret, s, reqs, k);
    }
  }
}
