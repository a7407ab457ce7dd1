/** The two collections the controllers act on: the `User` collection
    (account id to account) and the `Token` collection (one-time token
    value to the id of its owner, the `_userId` field). */
module Store {
  import opened Wrappers
  import opened Crypto

  type UserId = string
  type TokenValue = string

  /** A `User` document; `password` holds the bcrypt digest. */
  datatype Account = Account(email: string, password: Digest, isActive: bool)

  datatype Store = Store(accounts: map<UserId, Account>, tokens: map<TokenValue, UserId>)
  {
    /** The invariant every handler keeps: one account per email (the
        duplicate check in `registerUser`), and every token row names an
        account (tokens are only issued for existing accounts and accounts
        are never deleted). */
    predicate Valid()
    {
      EmailsUnique(accounts) && TokensOwned(accounts, tokens)
    }
  }

  predicate EmailsUnique(accounts: map<UserId, Account>)
  {
    forall i, j :: i in accounts && j in accounts && accounts[i].email == accounts[j].email ==> i == j
  }

  predicate TokensOwned(accounts: map<UserId, Account>, tokens: map<TokenValue, UserId>)
  {
    forall t :: t in tokens ==> tokens[t] in accounts
  }

  /** Account `id` exists and has address `email`. */
  predicate HasEmail(accounts: map<UserId, Account>, id: UserId, email: string)
  {
    id in accounts && accounts[id].email == email
  }

  /** `User.findOne({ email })`: the id of the account with that email. */
  function FindByEmail(accounts: map<UserId, Account>, email: string): (r: Option<UserId>)
    requires EmailsUnique(accounts)
    ensures r.Some? ==> r.value in accounts
    ensures forall id :: HasEmail(accounts, id, email) <==> r == Some(id)
  {
    if exists id :: id in accounts && accounts[id].email == email then
      var id :| id in accounts && accounts[id].email == email;
      Some(id)
    else
      None
  }

  /** The token values a store holds for one account. */
  function TokensOf(tokens: map<TokenValue, UserId>, id: UserId): set<TokenValue>
  {
    set t | t in tokens && tokens[t] == id
  }

  /** Inserting a new account with a new email and one new token owned by
      it keeps the invariant, and that token is the account's only one. */
  lemma InsertAccount(s: Store, id: UserId, a: Account, t: TokenValue)
    requires s.Valid() && id !in s.accounts && t !in s.tokens
    requires forall other :: other in s.accounts ==> s.accounts[other].email != a.email
    ensures Store(s.accounts[id := a], s.tokens[t := id]).Valid()
    ensures TokensOf(s.tokens[t := id], id) == {t}
  {
    assert forall u :: u in s.tokens ==> s.tokens[u] != id;
  }
}
