/** services/user.services.js: three read-only queries over the `User`
    collection. They are functions of the collection, so none of them can
    change it. */
module UserServices {
  import opened Wrappers
  import opened Store

  const NotFoundOrNotActive := "User not found or not active"

  /** The message `getUser` finally throws: its catch block rethrows
      `Error(err)`, which turns the caught error into the string
      "Error: " followed by the original message. */
  const GetUserError := "Error: " + NotFoundOrNotActive

  /** A Mongo query on the fields the controllers use; `None` leaves a
      field unconstrained. */
  datatype Query = Query(id: Option<UserId>, email: Option<string>, isActive: Option<bool>)

  predicate Matches(q: Query, id: UserId, a: Account)
  {
    && (q.id.None? || q.id.value == id)
    && (q.email.None? || q.email.value == a.email)
    && (q.isActive.None? || q.isActive.value == a.isActive)
  }

  /** `User.find(query)`: every matching account (the order of the result
      is not modelled). */
  function Find(accounts: map<UserId, Account>, q: Query): (r: map<UserId, Account>)
    ensures forall id :: id in r <==> id in accounts && Matches(q, id, accounts[id])
    ensures forall id :: id in r ==> r[id] == accounts[id]
  {
    map id | id in accounts && Matches(q, id, accounts[id]) :: accounts[id]
  }

  /** `User.findOne(query)`: one matching account, which one being the
      store's choice, or none when nothing matches. */
  ghost function FindOne(accounts: map<UserId, Account>, q: Query): (r: Option<UserId>)
    ensures r.Some? ==> r.value in accounts && Matches(q, r.value, accounts[r.value])
    ensures r.None? <==> forall id :: id in accounts ==> !Matches(q, id, accounts[id])
  {
    if exists id :: id in accounts && Matches(q, id, accounts[id]) then
      var id :| id in accounts && Matches(q, id, accounts[id]);
      Some(id)
    else
      None
  }

  /** `getUser(query)` (lines 3-13): the account `findOne` picks, as it is
      stored, or the error when there is none or it is not active. It is
      the only lookup that refuses inactive accounts. */
  ghost function GetUser(accounts: map<UserId, Account>, q: Query): (r: Result<(UserId, Account), string>)
    ensures r.Failure? ==> r.error == GetUserError
    ensures (forall id :: id in accounts ==> !Matches(q, id, accounts[id])) ==> r.Failure?
    ensures (forall id :: id in accounts && Matches(q, id, accounts[id]) ==> !accounts[id].isActive) ==> r.Failure?
    ensures r.Success? ==>
      var (id, user) := r.value;
      id in accounts && user == accounts[id] && Matches(q, id, user) && user.isActive
    ensures r.Success? ==> FindOne(accounts, q) == Some(r.value.0)
    ensures FindOne(accounts, q).Some? && accounts[FindOne(accounts, q).value].isActive
      ==> r == Success((FindOne(accounts, q).value, accounts[FindOne(accounts, q).value]))
  {
    match FindOne(accounts, q)
    case None => Failure(GetUserError)
    case Some(id) =>
      if !accounts[id].isActive then Failure(GetUserError) else Success((id, accounts[id]))
  }

  /** `getUsers(query)` (lines 15-22): exactly the matching accounts. */
  function GetUsers(accounts: map<UserId, Account>, q: Query): (r: map<UserId, Account>)
    ensures forall id :: id in r <==> id in accounts && Matches(q, id, accounts[id])
    ensures forall id :: id in r ==> r[id] == accounts[id]
  {
    Find(accounts, q)
  }

  /** `getActiveUsers(query)` (lines 24-31): despite its name, the same
      unfiltered `User.find(query)`. */
  function GetActiveUsers(accounts: map<UserId, Account>, q: Query): (r: map<UserId, Account>)
    ensures r == GetUsers(accounts, q)
  {
    Find(accounts, q)
  }

  /** `getActiveUsers` returns inactive accounts whenever they match. */
  lemma GetActiveUsersKeepsInactive(accounts: map<UserId, Account>, q: Query, id: UserId)
    requires id in accounts && Matches(q, id, accounts[id]) && !accounts[id].isActive
    ensures id in GetActiveUsers(accounts, q) && !GetActiveUsers(accounts, q)[id].isActive
  {
  }

  /** Looking an active account up by its own id always finds it, whatever
      choice `findOne` makes, since it is the only match. */
  lemma GetUserById(accounts: map<UserId, Account>, id: UserId)
    requires id in accounts && accounts[id].isActive
    ensures GetUser(accounts, Query(Some(id), None, None)) == Success((id, accounts[id]))
  {
  }

  /** Looking an inactive account up by id always fails. */
  lemma GetUserByIdInactive(accounts: map<UserId, Account>, id: UserId)
    requires id in accounts && !accounts[id].isActive
    ensures GetUser(accounts, Query(Some(id), None, None)) == Failure(GetUserError)
  {
  }
}
