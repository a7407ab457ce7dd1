# node-auth-jwt: account and one-time-token lifecycle

A Dafny model of the authentication controllers of `node-auth-jwt`
(controllers/authControllers.js) and the user lookup service
(services/user.services.js).

The controllers act on two MongoDB collections:

- `User`: account id to `{ email, password, isActive }`, where `password` holds the bcrypt digest.
- `Token`: one-time token value to the id of its owner, the `_userId` field.

Each of the seven handlers runs a fixed sequence of guards and answers at the
first one that fails. Only a request that passes every guard writes:

- `registerUser` inserts an account and a token row.
- `verifyUserRegistration` sets `isActive` to true and deletes the token.
- `resendVerificationToken` and `sendPasswordResetToken` insert a token row.
- `passwordReset` replaces the hash and deletes the token.
- `changePassword` replaces the hash.

Files:

- `auth_spec.dfy` (module `AuthSpec`) states each handler as a pure function from the stores before the request to the reply and the stores after it. The contracts give its success condition as an if-and-only-if, name each error message with the condition that triggers it, say that a failed request changes nothing, and say what a successful one writes.
- `auth_controllers.dfy` (module `AuthControllers`) is the imperative form of the same code: a class holding the two collections as `map` fields. Its methods check their guards with early returns and then update the fetched record, and each is proved to end in exactly the outcome `AuthSpec` gives.
- `auth_properties.dfy` relates several calls (a token is single-use; a password change switches which password logs in; and so on).
- `lifecycle.dfy` proves, by induction over any sequence of requests, that the store invariant holds throughout. It also proves that `isActive` never goes back to false, that accounts are never removed, and that a token row disappears only through a successful verification or reset that names it.
- `scenarios.dfy` runs concrete requests from an empty database.
- `user_services.dfy` holds the three read-only queries.
- `crypto.dfy` keeps bcrypt and jsonwebtoken symbolic. A digest is a value of its own type; `Compare(p, Hash(p, s))` always holds; a session token records the id it asserts.

Collaborators become inputs of each handler:

- Joi schema validation becomes the boolean `valid`.
- The salt `passwordEncrypt` draws becomes `salt`.
- The ObjectId the store assigns becomes `newId`.
- The value `randomTokenGen` draws becomes `newToken`.
- The `_id` claim the JWT middleware puts on `req.user` becomes `userId`.

The generated id and token are required to be unused, which is what the generators are relied on to guarantee.

The model follows the code as written, including these behaviours:

- The owner check at line 106 of authControllers.js is inverted. It rejects a token whose owner IS the account named by email. When ids compare by value, an account can never be verified with its own token, and an inactive account can be verified with any other account's token, which is then consumed (`VerifyRejectsOwnToken`, `VerifyAcceptsForeignToken`, `Scenarios.CrossActivationAlice`, `Scenarios.CrossActivationBob`).
- The two login failures answer with different messages, 'Email or password is wrong' and 'Invalid password', so the reply reveals whether an email is registered.
- `passwordReset` never checks that the token belongs to the account named by email. Any live token, verification tokens included, resets any account.
- Line 212 hashes the body's `password` field, not `newPassword`. When the body has no `password` field, hashing fails and the catch block answers 400 before anything is saved (`Fault`).
- Resending a verification token leaves the earlier tokens valid.
- Login does not look at `isActive`. Among the lookups, only `getUser` refuses inactive accounts.
- `getActiveUsers` does not filter on `isActive`.
- `getUser` rethrows `Error(err)`, so its message reads 'Error: User not found or not active'.

## Model

| member | source | states |
|---|---|---|
| Crypto.CompareHash | controllers/authControllers.js:72 | a password always matches a digest made from it with any salt, and in this model no other password does |
| Store.FindByEmail | controllers/authControllers.js:26 | `findOne({ email })` on a store with unique emails finds exactly the account whose address is `email`, and nothing when there is none |
| AuthSpec.IssueToken | controllers/authControllers.js:44 | `randomTokenGen(user)` adds one token row owned by the account, keeps every other row and leaves the accounts untouched; the same insertion serves lines 146 and 171 |
| Store.InsertAccount | controllers/authControllers.js:26-46 | inserting an account whose email is new, with one new token owned by it, keeps one account per email and an existing owner for every token, and that token is the account's only one |
| AuthSpec.Register | controllers/authControllers.js:18-55 | a request failing its schema gets the schema's reply with nothing changed; an email already present gives 'E-Mail already exists' with both stores unchanged; success holds exactly when the request is valid and the email is new; it adds exactly one inactive account holding `Hash(password, salt)`, which `Compare` accepts for the password; all other accounts and tokens stay as they were; exactly one token is owned by the new id; the reply is 201 with the saved account |
| AuthSpec.Login | controllers/authControllers.js:57-80 | a request failing its schema gets the schema's reply (the first guard); returns a session token exactly when some account has the email and `Compare(password, hash)` holds; that token is signed with the secret for that account; an unknown email gives 'Email or password is wrong'; a wrong password gives 'Invalid password'; the stores cannot change |
| AuthSpec.Verify | controllers/authControllers.js:82-122 | a request failing its schema gets the schema's reply (the first guard); the guards answer in the source's order: a missing token gives 'Unable to find a matching token', then an unknown email 'User not found ', then a token owned by that account 'Token does not match user' (line 106 as written), then an active account 'User already verified'; any failure leaves both stores unchanged; success holds exactly when the token exists, an account has the email, the token's owner is NOT that account (line 106 as written) and the account is inactive; success sets that account's `isActive` to true and deletes exactly that token; no account is removed and no field other than `isActive` (and only to true) changes |
| AuthSpec.Resend | controllers/authControllers.js:124-152 | a request failing its schema gets the schema's reply (the first guard); an unknown email or an active account is rejected with its own message and nothing changes; otherwise one new token for that account is added, every earlier token keeps its owner, the accounts are untouched, and the reply carries the new token |
| AuthSpec.SendResetToken | controllers/authControllers.js:154-177 | a request failing its schema gets the schema's reply (the first guard); succeeds exactly when an account has the email, whether or not it is active; an unknown email is rejected with nothing changed; success adds one token owned by that account and keeps all others |
| AuthSpec.PasswordReset | controllers/authControllers.js:179-221 | a request failing its schema gets the schema's reply (the first guard); fails with the stores unchanged, in this order: a missing token gives 'Unable to find a matching token', an unknown email 'User with this email not found', `Compare(newPassword, currentHash)` 'You can't use this password again', and a body without `password` the caught hashing error; success never depends on the token's owner; it replaces the hash of the account named by email with `Hash` of the body's `password` and deletes exactly that token |
| AuthSpec.ChangePassword | controllers/authControllers.js:223-256 | a request failing its schema gets the schema's reply (the first guard); next, a `newPassword` equal to `oldPassword` is rejected before any store access; then a missing account gives 'User not found' and a failing `Compare(oldPassword, hash)` gives 'Current password is wrong'; success holds exactly when the account exists and `Compare(oldPassword, hash)` holds; success replaces only that account's hash, with `Hash(newPassword)`, and leaves the token store untouched; failures change nothing |
| AuthControllers.AuthController.SaveToken | controllers/authControllers.js:44 | `randomTokenGen` inserts one `{ _userId, token }` row and touches nothing else |
| AuthControllers.AuthController.RegisterUser | controllers/authControllers.js:18-55 | the in-place handler keeps the store invariant and ends with exactly the reply and stores of `AuthSpec.Register` |
| AuthControllers.AuthController.LoginUser | controllers/authControllers.js:57-80 | reads the stores only and replies exactly as `AuthSpec.Login` |
| AuthControllers.AuthController.VerifyUserRegistration | controllers/authControllers.js:82-122 | the in-place handler keeps the store invariant and ends exactly as `AuthSpec.Verify` |
| AuthControllers.AuthController.ResendVerificationToken | controllers/authControllers.js:124-152 | the in-place handler keeps the store invariant and ends exactly as `AuthSpec.Resend` |
| AuthControllers.AuthController.SendPasswordResetToken | controllers/authControllers.js:154-177 | the in-place handler keeps the store invariant and ends exactly as `AuthSpec.SendResetToken` |
| AuthControllers.AuthController.PasswordReset | controllers/authControllers.js:179-221 | the in-place handler keeps the store invariant and ends exactly as `AuthSpec.PasswordReset` |
| AuthControllers.AuthController.ChangePassword | controllers/authControllers.js:223-256 | the in-place handler keeps the store invariant and ends exactly as `AuthSpec.ChangePassword` |
| AuthProperties.VerifyRejectsOwnToken | controllers/authControllers.js:106-108 | verifying an account with a token it owns always gives 'Token does not match user' and changes nothing |
| AuthProperties.VerifyAcceptsForeignToken | controllers/authControllers.js:106-117 | a token owned by a different account activates an inactive account and is consumed |
| AuthProperties.VerifyConsumesToken | controllers/authControllers.js:91-117 | after a successful verification, the same request gets 'Unable to find a matching token' and changes nothing |
| AuthProperties.VerifyActiveAccountFails | controllers/authControllers.js:110-112 | every verification naming an already active account fails and changes nothing |
| AuthProperties.ResendKeepsEarlierTokens | controllers/authControllers.js:146 | after a resend, every earlier token is still present and verifies exactly as before |
| AuthProperties.ResetIgnoresTokenOwner | controllers/authControllers.js:188-215 | a reset succeeds with any live token, whoever owns it, when the other guards pass |
| AuthProperties.ResetStoresBodyPassword | controllers/authControllers.js:205-213 | after a successful reset, login succeeds with the body's `password`; when `newPassword` differs from it, login with `newPassword` gives 'Invalid password' |
| AuthProperties.ChangePasswordSwitchesLogin | controllers/authControllers.js:244-251 | after a successful change, login with the new password returns the account's session token, and login with the old one gives 'Invalid password' |
| AuthProperties.ChangeSamePasswordIgnoresStores | controllers/authControllers.js:231-235 | an unchanged password is rejected with the same reply whatever the stores hold, since it is decided before any store access |
| Lifecycle.Run | controllers/authControllers.js:18-256 | the store invariant (one account per email, every token owned by an existing account) holds after any sequence of requests |
| Lifecycle.StepGrows | controllers/authControllers.js:18-256 | no handler removes an account, changes its email or makes an active account inactive |
| Lifecycle.StepFailureChangesNothing | controllers/authControllers.js:18-256 | a failed request, and every login, leaves both stores unchanged |
| Lifecycle.StepConsumes | controllers/authControllers.js:114-117 | a token row disappears only through a successful verification or reset naming it; only a successful verification activates an account |
| Lifecycle.RunGrows | controllers/authControllers.js:114 | over any sequence of requests, accounts are never removed, keep their email, and once active stay active |
| Lifecycle.RunConsumes | controllers/authControllers.js:117 | over any sequence of requests, a token that was present and is gone was consumed by a successful verification or reset naming it |
| Lifecycle.RunActivates | controllers/authControllers.js:114 | over any sequence of requests, an account that became active was activated by a successful verification |
| Scenarios.AliceWalkthrough | controllers/authControllers.js:18-256 | register, verify with the account's own token (refused, account stays inactive), login, change password, then log in with both passwords and register the same email again: each step gives the expected answer |
| Scenarios.TwoRegisteredState | controllers/authControllers.js:26-51 | registering alice and then bob gives two inactive accounts, each holding its hashed password, and one token per account |
| Scenarios.CrossActivationAlice | controllers/authControllers.js:91-117 | in that database, alice is activated by bob's token, and only bob's token is deleted |
| Scenarios.CrossActivationBob | controllers/authControllers.js:91-117 | bob is then activated by alice's token, and the token store ends empty |
| Scenarios.ResetWithVerificationToken | controllers/authControllers.js:188-215 | a verification token works as a reset token; without a body `password` the reset fails with nothing changed; with a reused password it is refused; otherwise the body's `password` is stored and the token is burnt |
| UserServices.FindOne | services/user.services.js:5 | `findOne(query)` returns a matching account, and nothing exactly when no account matches |
| UserServices.GetUser | services/user.services.js:3-13 | fails with 'Error: User not found or not active' when no account matches or every match is inactive; succeeds exactly when the account `findOne` picks is active, and then returns that account exactly as stored, so an inactive pick always fails |
| UserServices.Find | services/user.services.js:17 | `User.find(query)` returns exactly the matching accounts, as stored; `getActiveUsers` makes the same call at line 26 |
| UserServices.GetUsers | services/user.services.js:15-22 | returns exactly the matching accounts, unchanged |
| UserServices.GetActiveUsers | services/user.services.js:24-31 | returns exactly what `getUsers` returns for the same query |
| UserServices.GetActiveUsersKeepsInactive | services/user.services.js:26 | a matching inactive account is in the result of `getActiveUsers` |
| UserServices.GetUserById | services/user.services.js:5-9 | looking an active account up by its id returns that account unchanged |
| UserServices.GetUserByIdInactive | services/user.services.js:6-7 | looking an inactive account up by its id fails |

## Left out

- Server bootstrap, environment loading, the MongoDB connection, the Express routing tables and the API documentation (index.js, config/db.js, routes/auth.js, routes/post.js, docs/swaggerOptions.js): these are I/O and configuration with no logic of their own.
- routes/verifyJwtToken.js: signature checking is not modelled. Its result is the `userId` input of `changePassword`.
- The Joi schemas: utils/validation.js is not part of this model. Each schema's verdict is the boolean `valid`, and its message is not modelled, so `res.send` and `res.json` of that message are both `Invalid`.
- models/User.js and models/Token.js are not part of this model. A new account is taken to start with `isActive` false and to hold only the fields above. The id and token generators are taken to return unused values.
- utils/generateToken.js and utils/passwordEncrypt.js are not part of this model. The value `randomTokenGen` returns is taken to be the token value. Only one failure of `passwordEncrypt` is modelled, a missing password in `passwordReset`, and it is assumed to throw.
- The exception paths: the `passwordEncrypt` failure in `registerUser` (lines 35-37), and the catch blocks that turn store exceptions into 400 replies (lines 52-53, 119-120, 149-150, 174-175, 218-219, 253-254). The store is taken never to fail.
- The `!token` branch of `registerUser` (lines 47-49): `randomTokenGen` always yields a token here, so the double send is unreachable.
- Async/await sequencing and concurrent races, such as duplicate registrations or double consumption of a token: each handler is atomic.
- Email delivery (only comments at lines 50, 147, 172 and 216) and HTTP mechanics beyond the status and body of a reply.
- Crypto.CompareHash: digests are modelled as collision-free, so a password matches only the digest made from it. bcrypt reads only the first 72 bytes of a password, so two passwords that share those bytes match the same digest in the program but not in the model. These members rely on distinct passwords not colliding: the old-password half of `AuthProperties.ChangePasswordSwitchesLogin`, the `newPassword` half of `AuthProperties.ResetStoresBodyPassword`, the old-password login in `Scenarios.AliceWalkthrough`, and the reuse check at lines 205-207 as `AuthSpec.PasswordReset` states it.
- Crypto.Sign: `jwt.sign` (line 78) also adds an `iat` issue-time claim. The model leaves it out, so two logins of one account give equal session tokens in the model and different ones in the program.
- AuthSpec.Verify: line 106 compares `token._userId` and `user._id` with `!==`. The model reads this as value equality. With Mongoose ObjectId objects it is a reference comparison, under which the guard would never fire; that reading is not modelled.
- UserServices.Find: a query constrains only `_id`, `email` and `isActive`, each by equality; other fields and Mongo's query operators are not modelled.
- UserServices.GetUser: which account `findOne` picks when several match is the store's choice, and the model leaves it unspecified. The order of the `find` results in `getUsers` and `getActiveUsers` is not modelled either.
