# Auth and user services of a NestJS API, modelled in Dafny

This project models the two services that carry the decision logic of a
NestJS backend. `AuthService` registers accounts, signs users in, and issues
access/refresh JWT pairs. `UserService` reads and edits the user table.

The user table (`prisma.user`) is an in-memory map from id to row. Each row
holds `id`, `email`, the password digest `hash`, and the nullable digest
`hashedRt` of the last refresh token issued. Emails are unique, as the
table's unique index enforces. A violation of that index is Prisma error
P2002; an update of a missing row is P2025. Both are known-request errors.

- argon2 (`argon.hash` / `argon.verify`) is a salted symbolic digest. A
  digest verifies against the plaintext it was made from and nothing else
  (`argon.dfy`).
- `JwtService.signAsync` is symbolic too. A token records its claims,
  `expiresIn`, issued-at instant and signing secret. `Decode` accepts a
  token only under the secret it was signed with (`jwt.dfy`).
- The argon2 salts and the clock reading stamped into tokens are method
  parameters, because argon2 and the JWT signer take them from randomness
  and the clock.
- `JWT_SECRET` and `JWT_REFRESH_SECRET` are two fixed, distinct constants.

Layout:

- `user_table.dfy` (module `UserTable`): the table as a value, `Db`. Each
  store call is a function to a `Step`: the result or the thrown error,
  plus the table afterwards.
- `prisma.dfy` (class `Prisma.UserDelegate`): the same calls on a mutable
  table.
- `auth_model.dfy` (module `AuthModel`): signup, signin, updateRtHash,
  getTokens and the shared catch block as functions of the table. The
  lemmas state the service's promises.
- `auth_service.dfy` (class `Auth.AuthService`): the service as methods
  that run the calls step by step. Each method is proved to produce
  exactly the `AuthModel` outcome.
- `user_model.dfy` and `user_service.dfy`: the same split for `UserService`.
  `getMe` and `getUsers` only read the table, so they are functions.

## Model

| member | source | states |
|---|---|---|
| Argon.Hash | src/auth/auth.service.ts:21 | the digest carries the salt it was made with |
| Argon.Verify | src/auth/auth.service.ts:72 | verifying recomputes the digest of the plaintext with the salt embedded in the stored digest and compares |
| Argon.VerifyHash | src/auth/auth.service.ts:36 | a password or refresh-token digest verifies against the plaintext it was hashed from |
| Argon.VerifyOnlySource | src/auth/auth.service.ts:72-75 | a digest verifies against a plaintext exactly when it is the one hashed, so a wrong password is rejected |
| Argon.SaltedDigestsDiffer | src/auth/auth.service.ts:21 | two hashes of one plaintext under different salts differ, and both still verify |
| Jwt.Sign | src/auth/auth.service.ts:103-110 | a signed token decodes under its secret to the payload and carries the given `expiresIn` and the signing instant |
| Jwt.DecodeSign | src/auth/auth.service.ts:103-110 | a signed token decodes, under its own secret, to the payload it was signed over |
| Jwt.DecodeOtherSecret | src/auth/auth.service.ts:103-110 | a verifier holding a different secret rejects the token |
| Jwt.SignTimeVariant | src/auth/auth.service.ts:102-111 | tokens over the same claims signed at different instants differ |
| UserTable.Create | src/auth/auth.service.ts:39-44 | on failure the error is P2002 and nothing is written; on success the email was free, and one row `{nextId, email, hash, hashedRt: null}` is added, other rows untouched |
| UserTable.FindById | src/user/user.service.ts:16-20 | finds a row exactly when the id is stored, and it is the stored row |
| UserTable.Update | src/auth/auth.service.ts:24-29 | on failure a known-request error and nothing written; on success the id was stored and only that row is replaced, by the old row with the given fields overwritten, keeping id and hash |
| UserTable.FindByEmail | src/auth/auth.service.ts:64-66 | the lookup finds a row exactly when some row holds the email, and the row found holds it |
| UserTable.FindMany | src/user/user.service.ts:29 | lists every stored row exactly once, by increasing id, so the count equals the number of rows |
| UserTable.CreateOutcome | src/auth/auth.service.ts:39-44 | create fails with P2002 exactly when the email is held and then writes nothing; otherwise it adds one row under a fresh id with no refresh digest; emails stay unique |
| UserTable.UpdateOutcome | src/auth/auth.service.ts:24-29 | update fails with P2025 on a missing id or P2002 on an email held by another row, writing nothing; otherwise it replaces only that row; emails stay unique |
| Prisma.UserDelegate.Create | src/auth/auth.service.ts:39-44 | the in-place create leaves the table and returns what `UserTable.Create` describes, keeping the invariant |
| Prisma.UserDelegate.FindUniqueById | src/user/user.service.ts:16-20 | returns the row stored under the id, or nothing |
| Prisma.UserDelegate.FindUniqueByEmail | src/auth/auth.service.ts:64-66 | returns the one row holding the email, or nothing |
| Prisma.UserDelegate.Update | src/auth/auth.service.ts:24-29 | the in-place update leaves the table and returns what `UserTable.Update` describes, keeping the invariant |
| AuthModel.Catch | src/auth/auth.service.ts:51-57 | the error leaving the catch block is never a Prisma known-request error, and a non-Prisma error leaves unchanged |
| AuthModel.UpdateRtHash | src/auth/auth.service.ts:19-30 | on failure a known-request error and nothing written; on success the id was stored and only its `hashedRt` became a digest of `rt` |
| AuthModel.Signup | src/auth/auth.service.ts:33-58 | every failure is Forbidden('Credentials are invalid'); a success means the email was free and yields the `getTokens` pair for the new id, a row whose password digest verifies and whose `hashedRt` is a digest of the returned refresh token |
| AuthModel.Signin | src/auth/auth.service.ts:61-90 | every failure is Forbidden, and Forbidden('Invalid Credentials') writes nothing; a success means the email's row verified the password, yields that row's `getTokens` pair and changes only its `hashedRt` |
| AuthModel.GetTokens | src/auth/auth.service.ts:96-116 | both tokens carry `{sub: userId, email}`; the access token decodes only under JWT_SECRET with lifetime '15m'; the refresh token only under JWT_REFRESH_SECRET with '7d'; the two differ |
| AuthModel.CatchKnownRequest | src/auth/auth.service.ts:51-54 | every Prisma known-request error becomes Forbidden('Credentials are invalid') |
| AuthModel.CatchRethrows | src/auth/auth.service.ts:84-88 | any other error is rethrown unchanged |
| AuthModel.UpdateRtHashOnlyHashedRt | src/auth/auth.service.ts:19-29 | only that row's `hashedRt` changes, to a digest verifying against `rt` and nothing else; a missing id is P2025 and writes nothing; emails stay unique |
| AuthModel.SignupDuplicateEmail | src/auth/auth.service.ts:39-54 | a held email gives Forbidden('Credentials are invalid'), no tokens, and an unchanged table |
| AuthModel.SignupFreshEmail | src/auth/auth.service.ts:33-50 | a fresh email adds exactly one row under a fresh id; its password digest verifies against the password; its `hashedRt` verifies against the returned refresh token; the result is the pair `getTokens` makes for the new id; other rows are untouched |
| AuthModel.SignupKeepsInvariant | src/auth/auth.service.ts:33-58 | signup keeps emails unique whatever the outcome |
| AuthModel.SignupTwice | src/auth/test/integration/auth.service.spec.ts:46-57 | a second signup with the same email fails with Forbidden and adds no second row |
| AuthModel.SigninUnknownEmail | src/auth/auth.service.ts:64-69 | an unheld email gives Forbidden('Invalid Credentials') and writes nothing |
| AuthModel.SigninWrongPassword | src/auth/auth.service.ts:72-75 | a password the stored digest rejects gives Forbidden('Invalid Credentials') and writes nothing, so `hashedRt` is unchanged |
| AuthModel.SigninSuccess | src/auth/auth.service.ts:77-83 | the right password returns the `getTokens` pair for that row and changes only its `hashedRt`, to a digest of the new refresh token |
| AuthModel.SigninKeepsInvariant | src/auth/auth.service.ts:61-90 | signin keeps emails unique whatever the outcome |
| AuthModel.SignupThenSignin | src/auth/test/integration/auth.service.spec.ts:80-93 | signup then signin with the same credentials succeeds; both new tokens carry the id of the row signup created |
| AuthModel.SigninSupersedesSignupToken | src/auth/auth.service.ts:80-81 | after a later signin, the stored `hashedRt` rejects the refresh token signup returned and accepts the new one |
| AuthModel.SignupThenWrongPassword | src/auth/test/integration/auth.service.spec.ts:95-107 | after signup, signin with a different password fails with Forbidden and leaves the table as signup left it |
| Auth.AuthService.UpdateRtHash | src/auth/auth.service.ts:19-30 | hashes `rt`, updates the row, and leaves exactly the `AuthModel.UpdateRtHash` outcome |
| Auth.AuthService.Signup | src/auth/auth.service.ts:33-58 | hash, create, sign, store `hashedRt`, catch: leaves exactly the `AuthModel.Signup` outcome and keeps the invariant |
| Auth.AuthService.Signin | src/auth/auth.service.ts:61-90 | find, verify, sign, store `hashedRt`, catch: leaves exactly the `AuthModel.Signin` outcome and keeps the invariant |
| Auth.AuthService.Logout | src/auth/auth.service.ts:92-94 | logout changes no state |
| Auth.SignupThenLogout | src/auth/test/integration/auth.service.spec.ts:123-145 | after signup and logout, the new row still holds a refresh-token digest, so the test's final expectation does not hold of the service |
| UserModel.View | src/user/user.service.ts:24 | the view holds everything of the row but `hash`: putting the digest back gives the row |
| UserModel.Views | src/user/user.service.ts:31-34 | one view per row, in the same order |
| UserModel.DtoData | src/user/user.service.ts:46 | spreading the DTO writes only the fields it gives: id, hash and `hashedRt` are kept, email is the DTO's if present |
| UserModel.EditUser | src/user/user.service.ts:39-52 | an absent id gives NotFound and nothing written; every failure writes nothing; on a well-formed table a success replaces only that row, by the DTO applied to it, and returns its view |
| UserModel.ViewRoundTrip | src/user/user.service.ts:24 | a view is its row with only `hash` removed; putting the digest back gives the row |
| UserModel.ViewForgetsOnlyHash | src/user/user.service.ts:32 | two rows have the same view exactly when they differ at most in `hash` |
| UserModel.GetMe | src/user/user.service.ts:15-26 | an absent id gives BadRequest('User not found'); otherwise the result is the stored row without `hash` |
| UserModel.GetUsers | src/user/user.service.ts:28-37 | one view per stored row, as many as there are rows, by increasing id, each the row without `hash` |
| UserModel.EditUserAbsent | src/user/user.service.ts:40-42 | an absent id gives NotFound('User not found') and an unchanged table |
| UserModel.EditUserEmailConflict | src/user/user.service.ts:44-47 | a DTO email held by another row makes Prisma's P2002 reach the caller; the table is unchanged |
| UserModel.EditUserApplies | src/user/user.service.ts:44-51 | the row takes the DTO's fields and keeps its others; every other row is untouched; the result is the new row without `hash` |
| UserModel.EditUserKeepsInvariant | src/user/user.service.ts:44-47 | editing keeps emails unique whatever the outcome |
| UserModel.EditThenGetMe | src/user/user.service.ts:39-51 | after a successful edit, `getMe` returns what `editUser` returned |
| Users.UserService.EditUser | src/user/user.service.ts:39-52 | find, then update in place: leaves exactly the `UserModel.EditUser` outcome and keeps the invariant |

## Left out

- Real argon2 hashing, JWT encoding, signature cryptography and expiry
  arithmetic are symbolic (see above). `Jwt.Decode` does not check expiry.
- Randomness and the clock are parameters. Both tokens of a pair carry the
  same clock reading.
- The `Promise.all` in `getTokens` is two sequential calls. The
  concurrency has no effect the model could observe.
- Concurrent requests against one table are not modelled. Each operation
  runs alone.
- Refresh-token rotation (`refreshTokens`) and a `logout(userId)` that
  clears `hashedRt` are not modelled. The controller calls both, and the
  integration test expects logout to clear `hashedRt`. But
  src/auth/auth.service.ts defines no `refreshTokens`, and its `logout`
  takes no argument and only logs. The model follows the code. The test
  calls `logout(4)` and `logout(userFromDb?.id)`, while the service's
  `logout()` takes no argument. `Auth.SignupThenLogout` shows that the
  expectation at src/auth/test/integration/auth.service.spec.ts:138-144
  does not hold of the service as written.
- Auth.AuthService.Logout: the log line it writes is not modelled.
- The only store failures are P2002 and P2025. Connection faults and
  failures inside argon2 or the JWT library never occur in the model. The
  catch block's rethrow path is stated on `AuthModel.Catch`, and it is
  exercised by signin's own Forbidden('Invalid Credentials').
- Autoincrement ids start at 1 and advance only on a successful create. A
  database sequence that skips a value after a failed insert is not
  modelled.
- The Prisma schema and `EditUserDto` are not shown in the source. Rows
  have only the four columns the services touch. `EditUserDto` is one
  optional `email` override, the only user-facing column; omitted fields
  are not written.
- UserTable.FindMany: it assumes the table invariant and lists rows by
  increasing id; `findMany` without `orderBy` promises no order.
- UserModel.GetUsers: it assumes the table invariant. `findMany` without
  `orderBy` depends on the database's order; the model lists rows by
  increasing id.
- `DonationService`, the controllers, the modules, and the `GetUser`
  decorator are framework routing or a pass-through to Prisma, and are
  not part of this model.
