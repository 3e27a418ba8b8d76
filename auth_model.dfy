/**
 * What `AuthService` does, as functions of the user table: each operation
 * maps the table before the call, its arguments, the salts argon2 draws and
 * the clock reading the JWT signer stamps, to a `Step` (the tokens or the
 * error thrown, and the table after the call). The lemmas state the
 * service's promises about these functions.
 */
module AuthModel {
  import opened Wrappers
  import opened Errors
  import Argon
  import opened Jwt
  import opened UserTable

  /** The values of the JWT_SECRET and JWT_REFRESH_SECRET settings. */
  const JwtSecret: string := "jwt-access-secret"
  const JwtRefreshSecret: string := "jwt-refresh-secret"

  /** The `expiresIn` of the access and the refresh token. */
  const AccessExpiresIn: string := "15m"
  const RefreshExpiresIn: string := "7d"

  const InvalidCredentials: string := "Invalid Credentials"
  const CredentialsAreInvalid: string := "Credentials are invalid"

  datatype AuthDto = AuthDto(email: string, password: string)

  /** `{ access_token, refresh_token }`. */
  datatype Tokens = Tokens(accessToken: Token, refreshToken: Token)

  /** The `catch` block of `signup` and `signin`: a Prisma known-request
      error becomes a Forbidden error, anything else is rethrown. */
  function Catch(e: Error): (r: Error)
    ensures !r.PrismaKnown?
    ensures !e.PrismaKnown? ==> r == e
  {
    if e.PrismaKnown? then Forbidden(CredentialsAreInvalid) else e
  }

  /** `getTokens`: both tokens carry the claims `{ sub: userId, email }`; the
      access token is signed with the access secret for 15 minutes, the
      refresh token with the refresh secret for 7 days. */
  function GetTokens(userId: nat, email: string, now: nat): (t: Tokens)
    ensures Decode(t.accessToken, JwtSecret) == Some(JwtPayload(userId, email))
    ensures Decode(t.refreshToken, JwtRefreshSecret) == Some(JwtPayload(userId, email))
    ensures Decode(t.accessToken, JwtRefreshSecret) == None
    ensures Decode(t.refreshToken, JwtSecret) == None
    ensures t.accessToken.expiresIn == AccessExpiresIn && t.refreshToken.expiresIn == RefreshExpiresIn
    ensures t.accessToken != t.refreshToken
  {
    var payload := JwtPayload(userId, email);
    Tokens(
      Sign(payload, JwtSecret, AccessExpiresIn, now),
      Sign(payload, JwtRefreshSecret, RefreshExpiresIn, now))
  }

  /** `updateRtHash`: write the digest of `rt` into the row's `hashedRt`. */
  function UpdateRtHash(db: Db, userId: nat, rt: Token, salt: nat): (s: Step<()>)
    ensures s.result.Err? ==> s.result.error.PrismaKnown? && s.db == db
    ensures s.result.Ok? ==>
      && userId in db.rows
      && s.db == WithRtHash(db, userId, rt, salt)
  {
    var s := Update(db, userId, UserUpdate(None, Some(Some(Argon.Hash(rt, salt)))));
    match s.result
    case Ok(_) => Step(Ok(()), s.db)
    case Err(e) => Step(Err(e), s.db)
  }

  /** `signup`: hash the password, create the row, issue a token pair and
      store the digest of its refresh token. */
  function Signup(db: Db, dto: AuthDto, pwSalt: nat, rtSalt: nat, now: nat): (s: Step<Tokens>)
    ensures s.result.Err? ==> s.result.error == Forbidden(CredentialsAreInvalid)
    ensures s.result.Ok? ==>
      && !EmailTaken(db.rows, dto.email)
      && s.result.value == GetTokens(db.nextId, dto.email, now)
      && db.nextId in s.db.rows
      && Argon.Verify(s.db.rows[db.nextId].hash, dto.password)
      && s.db.rows[db.nextId].hashedRt == Some(Argon.Hash(s.result.value.refreshToken, rtSalt))
  {
    var created := Create(db, dto.email, Argon.Hash(dto.password, pwSalt));
    match created.result
    case Err(e) => Step(Err(Catch(e)), created.db)
    case Ok(user) =>
      var tokens := GetTokens(user.id, user.email, now);
      var stored := UpdateRtHash(created.db, user.id, tokens.refreshToken, rtSalt);
      match stored.result
      case Err(e) => Step(Err(Catch(e)), stored.db)
      case Ok(_) => Step(Ok(tokens), stored.db)
  }

  /** `signin`: find the row by email, check the password, issue a token
      pair and store the digest of its refresh token. */
  ghost function Signin(db: Db, dto: AuthDto, rtSalt: nat, now: nat): (s: Step<Tokens>)
    ensures s.result.Err? ==> s.result.error.Forbidden?
    ensures s.result.Err? && s.result.error == Forbidden(InvalidCredentials) ==> s.db == db
    ensures s.result.Ok? ==>
      var user := FindByEmail(db, dto.email);
      && user.Some?
      && Argon.Verify(user.value.hash, dto.password)
      && s.result.value == GetTokens(user.value.id, dto.email, now)
      && user.value.id in db.rows
      && s.db == WithRtHash(db, user.value.id, s.result.value.refreshToken, rtSalt)
  {
    match FindByEmail(db, dto.email)
    case None => Step(Err(Catch(Forbidden(InvalidCredentials))), db)
    case Some(user) =>
      if !Argon.Verify(user.hash, dto.password) then
        Step(Err(Catch(Forbidden(InvalidCredentials))), db)
      else
        var tokens := GetTokens(user.id, user.email, now);
        var stored := UpdateRtHash(db, user.id, tokens.refreshToken, rtSalt);
        match stored.result
        case Err(e) => Step(Err(Catch(e)), stored.db)
        case Ok(_) => Step(Ok(tokens), stored.db)
  }

  /** The row stored under `id` after its refresh-token digest is replaced. */
  function WithRtHash(db: Db, id: nat, rt: Token, salt: nat): Db
    requires id in db.rows
  {
    Db(db.rows[id := db.rows[id].(hashedRt := Some(Argon.Hash(rt, salt)))], db.nextId)
  }

  // ---------------------------------------------------------------------
  // The catch block

  /** Known-request errors all become the same Forbidden error. */
  lemma CatchKnownRequest(code: KnownRequestError)
    ensures Catch(PrismaKnown(code)) == Forbidden(CredentialsAreInvalid)
  {
  }

  /** Every other error passes through unchanged. */
  lemma CatchRethrows(e: Error)
    requires !e.PrismaKnown?
    ensures Catch(e) == e
  {
  }

  // ---------------------------------------------------------------------
  // updateRtHash

  /** Only `hashedRt` of the row with that id changes, to a digest that
      verifies against `rt` and nothing else; a missing id is a P2025
      error and writes nothing. */
  lemma UpdateRtHashOnlyHashedRt(db: Db, userId: nat, rt: Token, salt: nat)
    requires Invariant(db)
    ensures var s := UpdateRtHash(db, userId, rt, salt);
      && (userId !in db.rows ==> s.result == Err(PrismaKnown(RecordNotFound)) && s.db == db)
      && (userId in db.rows ==>
            && s.result == Ok(())
            && s.db == WithRtHash(db, userId, rt, salt)
            && s.db.rows[userId].hashedRt.Some?
            && (forall t :: Argon.Verify(s.db.rows[userId].hashedRt.value, t) <==> t == rt))
      && Invariant(s.db)
  {
    var data := UserUpdate(None, Some(Some(Argon.Hash(rt, salt))));
    UpdateOutcome(db, userId, data);
    if userId in db.rows {
      var u := db.rows[userId];
      assert Apply(u, data).email == u.email;
    }
  }

  // ---------------------------------------------------------------------
  // signup

  /** An email already held: Forbidden, no tokens, nothing written. */
  lemma SignupDuplicateEmail(db: Db, dto: AuthDto, pwSalt: nat, rtSalt: nat, now: nat)
    requires Invariant(db)
    requires EmailTaken(db.rows, dto.email)
    ensures Signup(db, dto, pwSalt, rtSalt, now) == Step(Err(Forbidden(CredentialsAreInvalid)), db)
  {
    CreateOutcome(db, dto.email, Argon.Hash(dto.password, pwSalt));
  }

  /** A fresh email: exactly one new row under a fresh id, holding that
      email and a password digest that verifies against the password, whose
      `hashedRt` verifies against the returned refresh token; the token pair
      is the one `getTokens` makes for the new id; no other row changes. */
  lemma SignupFreshEmail(db: Db, dto: AuthDto, pwSalt: nat, rtSalt: nat, now: nat)
    requires Invariant(db)
    requires !EmailTaken(db.rows, dto.email)
    ensures var s := Signup(db, dto, pwSalt, rtSalt, now);
      var id := db.nextId;
      && id !in db.rows
      && s.result == Ok(GetTokens(id, dto.email, now))
      && s.db.rows.Keys == db.rows.Keys + {id}
      && |s.db.rows| == |db.rows| + 1
      && (forall j | j in db.rows :: s.db.rows[j] == db.rows[j])
      && s.db.rows[id].email == dto.email
      && (forall j | j in s.db.rows && s.db.rows[j].email == dto.email :: j == id)
      && Argon.Verify(s.db.rows[id].hash, dto.password)
      && s.db.rows[id].hashedRt.Some?
      && Argon.Verify(s.db.rows[id].hashedRt.value, s.result.value.refreshToken)
      && Invariant(s.db)
  {
    var hash := Argon.Hash(dto.password, pwSalt);
    CreateOutcome(db, dto.email, hash);
    var created := Create(db, dto.email, hash);
    var id := db.nextId;
    var tokens := GetTokens(id, dto.email, now);
    UpdateRtHashOnlyHashedRt(created.db, id, tokens.refreshToken, rtSalt);
    var s := Signup(db, dto, pwSalt, rtSalt, now);
    assert s.db == WithRtHash(created.db, id, tokens.refreshToken, rtSalt);
    assert s.db.rows.Keys == db.rows.Keys + {id};
  }

  /** Signup keeps emails unique and the table well formed, whatever happens. */
  lemma SignupKeepsInvariant(db: Db, dto: AuthDto, pwSalt: nat, rtSalt: nat, now: nat)
    requires Invariant(db)
    ensures Invariant(Signup(db, dto, pwSalt, rtSalt, now).db)
  {
    if EmailTaken(db.rows, dto.email) {
      SignupDuplicateEmail(db, dto, pwSalt, rtSalt, now);
    } else {
      SignupFreshEmail(db, dto, pwSalt, rtSalt, now);
    }
  }

  /** Signing up twice with one email: the second call fails with Forbidden
      and adds no second row, whatever password it carries. */
  lemma SignupTwice(db: Db, dto: AuthDto, again: AuthDto, s1: nat, s2: nat, s3: nat, s4: nat, t1: nat, t2: nat)
    requires Invariant(db)
    requires !EmailTaken(db.rows, dto.email)
    requires again.email == dto.email
    ensures var first := Signup(db, dto, s1, s2, t1);
      && first.result.Ok?
      && Signup(first.db, again, s3, s4, t2) == Step(Err(Forbidden(CredentialsAreInvalid)), first.db)
  {
    SignupFreshEmail(db, dto, s1, s2, t1);
    var first := Signup(db, dto, s1, s2, t1);
    assert first.db.rows[db.nextId].email == again.email;
    SignupDuplicateEmail(first.db, again, s3, s4, t2);
  }

  // ---------------------------------------------------------------------
  // signin

  /** An email held by no row: Forbidden, no tokens, nothing written. */
  lemma SigninUnknownEmail(db: Db, dto: AuthDto, rtSalt: nat, now: nat)
    requires !EmailTaken(db.rows, dto.email)
    ensures Signin(db, dto, rtSalt, now) == Step(Err(Forbidden(InvalidCredentials)), db)
  {
  }

  /** A password the stored digest rejects: Forbidden, no tokens, nothing
      written, so `hashedRt` keeps its old value. */
  lemma SigninWrongPassword(db: Db, dto: AuthDto, id: nat, rtSalt: nat, now: nat)
    requires Invariant(db)
    requires id in db.rows && db.rows[id].email == dto.email
    requires !Argon.Verify(db.rows[id].hash, dto.password)
    ensures Signin(db, dto, rtSalt, now) == Step(Err(Forbidden(InvalidCredentials)), db)
  {
    var found := FindByEmail(db, dto.email);
    EmailsUnique(db, id, found.value.id);
  }

  /** The right password: the pair `getTokens` makes for that row, and only
      that row's `hashedRt` changes, to a digest of the new refresh token. */
  lemma SigninSuccess(db: Db, dto: AuthDto, id: nat, rtSalt: nat, now: nat)
    requires Invariant(db)
    requires id in db.rows && db.rows[id].email == dto.email
    requires Argon.Verify(db.rows[id].hash, dto.password)
    ensures var s := Signin(db, dto, rtSalt, now);
      && s.result == Ok(GetTokens(id, dto.email, now))
      && s.db == WithRtHash(db, id, s.result.value.refreshToken, rtSalt)
      && Argon.Verify(s.db.rows[id].hashedRt.value, s.result.value.refreshToken)
      && Invariant(s.db)
  {
    var found := FindByEmail(db, dto.email);
    EmailsUnique(db, id, found.value.id);
    UpdateRtHashOnlyHashedRt(db, id, GetTokens(id, dto.email, now).refreshToken, rtSalt);
  }

  /** Signin keeps emails unique and the table well formed, whatever happens. */
  lemma SigninKeepsInvariant(db: Db, dto: AuthDto, rtSalt: nat, now: nat)
    requires Invariant(db)
    ensures Invariant(Signin(db, dto, rtSalt, now).db)
  {
    if EmailTaken(db.rows, dto.email) {
      var found := FindByEmail(db, dto.email);
      var id := found.value.id;
      if Argon.Verify(db.rows[id].hash, dto.password) {
        SigninSuccess(db, dto, id, rtSalt, now);
      }
    }
  }

  // ---------------------------------------------------------------------
  // Sequences of calls

  /** Signing up and then signing in with the same credentials succeeds, and
      the access token's subject claim is the id of the row signup created. */
  lemma SignupThenSignin(db: Db, dto: AuthDto, pwSalt: nat, rtSalt1: nat, rtSalt2: nat, t1: nat, t2: nat)
    requires Invariant(db)
    requires !EmailTaken(db.rows, dto.email)
    ensures var up := Signup(db, dto, pwSalt, rtSalt1, t1);
      var s := Signin(up.db, dto, rtSalt2, t2);
      && up.result.Ok?
      && s.result.Ok?
      && Decode(s.result.value.accessToken, JwtSecret) == Some(JwtPayload(db.nextId, dto.email))
      && Decode(s.result.value.refreshToken, JwtRefreshSecret) == Some(JwtPayload(db.nextId, dto.email))
  {
    SignupFreshEmail(db, dto, pwSalt, rtSalt1, t1);
    var up := Signup(db, dto, pwSalt, rtSalt1, t1);
    SigninSuccess(up.db, dto, db.nextId, rtSalt2, t2);
  }

  /** Issuing a new pair invalidates the refresh token issued before it: a
      signin at a later instant leaves a `hashedRt` that the refresh token
      returned by signup no longer verifies against, while the new one does. */
  lemma SigninSupersedesSignupToken(db: Db, dto: AuthDto, pwSalt: nat, rtSalt1: nat, rtSalt2: nat, t1: nat, t2: nat)
    requires Invariant(db)
    requires !EmailTaken(db.rows, dto.email)
    requires t1 != t2
    ensures var up := Signup(db, dto, pwSalt, rtSalt1, t1);
      var s := Signin(up.db, dto, rtSalt2, t2);
      var stored := s.db.rows[db.nextId].hashedRt.value;
      && up.result.Ok? && s.result.Ok?
      && !Argon.Verify(stored, up.result.value.refreshToken)
      && Argon.Verify(stored, s.result.value.refreshToken)
  {
    SignupFreshEmail(db, dto, pwSalt, rtSalt1, t1);
    var up := Signup(db, dto, pwSalt, rtSalt1, t1);
    SigninSuccess(up.db, dto, db.nextId, rtSalt2, t2);
  }

  /** The concrete flow of the signin tests: after signup, a wrong password is
      rejected with Forbidden and leaves the table as signup left it. */
  lemma SignupThenWrongPassword(db: Db, dto: AuthDto, wrong: string, pwSalt: nat, rtSalt1: nat, rtSalt2: nat, t1: nat, t2: nat)
    requires Invariant(db)
    requires !EmailTaken(db.rows, dto.email)
    requires wrong != dto.password
    ensures var up := Signup(db, dto, pwSalt, rtSalt1, t1);
      Signin(up.db, AuthDto(dto.email, wrong), rtSalt2, t2) == Step(Err(Forbidden(InvalidCredentials)), up.db)
  {
    SignupFreshEmail(db, dto, pwSalt, rtSalt1, t1);
    var up := Signup(db, dto, pwSalt, rtSalt1, t1);
    SigninWrongPassword(up.db, AuthDto(dto.email, wrong), db.nextId, rtSalt2, t2);
  }
}
