/**
 * What `UserService` does, as functions of the user table: `getMe` and
 * `getUsers` only read it and return views of rows with the password
 * digest removed; `editUser` spreads a DTO over one row.
 */
module UserModel {
  import opened Wrappers
  import opened Errors
  import Argon
  import Jwt
  import opened UserTable

  const UserNotFound: string := "User not found"

  /** A row after `delete user.hash`. */
  datatype PublicUser = PublicUser(id: nat, email: string, hashedRt: Option<Argon.Digest<Jwt.Token>>)

  /** The fields an edit may override; None leaves the field as it is. */
  datatype EditUserDto = EditUserDto(email: Option<string>)

  function View(u: User): (v: PublicUser)
    ensures WithHash(v, u.hash) == u
  {
    PublicUser(u.id, u.email, u.hashedRt)
  }

  /** Puts a password digest back into a view. */
  function WithHash(v: PublicUser, hash: Argon.Digest<string>): User
  {
    User(v.id, v.email, hash, v.hashedRt)
  }

  /** A view keeps everything of its row except the digest. */
  lemma ViewRoundTrip(u: User)
    ensures WithHash(View(u), u.hash) == u
  {
  }

  /** Two rows have the same view exactly when they differ at most in `hash`. */
  lemma ViewForgetsOnlyHash(u: User, w: User)
    ensures View(u) == View(w) <==> u.(hash := w.hash) == w
  {
  }

  /** `getMe`: BadRequest for an id no row has, otherwise that row's view. */
  function GetMe(db: Db, userId: nat): (r: Result<PublicUser, Error>)
    ensures r.Err? <==> userId !in db.rows
    ensures r.Err? ==> r.error == BadRequest(UserNotFound)
    ensures r.Ok? ==> WithHash(r.value, db.rows[userId].hash) == db.rows[userId]
  {
    match FindById(db, userId)
    case None => Err(BadRequest(UserNotFound))
    case Some(user) => Ok(View(user))
  }

  /** The views of a list of rows, in the same order. */
  function Views(users: seq<User>): (r: seq<PublicUser>)
    ensures |r| == |users|
    ensures forall i | 0 <= i < |r| :: r[i] == View(users[i])
  {
    seq(|users|, i requires 0 <= i < |users| => View(users[i]))
  }

  /** Every row of the list has its view in the result. */
  lemma ViewsComplete(users: seq<User>, u: User)
    requires u in users
    ensures View(u) in Views(users)
  {
    var k :| 0 <= k < |users| && users[k] == u;
    assert Views(users)[k] == View(u);
  }

  /** `getUsers`: one view per stored row, in the order `findMany` lists
      them (increasing id), each with the digest removed. */
  function GetUsers(db: Db): (r: seq<PublicUser>)
    requires Invariant(db)
    ensures |r| == |db.rows|
    ensures forall i | 0 <= i < |r| :: r[i].id in db.rows && WithHash(r[i], db.rows[r[i].id].hash) == db.rows[r[i].id]
    ensures forall id | id in db.rows :: View(db.rows[id]) in r
    ensures forall i, j | 0 <= i < j < |r| :: r[i].id < r[j].id
  {
    var users := FindMany(db);
    forall id | id in db.rows ensures View(db.rows[id]) in Views(users) {
      ViewsComplete(users, db.rows[id]);
    }
    Views(users)
  }

  /** `{ ...dto }` as the `data` of an update. */
  function DtoData(dto: EditUserDto): (data: UserUpdate)
    ensures forall u: User :: Apply(u, data).id == u.id && Apply(u, data).hash == u.hash && Apply(u, data).hashedRt == u.hashedRt
    ensures forall u: User :: Apply(u, data).email == (if dto.email.Some? then dto.email.value else u.email)
  {
    UserUpdate(dto.email, None)
  }

  /** `editUser`: NotFound for an id no row has; otherwise update that row
      with the DTO's fields and return its view. The update's own errors
      are not caught. */
  function EditUser(db: Db, userId: nat, dto: EditUserDto): (s: Step<PublicUser>)
    ensures userId !in db.rows ==> s == Step(Err(NotFound(UserNotFound)), db)
    ensures s.result.Err? ==> s.db == db
    ensures Invariant(db) && s.result.Ok? ==>
      && userId in db.rows
      && s.db.rows.Keys == db.rows.Keys
      && s.db.rows[userId] == Apply(db.rows[userId], DtoData(dto))
      && WithHash(s.result.value, db.rows[userId].hash) == s.db.rows[userId]
      && (forall j | j in db.rows && j != userId :: s.db.rows[j] == db.rows[j])
  {
    match FindById(db, userId)
    case None => Step(Err(NotFound(UserNotFound)), db)
    case Some(user) =>
      var updated := Update(db, user.id, DtoData(dto));
      match updated.result
      case Err(e) => Step(Err(e), updated.db)
      case Ok(u) => Step(Ok(View(u)), updated.db)
  }

  /** An id no row has: NotFound and the table is unchanged. */
  lemma EditUserAbsent(db: Db, userId: nat, dto: EditUserDto)
    requires userId !in db.rows
    ensures EditUser(db, userId, dto) == Step(Err(NotFound(UserNotFound)), db)
  {
  }

  /** A new email held by another row: the unique index fails (P2002), the
      error reaches the caller, and the table is unchanged. */
  lemma EditUserEmailConflict(db: Db, userId: nat, dto: EditUserDto, other: nat)
    requires Invariant(db)
    requires userId in db.rows && other in db.rows && other != userId
    requires dto.email == Some(db.rows[other].email)
    ensures EditUser(db, userId, dto) == Step(Err(PrismaKnown(UniqueConstraintFailed)), db)
  {
    UpdateOutcome(db, userId, DtoData(dto));
  }

  /** Otherwise the row takes the fields the DTO gives, keeps its other
      fields, every other row is untouched, and the view of the new row is
      returned. */
  lemma EditUserApplies(db: Db, userId: nat, dto: EditUserDto)
    requires Invariant(db)
    requires userId in db.rows
    requires dto.email.Some? ==> !EmailHeldByOther(db.rows, dto.email.value, userId)
    ensures var s := EditUser(db, userId, dto);
      var before := db.rows[userId];
      var after := s.db.rows[userId];
      && s.db.rows.Keys == db.rows.Keys
      && s.db.nextId == db.nextId
      && (forall j | j in db.rows && j != userId :: s.db.rows[j] == db.rows[j])
      && after.email == (if dto.email.Some? then dto.email.value else before.email)
      && after.id == before.id && after.hash == before.hash && after.hashedRt == before.hashedRt
      && s.result == Ok(View(after))
      && Invariant(s.db)
  {
    UpdateOutcome(db, userId, DtoData(dto));
  }

  /** Edits keep emails unique and the table well formed, whatever happens. */
  lemma EditUserKeepsInvariant(db: Db, userId: nat, dto: EditUserDto)
    requires Invariant(db)
    ensures Invariant(EditUser(db, userId, dto).db)
  {
    if userId in db.rows {
      UpdateOutcome(db, userId, DtoData(dto));
    }
  }

  /** After a successful edit, `getMe` returns exactly what `editUser` did. */
  lemma EditThenGetMe(db: Db, userId: nat, dto: EditUserDto)
    requires Invariant(db)
    requires userId in db.rows
    requires dto.email.Some? ==> !EmailHeldByOther(db.rows, dto.email.value, userId)
    ensures var s := EditUser(db, userId, dto);
      s.result.Ok? && GetMe(s.db, userId) == s.result
  {
    EditUserApplies(db, userId, dto);
  }
}
