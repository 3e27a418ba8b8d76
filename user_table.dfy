/**
 * The `user` table behind `prisma.user`, as a value: a map from id to row and
 * the next value of the autoincrement id. Each store operation is a function
 * from the table to a `Step`, the outcome of the call together with the table
 * after it. The unique index on `email` is what makes `Create` and `Update`
 * fail with P2002.
 */
module UserTable {
  import opened Wrappers
  import opened Errors
  import Argon
  import Jwt

  /** A row: `hash` is the password digest, `hashedRt` the nullable digest of
      the refresh token most recently issued. */
  datatype User = User(
    id: nat,
    email: string,
    hash: Argon.Digest<string>,
    hashedRt: Option<Argon.Digest<Jwt.Token>>)

  /** The `data` argument of `update`: a field given as None is not written. */
  datatype UserUpdate = UserUpdate(
    email: Option<string>,
    hashedRt: Option<Option<Argon.Digest<Jwt.Token>>>)

  datatype Db = Db(rows: map<nat, User>, nextId: nat)

  /** The outcome of one operation on the table and the table after it. */
  datatype Step<T> = Step(result: Result<T, Error>, db: Db)

  /** Autoincrement ids start at 1. */
  const FirstId: nat := 1

  function Empty(): Db
  {
    Db(map[], FirstId)
  }

  /** Rows are stored under their own id, every id was handed out already,
      and no two rows share an email. */
  ghost predicate Invariant(db: Db)
  {
    && (forall id | id in db.rows :: db.rows[id].id == id && id < db.nextId)
    && (forall i, j | i in db.rows && j in db.rows && db.rows[i].email == db.rows[j].email :: i == j)
  }

  predicate EmailTaken(rows: map<nat, User>, email: string)
  {
    exists id | id in rows :: rows[id].email == email
  }

  predicate EmailHeldByOther(rows: map<nat, User>, email: string, id: nat)
  {
    exists j | j in rows && j != id :: rows[j].email == email
  }

  /** The row `update` writes: the fields `data` gives, the old ones elsewhere. */
  function Apply(u: User, data: UserUpdate): User
  {
    User(
      u.id,
      match data.email case Some(e) => e case None => u.email,
      u.hash,
      match data.hashedRt case Some(h) => h case None => u.hashedRt)
  }

  /** `prisma.user.create({ data: { email, hash } })`. */
  function Create(db: Db, email: string, hash: Argon.Digest<string>): (s: Step<User>)
    ensures s.result.Err? ==> s.result.error == PrismaKnown(UniqueConstraintFailed) && s.db == db
    ensures s.result.Ok? ==>
      && !EmailTaken(db.rows, email)
      && s.result.value == User(db.nextId, email, hash, None)
      && s.db.rows.Keys == db.rows.Keys + {db.nextId}
      && s.db.rows[db.nextId] == s.result.value
      && (forall j | j in db.rows && j != db.nextId :: s.db.rows[j] == db.rows[j])
  {
    if EmailTaken(db.rows, email) then
      Step(Err(PrismaKnown(UniqueConstraintFailed)), db)
    else
      var u := User(db.nextId, email, hash, None);
      Step(Ok(u), Db(db.rows[db.nextId := u], db.nextId + 1))
  }

  /** `prisma.user.findUnique({ where: { id } })`. */
  function FindById(db: Db, id: nat): (r: Option<User>)
    ensures r.Some? <==> id in db.rows
    ensures r.Some? ==> db.rows[id] == r.value
  {
    if id in db.rows then Some(db.rows[id]) else None
  }

  /** `prisma.user.findUnique({ where: { email } })`. */
  ghost function FindByEmail(db: Db, email: string): (r: Option<User>)
    ensures r.Some? <==> EmailTaken(db.rows, email)
    ensures r.Some? ==> r.value.email == email && r.value in db.rows.Values
  {
    if EmailTaken(db.rows, email) then
      var id :| id in db.rows && db.rows[id].email == email;
      Some(db.rows[id])
    else
      None
  }

  /** `prisma.user.update({ where: { id }, data })`. */
  function Update(db: Db, id: nat, data: UserUpdate): (s: Step<User>)
    ensures s.result.Err? ==> s.result.error.PrismaKnown? && s.db == db
    ensures s.result.Ok? ==>
      && id in db.rows
      && s.result.value == Apply(db.rows[id], data)
      && s.result.value.id == db.rows[id].id && s.result.value.hash == db.rows[id].hash
      && s.db.rows.Keys == db.rows.Keys && s.db.nextId == db.nextId
      && s.db.rows[id] == s.result.value
      && (forall j | j in db.rows && j != id :: s.db.rows[j] == db.rows[j])
  {
    if id !in db.rows then
      Step(Err(PrismaKnown(RecordNotFound)), db)
    else
      var u := Apply(db.rows[id], data);
      if EmailHeldByOther(db.rows, u.email, id) then
        Step(Err(PrismaKnown(UniqueConstraintFailed)), db)
      else
        Step(Ok(u), Db(db.rows[id := u], db.nextId))
  }

  /** The rows whose ids are below `n`, in increasing id order. */
  function Listing(rows: map<nat, User>, n: nat): seq<User>
  {
    if n == 0 then []
    else Listing(rows, n - 1) + (if n - 1 in rows then [rows[n - 1]] else [])
  }

  ghost function KeysBelow(rows: map<nat, User>, n: nat): set<nat>
  {
    set id | id in rows && id < n
  }

  /** Every listed row is a stored row under its own id below `n`. */
  lemma {:induction false} ListingStored(rows: map<nat, User>, n: nat)
    requires forall id | id in rows :: rows[id].id == id
    ensures forall u | u in Listing(rows, n) :: u.id in rows && rows[u.id] == u && u.id < n
  {
    if n > 0 {
      ListingStored(rows, n - 1);
    }
  }

  /** The listing holds the ids in strictly increasing order. */
  lemma {:induction false} ListingSorted(rows: map<nat, User>, n: nat)
    requires forall id | id in rows :: rows[id].id == id
    ensures forall i, j | 0 <= i < j < |Listing(rows, n)| :: Listing(rows, n)[i].id < Listing(rows, n)[j].id
  {
    if n > 0 && n - 1 in rows {
      ListingSorted(rows, n - 1);
      ListingStored(rows, n - 1);
      var prev := Listing(rows, n - 1);
      var l := Listing(rows, n);
      assert l == prev + [rows[n - 1]];
      forall i, j | 0 <= i < j < |l| ensures l[i].id < l[j].id {
        if j == |prev| {
          assert l[i] == prev[i] && prev[i] in prev;
        }
      }
    } else if n > 0 {
      ListingSorted(rows, n - 1);
    }
  }

  /** Every stored row with an id below `n` is listed. */
  lemma {:induction false} ListingComplete(rows: map<nat, User>, n: nat)
    ensures forall id | id in rows && id < n :: rows[id] in Listing(rows, n)
  {
    if n > 0 {
      ListingComplete(rows, n - 1);
    }
  }

  /** The listing is as long as there are stored ids below `n`. */
  lemma {:induction false} ListingSize(rows: map<nat, User>, n: nat)
    ensures |Listing(rows, n)| == |KeysBelow(rows, n)|
  {
    if n > 0 {
      ListingSize(rows, n - 1);
      if n - 1 in rows {
        assert KeysBelow(rows, n) == KeysBelow(rows, n - 1) + {n - 1};
      } else {
        assert KeysBelow(rows, n) == KeysBelow(rows, n - 1);
      }
    }
  }

  /** `prisma.user.findMany()`: every stored row exactly once, by increasing id. */
  function FindMany(db: Db): (r: seq<User>)
    requires Invariant(db)
    ensures |r| == |db.rows|
    ensures forall i | 0 <= i < |r| :: r[i].id in db.rows && db.rows[r[i].id] == r[i]
    ensures forall id | id in db.rows :: db.rows[id] in r
    ensures forall i, j | 0 <= i < j < |r| :: r[i].id < r[j].id
  {
    ListingStored(db.rows, db.nextId);
    ListingSorted(db.rows, db.nextId);
    ListingComplete(db.rows, db.nextId);
    ListingSize(db.rows, db.nextId);
    assert KeysBelow(db.rows, db.nextId) == db.rows.Keys;
    Listing(db.rows, db.nextId)
  }

  /** Two rows with the same email are the same row. */
  lemma EmailsUnique(db: Db, i: nat, j: nat)
    requires Invariant(db)
    requires i in db.rows && j in db.rows && db.rows[i].email == db.rows[j].email
    ensures i == j
  {
  }

  /** Create fails exactly when the email is held, writes nothing then, and
      otherwise adds one row under a fresh id; the invariant is kept. */
  lemma CreateOutcome(db: Db, email: string, hash: Argon.Digest<string>)
    requires Invariant(db)
    ensures var s := Create(db, email, hash);
      && (s.result.Err? <==> EmailTaken(db.rows, email))
      && (s.result.Err? ==> s.result.error == PrismaKnown(UniqueConstraintFailed) && s.db == db)
      && (s.result.Ok? ==>
            && db.nextId !in db.rows
            && s.result.value == User(db.nextId, email, hash, None)
            && s.db.rows == db.rows[db.nextId := s.result.value])
      && Invariant(s.db)
  {
  }

  /** Update fails on a missing id or on an email held by another row,
      writes nothing then, and otherwise replaces that one row; the
      invariant is kept. */
  lemma UpdateOutcome(db: Db, id: nat, data: UserUpdate)
    requires Invariant(db)
    ensures var s := Update(db, id, data);
      && (s.result.Err? <==> id !in db.rows || EmailHeldByOther(db.rows, Apply(db.rows[id], data).email, id))
      && (s.result.Err? ==> s.db == db)
      && (id !in db.rows ==> s.result == Err(PrismaKnown(RecordNotFound)))
      && (id in db.rows && EmailHeldByOther(db.rows, Apply(db.rows[id], data).email, id) ==>
            s.result == Err(PrismaKnown(UniqueConstraintFailed)))
      && (s.result.Ok? ==>
            && s.result.value == Apply(db.rows[id], data)
            && s.db == Db(db.rows[id := s.result.value], db.nextId))
      && Invariant(s.db)
  {
  }
}
