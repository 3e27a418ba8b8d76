/**
 * `prisma.user` as the services hold it: a mutable table whose fields the
 * store calls update in place. Each method is proved to do what the
 * corresponding function of `UserTable` describes, and to keep the table's
 * invariant.
 */
module Prisma {
  import opened Wrappers
  import opened Errors
  import Argon
  import opened UserTable

  class UserDelegate {
    var rows: map<nat, User>
    var nextId: nat

    function State(): Db
      reads this
    {
      Db(rows, nextId)
    }

    ghost predicate Valid()
      reads this
    {
      Invariant(State())
    }

    constructor ()
      ensures Valid() && State() == Empty()
    {
      rows := map[];
      nextId := FirstId;
    }

    method Create(email: string, hash: Argon.Digest<string>) returns (r: Result<User, Error>)
      requires Valid()
      modifies this
      ensures Valid()
      ensures Step(r, State()) == UserTable.Create(old(State()), email, hash)
    {
      CreateOutcome(State(), email, hash);
      if EmailTaken(rows, email) {
        return Err(PrismaKnown(UniqueConstraintFailed));
      }
      var u := User(nextId, email, hash, None);
      rows := rows[nextId := u];
      nextId := nextId + 1;
      r := Ok(u);
    }

    method FindUniqueById(id: nat) returns (r: Option<User>)
      ensures r == FindById(State(), id)
    {
      if id in rows {
        r := Some(rows[id]);
      } else {
        r := None;
      }
    }

    method FindUniqueByEmail(email: string) returns (r: Option<User>)
      requires Valid()
      ensures r == FindByEmail(State(), email)
    {
      if EmailTaken(rows, email) {
        var id :| id in rows && rows[id].email == email;
        r := Some(rows[id]);
        var expected := FindByEmail(State(), email);
        EmailsUnique(State(), id, expected.value.id);
      } else {
        r := None;
      }
    }

    method Update(id: nat, data: UserUpdate) returns (r: Result<User, Error>)
      requires Valid()
      modifies this
      ensures Valid()
      ensures Step(r, State()) == UserTable.Update(old(State()), id, data)
    {
      UpdateOutcome(State(), id, data);
      if id !in rows {
        return Err(PrismaKnown(RecordNotFound));
      }
      var u := Apply(rows[id], data);
      if EmailHeldByOther(rows, u.email, id) {
        return Err(PrismaKnown(UniqueConstraintFailed));
      }
      rows := rows[id := u];
      r := Ok(u);
    }
  }
}
