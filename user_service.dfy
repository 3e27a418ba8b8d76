/**
 * `UserService.editUser`, run step by step against the shared user table.
 * `getMe` and `getUsers` only read the table and are the functions of the
 * same names in `UserModel`.
 */
module Users {
  import opened Wrappers
  import opened Errors
  import opened UserTable
  import opened Prisma
  import opened UserModel

  class UserService {
    const prisma: UserDelegate

    constructor (prisma: UserDelegate)
      ensures this.prisma == prisma
    {
      this.prisma := prisma;
    }

    method EditUser(userId: nat, dto: EditUserDto) returns (r: Result<PublicUser, Error>)
      requires prisma.Valid()
      modifies prisma
      ensures prisma.Valid()
      ensures Step(r, prisma.State()) == UserModel.EditUser(old(prisma.State()), userId, dto)
    {
      var found := prisma.FindUniqueById(userId);
      match found {
        case None =>
          r := Err(NotFound(UserNotFound));
        case Some(user) =>
          var updated := prisma.Update(user.id, DtoData(dto));
          match updated {
            case Err(e) => r := Err(e);
            case Ok(u) => r := Ok(View(u));
          }
      }
    }
  }
}
