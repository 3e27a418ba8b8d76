/**
 * `AuthService`: signup, signin, updateRtHash and logout, run step by step
 * against the shared user table. Each method is proved to leave the table
 * and return what the matching function of `AuthModel` describes; the
 * promises themselves are the lemmas of that module.
 */
module Auth {
  import opened Wrappers
  import opened Errors
  import Argon
  import Jwt
  import opened UserTable
  import opened Prisma
  import opened AuthModel

  class AuthService {
    const prisma: UserDelegate

    constructor (prisma: UserDelegate)
      ensures this.prisma == prisma
    {
      this.prisma := prisma;
    }

    /** Hash `rt` with the salt argon2 draws and write it as the row's `hashedRt`. */
    method UpdateRtHash(userId: nat, rt: Jwt.Token, salt: nat) returns (r: Result<(), Error>)
      requires prisma.Valid()
      modifies prisma
      ensures prisma.Valid()
      ensures Step(r, prisma.State()) == AuthModel.UpdateRtHash(old(prisma.State()), userId, rt, salt)
    {
      var hash := Argon.Hash(rt, salt);
      var updated := prisma.Update(userId, UserUpdate(None, Some(Some(hash))));
      match updated {
        case Ok(_) => r := Ok(());
        case Err(e) => r := Err(e);
      }
    }

    /** `pwSalt` and `rtSalt` are the salts of the two argon2 calls, `now`
        the clock reading both tokens are stamped with. */
    method Signup(dto: AuthDto, pwSalt: nat, rtSalt: nat, now: nat) returns (r: Result<Tokens, Error>)
      requires prisma.Valid()
      modifies prisma
      ensures prisma.Valid()
      ensures Step(r, prisma.State()) == AuthModel.Signup(old(prisma.State()), dto, pwSalt, rtSalt, now)
    {
      var hash := Argon.Hash(dto.password, pwSalt);
      var created := prisma.Create(dto.email, hash);
      match created {
        case Err(e) =>
          r := Err(Catch(e));
        case Ok(user) =>
          var tokens := GetTokens(user.id, user.email, now);
          var stored := UpdateRtHash(user.id, tokens.refreshToken, rtSalt);
          match stored {
            case Err(e) => r := Err(Catch(e));
            case Ok(_) => r := Ok(tokens);
          }
      }
    }

    method Signin(dto: AuthDto, rtSalt: nat, now: nat) returns (r: Result<Tokens, Error>)
      requires prisma.Valid()
      modifies prisma
      ensures prisma.Valid()
      ensures Step(r, prisma.State()) == AuthModel.Signin(old(prisma.State()), dto, rtSalt, now)
    {
      var found := prisma.FindUniqueByEmail(dto.email);
      match found {
        case None =>
          r := Err(Catch(Forbidden(InvalidCredentials)));
        case Some(user) =>
          var pwMatch := Argon.Verify(user.hash, dto.password);
          if !pwMatch {
            r := Err(Catch(Forbidden(InvalidCredentials)));
          } else {
            var tokens := GetTokens(user.id, user.email, now);
            var stored := UpdateRtHash(user.id, tokens.refreshToken, rtSalt);
            match stored {
              case Err(e) => r := Err(Catch(e));
              case Ok(_) => r := Ok(tokens);
            }
          }
      }
    }

    /** Logout as written takes no user and only writes a log line. */
    method Logout()
      ensures prisma.State() == old(prisma.State())
    {
    }
  }

  /** The integration test's logout flow on a fresh email: after signup the
      new row holds a refresh-token digest, and the argument-less logout
      leaves it there, so `hashedRt` is still set afterwards. */
  method SignupThenLogout(auth: AuthService, dto: AuthDto, pwSalt: nat, rtSalt: nat, now: nat) returns (id: nat)
    requires auth.prisma.Valid()
    requires !EmailTaken(auth.prisma.rows, dto.email)
    modifies auth.prisma
    ensures id in auth.prisma.rows && auth.prisma.rows[id].email == dto.email
    ensures auth.prisma.rows[id].hashedRt.Some?
  {
    ghost var before := auth.prisma.State();
    id := auth.prisma.nextId;
    SignupFreshEmail(before, dto, pwSalt, rtSalt, now);
    var tokens := auth.Signup(dto, pwSalt, rtSalt, now);
    auth.Logout();
  }
}
