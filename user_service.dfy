/** The user service: duplicate-email rejection and the default role on top of the user repository. */
module UserService {
  import opened Wrappers
  import opened Schema
  import opened UserRepository
  import Tables

  /** What `createUser` and the other writes can fail with. */
  datatype UserError = EmailAlreadyExists | Storage(cause: DbError)

  function Message(e: UserError): string
  {
    match e
    case EmailAlreadyExists => "User with this email already exists"
    case Storage(_) => "UNIQUE constraint failed"
  }

  /** The fields `createUser` accepts. */
  datatype CreateUserData = CreateUserData(name: string, email: string, passwordHash: string, role: Option<Role>)

  /** The row `createUser` asks the repository to insert: the role defaults to reader. */
  function ToNewUser(data: CreateUserData): (n: NewUser)
    ensures n.role == Some(if data.role.Some? then data.role.value else Reader)
    ensures n.email == data.email && n.name == data.name && n.passwordHash == data.passwordHash && n.avatar.None?
  {
    NewUser(data.name, data.email, data.passwordHash, None, Some(if data.role.Some? then data.role.value else Reader))
  }

  class UserService {
    const repository: UserRepository

    constructor (repository: UserRepository)
      ensures this.repository == repository
    {
      this.repository := repository;
    }

    /** `getUserById`: the repository's lookup, nothing for unknown or deleted ids. */
    method GetUserById(id: Id) returns (r: Option<User>)
      ensures r == FindById(repository.database.users, id)
    {
      r := FindById(repository.database.users, id);
    }

    /** `getUserByEmail`: the repository's lookup. */
    method GetUserByEmail(email: string) returns (r: Option<User>)
      ensures r == FindByEmail(repository.database.users, email)
    {
      r := FindByEmail(repository.database.users, email);
    }

    /** `createUser`: a live user with the email is a domain error and nothing is inserted;
        otherwise the insert runs with the role defaulted to reader. A soft-deleted user with the
        same email passes the check but the unique column still refuses the insert. */
    method CreateUser(id: Id, data: CreateUserData, now: Timestamp) returns (r: Result<User, UserError>)
      requires repository.database.Valid()
      modifies repository.database
      ensures repository.database.Valid()
      ensures Exists(old(repository.database.users), data.email) ==>
        r == Failure(EmailAlreadyExists) && repository.database.State() == old(repository.database.State())
      ensures !Exists(old(repository.database.users), data.email) && Collides(old(repository.database.users), id, data.email) ==>
        r == Failure(Storage(UniqueConstraintFailed)) && repository.database.State() == old(repository.database.State())
      ensures !Collides(old(repository.database.users), id, data.email) ==>
        && r.Success?
        && r.value == User(id, data.name, data.email, data.passwordHash, None,
                           if data.role.Some? then data.role.value else Reader, now, now, None)
        && repository.database.users == old(repository.database.users) + [r.value]
        && FindById(repository.database.users, id) == Some(r.value)
    {
      if Exists(repository.database.users, data.email) {
        return Failure(EmailAlreadyExists);
      }
      var created := repository.Create(id, ToNewUser(data), now);
      if created.Failure? {
        return Failure(Storage(created.error));
      }
      r := Success(created.value);
    }

    /** `updateUser`: the repository's patch of a live user. */
    method UpdateUser(id: Id, patch: UserPatch, now: Timestamp) returns (r: Result<Option<User>, UserError>)
      requires repository.database.Valid()
      modifies repository.database
      ensures repository.database.Valid()
      ensures var k := Tables.IndexWhere(old(repository.database.users), LiveWithId(id));
        if k == -1 then r == Success(None) && repository.database.State() == old(repository.database.State())
        else if patch.email.Some? && EmailHeldElsewhere(old(repository.database.users), k, patch.email.value) then
          r == Failure(Storage(UniqueConstraintFailed)) && repository.database.State() == old(repository.database.State())
        else
          && r == Success(Some(Patched(old(repository.database.users)[k], patch, now)))
          && repository.database.State() == old(repository.database.State()).(users := old(repository.database.users)[k := Patched(old(repository.database.users)[k], patch, now)])
    {
      var updated := repository.Update(id, patch, now);
      if updated.Failure? {
        return Failure(Storage(updated.error));
      }
      r := Success(updated.value);
    }

    /** `deleteUser`: the repository's soft delete; afterwards `getUserById` finds nothing. */
    method DeleteUser(id: Id, now: Timestamp) returns (r: Option<User>)
      requires repository.database.Valid()
      modifies repository.database
      ensures repository.database.Valid()
      ensures r.Some? <==> old(FindById(repository.database.users, id)).Some?
      ensures var k := Tables.IndexWhere(old(repository.database.users), LiveWithId(id));
        if k == -1 then r == None && repository.database.State() == old(repository.database.State())
        else
          && r == Some(old(repository.database.users)[k].(deletedAt := Some(now), updatedAt := now))
          && repository.database.State() == old(repository.database.State()).(users := old(repository.database.users)[k := r.value])
      ensures FindById(repository.database.users, id) == None
    {
      r := repository.SoftDelete(id, now);
    }
  }
}
