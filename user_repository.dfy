/** The user repository: lookups that hide soft-deleted rows, and the writes on the `users` table. */
module UserRepository {
  import opened Wrappers
  import opened Schema
  import Tables

  function LiveWithId(id: Id): User -> bool
  {
    (u: User) => u.id == id && u.deletedAt.None?
  }

  function LiveWithEmail(email: string): User -> bool
  {
    (u: User) => u.email == email && u.deletedAt.None?
  }

  /** `findById`: the live user with this id, if any. */
  function FindById(users: seq<User>, id: Id): (r: Option<User>)
    ensures r.None? <==> forall i :: 0 <= i < |users| ==> users[i].id != id || users[i].deletedAt.Some?
    ensures r.Some? ==> r.value in users && r.value.id == id && r.value.deletedAt.None?
  {
    Tables.FirstWhere(users, LiveWithId(id))
  }

  /** `findByEmail`: the live user with exactly this email, if any. */
  function FindByEmail(users: seq<User>, email: string): (r: Option<User>)
    ensures r.None? <==> forall i :: 0 <= i < |users| ==> users[i].email != email || users[i].deletedAt.Some?
    ensures r.Some? ==> r.value in users && r.value.email == email && r.value.deletedAt.None?
  {
    Tables.FirstWhere(users, LiveWithEmail(email))
  }

  /** `exists`: some live user has exactly this email. */
  function Exists(users: seq<User>, email: string): (b: bool)
    ensures b <==> exists i :: 0 <= i < |users| && users[i].email == email && users[i].deletedAt.None?
  {
    Tables.IndexWhere(users, LiveWithEmail(email)) != -1
  }

  /** The columns `create` receives; an omitted role takes the column default. */
  datatype NewUser = NewUser(name: string, email: string, passwordHash: string, avatar: Option<string>, role: Option<Role>)

  /** The columns `update` may set; absent ones are left alone. */
  datatype UserPatch = UserPatch(name: Option<string>, email: Option<string>, avatar: Option<string>, role: Option<Role>)

  function Supplied<T>(value: Option<T>, current: T): T
  {
    if value.Some? then value.value else current
  }

  /** The row after `set({ ...patch, updatedAt: now })`. */
  function Patched(u: User, p: UserPatch, now: Timestamp): User
  {
    u.(name := Supplied(p.name, u.name),
       email := Supplied(p.email, u.email),
       avatar := if p.avatar.Some? then p.avatar else u.avatar,
       role := Supplied(p.role, u.role),
       updatedAt := now)
  }

  /** The row an insert of `data` under `id` at time `now` produces. */
  function Inserted(id: Id, data: NewUser, now: Timestamp): User
  {
    User(id, data.name, data.email, data.passwordHash, data.avatar, Supplied(data.role, Reader), now, now, None)
  }

  /** An insert of this id and email collides with a row, deleted or not. */
  predicate Collides(users: seq<User>, id: Id, email: string)
  {
    exists i :: 0 <= i < |users| && (users[i].id == id || users[i].email == email)
  }

  /** Some row other than position `k`, deleted or not, holds this email. */
  predicate EmailHeldElsewhere(users: seq<User>, k: int, email: string)
  {
    exists i :: 0 <= i < |users| && i != k && users[i].email == email
  }

  /** With unique ids, a live user's position is where `findById` finds it. */
  lemma FoundAt(users: seq<User>, k: int)
    requires UniqueUserKeys(users) && 0 <= k < |users| && users[k].deletedAt.None?
    ensures FindById(users, users[k].id) == Some(users[k])
    ensures Tables.IndexWhere(users, LiveWithId(users[k].id)) == k
  {
    var r := Tables.IndexWhere(users, LiveWithId(users[k].id));
    assert r != -1 ==> users[r].id == users[k].id;
  }

  /** Once the row with an id is soft-deleted, neither lookup finds it; the row itself stays. */
  lemma {:induction false} DeletedIsHidden(users: seq<User>, k: int, now: Timestamp)
    requires UniqueUserKeys(users) && 0 <= k < |users|
    ensures var after := users[k := users[k].(deletedAt := Some(now), updatedAt := now)];
      && UniqueUserKeys(after)
      && FindById(after, users[k].id) == None
      && FindByEmail(after, users[k].email) == None
      && !Exists(after, users[k].email)
  {
    var after := users[k := users[k].(deletedAt := Some(now), updatedAt := now)];
    forall i | 0 <= i < |after| ensures after[i].id != users[k].id || after[i].deletedAt.Some? {
      if i != k { assert users[i].id != users[k].id; }
    }
    forall i | 0 <= i < |after| ensures after[i].email != users[k].email || after[i].deletedAt.Some? {
      if i != k { assert users[i].email != users[k].email; }
    }
  }

  class UserRepository {
    const database: Database

    constructor (database: Database)
      ensures this.database == database
    {
      this.database := database;
    }

    /** `create`: insert the row; the primary key and the unique email refuse a clash with any row,
        soft-deleted ones included. */
    method Create(id: Id, data: NewUser, now: Timestamp) returns (r: Result<User, DbError>)
      requires database.Valid()
      modifies database
      ensures database.Valid()
      ensures Collides(old(database.users), id, data.email) ==>
        r == Failure(UniqueConstraintFailed) && database.State() == old(database.State())
      ensures !Collides(old(database.users), id, data.email) ==>
        && r == Success(Inserted(id, data, now))
        && database.State() == old(database.State()).(users := old(database.users) + [r.value])
        && FindById(database.users, id) == Some(r.value)
    {
      if exists i | 0 <= i < |database.users| :: database.users[i].id == id || database.users[i].email == data.email {
        return Failure(UniqueConstraintFailed);
      }
      var row := Inserted(id, data, now);
      database.users := database.users + [row];
      FoundAt(database.users, |database.users| - 1);
      r := Success(row);
    }

    /** `update`: patch the supplied fields of the live user with this id and refresh `updatedAt`;
        nothing for an absent or deleted user; the unique email refuses a clash. */
    method Update(id: Id, patch: UserPatch, now: Timestamp) returns (r: Result<Option<User>, DbError>)
      requires database.Valid()
      modifies database
      ensures database.Valid()
      ensures var k := Tables.IndexWhere(old(database.users), LiveWithId(id));
        if k == -1 then
          r == Success(None) && database.State() == old(database.State())
        else if patch.email.Some? && EmailHeldElsewhere(old(database.users), k, patch.email.value) then
          r == Failure(UniqueConstraintFailed) && database.State() == old(database.State())
        else
          && r == Success(Some(Patched(old(database.users)[k], patch, now)))
          && database.State() == old(database.State()).(users := old(database.users)[k := r.value.value])
    {
      var k := Tables.IndexWhere(database.users, LiveWithId(id));
      if k == -1 {
        return Success(None);
      }
      if patch.email.Some? && exists i | 0 <= i < |database.users| :: i != k && database.users[i].email == patch.email.value {
        return Failure(UniqueConstraintFailed);
      }
      var row := Patched(database.users[k], patch, now);
      database.users := database.users[k := row];
      r := Success(Some(row));
    }

    /** `softDelete`: stamp `deletedAt` on the live user with this id and return the row;
        nothing for an absent or already deleted user. */
    method SoftDelete(id: Id, now: Timestamp) returns (r: Option<User>)
      requires database.Valid()
      modifies database
      ensures database.Valid()
      ensures var k := Tables.IndexWhere(old(database.users), LiveWithId(id));
        if k == -1 then
          r == None && database.State() == old(database.State())
        else
          && r == Some(old(database.users)[k].(deletedAt := Some(now), updatedAt := now))
          && database.State() == old(database.State()).(users := old(database.users)[k := r.value])
      ensures FindById(database.users, id) == None
      ensures |database.users| == |old(database.users)|
    {
      var k := Tables.IndexWhere(database.users, LiveWithId(id));
      if k == -1 {
        return None;
      }
      DeletedIsHidden(database.users, k, now);
      var row := database.users[k].(deletedAt := Some(now), updatedAt := now);
      database.users := database.users[k := row];
      r := Some(row);
    }
  }
}
