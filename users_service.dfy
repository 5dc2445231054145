/** The user store: account creation with its role default, the lookups
    by email and by id, the refresh-token hash kept on each user, and the
    view of a user with its secrets removed. */
module UsersService {
  import opened Wrappers
  import opened Entities
  import opened Collections

  /** What `create` receives: the spread of the DTO plus the role. */
  datatype CreateUserDto = CreateUserDto(
    fullName: Option<string>,
    email: string,
    passwordHash: string,
    role: Option<Role>)

  /** The row `create` saves: the DTO's fields, the role defaulting to
      `Student`, and no refresh-token hash yet. */
  function NewUser(dto: CreateUserDto, id: string): (u: User)
    ensures dto.role.None? ==> u.role == Student
    ensures dto.role.Some? ==> u.role == dto.role.value
    ensures u.id == id && u.email == dto.email && u.fullName == dto.fullName
    ensures u.passwordHash == dto.passwordHash && u.hashedRefreshToken.None?
  {
    User(id, dto.email, dto.fullName, dto.passwordHash, dto.role.GetOr(Student), None)
  }

  /** `findByEmail`: the user stored under exactly this email, if any. */
  function FindByEmail(users: seq<User>, email: string): (r: Option<User>)
    ensures r.Some? ==> r.value in users && r.value.email == email
    ensures r.None? <==> forall i :: 0 <= i < |users| ==> users[i].email != email
  {
    First(users, (u: User) => u.email == email)
  }

  /** `findById`: the user with this id, if any. */
  function FindById(users: seq<User>, id: string): (r: Option<User>)
    ensures r.Some? ==> r.value in users && r.value.id == id
    ensures r.None? <==> forall i :: 0 <= i < |users| ==> users[i].id != id
  {
    First(users, (u: User) => u.id == id)
  }

  /** With unique ids, `FindById` returns the row holding the id. */
  lemma FindByIdUnique(users: seq<User>, k: int)
    requires 0 <= k < |users|
    requires forall i, j :: 0 <= i < j < |users| ==> users[i].id != users[j].id
    ensures FindById(users, users[k].id) == Some(users[k])
  {
    FirstOfUnique(users, (u: User) => u.id == users[k].id, k);
  }

  /** `usersRepository.update(userId, { hashedRefreshToken })`: the rows with
      that id get the new hash, every other row is kept. */
  function SetRefreshToken(users: seq<User>, userId: string, hash: Option<string>): (r: seq<User>)
    ensures |r| == |users|
    ensures forall i :: 0 <= i < |r| ==> r[i].id == users[i].id && r[i].email == users[i].email
    ensures forall i :: 0 <= i < |r| && users[i].id != userId ==> r[i] == users[i]
    ensures forall i :: 0 <= i < |r| && users[i].id == userId ==> r[i].hashedRefreshToken == hash && r[i] == users[i].(hashedRefreshToken := hash)
  {
    seq(|users|, i requires 0 <= i < |users| =>
      if users[i].id == userId then users[i].(hashedRefreshToken := hash) else users[i])
  }

  /** Updating one user's refresh hash leaves every other user as it was. */
  lemma SetRefreshTokenOthers(users: seq<User>, userId: string, hash: Option<string>, other: string)
    requires other != userId
    ensures FindById(SetRefreshToken(users, userId, hash), other) == FindById(users, other)
  {
    var r := SetRefreshToken(users, userId, hash);
    if FindById(users, other).Some? {
      var k :| 0 <= k < |users| && users[k] == FindById(users, other).value &&
        forall j :: 0 <= j < k ==> users[j].id != other;
      assert r[k] == users[k];
      assert forall j :: 0 <= j < k ==> r[j].id != other;
      FirstPrefix(r, other, k);
    }
  }

  lemma FirstPrefix(users: seq<User>, id: string, k: int)
    requires 0 <= k < |users| && users[k].id == id
    requires forall j :: 0 <= j < k ==> users[j].id != id
    ensures FindById(users, id) == Some(users[k])
  {
    var r := FindById(users, id);
    var m :| 0 <= m < |users| && users[m] == r.value && users[m].id == id &&
      forall j :: 0 <= j < m ==> users[j].id != id;
    assert m == k;
  }

  /** After the update the user holds the new hash and nothing else of theirs changed. */
  lemma SetRefreshTokenSelf(users: seq<User>, userId: string, hash: Option<string>)
    requires FindById(users, userId).Some?
    ensures FindById(SetRefreshToken(users, userId, hash), userId) ==
      Some(FindById(users, userId).value.(hashedRefreshToken := hash))
  {
    var r := SetRefreshToken(users, userId, hash);
    var k :| 0 <= k < |users| && users[k] == FindById(users, userId).value &&
      forall j :: 0 <= j < k ==> users[j].id != userId;
    FirstPrefix(r, userId, k);
  }

  /** `stripSensitiveFields`: no user gives no user; otherwise every field but
      the two hashes, unchanged. */
  function StripSensitiveFields(user: Option<User>): (safe: Option<SafeUser>)
    ensures user.None? <==> safe.None?
    ensures user.Some? ==>
      && safe.value.id == user.value.id && safe.value.email == user.value.email
      && safe.value.fullName == user.value.fullName && safe.value.role == user.value.role
  {
    match user
    case None => None
    case Some(u) => Some(SafeUser(u.id, u.email, u.fullName, u.role))
  }

  /** Two users look the same once stripped exactly when they differ at most
      in their password hash and refresh-token hash. */
  lemma StripForgetsOnlySecrets(u1: User, u2: User)
    ensures StripSensitiveFields(Some(u1)) == StripSensitiveFields(Some(u2)) <==>
      u1.(passwordHash := u2.passwordHash, hashedRefreshToken := u2.hashedRefreshToken) == u2
  {
  }

  class UsersService {
    const db: Database

    constructor(db: Database)
      ensures this.db == db
    {
      this.db := db;
    }

    /** `create`: saves the new user at the end of the table. The unique
        index on `email` makes a second account with the same email fail,
        so callers check for it first. */
    method Create(dto: CreateUserDto, id: string) returns (u: User)
      requires db.Valid()
      requires forall i :: 0 <= i < |db.users| ==> db.users[i].id != id
      requires forall i :: 0 <= i < |db.users| ==> db.users[i].email != dto.email
      modifies db
      ensures u == NewUser(dto, id)
      ensures db.users == old(db.users) + [u]
      ensures db.courses == old(db.courses) && db.tasks == old(db.tasks)
      ensures db.submissions == old(db.submissions) && db.files == old(db.files)
      ensures db.Valid()
    {
      u := NewUser(dto, id);
      db.users := db.users + [u];
    }

    /** `storeRefreshToken`. */
    method StoreRefreshToken(userId: string, hash: string)
      requires db.Valid()
      modifies db
      ensures db.users == SetRefreshToken(old(db.users), userId, Some(hash))
      ensures db.courses == old(db.courses) && db.tasks == old(db.tasks)
      ensures db.submissions == old(db.submissions) && db.files == old(db.files)
      ensures db.Valid()
    {
      db.users := SetRefreshToken(db.users, userId, Some(hash));
    }

    /** `clearRefreshToken`: the stored hash becomes `NULL`. */
    method ClearRefreshToken(userId: string)
      requires db.Valid()
      modifies db
      ensures db.users == SetRefreshToken(old(db.users), userId, None)
      ensures db.courses == old(db.courses) && db.tasks == old(db.tasks)
      ensures db.submissions == old(db.submissions) && db.files == old(db.files)
      ensures db.Valid()
    {
      db.users := SetRefreshToken(db.users, userId, None);
    }
  }
}
