/** Registration, login, logout and refresh-token rotation. Password and
    token hashing (`bcrypt.hash`), hash comparison (`bcrypt.compare`) and
    JWT signing are abstract functions; the only thing assumed of them is
    that a hash is never empty and that every text matches its own hash. */
module AuthService {
  import opened Wrappers
  import opened Entities
  import opened JsStrings
  import opened UsersService

  datatype TokenKind = AccessToken | RefreshToken

  /** The claims signed into both tokens. */
  datatype JwtPayload = JwtPayload(sub: string, email: string, role: Role)

  datatype AuthResponse = AuthResponse(user: SafeUser, accessToken: string, refreshToken: string)

  datatype RegisterDto = RegisterDto(fullName: Option<string>, email: string, password: string, role: Option<Role>)

  datatype LoginDto = LoginDto(email: string, password: string)

  const InvalidCredentials: string := "Invalid credentials"
  const AccessDenied: string := "Access denied"
  const EmailTaken: string := "Email already registered"

  /** What is assumed of the hash: non-empty, and matching the text it was made from. */
  ghost predicate HashContract(hash: string -> string, compare: (string, string) -> bool) {
    forall t :: hash(t) != [] && compare(t, hash(t))
  }

  /** The payload of `generateTokens`. */
  function PayloadOf(u: User): (p: JwtPayload)
    ensures p.sub == u.id && p.email == u.email && p.role == u.role
  {
    JwtPayload(u.id, u.email, u.role)
  }

  /** The decision of `login`: the user under the lower-cased email whose
      password hash matches, or the same `Unauthorized` error for an unknown
      email and for a wrong password. */
  function LoginCheck(users: seq<User>, dto: LoginDto, compare: (string, string) -> bool): (r: Result<User>)
    ensures r.Ok? <==> (FindByEmail(users, ToLower(dto.email)).Some? &&
      compare(dto.password, FindByEmail(users, ToLower(dto.email)).value.passwordHash))
    ensures r.Ok? ==> r.value == FindByEmail(users, ToLower(dto.email)).value
    ensures r.Err? ==> r.error == Unauthorized(InvalidCredentials)
  {
    match FindByEmail(users, ToLower(dto.email))
    case None => Err(Unauthorized(InvalidCredentials))
    case Some(u) =>
      if !compare(dto.password, u.passwordHash) then Err(Unauthorized(InvalidCredentials))
      else Ok(u)
  }

  /** A caller cannot tell an unknown email from a wrong password. */
  lemma LoginFailuresLookAlike(users: seq<User>, d1: LoginDto, d2: LoginDto, compare: (string, string) -> bool)
    requires FindByEmail(users, ToLower(d1.email)).None?
    requires FindByEmail(users, ToLower(d2.email)).Some?
    requires !compare(d2.password, FindByEmail(users, ToLower(d2.email)).value.passwordHash)
    ensures LoginCheck(users, d1, compare) == LoginCheck(users, d2, compare)
  {
  }

  /** The email is matched case-insensitively (on ASCII letters): logging in
      with a differently cased email gives the same outcome. */
  lemma LoginIgnoresCase(users: seq<User>, dto: LoginDto, compare: (string, string) -> bool)
    ensures LoginCheck(users, dto.(email := ToLower(dto.email)), compare) == LoginCheck(users, dto, compare)
  {
    ToLowerIdempotent(dto.email);
  }

  /** The decision of `refreshTokens`: a missing user, a missing or empty
      stored hash, and a token that does not match it are all `Forbidden`. */
  function RefreshCheck(users: seq<User>, userId: string, token: string,
                        compare: (string, string) -> bool): (r: Result<User>)
    ensures r.Ok? <==>
      && FindById(users, userId).Some?
      && FindById(users, userId).value.hashedRefreshToken.Some?
      && FindById(users, userId).value.hashedRefreshToken.value != []
      && compare(token, FindById(users, userId).value.hashedRefreshToken.value)
    ensures r.Ok? ==> r.value == FindById(users, userId).value
    ensures r.Err? ==> r.error == Forbidden(AccessDenied)
  {
    match FindById(users, userId)
    case None => Err(Forbidden(AccessDenied))
    case Some(u) =>
      match u.hashedRefreshToken
      case None => Err(Forbidden(AccessDenied))
      case Some(h) =>
        if h == [] || !compare(token, h) then Err(Forbidden(AccessDenied)) else Ok(u)
  }

  /** Refreshing with the token whose hash was just stored succeeds. */
  lemma RefreshAfterIssue(users: seq<User>, userId: string, token: string,
                          hash: string -> string, compare: (string, string) -> bool)
    requires HashContract(hash, compare)
    requires FindById(users, userId).Some?
    ensures RefreshCheck(SetRefreshToken(users, userId, Some(hash(token))), userId, token, compare).Ok?
  {
    SetRefreshTokenSelf(users, userId, Some(hash(token)));
  }

  /** After logout cleared the stored hash, no token refreshes that user. */
  lemma RefreshAfterLogout(users: seq<User>, userId: string, token: string,
                           compare: (string, string) -> bool)
    ensures RefreshCheck(SetRefreshToken(users, userId, None), userId, token, compare) ==
      Err(Forbidden(AccessDenied))
  {
    var r := SetRefreshToken(users, userId, None);
    if FindById(users, userId).Some? {
      SetRefreshTokenSelf(users, userId, None);
    } else {
      assert forall i :: 0 <= i < |r| ==> r[i].id != userId;
    }
  }

  /** Logging out one user does not log out anybody else. */
  lemma LogoutKeepsOthers(users: seq<User>, userId: string, other: string, token: string,
                          compare: (string, string) -> bool)
    requires other != userId
    ensures RefreshCheck(SetRefreshToken(users, userId, None), other, token, compare) ==
      RefreshCheck(users, other, token, compare)
  {
    SetRefreshTokenOthers(users, userId, None, other);
  }

  class AuthService {
    const users: UsersService
    const hash: string -> string
    const compare: (string, string) -> bool
    const sign: (JwtPayload, TokenKind) -> string

    constructor(users: UsersService, hash: string -> string, compare: (string, string) -> bool,
                sign: (JwtPayload, TokenKind) -> string)
      requires HashContract(hash, compare)
      ensures this.users == users && this.hash == hash && this.compare == compare && this.sign == sign
      ensures HashContract(this.hash, this.compare)
    {
      this.users := users;
      this.hash := hash;
      this.compare := compare;
      this.sign := sign;
    }

    ghost predicate Valid()
      reads users.db
    {
      HashContract(hash, compare) && users.db.Valid()
    }

    /** `issueTokensForUser`: signs an access and a refresh token over the
        user's claims, stores the hash of the refresh token, and returns the
        stripped user with both tokens. */
    method IssueTokensForUser(u: User) returns (r: AuthResponse)
      requires Valid()
      modifies users.db
      ensures r.accessToken == sign(PayloadOf(u), AccessToken)
      ensures r.refreshToken == sign(PayloadOf(u), RefreshToken)
      ensures Some(r.user) == StripSensitiveFields(Some(u))
      ensures users.db.users == SetRefreshToken(old(users.db.users), u.id, Some(hash(r.refreshToken)))
      ensures users.db.courses == old(users.db.courses) && users.db.tasks == old(users.db.tasks)
      ensures users.db.submissions == old(users.db.submissions) && users.db.files == old(users.db.files)
      ensures Valid()
      ensures FindById(old(users.db.users), u.id).Some? ==>
        RefreshCheck(users.db.users, u.id, r.refreshToken, compare).Ok?
    {
      var payload := PayloadOf(u);
      var accessToken := sign(payload, AccessToken);
      var refreshToken := sign(payload, RefreshToken);
      users.StoreRefreshToken(u.id, hash(refreshToken));
      if FindById(old(users.db.users), u.id).Some? {
        RefreshAfterIssue(old(users.db.users), u.id, refreshToken, hash, compare);
      }
      r := AuthResponse(SafeUser(u.id, u.email, u.fullName, u.role), accessToken, refreshToken);
    }

    /** `register`: a taken (lower-cased) email is a conflict and creates
        nothing; otherwise the user is created with the lower-cased email and
        the password's hash, and signed in. */
    method Register(dto: RegisterDto, newId: string) returns (r: Result<AuthResponse>)
      requires Valid()
      requires forall i :: 0 <= i < |users.db.users| ==> users.db.users[i].id != newId
      modifies users.db
      ensures Valid()
      ensures FindByEmail(old(users.db.users), ToLower(dto.email)).Some? ==>
        r == Err(Conflict(EmailTaken)) && users.db.users == old(users.db.users)
      ensures FindByEmail(old(users.db.users), ToLower(dto.email)).None? ==>
        var u := NewUser(CreateUserDto(dto.fullName, ToLower(dto.email), hash(dto.password), dto.role), newId);
        && r.Ok?
        && Some(r.value.user) == StripSensitiveFields(Some(u))
        && r.value.accessToken == sign(PayloadOf(u), AccessToken)
        && r.value.refreshToken == sign(PayloadOf(u), RefreshToken)
        && users.db.users == old(users.db.users) + [u.(hashedRefreshToken := Some(hash(r.value.refreshToken)))]
      ensures users.db.courses == old(users.db.courses) && users.db.tasks == old(users.db.tasks)
      ensures users.db.submissions == old(users.db.submissions) && users.db.files == old(users.db.files)
    {
      var email := ToLower(dto.email);
      if FindByEmail(users.db.users, email).Some? {
        return Err(Conflict(EmailTaken));
      }
      var u := users.Create(CreateUserDto(dto.fullName, email, hash(dto.password), dto.role), newId);
      var response := IssueTokensForUser(u);
      AppendThenSet(old(users.db.users), u, Some(hash(response.refreshToken)));
      r := Ok(response);
    }

    /** `login`: the decision is `LoginCheck`; a successful login issues new tokens. */
    method Login(dto: LoginDto) returns (r: Result<AuthResponse>)
      requires Valid()
      modifies users.db
      ensures Valid()
      ensures var check := LoginCheck(old(users.db.users), dto, compare);
        && (check.Err? ==> r == Err(check.error) && users.db.users == old(users.db.users))
        && (check.Ok? ==>
              && r.Ok?
              && Some(r.value.user) == StripSensitiveFields(Some(check.value))
              && r.value.accessToken == sign(PayloadOf(check.value), AccessToken)
              && r.value.refreshToken == sign(PayloadOf(check.value), RefreshToken)
              && users.db.users == SetRefreshToken(old(users.db.users), check.value.id, Some(hash(r.value.refreshToken))))
      ensures users.db.courses == old(users.db.courses) && users.db.tasks == old(users.db.tasks)
      ensures users.db.submissions == old(users.db.submissions) && users.db.files == old(users.db.files)
    {
      var check := LoginCheck(users.db.users, dto, compare);
      if check.Err? {
        return Err(check.error);
      }
      var response := IssueTokensForUser(check.value);
      r := Ok(response);
    }

    /** `logout`: clears the stored refresh hash. */
    method Logout(userId: string)
      requires Valid()
      modifies users.db
      ensures Valid()
      ensures users.db.users == SetRefreshToken(old(users.db.users), userId, None)
      ensures users.db.courses == old(users.db.courses) && users.db.tasks == old(users.db.tasks)
      ensures users.db.submissions == old(users.db.submissions) && users.db.files == old(users.db.files)
      ensures forall token :: RefreshCheck(users.db.users, userId, token, compare) == Err(Forbidden(AccessDenied))
    {
      users.ClearRefreshToken(userId);
      forall token {
        RefreshAfterLogout(old(users.db.users), userId, token, compare);
      }
    }

    /** `refreshTokens`: the decision is `RefreshCheck`; success issues a new
        pair and replaces the stored hash. */
    method RefreshTokens(userId: string, token: string) returns (r: Result<AuthResponse>)
      requires Valid()
      modifies users.db
      ensures Valid()
      ensures var check := RefreshCheck(old(users.db.users), userId, token, compare);
        && (check.Err? ==> r == Err(check.error) && users.db.users == old(users.db.users))
        && (check.Ok? ==>
              && r.Ok?
              && Some(r.value.user) == StripSensitiveFields(Some(check.value))
              && r.value.accessToken == sign(PayloadOf(check.value), AccessToken)
              && r.value.refreshToken == sign(PayloadOf(check.value), RefreshToken)
              && users.db.users == SetRefreshToken(old(users.db.users), userId, Some(hash(r.value.refreshToken)))
              && RefreshCheck(users.db.users, userId, r.value.refreshToken, compare).Ok?)
      ensures users.db.courses == old(users.db.courses) && users.db.tasks == old(users.db.tasks)
      ensures users.db.submissions == old(users.db.submissions) && users.db.files == old(users.db.files)
    {
      var check := RefreshCheck(users.db.users, userId, token, compare);
      if check.Err? {
        return Err(check.error);
      }
      var response := IssueTokensForUser(check.value);
      r := Ok(response);
    }
  }

  /** Setting the hash of the user just appended changes only that row. */
  lemma AppendThenSet(users: seq<User>, u: User, h: Option<string>)
    requires forall i :: 0 <= i < |users| ==> users[i].id != u.id
    ensures SetRefreshToken(users + [u], u.id, h) == users + [u.(hashedRefreshToken := h)]
  {
  }
}
