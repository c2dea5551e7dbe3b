/**
 * The authentication API (api/auth): registration adds a user, login checks a
 * password and issues a signed bearer token whose claims carry the user's id,
 * the id every other controller compares with an event's organizer.
 * Password hashing, the identity library's validators and token signing are
 * library code: they enter as uninterpreted functions.
 */
module AuthController {
  import opened Text
  import opened Models
  import opened Store
  import opened EventsController

  /** The library behaviour the controller relies on without seeing it. */
  datatype Libraries = Libraries(
    hashPassword: string -> string,
    verifyPassword: (string, string) -> bool,    // (stored hash, offered password)
    createSucceeds: (User, string) -> bool,      // the user and password validators run by CreateAsync
    sign: (seq<Claim>, int, string) -> string)   // (claims, expiry, key) to HS256 signature

  /** The token settings read from configuration. */
  datatype JwtSettings = JwtSettings(key: string, issuer: string, audience: string)

  /** The body of POST api/auth/register; a missing name is `None`, a missing e-mail or password "". */
  datatype RegisterModel = RegisterModel(
    firstName: Option<string>,
    lastName: Option<string>,
    email: string,
    password: string)

  /** The body of POST api/auth/login. */
  datatype LoginModel = LoginModel(email: string, password: string)

  datatype Token = Token(claims: seq<Claim>, issuer: string, audience: string, expires: int, signature: string)

  datatype UserSummary = UserSummary(id: string, email: string, firstName: string, lastName: string)

  datatype LoginResponse = LoginResponse(token: Token, expiration: int, user: UserSummary)

  /** How long an issued token stays valid: three hours, in seconds. */
  const TokenLifetime: int := 3 * 60 * 60

  /**
   * Whether a register or login body lacks its credentials. `Email` and
   * `Password` are non-nullable, so model validation gives them an implicit
   * `[Required]`: a blank value is refused with 400 before the action's own
   * `IsNullOrEmpty` test, which then refuses nothing more.
   */
  predicate CredentialsMissing(email: string, password: string)
  {
    !Required(Some(email)) || !Required(Some(password))
  }

  function Or(s: Option<string>, default: string): string
  {
    if s.Some? then s.value else default
  }

  /**
   * The identity library's lookup by e-mail: e-mails are compared after
   * upper-casing, and the store keeps at most one user per upper-cased e-mail.
   */
  function FindByEmail(db: Database, email: string): (r: Option<User>)
    reads db
    requires db.Valid()
    ensures r.Some? <==> exists u :: u in db.users && Upper(db.users[u].email) == Upper(email)
    ensures r.Some? ==> r.value.id in db.users && db.users[r.value.id] == r.value
    ensures r.Some? ==> Upper(r.value.email) == Upper(email)
  {
    if exists u :: u in db.users && Upper(db.users[u].email) == Upper(email) then
      var u :| u in db.users && Upper(db.users[u].email) == Upper(email);
      Some(db.users[u])
    else
      None
  }

  /** The user a registration creates under the id `id`. */
  function NewUser(model: RegisterModel, id: string, lib: Libraries): User
  {
    User(id, model.email, model.email, Or(model.firstName, ""), Or(model.lastName, ""),
         lib.hashPassword(model.password))
  }

  /**
   * POST api/auth/register: a blank e-mail or password is a bad request
   * before any lookup; so is an e-mail some user already has, and a user or
   * password the identity library's validators refuse. Otherwise the user is
   * added under the fresh id `newId`, with the e-mail as user name and a
   * missing first or last name stored as "", unless the store refuses a
   * value too long for its column, which nothing catches (a server error).
   */
  method Register(db: Database, model: RegisterModel, newId: string, lib: Libraries) returns (r: Outcome<string>)
    requires db.Valid()
    requires newId != "" && newId !in db.users
    modifies db
    ensures db.Valid()
    ensures db.events == old(db.events) && db.attendees == old(db.attendees)
    ensures CredentialsMissing(model.email, model.password) ==> r == BadRequest
    ensures !CredentialsMissing(model.email, model.password) && old(FindByEmail(db, model.email)).Some? ==> r == BadRequest
    ensures !CredentialsMissing(model.email, model.password) && old(FindByEmail(db, model.email)).None? ==>
      (r.Ok? <==> lib.createSucceeds(NewUser(model, newId, lib), model.password) && UserFitsColumns(NewUser(model, newId, lib)))
    ensures (&& !CredentialsMissing(model.email, model.password) && old(FindByEmail(db, model.email)).None?
             && !lib.createSucceeds(NewUser(model, newId, lib), model.password)) ==> r == BadRequest
    ensures (&& !CredentialsMissing(model.email, model.password) && old(FindByEmail(db, model.email)).None?
             && lib.createSucceeds(NewUser(model, newId, lib), model.password)
             && !UserFitsColumns(NewUser(model, newId, lib))) ==> r == StorageFailure
    ensures !r.Ok? ==> r in {BadRequest, StorageFailure} && unchanged(db)
    ensures r.Ok? ==>
      && newId in db.users && db.users == old(db.users)[newId := db.users[newId]]
      && db.users[newId].id == newId
      && db.users[newId].email == model.email && db.users[newId].userName == model.email
      && db.users[newId].firstName == Or(model.firstName, "")
      && db.users[newId].lastName == Or(model.lastName, "")
      && db.users[newId].passwordHash == lib.hashPassword(model.password)
  {
    if CredentialsMissing(model.email, model.password) {
      return BadRequest;
    }
    var existing := FindByEmail(db, model.email);
    if existing.Some? {
      return BadRequest;
    }
    var user := NewUser(model, newId, lib);
    if !lib.createSucceeds(user, model.password) {
      return BadRequest;
    }
    var saved := db.AddUser(user);
    if !saved {
      return StorageFailure;
    }
    r := Ok("User created successfully!");
  }

  /** The claims a login puts in the token, in the order the source lists them. */
  function AuthClaims(user: User, jti: string): seq<Claim>
  {
    [Claim(Sub, user.id), Claim(EmailClaim, user.email), Claim(Jti, jti), Claim(NameIdentifier, user.id)]
  }

  /**
   * POST api/auth/login: a blank e-mail or password is a bad request; an
   * unknown e-mail or a wrong password is unauthorized. Otherwise the answer
   * carries a token, signed with the configured key, that identifies the user
   * by id and expires three hours after `now`; `jti` is the token's fresh id.
   */
  function Login(db: Database, model: LoginModel, lib: Libraries, jwt: JwtSettings, now: int, jti: string): (r: Outcome<LoginResponse>)
    reads db
    requires db.Valid()
    ensures CredentialsMissing(model.email, model.password) ==> r == BadRequest
    ensures !CredentialsMissing(model.email, model.password) ==>
      (r.Ok? <==> exists u :: u in db.users && Upper(db.users[u].email) == Upper(model.email)
                                && lib.verifyPassword(db.users[u].passwordHash, model.password))
    ensures !CredentialsMissing(model.email, model.password) && !r.Ok? ==> r == Unauthorized
    ensures r.Ok? ==>
      && r.value.user.id in db.users
      && Upper(db.users[r.value.user.id].email) == Upper(model.email)
      && r.value.expiration == r.value.token.expires == now + TokenLifetime
      && db.users[r.value.user.id].email == r.value.user.email
      && Claim(Sub, r.value.user.id) in r.value.token.claims
      && Claim(NameIdentifier, r.value.user.id) in r.value.token.claims
      && (forall c :: c in r.value.token.claims && c.claimType in {Sub, NameIdentifier} ==> c.value == r.value.user.id)
      && GetCurrentUserId(r.value.token.claims) == r.value.user.id
  {
    if CredentialsMissing(model.email, model.password) then BadRequest
    else
      var found := FindByEmail(db, model.email);
      if found.None? || !lib.verifyPassword(found.value.passwordHash, model.password) then Unauthorized
      else
        var user := found.value;
        var claims := AuthClaims(user, jti);
        var expires := now + TokenLifetime;
        var token := Token(claims, jwt.issuer, jwt.audience, expires, lib.sign(claims, expires, jwt.key));
        Ok(LoginResponse(token, expires, UserSummary(user.id, user.email, user.firstName, user.lastName)))
  }
}
