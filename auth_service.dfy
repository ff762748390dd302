/**
 * Registration and login. Registration refuses an address already held,
 * stores a digest of the password, and returns a brief view of the user with a
 * signed token; login answers one and the same 401 for an unknown address and
 * for a wrong password.
 */
module AuthService {
  import opened Wrappers
  import Text
  import opened Credentials
  import opened ErrorHandling
  import opened UserSchema
  import opened Store
  import opened Documents

  /** The user as the service returns it: without `phoneNumber` after registering, with it after login. */
  datatype UserView =
    | Brief(id: Id, name: string, email: string, role: string)
    | Full(id: Id, name: string, email: string, role: string, phoneNumber: Option<string>)

  datatype Session = Session(user: UserView, token: string)

  const EmailTaken: Error := Error(Some(409), "Email already registered", None)
  const InvalidCredentials: Error := Error(Some(401), "Invalid credentials", None)

  /** What the password library throws for an absent password; `second` names the type of its other argument. */
  function IllegalArguments(second: string): Error
  {
    Error(None, "Illegal arguments: undefined, " + second, None)
  }

  /** The validation error the user model throws, naming the failing paths. */
  function ValidationFailed(paths: seq<string>): Error
  {
    Error(None, "User validation failed: " + Text.Join(paths, ", "), None)
  }

  /** The address a lookup by `{ email }` compares with: the schema lowercases query values too. */
  function LookupKey(email: Option<string>): string
  {
    Text.Lower(OrEmpty(email))
  }

  /** `User.findOne({ email })` on a table whose addresses are unique. */
  function FindByEmail(users: map<Id, User>, email: string): (r: Option<Id>)
    requires UniqueEmails(users)
    ensures r.Some? ==> r.value in users && users[r.value].email == email
    ensures r.None? <==> !EmailInUse(users, email)
  {
    if EmailInUse(users, email) then
      var id :| id in users && users[id].email == email; Some(id)
    else None
  }

  /** The body with its password replaced by the digest `hash` makes of it. */
  function Hashed(body: UserInput, hash: string -> string): UserInput
    requires body.password.Some?
  {
    UserInput(body.name, body.email, Some(hash(body.password.value)), body.role, body.phoneNumber)
  }

  /**
   * `registerUser(body)`, with `bcrypt.hash` (and its salt) as `hash`,
   * `jwt.sign` (and its secret) as `sign`, and `newId` the id the new
   * document receives.
   */
  method RegisterUser(db: Database, body: UserInput, hash: string -> string, sign: Claims -> string, newId: Id)
    returns (r: Result<Session, Error>)
    requires db.Valid() && newId !in db.users
    modifies db
    ensures db.Valid()
    ensures db.listings == old(db.listings) && db.imageDeletes == old(db.imageDeletes)
    ensures EmailInUse(old(db.users), LookupKey(body.email)) ==> r == Err(EmailTaken)
    ensures !EmailInUse(old(db.users), LookupKey(body.email)) && body.password.None? ==>
      r == Err(IllegalArguments("number"))
    ensures !EmailInUse(old(db.users), LookupKey(body.email)) && body.password.Some? && MakeUser(Hashed(body, hash)).Err? ==>
      r == Err(ValidationFailed(MakeUser(Hashed(body, hash)).error))
    ensures r.Ok? <==>
      !EmailInUse(old(db.users), LookupKey(body.email)) && body.password.Some? && MakeUser(Hashed(body, hash)).Ok?
    ensures r.Ok? ==>
      body.password.Some? && MakeUser(Hashed(body, hash)).Ok? &&
      var u := MakeUser(Hashed(body, hash)).value;
      db.users == old(db.users)[newId := u]
      && r.value == Session(Brief(newId, u.name, u.email, u.role), sign(Claims(newId, u.role)))
    ensures r.Err? ==> db.users == old(db.users)
  {
    var key := LookupKey(body.email);
    if FindByEmail(db.users, key).Some? {
      r := Err(EmailTaken);
    } else if body.password.None? {
      r := Err(IllegalArguments("number"));
    } else {
      var input := Hashed(body, hash);
      MakeUserEmail(input);
      var created := db.CreateUser(input, newId);
      match created
      case Err(paths) =>
        r := Err(ValidationFailed(paths));
      case Ok(u) =>
        r := Ok(Session(Brief(newId, u.name, u.email, u.role), sign(Claims(newId, u.role))));
    }
  }

  /** A user built from a body is filed under the address a lookup by that body's `email` uses. */
  lemma MakeUserEmail(body: UserInput)
    ensures MakeUser(body).Ok? ==> MakeUser(body).value.email == LookupKey(body.email)
  {
  }

  /** `loginUser({ email, password })`, with `bcrypt.compare` as `compare` and `jwt.sign` as `sign`. */
  function Login(users: map<Id, User>, email: Option<string>, password: Option<string>,
                 compare: (string, string) -> bool, sign: Claims -> string): (r: Result<Session, Error>)
    requires UniqueEmails(users)
    ensures r.Err? ==> r.error == InvalidCredentials || (password.None? && r.error == IllegalArguments("string"))
    ensures r == Err(IllegalArguments("string")) <==> password.None? && EmailInUse(users, LookupKey(email))
    ensures r.Ok? <==>
      password.Some? &&
      exists id :: id in users && users[id].email == LookupKey(email) && compare(password.value, users[id].password)
    ensures r.Ok? ==>
      var id := r.value.user.id;
      && id in users && users[id].email == LookupKey(email)
      && password.Some? && compare(password.value, users[id].password)
      && r.value == Session(Full(id, users[id].name, users[id].email, users[id].role, users[id].phoneNumber),
                            sign(Claims(id, users[id].role)))
  {
    match FindByEmail(users, LookupKey(email))
    case None => Err(InvalidCredentials)
    case Some(id) =>
      if password.None? then Err(IllegalArguments("string"))
      else if !compare(password.value, users[id].password) then Err(InvalidCredentials)
      else
        var u := users[id];
        Ok(Session(Full(id, u.name, u.email, u.role, u.phoneNumber), sign(Claims(id, u.role))))
  }

  /**
   * A caller cannot tell an unknown address from a wrong password: both
   * produce the same error, status and message.
   */
  lemma LoginDoesNotRevealAccounts(users: map<Id, User>, email: Option<string>, password: string,
                                   compare: (string, string) -> bool, sign: Claims -> string)
    requires UniqueEmails(users)
    ensures !EmailInUse(users, LookupKey(email)) ==>
      Login(users, email, Some(password), compare, sign) == Err(InvalidCredentials)
    ensures (forall id :: id in users && users[id].email == LookupKey(email) ==> !compare(password, users[id].password)) ==>
      Login(users, email, Some(password), compare, sign) == Err(InvalidCredentials)
  {
  }

  /**
   * Whoever registers can log in with the same address (in any letter case)
   * and password, as long as the password library accepts a password against
   * its own digest; the session names the new user and carries its claims.
   */
  lemma RegisteredUserCanLogIn(users: map<Id, User>, body: UserInput, hash: string -> string,
                               compare: (string, string) -> bool, sign: Claims -> string, newId: Id)
    requires UniqueEmails(users) && newId !in users
    requires !EmailInUse(users, LookupKey(body.email))
    requires body.password.Some? && MakeUser(Hashed(body, hash)).Ok?
    requires compare(body.password.value, hash(body.password.value))
    ensures var u := MakeUser(Hashed(body, hash)).value;
      && UniqueEmails(users[newId := u])
      && Login(users[newId := u], body.email, body.password, compare, sign)
         == Ok(Session(Full(newId, u.name, u.email, u.role, u.phoneNumber), sign(Claims(newId, u.role))))
  {
    var u := MakeUser(Hashed(body, hash)).value;
    MakeUserKeepsCredentials(Hashed(body, hash));
    assert u.email == LookupKey(body.email);
    UniqueEmailsInsert(users, newId, u);
    var users' := users[newId := u];
    assert newId in users' && users'[newId].email == LookupKey(body.email);
    var found := FindByEmail(users', LookupKey(body.email));
    assert found.Some?;
    assert users'[found.value].email == users'[newId].email;
  }

  /** The stored password is the digest of the one supplied, never the password itself (unless the digest is). */
  lemma StoresDigest(body: UserInput, hash: string -> string)
    requires body.password.Some? && MakeUser(Hashed(body, hash)).Ok?
    ensures MakeUser(Hashed(body, hash)).value.password == hash(body.password.value)
  {
    MakeUserKeepsCredentials(Hashed(body, hash));
  }
}
