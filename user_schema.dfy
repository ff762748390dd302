/**
 * The user schema: `name` required and trimmed, `email` required, lowercased
 * and unique, `password` required, `role` one of three values with "Owner" as
 * the default, `phoneNumber` optional and trimmed.
 */
module UserSchema {
  import opened Wrappers
  import Text

  const Roles: seq<string> := ["Owner", "Builder", "Agent"]

  datatype User = User(name: string, email: string, password: string, role: string, phoneNumber: Option<string>)

  /** The fields handed to the user model when a user is created. */
  datatype UserInput = UserInput(
    name: Option<string>,
    email: Option<string>,
    password: Option<string>,
    role: Option<string>,
    phoneNumber: Option<string>)

  /** What a stored user looks like: the invariant of the user table's rows. */
  predicate WellFormed(u: User)
  {
    && u.name != "" && Text.IsTrimmed(u.name)
    && u.email != "" && Text.IsLower(u.email)
    && u.password != ""
    && u.role in Roles
    && (u.phoneNumber.Some? ==> Text.IsTrimmed(u.phoneNumber.value))
  }

  /**
   * A well-formed user is a fixed point of the setters: lowercasing its
   * address and trimming its name and phone number change nothing.
   */
  lemma WellFormedIsSet(u: User)
    requires WellFormed(u)
    ensures Text.Lower(u.email) == u.email && Text.Trim(u.name) == u.name
    ensures TrimOpt(u.phoneNumber) == u.phoneNumber
  {
    Text.LowerFixesLower(u.email);
    Text.TrimFixesTrimmed(u.name);
    if u.phoneNumber.Some? {
      Text.TrimFixesTrimmed(u.phoneNumber.value);
    }
  }

  /** A string field as validators read it: `undefined` reads as the empty string. */
  function OrEmpty(x: Option<string>): (s: string)
    ensures x.Some? ==> s == x.value
    ensures x.None? ==> s == ""
  {
    if x.Some? then x.value else ""
  }

  function TrimOpt(x: Option<string>): Option<string>
  {
    match x
    case None => None
    case Some(s) => Some(Text.Trim(s))
  }

  /** The paths whose validators fail on the already-set field values, in schema order. */
  function UserErrors(name: string, email: string, password: string, role: string): (r: seq<string>)
    ensures r == [] <==> name != "" && email != "" && password != "" && role in Roles
  {
    (if name == "" then ["name"] else [])
    + (if email == "" then ["email"] else [])
    + (if password == "" then ["password"] else [])
    + (if role !in Roles then ["role"] else [])
  }

  /**
   * The user the model builds from `input`, or the paths whose validators
   * fail. Setters run first: `name` and `phoneNumber` are trimmed and `email`
   * lowercased before `required` is checked.
   */
  function MakeUser(input: UserInput): (r: Result<User, seq<string>>)
    ensures r.Ok? <==>
      && Text.Trim(OrEmpty(input.name)) != ""
      && Text.Lower(OrEmpty(input.email)) != ""
      && OrEmpty(input.password) != ""
      && input.role.GetOr("Owner") in Roles
    ensures r.Ok? ==>
      r.value == User(Text.Trim(OrEmpty(input.name)), Text.Lower(OrEmpty(input.email)), OrEmpty(input.password),
                      input.role.GetOr("Owner"), TrimOpt(input.phoneNumber))
    ensures r.Err? ==>
      r.error != [] &&
      r.error == UserErrors(Text.Trim(OrEmpty(input.name)), Text.Lower(OrEmpty(input.email)), OrEmpty(input.password),
                            input.role.GetOr("Owner"))
  {
    var name := Text.Trim(OrEmpty(input.name));
    var email := Text.Lower(OrEmpty(input.email));
    var password := OrEmpty(input.password);
    var role := input.role.GetOr("Owner");
    var errors := UserErrors(name, email, password, role);
    if errors == [] then
      Ok(User(name, email, password, role, TrimOpt(input.phoneNumber)))
    else Err(errors)
  }

  /** Every user the model creates is well formed. */
  lemma MakeUserWellFormed(input: UserInput)
    requires MakeUser(input).Ok?
    ensures WellFormed(MakeUser(input).value)
  {
    Text.TrimIsTrimmed(OrEmpty(input.name));
    Text.LowerIsLower(OrEmpty(input.email));
    Text.TrimIsTrimmed(OrEmpty(input.phoneNumber));
  }

  /** Feeding a well-formed user's own fields back through the schema rebuilds that user. */
  lemma MakeUserRebuilds(u: User)
    requires WellFormed(u)
    ensures MakeUser(UserInput(Some(u.name), Some(u.email), Some(u.password), Some(u.role), u.phoneNumber)) == Ok(u)
  {
    WellFormedIsSet(u);
  }

  /**
   * A created user keeps the given password and the lowercased address; both
   * fields were supplied, since `required` refuses a missing one.
   */
  lemma MakeUserKeepsCredentials(input: UserInput)
    requires MakeUser(input).Ok?
    ensures input.email.Some? && MakeUser(input).value.email == Text.Lower(input.email.value)
    ensures input.password.Some? && MakeUser(input).value.password == input.password.value
  {
  }

  /** A missing role becomes "Owner"; a present one must be one of the three roles. */
  lemma RoleDefault(input: UserInput)
    requires MakeUser(input).Ok?
    ensures input.role.None? ==> MakeUser(input).value.role == "Owner"
    ensures input.role.Some? ==> input.role.value in Roles
  {
  }

  /** Each required field, when missing, is reported. */
  lemma RequiredUserFields(input: UserInput)
    ensures input.name.None? ==> MakeUser(input).Err? && "name" in MakeUser(input).error
    ensures input.email.None? ==> MakeUser(input).Err? && "email" in MakeUser(input).error
    ensures input.password.None? ==> MakeUser(input).Err? && "password" in MakeUser(input).error
  {
  }

  /** The unique index on `email`: no two rows share an address. */
  predicate UniqueEmails<K>(users: map<K, User>)
  {
    forall a, b :: a in users && b in users && a != b ==> users[a].email != users[b].email
  }

  /** Adding a row whose address is new keeps the addresses unique. */
  lemma UniqueEmailsInsert<K>(users: map<K, User>, k: K, u: User)
    requires UniqueEmails(users) && k !in users
    requires forall a :: a in users ==> users[a].email != u.email
    ensures UniqueEmails(users[k := u])
  {
  }
}
